/**
  The poll lifecycle as a state invariant over the server's values (catalog, records,
  active topic, pending closing timers) and the transitions the handlers make, each shown
  to keep the invariant.
 */
module Lifecycle {
  import opened Wrappers
  import opened Text
  import opened Catalog
  import opened Ledger
  import opened Records

  /** A request field is truthy: present and not the empty string. */
  predicate Present(field: Option<string>) {
    field.Some? && field.value != ""
  }

  /** `voteRunning`: there is an active topic and its record is `open` or `closing`. */
  predicate Running(records: map<string, TopicRecord>, active: Option<string>) {
    active.Some? && active.value in records && records[active.value].status in {Open, Closing}
  }

  /**
    Every catalog topic has exactly one record, and that record fits the topic; in particular
    every ledger has unique keys.
   */
  predicate RecordsFit(catalog: seq<Topic>, records: map<string, TopicRecord>) {
    && records.Keys == TopicIds(catalog)
    && (forall t :: t in catalog ==> t.id in records && RecordFits(t, records[t.id]))
    && forall id :: id in records ==> UniqueKeys(records[id].votes)
  }

  /**
    The active topic, if any, is a non-empty id with a record that is not `disabled`,
    and only the active topic can be `open` or `closing`.
   */
  predicate ActiveFits(records: map<string, TopicRecord>, active: Option<string>) {
    && (active.Some? ==> active.value != "" && active.value in records && records[active.value].status != Disabled)
    && forall id :: id in records && records[id].status in {Open, Closing} ==> active == Some(id)
  }

  /** A closing timer is pending for a topic exactly while it is `closing`, due at its deadline. */
  predicate TimersFit(records: map<string, TopicRecord>, timers: map<string, int>) {
    && timers.Keys <= records.Keys
    && (forall id :: id in records ==> (id in timers <==> records[id].status == Closing))
    && forall id :: id in timers ==> records[id].closingEndsAt == Some(timers[id])
  }

  predicate PollInvariant(catalog: seq<Topic>, records: map<string, TopicRecord>,
                          active: Option<string>, timers: map<string, int>) {
    && CatalogValid(catalog)
    && RecordsFit(catalog, records)
    && ActiveFits(records, active)
    && TimersFit(records, timers)
  }

  /** Start-up: the initial records of the catalog, nothing active and no timers satisfy the invariant. */
  lemma InitialInvariant(catalog: seq<Topic>)
    requires CatalogValid(catalog)
    ensures PollInvariant(catalog, InitialRecords(catalog), None, map[])
    ensures forall t :: t in catalog ==> t.id in InitialRecords(catalog) && InitialRecords(catalog)[t.id] == InitialRecord(t)
  {
    var records := InitialRecords(catalog);
    InitialRecordsFit(catalog);
    forall id | id in records
      ensures records[id].votes == [] && records[id].status in {Idle, Disabled}
    {
      TopicIdsMember(catalog, id);
      var t :| t in catalog && t.id == id;
    }
  }

  /** Replacing the record of one catalog topic by one that fits it keeps every record fitting. */
  lemma ReplaceRecord(catalog: seq<Topic>, records: map<string, TopicRecord>, t: Topic, rec: TopicRecord)
    requires CatalogValid(catalog) && RecordsFit(catalog, records)
    requires t in catalog && RecordFits(t, rec)
    ensures RecordsFit(catalog, records[t.id := rec])
  {
    forall u | u in catalog && u.id == t.id ensures u == t {
      FindTopicUnique(catalog, t);
      FindTopicUnique(catalog, u);
    }
  }

  /** The catalog topic behind a record id. */
  lemma TopicOf(catalog: seq<Topic>, records: map<string, TopicRecord>, id: string) returns (t: Topic)
    requires RecordsFit(catalog, records) && id in records
    ensures t in catalog && t.id == id && RecordFits(t, records[id])
  {
    TopicIdsMember(catalog, id);
    t :| t in catalog && t.id == id;
  }

  /** A ballot as the vote handler stores it keeps a ledger fitting its topic. */
  lemma UpsertFits(t: Topic, votes: Votes, key: string, b: Ballot)
    requires LedgerFits(t, votes) && EntryFits(t, Entry(key, b))
    ensures LedgerFits(t, Upsert(votes, key, b))
  {
    UpsertUnique(votes, key, b);
    UpsertEntries(votes, key, b);
  }

  /**
    The entry an accepted vote writes fits the topic, once the handler has checked the option
    and that the sanitized name is not empty.
   */
  lemma CastEntryFits(t: Topic, voterName: string, optionId: string)
    requires HasOption(t, optionId) && SanitizeName(Some(voterName)) != []
    ensures EntryFits(t, CastEntry(voterName, optionId))
  {
    var name := SanitizeName(Some(voterName));
    assert CastEntry(voterName, optionId) == Entry(Lower(name), Ballot(optionId, name));
  }

  /** The pending timers once the record of `id` is replaced by `rec`: one due at its deadline exactly if it is `closing`. */
  function TimersFor(timers: map<string, int>, id: string, rec: TopicRecord): map<string, int>
    requires rec.status == Closing ==> rec.closingEndsAt.Some?
  {
    if rec.status == Closing then timers[id := rec.closingEndsAt.value] else timers - {id}
  }

  lemma ActiveAfterReplace(records: map<string, TopicRecord>, active: Option<string>, id: string, rec: TopicRecord)
    requires ActiveFits(records, active) && id in records
    requires rec.status in {Open, Closing} ==> active == Some(id)
    requires active == Some(id) ==> rec.status != Disabled
    ensures ActiveFits(records[id := rec], active)
  {
  }

  lemma TimersAfterReplace(records: map<string, TopicRecord>, timers: map<string, int>, id: string, rec: TopicRecord)
    requires TimersFit(records, timers) && id in records
    requires rec.status == Closing <==> rec.closingEndsAt.Some?
    ensures TimersFit(records[id := rec], TimersFor(timers, id, rec))
  {
  }

  /**
    Replacing the record of the catalog topic `t` keeps the invariant when the new record fits
    the topic, is `open` or `closing` only for the active topic, is not `disabled` if active,
    and the timers follow it.
   */
  lemma ReplaceStep(catalog: seq<Topic>, records: map<string, TopicRecord>, active: Option<string>,
                    timers: map<string, int>, t: Topic, rec: TopicRecord)
    requires PollInvariant(catalog, records, active, timers)
    requires t in catalog && RecordFits(t, rec)
    requires rec.status in {Open, Closing} ==> active == Some(t.id)
    requires active == Some(t.id) ==> rec.status != Disabled
    ensures PollInvariant(catalog, records[t.id := rec], active, TimersFor(timers, t.id, rec))
  {
    ReplaceRecord(catalog, records, t, rec);
    ActiveAfterReplace(records, active, t.id, rec);
    TimersAfterReplace(records, timers, t.id, rec);
  }

  /** A record whose status and deadline stay put leaves the timers as they are. */
  lemma SameTimers(records: map<string, TopicRecord>, timers: map<string, int>, id: string, rec: TopicRecord)
    requires TimersFit(records, timers) && id in records
    requires rec.status == records[id].status && rec.closingEndsAt == records[id].closingEndsAt
    requires rec.status == Closing ==> rec.closingEndsAt.Some?
    ensures TimersFor(timers, id, rec) == timers
  {
  }

  /** The closing timer fires: a `closing` topic becomes `closed` and its timer and deadline go. */
  lemma CloseStep(catalog: seq<Topic>, records: map<string, TopicRecord>, active: Option<string>,
                  timers: map<string, int>, id: string, rec: TopicRecord)
    requires PollInvariant(catalog, records, active, timers)
    requires id in timers && rec == records[id].(status := Closed, closingEndsAt := None)
    ensures records[id].status == Closing
    ensures PollInvariant(catalog, records[id := rec], active, timers - {id})
  {
    var t := TopicOf(catalog, records, id);
    ReplaceStep(catalog, records, active, timers, t, rec);
  }

  /** A ballot for an option of the open topic, under the key of its trimmed display name. */
  lemma VoteStep(catalog: seq<Topic>, records: map<string, TopicRecord>, active: Option<string>,
                 timers: map<string, int>, t: Topic, e: Entry, rec: TopicRecord)
    requires PollInvariant(catalog, records, active, timers)
    requires t in catalog && records[t.id].status == Open && EntryFits(t, e)
    requires rec == records[t.id].(votes := Upsert(records[t.id].votes, e.key, e.ballot))
    ensures PollInvariant(catalog, records[t.id := rec], active, timers)
  {
    UpsertFits(t, records[t.id].votes, e.key, e.ballot);
    ReplaceStep(catalog, records, active, timers, t, rec);
    SameTimers(records, timers, t.id, rec);
  }

  /** A new active topic (or none) while nothing runs, or re-selecting the running one. */
  lemma SelectStep(catalog: seq<Topic>, records: map<string, TopicRecord>, active: Option<string>,
                   timers: map<string, int>, next: Option<string>)
    requires PollInvariant(catalog, records, active, timers)
    requires next == active || !Running(records, active)
    requires next.Some? ==> next.value != "" && next.value in records && records[next.value].status != Disabled
    ensures PollInvariant(catalog, records, next, timers)
  {
  }

  /** Starting the active topic from `idle` or `closing`: it opens, and a pending timer is cancelled. */
  lemma StartStep(catalog: seq<Topic>, records: map<string, TopicRecord>, active: Option<string>,
                  timers: map<string, int>, id: string, rec: TopicRecord)
    requires PollInvariant(catalog, records, active, timers)
    requires active == Some(id) && records[id].status in {Idle, Closing}
    requires rec == records[id].(status := Open, closingEndsAt := None)
    ensures PollInvariant(catalog, records[id := rec], active, timers - {id})
  {
    var t := TopicOf(catalog, records, id);
    ReplaceStep(catalog, records, active, timers, t, rec);
  }

  /** Stopping the open active topic: it is `closing`, with a timer due at its deadline. */
  lemma StopStep(catalog: seq<Topic>, records: map<string, TopicRecord>, active: Option<string>,
                 timers: map<string, int>, id: string, due: int, rec: TopicRecord)
    requires PollInvariant(catalog, records, active, timers)
    requires active == Some(id) && records[id].status == Open
    requires rec == records[id].(status := Closing, closingEndsAt := Some(due))
    ensures PollInvariant(catalog, records[id := rec], active, timers[id := due])
  {
    var t := TopicOf(catalog, records, id);
    ReplaceStep(catalog, records, active, timers, t, rec);
  }

  /** Resetting the active topic: a fresh idle private record with no votes, no timer, nothing active. */
  lemma ResetStep(catalog: seq<Topic>, records: map<string, TopicRecord>, active: Option<string>,
                  timers: map<string, int>, id: string)
    requires PollInvariant(catalog, records, active, timers)
    requires active == Some(id) && records[id].status != Disabled
    ensures PollInvariant(catalog, records[id := TopicRecord(Idle, Private, None, [])], None, timers - {id})
  {
    var t := TopicOf(catalog, records, id);
    ReplaceStep(catalog, records, active, timers, t, TopicRecord(Idle, Private, None, []));
    SelectStep(catalog, records[id := TopicRecord(Idle, Private, None, [])], active, timers - {id}, None);
  }

  /** Changing the visibility of a topic touches nothing the invariant speaks about. */
  lemma VisibilityStep(catalog: seq<Topic>, records: map<string, TopicRecord>, active: Option<string>,
                       timers: map<string, int>, id: string, rec: TopicRecord)
    requires PollInvariant(catalog, records, active, timers)
    requires id in records && rec == records[id].(visibility := rec.visibility)
    ensures PollInvariant(catalog, records[id := rec], active, timers)
  {
    var t := TopicOf(catalog, records, id);
    ReplaceStep(catalog, records, active, timers, t, rec);
    SameTimers(records, timers, id, rec);
  }

  /** The records after `clearClosingTimer`: the topic's deadline, if it has a record, is nulled. */
  function WithoutDeadline(records: map<string, TopicRecord>, id: string): (r: map<string, TopicRecord>)
    ensures r.Keys == records.Keys
    ensures id in records ==> r[id].closingEndsAt == None
  {
    if id in records then records[id := records[id].(closingEndsAt := None)] else records
  }

  /** The records after `scheduleClosing`: the topic's deadline, if it has a record, is `due`. */
  function WithDeadline(records: map<string, TopicRecord>, id: string, due: int): (r: map<string, TopicRecord>)
    ensures r.Keys == records.Keys
    ensures id in records ==> r[id].closingEndsAt == Some(due)
  {
    if id in records then records[id := records[id].(closingEndsAt := Some(due))] else records
  }

  /** Clearing the deadline and then setting the status is one replacement of the record. */
  lemma ClearThenStatus(records: map<string, TopicRecord>, id: string, s: Status)
    requires id in records
    ensures var cleared := WithoutDeadline(records, id);
      cleared[id := cleared[id].(status := s)] == records[id := records[id].(status := s, closingEndsAt := None)]
  {
  }

  /** Setting the status and then scheduling the deadline is one replacement of the record. */
  lemma StatusThenDeadline(records: map<string, TopicRecord>, id: string, s: Status, due: int)
    requires id in records
    ensures WithDeadline(records[id := records[id].(status := s)], id, due)
         == records[id := records[id].(status := s, closingEndsAt := Some(due))]
  {
  }

  /** Writing a record and then clearing its deadline writes the record without a deadline. */
  lemma WriteThenClear(records: map<string, TopicRecord>, id: string, rec: TopicRecord)
    ensures WithoutDeadline(records[id := rec], id) == records[id := rec.(closingEndsAt := None)]
  {
  }
}
