/** `buildStatePayload`: the snapshot every client receives, recomputed from the records on demand. */
module Projection {
  import opened Wrappers
  import opened Catalog
  import opened Ledger
  import opened Records

  datatype TopicView = TopicView(
    id: string,
    title: string,
    question: string,
    chartType: string,
    implemented: bool,
    options: seq<OptionDef>,
    status: Status,
    visibility: Visibility,
    closingEndsAt: Option<int>,
    totals: map<string, nat>,
    names: Option<map<string, seq<string>>>)

  datatype StatePayload = StatePayload(activeTopicId: Option<string>, topics: seq<TopicView>)

  /** `x || null` on a nullable instant: 0 is falsy and becomes null. */
  function OrNull(t: Option<int>): Option<int> {
    if t == Some(0) then None else t
  }

  /** The ledger of a topic, empty when there is no record. */
  function LedgerOf(records: map<string, TopicRecord>, id: string): Votes {
    if id in records then records[id].votes else []
  }

  /** The view of one topic: catalog data, record state, totals and, for a public implemented topic, names. */
  function ProjectTopic(t: Topic, records: map<string, TopicRecord>): (v: TopicView)
    ensures v.id == t.id && v.options == t.options && v.implemented == t.implemented
    ensures v.totals == TopicTotals(t, LedgerOf(records, t.id))
    ensures v.names.Some? <==> t.id in records && records[t.id].visibility == Public && t.implemented
    ensures v.names.Some? ==> v.names.value == TopicNames(t, records[t.id].votes)
    ensures v.status == (if t.id in records then records[t.id].status else Disabled)
    ensures v.visibility == (if t.id in records then records[t.id].visibility else Private)
    ensures v.closingEndsAt == (if t.id in records && records[t.id].closingEndsAt != Some(0) then records[t.id].closingEndsAt else None)
  {
    var rec := if t.id in records then Some(records[t.id]) else None;
    TopicView(
      t.id, t.title, t.question, t.chartType, t.implemented, t.options,
      if rec.Some? then rec.value.status else Disabled,
      if rec.Some? then rec.value.visibility else Private,
      if rec.Some? then OrNull(rec.value.closingEndsAt) else None,
      TopicTotals(t, LedgerOf(records, t.id)),
      if rec.Some? && rec.value.visibility == Public && t.implemented
      then Some(TopicNames(t, rec.value.votes)) else None)
  }

  /** The whole payload: the active topic id and one view per catalog topic, in catalog order. */
  function Project(catalog: seq<Topic>, records: map<string, TopicRecord>, active: Option<string>): (p: StatePayload)
    ensures p.activeTopicId == active && |p.topics| == |catalog|
    ensures forall i {:trigger p.topics[i]} :: 0 <= i < |catalog| ==> p.topics[i] == ProjectTopic(catalog[i], records)
  {
    StatePayload(active, seq(|catalog|, i requires 0 <= i < |catalog| => ProjectTopic(catalog[i], records)))
  }

  /**
    Totals are recomputed from the ledger: an implemented topic has a total for every option,
    zero exactly when no ballot chose it, and the totals add up to the ballots for its options.
   */
  lemma ViewTotals(t: Topic, records: map<string, TopicRecord>)
    requires t.implemented && UniqueOptionIds(t)
    ensures var v := ProjectTopic(t, records);
      && v.totals.Keys == IdsOf(t.options)
      && (forall o :: o in v.totals ==> (v.totals[o] == 0 <==> forall e :: e in LedgerOf(records, t.id) ==> e.ballot.optionId != o))
      && SumTotals(t.options, v.totals) == CountIn(LedgerOf(records, t.id), IdsOf(t.options))
  {
    var votes := LedgerOf(records, t.id);
    TotalsAgreeWithLedger(t, votes);
    forall o | o in IdsOf(t.options)
      ensures Count(votes, o) == 0 <==> forall e :: e in votes ==> e.ballot.optionId != o
    {
      CountZero(votes, o);
    }
  }

  /** An unimplemented topic gets an empty totals map and no names. */
  lemma UnimplementedView(t: Topic, records: map<string, TopicRecord>)
    requires !t.implemented
    ensures ProjectTopic(t, records).totals == map[] && ProjectTopic(t, records).names == None
  {
  }

  /** When names are published, each option's list has exactly as many names as its total. */
  lemma NamesAgreeWithTotals(t: Topic, records: map<string, TopicRecord>)
    requires ProjectTopic(t, records).names.Some?
    ensures var v := ProjectTopic(t, records);
      && v.names.value.Keys == v.totals.Keys
      && forall o :: o in v.totals ==> |v.names.value[o]| == v.totals[o]
  {
  }
}
