/** The mutable per-topic record the server keeps for every catalog topic. */
module Records {
  import opened Wrappers
  import opened Text
  import opened Catalog
  import opened Ledger

  datatype Status = Disabled | Idle | Open | Closing | Closed

  datatype Visibility = Private | Public

  datatype TopicRecord = TopicRecord(
    status: Status,
    visibility: Visibility,
    closingEndsAt: Option<int>,
    votes: Votes)

  /** The record created at start-up: `disabled` exactly for an unimplemented topic, private, no deadline, no votes. */
  function InitialRecord(t: Topic): (r: TopicRecord)
    ensures r.status == (if t.implemented then Idle else Disabled)
    ensures r.visibility == Private && r.closingEndsAt == None && r.votes == []
  {
    TopicRecord(if t.implemented then Idle else Disabled, Private, None, [])
  }

  /**
    The start-up table: every catalog topic's id mapped to its initial record, in catalog order
    (a later topic with the same id would replace an earlier one).
   */
  function InitialRecords(catalog: seq<Topic>): map<string, TopicRecord> {
    if catalog == [] then map[]
    else InitialRecords(catalog[..|catalog| - 1])[catalog[|catalog| - 1].id := InitialRecord(catalog[|catalog| - 1])]
  }

  /** The start-up table has a record for exactly the catalog's ids, and with unique ids each topic gets its own initial record. */
  lemma {:induction false} InitialRecordsFit(catalog: seq<Topic>)
    requires CatalogValid(catalog)
    ensures InitialRecords(catalog).Keys == TopicIds(catalog)
    ensures forall t :: t in catalog ==> t.id in InitialRecords(catalog) && InitialRecords(catalog)[t.id] == InitialRecord(t)
  {
    if catalog != [] {
      var init := catalog[..|catalog| - 1];
      var last := catalog[|catalog| - 1];
      assert catalog == init + [last];
      CatalogValidPrefix(catalog, |init|);
      InitialRecordsFit(init);
      TopicIdsAppend(init, last);
      var r := InitialRecords(catalog);
      assert r == InitialRecords(init)[last.id := InitialRecord(last)];
      forall t | t in catalog ensures t.id in r && r[t.id] == InitialRecord(t) {
        var j :| 0 <= j < |catalog| && catalog[j] == t;
        if j < |init| {
          assert init[j] == t;
        }
      }
    }
  }

  /** `["public", "private"].includes(mode)`, read as a visibility. */
  function ParseVisibility(mode: Option<string>): (r: Option<Visibility>)
    ensures r == Some(Public) <==> mode == Some("public")
    ensures r == Some(Private) <==> mode == Some("private")
  {
    if mode == Some("public") then Some(Public)
    else if mode == Some("private") then Some(Private)
    else None
  }

  /**
    An entry as the vote handler stores it: a ballot for an option of the topic, under a
    display name that is not empty and has no surrounding whitespace, keyed by that name in lower case.
   */
  predicate EntryFits(t: Topic, e: Entry) {
    && HasOption(t, e.ballot.optionId)
    && e.ballot.displayName != []
    && !IsWhitespace(e.ballot.displayName[0])
    && !IsWhitespace(e.ballot.displayName[|e.ballot.displayName| - 1])
    && e.key == Lower(e.ballot.displayName)
  }

  /** A ledger as the vote handler leaves it: one entry per identity, each fitting the topic. */
  predicate LedgerFits(t: Topic, votes: Votes) {
    UniqueKeys(votes) && forall e :: e in votes ==> EntryFits(t, e)
  }

  /**
    The per-record invariants: `disabled` exactly when the topic is not implemented,
    a closing deadline exactly while `closing`, and a well-formed ledger.
   */
  predicate RecordFits(t: Topic, r: TopicRecord) {
    && (r.status == Disabled <==> !t.implemented)
    && (r.closingEndsAt.Some? <==> r.status == Closing)
    && LedgerFits(t, r.votes)
  }
}
