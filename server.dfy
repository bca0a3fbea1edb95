/**
  The server context of the poll engine: the catalog, one record per topic, the active topic,
  the pending closing timers and the admin sessions, with the request handlers as methods.
  Every handler runs to completion before the next event is processed, so each method is one
  atomic step; the clock reading `now` is passed in, and a fresh session token is passed to login.
 */
module Server {
  import opened Wrappers
  import opened Catalog
  import opened Ledger
  import opened Records
  import opened Sessions
  import opened Projection
  import opened Lifecycle

  /** The grace window between stopping a vote and its automatic closing, in milliseconds. */
  const ClosingGraceMs: int := 5000

  /** The successful replies of the handlers. */
  datatype Notice =
    | VoteSaved          // "Stimme gespeichert"
    | ActiveCleared      // "Keine aktive Abstimmung", after clearing the selection
    | ActiveSet          // "Aktive Abstimmung gesetzt"
    | AlreadyStarted     // "Bereits gestartet"
    | Started            // "Abstimmung gestartet"
    | ClosingStarted     // "Abstimmung schliesst"
    | ResetDone          // "Abstimmung zurueckgesetzt"
    | VisibilityUpdated  // "Sichtbarkeit aktualisiert"

  /** The rejections of the handlers, one per distinct reason the server reports. */
  datatype Failure =
    | NoActiveVote       // 400 "Keine aktive Abstimmung"
    | ChoiceMissing      // 400 "Auswahl fehlt"
    | VoteNotOpen        // 400 "Abstimmung nicht geoeffnet"
    | NameRequired       // 400 "Name wird benoetigt"
    | InvalidChoice      // 400 "Ungueltige Auswahl"
    | WrongPassword      // 401 "Falsches Passwort"
    | NotLoggedIn        // 401 "Admin nicht angemeldet"
    | VoteRunning        // 400 "Abstimmung laeuft. Bitte zuerst stoppen."
    | TopicUnknown       // 404 "Abstimmung unbekannt"
    | TopicNotReady      // 400 "Dieses Thema ist noch nicht aktiv"
    | NoTopicSelected    // 400 "Kein Thema ausgewaehlt"
    | StateMissing       // 400 "Zustand fehlt"
    | TopicInactive      // 400 "Thema ist nicht aktiv"
    | ResetFirst         // 400 "Bitte zuerst zuruecksetzen"
    | NotRunning         // 400 "Abstimmung laeuft nicht"
    | InvalidMode        // 400 "Ungueltiger Modus"

  datatype Outcome = Done(notice: Notice) | Failed(failure: Failure)

  datatype LoginReply = LoggedIn(token: string, expiresAt: int) | LoginFailed(failure: Failure)

  class PollServer {
    const catalog: seq<Topic>
    const adminPassword: string
    var records: map<string, TopicRecord>
    var activeTopicId: Option<string>
    /** Pending closing timers: topic id to the instant the timer is due. */
    var closingTimers: map<string, int>
    /** Admin sessions: token to expiry instant. */
    var adminSessions: map<string, int>
    /** Every payload pushed to the connected listeners, oldest first. */
    var broadcasts: seq<StatePayload>

    ghost predicate Valid()
      reads this`records, this`activeTopicId, this`closingTimers
    {
      PollInvariant(catalog, records, activeTopicId, closingTimers)
    }

    /** The poll state a rejected request leaves alone. */
    ghost function PollState(): (map<string, TopicRecord>, Option<string>, map<string, int>, seq<StatePayload>)
      reads this`records, this`activeTopicId, this`closingTimers, this`broadcasts
    {
      (records, activeTopicId, closingTimers, broadcasts)
    }

    /** `buildStatePayload`, served on every pull and pushed on every change. */
    function BuildStatePayload(): StatePayload
      reads this`records, this`activeTopicId
    {
      Project(catalog, records, activeTopicId)
    }

    /** Start-up: one initial record per catalog topic, nothing active, no timers, no sessions. */
    constructor (catalog: seq<Topic>, adminPassword: string)
      requires CatalogValid(catalog)
      ensures Valid()
      ensures this.catalog == catalog && this.adminPassword == adminPassword
      ensures records == InitialRecords(catalog)
      ensures forall t :: t in catalog ==> t.id in records && records[t.id] == InitialRecord(t)
      ensures activeTopicId == None && closingTimers == map[] && adminSessions == map[] && broadcasts == []
    {
      var recs: map<string, TopicRecord> := map[];
      var i := 0;
      while i < |catalog|
        invariant 0 <= i <= |catalog|
        invariant recs == InitialRecords(catalog[..i])
      {
        assert catalog[..i + 1][..i] == catalog[..i];
        recs := recs[catalog[i].id := InitialRecord(catalog[i])];
        i := i + 1;
      }
      assert catalog[..i] == catalog;
      InitialInvariant(catalog);
      this.catalog := catalog;
      this.adminPassword := adminPassword;
      records := recs;
      activeTopicId := None;
      closingTimers := map[];
      adminSessions := map[];
      broadcasts := [];
    }

    /**
      `getTopicTotals`: an implemented topic starts every option at 0 and counts the ballots of
      its ledger one by one; the result is the totals map the projection publishes.
     */
    method GetTopicTotals(t: Topic) returns (totals: map<string, nat>)
      ensures totals == TopicTotals(t, LedgerOf(records, t.id))
    {
      if !t.implemented {
        return map[];
      }
      var ids := IdsOf(t.options);
      totals := map o | o in ids :: 0;
      assert totals == Tally(ids, []);
      if t.id !in records {
        return;
      }
      var votes := records[t.id].votes;
      var i := 0;
      while i < |votes|
        invariant 0 <= i <= |votes|
        invariant totals == Tally(ids, votes[..i])
      {
        assert votes[..i + 1] == votes[..i] + [votes[i]];
        TallyStep(ids, votes[..i], votes[i]);
        var o := votes[i].ballot.optionId;
        if o in totals {
          totals := totals[o := totals[o] + 1];
        }
        i := i + 1;
      }
      assert votes[..i] == votes;
    }

    /**
      `getNamesByOption`: every option starts with an empty list, and each ballot of the ledger
      appends its display name to its option's list, in ledger order.
     */
    method GetNamesByOption(t: Topic) returns (names: map<string, seq<string>>)
      ensures t.id in records ==> names == TopicNames(t, records[t.id].votes)
      ensures t.id !in records ==> names == map[]
    {
      if t.id !in records {
        return map[];
      }
      var ids := IdsOf(t.options);
      names := map o | o in ids :: [];
      assert names == NameLists(ids, []);
      var votes := records[t.id].votes;
      var i := 0;
      while i < |votes|
        invariant 0 <= i <= |votes|
        invariant names == NameLists(ids, votes[..i])
      {
        var b := votes[i].ballot;
        ghost var prev := names;
        if b.optionId in names {
          names := names[b.optionId := names[b.optionId] + [b.displayName]];
        }
        NameListsStep(ids, votes, i, prev, names);
        i := i + 1;
        assert names == NameLists(ids, votes[..i]);
      }
      assert votes[..i] == votes;
    }

    /** Pushes the current projection to every listener. */
    method BroadcastState()
      modifies this`broadcasts
      ensures broadcasts == old(broadcasts) + [BuildStatePayload()]
    {
      broadcasts := broadcasts + [BuildStatePayload()];
    }

    /** `createAdminSession`: registers the fresh token with an expiry one hour from now. */
    method CreateAdminSession(token: string, now: int) returns (expiresAt: int)
      modifies this`adminSessions
      ensures expiresAt == now + SessionTtl
      ensures adminSessions == old(adminSessions)[token := expiresAt]
    {
      expiresAt := now + SessionTtl;
      adminSessions := adminSessions[token := expiresAt];
    }

    /** `validateAdminToken`: accepts a live registered token; a registered token found expired is evicted. */
    method ValidateAdminToken(token: Option<string>, now: int) returns (ok: bool)
      modifies this`adminSessions
      ensures ok == TokenAccepted(old(adminSessions), token, now)
      ensures adminSessions == AfterValidation(old(adminSessions), token, now)
    {
      if token.None? || token.value == "" {
        return false;
      }
      if token.value !in adminSessions || adminSessions[token.value] == 0 {
        return false;
      }
      if adminSessions[token.value] < now {
        adminSessions := adminSessions - {token.value};
        return false;
      }
      return true;
    }

    /** `clearClosingTimer`: cancels the topic's timer if one is pending and nulls its deadline. */
    method ClearClosingTimer(topicId: string)
      modifies this`closingTimers, this`records
      ensures closingTimers == old(closingTimers) - {topicId}
      ensures records == WithoutDeadline(old(records), topicId)
    {
      if topicId in closingTimers {
        closingTimers := closingTimers - {topicId};
      }
      if topicId in records {
        records := records[topicId := records[topicId].(closingEndsAt := None)];
      }
    }

    /** `scheduleClosing`: cancels any earlier timer, then arms one due at `now + 5000`, the new deadline. */
    method ScheduleClosing(topicId: string, now: int)
      modifies this`closingTimers, this`records
      ensures records == WithDeadline(old(records), topicId, now + ClosingGraceMs)
      ensures closingTimers == if topicId in old(records) then old(closingTimers)[topicId := now + ClosingGraceMs]
                               else old(closingTimers) - {topicId}
    {
      ClearClosingTimer(topicId);
      if topicId !in records {
        return;
      }
      records := records[topicId := records[topicId].(closingEndsAt := Some(now + ClosingGraceMs))];
      closingTimers := closingTimers[topicId := now + ClosingGraceMs];
    }

    /**
      The event loop runs the closing timer of `topicId` at `now`: it fires only while it is
      still pending and due; then the topic, necessarily `closing`, becomes `closed`, its
      deadline is cleared, the timer forgets itself and the change is broadcast.
     */
    method FireClosingTimer(topicId: string, now: int) returns (fired: bool)
      requires Valid()
      modifies this`records, this`closingTimers, this`broadcasts
      ensures Valid()
      ensures fired == (topicId in old(closingTimers) && old(closingTimers)[topicId] <= now)
      ensures fired ==> old(records)[topicId].status == Closing
      ensures fired ==>
        && records == old(records)[topicId := old(records)[topicId].(status := Closed, closingEndsAt := None)]
        && closingTimers == old(closingTimers) - {topicId}
        && broadcasts == old(broadcasts) + [BuildStatePayload()]
      ensures !fired ==> PollState() == old(PollState())
    {
      fired := topicId in closingTimers && closingTimers[topicId] <= now;
      if fired {
        var rec := records[topicId].(status := Closed, closingEndsAt := None);
        CloseStep(catalog, records, activeTopicId, closingTimers, topicId, rec);
        records := records[topicId := rec];
        closingTimers := closingTimers - {topicId};
        BroadcastState();
      }
    }

    /** `POST /api/admin/login`: a matching non-empty password opens a session under the fresh token. */
    method Login(password: Option<string>, token: string, now: int) returns (r: LoginReply)
      requires IsSessionToken(token)
      modifies this`adminSessions
      ensures !Present(password) || password.value != adminPassword ==>
        r == LoginFailed(WrongPassword) && adminSessions == old(adminSessions)
      ensures Present(password) && password.value == adminPassword ==>
        && r == LoggedIn(token, now + SessionTtl)
        && adminSessions == old(adminSessions)[token := now + SessionTtl]
    {
      if !Present(password) || password.value != adminPassword {
        return LoginFailed(WrongPassword);
      }
      var expiresAt := CreateAdminSession(token, now);
      return LoggedIn(token, expiresAt);
    }

    /** The accepted vote's write: `record.votes.set(key, ballot)` on the open active topic, then the broadcast. */
    method StoreBallot(t: Topic, entry: Entry)
      requires Valid()
      requires t in catalog && activeTopicId == Some(t.id) && records[t.id].status == Open
      requires EntryFits(t, entry)
      modifies this`records, this`broadcasts
      ensures Valid()
      ensures records == old(records)[t.id := old(records)[t.id].(votes := Upsert(old(records)[t.id].votes, entry.key, entry.ballot))]
      ensures broadcasts == old(broadcasts) + [BuildStatePayload()]
    {
      var rec := records[t.id].(votes := Upsert(records[t.id].votes, entry.key, entry.ballot));
      VoteStep(catalog, records, activeTopicId, closingTimers, t, entry, rec);
      records := records[t.id := rec];
      BroadcastState();
    }

    /** The last two checks of `POST /api/vote` on the open active topic `t`, then the write. */
    method VoteOnOpenTopic(t: Topic, optionId: string, voterName: Option<string>) returns (r: Outcome)
      requires Valid()
      requires t in catalog && activeTopicId == Some(t.id) && records[t.id].status == Open
      modifies this`records, this`broadcasts
      ensures Valid()
      ensures SanitizeName(voterName) == [] ==> r == Failed(NameRequired)
      ensures SanitizeName(voterName) != [] && !HasOption(t, optionId) ==> r == Failed(InvalidChoice)
      ensures SanitizeName(voterName) != [] && HasOption(t, optionId) ==>
        var rec := old(records)[t.id];
        var e := CastEntry(voterName.value, optionId);
        && r == Done(VoteSaved)
        && records == old(records)[t.id := rec.(votes := Upsert(rec.votes, e.key, e.ballot))]
        && broadcasts == old(broadcasts) + [BuildStatePayload()]
      ensures r.Failed? ==> records == old(records) && broadcasts == old(broadcasts)
    {
      var cleanName := SanitizeName(voterName);
      if cleanName == [] {
        return Failed(NameRequired);
      }
      if !HasOption(t, optionId) {
        return Failed(InvalidChoice);
      }
      var entry := Entry(NormalizeKey(Some(cleanName)), Ballot(optionId, cleanName));
      KeyOfSanitizedName(voterName);
      CastEntryFits(t, voterName.value, optionId);
      StoreBallot(t, entry);
      return Done(VoteSaved);
    }

    /** `POST /api/vote`: validates the request in the source's order, then upserts the ballot under the voter's identity. */
    method Vote(topicId: Option<string>, optionId: Option<string>, voterName: Option<string>) returns (r: Outcome)
      requires Valid()
      modifies this`records, this`broadcasts
      ensures Valid()
      ensures old(activeTopicId).None? || topicId != old(activeTopicId) ==> r == Failed(NoActiveVote)
      ensures old(activeTopicId).Some? && topicId == old(activeTopicId) ==>
        var id := topicId.value;
        var rec := old(records)[id];
        var topic := FindTopic(catalog, id);
        if !Present(optionId) then r == Failed(ChoiceMissing)
        else if topic.None? || !topic.value.implemented || rec.status != Open then r == Failed(VoteNotOpen)
        else if SanitizeName(voterName) == [] then r == Failed(NameRequired)
        else if !HasOption(topic.value, optionId.value) then r == Failed(InvalidChoice)
        else
          var e := CastEntry(voterName.value, optionId.value);
          && r == Done(VoteSaved)
          && records == old(records)[id := rec.(votes := Upsert(rec.votes, e.key, e.ballot))]
      ensures r.Failed? ==> PollState() == old(PollState())
      ensures r.Done? ==> activeTopicId == old(activeTopicId) && closingTimers == old(closingTimers)
      ensures r.Done? ==> broadcasts == old(broadcasts) + [BuildStatePayload()]
    {
      if activeTopicId.None? || topicId != activeTopicId {
        return Failed(NoActiveVote);
      }
      if !Present(optionId) {
        return Failed(ChoiceMissing);
      }
      var id := topicId.value;
      var activeTopic := FindTopic(catalog, id);
      if activeTopic.None? || !activeTopic.value.implemented || id !in records || records[id].status != Open {
        return Failed(VoteNotOpen);
      }
      r := VoteOnOpenTopic(activeTopic.value, optionId.value, voterName);
    }

    /** `POST /api/admin/topic`: selects a topic (or clears the selection), refused while another topic's vote runs. */
    method SelectTopic(token: Option<string>, topicId: Option<string>, now: int) returns (r: Outcome)
      requires Valid()
      modifies this`activeTopicId, this`broadcasts, this`adminSessions
      ensures Valid()
      ensures adminSessions == AfterValidation(old(adminSessions), token, now)
      ensures !TokenAccepted(old(adminSessions), token, now) ==> r == Failed(NotLoggedIn)
      ensures TokenAccepted(old(adminSessions), token, now) ==>
        if Running(old(records), old(activeTopicId)) && topicId != old(activeTopicId) then r == Failed(VoteRunning)
        else if !Present(topicId) then r == Done(ActiveCleared) && activeTopicId == None
        else if FindTopic(catalog, topicId.value).None? then r == Failed(TopicUnknown)
        else if !FindTopic(catalog, topicId.value).value.implemented then r == Failed(TopicNotReady)
        else r == Done(ActiveSet) && activeTopicId == topicId
      ensures r.Failed? ==> PollState() == old(PollState())
      ensures r.Done? ==> broadcasts == old(broadcasts) + [BuildStatePayload()]
    {
      var ok := ValidateAdminToken(token, now);
      if !ok {
        return Failed(NotLoggedIn);
      }
      if Running(records, activeTopicId) && topicId != activeTopicId {
        return Failed(VoteRunning);
      }
      if !Present(topicId) {
        SelectStep(catalog, records, activeTopicId, closingTimers, None);
        activeTopicId := None;
        BroadcastState();
        return Done(ActiveCleared);
      }
      var topic := FindTopic(catalog, topicId.value);
      if topic.None? {
        return Failed(TopicUnknown);
      }
      if !topic.value.implemented {
        return Failed(TopicNotReady);
      }
      SelectStep(catalog, records, activeTopicId, closingTimers, topicId);
      activeTopicId := topicId;
      BroadcastState();
      return Done(ActiveSet);
    }

    /** The write of a successful start: cancel the pending closing, open the topic, broadcast. */
    method OpenTopic(id: string)
      requires id in records
      modifies this`records, this`closingTimers, this`broadcasts
      ensures records == old(records)[id := old(records)[id].(status := Open, closingEndsAt := None)]
      ensures closingTimers == old(closingTimers) - {id}
      ensures broadcasts == old(broadcasts) + [BuildStatePayload()]
    {
      ClearThenStatus(records, id, Open);
      ClearClosingTimer(id);
      records := records[id := records[id].(status := Open)];
      BroadcastState();
    }

    /** The write of a successful stop: the topic is `closing`, its closing is scheduled, broadcast. */
    method BeginClosing(id: string, now: int)
      requires id in records
      modifies this`records, this`closingTimers, this`broadcasts
      ensures records == old(records)[id := old(records)[id].(status := Closing, closingEndsAt := Some(now + ClosingGraceMs))]
      ensures closingTimers == old(closingTimers)[id := now + ClosingGraceMs]
      ensures broadcasts == old(broadcasts) + [BuildStatePayload()]
    {
      StatusThenDeadline(records, id, Closing, now + ClosingGraceMs);
      records := records[id := records[id].(status := Closing)];
      ScheduleClosing(id, now);
      BroadcastState();
    }

    /** The write of a successful reset: a fresh idle private ledger, no timer, nothing active, broadcast. */
    method ResetTopic(id: string)
      requires id in records
      modifies this`records, this`activeTopicId, this`closingTimers, this`broadcasts
      ensures records == old(records)[id := TopicRecord(Idle, Private, None, [])]
      ensures closingTimers == old(closingTimers) - {id}
      ensures activeTopicId == None
      ensures broadcasts == old(broadcasts) + [BuildStatePayload()]
    {
      WriteThenClear(records, id, records[id].(votes := [], status := Idle, visibility := Private));
      records := records[id := records[id].(votes := [], status := Idle, visibility := Private)];
      ClearClosingTimer(id);
      activeTopicId := None;
      BroadcastState();
    }

    /** `POST /api/admin/start`: opens the active topic from `idle` or `closing`, cancelling a pending closing. */
    method Start(token: Option<string>, now: int) returns (r: Outcome)
      requires Valid()
      modifies this`records, this`closingTimers, this`broadcasts, this`adminSessions
      ensures Valid()
      ensures adminSessions == AfterValidation(old(adminSessions), token, now)
      ensures !TokenAccepted(old(adminSessions), token, now) ==> r == Failed(NotLoggedIn)
      ensures TokenAccepted(old(adminSessions), token, now) ==>
        if old(activeTopicId).None? then r == Failed(NoTopicSelected)
        else
          var id := old(activeTopicId).value;
          var rec := old(records)[id];
          if rec.status == Disabled then r == Failed(TopicInactive)
          else if rec.status == Closed then r == Failed(ResetFirst)
          else if rec.status == Open then r == Done(AlreadyStarted)
          else
            && r == Done(Started)
            && records == old(records)[id := rec.(status := Open, closingEndsAt := None)]
            && closingTimers == old(closingTimers) - {id}
      ensures r.Failed? || r == Done(AlreadyStarted) ==> PollState() == old(PollState())
      ensures r == Done(Started) ==> broadcasts == old(broadcasts) + [BuildStatePayload()]
    {
      var ok := ValidateAdminToken(token, now);
      if !ok {
        return Failed(NotLoggedIn);
      }
      if activeTopicId.None? {
        return Failed(NoTopicSelected);
      }
      var id := activeTopicId.value;
      if id !in records {
        return Failed(StateMissing);
      }
      var status := records[id].status;
      if status == Disabled {
        return Failed(TopicInactive);
      }
      if status == Closed {
        return Failed(ResetFirst);
      }
      if status == Open {
        return Done(AlreadyStarted);
      }
      StartStep(catalog, records, activeTopicId, closingTimers, id, records[id].(status := Open, closingEndsAt := None));
      OpenTopic(id);
      return Done(Started);
    }

    /** `POST /api/admin/stop`: the open active topic enters `closing`, with a deadline and a timer 5000 ms ahead. */
    method Stop(token: Option<string>, now: int) returns (r: Outcome)
      requires Valid()
      modifies this`records, this`closingTimers, this`broadcasts, this`adminSessions
      ensures Valid()
      ensures adminSessions == AfterValidation(old(adminSessions), token, now)
      ensures !TokenAccepted(old(adminSessions), token, now) ==> r == Failed(NotLoggedIn)
      ensures TokenAccepted(old(adminSessions), token, now) ==>
        if old(activeTopicId).None? then r == Failed(NoTopicSelected)
        else
          var id := old(activeTopicId).value;
          var rec := old(records)[id];
          if rec.status != Open then r == Failed(NotRunning)
          else
            && r == Done(ClosingStarted)
            && records == old(records)[id := rec.(status := Closing, closingEndsAt := Some(now + ClosingGraceMs))]
            && closingTimers == old(closingTimers)[id := now + ClosingGraceMs]
      ensures r.Failed? ==> PollState() == old(PollState())
      ensures r.Done? ==> broadcasts == old(broadcasts) + [BuildStatePayload()]
    {
      var ok := ValidateAdminToken(token, now);
      if !ok {
        return Failed(NotLoggedIn);
      }
      if activeTopicId.None? {
        return Failed(NoTopicSelected);
      }
      var id := activeTopicId.value;
      if id !in records || records[id].status != Open {
        return Failed(NotRunning);
      }
      StopStep(catalog, records, activeTopicId, closingTimers, id, now + ClosingGraceMs,
               records[id].(status := Closing, closingEndsAt := Some(now + ClosingGraceMs)));
      BeginClosing(id, now);
      return Done(ClosingStarted);
    }

    /** `POST /api/admin/reset`: empties the active topic's ledger, makes it idle and private, and clears the selection. */
    method Reset(token: Option<string>, now: int) returns (r: Outcome)
      requires Valid()
      modifies this`records, this`activeTopicId, this`closingTimers, this`broadcasts, this`adminSessions
      ensures Valid()
      ensures adminSessions == AfterValidation(old(adminSessions), token, now)
      ensures !TokenAccepted(old(adminSessions), token, now) ==> r == Failed(NotLoggedIn)
      ensures TokenAccepted(old(adminSessions), token, now) ==>
        if old(activeTopicId).None? then r == Failed(NoTopicSelected)
        else
          var id := old(activeTopicId).value;
          if old(records)[id].status == Disabled then r == Failed(TopicInactive)
          else
            && r == Done(ResetDone)
            && records == old(records)[id := TopicRecord(Idle, Private, None, [])]
            && closingTimers == old(closingTimers) - {id}
            && activeTopicId == None
      ensures r.Failed? ==> PollState() == old(PollState())
      ensures r.Done? ==> broadcasts == old(broadcasts) + [BuildStatePayload()]
    {
      var ok := ValidateAdminToken(token, now);
      if !ok {
        return Failed(NotLoggedIn);
      }
      if activeTopicId.None? {
        return Failed(NoTopicSelected);
      }
      var id := activeTopicId.value;
      if id !in records {
        return Failed(StateMissing);
      }
      if records[id].status == Disabled {
        return Failed(TopicInactive);
      }
      ResetStep(catalog, records, activeTopicId, closingTimers, id);
      ResetTopic(id);
      return Done(ResetDone);
    }

    /** The write of a successful visibility change: the record's visibility is replaced, then the broadcast. */
    method ApplyVisibility(id: string, visibility: Visibility)
      requires id in records
      modifies this`records, this`broadcasts
      ensures records == old(records)[id := old(records)[id].(visibility := visibility)]
      ensures broadcasts == old(broadcasts) + [BuildStatePayload()]
    {
      records := records[id := records[id].(visibility := visibility)];
      BroadcastState();
    }

    /** `POST /api/admin/visibility`: makes the active topic's names public or private. */
    method SetVisibility(token: Option<string>, mode: Option<string>, now: int) returns (r: Outcome)
      requires Valid()
      modifies this`records, this`broadcasts, this`adminSessions
      ensures Valid()
      ensures adminSessions == AfterValidation(old(adminSessions), token, now)
      ensures !TokenAccepted(old(adminSessions), token, now) ==> r == Failed(NotLoggedIn)
      ensures TokenAccepted(old(adminSessions), token, now) ==>
        if old(activeTopicId).None? then r == Failed(NoTopicSelected)
        else if ParseVisibility(mode).None? then r == Failed(InvalidMode)
        else
          var id := old(activeTopicId).value;
          var rec := old(records)[id];
          if rec.status == Disabled then r == Failed(TopicInactive)
          else
            && r == Done(VisibilityUpdated)
            && records == old(records)[id := rec.(visibility := ParseVisibility(mode).value)]
      ensures r.Failed? ==> PollState() == old(PollState())
      ensures r.Done? ==> broadcasts == old(broadcasts) + [BuildStatePayload()]
    {
      var ok := ValidateAdminToken(token, now);
      if !ok {
        return Failed(NotLoggedIn);
      }
      if activeTopicId.None? {
        return Failed(NoTopicSelected);
      }
      var visibility := ParseVisibility(mode);
      if visibility.None? {
        return Failed(InvalidMode);
      }
      var id := activeTopicId.value;
      if id !in records || records[id].status == Disabled {
        return Failed(TopicInactive);
      }
      VisibilityStep(catalog, records, activeTopicId, closingTimers, id, records[id].(visibility := visibility.value));
      ApplyVisibility(id, visibility.value);
      return Done(VisibilityUpdated);
    }
  }
}
