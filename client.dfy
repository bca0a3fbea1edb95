/**
  The browser client's state handling: the signature that decides whether a new snapshot is
  re-rendered, the local selections it prunes, and the enable/disable rule of the admin controls.
 */
module Client {
  import opened Wrappers
  import opened Catalog
  import opened Ledger
  import opened Records
  import opened Projection
  import opened Lifecycle

  // ---------------------------------------------------------------------------------------------
  // State signature
  // ---------------------------------------------------------------------------------------------

  /** What the signature keeps of one option: its id, caption, total and the names that chose it. */
  datatype OptionSig = OptionSig(id: string, caption: string, total: nat, names: seq<string>)

  /** What the signature keeps of one topic; title and `implemented` are not part of it. */
  datatype TopicSig = TopicSig(
    id: string,
    status: Status,
    visibility: Visibility,
    closingEndsAt: Option<int>,
    chartType: string,
    question: string,
    options: seq<OptionSig>)

  /** `computeStateSignature`: `NoState` is the empty string the client uses when it has no snapshot. */
  datatype StateSignature = NoState | Sig(activeTopicId: Option<string>, topics: seq<TopicSig>)

  /** `topic.totals?.[option.id] || 0`: a missing total reads as 0. */
  function ShownTotal(v: TopicView, optionId: string): nat {
    TotalOf(v.totals, optionId)
  }

  /** `topic.names?.[option.id] || []`: absent names, or no list for the option, read as no names. */
  function ShownNames(v: TopicView, optionId: string): seq<string> {
    if v.names.Some? && optionId in v.names.value then v.names.value[optionId] else []
  }

  function OptionSigOf(v: TopicView, o: OptionDef): OptionSig {
    OptionSig(o.id, o.caption, ShownTotal(v, o.id), ShownNames(v, o.id))
  }

  function TopicSigOf(v: TopicView): (s: TopicSig)
    ensures s.id == v.id && s.status == v.status && s.visibility == v.visibility
    ensures s.closingEndsAt == v.closingEndsAt && s.chartType == v.chartType && s.question == v.question
    ensures |s.options| == |v.options|
    ensures forall i :: 0 <= i < |v.options| ==> s.options[i] == OptionSigOf(v, v.options[i])
  {
    TopicSig(v.id, v.status, v.visibility, v.closingEndsAt, v.chartType, v.question,
             seq(|v.options|, i requires 0 <= i < |v.options| => OptionSigOf(v, v.options[i])))
  }

  /** The signature of a snapshot, or `NoState` when there is none; no snapshot has the empty signature. */
  function Signature(state: Option<StatePayload>): (r: StateSignature)
    ensures r == NoState <==> state.None?
    ensures state.Some? ==> |r.topics| == |state.value.topics|
    ensures state.Some? ==> forall i :: 0 <= i < |state.value.topics| ==> r.topics[i] == TopicSigOf(state.value.topics[i])
  {
    match state
    case None => NoState
    case Some(p) =>
      Sig(p.activeTopicId, seq(|p.topics|, i requires 0 <= i < |p.topics| => TopicSigOf(p.topics[i])))
  }

  /**
    A view with an explicit total for every option (0 where the view had none) and an explicit,
    possibly empty, name list for every option.
   */
  function ZeroFilled(v: TopicView): (w: TopicView)
    ensures w.totals.Keys == IdsOf(v.options)
    ensures w.names.Some? && w.names.value.Keys == IdsOf(v.options)
  {
    v.(totals := map o | o in IdsOf(v.options) :: ShownTotal(v, o),
       names := Some(map o | o in IdsOf(v.options) :: ShownNames(v, o)))
  }

  /** Missing totals and missing names are indistinguishable from explicit zeros and empty lists. */
  lemma ZeroFillInvisible(v: TopicView)
    ensures TopicSigOf(ZeroFilled(v)) == TopicSigOf(v)
  {
    var w := ZeroFilled(v);
    forall i | 0 <= i < |v.options|
      ensures OptionSigOf(w, w.options[i]) == OptionSigOf(v, v.options[i])
    {
      assert v.options[i].id in IdsOf(v.options);
    }
  }

  // ---------------------------------------------------------------------------------------------
  // Admin controls
  // ---------------------------------------------------------------------------------------------

  /** `topics.find((t) => t.id === activeTopicId)`: the first view with the active id; none without an active id. */
  function FindView(topics: seq<TopicView>, id: Option<string>): (r: Option<TopicView>)
    ensures r.Some? ==> r.value in topics && id == Some(r.value.id)
    ensures r.None? <==> id.None? || forall i :: 0 <= i < |topics| ==> topics[i].id != id.value
  {
    if id.None? || topics == [] then None
    else if topics[0].id == id.value then Some(topics[0])
    else FindView(topics[1..], id)
  }

  /** One entry of the topic picker: its value, its text and whether it can be chosen. */
  datatype PickerEntry = PickerEntry(value: string, text: string, disabled: bool)

  /** The picker's leading "no selection" entry. */
  const NoneEntry := PickerEntry("", "Keine Auswahl", false)

  /** A topic's picker entry: not yet implemented topics are marked as coming and cannot be chosen. */
  function EntryOf(v: TopicView): PickerEntry {
    PickerEntry(v.id, if v.implemented then v.title else v.title + " (folgt)", !v.implemented)
  }

  /**
    The state of the admin panel's inputs; `entries` are the topic picker's entries and
    `selectedValue` its value, `""` for none.
   */
  datatype Controls = Controls(
    entries: seq<PickerEntry>,
    selectDisabled: bool,
    startDisabled: bool,
    stopDisabled: bool,
    resetDisabled: bool,
    visibilityDisabled: bool,
    visibilityValue: Visibility,
    selectedValue: string)

  /**
    The enable/disable rule of `renderAdminControls`: with no active view the status reads as
    `disabled`; topic selection is locked while the vote runs, start needs `idle`, stop needs
    `open`, and reset and the visibility picker need an active topic that is not `disabled`.
    Start and stop are never enabled together, and whenever stop is enabled the picker is locked.
    The picker lists a "no selection" entry and then one entry per topic, in snapshot order.
   */
  function AdminControls(p: StatePayload): (c: Controls)
    ensures c.startDisabled || c.stopDisabled
    ensures !c.stopDisabled ==> c.selectDisabled
    ensures !c.startDisabled ==> !c.selectDisabled && !c.resetDisabled
    ensures c.resetDisabled == c.visibilityDisabled
    ensures |c.entries| == |p.topics| + 1 && c.entries[0] == NoneEntry
    ensures forall i :: 0 <= i < |p.topics| ==>
      c.entries[i + 1].value == p.topics[i].id && (c.entries[i + 1].disabled <==> !p.topics[i].implemented)
  {
    var active := FindView(p.topics, p.activeTopicId);
    var status := if active.Some? then active.value.status else Disabled;
    Controls(
      [NoneEntry] + seq(|p.topics|, i requires 0 <= i < |p.topics| => EntryOf(p.topics[i])),
      status in {Open, Closing},
      active.None? || status != Idle,
      active.None? || status != Open,
      active.None? || status == Disabled,
      active.None? || status == Disabled,
      if active.Some? then active.value.visibility else Private,
      if p.activeTopicId.Some? then p.activeTopicId.value else "")
  }

  /** Finding by id sees only the ids, statuses and visibilities the signature keeps. */
  lemma {:induction false} FindViewBySignature(ps: seq<TopicView>, qs: seq<TopicView>, id: Option<string>)
    requires |ps| == |qs|
    requires forall i :: 0 <= i < |ps| ==> TopicSigOf(ps[i]) == TopicSigOf(qs[i])
    ensures FindView(ps, id).None? <==> FindView(qs, id).None?
    ensures FindView(ps, id).Some? ==>
      && FindView(ps, id).value.status == FindView(qs, id).value.status
      && FindView(ps, id).value.visibility == FindView(qs, id).value.visibility
  {
    if id.Some? && ps != [] {
      assert TopicSigOf(ps[0]) == TopicSigOf(qs[0]);
      if ps[0].id != id.value {
        FindViewBySignature(ps[1..], qs[1..], id);
      }
    }
  }

  /**
    Two snapshots with the same signature, whose topics also agree on the title and flag the
    signature leaves out, show the same admin controls.
   */
  lemma SignatureDeterminesControls(p: StatePayload, q: StatePayload)
    requires Signature(Some(p)) == Signature(Some(q))
    requires forall i :: 0 <= i < |p.topics| ==>
      p.topics[i].title == q.topics[i].title && p.topics[i].implemented == q.topics[i].implemented
    ensures AdminControls(p) == AdminControls(q)
  {
    forall i | 0 <= i < |p.topics| ensures TopicSigOf(p.topics[i]) == TopicSigOf(q.topics[i]) {
      assert Signature(Some(p)).topics[i] == Signature(Some(q)).topics[i];
    }
    FindViewBySignature(p.topics, q.topics, p.activeTopicId);
    assert AdminControls(p).entries == AdminControls(q).entries;
  }

  /**
    Two snapshots the server builds from its catalog show the same admin controls whenever their
    signatures agree: titles and flags come from the fixed catalog, so skipping the re-render of
    an unchanged signature loses nothing.
   */
  lemma ServerSignatureDeterminesControls(catalog: seq<Topic>,
                                          records1: map<string, TopicRecord>, active1: Option<string>,
                                          records2: map<string, TopicRecord>, active2: Option<string>)
    requires Signature(Some(Project(catalog, records1, active1))) == Signature(Some(Project(catalog, records2, active2)))
    ensures AdminControls(Project(catalog, records1, active1)) == AdminControls(Project(catalog, records2, active2))
  {
    var p := Project(catalog, records1, active1);
    var q := Project(catalog, records2, active2);
    forall i | 0 <= i < |p.topics|
      ensures p.topics[i].title == q.topics[i].title && p.topics[i].implemented == q.topics[i].implemented
    {
      assert p.topics[i] == ProjectTopic(catalog[i], records1);
      assert q.topics[i] == ProjectTopic(catalog[i], records2);
    }
    SignatureDeterminesControls(p, q);
  }

  /** In a snapshot built by the server, the view found for an id is the projection of the catalog topic with that id. */
  lemma {:induction false} FindViewOfProjection(catalog: seq<Topic>, views: seq<TopicView>,
                                                records: map<string, TopicRecord>, id: string)
    requires |views| == |catalog|
    requires forall i :: 0 <= i < |catalog| ==> views[i] == ProjectTopic(catalog[i], records)
    ensures FindTopic(catalog, id).None? ==> FindView(views, Some(id)).None?
    ensures FindTopic(catalog, id).Some? ==> FindView(views, Some(id)) == Some(ProjectTopic(FindTopic(catalog, id).value, records))
  {
    if catalog != [] {
      assert views[0] == ProjectTopic(catalog[0], records);
      if catalog[0].id != id {
        FindViewOfProjection(catalog[1..], views[1..], records, id);
      }
    }
  }

  /**
    The controls the client shows for a server snapshot, against the server's own rules: stop,
    reset and the visibility picker are enabled exactly when the server would accept them, and the
    topic picker is locked exactly while the server refuses to switch topics. Start is enabled only
    for an `idle` topic, although the server also restarts a `closing` one.
   */
  lemma ControlsMatchServer(catalog: seq<Topic>, records: map<string, TopicRecord>,
                            active: Option<string>, timers: map<string, int>)
    requires PollInvariant(catalog, records, active, timers)
    ensures var c := AdminControls(Project(catalog, records, active));
      && (!c.startDisabled <==> active.Some? && records[active.value].status == Idle)
      && (!c.stopDisabled <==> active.Some? && records[active.value].status == Open)
      && (!c.resetDisabled <==> active.Some?)
      && (!c.visibilityDisabled <==> active.Some?)
      && (c.selectDisabled <==> Running(records, active))
      && c.visibilityValue == (if active.Some? then records[active.value].visibility else Private)
  {
    var p := Project(catalog, records, active);
    if active.Some? {
      var id := active.value;
      var t := TopicOf(catalog, records, id);
      FindTopicUnique(catalog, t);
      FindViewOfProjection(catalog, p.topics, records, id);
      assert FindView(p.topics, active) == Some(ProjectTopic(t, records));
    }
  }

  // ---------------------------------------------------------------------------------------------
  // Local selections
  // ---------------------------------------------------------------------------------------------

  /** A view whose status makes the client forget its local selection. */
  predicate Forgets(v: TopicView) {
    v.status == Idle || v.status == Disabled
  }

  /** Some topic with this id is `idle` or `disabled`. */
  predicate Cleared(topics: seq<TopicView>, id: string) {
    exists i :: 0 <= i < |topics| && topics[i].id == id && Forgets(topics[i])
  }

  /** The selections left once every `idle` or `disabled` topic's entry is deleted; other entries keep their values. */
  function Pruned(selections: map<string, string>, topics: seq<TopicView>): (r: map<string, string>)
    ensures forall id :: id in r <==> id in selections && !Cleared(topics, id)
    ensures forall id :: id in r ==> r[id] == selections[id]
  {
    selections - (set i | 0 <= i < |topics| && Forgets(topics[i]) :: topics[i].id)
  }

  /** `pruneLocalSelections`: nothing happens without a snapshot. */
  function PrunedBy(selections: map<string, string>, state: Option<StatePayload>): map<string, string> {
    if state.None? then selections else Pruned(selections, state.value.topics)
  }

  /** One more topic: its entry goes if it is `idle` or `disabled`. */
  lemma PrunedStep(selections: map<string, string>, topics: seq<TopicView>, i: nat)
    requires i < |topics|
    ensures Pruned(selections, topics[..i + 1]) ==
      if Forgets(topics[i]) then Pruned(selections, topics[..i]) - {topics[i].id} else Pruned(selections, topics[..i])
  {
    var prefix := topics[..i + 1];
    assert prefix[..i] == topics[..i] && prefix[i] == topics[i];
    forall id ensures Cleared(prefix, id) <==> Cleared(topics[..i], id) || (id == topics[i].id && Forgets(topics[i])) {
      if Cleared(prefix, id) {
        var j :| 0 <= j < |prefix| && prefix[j].id == id && Forgets(prefix[j]);
        if j < i {
          assert topics[..i][j] == prefix[j];
        }
      }
      if Cleared(topics[..i], id) {
        var j :| 0 <= j < i && topics[..i][j].id == id && Forgets(topics[..i][j]);
        assert prefix[j] == topics[..i][j];
      }
    }
  }

  /**
    After pruning with a server snapshot, a selection survives for a catalog topic that has a
    record exactly when that topic is `open`, `closing` or `closed`.
   */
  lemma PrunedKeepsOnlyLiveTopics(catalog: seq<Topic>, records: map<string, TopicRecord>,
                                  active: Option<string>, selections: map<string, string>, t: Topic)
    requires t in catalog && t.id in records
    ensures var r := Pruned(selections, Project(catalog, records, active).topics);
      t.id in r <==> t.id in selections && (records[t.id].status.Open? || records[t.id].status.Closing? || records[t.id].status.Closed?)
  {
    var views := Project(catalog, records, active).topics;
    assert Cleared(views, t.id) <==> records[t.id].status in {Idle, Disabled} by {
      var k :| 0 <= k < |catalog| && catalog[k] == t;
      assert views[k] == ProjectTopic(t, records);
      if Cleared(views, t.id) {
        var j :| 0 <= j < |views| && views[j].id == t.id && Forgets(views[j]);
        assert views[j] == ProjectTopic(catalog[j], records);
      }
    }
    var r := Pruned(selections, views);
    assert t.id in r <==> t.id in selections && !Cleared(views, t.id);
  }

  // ---------------------------------------------------------------------------------------------
  // The client's state
  // ---------------------------------------------------------------------------------------------

  /**
    The client's module-level state: the last snapshot, the signature it was rendered for, the
    option picked per topic before voting, the admin controls as last rendered, and how many
    times the vote section was re-rendered.
   */
  class ClientView {
    var currentState: Option<StatePayload>
    var lastStateSignature: StateSignature
    var localSelections: map<string, string>
    var controls: Option<Controls>
    var voteRenders: nat
    /** The snapshot the admin controls on screen were last drawn from. */
    ghost var renderedFrom: Option<StatePayload>

    /**
      The stored signature is the current snapshot's, and the admin controls on screen are the
      ones drawn from a snapshot with that same signature (`SignatureDeterminesControls` says
      when they are the ones the current snapshot calls for).
     */
    ghost predicate Valid()
      reads this
    {
      && lastStateSignature == Signature(currentState)
      && (currentState.Some? ==>
            && renderedFrom.Some?
            && controls == Some(AdminControls(renderedFrom.value))
            && Signature(renderedFrom) == lastStateSignature)
    }

    /** Start-up: no snapshot, the empty signature, no selections, nothing rendered. */
    constructor ()
      ensures Valid()
      ensures currentState == None && lastStateSignature == NoState
      ensures localSelections == map[] && controls == None && voteRenders == 0
    {
      currentState := None;
      lastStateSignature := NoState;
      localSelections := map[];
      controls := None;
      voteRenders := 0;
      renderedFrom := None;
    }

    /** `pruneLocalSelections`: deletes the entry of every `idle` or `disabled` topic of the snapshot. */
    method PruneLocalSelections(state: Option<StatePayload>)
      modifies this`localSelections
      ensures localSelections == PrunedBy(old(localSelections), state)
    {
      if state.None? {
        return;
      }
      var topics := state.value.topics;
      ghost var initial := localSelections;
      assert topics[..0] == [];
      var i := 0;
      while i < |topics|
        invariant 0 <= i <= |topics|
        invariant localSelections == Pruned(initial, topics[..i])
      {
        ghost var next := Pruned(initial, topics[..i + 1]);
        PrunedStep(initial, topics, i);
        if topics[i].status == Idle || topics[i].status == Disabled {
          localSelections := localSelections - {topics[i].id};
        }
        assert localSelections == next;
        i := i + 1;
      }
      assert topics[..i] == topics;
    }

    /** `renderAdminControls`: redraws the controls for the current snapshot; without one it does nothing. */
    method RenderAdminControls()
      modifies this`controls
      ensures controls == if currentState.None? then old(controls) else Some(AdminControls(currentState.value))
    {
      if currentState.Some? {
        controls := Some(AdminControls(currentState.value));
      }
    }

    /**
      `updateState`: the new snapshot always becomes current; only when its signature differs from
      the stored one is the signature replaced, the selections pruned and the panels re-rendered.
     */
    method UpdateState(payload: Option<StatePayload>)
      requires Valid()
      modifies this`currentState, this`lastStateSignature, this`localSelections, this`controls,
               this`voteRenders, this`renderedFrom
      ensures Valid()
      ensures currentState == payload
      ensures payload.Some? ==> Signature(renderedFrom) == Signature(payload)
      ensures Signature(payload) == old(lastStateSignature) ==>
        && lastStateSignature == old(lastStateSignature)
        && localSelections == old(localSelections)
        && controls == old(controls)
        && voteRenders == old(voteRenders)
      ensures Signature(payload) != old(lastStateSignature) ==>
        && lastStateSignature == Signature(payload)
        && localSelections == PrunedBy(old(localSelections), payload)
        && controls == (if payload.None? then old(controls) else Some(AdminControls(payload.value)))
        && voteRenders == old(voteRenders) + 1
    {
      var signature := Signature(payload);
      if signature == lastStateSignature {
        currentState := payload;
        return;
      }
      Redraw(payload);
    }

    /** The changed-signature branch of `updateState`: store the signature, prune and re-render. */
    method Redraw(payload: Option<StatePayload>)
      modifies this`currentState, this`lastStateSignature, this`localSelections, this`controls,
               this`voteRenders, this`renderedFrom
      ensures currentState == payload && lastStateSignature == Signature(payload)
      ensures localSelections == PrunedBy(old(localSelections), payload)
      ensures controls == (if payload.None? then old(controls) else Some(AdminControls(payload.value)))
      ensures renderedFrom == (if payload.None? then old(renderedFrom) else payload)
      ensures voteRenders == old(voteRenders) + 1
    {
      lastStateSignature := Signature(payload);
      currentState := payload;
      PruneLocalSelections(payload);
      RenderAdminControls();
      if payload.Some? {
        renderedFrom := payload;
      }
      voteRenders := voteRenders + 1;
    }
  }
}
