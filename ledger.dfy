/**
  The vote ledger of one topic: a JavaScript `Map` from identity key to ballot.
  It is modelled as the sequence of its entries in iteration (insertion) order, with
  unique keys; `Map.set` on a present key replaces the value in place and keeps the
  entry's position, on a new key appends.
 */
module Ledger {
  import opened Wrappers
  import opened Text
  import opened Catalog

  /** `sanitizeName`: the raw name, or "" when it is missing, trimmed. */
  function SanitizeName(input: Option<string>): (r: string)
    ensures r != [] ==> !IsWhitespace(r[0]) && !IsWhitespace(r[|r| - 1])
    ensures r == [] <==> input.None? || forall k :: 0 <= k < |input.value| ==> IsWhitespace(input.value[k])
  {
    Trim(input.GetOr(""))
  }

  /** `normalizeKey`: the identity key of a voter, the sanitized name in lower case. */
  function NormalizeKey(name: Option<string>): (r: string)
    ensures Lower(r) == r
    ensures |r| == |SanitizeName(name)|
    ensures r == [] <==> SanitizeName(name) == []
    ensures forall i :: 0 <= i < |r| ==> r[i] == LowerChar(SanitizeName(name)[i])
  {
    LowerIdempotent(SanitizeName(name));
    Lower(SanitizeName(name))
  }

  /** Two names that agree up to letter case have the same identity key. */
  lemma KeyIgnoresCase(a: string, b: string)
    requires Lower(a) == Lower(b)
    ensures NormalizeKey(Some(a)) == NormalizeKey(Some(b))
  {
    LowerTrimCommute(a);
    LowerTrimCommute(b);
  }

  /** The vote handler keys the ledger by `normalizeKey(cleanName)`; that is the key of the raw name. */
  lemma KeyOfSanitizedName(name: Option<string>)
    ensures NormalizeKey(Some(SanitizeName(name))) == NormalizeKey(name)
    ensures SanitizeName(Some(SanitizeName(name))) == SanitizeName(name)
  {
    TrimIdempotent(name.GetOr(""));
  }

  /** The value stored per identity: `{ optionId, displayName }`. */
  datatype Ballot = Ballot(optionId: string, displayName: string)

  datatype Entry = Entry(key: string, ballot: Ballot)

  type Votes = seq<Entry>

  function KeySet(v: Votes): set<string> {
    set i | 0 <= i < |v| :: v[i].key
  }

  predicate UniqueKeys(v: Votes) {
    forall i, j :: 0 <= i < j < |v| ==> v[i].key != v[j].key
  }

  /** `votes.get(key)`. */
  function Lookup(v: Votes, key: string): (r: Option<Ballot>)
    ensures r.Some? <==> key in KeySet(v)
    ensures r.Some? ==> Entry(key, r.value) in v
  {
    if v == [] then None
    else if v[0].key == key then Some(v[0].ballot)
    else Lookup(v[1..], key)
  }

  /**
    `votes.set(key, b)`: an entry with the key is replaced where it stands, every other
    entry stays where it is, and a new key is appended at the end.
   */
  function Upsert(v: Votes, key: string, b: Ballot): (r: Votes)
    requires UniqueKeys(v)
    ensures |r| == if key in KeySet(v) then |v| else |v| + 1
    ensures forall i :: 0 <= i < |v| ==> r[i] == if v[i].key == key then Entry(key, b) else v[i]
    ensures key !in KeySet(v) ==> r[|v|] == Entry(key, b)
  {
    if v == [] then [Entry(key, b)]
    else if v[0].key == key then [Entry(key, b)] + v[1..]
    else [v[0]] + Upsert(v[1..], key, b)
  }

  /** An upsert keeps every existing entry's key in its position. */
  lemma UpsertKeepsKeys(v: Votes, key: string, b: Ballot, i: int)
    requires UniqueKeys(v) && 0 <= i < |v|
    ensures Upsert(v, key, b)[i].key == v[i].key
  {
  }

  /** An upsert adds no key but the written one. */
  lemma UpsertAddsOnlyKey(v: Votes, key: string, b: Ballot, k: string)
    requires UniqueKeys(v) && k in KeySet(Upsert(v, key, b))
    ensures k == key || k in KeySet(v)
  {
    var r := Upsert(v, key, b);
    var i :| 0 <= i < |r| && r[i].key == k;
    if i < |v| {
      UpsertKeepsKeys(v, key, b, i);
    }
  }

  /** An upsert loses no key, and the written key is present afterwards. */
  lemma UpsertLosesNoKey(v: Votes, key: string, b: Ballot, k: string)
    requires UniqueKeys(v) && (k == key || k in KeySet(v))
    ensures k in KeySet(Upsert(v, key, b))
  {
    var r := Upsert(v, key, b);
    if k in KeySet(v) {
      var i :| 0 <= i < |v| && v[i].key == k;
      UpsertKeepsKeys(v, key, b, i);
      assert r[i].key == k;
    } else {
      assert r[|v|].key == key;
    }
  }

  /** After an upsert the key set has grown by the key. */
  lemma UpsertKeys(v: Votes, key: string, b: Ballot)
    requires UniqueKeys(v)
    ensures KeySet(Upsert(v, key, b)) == KeySet(v) + {key}
  {
    forall k | k in KeySet(Upsert(v, key, b)) ensures k in KeySet(v) + {key} {
      UpsertAddsOnlyKey(v, key, b, k);
    }
    forall k | k in KeySet(v) + {key} ensures k in KeySet(Upsert(v, key, b)) {
      UpsertLosesNoKey(v, key, b, k);
    }
  }

  /** An upsert invents no entry: every entry afterwards was there before or is the written one. */
  lemma UpsertEntries(v: Votes, key: string, b: Ballot)
    requires UniqueKeys(v)
    ensures forall e :: e in Upsert(v, key, b) ==> e in v || e == Entry(key, b)
  {
    var r := Upsert(v, key, b);
    forall e | e in r ensures e in v || e == Entry(key, b) {
      var i :| 0 <= i < |r| && r[i] == e;
      UpsertEntryAt(v, key, b, i);
    }
  }

  /** Each position after an upsert holds the written entry or the entry that was there. */
  lemma UpsertEntryAt(v: Votes, key: string, b: Ballot, i: int)
    requires UniqueKeys(v) && 0 <= i < |Upsert(v, key, b)|
    ensures Upsert(v, key, b)[i] == Entry(key, b) || (i < |v| && Upsert(v, key, b)[i] == v[i])
  {
    var r := Upsert(v, key, b);
    if i >= |v| {
      assert key !in KeySet(v) && i == |v|;
    }
  }

  /** Keys stay unique under an upsert, and the key is present afterwards. */
  lemma UpsertUnique(v: Votes, key: string, b: Ballot)
    requires UniqueKeys(v)
    ensures UniqueKeys(Upsert(v, key, b))
    ensures key in KeySet(Upsert(v, key, b))
  {
    var r := Upsert(v, key, b);
    forall i, j | 0 <= i < j < |r| ensures r[i].key != r[j].key {
      UpsertKeepsKeys(v, key, b, i);
      if j < |v| {
        UpsertKeepsKeys(v, key, b, j);
      } else {
        assert v[i].key in KeySet(v);
      }
    }
    UpsertLosesNoKey(v, key, b, key);
  }

  /** After an upsert the key maps to the new ballot and every other key to what it did before. */
  lemma {:induction false} UpsertLookup(v: Votes, key: string, b: Ballot)
    requires UniqueKeys(v)
    ensures Lookup(Upsert(v, key, b), key) == Some(b)
    ensures forall k :: k != key ==> Lookup(Upsert(v, key, b), k) == Lookup(v, k)
  {
    if v != [] && v[0].key != key {
      assert UniqueKeys(v[1..]) by {
        forall i, j | 0 <= i < j < |v[1..]| ensures v[1..][i].key != v[1..][j].key {
          assert v[1..][i] == v[i + 1] && v[1..][j] == v[j + 1];
        }
      }
      UpsertLookup(v[1..], key, b);
      assert Upsert(v, key, b)[1..] == Upsert(v[1..], key, b);
    }
  }

  /** How many entries carry the key. */
  function KeyCount(v: Votes, key: string): (r: nat)
    ensures r <= |v|
  {
    if v == [] then 0 else (if v[0].key == key then 1 else 0) + KeyCount(v[1..], key)
  }

  lemma {:induction false} KeyCountUnique(v: Votes, key: string)
    requires UniqueKeys(v)
    ensures KeyCount(v, key) == if key in KeySet(v) then 1 else 0
  {
    if v != [] {
      var rest := v[1..];
      assert forall j :: 0 <= j < |rest| ==> rest[j] == v[j + 1];
      assert KeySet(v) == {v[0].key} + KeySet(rest) by {
        forall k | k in KeySet(v) ensures k == v[0].key || k in KeySet(rest) {
          var i :| 0 <= i < |v| && v[i].key == k;
          if i > 0 { assert rest[i - 1].key == k; }
        }
      }
      KeyCountUnique(rest, key);
    }
  }

  /** The keys of a ledger are those of all but its last entry, plus the last entry's. */
  lemma KeySetOfInit(v: Votes)
    requires v != []
    ensures KeySet(v) == KeySet(v[..|v| - 1]) + {v[|v| - 1].key}
  {
    var init := v[..|v| - 1];
    forall k | k in KeySet(v) ensures k in KeySet(init) + {v[|v| - 1].key} {
      var i :| 0 <= i < |v| && v[i].key == k;
      if i < |v| - 1 { assert init[i].key == k; }
    }
    forall k | k in KeySet(init) ensures k in KeySet(v) {
      var i :| 0 <= i < |init| && init[i].key == k;
      assert v[i].key == k;
    }
  }

  /** With unique keys there are as many entries as distinct identities. */
  lemma {:induction false} DistinctIdentities(v: Votes)
    requires UniqueKeys(v)
    ensures |KeySet(v)| == |v|
  {
    if v != [] {
      var init := v[..|v| - 1];
      KeySetOfInit(v);
      assert UniqueKeys(init) by {
        forall i, j | 0 <= i < j < |init| ensures init[i].key != init[j].key {
          assert init[i] == v[i] && init[j] == v[j];
        }
      }
      forall i | 0 <= i < |init| ensures init[i].key != v[|v| - 1].key {
        assert init[i] == v[i];
      }
      DistinctIdentities(init);
    }
  }

  /** Applies `votes.set(key, ballot)` for each entry in turn. */
  function ApplyEntries(v: Votes, es: seq<Entry>): (r: Votes)
    requires UniqueKeys(v)
    ensures UniqueKeys(r)
    decreases |es|
  {
    if es == [] then v
    else
      UpsertUnique(v, es[0].key, es[0].ballot);
      ApplyEntries(Upsert(v, es[0].key, es[0].ballot), es[1..])
  }

  /** Writes under one key leave the lookup of every other key as it was. */
  lemma {:induction false} OtherKeysUntouched(v: Votes, es: seq<Entry>, key: string, k: string)
    requires UniqueKeys(v)
    requires forall i :: 0 <= i < |es| ==> es[i].key == key
    requires k != key
    ensures Lookup(ApplyEntries(v, es), k) == Lookup(v, k)
    decreases |es|
  {
    if es != [] {
      ApplyFirst(v, es);
      UpsertLookup(v, es[0].key, es[0].ballot);
      OtherKeysUntouched(Upsert(v, es[0].key, es[0].ballot), es[1..], key, k);
    }
  }

  /** Applying writes one at a time: the first write, then the rest. */
  lemma ApplyFirst(v: Votes, es: seq<Entry>)
    requires UniqueKeys(v) && es != []
    ensures UniqueKeys(Upsert(v, es[0].key, es[0].ballot))
    ensures ApplyEntries(v, es) == ApplyEntries(Upsert(v, es[0].key, es[0].ballot), es[1..])
  {
    UpsertUnique(v, es[0].key, es[0].ballot);
  }

  /** Applying one more write after a run of writes is an upsert of the run's result. */
  lemma {:induction false} ApplyEntriesSnoc(v: Votes, es: seq<Entry>, e: Entry)
    requires UniqueKeys(v)
    ensures ApplyEntries(v, es + [e]) == Upsert(ApplyEntries(v, es), e.key, e.ballot)
    decreases |es|
  {
    if es == [] {
      assert (es + [e])[1..] == [];
    } else {
      ApplyFirst(v, es + [e]);
      assert (es + [e])[1..] == es[1..] + [e];
      ApplyEntriesSnoc(Upsert(v, es[0].key, es[0].ballot), es[1..], e);
    }
  }

  /** After writes that end with one under a key, the key holds that last ballot. */
  lemma LastBallotStays(v: Votes, es: seq<Entry>, key: string)
    requires UniqueKeys(v)
    requires |es| > 0 && es[|es| - 1].key == key
    ensures Lookup(ApplyEntries(v, es), key) == Some(es[|es| - 1].ballot)
  {
    var init := es[..|es| - 1];
    var last := es[|es| - 1];
    assert es == init + [last];
    ApplyEntriesSnoc(v, init, last);
    UpsertLookup(ApplyEntries(v, init), key, last.ballot);
  }

  /** After at least one write under a key, exactly one entry carries it. */
  lemma {:induction false} SingleEntryStays(v: Votes, es: seq<Entry>, key: string)
    requires UniqueKeys(v)
    requires |es| > 0 && es[0].key == key
    ensures KeyCount(ApplyEntries(v, es), key) == 1
    decreases |es|
  {
    ApplyFirst(v, es);
    var v' := Upsert(v, es[0].key, es[0].ballot);
    UpsertUnique(v, es[0].key, es[0].ballot);
    KeyCountUnique(ApplyEntries(v', es[1..]), key);
    KeyStays(v', es[1..], key);
  }

  /** A present key stays present under further writes. */
  lemma {:induction false} KeyStays(v: Votes, es: seq<Entry>, key: string)
    requires UniqueKeys(v) && key in KeySet(v)
    ensures key in KeySet(ApplyEntries(v, es))
    decreases |es|
  {
    if es != [] {
      ApplyFirst(v, es);
      UpsertLosesNoKey(v, es[0].key, es[0].ballot, key);
      KeyStays(Upsert(v, es[0].key, es[0].ballot), es[1..], key);
    }
  }

  /**
    Repeated writes under one key leave exactly one entry for it, holding the last ballot;
    no other key's entry changes.
   */
  lemma LastWriteWins(v: Votes, es: seq<Entry>, key: string)
    requires UniqueKeys(v)
    requires |es| > 0
    requires forall i :: 0 <= i < |es| ==> es[i].key == key
    ensures KeyCount(ApplyEntries(v, es), key) == 1
    ensures Lookup(ApplyEntries(v, es), key) == Some(es[|es| - 1].ballot)
    ensures forall k :: k != key ==> Lookup(ApplyEntries(v, es), k) == Lookup(v, k)
  {
    SingleEntryStays(v, es, key);
    LastBallotStays(v, es, key);
    forall k | k != key ensures Lookup(ApplyEntries(v, es), k) == Lookup(v, k) {
      OtherKeysUntouched(v, es, key, k);
    }
  }

  /** The ledger entry an accepted vote writes: keyed by the voter's identity, holding the trimmed name. */
  function CastEntry(voterName: string, optionId: string): Entry {
    Entry(NormalizeKey(Some(voterName)), Ballot(optionId, SanitizeName(Some(voterName))))
  }

  /** The key of a written entry is its display name in lower case, and that name is trimmed. */
  lemma CastEntryKey(voterName: string, optionId: string)
    ensures CastEntry(voterName, optionId).key == Lower(CastEntry(voterName, optionId).ballot.displayName)
    ensures CastEntry(voterName, optionId).ballot.displayName == Trim(CastEntry(voterName, optionId).ballot.displayName)
  {
    KeyOfSanitizedName(Some(voterName));
  }

  /** The entries written by a sequence of accepted votes, each a raw voter name and an option id. */
  function CastEntries(votes: seq<(string, string)>): (es: seq<Entry>)
    ensures |es| == |votes|
    ensures forall i :: 0 <= i < |votes| ==> es[i] == CastEntry(votes[i].0, votes[i].1)
  {
    if votes == [] then [] else [CastEntry(votes[0].0, votes[0].1)] + CastEntries(votes[1..])
  }

  /** A sequence of accepted votes applied to the ledger in order. */
  function ApplyVotes(v: Votes, votes: seq<(string, string)>): (r: Votes)
    requires UniqueKeys(v)
    ensures UniqueKeys(r)
  {
    ApplyEntries(v, CastEntries(votes))
  }

  /**
    Repeated votes by one identity (the raw names may differ in letter case and in surrounding
    whitespace) leave exactly one ledger entry for it, holding the last option and the last
    display name; no other identity's entry changes.
   */
  lemma LastVoteWins(v: Votes, votes: seq<(string, string)>, key: string)
    requires UniqueKeys(v)
    requires |votes| > 0
    requires forall i :: 0 <= i < |votes| ==> NormalizeKey(Some(votes[i].0)) == key
    ensures KeyCount(ApplyVotes(v, votes), key) == 1
    ensures Lookup(ApplyVotes(v, votes), key) == Some(CastEntry(votes[|votes| - 1].0, votes[|votes| - 1].1).ballot)
    ensures forall k :: k != key ==> Lookup(ApplyVotes(v, votes), k) == Lookup(v, k)
  {
    LastWriteWins(v, CastEntries(votes), key);
  }

  /** How many ballots chose the option (counted over the ledger in order). */
  function Count(v: Votes, optionId: string): (r: nat)
    ensures r <= |v|
  {
    if v == [] then 0
    else Count(v[..|v| - 1], optionId) + (if v[|v| - 1].ballot.optionId == optionId then 1 else 0)
  }

  /** No ballot chose the option exactly when its count is zero. */
  lemma {:induction false} CountZero(v: Votes, optionId: string)
    ensures Count(v, optionId) == 0 <==> forall e :: e in v ==> e.ballot.optionId != optionId
  {
    if v != [] {
      var init := v[..|v| - 1];
      assert v == init + [v[|v| - 1]];
      CountZero(init, optionId);
    }
  }

  /** How many ballots chose any option in the set. */
  function CountIn(v: Votes, ids: set<string>): (r: nat)
    ensures r <= |v|
  {
    if v == [] then 0
    else CountIn(v[..|v| - 1], ids) + (if v[|v| - 1].ballot.optionId in ids then 1 else 0)
  }

  /** The display names of the voters who chose the option, in ledger order; one per counted ballot. */
  function NamesFor(v: Votes, optionId: string): (r: seq<string>)
    ensures |r| == Count(v, optionId)
    ensures forall n :: n in r ==> exists e :: e in v && e.ballot == Ballot(optionId, n)
  {
    if v == [] then []
    else
      var init := v[..|v| - 1];
      var last := v[|v| - 1];
      assert forall e :: e in init ==> e in v;
      NamesFor(init, optionId) + (if last.ballot.optionId == optionId then [last.ballot.displayName] else [])
  }

  /** Name lists of consecutive stretches of the ledger are concatenated. */
  lemma {:induction false} NamesForConcat(a: Votes, b: Votes, optionId: string)
    ensures NamesFor(a + b, optionId) == NamesFor(a, optionId) + NamesFor(b, optionId)
    decreases |b|
  {
    if b == [] {
      assert a + b == a;
    } else {
      var init := b[..|b| - 1];
      assert (a + b)[..|a + b| - 1] == a + init;
      assert (a + b)[|a + b| - 1] == b[|b| - 1];
      NamesForConcat(a, init, optionId);
    }
  }

  /**
    Every ballot contributes its own display name, at its own place in ledger order, exactly
    when it chose the option: one name per ballot, so two voters never collapse into one name.
   */
  lemma NamesForSplit(before: Votes, e: Entry, after: Votes, optionId: string)
    ensures NamesFor(before + [e] + after, optionId) ==
      NamesFor(before, optionId)
      + (if e.ballot.optionId == optionId then [e.ballot.displayName] else [])
      + NamesFor(after, optionId)
  {
    NamesForConcat(before + [e], after, optionId);
    assert (before + [e])[..|before + [e]| - 1] == before;
  }

  /** The ballot count of every option in `ids`. */
  function Tally(ids: set<string>, v: Votes): (r: map<string, nat>)
    ensures r.Keys == ids && forall o :: o in r ==> r[o] == Count(v, o)
  {
    map o | o in ids :: Count(v, o)
  }

  /** Counting one more ballot adds one to its option's count, if the option is tallied, and nothing else. */
  lemma TallyStep(ids: set<string>, v: Votes, e: Entry)
    ensures var m := Tally(ids, v);
      var o := e.ballot.optionId;
      Tally(ids, v + [e]) == if o in m then m[o := m[o] + 1] else m
  {
    assert (v + [e])[..|v|] == v;
  }

  /** The name list of every option in `ids`. */
  function NameLists(ids: set<string>, v: Votes): (r: map<string, seq<string>>)
    ensures r.Keys == ids && forall o :: o in r ==> r[o] == NamesFor(v, o)
  {
    map o | o in ids :: NamesFor(v, o)
  }

  /**
    The ballot at position `i` appends its display name to its option's list, if the option is
    listed, and changes nothing else: `next` is the name lists of the first `i + 1` ballots.
   */
  lemma NameListsStep(ids: set<string>, v: Votes, i: nat, prev: map<string, seq<string>>, next: map<string, seq<string>>)
    requires i < |v| && prev == NameLists(ids, v[..i])
    requires var b := v[i].ballot;
      next == if b.optionId in prev then prev[b.optionId := prev[b.optionId] + [b.displayName]] else prev
    ensures next == NameLists(ids, v[..i + 1])
  {
    var b := v[i].ballot;
    forall o | o in ids
      ensures NameLists(ids, v[..i + 1])[o] == next[o]
    {
      assert v[..i + 1][..i] == v[..i];
      assert NamesFor(v[..i + 1], o) == NamesFor(v[..i], o) + if b.optionId == o then [b.displayName] else [];
    }
  }

  /** `getTopicTotals` as a value: one total per option of an implemented topic, none otherwise. */
  function TopicTotals(t: Topic, v: Votes): (r: map<string, nat>)
    ensures t.implemented ==> r.Keys == IdsOf(t.options)
    ensures !t.implemented ==> r == map[]
    ensures forall o :: o in r ==> r[o] == Count(v, o)
  {
    if !t.implemented then map[] else Tally(IdsOf(t.options), v)
  }

  /** `getNamesByOption` as a value: one name list per option of the topic. */
  function TopicNames(t: Topic, v: Votes): (r: map<string, seq<string>>)
    ensures r.Keys == IdsOf(t.options)
    ensures forall o :: o in r ==> r[o] == NamesFor(v, o)
  {
    NameLists(IdsOf(t.options), v)
  }

  /** A total read from a totals map, 0 when the option has none. */
  function TotalOf(totals: map<string, nat>, optionId: string): nat {
    if optionId in totals then totals[optionId] else 0
  }

  /** The totals of the listed options, added up. */
  function SumTotals(options: seq<OptionDef>, totals: map<string, nat>): nat {
    if options == [] then 0 else TotalOf(totals, options[0].id) + SumTotals(options[1..], totals)
  }

  function SumCounts(options: seq<OptionDef>, v: Votes): nat {
    if options == [] then 0 else Count(v, options[0].id) + SumCounts(options[1..], v)
  }

  /** How many of the listed options have the id. */
  function Hits(options: seq<OptionDef>, optionId: string): nat {
    if options == [] then 0 else (if options[0].id == optionId then 1 else 0) + Hits(options[1..], optionId)
  }

  lemma {:induction false} HitsUnique(options: seq<OptionDef>, optionId: string)
    requires forall i, j :: 0 <= i < j < |options| ==> options[i].id != options[j].id
    ensures Hits(options, optionId) == if optionId in IdsOf(options) then 1 else 0
  {
    if options != [] {
      var rest := options[1..];
      assert IdsOf(options) == {options[0].id} + IdsOf(rest) by {
        forall x ensures x in IdsOf(options) <==> x == options[0].id || x in IdsOf(rest) {
          if x in IdsOf(options) {
            var i :| 0 <= i < |options| && options[i].id == x;
            if i > 0 { assert rest[i - 1].id == x; }
          }
          if x in IdsOf(rest) {
            var i :| 0 <= i < |rest| && rest[i].id == x;
            assert options[i + 1].id == x;
          }
        }
      }
      assert options[0].id !in IdsOf(rest) by {
        forall i | 0 <= i < |rest| ensures rest[i].id != options[0].id {
          assert rest[i] == options[i + 1];
        }
      }
      HitsUnique(rest, optionId);
    }
  }

  lemma {:induction false} SumCountsStep(options: seq<OptionDef>, v: Votes)
    requires v != []
    ensures SumCounts(options, v) == SumCounts(options, v[..|v| - 1]) + Hits(options, v[|v| - 1].ballot.optionId)
  {
    if options != [] {
      SumCountsStep(options[1..], v);
    }
  }

  lemma {:induction false} SumCountsIsCountIn(options: seq<OptionDef>, v: Votes)
    requires forall i, j :: 0 <= i < j < |options| ==> options[i].id != options[j].id
    ensures SumCounts(options, v) == CountIn(v, IdsOf(options))
  {
    if v == [] {
      SumCountsEmpty(options);
    } else {
      SumCountsStep(options, v);
      HitsUnique(options, v[|v| - 1].ballot.optionId);
      SumCountsIsCountIn(options, v[..|v| - 1]);
    }
  }

  lemma {:induction false} SumCountsEmpty(options: seq<OptionDef>)
    ensures SumCounts(options, []) == 0
  {
    if options != [] {
      SumCountsEmpty(options[1..]);
    }
  }

  lemma {:induction false} SumTotalsIsSumCounts(t: Topic, v: Votes, k: nat)
    requires t.implemented
    requires k <= |t.options|
    ensures SumTotals(t.options[k..], TopicTotals(t, v)) == SumCounts(t.options[k..], v)
    decreases |t.options| - k
  {
    if k < |t.options| {
      var opts := t.options[k..];
      assert opts[0].id in IdsOf(t.options);
      assert opts[1..] == t.options[k + 1..];
      SumTotalsIsSumCounts(t, v, k + 1);
    }
  }

  /**
    The totals of an implemented topic add up to the number of ledger entries whose option
    belongs to the topic; so they never exceed the number of distinct identities that voted.
   */
  lemma TotalsAgreeWithLedger(t: Topic, v: Votes)
    requires t.implemented && UniqueOptionIds(t)
    ensures SumTotals(t.options, TopicTotals(t, v)) == CountIn(v, IdsOf(t.options))
    ensures UniqueKeys(v) ==> SumTotals(t.options, TopicTotals(t, v)) <= |KeySet(v)|
  {
    SumTotalsIsSumCounts(t, v, 0);
    assert t.options[0..] == t.options;
    SumCountsIsCountIn(t.options, v);
    if UniqueKeys(v) {
      DistinctIdentities(v);
    }
  }
}
