/** The immutable topic catalog: one poll definition per topic, fixed at start-up. */
module Catalog {
  import opened Wrappers

  /** An answer option; `caption` is the source's `label` (a reserved word in Dafny). */
  datatype OptionDef = OptionDef(id: string, caption: string)

  datatype Topic = Topic(
    id: string,
    title: string,
    question: string,
    chartType: string,
    implemented: bool,
    options: seq<OptionDef>)

  /** The ids of a list of options, such as a topic's or a topic view's. */
  function IdsOf(options: seq<OptionDef>): set<string> {
    set i | 0 <= i < |options| :: options[i].id
  }

  /** `topic.options.some((option) => option.id === optionId)`. */
  predicate HasOption(t: Topic, optionId: string) {
    exists i :: 0 <= i < |t.options| && t.options[i].id == optionId
  }

  lemma HasOptionIsMember(t: Topic, optionId: string)
    ensures HasOption(t, optionId) <==> optionId in IdsOf(t.options)
  {
    if optionId in IdsOf(t.options) {
      var i :| 0 <= i < |t.options| && t.options[i].id == optionId;
    }
  }

  predicate UniqueOptionIds(t: Topic) {
    forall i, j :: 0 <= i < j < |t.options| ==> t.options[i].id != t.options[j].id
  }

  /** The ids of the catalog's topics. */
  function TopicIds(catalog: seq<Topic>): set<string> {
    if catalog == [] then {} else {catalog[0].id} + TopicIds(catalog[1..])
  }

  /** An id is a topic id exactly when some catalog topic carries it. */
  lemma {:induction false} TopicIdsMember(catalog: seq<Topic>, id: string)
    ensures id in TopicIds(catalog) <==> exists t :: t in catalog && t.id == id
  {
    if catalog != [] {
      TopicIdsMember(catalog[1..], id);
      assert forall t :: t in catalog <==> t == catalog[0] || t in catalog[1..];
    }
  }

  /** Appending a topic adds its id. */
  lemma {:induction false} TopicIdsAppend(catalog: seq<Topic>, t: Topic)
    ensures TopicIds(catalog + [t]) == TopicIds(catalog) + {t.id}
  {
    if catalog != [] {
      assert (catalog + [t])[1..] == catalog[1..] + [t];
      TopicIdsAppend(catalog[1..], t);
    }
  }

  /** Topic ids are unique in the catalog, and option ids are unique within each topic. */
  predicate CatalogValid(catalog: seq<Topic>) {
    && (forall i, j :: 0 <= i < j < |catalog| ==> catalog[i].id != catalog[j].id)
    && (forall t :: t in catalog ==> UniqueOptionIds(t))
  }

  /** A prefix of a valid catalog is valid. */
  lemma CatalogValidPrefix(catalog: seq<Topic>, n: nat)
    requires CatalogValid(catalog) && n <= |catalog|
    ensures CatalogValid(catalog[..n])
  {
    forall i, j | 0 <= i < j < n ensures catalog[..n][i].id != catalog[..n][j].id {
      assert catalog[..n][i] == catalog[i] && catalog[..n][j] == catalog[j];
    }
  }

  /** `topics.find((topic) => topic.id === id)`: the first topic with that id. */
  function FindTopic(catalog: seq<Topic>, id: string): (r: Option<Topic>)
    ensures r.Some? ==> r.value in catalog && r.value.id == id
    ensures r.None? <==> id !in TopicIds(catalog)
  {
    if catalog == [] then None
    else if catalog[0].id == id then Some(catalog[0])
    else FindTopic(catalog[1..], id)
  }

  /** With unique ids, the topic found for an id is the catalog's only topic with that id. */
  lemma {:induction false} FindTopicUnique(catalog: seq<Topic>, t: Topic)
    requires CatalogValid(catalog)
    requires t in catalog
    ensures FindTopic(catalog, t.id) == Some(t)
  {
    if catalog[0] != t {
      assert catalog[0].id != t.id by {
        var j :| 0 <= j < |catalog| && catalog[j] == t;
      }
      assert CatalogValid(catalog[1..]) by {
        forall i, j | 0 <= i < j < |catalog[1..]|
          ensures catalog[1..][i].id != catalog[1..][j].id
        {
          assert catalog[1..][i] == catalog[i + 1] && catalog[1..][j] == catalog[j + 1];
        }
      }
      FindTopicUnique(catalog[1..], t);
    }
  }
}
