/** The topic and subtopic selects of `TopicFilter`: topics aggregated over
    the (topic, subtopic, count) rows of the questions router, the
    subtopics of the selected topic, and the `__all__` option. */
module TopicFilter {
  import opened Common
  import opened Tally
  import opened Sorting
  import opened Facets
  import Strings

  /** A `getTopics` row: a topic, an optional subtopic, and how many
      questions have them. */
  datatype TopicEntry = TopicEntry(topic: string, subtopic: Option<string>, count: nat)

  /** The `topics` prop as it arrives at run time: an array or anything else. */
  datatype TopicsProp = Entries(entries: seq<TopicEntry>) | NotAnArray

  /** `Array.isArray(topics) ? topics : []`. */
  function Safe(p: TopicsProp): seq<TopicEntry>
  {
    match p
    case Entries(es) => es
    case NotAnArray => []
  }

  /** `if (safe.length === 0) return null`. */
  predicate RendersNothing(p: TopicsProp)
  {
    |Safe(p)| == 0
  }

  /** The component renders nothing exactly when the prop is not an array
      or is an empty one. */
  lemma NothingToRender(p: TopicsProp)
    ensures RendersNothing(p) <==> p.NotAnArray? || p.entries == []
  {
  }

  // ---------------------------------------------------------- unique topics

  /** The (topic, count) pairs the aggregation loop visits, in order. */
  function TopicCounts(safe: seq<TopicEntry>): (es: seq<Weighted<string>>)
    ensures |es| == |safe|
    ensures forall i :: 0 <= i < |safe| ==> es[i] == Weighted(safe[i].topic, safe[i].count)
  {
    if safe == [] then []
    else TopicCounts(safe[..|safe| - 1]) + [Weighted(safe[|safe| - 1].topic, safe[|safe| - 1].count)]
  }

  /** The sum of the counts of the rows with topic `t`. */
  function TopicTotal(safe: seq<TopicEntry>, t: string): nat
  {
    if safe == [] then 0
    else TopicTotal(safe[1..], t) + (if safe[0].topic == t then safe[0].count else 0)
  }

  /** The sum of all the rows' counts. */
  function InputTotal(safe: seq<TopicEntry>): nat
  {
    if safe == [] then 0 else safe[0].count + InputTotal(safe[1..])
  }

  /** `uniqueTopics`: the counts summed per topic in a `Map`, whose entries
      are then sorted by topic. */
  method UniqueTopics(safe: seq<TopicEntry>) returns (r: seq<Weighted<string>>)
    ensures r == FacetList(TopicCounts(safe), ByKey)
  {
    var m: Counter<string> := Counter(map[], []);
    var i := 0;
    while i < |safe|
      invariant 0 <= i <= |safe|
      invariant m == Tally.Tally(TopicCounts(safe[..i]))
    {
      var t := safe[i];
      assert safe[..i + 1][..i] == safe[..i];
      m := m.Set(t.topic, m.Get(t.topic) + t.count);
      i := i + 1;
    }
    assert safe[..i] == safe;
    r := Sort(ByKey, m.Entries());
  }

  /** Adding up the counts per topic and listing every pair agrees. */
  lemma {:induction false} TopicCountsTotal(safe: seq<TopicEntry>, t: string)
    ensures Total(TopicCounts(safe), t) == TopicTotal(safe, t)
  {
    if safe != [] {
      var rest := safe[1..];
      TopicCountsTotal(rest, t);
      var w := Weighted(safe[0].topic, safe[0].count);
      assert TopicCounts(safe) == [w] + TopicCounts(rest);
      TotalAppend([w], TopicCounts(rest), t);
      assert [w][..0] == [];
    }
  }

  /** The counts of the listed pairs add up to the input total. */
  lemma {:induction false} TopicCountsSum(safe: seq<TopicEntry>)
    ensures SumWeights(TopicCounts(safe)) == InputTotal(safe)
  {
    if safe != [] {
      var rest := safe[1..];
      TopicCountsSum(rest);
      assert TopicCounts(safe) == [Weighted(safe[0].topic, safe[0].count)] + TopicCounts(rest);
    }
  }

  /** The topics are listed once each, exactly those of the rows, in strictly
      ascending order, each with the sum of its rows' counts. */
  lemma UniqueTopicsFacts(safe: seq<TopicEntry>)
    ensures var r := FacetList(TopicCounts(safe), ByKey);
      && Distinct(KeysOf(r))
      && (forall t :: t in KeysOf(r) <==> exists i :: 0 <= i < |safe| && safe[i].topic == t)
      && (forall i :: 0 <= i < |r| ==> r[i].weight == TopicTotal(safe, r[i].key))
      && (forall i, j :: 0 <= i < j < |r| ==> Strings.Less(r[i].key, r[j].key))
  {
    var es := TopicCounts(safe);
    var r := FacetList(es, ByKey);
    FacetListFacts(es, ByKey);
    FacetListByKeyAscending(es);
    forall t ensures t in KeysOf(es) <==> exists i :: 0 <= i < |safe| && safe[i].topic == t {
      if t in KeysOf(es) {
        var i :| 0 <= i < |es| && KeysOf(es)[i] == t;
        assert safe[i].topic == t;
      }
      if exists i :: 0 <= i < |safe| && safe[i].topic == t {
        var i :| 0 <= i < |safe| && safe[i].topic == t;
        assert KeysOf(es)[i] == t;
      }
    }
    forall i | 0 <= i < |r| ensures r[i].weight == TopicTotal(safe, r[i].key) {
      TopicCountsTotal(safe, r[i].key);
    }
  }

  /** The "All topics" option shows the sum of every input count. */
  lemma AllTopicsTotal(safe: seq<TopicEntry>)
    ensures SumWeights(FacetList(TopicCounts(safe), ByKey)) == InputTotal(safe)
  {
    FacetListFacts(TopicCounts(safe), ByKey);
    TopicCountsSum(safe);
  }

  // -------------------------------------------------------------- subtopics

  /** `t.topic === topic && t.subtopic`. */
  predicate Selected(t: TopicEntry, topic: string)
  {
    t.topic == topic && Truthy(t.subtopic)
  }

  /** The rows of `topic` with a truthy subtopic, as (subtopic, count)
      pairs, in input order. */
  function SubtopicRows(safe: seq<TopicEntry>, topic: string): seq<Weighted<string>>
  {
    if safe == [] then []
    else
      var t := safe[|safe| - 1];
      SubtopicRows(safe[..|safe| - 1], topic)
        + (if Selected(t, topic) then [Weighted(t.subtopic.value, t.count)] else [])
  }

  /** `subtopics`: nothing while no topic is selected; otherwise the
      selected topic's rows that have a subtopic, sorted by subtopic. */
  function Subtopics(safe: seq<TopicEntry>, selected: Option<string>): (r: seq<Weighted<string>>)
    ensures !Truthy(selected) ==> r == []
    ensures Truthy(selected) ==> Sorted(ByKey, r) && multiset(r) == multiset(SubtopicRows(safe, selected.value))
  {
    if !Truthy(selected) then []
    else
      SortCorrect(ByKey, SubtopicRows(safe, selected.value));
      Sort(ByKey, SubtopicRows(safe, selected.value))
  }

  /** A pair is listed for the topic exactly when some row of that topic has
      that subtopic and count. */
  lemma {:induction false} SubtopicRowsMembers(safe: seq<TopicEntry>, topic: string, w: Weighted<string>)
    ensures w in SubtopicRows(safe, topic) <==>
      exists i :: 0 <= i < |safe| && Selected(safe[i], topic) && w == Weighted(safe[i].subtopic.value, safe[i].count)
  {
    if safe != [] {
      var init := safe[..|safe| - 1];
      SubtopicRowsMembers(init, topic, w);
      if exists i :: 0 <= i < |init| && Selected(init[i], topic) && w == Weighted(init[i].subtopic.value, init[i].count) {
        var i :| 0 <= i < |init| && Selected(init[i], topic) && w == Weighted(init[i].subtopic.value, init[i].count);
        assert safe[i] == init[i];
      }
      if exists i :: 0 <= i < |safe| && Selected(safe[i], topic) && w == Weighted(safe[i].subtopic.value, safe[i].count) {
        var i :| 0 <= i < |safe| && Selected(safe[i], topic) && w == Weighted(safe[i].subtopic.value, safe[i].count);
        if i < |init| {
          assert init[i] == safe[i];
        }
      }
    }
  }

  /** With a topic selected, the subtopic select lists exactly that topic's
      rows that have a subtopic. */
  lemma SubtopicsOfTopic(safe: seq<TopicEntry>, topic: string, w: Weighted<string>)
    requires topic != ""
    ensures w in Subtopics(safe, Some(topic)) <==>
      exists i :: 0 <= i < |safe| && Selected(safe[i], topic) && w == Weighted(safe[i].subtopic.value, safe[i].count)
  {
    SubtopicRowsMembers(safe, topic, w);
    assert w in Subtopics(safe, Some(topic)) <==> w in multiset(Subtopics(safe, Some(topic)));
  }

  // ---------------------------------------------------------- select values

  /** The select's value for "no selection". */
  const AllValue: string := "__all__"

  /** `selected ?? "__all__"`. */
  function ToSelectValue(selected: Option<string>): (v: string)
    ensures selected.None? ==> v == AllValue
    ensures selected.Some? ==> v == selected.value
  {
    match selected
    case None => AllValue
    case Some(s) => s
  }

  /** `v === "__all__" ? undefined : v`, for both selects. */
  function FromSelectValue(v: string): (r: Option<string>)
    ensures r.None? <==> v == AllValue
    ensures r.Some? ==> r.value == v
  {
    if v == AllValue then None else Some(v)
  }

  /** Choosing the value a select shows reproduces the selection, unless the
      selection is the reserved `__all__` itself. */
  lemma SelectionRoundTrip(selected: Option<string>)
    requires selected != Some(AllValue)
    ensures FromSelectValue(ToSelectValue(selected)) == selected
  {
  }

  /** Showing the selection a value produces gives that value back. */
  lemma ValueRoundTrip(v: string)
    ensures ToSelectValue(FromSelectValue(v)) == v
  {
  }
}
