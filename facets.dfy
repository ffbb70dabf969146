/** Facet lists: a counter written out as `{ key, count }` entries, sorted,
    and possibly truncated (`[...m.entries()].map(...).sort(...).slice(...)`). */
module Facets {
  import opened Common
  import opened Tally
  import opened Sorting
  import Strings

  /** The sorted entries of the counter the source builds from `es`. */
  function FacetList(es: seq<Weighted<string>>, o: Order): seq<Weighted<string>>
  {
    Sort(o, Tally.Tally(es).Entries())
  }

  /** `list.slice(0, n)`. */
  function Truncate<E>(s: seq<E>, n: nat): (r: seq<E>)
    ensures |r| == Min(n, |s|)
    ensures r == s[..|r|]
  {
    if |s| <= n then s else s[..n]
  }

  /** One entry per distinct key, whose count is the key's total weight,
      sorted by `o`, and together summing to the total weight. */
  lemma FacetListFacts(es: seq<Weighted<string>>, o: Order)
    ensures var r := FacetList(es, o);
      && Distinct(KeysOf(r))
      && (forall k :: k in KeysOf(r) <==> k in KeysOf(es))
      && (forall i :: 0 <= i < |r| ==> r[i].weight == Total(es, r[i].key))
      && Sorted(o, r)
      && SumWeights(r) == SumWeights(es)
  {
    var ents := Tally.Tally(es).Entries();
    var r := Sort(o, ents);
    TallyEntries(es);
    SortSameElements(o, ents);
    SortCorrect(o, ents);
    SumWeightsSort(o, ents);
    SortKeepsDistinctKeys(o, ents);
    SortSameKeys(o, ents);
    forall i | 0 <= i < |r| ensures r[i].weight == Total(es, r[i].key) {
      assert r[i] in r;
      var j :| 0 <= j < |ents| && ents[j] == r[i];
    }
  }

  /** Sorted by key with distinct keys: strictly ascending names. */
  lemma FacetListByKeyAscending(es: seq<Weighted<string>>)
    ensures var r := FacetList(es, ByKey);
      forall i, j :: 0 <= i < j < |r| ==> Strings.Less(r[i].key, r[j].key)
  {
    FacetListFacts(es, ByKey);
    SortedByKeyStrict(FacetList(es, ByKey));
  }

  /** Cutting a list sorted by descending weight keeps the heaviest
      entries: what is shown is still distinct and descending, and whatever
      is cut off the end weighs no more than anything shown. */
  lemma TruncateKeepsHeaviest(full: seq<Weighted<string>>, n: nat)
    requires Sorted(ByWeightDesc, full) && Distinct(KeysOf(full))
    ensures var r := Truncate(full, n);
      && Distinct(KeysOf(r))
      && (forall i, j :: 0 <= i < j < |r| ==> r[i].weight >= r[j].weight)
      && (forall i, j :: 0 <= i < |r| <= j < |full| ==> full[j].weight <= r[i].weight)
  {
    var r := Truncate(full, n);
    assert KeysOf(r) == KeysOf(full)[..|r|];
  }
}
