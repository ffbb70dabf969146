/** Counting into a JavaScript `Map`: the source's `m.set(k, (m.get(k) || 0) + w)`
    loops. A JavaScript `Map` remembers the order in which keys were first
    inserted, so it is modelled as a Dafny map plus that insertion order. */
module Tally {
  import opened Common

  /** A key with a count (`{ position, count }`, `{ topic, count }`, ...). */
  datatype Weighted<K> = Weighted(key: K, weight: nat)

  function KeysOf<K>(es: seq<Weighted<K>>): (ks: seq<K>)
    ensures |ks| == |es|
    ensures forall i :: 0 <= i < |es| ==> ks[i] == es[i].key
  {
    if es == [] then [] else KeysOf(es[..|es| - 1]) + [es[|es| - 1].key]
  }

  /** Every key with weight one: plain occurrence counting. */
  function Ones<K>(ks: seq<K>): (es: seq<Weighted<K>>)
    ensures |es| == |ks|
    ensures forall i :: 0 <= i < |ks| ==> es[i] == Weighted(ks[i], 1)
  {
    if ks == [] then [] else Ones(ks[..|ks| - 1]) + [Weighted(ks[|ks| - 1], 1)]
  }

  /** Sum of the weights recorded for key `k`. */
  function Total<K(==)>(es: seq<Weighted<K>>, k: K): nat
  {
    if es == [] then 0
    else Total(es[..|es| - 1], k) + (if es[|es| - 1].key == k then es[|es| - 1].weight else 0)
  }

  /** Sum of all weights. */
  function SumWeights<K>(es: seq<Weighted<K>>): nat
  {
    if es == [] then 0 else es[0].weight + SumWeights(es[1..])
  }

  /** `[...new Set(ks)]`: the distinct elements in order of first appearance. */
  function Dedup<K(==)>(ks: seq<K>): seq<K>
  {
    if ks == [] then []
    else if ks[|ks| - 1] in ks[..|ks| - 1] then Dedup(ks[..|ks| - 1])
    else Dedup(ks[..|ks| - 1]) + [ks[|ks| - 1]]
  }

  /** Index of the first occurrence of `x` in `ks`. */
  function FirstIndex<K(==)>(ks: seq<K>, x: K): (i: nat)
    requires x in ks
    ensures i < |ks| && ks[i] == x && x !in ks[..i]
  {
    if ks[0] == x then 0 else 1 + FirstIndex(ks[1..], x)
  }

  /** The JavaScript `Map<K, number>` used as a counter. */
  datatype Counter<K(==)> = Counter(counts: map<K, nat>, order: seq<K>)
  {
    /** `m.get(k) || 0` */
    function Get(k: K): nat
    {
      if k in counts then counts[k] else 0
    }

    /** `m.set(k, v)`: a new key goes to the end of the insertion order,
        an existing key keeps its place. */
    function Set(k: K, v: nat): Counter<K>
    {
      Counter(counts[k := v], if k in counts then order else order + [k])
    }

    /** `[...m.entries()]`, in insertion order. */
    function Entries(): (es: seq<Weighted<K>>)
      ensures |es| == |order|
      ensures forall i :: 0 <= i < |order| ==> es[i] == Weighted(order[i], Get(order[i]))
    {
      seq(|order|, i requires 0 <= i < |order| => Weighted(order[i], Get(order[i])))
    }
  }

  /** The counter the source's loop builds from the (key, weight) pairs it
      visits, in visiting order. */
  function Tally<K(==)>(es: seq<Weighted<K>>): Counter<K>
  {
    if es == [] then Counter(map[], [])
    else
      var c := Tally(es[..|es| - 1]);
      var e := es[|es| - 1];
      c.Set(e.key, c.Get(e.key) + e.weight)
  }

  lemma KeysOfSnoc<K>(es: seq<Weighted<K>>, e: Weighted<K>)
    ensures KeysOf(es + [e]) == KeysOf(es) + [e.key]
  {
    assert (es + [e])[..|es|] == es;
  }

  lemma OnesSnoc<K>(ks: seq<K>, k: K)
    ensures Ones(ks + [k]) == Ones(ks) + [Weighted(k, 1)]
  {
    assert (ks + [k])[..|ks|] == ks;
  }

  /** The distinct elements, each once, in first-appearance order. */
  lemma {:induction false} DedupFacts<K>(ks: seq<K>)
    ensures forall x :: x in Dedup(ks) <==> x in ks
    ensures Distinct(Dedup(ks))
    ensures forall i, j :: 0 <= i < j < |Dedup(ks)| ==>
              FirstIndex(ks, Dedup(ks)[i]) < FirstIndex(ks, Dedup(ks)[j])
  {
    if ks != [] {
      var init, last := ks[..|ks| - 1], ks[|ks| - 1];
      assert ks == init + [last];
      DedupFacts(init);
      forall x | x in init ensures FirstIndex(ks, x) == FirstIndex(init, x) {
        FirstIndexPrefix(init, [last], x);
      }
    }
  }

  lemma {:induction false} FirstIndexPrefix<K>(xs: seq<K>, ys: seq<K>, x: K)
    requires x in xs
    ensures x in xs + ys && FirstIndex(xs + ys, x) == FirstIndex(xs, x)
  {
    if xs[0] != x {
      assert (xs + ys)[1..] == xs[1..] + ys;
      FirstIndexPrefix(xs[1..], ys, x);
    }
  }

  /** The counter holds, for every key seen, the sum of its weights, and its
      insertion order is the first-appearance order of the keys. */
  lemma {:induction false} TallyFacts<K>(es: seq<Weighted<K>>)
    ensures forall k :: k in Tally(es).counts <==> k in Tally(es).order
    ensures Distinct(Tally(es).order)
    ensures Tally(es).order == Dedup(KeysOf(es))
    ensures forall k :: k in Tally(es).counts <==> k in KeysOf(es)
    ensures forall k :: Tally(es).Get(k) == Total(es, k)
  {
    if es != [] {
      var init, e := es[..|es| - 1], es[|es| - 1];
      assert es == init + [e];
      TallyFacts(init);
      KeysOfSnoc(init, e);
      assert KeysOf(es)[..|KeysOf(es)| - 1] == KeysOf(init);
      DedupFacts(KeysOf(init));
    }
  }

  lemma {:induction false} SumWeightsSnoc<K>(es: seq<Weighted<K>>, e: Weighted<K>)
    ensures SumWeights(es + [e]) == SumWeights(es) + e.weight
  {
    if es != [] {
      assert (es + [e])[1..] == es[1..] + [e];
      SumWeightsSnoc(es[1..], e);
    }
  }

  lemma {:induction false} SumWeightsUpdate<K>(es: seq<Weighted<K>>, i: nat, e: Weighted<K>)
    requires i < |es|
    ensures SumWeights(es[i := e]) + es[i].weight == SumWeights(es) + e.weight
  {
    if i > 0 {
      assert es[i := e][1..] == es[1..][i - 1 := e];
      SumWeightsUpdate(es[1..], i - 1, e);
    }
  }

  /** Setting a key already present rewrites its one entry in place. */
  lemma SetExistingEntries<K>(c: Counter<K>, k: K, v: nat, idx: nat)
    requires forall i :: 0 <= i < |c.order| ==> c.order[i] in c.counts
    requires Distinct(c.order) && idx < |c.order| && c.order[idx] == k
    ensures c.Set(k, v).order == c.order
    ensures c.Set(k, v).Entries() == c.Entries()[idx := Weighted(k, v)]
  {
    var d := c.Set(k, v);
    forall i | 0 <= i < |d.order|
      ensures d.Entries()[i] == c.Entries()[idx := Weighted(k, v)][i]
    {
      if i != idx {
        assert c.order[i] != k;
      }
    }
  }

  /** Setting a new key appends one entry. */
  lemma SetNewEntries<K>(c: Counter<K>, k: K, v: nat)
    requires forall i :: 0 <= i < |c.order| ==> c.order[i] in c.counts
    requires k !in c.counts
    ensures c.Set(k, v).order == c.order + [k]
    ensures c.Set(k, v).Entries() == c.Entries() + [Weighted(k, v)]
  {
    var d := c.Set(k, v);
    forall i | 0 <= i < |c.order|
      ensures d.Entries()[i] == c.Entries()[i]
    {
      assert c.order[i] != k;
    }
  }

  /** The insertion order lists every key of the counter exactly once. */
  lemma {:induction false} TallyShape<K>(es: seq<Weighted<K>>)
    ensures forall k :: k in Tally(es).counts <==> k in Tally(es).order
    ensures Distinct(Tally(es).order)
  {
    if es != [] {
      TallyShape(es[..|es| - 1]);
    }
  }

  /** Writing the counts out as entries loses no weight: the entries sum to
      the total weight of the visited pairs. */
  lemma {:induction false} SumTally<K>(es: seq<Weighted<K>>)
    ensures SumWeights(Tally(es).Entries()) == SumWeights(es)
  {
    if es != [] {
      var init, e := es[..|es| - 1], es[|es| - 1];
      assert es == init + [e];
      SumTally(init);
      TallyShape(init);
      SumWeightsSnoc(init, e);
      var c0 := Tally(init);
      var v := c0.Get(e.key) + e.weight;
      assert Tally(es) == c0.Set(e.key, v);
      if e.key in c0.counts {
        var idx :| 0 <= idx < |c0.order| && c0.order[idx] == e.key;
        SetExistingEntries(c0, e.key, v, idx);
        SumWeightsUpdate(c0.Entries(), idx, Weighted(e.key, v));
      } else {
        SetNewEntries(c0, e.key, v);
        SumWeightsSnoc(c0.Entries(), Weighted(e.key, v));
      }
    }
  }

  /** Every pair carries a positive weight. */
  ghost predicate PositiveWeights<K>(es: seq<Weighted<K>>)
  {
    forall i :: 0 <= i < |es| ==> es[i].weight >= 1
  }

  /** With positive weights every key that occurs totals at least one. */
  lemma {:induction false} TotalPositive<K>(es: seq<Weighted<K>>, k: K)
    requires PositiveWeights(es) && k in KeysOf(es)
    ensures Total(es, k) >= 1
  {
    var init := es[..|es| - 1];
    KeysOfSnoc(init, es[|es| - 1]);
    assert es == init + [es[|es| - 1]];
    if es[|es| - 1].key != k {
      TotalPositive(init, k);
    }
  }

  /** The written-out counter: one entry per distinct key, in first-appearance
      order, carrying the key's total weight, and summing to the whole. */
  lemma TallyEntries<K>(es: seq<Weighted<K>>)
    ensures var ents := Tally(es).Entries();
      && KeysOf(ents) == Dedup(KeysOf(es))
      && Distinct(KeysOf(ents))
      && (forall k :: k in KeysOf(ents) <==> k in KeysOf(es))
      && (forall i :: 0 <= i < |ents| ==> ents[i].weight == Total(es, ents[i].key))
      && SumWeights(ents) == SumWeights(es)
  {
    TallyFacts(es);
    SumTally(es);
    DedupFacts(KeysOf(es));
    assert KeysOf(Tally(es).Entries()) == Tally(es).order;
  }

  /** One more visited pair is one more `set(k, (get(k) || 0) + w)`. */
  lemma TallySnoc<K>(es: seq<Weighted<K>>, e: Weighted<K>)
    ensures Tally(es + [e]) == Tally(es).Set(e.key, Tally(es).Get(e.key) + e.weight)
  {
    assert (es + [e])[..|es|] == es;
  }

  /** Totals add up over concatenation. */
  lemma {:induction false} TotalAppend<K>(a: seq<Weighted<K>>, b: seq<Weighted<K>>, k: K)
    ensures Total(a + b, k) == Total(a, k) + Total(b, k)
  {
    if b == [] {
      assert a + b == a;
    } else {
      var b0 := b[..|b| - 1];
      assert (a + b)[..|a + b| - 1] == a + b0;
      TotalAppend(a, b0, k);
    }
  }

  /** Counting one per element counts occurrences. */
  lemma {:induction false} TotalOnes<K>(ks: seq<K>, k: K)
    ensures Total(Ones(ks), k) == multiset(ks)[k]
  {
    if ks != [] {
      var init := ks[..|ks| - 1];
      assert ks == init + [ks[|ks| - 1]];
      OnesSnoc(init, ks[|ks| - 1]);
      TotalOnes(init, k);
    }
  }

  lemma AppendSnoc<E>(a: seq<E>, b: seq<E>, e: E)
    ensures a + (b + [e]) == (a + b) + [e]
  {
  }

  lemma KeysOfAppend<K>(a: seq<Weighted<K>>, b: seq<Weighted<K>>)
    ensures KeysOf(a + b) == KeysOf(a) + KeysOf(b)
  {
  }

  /** With unit weights the total weight is the number of pairs. */
  lemma {:induction false} SumWeightsUnit<K>(es: seq<Weighted<K>>)
    requires forall i :: 0 <= i < |es| ==> es[i].weight == 1
    ensures SumWeights(es) == |es|
  {
    if es != [] {
      SumWeightsUnit(es[1..]);
    }
  }

  /** The counter after adding one for each key of `ks`, in order. */
  function CountEach<K(==)>(c: Counter<K>, ks: seq<K>): Counter<K>
  {
    if ks == [] then c
    else
      var d := CountEach(c, ks[..|ks| - 1]);
      d.Set(ks[|ks| - 1], d.Get(ks[|ks| - 1]) + 1)
  }

  /** Counting unit pairs after a run is adding one per key to the run's
      counter. */
  lemma {:induction false} TallyOnes<K>(base: seq<Weighted<K>>, ks: seq<K>)
    ensures Tally(base + Ones(ks)) == CountEach(Tally(base), ks)
  {
    if ks == [] {
      assert base + Ones(ks) == base;
    } else {
      var init := ks[..|ks| - 1];
      var k := ks[|ks| - 1];
      assert ks == init + [k];
      TallyOnes(base, init);
      OnesSnoc(init, k);
      AppendSnoc(base, Ones(init), Weighted(k, 1));
      TallySnoc(base + Ones(init), Weighted(k, 1));
    }
  }
}
