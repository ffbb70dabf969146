/** The two `Array.prototype.sort` comparators the source applies to
    `{ key, count }` entries, and a stable insertion sort (the order
    JavaScript guarantees for `sort` since ES2019). */
module Sorting {
  import opened Common
  import opened Tally
  import Strings

  /** `(a, b) => a.key.localeCompare(b.key)` (lexicographic here) and
      `(a, b) => b.count - a.count`. */
  datatype Order = ByKey | ByWeightDesc

  /** `a` sorts strictly before `b`: the comparator returns a negative number. */
  predicate Before(o: Order, a: Weighted<string>, b: Weighted<string>)
  {
    match o
    case ByKey => Strings.Less(a.key, b.key)
    case ByWeightDesc => a.weight > b.weight
  }

  /** Inserts `e` after every element that does not sort strictly after it. */
  function Insert(o: Order, e: Weighted<string>, s: seq<Weighted<string>>): seq<Weighted<string>>
  {
    if s == [] then [e]
    else if Before(o, e, s[0]) then [e] + s
    else [s[0]] + Insert(o, e, s[1..])
  }

  /** Stable insertion sort: elements are inserted in input order, each after
      the equal elements already placed. */
  function Sort(o: Order, s: seq<Weighted<string>>): seq<Weighted<string>>
  {
    if s == [] then [] else Insert(o, s[|s| - 1], Sort(o, s[..|s| - 1]))
  }

  ghost predicate Sorted(o: Order, s: seq<Weighted<string>>)
  {
    forall i, j :: 0 <= i < j < |s| ==> !Before(o, s[j], s[i])
  }

  lemma BeforeIrreflexive(o: Order, a: Weighted<string>)
    ensures !Before(o, a, a)
  {
    if o.ByKey? {
      Strings.LessIrreflexive(a.key);
    }
  }

  lemma BeforeTransitive(o: Order, a: Weighted<string>, b: Weighted<string>, c: Weighted<string>)
    requires Before(o, a, b) && Before(o, b, c)
    ensures Before(o, a, c)
  {
    if o.ByKey? {
      Strings.LessTransitive(a.key, b.key, c.key);
    }
  }

  lemma {:induction false} InsertCorrect(o: Order, e: Weighted<string>, s: seq<Weighted<string>>)
    requires Sorted(o, s)
    ensures Sorted(o, Insert(o, e, s))
    ensures multiset(Insert(o, e, s)) == multiset(s) + multiset{e}
  {
    if s == [] {
    } else if Before(o, e, s[0]) {
      var r := [e] + s;
      forall i, j | 0 <= i < j < |r| ensures !Before(o, r[j], r[i]) {
        if i == 0 {
          if Before(o, r[j], e) {
            BeforeTransitive(o, r[j], e, s[0]);
            if j == 1 { BeforeIrreflexive(o, s[0]); }
          }
        }
      }
    } else {
      assert s == [s[0]] + s[1..];
      InsertCorrect(o, e, s[1..]);
      var t := Insert(o, e, s[1..]);
      var r := [s[0]] + t;
      forall i, j | 0 <= i < j < |r| ensures !Before(o, r[j], r[i]) {
        if i == 0 {
          assert r[j] in multiset(t);
          if r[j] != e {
            assert r[j] in multiset(s[1..]);
            var k :| 1 <= k < |s| && s[k] == r[j];
          }
        }
      }
    }
  }

  /** The sort returns a sorted permutation of its input. */
  lemma {:induction false} SortCorrect(o: Order, s: seq<Weighted<string>>)
    ensures Sorted(o, Sort(o, s))
    ensures multiset(Sort(o, s)) == multiset(s)
  {
    if s != [] {
      assert s == s[..|s| - 1] + [s[|s| - 1]];
      SortCorrect(o, s[..|s| - 1]);
      InsertCorrect(o, s[|s| - 1], Sort(o, s[..|s| - 1]));
    }
  }

  /** With distinct keys, sorting by key gives strictly ascending keys. */
  lemma SortedByKeyStrict(s: seq<Weighted<string>>)
    requires Sorted(ByKey, s) && Distinct(KeysOf(s))
    ensures forall i, j :: 0 <= i < j < |s| ==> Strings.Less(s[i].key, s[j].key)
  {
    forall i, j | 0 <= i < j < |s| ensures Strings.Less(s[i].key, s[j].key) {
      assert KeysOf(s)[i] != KeysOf(s)[j];
      Strings.LessTotal(s[i].key, s[j].key);
    }
  }

  lemma {:induction false} SumWeightsInsert(o: Order, e: Weighted<string>, s: seq<Weighted<string>>)
    ensures SumWeights(Insert(o, e, s)) == e.weight + SumWeights(s)
  {
    if s != [] && !Before(o, e, s[0]) {
      SumWeightsInsert(o, e, s[1..]);
      assert ([s[0]] + Insert(o, e, s[1..]))[1..] == Insert(o, e, s[1..]);
    } else {
      assert ([e] + s)[1..] == s;
    }
  }

  /** Sorting does not change the sum of the counts. */
  lemma {:induction false} SumWeightsSort(o: Order, s: seq<Weighted<string>>)
    ensures SumWeights(Sort(o, s)) == SumWeights(s)
  {
    if s != [] {
      var init, last := s[..|s| - 1], s[|s| - 1];
      assert s == init + [last];
      SumWeightsSort(o, init);
      SumWeightsInsert(o, last, Sort(o, init));
      SumWeightsSnoc(init, last);
    }
  }

  /** Keys survive the sort, so their distinctness does too. */
  lemma SortKeepsDistinctKeys(o: Order, s: seq<Weighted<string>>)
    requires Distinct(KeysOf(s))
    ensures Distinct(KeysOf(Sort(o, s)))
  {
    var r := Sort(o, s);
    SortCorrect(o, s);
    assert Distinct(s) by {
      forall i, j | 0 <= i < j < |s| ensures s[i] != s[j] {
        assert KeysOf(s)[i] != KeysOf(s)[j];
      }
    }
    forall i, j | 0 <= i < j < |r| ensures r[i].key != r[j].key {
      if r[i].key == r[j].key {
        assert r[i] in multiset(s) && r[j] in multiset(s);
        var a :| 0 <= a < |s| && s[a] == r[i];
        var b :| 0 <= b < |s| && s[b] == r[j];
        assert KeysOf(s)[a] == KeysOf(s)[b];
        MultisetTwoIndices(r, i, j);
        DistinctCount(s, r[i]);
        assert false;
      }
    }
  }

  lemma MultisetTwoIndices<T>(r: seq<T>, i: nat, j: nat)
    requires i < j < |r| && r[i] == r[j]
    ensures multiset(r)[r[i]] >= 2
  {
    assert r == r[..i] + [r[i]] + r[i + 1..j] + [r[j]] + r[j + 1..];
  }

  lemma {:induction false} DistinctCount<T>(s: seq<T>, x: T)
    requires Distinct(s)
    ensures multiset(s)[x] <= 1
  {
    if s != [] {
      var t := s[1..];
      assert s == [s[0]] + t;
      assert Distinct(t) by {
        forall i, j | 0 <= i < j < |t| ensures t[i] != t[j] {
          assert t[i] == s[i + 1] && t[j] == s[j + 1];
        }
      }
      DistinctCount(t, x);
    }
  }

  /** Sorting neither adds nor drops an entry. */
  lemma SortSameElements(o: Order, s: seq<Weighted<string>>)
    ensures forall x :: x in Sort(o, s) <==> x in s
  {
    SortCorrect(o, s);
    forall x ensures x in Sort(o, s) <==> x in s {
      assert x in Sort(o, s) <==> x in multiset(Sort(o, s));
    }
  }

  /** Sorting keeps the set of keys. */
  lemma SortSameKeys(o: Order, s: seq<Weighted<string>>)
    ensures forall k :: k in KeysOf(Sort(o, s)) <==> k in KeysOf(s)
  {
    var r := Sort(o, s);
    SortSameElements(o, s);
    forall k | k in KeysOf(s) ensures k in KeysOf(r) {
      var j :| 0 <= j < |s| && s[j].key == k;
      assert s[j] in s;
      var i :| 0 <= i < |r| && r[i] == s[j];
      assert KeysOf(r)[i] == k;
    }
    forall k | k in KeysOf(r) ensures k in KeysOf(s) {
      var i :| 0 <= i < |r| && r[i].key == k;
      assert r[i] in r;
      var j :| 0 <= j < |s| && s[j] == r[i];
      assert KeysOf(s)[j] == k;
    }
  }
}
