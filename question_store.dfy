/** The local question deck of `useQuestionStore`: the archived and skipped
    id sets, the shuffled `history` of the questions still available, and a
    clamped position in it. The random index of each shuffle step is a
    caller-supplied choice; the persistence of the two sets is left out. */
module QuestionStore {
  import opened Common
  import opened Records
  import Nav

  // ---------------------------------------------------------------- shuffle

  /** The random choices of one shuffle of `n` elements: `picks[i]` is the
      index `Math.floor(Math.random() * (i + 1))` drawn at step `i`. */
  predicate ValidPicks(picks: seq<nat>, n: nat)
  {
    |picks| == n && forall k :: 0 <= k < n ==> picks[k] <= k
  }

  /** `[s[i], s[j]] = [s[j], s[i]]` on a sequence. */
  function Swap<T>(s: seq<T>, i: nat, j: nat): (r: seq<T>)
    requires i < |s| && j < |s|
    ensures |r| == |s| && r[i] == s[j] && r[j] == s[i]
    ensures forall k :: 0 <= k < |s| && k != i && k != j ==> r[k] == s[k]
  {
    s[i := s[j]][j := s[i]]
  }

  /** A swap rearranges the elements and loses none. */
  lemma SwapPermutation<T>(s: seq<T>, i: nat, j: nat)
    requires i < |s| && j < |s|
    ensures multiset(Swap(s, i, j)) == multiset(s)
  {
    var t := s[i := s[j]];
    assert multiset(t) == multiset(s) - multiset{s[i]} + multiset{s[j]};
  }

  /** The steps `i, i - 1, .., 1` of the descending loop, still to run on `s`. */
  function ShuffleFrom<T>(s: seq<T>, picks: seq<nat>, i: int): seq<T>
    requires ValidPicks(picks, |s|) && i < |s|
    decreases i
  {
    if i <= 0 then s
    else
      var t := Swap(s, i, picks[i]);
      ShuffleFrom(t, picks, i - 1)
  }

  /** The whole shuffle: steps `|s| - 1` down to 1. */
  function Shuffled<T>(s: seq<T>, picks: seq<nat>): seq<T>
    requires ValidPicks(picks, |s|)
  {
    ShuffleFrom(s, picks, |s| - 1)
  }

  /** Whatever the choices, the remaining steps of a shuffle return a
      permutation of their input. */
  lemma {:induction false} ShuffleFromPermutation<T>(s: seq<T>, picks: seq<nat>, i: int)
    requires ValidPicks(picks, |s|) && i < |s|
    ensures |ShuffleFrom(s, picks, i)| == |s|
    ensures multiset(ShuffleFrom(s, picks, i)) == multiset(s)
    decreases i
  {
    if i > 0 {
      var t := Swap(s, i, picks[i]);
      SwapPermutation(s, i, picks[i]);
      ShuffleFromPermutation(t, picks, i - 1);
    }
  }

  /** `shuffle` returns a permutation of its input. */
  lemma ShuffledPermutation<T>(s: seq<T>, picks: seq<nat>)
    requires ValidPicks(picks, |s|)
    ensures |Shuffled(s, picks)| == |s|
    ensures multiset(Shuffled(s, picks)) == multiset(s)
  {
    ShuffleFromPermutation(s, picks, |s| - 1);
  }

  /** Choosing `j == i` at every step swaps nothing and keeps the order. */
  lemma {:induction false} ShuffleFromIdentity<T>(s: seq<T>, picks: seq<nat>, i: int)
    requires ValidPicks(picks, |s|) && i < |s|
    requires forall k :: 0 <= k < |s| ==> picks[k] == k
    ensures ShuffleFrom(s, picks, i) == s
    decreases i
  {
    if i > 0 {
      assert Swap(s, i, picks[i]) == s;
      ShuffleFromIdentity(s, picks, i - 1);
    }
  }

  /** `shuffle(arr)`: the loop runs on a fresh copy, so `arr` itself is not
      changed, and returns the shuffle the choices describe. */
  method Shuffle<T>(arr: array<T>, picks: seq<nat>) returns (copy: array<T>)
    requires ValidPicks(picks, arr.Length)
    ensures fresh(copy)
    ensures copy[..] == Shuffled(arr[..], picks)
    ensures multiset(copy[..]) == multiset(arr[..])
  {
    copy := new T[arr.Length](k requires 0 <= k < arr.Length reads arr => arr[k]);
    assert copy[..] == arr[..];
    var i := arr.Length - 1;
    while i > 0
      invariant -1 <= i < arr.Length == copy.Length
      invariant ShuffleFrom(copy[..], picks, i) == Shuffled(arr[..], picks)
      decreases i
    {
      var j := picks[i];
      ghost var before := copy[..];
      assert ShuffleFrom(before, picks, i) == ShuffleFrom(Swap(before, i, j), picks, i - 1);
      copy[i], copy[j] := copy[j], copy[i];
      assert copy[..] == Swap(before, i, j);
      i := i - 1;
    }
    ShuffledPermutation(arr[..], picks);
  }

  // ----------------------------------------------------------- derivations

  /** `allQuestions.filter(q => !archived.has(q.id) && !skipped.has(q.id))`. */
  function Available<Id(==)>(all: seq<Question<Id>>, archived: set<Id>, skipped: set<Id>): seq<Question<Id>>
  {
    Filter(all, (q: Question<Id>) => q.id !in archived && q.id !in skipped)
  }

  /** A question is available as many times as it is listed, unless its id
      is archived or skipped, and then not at all. */
  lemma AvailableCount<Id>(all: seq<Question<Id>>, archived: set<Id>, skipped: set<Id>, q: Question<Id>)
    ensures multiset(Available(all, archived, skipped))[q]
         == if q.id !in archived && q.id !in skipped then multiset(all)[q] else 0
  {
    FilterCount(all, (q: Question<Id>) => q.id !in archived && q.id !in skipped, q);
  }

  /** Archiving an id twice excludes the same questions as archiving it once. */
  lemma ArchiveIdempotent<Id>(all: seq<Question<Id>>, archived: set<Id>, skipped: set<Id>, id: Id)
    ensures (archived + {id}) + {id} == archived + {id}
    ensures Available(all, (archived + {id}) + {id}, skipped) == Available(all, archived + {id}, skipped)
  {
    assert (archived + {id}) + {id} == archived + {id};
  }

  /** `archivedCount` grows by one exactly when the id was not archived yet. */
  lemma ArchivedCountStep<Id>(archived: set<Id>, id: Id)
    ensures |archived + {id}| == |archived| + (if id in archived then 0 else 1)
  {
    if id in archived {
      assert archived + {id} == archived;
    } else {
      assert (archived + {id}) - {id} == archived;
    }
  }

  /** `history.filter(q => q.id !== id)`. */
  function RemoveId<Id(==)>(h: seq<Question<Id>>, id: Id): seq<Question<Id>>
  {
    Filter(h, (q: Question<Id>) => q.id != id)
  }

  /** Skipping drops every copy of the skipped question and keeps every copy
      of the others. */
  lemma RemoveIdCount<Id>(h: seq<Question<Id>>, id: Id, q: Question<Id>)
    ensures multiset(RemoveId(h, id))[q] == if q.id == id then 0 else multiset(h)[q]
  {
    FilterCount(h, (q: Question<Id>) => q.id != id, q);
  }

  /** The questions that remain keep their relative order. */
  lemma RemoveIdKeepsOrder<Id>(a: seq<Question<Id>>, b: seq<Question<Id>>, id: Id)
    ensures RemoveId(a + b, id) == RemoveId(a, id) + RemoveId(b, id)
  {
    FilterAppend(a, b, (q: Question<Id>) => q.id != id);
  }

  /** Skipping an id that is not in the history changes nothing. */
  lemma RemoveAbsentId<Id>(h: seq<Question<Id>>, id: Id)
    requires forall k :: 0 <= k < |h| ==> h[k].id != id
    ensures RemoveId(h, id) == h
  {
    FilterAll(h, (q: Question<Id>) => q.id != id);
  }

  /** The history only holds available questions, each at most as often as
      it is listed. */
  ghost predicate WithinAvailable<Id>(h: seq<Question<Id>>, all: seq<Question<Id>>, archived: set<Id>, skipped: set<Id>)
  {
    multiset(h) <= multiset(Available(all, archived, skipped))
  }

  /** A history within the available questions holds no archived or skipped
      question and no question that is not listed. */
  lemma WithinAvailableMembers<Id>(h: seq<Question<Id>>, all: seq<Question<Id>>, archived: set<Id>, skipped: set<Id>, k: nat)
    requires WithinAvailable(h, all, archived, skipped) && k < |h|
    ensures h[k] in all && h[k].id !in archived && h[k].id !in skipped
  {
    AvailableCount(all, archived, skipped, h[k]);
    assert multiset(h)[h[k]] >= 1;
  }

  /** A history within the available questions is no longer than them. */
  lemma WithinAvailableLength<Id>(h: seq<Question<Id>>, all: seq<Question<Id>>, archived: set<Id>, skipped: set<Id>)
    requires WithinAvailable(h, all, archived, skipped)
    ensures |h| <= |Available(all, archived, skipped)|
  {
    var a := multiset(Available(all, archived, skipped));
    assert a == multiset(h) + (a - multiset(h));
  }

  /** Skipping keeps the history within the available questions. */
  lemma SkipKeepsWithin<Id>(h: seq<Question<Id>>, all: seq<Question<Id>>, archived: set<Id>, skipped: set<Id>, id: Id)
    requires WithinAvailable(h, all, archived, skipped)
    ensures WithinAvailable(RemoveId(h, id), all, archived, skipped + {id})
  {
    forall q ensures multiset(RemoveId(h, id))[q] <= multiset(Available(all, archived, skipped + {id}))[q] {
      RemoveIdCount(h, id, q);
      AvailableCount(all, archived, skipped, q);
      AvailableCount(all, archived, skipped + {id}, q);
    }
  }

  /** Clearing the skipped set only makes more questions available. */
  lemma ClearKeepsWithin<Id>(h: seq<Question<Id>>, all: seq<Question<Id>>, archived: set<Id>, skipped: set<Id>)
    requires WithinAvailable(h, all, archived, skipped)
    ensures WithinAvailable(h, all, archived, {})
  {
    forall q ensures multiset(h)[q] <= multiset(Available(all, archived, {}))[q] {
      AvailableCount(all, archived, skipped, q);
      AvailableCount(all, archived, {}, q);
    }
  }

  // ------------------------------------------------------------------ deck

  class QuestionDeck<Id(==)> {
    /** `allQuestions`, the hook's argument. */
    const all: seq<Question<Id>>
    var archived: set<Id>
    var skipped: set<Id>
    var currentIndex: int
    var history: seq<Question<Id>>

    /** The index never drops below -1 (reached by `goNext` on an empty
        history), and the history only holds available questions. */
    ghost predicate Valid()
      reads this
    {
      currentIndex >= -1 && WithinAvailable(history, all, archived, skipped)
    }

    /** The first render: the loaded sets, an empty history and index 0;
        the mount effect is `Rederive`. */
    constructor (allQuestions: seq<Question<Id>>, loadedArchived: set<Id>, loadedSkipped: set<Id>)
      ensures Valid()
      ensures all == allQuestions && archived == loadedArchived && skipped == loadedSkipped
      ensures history == [] && currentIndex == 0
    {
      all := allQuestions;
      archived := loadedArchived;
      skipped := loadedSkipped;
      currentIndex := 0;
      history := [];
    }

    /** The effect keyed on `allQuestions` and `archived`: a fresh shuffle of
        the available questions, from the start. */
    method Rederive(picks: seq<nat>)
      requires Valid() && ValidPicks(picks, |Available(all, archived, skipped)|)
      modifies this
      ensures Valid()
      ensures archived == old(archived) && skipped == old(skipped)
      ensures history == Shuffled(Available(all, archived, skipped), picks)
      ensures multiset(history) == multiset(Available(all, archived, skipped))
      ensures currentIndex == 0
    {
      var available := Available(all, archived, skipped);
      var arr := new Question<Id>[|available|](k requires 0 <= k < |available| => available[k]);
      assert arr[..] == available;
      var shuffled := Shuffle(arr, picks);
      history := shuffled[..];
      currentIndex := 0;
    }

    /** `archiveQuestion(id)`: `archived` becomes a new set holding `id`,
        which re-runs the effect. */
    method ArchiveQuestion(id: Id, picks: seq<nat>)
      requires Valid() && ValidPicks(picks, |Available(all, archived + {id}, skipped)|)
      modifies this
      ensures Valid()
      ensures archived == old(archived) + {id} && skipped == old(skipped)
      ensures |archived| == old(|archived|) + (if id in old(archived) then 0 else 1)
      ensures history == Shuffled(Available(all, archived, skipped), picks)
      ensures currentIndex == 0
    {
      ArchivedCountStep(archived, id);
      archived := archived + {id};
      history := [];
      assert multiset(history) == multiset{};
      Rederive(picks);
    }

    /** `skipQuestion(id)`: `id` joins the skipped set and leaves the history;
        the index is not adjusted. */
    method SkipQuestion(id: Id)
      requires Valid()
      modifies this
      ensures Valid()
      ensures skipped == old(skipped) + {id} && archived == old(archived)
      ensures history == RemoveId(old(history), id)
      ensures currentIndex == old(currentIndex)
    {
      var kept := RemoveId(history, id);
      SkipKeepsWithin(history, all, archived, skipped, id);
      skipped, history := skipped + {id}, kept;
    }

    /** `clearSkipped()`: the skipped set empties; since the effect does not
        depend on it, the history and the index stay as they are. */
    method ClearSkipped()
      requires Valid()
      modifies this
      ensures Valid()
      ensures skipped == {} && archived == old(archived)
      ensures history == old(history) && currentIndex == old(currentIndex)
    {
      ClearKeepsWithin(history, all, archived, skipped);
      skipped := {};
    }

    /** `goNext`: `Math.min(i + 1, history.length - 1)`. */
    method GoNext()
      requires Valid()
      modifies this
      ensures Valid()
      ensures currentIndex == Nav.NextIndex(old(currentIndex), |history|)
      ensures history == old(history) && archived == old(archived) && skipped == old(skipped)
    {
      currentIndex := Nav.NextIndex(currentIndex, |history|);
    }

    /** `goPrev`: `Math.max(i - 1, 0)`. */
    method GoPrev()
      requires Valid()
      modifies this
      ensures Valid()
      ensures currentIndex == Nav.PrevIndex(old(currentIndex))
      ensures history == old(history) && archived == old(archived) && skipped == old(skipped)
    {
      currentIndex := Nav.PrevIndex(currentIndex);
    }

    /** `history[currentIndex] ?? null`: a question exactly when the index is
        inside the history, and then an available one. */
    function Current(): (r: Option<Question<Id>>)
      requires Valid()
      reads this
      ensures r.Some? <==> 0 <= currentIndex < |history|
      ensures r.Some? ==> r.value in all && r.value.id !in archived && r.value.id !in skipped
    {
      if 0 <= currentIndex < |history| then
        WithinAvailableMembers(history, all, archived, skipped, currentIndex);
        Some(history[currentIndex])
      else None
    }

    /** `totalAvailable`: the length of the history, never more than the
        questions currently available. */
    function TotalAvailable(): (r: nat)
      requires Valid()
      reads this
      ensures r == |history| && r <= |Available(all, archived, skipped)|
    {
      WithinAvailableLength(history, all, archived, skipped);
      |history|
    }

    /** `isFirst`: exactly when `goPrev` cannot move back. */
    function IsFirst(): (r: bool)
      requires Valid()
      reads this
      ensures r <==> Nav.PrevIndex(currentIndex) == currentIndex
    {
      currentIndex == 0
    }

    /** `isLast` (`currentIndex >= history.length - 1`, with no further pages
        to wait for): exactly when `goNext` cannot move on. */
    function IsLast(): (r: bool)
      reads this
      ensures r <==> Nav.NextIndex(currentIndex, |history|) <= currentIndex
    {
      Nav.NextStallsIffLast(currentIndex, |history|);
      currentIndex >= |history| - 1
    }
  }
}
