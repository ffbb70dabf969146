/** The paginated deck controller behind `useInterviewStore` and
    `useGuideStore`. Both hooks are the same state machine; they differ only
    in the filter record (`F`) and the item type (`T`). Each React effect
    and callback is a transition on the `Pager` value, and the `Deck` class
    holds the hook's state and applies those transitions in place. */
module PagedDeck {
  import opened Common
  import Nav

  /** Both hooks ask for pages of ten. */
  const PageSize: nat := 10

  /** The input of one `getPaginated` query or prefetch. */
  datatype PageRequest<F> = PageRequest(seed: int, page: nat, pageSize: nat, filter: F)

  /** One resolved `pageQuery.data`; `items` is None when the payload's list
      is not an array. */
  datatype Response<T> = Response(items: Option<seq<T>>, totalCount: nat, page: nat, hasMore: bool)

  /** The hook state: the `useState` cells and `loadedPagesRef`. */
  datatype Pager<T, F> = Pager(
    seed: int,
    filter: F,
    currentPage: nat,
    items: seq<T>,
    globalIndex: int,
    totalCount: nat,
    hasMore: bool,
    loadedPages: set<nat>)

  /** The index is -1 (only after `goNext` on an empty list), 0, or a
      position of the loaded list. */
  predicate Inv<T, F>(s: Pager<T, F>)
  {
    Nav.InRange(s.globalIndex, |s.items|)
  }

  /** The state on mount, and after every reset. */
  function Initial<T, F>(seed: int, filter: F): (s: Pager<T, F>)
    ensures Inv(s)
    ensures s.items == [] && s.loadedPages == {} && s.globalIndex == 0
    ensures s.currentPage == 0 && s.totalCount == 0 && s.hasMore
  {
    Pager(seed, filter, 0, [], 0, 0, true, {})
  }

  /** The filter effect: a filter that differs by value resets everything
      except the seed; an equal filter changes nothing. */
  function AfterFilterChange<T, F(==)>(s: Pager<T, F>, f: F): (r: Pager<T, F>)
    ensures r.seed == s.seed && r.filter == f
    ensures s.filter == f ==> r == s
    ensures s.filter != f ==> r == Initial(s.seed, f)
  {
    if s.filter != f then Initial(s.seed, f) else s
  }

  /** The merge effect accepts only an array payload for a page that is not
      yet in `loadedPages`. */
  predicate Accepts<T, F>(s: Pager<T, F>, data: Option<Response<T>>)
  {
    data.Some? && data.value.items.Some? && data.value.page !in s.loadedPages
  }

  /** The merge effect: appends the page's items after the loaded ones (in
      arrival order, whatever the page number), records the page and copies
      `totalCount` and `hasMore`. */
  function AfterMerge<T, F>(s: Pager<T, F>, data: Option<Response<T>>): (r: Pager<T, F>)
    ensures !Accepts(s, data) ==> r == s
    ensures Accepts(s, data) ==>
      && r.items == s.items + data.value.items.value
      && r.loadedPages == s.loadedPages + {data.value.page}
      && r.totalCount == data.value.totalCount
      && r.hasMore == data.value.hasMore
      && r.(items := s.items, loadedPages := s.loadedPages,
            totalCount := s.totalCount, hasMore := s.hasMore) == s
  {
    if Accepts(s, data) then
      s.(items := s.items + data.value.items.value,
         loadedPages := s.loadedPages + {data.value.page},
         totalCount := data.value.totalCount,
         hasMore := data.value.hasMore)
    else s
  }

  /** The auto-advance effect's guard. */
  predicate AdvanceDue<T, F>(s: Pager<T, F>)
  {
    s.hasMore && |s.items| > 0 && s.globalIndex >= |s.items| - 1
    && s.currentPage + 1 !in s.loadedPages
  }

  /** The auto-advance effect moves the page cursor by one when due and
      changes nothing else. */
  function AfterAutoAdvance<T, F>(s: Pager<T, F>): (r: Pager<T, F>)
    ensures r.currentPage == if AdvanceDue(s) then s.currentPage + 1 else s.currentPage
    ensures r.(currentPage := s.currentPage) == s
  {
    if AdvanceDue(s) then s.(currentPage := s.currentPage + 1) else s
  }

  /** The prefetch effect: asks for the page after the cursor when more
      pages exist, at most three loaded items remain after the current one,
      and that page is not loaded yet. */
  function PrefetchRequest<T, F>(s: Pager<T, F>): (r: Option<PageRequest<F>>)
    ensures r.Some? <==>
      s.hasMore && |s.items| - s.globalIndex - 1 <= 3 && s.currentPage + 1 !in s.loadedPages
    ensures r.Some? ==> r.value.page == s.currentPage + 1 && r.value.pageSize == PageSize
                        && r.value.seed == s.seed && r.value.filter == s.filter
  {
    if s.hasMore && |s.items| - s.globalIndex - 1 <= 3 && s.currentPage + 1 !in s.loadedPages
    then Some(PageRequest(s.seed, s.currentPage + 1, PageSize, s.filter))
    else None
  }

  /** The main query: enabled only while the cursor's page is not loaded. */
  function PageQuery<T, F>(s: Pager<T, F>): (r: Option<PageRequest<F>>)
    ensures r.Some? <==> s.currentPage !in s.loadedPages
    ensures r.Some? ==> r.value == PageRequest(s.seed, s.currentPage, PageSize, s.filter)
  {
    if s.currentPage !in s.loadedPages
    then Some(PageRequest(s.seed, s.currentPage, PageSize, s.filter))
    else None
  }

  /** `goNext`: one step forward, clamped to the last loaded item. */
  function AfterNext<T, F>(s: Pager<T, F>): (r: Pager<T, F>)
    ensures r.globalIndex == Nav.NextIndex(s.globalIndex, |s.items|)
    ensures r.(globalIndex := s.globalIndex) == s
  {
    s.(globalIndex := Nav.NextIndex(s.globalIndex, |s.items|))
  }

  /** `goPrev`: one step back, clamped at 0. */
  function AfterPrev<T, F>(s: Pager<T, F>): (r: Pager<T, F>)
    ensures r.globalIndex == Nav.PrevIndex(s.globalIndex)
    ensures r.(globalIndex := s.globalIndex) == s
  {
    s.(globalIndex := Nav.PrevIndex(s.globalIndex))
  }

  /** `loadedItems[globalIndex] ?? null`. */
  function CurrentItem<T, F>(s: Pager<T, F>): (r: Option<T>)
    ensures r.Some? <==> 0 <= s.globalIndex < |s.items|
    ensures r.Some? ==> r.value == s.items[s.globalIndex]
  {
    if 0 <= s.globalIndex < |s.items| then Some(s.items[s.globalIndex]) else None
  }

  predicate IsFirst<T, F>(s: Pager<T, F>)
  {
    s.globalIndex == 0
  }

  /** The end is reached only when no further page exists. */
  predicate IsLast<T, F>(s: Pager<T, F>)
  {
    s.globalIndex >= |s.items| - 1 && !s.hasMore
  }

  predicate IsLoading<T, F>(s: Pager<T, F>, queryLoading: bool)
  {
    queryLoading && |s.items| == 0
  }

  /** Responses merged one after another, in arrival order. */
  function MergeAll<T, F>(s: Pager<T, F>, ds: seq<Option<Response<T>>>): Pager<T, F>
    decreases |ds|
  {
    if ds == [] then s else MergeAll(AfterMerge(s, ds[0]), ds[1..])
  }

  // ---------------------------------------------------------------------
  // Properties of the transitions

  /** What the invariant buys: with items loaded, the deck shows the item at
      the index unless the index is -1, which only `goNext` on an empty list
      produces (`NextOnEmptyHidesFirstPage`). */
  lemma InvShowsItem<T, F>(s: Pager<T, F>)
    requires Inv(s) && |s.items| > 0 && s.globalIndex != -1
    ensures CurrentItem(s) == Some(s.items[s.globalIndex])
  {
  }

  /** Every transition keeps the index invariant. */
  lemma TransitionsKeepInv<T, F>(s: Pager<T, F>, f: F, d: Option<Response<T>>)
    requires Inv(s)
    ensures Inv(AfterFilterChange(s, f))
    ensures Inv(AfterMerge(s, d))
    ensures Inv(AfterAutoAdvance(s))
    ensures Inv(AfterNext(s)) && Inv(AfterPrev(s))
  {
    Nav.StepsKeepRange(s.globalIndex, |s.items|);
    Nav.GrowKeepsRange(s.globalIndex, |s.items|, |AfterMerge(s, d).items|);
  }

  /** A second filter event with the same value is a no-op. */
  lemma FilterChangeIdempotent<T, F>(s: Pager<T, F>, f: F)
    ensures AfterFilterChange(AfterFilterChange(s, f), f) == AfterFilterChange(s, f)
  {
  }

  /** Merging the same response twice equals merging it once. */
  lemma MergeIdempotent<T, F>(s: Pager<T, F>, d: Option<Response<T>>)
    ensures AfterMerge(AfterMerge(s, d), d) == AfterMerge(s, d)
  {
  }

  /** Any sequence of merges keeps the loaded items as a prefix, only adds
      pages, keeps the invariant and never moves the cursors. */
  lemma {:induction false} MergeAllAppendOnly<T, F>(s: Pager<T, F>, ds: seq<Option<Response<T>>>)
    requires Inv(s)
    ensures var r := MergeAll(s, ds);
      && |s.items| <= |r.items| && r.items[..|s.items|] == s.items
      && s.loadedPages <= r.loadedPages
      && r.globalIndex == s.globalIndex && r.currentPage == s.currentPage
      && r.seed == s.seed && r.filter == s.filter
      && Inv(r)
    decreases |ds|
  {
    if ds != [] {
      var s1 := AfterMerge(s, ds[0]);
      Nav.GrowKeepsRange(s.globalIndex, |s.items|, |s1.items|);
      MergeAllAppendOnly(s1, ds[1..]);
      var r := MergeAll(s1, ds[1..]);
      assert r.items[..|s.items|] == r.items[..|s1.items|][..|s.items|];
    }
  }

  /** Pages are concatenated in arrival order, not in page order: page 1
      arriving before page 0 puts its items first. */
  lemma ArrivalOrder<T, F>(seed: int, f: F, page0: seq<T>, page1: seq<T>, total: nat)
    ensures
      var r := MergeAll(Initial(seed, f),
                        [Some(Response(Some(page1), total, 1, true)),
                         Some(Response(Some(page0), total, 0, true))]);
      r.items == page1 + page0 && r.loadedPages == {0, 1}
  {
    var s0: Pager<T, F> := Initial(seed, f);
    var d1 := Some(Response(Some(page1), total, 1, true));
    var d0 := Some(Response(Some(page0), total, 0, true));
    var s1 := AfterMerge(s0, d1);
    assert s1.items == page1;
    var s2 := AfterMerge(s1, d0);
    assert MergeAll(s0, [d1, d0]) == MergeAll(s1, [d0]);
    assert MergeAll(s1, [d0]) == MergeAll(s2, []);
  }

  /** Whenever the cursor auto-advances, the prefetch effect asks for the
      same page in the same update. */
  lemma AdvanceImpliesPrefetch<T, F>(s: Pager<T, F>)
    requires AdvanceDue(s)
    ensures PrefetchRequest(s) == Some(PageRequest(s.seed, AfterAutoAdvance(s).currentPage, PageSize, s.filter))
  {
  }

  /** The auto-advance guard looks one page past the cursor, so re-running
      the effect before a merge advances the cursor again. */
  lemma AutoAdvanceRunsAhead<T, F>(s: Pager<T, F>)
    requires AdvanceDue(s) && s.currentPage + 2 !in s.loadedPages
    ensures AfterAutoAdvance(AfterAutoAdvance(s)).currentPage == s.currentPage + 2
  {
  }

  /** At the last item with no more pages, `goNext` stays, nothing is
      fetched and the deck reports its end. */
  lemma EndOfDeck<T, F>(s: Pager<T, F>)
    requires |s.items| > 0 && s.globalIndex == |s.items| - 1 && !s.hasMore
    ensures AfterNext(s) == s
    ensures AfterAutoAdvance(s) == s && PrefetchRequest(s).None?
    ensures IsLast(s) && CurrentItem(s) == Some(s.items[|s.items| - 1])
  {
  }

  /** `goNext` before the first page arrives leaves the index at -1, so once
      the page is merged the deck shows no item although items are loaded. */
  lemma NextOnEmptyHidesFirstPage<T, F>(seed: int, f: F, items: seq<T>, total: nat, more: bool)
    requires items != []
    ensures var s := AfterMerge(AfterNext(Initial(seed, f)), Some(Response(Some(items), total, 0, more)));
      s.globalIndex == -1 && |s.items| > 0 && CurrentItem(s).None? && !IsFirst(s)
  {
  }

  /** After a reset the deck is at its first position, shows nothing, and
      reports loading while the first query is in flight. */
  lemma ResetState<T, F>(s: Pager<T, F>, f: F)
    requires s.filter != f
    ensures var r := AfterFilterChange(s, f);
      IsFirst(r) && CurrentItem(r).None? && IsLoading(r, true) && !IsLast(r)
      && PageQuery(r) == Some(PageRequest(s.seed, 0, PageSize, f))
  {
  }

  // ---------------------------------------------------------------------
  // The hook as an object whose effects update its fields in place

  class Deck<T, F(==)> {
    const seed: int
    var filter: F
    var currentPage: nat
    var items: seq<T>
    var globalIndex: int
    var totalCount: nat
    var hasMore: bool
    var loadedPages: set<nat>

    function State(): Pager<T, F>
      reads this
    {
      Pager(seed, filter, currentPage, items, globalIndex, totalCount, hasMore, loadedPages)
    }

    ghost predicate Valid()
      reads this
    {
      Inv(State())
    }

    /** Mount: the seed comes from the caller (the source reads or creates it
        in `sessionStorage`). */
    constructor (seed: int, filter: F)
      ensures Valid() && State() == Initial(seed, filter)
    {
      this.seed := seed;
      this.filter := filter;
      currentPage := 0;
      items := [];
      globalIndex := 0;
      totalCount := 0;
      hasMore := true;
      loadedPages := {};
    }

    method OnFilterChange(f: F)
      requires Valid()
      modifies this
      ensures Valid() && State() == AfterFilterChange(old(State()), f)
    {
      var changed := filter != f;
      filter := f;
      if changed {
        loadedPages := {};
        items := [];
        globalIndex := 0;
        currentPage := 0;
        totalCount := 0;
        hasMore := true;
      }
    }

    method MergeResponse(data: Option<Response<T>>)
      requires Valid()
      modifies this
      ensures Valid() && State() == AfterMerge(old(State()), data)
    {
      TransitionsKeepInv(State(), filter, data);
      if data.None? || data.value.items.None? {
        return;
      }
      if data.value.page in loadedPages {
        return;
      }
      loadedPages := loadedPages + {data.value.page};
      items := items + data.value.items.value;
      totalCount := data.value.totalCount;
      hasMore := data.value.hasMore;
    }

    method AutoAdvance()
      requires Valid()
      modifies this
      ensures Valid() && State() == AfterAutoAdvance(old(State()))
    {
      if !hasMore {
        return;
      }
      if |items| == 0 {
        return;
      }
      if globalIndex >= |items| - 1 {
        var nextPage := currentPage + 1;
        if nextPage !in loadedPages {
          currentPage := nextPage;
        }
      }
    }

    method Prefetch() returns (req: Option<PageRequest<F>>)
      ensures req == PrefetchRequest(State())
    {
      req := None;
      if !hasMore {
        return;
      }
      var remaining := |items| - globalIndex - 1;
      if remaining <= 3 {
        var nextPage := currentPage + 1;
        if nextPage !in loadedPages {
          req := Some(PageRequest(seed, nextPage, PageSize, filter));
        }
      }
    }

    method GoNext()
      requires Valid()
      modifies this
      ensures Valid() && State() == AfterNext(old(State()))
    {
      Nav.StepsKeepRange(globalIndex, |items|);
      globalIndex := if globalIndex + 1 <= |items| - 1 then globalIndex + 1 else |items| - 1;
    }

    method GoPrev()
      requires Valid()
      modifies this
      ensures Valid() && State() == AfterPrev(old(State()))
    {
      Nav.StepsKeepRange(globalIndex, |items|);
      globalIndex := if globalIndex - 1 >= 0 then globalIndex - 1 else 0;
    }
  }
}
