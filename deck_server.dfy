/** The paginated deck talking to the paginated router: what the deck holds
    after the server's pages arrive one after another in page order. */
module DeckServer {
  import opened Common
  import opened PagedDeck
  import Pagination

  /** How the deck reads a router answer: the payload's rows (always an
      array), the count, the page and `hasMore`. */
  function AsResponse<T>(r: Pagination.PageResult<T>): Option<Response<T>>
  {
    Some(Response(Some(r.rows), r.totalCount, r.page, r.hasMore))
  }

  /** The router's answer to the deck's request for page `p` of size ten,
      as the deck receives it: the `p`-th slice of the matching rows, the
      number of matching rows, and whether a further page exists. */
  function ServerResponse<T, F>(ordered: seq<T>, matches: (F, T) -> bool, seed: int, f: F, p: nat): (d: Option<Response<T>>)
    ensures d.Some? && d.value.items.Some? && d.value.page == p
    ensures d.value.items.value == Pagination.PageSlice(Pagination.Matching(ordered, matches, f), p, PageSize)
    ensures d.value.totalCount == |Pagination.Matching(ordered, matches, f)|
    ensures d.value.hasMore <==> (p + 1) * PageSize < |Pagination.Matching(ordered, matches, f)|
  {
    var r := Pagination.GetPaginated(ordered, matches, Pagination.PageInput(seed, p, PageSize, f));
    assert r.rows == Pagination.PageSlice(Pagination.Matching(ordered, matches, f), p, PageSize);
    AsResponse(r)
  }

  /** The answers for pages 0, 1, .., k-1, in that order. */
  function Responses<T, F>(ordered: seq<T>, matches: (F, T) -> bool, seed: int, f: F, k: nat): (ds: seq<Option<Response<T>>>)
    ensures |ds| == k
    ensures forall i :: 0 <= i < k ==> ds[i] == ServerResponse(ordered, matches, seed, f, i)
  {
    if k == 0 then [] else Responses(ordered, matches, seed, f, k - 1) + [ServerResponse(ordered, matches, seed, f, k - 1)]
  }

  /** The page numbers below `k`. */
  function PagesBelow(k: nat): (ps: set<nat>)
    ensures forall p: nat :: p in ps <==> p < k
  {
    if k == 0 then {} else PagesBelow(k - 1) + {k - 1}
  }

  /** Merging one more response after a run of merges. */
  lemma {:induction false} MergeAllSnoc<T, F>(s: Pager<T, F>, ds: seq<Option<Response<T>>>, d: Option<Response<T>>)
    ensures MergeAll(s, ds + [d]) == AfterMerge(MergeAll(s, ds), d)
    decreases |ds|
  {
    if ds == [] {
      assert ([] + [d])[1..] == [];
    } else {
      assert (ds + [d])[0] == ds[0];
      assert (ds + [d])[1..] == ds[1..] + [d];
      MergeAllSnoc(AfterMerge(s, ds[0]), ds[1..], d);
    }
  }

  /** After the router's pages 0..k-1 arrive in order on a fresh deck, the
      deck holds the first `min(10k, n)` matching rows in server order, each
      once, knows those k pages, reports the router's count, and has more
      exactly when the last page received says so. */
  lemma {:induction false} InOrderArrival<T, F>(ordered: seq<T>, matches: (F, T) -> bool, seed: int, f: F, k: nat)
    ensures var rows := Pagination.Matching(ordered, matches, f);
      var s := MergeAll(Initial(seed, f), Responses(ordered, matches, seed, f, k));
      && s.items == Pagination.Pages(rows, PageSize, k)
      && s.items == rows[..Min(k * PageSize, |rows|)]
      && s.loadedPages == PagesBelow(k)
      && s.totalCount == (if k == 0 then 0 else |rows|)
      && s.hasMore == (k == 0 || Pagination.HasMore(k - 1, PageSize, |rows|))
      && s.globalIndex == 0 && s.currentPage == 0
  {
    var rows := Pagination.Matching(ordered, matches, f);
    Pagination.PagesCover(rows, PageSize, k);
    if k > 0 {
      InOrderArrival(ordered, matches, seed, f, k - 1);
      var s0: Pager<T, F> := Initial(seed, f);
      var d := ServerResponse(ordered, matches, seed, f, k - 1);
      assert Responses(ordered, matches, seed, f, k) == Responses(ordered, matches, seed, f, k - 1) + [d];
      MergeAllSnoc(s0, Responses(ordered, matches, seed, f, k - 1), d);
      var prev := MergeAll(s0, Responses(ordered, matches, seed, f, k - 1));
      assert k - 1 !in prev.loadedPages;
      assert Accepts(prev, d);
    }
  }

  /** Once the last page received reports no more, every row matching the
      filter is loaded, once, in server order. */
  lemma AllRowsOnceExhausted<T, F>(ordered: seq<T>, matches: (F, T) -> bool, seed: int, f: F, k: nat)
    requires k >= 1 && !ServerResponse(ordered, matches, seed, f, k - 1).value.hasMore
    ensures MergeAll(Initial(seed, f), Responses(ordered, matches, seed, f, k)).items
         == Pagination.Matching(ordered, matches, f)
  {
    InOrderArrival(ordered, matches, seed, f, k);
    assert (k - 1 + 1) * PageSize == k * PageSize;
  }
}
