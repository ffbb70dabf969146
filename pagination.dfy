/** The `getPaginated` procedure shared by the interviews and guides routers:
    input validation, the filtered row count, the `OFFSET`/`LIMIT` page and
    the `hasMore` flag. The database is an abstract sequence of rows already
    in the seeded order; the filter is a predicate on a row. */
module Pagination {
  import opened Common

  /** `pageSize: z.number().int().min(1).max(50).default(10)`. */
  const DefaultPageSize: nat := 10
  const MaxPageSize: nat := 50

  /** The query input before validation; an absent `pageSize` is None. */
  datatype RawInput<F> = RawInput(seed: int, page: int, pageSize: Option<int>, filter: F)

  /** A validated query input. */
  datatype PageInput<F> = PageInput(seed: int, page: nat, pageSize: nat, filter: F)

  datatype Result<T> = Ok(value: T) | Rejected

  /** The procedure's answer. */
  datatype PageResult<T> = PageResult(rows: seq<T>, totalCount: nat, page: nat, pageSize: nat, hasMore: bool)

  /** The input schema: a negative page or a page size outside 1..50 is
      rejected; a missing page size becomes 10. */
  function ParseInput<F>(raw: RawInput<F>): (r: Result<PageInput<F>>)
    ensures r.Ok? <==> raw.page >= 0 && (raw.pageSize.None? || 1 <= raw.pageSize.value <= MaxPageSize)
    ensures r.Ok? ==> 1 <= r.value.pageSize <= MaxPageSize
    ensures r.Ok? ==> r.value.page == raw.page && r.value.seed == raw.seed && r.value.filter == raw.filter
    ensures r.Ok? && raw.pageSize.None? ==> r.value.pageSize == DefaultPageSize
    ensures r.Ok? && raw.pageSize.Some? ==> r.value.pageSize == raw.pageSize.value
  {
    if raw.page < 0 then Rejected
    else match raw.pageSize
      case None => Ok(PageInput(raw.seed, raw.page, DefaultPageSize, raw.filter))
      case Some(ps) =>
        if 1 <= ps <= MaxPageSize then Ok(PageInput(raw.seed, raw.page, ps, raw.filter)) else Rejected
  }

  /** `OFFSET offset LIMIT limit` on an ordered sequence. */
  function Window<T>(rows: seq<T>, offset: nat, limit: nat): (r: seq<T>)
    ensures |r| <= limit
    ensures |r| == Max(0, Min(limit, |rows| - offset))
    ensures forall i :: 0 <= i < |r| ==> offset + i < |rows| && r[i] == rows[offset + i]
  {
    rows[Min(offset, |rows|)..Min(offset + limit, |rows|)]
  }

  /** `.limit(pageSize).offset(page * pageSize)`. */
  function PageSlice<T>(rows: seq<T>, page: nat, pageSize: nat): seq<T>
  {
    Window(rows, page * pageSize, pageSize)
  }

  /** `(page + 1) * pageSize < totalCount`. */
  predicate HasMore(page: nat, pageSize: nat, total: nat)
  {
    (page + 1) * pageSize < total
  }

  /** There is more exactly when the rows go past the end of this page. */
  lemma HasMoreOffset(page: nat, pageSize: nat, total: nat)
    ensures HasMore(page, pageSize, total) <==> page * pageSize + pageSize < total
  {
    assert (page + 1) * pageSize == page * pageSize + pageSize;
  }

  /** The `WHERE` clause: the rows, in order, that match the filter. */
  function Matching<T, F>(ordered: seq<T>, matches: (F, T) -> bool, filter: F): (r: seq<T>)
    ensures forall i :: 0 <= i < |r| ==> r[i] in ordered && matches(filter, r[i])
    ensures forall i :: 0 <= i < |ordered| && matches(filter, ordered[i]) ==> ordered[i] in r
  {
    Filter(ordered, (row: T) => matches(filter, row))
  }

  /** A filter every row passes keeps the table as it is. */
  lemma MatchingAll<T, F>(ordered: seq<T>, matches: (F, T) -> bool, filter: F)
    requires forall i :: 0 <= i < |ordered| ==> matches(filter, ordered[i])
    ensures Matching(ordered, matches, filter) == ordered
  {
    FilterAll(ordered, (row: T) => matches(filter, row));
  }

  /** The whole procedure on a valid input: the count and the page are both
      taken over the rows that match the filter. The page is the window of
      the matching rows that starts at `page * pageSize` and holds up to
      `pageSize` of them, and `hasMore` says whether the count goes past its
      end. */
  function GetPaginated<T, F>(ordered: seq<T>, matches: (F, T) -> bool, inp: PageInput<F>): (r: PageResult<T>)
    ensures r.totalCount == |Matching(ordered, matches, inp.filter)|
    ensures |r.rows| <= inp.pageSize
    ensures r.rows == Window(Matching(ordered, matches, inp.filter), inp.page * inp.pageSize, inp.pageSize)
    ensures r.hasMore <==> inp.page * inp.pageSize + inp.pageSize < r.totalCount
    ensures r.page == inp.page && r.pageSize == inp.pageSize
  {
    var filtered := Matching(ordered, matches, inp.filter);
    var offset := inp.page * inp.pageSize;
    HasMoreOffset(inp.page, inp.pageSize, |filtered|);
    PageResult(Window(filtered, offset, inp.pageSize), |filtered|, inp.page, inp.pageSize,
               HasMore(inp.page, inp.pageSize, |filtered|))
  }

  /** The page holds the matching rows from `page * pageSize` on, as many
      as fit in `pageSize` and as remain: an offset past the last matching
      row gives an empty page. */
  lemma GetPaginatedWindow<T, F>(ordered: seq<T>, matches: (F, T) -> bool, inp: PageInput<F>)
    ensures var r := GetPaginated(ordered, matches, inp);
      var m := Matching(ordered, matches, inp.filter);
      var off := inp.page * inp.pageSize;
      && |r.rows| == Max(0, Min(inp.pageSize, |m| - off))
      && (forall i :: 0 <= i < |r.rows| ==> off + i < |m| && r.rows[i] == m[off + i])
      && (off >= |m| ==> r.rows == [])
  {
  }

  /** Pages 0..k-1 laid end to end. */
  function Pages<T>(rows: seq<T>, pageSize: nat, k: nat): seq<T>
  {
    if k == 0 then [] else Pages(rows, pageSize, k - 1) + PageSlice(rows, k - 1, pageSize)
  }

  /** Every returned row is a row of the table that matches the filter. */
  lemma GetPaginatedRows<T, F>(ordered: seq<T>, matches: (F, T) -> bool, inp: PageInput<F>)
    ensures var rows := GetPaginated(ordered, matches, inp).rows;
      forall i :: 0 <= i < |rows| ==> rows[i] in ordered && matches(inp.filter, rows[i])
  {
    var filtered := Matching(ordered, matches, inp.filter);
    WindowWithin(filtered, inp.page * inp.pageSize, inp.pageSize);
    MatchingSound(ordered, matches, inp.filter);
  }

  /** A window holds only rows of the sequence it is cut from. */
  lemma WindowWithin<T>(rows: seq<T>, offset: nat, limit: nat)
    ensures forall x :: x in Window(rows, offset, limit) ==> x in rows
  {
    var w := Window(rows, offset, limit);
    forall x | x in w ensures x in rows {
      var i :| 0 <= i < |w| && w[i] == x;
      assert rows[offset + i] == x;
    }
  }

  /** Only rows of the table that match the filter pass the `WHERE` clause. */
  lemma MatchingSound<T, F>(ordered: seq<T>, matches: (F, T) -> bool, filter: F)
    ensures forall x :: x in Matching(ordered, matches, filter) ==> x in ordered && matches(filter, x)
  {
    var m := Matching(ordered, matches, filter);
    forall x | x in m ensures x in ordered && matches(filter, x) {
      var i :| 0 <= i < |m| && m[i] == x;
    }
  }

  /** The answer has more exactly when the next page of matching rows is
      non-empty. */
  lemma GetPaginatedHasMore<T, F>(ordered: seq<T>, matches: (F, T) -> bool, inp: PageInput<F>)
    requires inp.pageSize >= 1
    ensures GetPaginated(ordered, matches, inp).hasMore
        <==> |PageSlice(Matching(ordered, matches, inp.filter), inp.page + 1, inp.pageSize)| > 0
  {
    HasMoreIffNextPageNonEmpty(Matching(ordered, matches, inp.filter), inp.page, inp.pageSize);
  }

  /** `hasMore` is true exactly when the following page has rows. */
  lemma HasMoreIffNextPageNonEmpty<T>(rows: seq<T>, page: nat, pageSize: nat)
    requires pageSize >= 1
    ensures HasMore(page, pageSize, |rows|) <==> |PageSlice(rows, page + 1, pageSize)| > 0
  {
    assert (page + 1) * pageSize == page * pageSize + pageSize;
  }

  /** Two different pages of a sequence without repeats share no row. */
  lemma PagesDisjoint<T>(rows: seq<T>, p: nat, q: nat, pageSize: nat)
    requires Distinct(rows) && p != q
    ensures forall x :: x in PageSlice(rows, p, pageSize) ==> x !in PageSlice(rows, q, pageSize)
  {
    var sp := PageSlice(rows, p, pageSize);
    var sq := PageSlice(rows, q, pageSize);
    forall x | x in sp ensures x !in sq {
      var a :| 0 <= a < |sp| && sp[a] == x;
      if x in sq {
        var b :| 0 <= b < |sq| && sq[b] == x;
        OffsetsDiffer(p, q, a, b, pageSize);
        assert false;
      }
    }
  }

  /** Offsets inside two different pages are different. */
  lemma OffsetsDiffer(p: nat, q: nat, a: nat, b: nat, pageSize: nat)
    requires p != q && a < pageSize && b < pageSize
    ensures p * pageSize + a != q * pageSize + b
  {
    if p < q {
      MulMonotone(p + 1, q, pageSize);
      assert (p + 1) * pageSize == p * pageSize + pageSize;
    } else {
      MulMonotone(q + 1, p, pageSize);
      assert (q + 1) * pageSize == q * pageSize + pageSize;
    }
  }

  /** The rows before an offset followed by the window at that offset are
      the rows before the window's end. */
  lemma WindowExtends<T>(rows: seq<T>, offset: nat, limit: nat)
    ensures rows[..Min(offset, |rows|)] + Window(rows, offset, limit) == rows[..Min(offset + limit, |rows|)]
  {
    var lo := Min(offset, |rows|);
    var hi := Min(offset + limit, |rows|);
    assert rows[..lo] + rows[lo..hi] == rows[..hi];
  }

  lemma MulPred(k: nat, c: nat)
    requires k >= 1
    ensures (k - 1) * c >= 0 && k * c == (k - 1) * c + c
  {
  }

  lemma MulMonotone(a: nat, b: nat, c: nat)
    requires a <= b
    ensures a * c <= b * c
  {
    assert b * c == a * c + (b - a) * c;
  }

  /** Fetching pages 0, 1, .., k-1 in order yields the first
      `min(k * pageSize, |rows|)` rows, each exactly once. */
  lemma {:induction false} PagesCover<T>(rows: seq<T>, pageSize: nat, k: nat)
    ensures Pages(rows, pageSize, k) == rows[..Min(k * pageSize, |rows|)]
  {
    if k > 0 {
      PagesCover(rows, pageSize, k - 1);
      MulPred(k, pageSize);
      WindowExtends(rows, (k - 1) * pageSize, pageSize);
    }
  }

  /** An illustration of `HasMoreIffNextPageNonEmpty`: twenty-five matching
      rows in pages of ten, where pages 0 and 1 report more and page 2
      (five rows) does not. */
  lemma TwentyFiveRows<T>(rows: seq<T>)
    requires |rows| == 25
    ensures HasMore(0, 10, |rows|) && HasMore(1, 10, |rows|) && !HasMore(2, 10, |rows|)
    ensures |PageSlice(rows, 2, 10)| == 5
  {
  }
}
