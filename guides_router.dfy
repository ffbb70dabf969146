/** The guides router: `getPaginated` with its tech-stack filter, and
    `getFilters`, which counts the tech stacks over all rows. */
module GuidesRouter {
  import opened Common
  import opened Records
  import opened Tally
  import opened Sorting
  import opened Facets
  import opened Pagination

  /** The `WHERE` clause: a truthy tech stack must equal the row's; a row
      whose tech stack is NULL never equals one. */
  predicate Matches(f: GuideFilter, row: Guide)
  {
    Truthy(f.techStack) ==> row.techStack == Some(f.techStack.value)
  }

  /** `getPaginated`: validation, then the page of the matching rows. */
  function Paginated(ordered: seq<Guide>, raw: RawInput<GuideFilter>): (r: Result<PageResult<Guide>>)
    ensures r.Ok? <==> raw.page >= 0 && (raw.pageSize.None? || 1 <= raw.pageSize.value <= MaxPageSize)
    ensures r.Ok? ==> r.value == GetPaginated(ordered, Matches, ParseInput(raw).value)
  {
    match ParseInput(raw)
    case Rejected => Rejected
    case Ok(inp) => Ok(GetPaginated(ordered, Matches, inp))
  }

  /** Every row on a page has the requested tech stack, when one is set. */
  lemma PageRowsMatch(ordered: seq<Guide>, inp: PageInput<GuideFilter>)
    ensures var rows := GetPaginated(ordered, Matches, inp).rows;
      forall i :: 0 <= i < |rows| ==>
        rows[i] in ordered && (Truthy(inp.filter.techStack) ==> rows[i].techStack == inp.filter.techStack)
  {
    GetPaginatedRows(ordered, Matches, inp);
  }

  /** An absent, null or empty tech stack filters nothing out. */
  lemma NoFilterMatchesAll(ordered: seq<Guide>, f: GuideFilter)
    requires !Truthy(f.techStack)
    ensures Matching(ordered, Matches, f) == ordered
  {
    MatchingAll(ordered, Matches, f);
  }

  /** One visit per row with a truthy tech stack. */
  function StackVisits(rows: seq<Guide>): (es: seq<Weighted<string>>)
    ensures forall i :: 0 <= i < |es| ==> es[i].weight == 1 && es[i].key != ""
  {
    if rows == [] then []
    else
      var row := rows[|rows| - 1];
      StackVisits(rows[..|rows| - 1]) + (if Truthy(row.techStack) then [Weighted(row.techStack.value, 1)] else [])
  }

  /** The tech stack of every row. */
  function StackColumn(rows: seq<Guide>): (ss: seq<Option<string>>)
    ensures |ss| == |rows| && forall i :: 0 <= i < |rows| ==> ss[i] == rows[i].techStack
  {
    if rows == [] then [] else StackColumn(rows[..|rows| - 1]) + [rows[|rows| - 1].techStack]
  }

  /** The number of rows with a truthy tech stack. */
  function Tagged(rows: seq<Guide>): nat
  {
    if rows == [] then 0
    else Tagged(rows[..|rows| - 1]) + (if Truthy(rows[|rows| - 1].techStack) then 1 else 0)
  }

  /** The loop body: `if (row.techStack) map.set(row.techStack, (map.get(row.techStack) || 0) + 1)`. */
  function Visit(c: Counter<string>, row: Guide): Counter<string>
  {
    if Truthy(row.techStack) then c.Set(row.techStack.value, c.Get(row.techStack.value) + 1) else c
  }

  /** The loop body keeps the counter in step with the visits. */
  lemma StackStep(rows: seq<Guide>, i: nat, c: Counter<string>)
    requires i < |rows| && c == Tally.Tally(StackVisits(rows[..i]))
    ensures Visit(c, rows[i]) == Tally.Tally(StackVisits(rows[..i + 1]))
  {
    assert rows[..i + 1][..i] == rows[..i];
    if Truthy(rows[i].techStack) {
      assert StackVisits(rows[..i + 1]) == StackVisits(rows[..i]) + [Weighted(rows[i].techStack.value, 1)];
      TallySnoc(StackVisits(rows[..i]), Weighted(rows[i].techStack.value, 1));
    } else {
      assert StackVisits(rows[..i + 1]) == StackVisits(rows[..i]);
    }
  }

  /** The counting loop of `getFilters`: one update per row with a truthy
      tech stack. */
  method CountStacks(rows: seq<Guide>) returns (techStackCounts: Counter<string>)
    ensures techStackCounts == Tally.Tally(StackVisits(rows))
  {
    techStackCounts := Counter(map[], []);
    var i := 0;
    while i < |rows|
      invariant 0 <= i <= |rows|
      invariant techStackCounts == Tally.Tally(StackVisits(rows[..i]))
    {
      StackStep(rows, i, techStackCounts);
      techStackCounts := Visit(techStackCounts, rows[i]);
      i := i + 1;
    }
    assert rows[..i] == rows;
  }

  /** `getFilters`: count the truthy tech stacks, then sort by name. */
  method GetFilters(rows: seq<Guide>) returns (techStacks: seq<Weighted<string>>)
    ensures techStacks == FacetList(StackVisits(rows), ByKey)
  {
    var techStackCounts := CountStacks(rows);
    techStacks := Sort(ByKey, techStackCounts.Entries());
  }

  /** Each visited stack is counted once per row carrying it. */
  lemma {:induction false} StackVisitsCount(rows: seq<Guide>, k: string)
    requires k != ""
    ensures Total(StackVisits(rows), k) == multiset(StackColumn(rows))[Some(k)]
  {
    if rows != [] {
      var init := rows[..|rows| - 1];
      var row := rows[|rows| - 1];
      StackVisitsCount(init, k);
      var tail := if Truthy(row.techStack) then [Weighted(row.techStack.value, 1)] else [];
      TotalAppend(StackVisits(init), tail, k);
      assert StackColumn(rows) == StackColumn(init) + [row.techStack];
      assert multiset(StackColumn(rows)) == multiset(StackColumn(init)) + multiset{row.techStack};
    }
  }

  /** A non-empty stack is visited exactly when some row carries it. */
  lemma {:induction false} StackVisitsKeys(rows: seq<Guide>, k: string)
    requires k != ""
    ensures k in KeysOf(StackVisits(rows)) <==> Some(k) in StackColumn(rows)
  {
    if rows != [] {
      var init := rows[..|rows| - 1];
      var row := rows[|rows| - 1];
      StackVisitsKeys(init, k);
      var tail := if Truthy(row.techStack) then [Weighted(row.techStack.value, 1)] else [];
      KeysOfAppend(StackVisits(init), tail);
      assert Some(k) in StackColumn(rows) <==> Some(k) in StackColumn(init) || Some(k) == row.techStack;
    }
  }

  /** There is one visit per row with a truthy stack. */
  lemma {:induction false} StackVisitsLength(rows: seq<Guide>)
    ensures |StackVisits(rows)| == Tagged(rows)
  {
    if rows != [] {
      StackVisitsLength(rows[..|rows| - 1]);
    }
  }

  /** The tech-stack facet names: distinct, in ascending order, and exactly
      the non-empty stacks some row carries. */
  lemma StackFacetNames(rows: seq<Guide>)
    ensures Distinct(KeysOf(FacetList(StackVisits(rows), ByKey)))
    ensures forall k :: k in KeysOf(FacetList(StackVisits(rows), ByKey)) <==> k != "" && Some(k) in StackColumn(rows)
    ensures var r := FacetList(StackVisits(rows), ByKey);
      forall i, j :: 0 <= i < j < |r| ==> Strings.Less(r[i].key, r[j].key)
  {
    var es := StackVisits(rows);
    FacetListFacts(es, ByKey);
    FacetListByKeyAscending(es);
    forall k ensures k in KeysOf(es) <==> k != "" && Some(k) in StackColumn(rows) {
      if k != "" {
        StackVisitsKeys(rows, k);
      } else {
        assert forall i :: 0 <= i < |es| ==> KeysOf(es)[i] != "";
      }
    }
  }

  /** The tech-stack facet counts: each counts the rows carrying that stack,
      is at least one, and together they count every row with a tech stack. */
  lemma StackFacetCounts(rows: seq<Guide>)
    ensures var r := FacetList(StackVisits(rows), ByKey);
      forall i :: 0 <= i < |r| ==> 1 <= r[i].weight == multiset(StackColumn(rows))[Some(r[i].key)]
    ensures SumWeights(FacetList(StackVisits(rows), ByKey)) == Tagged(rows)
  {
    var es := StackVisits(rows);
    var r := FacetList(es, ByKey);
    FacetListFacts(es, ByKey);
    SumWeightsUnit(es);
    StackVisitsLength(rows);
    forall i | 0 <= i < |r| ensures 1 <= r[i].weight == multiset(StackColumn(rows))[Some(r[i].key)] {
      assert KeysOf(r)[i] == r[i].key;
      assert r[i].key in KeysOf(r);
      assert r[i].key in KeysOf(es);
      var j :| 0 <= j < |es| && KeysOf(es)[j] == r[i].key;
      assert es[j].key != "";
      StackVisitsCount(rows, r[i].key);
      TotalPositive(es, r[i].key);
    }
  }
}
