/** The interviews router: `getPaginated` with its position and technology
    filter, and `getFilters`, which counts positions and technologies over
    all rows. */
module InterviewsRouter {
  import opened Common
  import opened Records
  import opened Tally
  import opened Sorting
  import opened Facets
  import opened Pagination

  /** At most this many technologies are offered as facets. */
  const MaxTechnologies: nat := 20

  /** The `WHERE` clause: a truthy position must equal the row's position,
      and a truthy technology must be one of the row's technologies. */
  predicate Matches(f: InterviewFilter, row: Interview)
  {
    && (Truthy(f.position) ==> row.position == f.position.value)
    && (Truthy(f.technology) ==> f.technology.value in row.technologies)
  }

  /** `getPaginated`: validation, then the page of the matching rows. */
  function Paginated(ordered: seq<Interview>, raw: RawInput<InterviewFilter>): (r: Result<PageResult<Interview>>)
    ensures r.Ok? <==> ParseInput(raw).Ok?
    ensures r.Ok? ==> r.value == GetPaginated(ordered, Matches, ParseInput(raw).value)
  {
    match ParseInput(raw)
    case Rejected => Rejected
    case Ok(inp) => Ok(GetPaginated(ordered, Matches, inp))
  }

  /** Every row on a page passes both filter conditions. */
  lemma PageRowsMatch(ordered: seq<Interview>, inp: PageInput<InterviewFilter>)
    ensures var r := GetPaginated(ordered, Matches, inp);
      forall i :: 0 <= i < |r.rows| ==>
        && r.rows[i] in ordered
        && (Truthy(inp.filter.position) ==> r.rows[i].position == inp.filter.position.value)
        && (Truthy(inp.filter.technology) ==> inp.filter.technology.value in r.rows[i].technologies)
  {
    GetPaginatedRows(ordered, Matches, inp);
  }

  /** With neither filter set (absent, null or empty) every row matches, so
      the count is the table size and the pages run through the whole
      ordered table. */
  lemma NoFilterMatchesAll(ordered: seq<Interview>, f: InterviewFilter)
    requires !Truthy(f.position) && !Truthy(f.technology)
    ensures Matching(ordered, Matches, f) == ordered
  {
    MatchingAll(ordered, Matches, f);
  }

  /** The position column, one visit per row with a truthy position. */
  function PositionVisits(rows: seq<Interview>): (es: seq<Weighted<string>>)
    ensures forall i :: 0 <= i < |es| ==> es[i].weight == 1 && es[i].key != ""
  {
    if rows == [] then []
    else
      var row := rows[|rows| - 1];
      PositionVisits(rows[..|rows| - 1]) + (if row.position != "" then [Weighted(row.position, 1)] else [])
  }

  /** Every technology of every row, duplicates included. */
  function TechVisits(rows: seq<Interview>): (es: seq<Weighted<string>>)
    ensures forall i :: 0 <= i < |es| ==> es[i].weight == 1
  {
    if rows == [] then [] else TechVisits(rows[..|rows| - 1]) + Ones(rows[|rows| - 1].technologies)
  }

  /** The position of every row. */
  function PositionColumn(rows: seq<Interview>): (ps: seq<string>)
    ensures |ps| == |rows| && forall i :: 0 <= i < |rows| ==> ps[i] == rows[i].position
  {
    if rows == [] then [] else PositionColumn(rows[..|rows| - 1]) + [rows[|rows| - 1].position]
  }

  /** How often technology `t` occurs across the rows' arrays. */
  function TechOccurrences(rows: seq<Interview>, t: string): nat
  {
    if rows == [] then 0
    else TechOccurrences(rows[..|rows| - 1], t) + multiset(rows[|rows| - 1].technologies)[t]
  }

  /** The technology visits of one more row. */
  lemma TechVisitsSnoc(rows: seq<Interview>, i: nat)
    requires i < |rows|
    ensures TechVisits(rows[..i + 1]) == TechVisits(rows[..i]) + Ones(rows[i].technologies)
  {
    assert rows[..i + 1][..i] == rows[..i];
  }

  /** The position branch of the loop body:
      `if (row.position) positionCounts.set(row.position, (positionCounts.get(row.position) || 0) + 1)`. */
  function VisitPosition(c: Counter<string>, row: Interview): Counter<string>
  {
    if row.position != "" then c.Set(row.position, c.Get(row.position) + 1) else c
  }

  /** The position branch keeps the position counter in step with the visits. */
  lemma PositionStep(rows: seq<Interview>, i: nat, c: Counter<string>)
    requires i < |rows| && c == Tally.Tally(PositionVisits(rows[..i]))
    ensures VisitPosition(c, rows[i]) == Tally.Tally(PositionVisits(rows[..i + 1]))
  {
    assert rows[..i + 1][..i] == rows[..i];
    var before := PositionVisits(rows[..i]);
    if rows[i].position != "" {
      assert PositionVisits(rows[..i + 1]) == before + [Weighted(rows[i].position, 1)];
      TallySnoc(before, Weighted(rows[i].position, 1));
    } else {
      assert PositionVisits(rows[..i + 1]) == before;
    }
  }

  /** The inner loop of `getFilters`: one counter update per technology of
      a row, duplicates included. */
  method CountTechnologies(counts: Counter<string>, techs: seq<string>) returns (r: Counter<string>)
    ensures r == CountEach(counts, techs)
  {
    r := counts;
    var j := 0;
    while j < |techs|
      invariant 0 <= j <= |techs|
      invariant r == CountEach(counts, techs[..j])
    {
      var tech := techs[j];
      assert techs[..j + 1][..j] == techs[..j];
      r := r.Set(tech, r.Get(tech) + 1);
      j := j + 1;
    }
    assert techs[..j] == techs;
  }

  /** The counting loop of `getFilters`: one position update per row with
      a truthy position, one technology update per array element. */
  method CountRows(rows: seq<Interview>) returns (positionCounts: Counter<string>, techCounts: Counter<string>)
    ensures positionCounts == Tally.Tally(PositionVisits(rows))
    ensures techCounts == Tally.Tally(TechVisits(rows))
  {
    positionCounts := Counter(map[], []);
    techCounts := Counter(map[], []);
    var i := 0;
    while i < |rows|
      invariant 0 <= i <= |rows|
      invariant positionCounts == Tally.Tally(PositionVisits(rows[..i]))
      invariant techCounts == Tally.Tally(TechVisits(rows[..i]))
    {
      var row := rows[i];
      PositionStep(rows, i, positionCounts);
      positionCounts := VisitPosition(positionCounts, row);
      TechVisitsSnoc(rows, i);
      TallyOnes(TechVisits(rows[..i]), row.technologies);
      techCounts := CountTechnologies(techCounts, row.technologies);
      i := i + 1;
    }
    assert rows[..i] == rows;
  }

  /** `getFilters`: the counted positions sorted by name, the counted
      technologies by descending count and cut to twenty. */
  method GetFilters(rows: seq<Interview>) returns (positions: seq<Weighted<string>>, technologies: seq<Weighted<string>>)
    ensures positions == FacetList(PositionVisits(rows), ByKey)
    ensures technologies == Truncate(FacetList(TechVisits(rows), ByWeightDesc), MaxTechnologies)
  {
    var positionCounts, techCounts := CountRows(rows);
    positions := Sort(ByKey, positionCounts.Entries());
    technologies := Truncate(Sort(ByWeightDesc, techCounts.Entries()), MaxTechnologies);
  }

  /** The position visits count each row with that position once. */
  lemma {:induction false} PositionVisitsCount(rows: seq<Interview>, p: string)
    requires p != ""
    ensures Total(PositionVisits(rows), p) == multiset(PositionColumn(rows))[p]
  {
    if rows != [] {
      var init := rows[..|rows| - 1];
      var row := rows[|rows| - 1];
      PositionVisitsCount(init, p);
      var tail := if row.position != "" then [Weighted(row.position, 1)] else [];
      TotalAppend(PositionVisits(init), tail, p);
      assert PositionColumn(rows) == PositionColumn(init) + [row.position];
      assert multiset(PositionColumn(rows)) == multiset(PositionColumn(init)) + multiset{row.position};
    }
  }

  /** A non-empty position is visited exactly when some row has it. */
  lemma {:induction false} PositionVisitsKeys(rows: seq<Interview>, p: string)
    requires p != ""
    ensures p in KeysOf(PositionVisits(rows)) <==> p in PositionColumn(rows)
  {
    if rows != [] {
      var init := rows[..|rows| - 1];
      var row := rows[|rows| - 1];
      PositionVisitsKeys(init, p);
      var tail := if row.position != "" then [Weighted(row.position, 1)] else [];
      KeysOfAppend(PositionVisits(init), tail);
      assert p in PositionColumn(rows) <==> p in PositionColumn(init) || p == row.position;
    }
  }

  /** The technology visits count every array occurrence. */
  lemma {:induction false} TechVisitsCount(rows: seq<Interview>, t: string)
    ensures Total(TechVisits(rows), t) == TechOccurrences(rows, t)
  {
    if rows != [] {
      var init := rows[..|rows| - 1];
      var row := rows[|rows| - 1];
      TechVisitsCount(init, t);
      TotalAppend(TechVisits(init), Ones(row.technologies), t);
      TotalOnes(row.technologies, t);
    }
  }

  /** A technology is visited exactly when some row lists it. */
  lemma {:induction false} TechVisitsKeys(rows: seq<Interview>, t: string)
    ensures t in KeysOf(TechVisits(rows)) <==> exists i :: 0 <= i < |rows| && t in rows[i].technologies
  {
    if rows != [] {
      var init := rows[..|rows| - 1];
      var row := rows[|rows| - 1];
      TechVisitsKeys(init, t);
      assert KeysOf(TechVisits(rows)) == KeysOf(TechVisits(init)) + KeysOf(Ones(row.technologies));
      assert KeysOf(Ones(row.technologies)) == row.technologies;
      if t in row.technologies {
        assert t in rows[|rows| - 1].technologies;
      }
      if exists i :: 0 <= i < |rows| && t in rows[i].technologies {
        var i :| 0 <= i < |rows| && t in rows[i].technologies;
        if i < |init| {
          assert init[i] == rows[i];
        }
      }
    }
  }

  /** The position facets: one entry per distinct non-empty position,
      counting the rows with that position, in ascending name order. */
  lemma PositionFacets(rows: seq<Interview>)
    ensures var r := FacetList(PositionVisits(rows), ByKey);
      && Distinct(KeysOf(r))
      && (forall p :: p in KeysOf(r) <==> p != "" && p in PositionColumn(rows))
      && (forall i :: 0 <= i < |r| ==> r[i].weight == multiset(PositionColumn(rows))[r[i].key])
      && (forall i, j :: 0 <= i < j < |r| ==> Strings.Less(r[i].key, r[j].key))
  {
    var es := PositionVisits(rows);
    var r := FacetList(es, ByKey);
    FacetListFacts(es, ByKey);
    FacetListByKeyAscending(es);
    forall p ensures p in KeysOf(r) <==> p != "" && p in PositionColumn(rows) {
      if p != "" {
        PositionVisitsKeys(rows, p);
      } else {
        assert forall i :: 0 <= i < |es| ==> KeysOf(es)[i] != "";
      }
    }
    forall i | 0 <= i < |r| ensures r[i].weight == multiset(PositionColumn(rows))[r[i].key] {
      assert r[i].key in KeysOf(r);
      PositionVisitsCount(rows, r[i].key);
    }
  }

  /** The technology facets: at most twenty, distinct, each counting every
      occurrence of a technology that some row lists, in descending count
      order; a technology left off counts no more than any shown one, and
      none is left off when there are at most twenty. */
  lemma TechnologyFacets(rows: seq<Interview>)
    ensures var full := FacetList(TechVisits(rows), ByWeightDesc);
      var r := Truncate(full, MaxTechnologies);
      && |r| <= MaxTechnologies
      && Distinct(KeysOf(r))
      && (forall i :: 0 <= i < |r| ==> r[i].weight == TechOccurrences(rows, r[i].key))
      && (forall i :: 0 <= i < |r| ==> exists k :: 0 <= k < |rows| && r[i].key in rows[k].technologies)
      && (forall i, j :: 0 <= i < j < |r| ==> r[i].weight >= r[j].weight)
      && (forall i, j :: 0 <= i < |r| <= j < |full| ==> full[j].weight <= r[i].weight)
      && (|full| <= MaxTechnologies ==> r == full)
  {
    var es := TechVisits(rows);
    var full := FacetList(es, ByWeightDesc);
    var r := Truncate(full, MaxTechnologies);
    FacetListFacts(es, ByWeightDesc);
    TruncateKeepsHeaviest(full, MaxTechnologies);
    forall i | 0 <= i < |r|
      ensures r[i].weight == TechOccurrences(rows, r[i].key)
      ensures exists k :: 0 <= k < |rows| && r[i].key in rows[k].technologies
    {
      assert r[i] == full[i];
      assert KeysOf(full)[i] == full[i].key;
      TechVisitsCount(rows, r[i].key);
      TechVisitsKeys(rows, r[i].key);
    }
  }

  /** Duplicates inside one row's array count twice. */
  lemma DuplicateCountsTwice(t: string)
    ensures TechOccurrences([Interview(0, "", "", [t, t], [])], t) == 2
  {
    var rows := [Interview(0, "", "", [t, t], [])];
    assert rows[..0] == [];
  }
}
