/** `useGuideStore`: the paginated deck over guides, keyed on the tech-stack
    filter. */
module GuideStore {
  import opened Common
  import opened Records
  import opened PagedDeck
  import Pagination
  import DeckServer
  import GuidesRouter

  /** The hook instance: a deck of guides under a guide filter. */
  type GuideDeck = Deck<Guide, GuideFilter>

  /** A different tech stack resets the whole deck; the same one changes
      nothing. */
  lemma FilterResetIffStackChanged(s: Pager<Guide, GuideFilter>, f: GuideFilter)
    ensures s.filter.techStack != f.techStack ==> AfterFilterChange(s, f) == Initial(s.seed, f)
    ensures s.filter.techStack == f.techStack ==> AfterFilterChange(s, f) == s
  {
  }

  /** The router input the hook sends for a request. */
  function ServerInput(req: PageRequest<GuideFilter>): Pagination.RawInput<GuideFilter>
  {
    Pagination.RawInput(req.seed, req.page, Some(req.pageSize), req.filter)
  }

  /** Every query and prefetch the deck issues passes the router's input
      schema, for the deck's own page and filter. */
  lemma RequestsAccepted(s: Pager<Guide, GuideFilter>)
    ensures PageQuery(s).Some? ==>
      var inp := Pagination.ParseInput(ServerInput(PageQuery(s).value));
      inp.Ok? && inp.value.page == s.currentPage && inp.value.pageSize == PageSize && inp.value.filter == s.filter
    ensures PrefetchRequest(s).Some? ==>
      var inp := Pagination.ParseInput(ServerInput(PrefetchRequest(s).value));
      inp.Ok? && inp.value.page == s.currentPage + 1 && inp.value.pageSize == PageSize && inp.value.filter == s.filter
  {
  }

  /** The router answers the deck's query and prefetch with exactly the
      pages `DeckServer` feeds the deck: the cursor's page and the one after
      it, over the rows matching the deck's filter. */
  lemma RequestsServed(ordered: seq<Guide>, s: Pager<Guide, GuideFilter>)
    ensures PageQuery(s).Some? ==>
      var res := GuidesRouter.Paginated(ordered, ServerInput(PageQuery(s).value));
      res.Ok? && DeckServer.AsResponse(res.value)
        == DeckServer.ServerResponse(ordered, GuidesRouter.Matches, s.seed, s.filter, s.currentPage)
    ensures PrefetchRequest(s).Some? ==>
      var res := GuidesRouter.Paginated(ordered, ServerInput(PrefetchRequest(s).value));
      res.Ok? && DeckServer.AsResponse(res.value)
        == DeckServer.ServerResponse(ordered, GuidesRouter.Matches, s.seed, s.filter, s.currentPage + 1)
  {
    RequestsAccepted(s);
  }
}
