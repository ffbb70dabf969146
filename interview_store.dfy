/** `useInterviewStore`: the paginated deck over interviews, keyed on the
    position and technology filter. */
module InterviewStore {
  import opened Common
  import opened Records
  import opened PagedDeck
  import Pagination
  import DeckServer
  import InterviewsRouter

  /** The hook instance: a deck of interviews under an interview filter. */
  type InterviewDeck = Deck<Interview, InterviewFilter>

  /** The filter effect compares the two fields separately: a change in
      either one resets the whole deck, and equal fields change nothing.
      An empty string and an absent value are different here, although
      the server treats both as "no filter". */
  lemma FilterResetIffFieldChanged(s: Pager<Interview, InterviewFilter>, f: InterviewFilter)
    ensures s.filter.position != f.position || s.filter.technology != f.technology
        ==> AfterFilterChange(s, f) == Initial(s.seed, f)
    ensures s.filter.position == f.position && s.filter.technology == f.technology
        ==> AfterFilterChange(s, f) == s
    ensures s.filter == InterviewFilter(None, None) && f == InterviewFilter(Some(""), None)
        ==> AfterFilterChange(s, f) == Initial(s.seed, f)
  {
  }

  /** The router input the hook sends for a request. */
  function ServerInput(req: PageRequest<InterviewFilter>): Pagination.RawInput<InterviewFilter>
  {
    Pagination.RawInput(req.seed, req.page, Some(req.pageSize), req.filter)
  }

  /** Every query and prefetch the deck issues passes the router's input
      schema, for the deck's own page and filter. */
  lemma RequestsAccepted(s: Pager<Interview, InterviewFilter>)
    ensures PageQuery(s).Some? ==>
      var inp := Pagination.ParseInput(ServerInput(PageQuery(s).value));
      inp.Ok? && inp.value.page == s.currentPage && inp.value.pageSize == PageSize && inp.value.filter == s.filter
    ensures PrefetchRequest(s).Some? ==>
      var inp := Pagination.ParseInput(ServerInput(PrefetchRequest(s).value));
      inp.Ok? && inp.value.page == s.currentPage + 1 && inp.value.pageSize == PageSize && inp.value.filter == s.filter
  {
  }

  /** The router answers the deck's query and prefetch with exactly the
      pages `DeckServer` feeds the deck: the cursor's page and the one after
      it, over the rows matching the deck's filter. */
  lemma RequestsServed(ordered: seq<Interview>, s: Pager<Interview, InterviewFilter>)
    ensures PageQuery(s).Some? ==>
      var res := InterviewsRouter.Paginated(ordered, ServerInput(PageQuery(s).value));
      res.Ok? && DeckServer.AsResponse(res.value)
        == DeckServer.ServerResponse(ordered, InterviewsRouter.Matches, s.seed, s.filter, s.currentPage)
    ensures PrefetchRequest(s).Some? ==>
      var res := InterviewsRouter.Paginated(ordered, ServerInput(PrefetchRequest(s).value));
      res.Ok? && DeckServer.AsResponse(res.value)
        == DeckServer.ServerResponse(ordered, InterviewsRouter.Matches, s.seed, s.filter, s.currentPage + 1)
  {
    RequestsAccepted(s);
  }
}
