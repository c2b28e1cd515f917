/**
 * Short runs of events through the view state, proved from the handlers'
 * contracts alone: what a user sees after a search, a failed search, a page
 * click, and a repeated click on the selected repository.
 */
module Scenarios {
  import opened Wrappers
  import opened Text
  import opened LinkHeader
  import opened LinkFormat
  import opened AppState

  lemma OctoEnds()
    ensures !IsJsWhiteSpace("octo"[0]) && !IsJsWhiteSpace("octo"[3])
  {
  }

  /** The query sent for the input "octo". */
  lemma OctoQuery()
    ensures SearchQuery("octo") == "octo" + InName
  {
    OctoEnds();
    TrimUnchanged("octo");
  }

  /**
   * Search "octo": page 1 comes back with `first` and a header pointing
   * `next` → 2 and `last` → 5; clicking "next" asks for page 2 and its
   * response replaces the items and the descriptor.
   */
  method SearchAndNext(url: string, first: seq<Repository>, second: seq<Repository>, link2: Option<string>)
    returns (req1: SearchRequest, shown1: seq<Repository>, page1: Option<PageData>,
             req2: SearchRequest, shown2: seq<Repository>, page2: Option<PageData>)
    requires PlainUrl(url)
    ensures req1 == SearchRequest("octo" + InName, "stars", 10, 1)
    ensures shown1 == first && page1 == Some(PageData(1, None, Some(2), None, Some(5)))
    ensures req2 == SearchRequest("octo" + InName, "stars", 10, 2)
    ensures shown2 == second && page2 == Some(Paginate(link2, 2))
  {
    var app := new App();
    app.OnChange("octo");
    OctoQuery();
    var submitted := app.OnSubmit();
    req1 := submitted.value;
    assert app.loading && app.repositories == [];
    var link1 := Some(FormatLink([LinkEntry(url, 2, Next), LinkEntry(url, 5, Last)]));
    app.SearchSucceeded(req1, Some(first), link1);
    NextAndLastHeader(url, 1, 2, 5);
    shown1, page1 := app.repositories, app.paginationRepo;
    req2 := app.SearchRepositories(page1.value.next.value);
    assert app.repositories == [] && app.paginationRepo == None;
    app.SearchSucceeded(req2, Some(second), link2);
    shown2, page2 := app.repositories, app.paginationRepo;
  }

  /** A search that fails leaves no items, no descriptor and no spinner. */
  method FailedSearch(search: string) returns (shown: seq<Repository>, page: Option<PageData>, loading: bool)
    requires !IsBlank(search)
    ensures shown == [] && page == None && !loading
  {
    var app := new App();
    app.OnChange(search);
    var submitted := app.OnSubmit();
    app.SearchFailed();
    shown, page, loading := app.repositories, app.paginationRepo, app.loading;
  }

  /** A blank or white-space-only input sends no search and starts no spinner. */
  method BlankSearch(search: string) returns (sent: Option<SearchRequest>, loading: bool)
    requires forall i :: 0 <= i < |search| ==> IsJsWhiteSpace(search[i])
    ensures sent == None && !loading
  {
    var app := new App();
    app.OnChange(search);
    sent := app.OnSubmit();
    loading := app.loading;
  }

  /**
   * Clicking a repository loads its contributors; clicking it again (or any
   * item with the same id) sends nothing and keeps them on show.
   */
  method ClickTwice(item: Repository, again: Repository, people: seq<Contributor>, link: Option<string>)
    returns (first: Option<ContributorsRequest>, second: Option<ContributorsRequest>, shown: seq<Contributor>)
    requires again.id == item.id
    ensures first == Some(ContributorsRequest(Some(item.ownerLogin), Some(item.name), 10, 1))
    ensures second == None && shown == people
  {
    var app := new App();
    first := app.OnClickRepository(item);
    app.ContributorsSucceeded(first.value, Some(people), link);
    second := app.OnClickRepository(again);
    shown := app.contributors;
  }
  /** One thing that can happen to the view: a user action or the completion of a request. */
  datatype Event =
    | Type(value: string)
    | Submit
    | RepositoryPage(page: int)
    | SearchResolved(req: SearchRequest, items: Option<seq<Repository>>, link: Option<string>)
    | SearchRejected
    | Click(item: Repository)
    | ContributorPage(page: int)
    | ContributorsResolved(creq: ContributorsRequest, people: Option<seq<Contributor>>, link: Option<string>)
    | ContributorsRejected

  /**
   * After any sequence of events, in any order and with responses arriving
   * for any request, a list on show always comes with its page descriptor.
   */
  method Replay(events: seq<Event>)
    returns (shown: seq<Repository>, pageRepo: Option<PageData>, people: seq<Contributor>, pageContrib: Option<PageData>)
    ensures shown != [] ==> pageRepo.Some?
    ensures people != [] ==> pageContrib.Some?
  {
    var app := new App();
    var i := 0;
    while i < |events|
      invariant 0 <= i <= |events|
      invariant app.Valid()
    {
      match events[i] {
        case Type(value) => app.OnChange(value);
        case Submit => var _ := app.OnSubmit();
        case RepositoryPage(page) => var _ := app.SearchRepositories(page);
        case SearchResolved(req, items, link) => app.SearchSucceeded(req, items, link);
        case SearchRejected => app.SearchFailed();
        case Click(item) => var _ := app.OnClickRepository(item);
        case ContributorPage(page) => var _ := app.SearchContributors(page);
        case ContributorsResolved(creq, ps, link) => app.ContributorsSucceeded(creq, ps, link);
        case ContributorsRejected => app.ContributorsFailed();
      }
      i := i + 1;
    }
    shown, pageRepo, people, pageContrib := app.repositories, app.paginationRepo, app.contributors, app.paginationContrib;
  }
}
