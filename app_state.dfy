/**
 * The view state of the application and the event handlers that change it.
 *
 * The state slots are fields of one object. Each request to the API is cut
 * into two atomic events: the handler that starts it (and returns the request
 * it would send), and the completion, which is either a success carrying the
 * response or a failure.
 */
module AppState {
  import opened Wrappers
  import opened Text
  import opened LinkHeader

  /** The fields of a search hit the view uses. */
  datatype Repository = Repository(id: int, name: string, fullName: string, ownerLogin: string, htmlUrl: string)

  /** The fields of a contributor the view uses. */
  datatype Contributor = Contributor(id: int, login: string, htmlUrl: string)

  /** `GET /search/repositories` with its parameters. */
  datatype SearchRequest = SearchRequest(q: string, sort: string, perPage: nat, page: int)

  /** `GET /repos/{owner}/{repo}/contributors` with its parameters (owner and repo absent without a selection). */
  datatype ContributorsRequest = ContributorsRequest(owner: Option<string>, repo: Option<string>, perPage: nat, page: int)

  const PerPage: nat := 10

  /** The qualifier that restricts a search to repository names. */
  const InName: string := "+in:name"

  /**
   * The `q` parameter of a search: the input without its leading and
   * trailing white space, followed by the qualifier.
   */
  function SearchQuery(search: string): (q: string)
    ensures |q| >= |InName| && q[|q| - |InName|..] == InName
    ensures var core := q[..|q| - |InName|];
      (exists k :: 0 <= k <= |search| - |core| && TrimmedAt(search, core, k)) &&
      (core != "" ==> !IsJsWhiteSpace(core[0]) && !IsJsWhiteSpace(core[|core| - 1]))
  {
    var core := Trim(search);
    assert (core + InName)[..|core|] == core;
    core + InName
  }

  /** The submit guard: an input is blank exactly when it is made only of JavaScript white space. */
  predicate IsBlank(search: string)
    ensures IsBlank(search) <==> forall i :: 0 <= i < |search| ==> IsJsWhiteSpace(search[i])
  {
    Trim(search) == ""
  }

  /**
   * The click guard: with nothing selected every click changes the
   * selection; a click on the selected repository, or on any repository with
   * its id, does not.
   */
  predicate SelectionChanges(selected: Option<Repository>, item: Repository)
    ensures selected.None? ==> SelectionChanges(selected, item)
    ensures selected.Some? && selected.value.id == item.id ==> !SelectionChanges(selected, item)
    ensures selected.Some? && selected.value.id != item.id ==> SelectionChanges(selected, item)
  {
    selected.None? || selected.value.id != item.id
  }

  class App {
    var search: string
    var loading: bool
    var repositories: seq<Repository>
    var selectedItem: Option<Repository>
    var paginationRepo: Option<PageData>
    var loadingContributors: bool
    var contributors: seq<Contributor>
    var paginationContrib: Option<PageData>

    /**
     * Items are never on show without a descriptor: a result list is
     * non-empty only when its page descriptor is present.
     */
    ghost predicate Valid()
      reads this
    {
      (paginationRepo.None? ==> repositories == []) &&
      (paginationContrib.None? ==> contributors == [])
    }

    /** The initial state of every slot. */
    constructor ()
      ensures Valid()
      ensures search == "" && !loading && repositories == [] && selectedItem == None && paginationRepo == None
      ensures !loadingContributors && contributors == [] && paginationContrib == None
    {
      search := "";
      loading := false;
      repositories := [];
      selectedItem := None;
      paginationRepo := None;
      loadingContributors := false;
      contributors := [];
      paginationContrib := None;
    }

    /** `onChange`: the input field's new text. */
    method OnChange(value: string)
      requires Valid()
      modifies this
      ensures Valid()
      ensures search == value
      ensures loading == old(loading) && repositories == old(repositories) && paginationRepo == old(paginationRepo)
      ensures selectedItem == old(selectedItem) && loadingContributors == old(loadingContributors)
      ensures contributors == old(contributors) && paginationContrib == old(paginationContrib)
    {
      search := value;
    }

    // -------------------------------------------------------------------------
    // Search flow

    /**
     * `searchRepositories(page)` up to the request: clear the results and
     * the descriptor, show the spinner, and send the search for `page`.
     */
    method SearchRepositories(page: int) returns (req: SearchRequest)
      requires Valid()
      modifies this
      ensures Valid()
      ensures repositories == [] && paginationRepo == None && loading
      ensures req == SearchRequest(SearchQuery(search), "stars", PerPage, page)
      ensures search == old(search) && selectedItem == old(selectedItem)
      ensures loadingContributors == old(loadingContributors)
      ensures contributors == old(contributors) && paginationContrib == old(paginationContrib)
    {
      repositories := [];
      paginationRepo := None;
      loading := true;
      req := SearchRequest(SearchQuery(search), "stars", PerPage, page);
    }

    /**
     * The search request `req` resolved: store its items (none when the
     * response has none) and the descriptor parsed from its `Link` header
     * for the page it asked for, then hide the spinner.
     */
    method SearchSucceeded(req: SearchRequest, items: Option<seq<Repository>>, link: Option<string>)
      requires Valid()
      modifies this
      ensures Valid()
      ensures repositories == items.GetOr([])
      ensures paginationRepo == Some(Paginate(link, req.page))
      ensures !loading
      ensures search == old(search) && selectedItem == old(selectedItem)
      ensures loadingContributors == old(loadingContributors)
      ensures contributors == old(contributors) && paginationContrib == old(paginationContrib)
    {
      repositories := items.GetOr([]);
      var descriptor := GeneratePaginationData(link, req.page);
      paginationRepo := Some(descriptor);
      loading := false;
    }

    /** The search request failed: only the spinner goes away. */
    method SearchFailed()
      requires Valid()
      modifies this
      ensures Valid()
      ensures !loading
      ensures repositories == old(repositories) && paginationRepo == old(paginationRepo)
      ensures search == old(search) && selectedItem == old(selectedItem)
      ensures loadingContributors == old(loadingContributors)
      ensures contributors == old(contributors) && paginationContrib == old(paginationContrib)
    {
      loading := false;
    }

    /**
     * `onSubmit`: a blank input does nothing; otherwise the search for page
     * 1 starts.
     */
    method OnSubmit() returns (req: Option<SearchRequest>)
      requires Valid()
      modifies this
      ensures Valid()
      ensures req.None? <==> IsBlank(search)
      ensures req.Some? ==> req.value == SearchRequest(SearchQuery(search), "stars", PerPage, 1)
      ensures req.Some? ==> repositories == [] && paginationRepo == None && loading
      ensures req.None? ==> loading == old(loading) && repositories == old(repositories) && paginationRepo == old(paginationRepo)
      ensures search == old(search) && selectedItem == old(selectedItem)
      ensures loadingContributors == old(loadingContributors)
      ensures contributors == old(contributors) && paginationContrib == old(paginationContrib)
    {
      if !IsBlank(search) {
        var r := SearchRepositories(1);
        req := Some(r);
      } else {
        req := None;
      }
    }

    // -------------------------------------------------------------------------
    // Contributor flow

    /**
     * `searchContributors(page)` up to the request: clear the contributors
     * and their descriptor, show the spinner, and ask for `page` of the
     * selected repository's contributors.
     */
    method SearchContributors(page: int) returns (req: ContributorsRequest)
      requires Valid()
      modifies this
      ensures Valid()
      ensures contributors == [] && paginationContrib == None && loadingContributors
      ensures req.page == page && req.perPage == PerPage
      ensures req.owner == (if selectedItem.Some? then Some(selectedItem.value.ownerLogin) else None)
      ensures req.repo == (if selectedItem.Some? then Some(selectedItem.value.name) else None)
      ensures search == old(search) && selectedItem == old(selectedItem)
      ensures loading == old(loading) && repositories == old(repositories) && paginationRepo == old(paginationRepo)
    {
      contributors := [];
      paginationContrib := None;
      loadingContributors := true;
      req := match selectedItem
        case None => ContributorsRequest(None, None, PerPage, page)
        case Some(item) => ContributorsRequest(Some(item.ownerLogin), Some(item.name), PerPage, page);
    }

    /**
     * The contributor request `req` resolved: store its items (none when the
     * body is empty) and the descriptor parsed from its `Link` header for
     * the page it asked for, then hide the spinner.
     */
    method ContributorsSucceeded(req: ContributorsRequest, items: Option<seq<Contributor>>, link: Option<string>)
      requires Valid()
      modifies this
      ensures Valid()
      ensures contributors == items.GetOr([])
      ensures paginationContrib == Some(Paginate(link, req.page))
      ensures !loadingContributors
      ensures search == old(search) && selectedItem == old(selectedItem)
      ensures loading == old(loading) && repositories == old(repositories) && paginationRepo == old(paginationRepo)
    {
      contributors := items.GetOr([]);
      var descriptor := GeneratePaginationData(link, req.page);
      paginationContrib := Some(descriptor);
      loadingContributors := false;
    }

    /** The contributor request failed: only the spinner goes away. */
    method ContributorsFailed()
      requires Valid()
      modifies this
      ensures Valid()
      ensures !loadingContributors
      ensures contributors == old(contributors) && paginationContrib == old(paginationContrib)
      ensures search == old(search) && selectedItem == old(selectedItem)
      ensures loading == old(loading) && repositories == old(repositories) && paginationRepo == old(paginationRepo)
    {
      loadingContributors := false;
    }

    // -------------------------------------------------------------------------
    // Selection

    /**
     * `onClickRepository` followed by the effect that watches the selection:
     * a click on the repository already selected (same id) changes nothing
     * and sends nothing; any other click selects `item` and starts the
     * contributor flow for its first page.
     */
    method OnClickRepository(item: Repository) returns (req: Option<ContributorsRequest>)
      requires Valid()
      modifies this
      ensures Valid()
      ensures req.Some? <==> SelectionChanges(old(selectedItem), item)
      ensures req.Some? ==>
        selectedItem == Some(item) &&
        req.value == ContributorsRequest(Some(item.ownerLogin), Some(item.name), PerPage, 1) &&
        contributors == [] && paginationContrib == None && loadingContributors
      ensures req.None? ==>
        selectedItem == old(selectedItem) && loadingContributors == old(loadingContributors) &&
        contributors == old(contributors) && paginationContrib == old(paginationContrib)
      ensures search == old(search)
      ensures loading == old(loading) && repositories == old(repositories) && paginationRepo == old(paginationRepo)
    {
      if SelectionChanges(selectedItem, item) {
        selectedItem := Some(item);
        var r := SearchContributors(1);
        req := Some(r);
      } else {
        req := None;
      }
    }
  }
}
