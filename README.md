# Repository search: page descriptors and view state

A Dafny model of the single-page GitHub repository browser in `src/App.tsx`.
The user types a query and submits it. The application asks the GitHub
search API for ten repositories per page, and clicking a repository loads
its contributors, ten per page. Both lists can be paged. Each page's
prev/next/first/last buttons come from the `Link` response header, which
`generatePaginationData` turns into a page descriptor (`PaginationProps`).

The project has five modules:

- `Wrappers` (`wrappers.dfy`): `Option`.
- `Text` (`text.dfy`): the JavaScript string operations the component uses, stated over `seq<char>`:
  - `split` with a one-character separator;
  - `trim`, with the ECMAScript white-space and line-terminator sets;
  - `includes`;
  - the regular-expression class `\d`;
  - the unary `+` on a digit string, as a base-ten value.
- `LinkHeader` (`link_header.dfy`): `PaginationProps` as `PageData`, and the parser in two forms:
  - `Paginate`, a function over the header;
  - `GeneratePaginationData`, a method that runs the source's `forEach` (the loop of `ForEachPageLink`) over the comma-separated pieces; its callback is the method `ApplyPageLink`.

  The regular expression `/&page=(\d+).*$/` is modelled exactly:
  - the match is the leftmost `&page=` followed by a digit with no line terminator after it;
  - `match[0]` runs to the end of the piece;
  - the capture is the greedy digit run.
- `LinkFormat` (`link_format.dfy`): the header GitHub sends for a paginated response, `<URL&page=N>; rel="REL"` entries joined by `", "`. It proves that on such headers the parser recovers, for every relation, the page of the last entry carrying it.
- `AppState` (`app_state.dfy`): the component's state slots as the fields of class `App`, and its event handlers as methods.
  - Each API request is split into two atomic steps. The handler that starts the request returns the request it sends. Then a completion either succeeds with the response's items and `Link` header, or fails.
  - The class invariant `Valid` says a result list is non-empty only when its page descriptor is present. Every handler keeps it, and `Scenarios.Replay` relies on it.
- `Scenarios` (`scenarios.dfy`): short runs of events proved from the handlers' contracts alone:
  - a search followed by a click on "next";
  - a failed search;
  - a blank submit;
  - a repeated click on the selected repository;
  - an arbitrary sequence of events, after which a list on show always has its page descriptor.

Four behaviours of the code are worth spelling out:

- **The selection guard compares ids, not object identity** (src/App.tsx:121). Clicking another object with the same id as the selection is a no-op (`AppState.SelectionChanges`, `App.OnClickRepository`, `Scenarios.ClickTwice`).
- **The page number is the digit run after the leftmost `&page=`, not a trailing token.** The match starts at the first `&page=` that is followed by a digit and has no line terminator after it, and reads every digit after it (`LinkHeader.MatchPageLink`).
- **A piece can set several fields.** The four keyword tests are independent, so a piece whose match names both `next` and `last` sets both (`LinkHeader.NextAndLast`).
- **Only the match tail is searched for keywords.** The tests look at `match[0]`, from `&page=` to the end of the piece. A keyword inside the URL before the page parameter has no effect.

## Model

| member | source | states |
|---|---|---|
| LinkHeader.FirstMatchFrom | src/App.tsx:37 | the result is the leftmost position at or after `from` where `&page=`, a digit and a line-terminator-free rest stand; no earlier position matches |
| LinkHeader.MatchPageLink | src/App.tsx:37 | `pageLink.match(/&page=(\d+).*$/)` fails exactly when no position matches; otherwise it is the leftmost match and `match[0]` is the rest of the piece, with the capture being the greedy, non-empty digit run after `&page=` |
| LinkHeader.NamedRels | src/App.tsx:38-48 | a relation is set by a piece exactly when its keyword occurs in `match[0]`, each keyword tested independently |
| LinkHeader.ReadingOfPiece | src/App.tsx:37-49 | `Read`, what one piece tells the `forEach` callback: there is a reading exactly when the expression matches; it names exactly the relations whose keyword occurs in `match[0]` and carries `+match[1]` |
| LinkHeader.Apply | src/App.tsx:38-49 | one piece's effect: `page` unchanged; every field it names gets the captured number, every other field is unchanged |
| LinkHeader.ApplyPageLink | src/App.tsx:36-50 | the `forEach` callback with its four sequential `if`s produces exactly `Apply` of the piece's reading |
| LinkHeader.ApplyAll | src/App.tsx:36-50 | the `forEach` over the pieces, first to last, never changes `page`; what each direction field ends up holding is stated by `ApplyAllField` |
| LinkHeader.LinkText | src/App.tsx:33-35 | the `link = ''` default: the text is empty exactly when the header is absent or empty, and otherwise it is the header itself |
| LinkHeader.Paginate | src/App.tsx:33-53 | the descriptor always carries the requested page |
| LinkHeader.GeneratePaginationData | src/App.tsx:33-53 | the method, which starts from `{ page }` and, for a non-empty header, runs the callback over its comma-separated pieces, returns `Paginate(link, page)` |
| LinkHeader.ForEachPageLink | src/App.tsx:36-50 | the loop over the pieces, one callback per piece in order, returns the fold `ApplyAll` of their readings |
| LinkHeader.EmptyLink | src/App.tsx:33-35 | an absent or empty header gives exactly `{ page }` |
| LinkHeader.ApplyAllField | src/App.tsx:36-50 | after a run of pieces, a field nobody names keeps its value, and otherwise the last piece that names it decides it |
| LinkHeader.PaginateField | src/App.tsx:33-53 | for any header: `page` is the requested page; a field is absent exactly when no piece names it; otherwise it holds the number of the last piece naming it |
| LinkHeader.InertFragment | src/App.tsx:37-49 | a piece the expression does not match, or whose match names no relation, leaves the descriptor unchanged |
| LinkHeader.NextAndLast | src/App.tsx:41-48 | a piece whose match includes both `next` and `last` sets both fields to the same number |
| Text.Split | src/App.tsx:36 | `split(',')` gives at least one piece, no piece holds a comma, and joining the pieces with commas gives back the header |
| Text.SplitJoin | src/App.tsx:36 | `split` inverts `join` for comma-free parts, so the pieces are uniquely determined |
| Text.Trim | src/App.tsx:63 | `trim` removes a white-space-only prefix and suffix of the input, leaves no white space at either end, and is empty exactly when the input is all white space |
| Text.TrimUnchanged | src/App.tsx:63 | an input without white space at its ends is its own trim |
| Text.DigitRun | src/App.tsx:37 | the greedy `\d+` takes a prefix made of digits that stops before the first non-digit |
| Text.DigitRunStops | src/App.tsx:37 | a digit string followed by a non-digit is captured exactly |
| Text.DecimalValue | src/App.tsx:39 | `+match[1]`: a numeral of n digits denotes a number below ten to the n; `DecimalRoundTrip` and `LeadingZero` state how it reads |
| Text.DecimalRoundTrip | src/App.tsx:39 | `+` applied to the numeral of `n` gives back `n` |
| Text.LeadingZero | src/App.tsx:39 | leading zeros do not change the value `+` gives |
| Text.MissingCharNotContained | src/App.tsx:38 | `includes` fails for a word with a character the text lacks |
| Text.ContainsAcrossSeam | src/App.tsx:38 | a word made of letters does not straddle a seam where a non-letter stands, so it occurs in one side or the other |
| LinkFormat.RawMatch | src/App.tsx:37 | on `<URL&page=DIGITS…` with a URL free of `&page=`, the match starts at the page parameter and captures exactly the digits |
| LinkFormat.TailRels | src/App.tsx:38-48 | the tail `&page=N>; rel="REL"` of an entry names exactly the relation `REL` |
| LinkFormat.EntryReading | src/App.tsx:37-49 | one GitHub entry reads as its own relation and page number |
| LinkFormat.FormattedReadings | src/App.tsx:36-49 | the pieces of a formatted header are its entries, each read as its relation and page |
| LinkFormat.FormatLinkRoundTrip | src/App.tsx:33-53 | for a GitHub-style header: `page` is the requested page; a relation is absent exactly when no entry carries it; otherwise it holds the page of the last entry carrying it |
| LinkFormat.NextAndLastHeader | src/App.tsx:33-53 | a header with `next` → n and `last` → m gives `{ page, next: n, last: m }` and no `prev` or `first` |
| LinkFormat.NextAndLastExample | src/App.tsx:33-53 | the header with `next` → 5 and `last` → 9, for requested page 4, gives `{ page: 4, next: 5, last: 9 }` |
| AppState.SearchQuery | src/App.tsx:63 | the `q` parameter is the input with a white-space-only prefix and suffix removed, no white space left at either end, followed by `+in:name` |
| AppState.IsBlank | src/App.tsx:115 | the submit guard rejects exactly the inputs made only of white space |
| AppState.SelectionChanges | src/App.tsx:121 | with nothing selected a click changes the selection; a click on a repository with the selected id does not; one with a different id does |
| AppState.App.constructor | src/App.tsx:22-31 | the initial value of every state slot |
| AppState.App.OnChange | src/App.tsx:108-110 | `search` becomes the typed text and nothing else changes |
| AppState.App.SearchRepositories | src/App.tsx:55-67 | clears the results and the descriptor and shows the spinner; sends `q` = trimmed input + `+in:name`, `sort=stars`, `per_page=10` and the page; the contributor slots stay unchanged |
| AppState.App.SearchSucceeded | src/App.tsx:68-74 | the items (or `[]`) are stored with the descriptor parsed from the header for the requested page, and the spinner goes away |
| AppState.App.SearchFailed | src/App.tsx:70-74 | only the spinner goes away; results and descriptor stay as they were |
| AppState.App.OnSubmit | src/App.tsx:112-118 | a search for page 1 starts exactly when the trimmed input is non-empty; a blank input changes nothing |
| AppState.App.SearchContributors | src/App.tsx:80-93 | clears the contributors and their descriptor and shows their spinner; sends the selected repository's owner and name, `per_page=10` and the page |
| AppState.App.ContributorsSucceeded | src/App.tsx:94-100 | the contributors (or `[]`) are stored with the descriptor parsed from the header for the requested page, and their spinner goes away |
| AppState.App.ContributorsFailed | src/App.tsx:96-100 | only the contributor spinner goes away |
| AppState.App.OnClickRepository | src/App.tsx:120-130 | a contributor request is sent exactly when nothing is selected or the id differs; then the item is selected and page 1 of its contributors is requested; otherwise nothing changes |
| Scenarios.OctoQuery | src/App.tsx:63 | the input "octo" is sent as `octo+in:name` |
| Scenarios.SearchAndNext | src/App.tsx:55-78 | search "octo": page 1 shows its items and `{ page: 1, next: 2, last: 5 }`; clicking "next" requests page 2, whose items and descriptor replace page 1's |
| Scenarios.FailedSearch | src/App.tsx:70-74 | after a failed search no items or descriptor are shown and the spinner is off |
| Scenarios.BlankSearch | src/App.tsx:112-118 | a white-space-only input sends nothing and starts no spinner |
| Scenarios.ClickTwice | src/App.tsx:120-130 | a second click on a repository with the same id sends nothing, and the loaded contributors stay on show |
| Scenarios.Replay | src/App.tsx:55-130 | after any sequence of inputs, submits, page clicks, repository clicks and request completions or failures, in any order, a list on show always comes with its page descriptor (the class invariant `App.Valid`, kept by every handler) |

## Left out

- Rendering: the JSX and react-bootstrap markup (src/App.tsx:132 onwards) is not modelled. This includes the truthiness tests that decide which pagination buttons appear, and the tests that decide which list or spinner is shown. A click on a page button is modelled as a direct call of `SearchRepositories` or `SearchContributors` with that page.
- React scheduling: there are no asynchronous setters, render passes or `useCallback` memoisation. The effect at src/App.tsx:126-130 is modelled as the call inside `OnClickRepository` that follows a selection change.
- The network: `octokit.request` is not modelled. A response is the items (absent when the body has none) and the optional `Link` header, passed to the completion methods. An exception is the separate `…Failed` method. The Octokit client in `src/services/octokit` is not part of this model.
- Asynchrony: the completions are not tied to the latest request. Two overlapping searches can resolve in either order, and the last one wins in the source as in the model. The model has no notion of a stale response.
- `console.log` of a failed request is not modelled; it has no effect on the state.
- `+match[1]` is modelled as an unbounded natural number. JavaScript's double-precision rounding of very long digit runs is not modelled.
- `Repository` and `Contributor` keep only the fields the view uses. `id`, `name` and `owner.login` are assumed present, so the optional chaining on `item?.id` and `selectedItem?.owner?.login` reduces to the `Option` of the selection itself.
- The Web Linking grammar of RFC 8288 is not modelled, because the source does not implement it. `LinkFormat` covers only the header shape GitHub sends.
