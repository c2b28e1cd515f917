/**
 * The page descriptor (`PaginationProps`) and the parser that builds one
 * from the `Link` response header (`generatePaginationData`).
 *
 * The parser does not implement the Web Linking grammar. It splits the
 * header on commas, applies the regular expression `/&page=(\d+).*$/` to
 * each piece, and sets each of `prev`, `next`, `first` and `last` whose name
 * occurs in the matched text to the captured page number. Pieces are
 * processed in order, so a later piece overwrites an earlier one.
 */
module LinkHeader {
  import opened Wrappers
  import opened Text

  /** `PaginationProps`: the page just requested and the pages the header points to. */
  datatype PageData = PageData(
    page: int,
    prev: Option<nat>,
    next: Option<nat>,
    first: Option<nat>,
    last: Option<nat>)

  /** The four relations the parser looks for. */
  datatype Rel = Prev | Next | First | Last

  function Keyword(rel: Rel): string {
    match rel
    case Prev => "prev"
    case Next => "next"
    case First => "first"
    case Last => "last"
  }

  /** The descriptor field a relation fills. */
  function Field(d: PageData, rel: Rel): Option<nat> {
    match rel
    case Prev => d.prev
    case Next => d.next
    case First => d.first
    case Last => d.last
  }

  /** The descriptor `{ page }` with no direction set. */
  function Blank(page: int): (d: PageData)
    ensures d.page == page && forall rel :: Field(d, rel) == None
  {
    PageData(page, None, None, None, None)
  }

  // ---------------------------------------------------------------------------
  // The regular expression /&page=(\d+).*$/

  const PageParam: string := "&page="

  /**
   * The expression matches `s` starting at `i`: `&page=` stands at `i`, a
   * digit follows it, and `.*$` can reach the end of `s`, that is, no line
   * terminator occurs from `i` on (without the `m` flag `$` means the end of
   * the input).
   */
  predicate MatchesAt(s: string, i: nat) {
    i + |PageParam| < |s| && s[i..i + |PageParam|] == PageParam && IsDigit(s[i + |PageParam|]) &&
    forall j :: i <= j < |s| ==> !IsLineTerminator(s[j])
  }

  /** The parts of a successful match that the parser uses: `index`, `match[0]` and `match[1]`. */
  datatype PageMatch = PageMatch(index: nat, whole: string, digits: string)

  /** The leftmost position at or after `from` where the expression matches. */
  function FirstMatchFrom(s: string, from: nat): (r: Option<nat>)
    requires from <= |s|
    ensures r.Some? ==> from <= r.value < |s| && MatchesAt(s, r.value)
    ensures forall j: nat :: from <= j < (if r.Some? then r.value else |s|) ==> !MatchesAt(s, j)
    decreases |s| - from
  {
    if from == |s| then None
    else if MatchesAt(s, from) then Some(from)
    else FirstMatchFrom(s, from + 1)
  }

  /**
   * `s.match(/&page=(\d+).*$/)`. It succeeds exactly when the expression
   * matches somewhere; then the match starts at the leftmost such position,
   * `match[0]` is everything from there to the end, and the capture is the
   * longest run of digits after `&page=` (the greedy `\d+`).
   */
  function MatchPageLink(s: string): (r: Option<PageMatch>)
    ensures r.None? <==> forall i: nat :: i < |s| ==> !MatchesAt(s, i)
    ensures r.Some? ==>
      var m := r.value;
      m.index < |s| && MatchesAt(s, m.index) &&
      (forall j: nat :: j < m.index ==> !MatchesAt(s, j)) &&
      m.whole == s[m.index..] &&
      m.digits == DigitRun(s[m.index + |PageParam|..]) && |m.digits| >= 1
  {
    match FirstMatchFrom(s, 0)
    case None => None
    case Some(i) => Some(PageMatch(i, s[i..], DigitRun(s[i + |PageParam|..])))
  }

  /**
   * What one piece of the header tells the parser: the relations whose
   * keyword occurs in `match[0]`, and the page number `+match[1]`.
   */
  datatype Reading = Reading(rels: set<Rel>, page: nat)

  /** A reading names `rel`. */
  predicate Names(r: Option<Reading>, rel: Rel) {
    r.Some? && rel in r.value.rels
  }

  /** The relations whose keyword `whole` includes, each tested on its own. */
  function NamedRels(whole: string): (rels: set<Rel>)
    ensures forall rel :: rel in rels <==> Contains(whole, Keyword(rel))
  {
    (if Contains(whole, "prev") then {Prev} else {}) +
    (if Contains(whole, "next") then {Next} else {}) +
    (if Contains(whole, "first") then {First} else {}) +
    (if Contains(whole, "last") then {Last} else {})
  }

  /**
   * The reading of one piece: nothing when the expression does not match;
   * otherwise the relations the matched text names and the value of the
   * capture.
   */
  function Read(fragment: string): Option<Reading> {
    match MatchPageLink(fragment)
    case None => None
    case Some(m) => Some(Reading(NamedRels(m.whole), DecimalValue(m.digits)))
  }

  /**
   * A piece has a reading exactly when the expression matches it; the
   * reading names the relations whose keyword occurs in `match[0]` and
   * carries the value of the capture.
   */
  lemma ReadingOfPiece(fragment: string)
    ensures Read(fragment).None? <==> MatchPageLink(fragment).None?
    ensures Read(fragment).Some? ==> forall rel ::
      rel in Read(fragment).value.rels <==> Contains(MatchPageLink(fragment).value.whole, Keyword(rel))
    ensures Read(fragment).Some? ==> Read(fragment).value.page == DecimalValue(MatchPageLink(fragment).value.digits)
  {
  }

  /** The readings of the pieces, in order. */
  function Readings(fragments: seq<string>): (rs: seq<Option<Reading>>)
    ensures |rs| == |fragments| && forall j :: 0 <= j < |rs| ==> rs[j] == Read(fragments[j])
  {
    seq(|fragments|, j requires 0 <= j < |fragments| => Read(fragments[j]))
  }

  // ---------------------------------------------------------------------------
  // generatePaginationData

  /**
   * The effect of one reading on the descriptor: each relation it names gets
   * its page number; every other field, and `page`, stays as it was.
   */
  function Apply(d: PageData, r: Option<Reading>): (d': PageData)
    ensures d'.page == d.page
    ensures forall rel :: Field(d', rel) == if Names(r, rel) then Some(r.value.page) else Field(d, rel)
  {
    match r
    case None => d
    case Some(Reading(rels, n)) =>
      PageData(d.page,
        if Prev in rels then Some(n) else d.prev,
        if Next in rels then Some(n) else d.next,
        if First in rels then Some(n) else d.first,
        if Last in rels then Some(n) else d.last)
  }

  /** The readings applied one after another, first to last, as `forEach` does. */
  function ApplyAll(d: PageData, rs: seq<Option<Reading>>): (d': PageData)
    ensures d'.page == d.page
    decreases |rs|
  {
    if rs == [] then d else Apply(ApplyAll(d, rs[..|rs| - 1]), rs[|rs| - 1])
  }

  /** The header text; an absent header is the empty string (the parameter's default). */
  function LinkText(link: Option<string>): (text: string)
    ensures text == "" <==> link.None? || link == Some("")
    ensures text != "" ==> link == Some(text)
  {
    link.GetOr("")
  }

  /** The pieces of the header the parser looks at. */
  function Fragments(link: Option<string>): seq<string> {
    Split(LinkText(link), ',')
  }

  /** What `generatePaginationData(link, page)` returns. */
  function Paginate(link: Option<string>, page: int): (d: PageData)
    ensures d.page == page
  {
    if LinkText(link) != "" then ApplyAll(Blank(page), Readings(Fragments(link))) else Blank(page)
  }

  /**
   * `generatePaginationData` as the source writes it: start from `{ page }`
   * and, for a non-empty header, run the callback on every piece in turn.
   */
  method GeneratePaginationData(link: Option<string>, page: int) returns (d: PageData)
    ensures d == Paginate(link, page)
  {
    d := PageData(page, None, None, None, None);
    var text := LinkText(link);
    if text != "" {
      d := ForEachPageLink(d, Split(text, ','));
    }
  }

  /** `forEach` over the pieces: the callback runs on each piece in turn. */
  method ForEachPageLink(d0: PageData, fragments: seq<string>) returns (d: PageData)
    ensures d == ApplyAll(d0, Readings(fragments))
  {
    d := d0;
    ghost var rs := Readings(fragments);
    var i := 0;
    while i < |fragments|
      invariant 0 <= i <= |fragments|
      invariant d == ApplyAll(d0, rs[..i])
    {
      d := ApplyPageLink(d, fragments[i]);
      ApplyAllStep(d0, rs, i);
      i := i + 1;
    }
    assert rs[..|fragments|] == rs;
  }

  /** One more reading applied after the first `i`. */
  lemma ApplyAllStep(d: PageData, rs: seq<Option<Reading>>, i: nat)
    requires i < |rs|
    ensures ApplyAll(d, rs[..i + 1]) == Apply(ApplyAll(d, rs[..i]), rs[i])
  {
    assert rs[..i + 1][..i] == rs[..i];
  }

  /**
   * The `forEach` callback: match one piece and overwrite, one test after
   * the other, each field whose keyword the matched text includes.
   */
  method ApplyPageLink(d: PageData, pageLink: string) returns (d': PageData)
    ensures d' == Apply(d, Read(pageLink))
  {
    d' := d;
    var m := MatchPageLink(pageLink);
    if m.Some? && Contains(m.value.whole, "prev") {
      d' := d'.(prev := Some(DecimalValue(m.value.digits)));
    }
    if m.Some? && Contains(m.value.whole, "next") {
      d' := d'.(next := Some(DecimalValue(m.value.digits)));
    }
    if m.Some? && Contains(m.value.whole, "first") {
      d' := d'.(first := Some(DecimalValue(m.value.digits)));
    }
    if m.Some? && Contains(m.value.whole, "last") {
      d' := d'.(last := Some(DecimalValue(m.value.digits)));
    }
  }

  // ---------------------------------------------------------------------------
  // Properties

  /** An empty or absent header gives exactly `{ page }`. */
  lemma EmptyLink(page: int)
    ensures Paginate(None, page) == Paginate(Some(""), page) == Blank(page)
  {
  }

  /** No reading of `rs` names `rel`. */
  ghost predicate NoneNames(rs: seq<Option<Reading>>, rel: Rel) {
    forall j :: 0 <= j < |rs| ==> !Names(rs[j], rel)
  }

  /** Reading `j` names `rel` and no later reading does. */
  ghost predicate LastNaming(rs: seq<Option<Reading>>, rel: Rel, j: int) {
    0 <= j < |rs| && Names(rs[j], rel) &&
    forall k :: j < k < |rs| ==> !Names(rs[k], rel)
  }

  /**
   * A field after a run of readings: when none names it, it keeps its old
   * value; otherwise the last reading that names it decides its value.
   */
  lemma {:induction false} ApplyAllField(d: PageData, rs: seq<Option<Reading>>, rel: Rel)
    ensures NoneNames(rs, rel) ==> Field(ApplyAll(d, rs), rel) == Field(d, rel)
    ensures forall j :: LastNaming(rs, rel, j) ==> Field(ApplyAll(d, rs), rel) == Some(rs[j].value.page)
    decreases |rs|
  {
    if rs != [] {
      var n := |rs| - 1;
      var init := rs[..n];
      ApplyAllField(d, init, rel);
      assert forall j :: 0 <= j < n ==> init[j] == rs[j];
      if Names(rs[n], rel) {
        forall j | LastNaming(rs, rel, j)
          ensures j == n
        {
        }
      } else {
        forall j | LastNaming(rs, rel, j)
          ensures LastNaming(init, rel, j)
        {
        }
      }
    }
  }

  /** When some reading names `rel`, some reading is the last to name it. */
  lemma {:induction false} SomeLastNaming(rs: seq<Option<Reading>>, rel: Rel)
    requires !NoneNames(rs, rel)
    ensures exists j :: LastNaming(rs, rel, j)
    decreases |rs|
  {
    var n := |rs| - 1;
    if Names(rs[n], rel) {
      assert LastNaming(rs, rel, n);
    } else {
      var init := rs[..n];
      assert forall j :: 0 <= j < n ==> init[j] == rs[j];
      SomeLastNaming(init, rel);
      var j :| LastNaming(init, rel, j);
      assert LastNaming(rs, rel, j);
    }
  }

  /**
   * The descriptor of any header: `page` is the requested page; a direction
   * is unset exactly when no comma-separated piece names it; and otherwise
   * it holds the page number of the last piece that names it.
   */
  lemma PaginateField(link: Option<string>, page: int, rel: Rel)
    ensures Paginate(link, page).page == page
    ensures Field(Paginate(link, page), rel).None? <==> NoneNames(Readings(Fragments(link)), rel)
    ensures forall j :: LastNaming(Readings(Fragments(link)), rel, j) ==>
      Field(Paginate(link, page), rel) == Some(Readings(Fragments(link))[j].value.page)
  {
    var rs := Readings(Fragments(link));
    ApplyAllField(Blank(page), rs, rel);
    if LinkText(link) == "" {
      assert Fragments(link) == [""];
      assert rs[0] == Read("");
    }
    if !NoneNames(rs, rel) {
      SomeLastNaming(rs, rel);
    }
  }

  /** A piece that the expression does not match, or whose match names no relation, changes nothing. */
  lemma InertFragment(d: PageData, fragment: string)
    requires MatchPageLink(fragment).None? ||
      forall rel :: !Contains(MatchPageLink(fragment).value.whole, Keyword(rel))
    ensures Apply(d, Read(fragment)) == d
  {
    assert forall rel :: Field(Apply(d, Read(fragment)), rel) == Field(d, rel);
  }

  /** The keyword tests are independent: a piece whose match names both `next` and `last` sets both. */
  lemma NextAndLast(d: PageData, fragment: string)
    requires MatchPageLink(fragment).Some?
    requires Contains(MatchPageLink(fragment).value.whole, "next")
    requires Contains(MatchPageLink(fragment).value.whole, "last")
    ensures Apply(d, Read(fragment)).next == Apply(d, Read(fragment)).last == Some(Read(fragment).value.page)
  {
    assert Names(Read(fragment), Next) && Names(Read(fragment), Last);
    assert Field(Apply(d, Read(fragment)), Next) == Some(Read(fragment).value.page);
    assert Field(Apply(d, Read(fragment)), Last) == Some(Read(fragment).value.page);
  }
}
