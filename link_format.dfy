/**
 * The `Link` header as the GitHub API writes it for paginated responses:
 * comma-separated entries `<URL&page=N>; rel="REL"`, the second and later
 * ones preceded by a space. For such headers the parser recovers, for every
 * relation, the page number of the last entry that carries it.
 */
module LinkFormat {
  import opened Wrappers
  import opened Text
  import opened LinkHeader

  /** One entry: the URL up to its page parameter, the page number and the relation. */
  datatype LinkEntry = LinkEntry(url: string, page: nat, rel: Rel)

  /**
   * A URL the entry can carry unchanged: it holds no comma (the parser splits
   * on commas) and no `&page=` of its own (the page parameter comes last).
   */
  predicate PlainUrl(url: string) {
    ',' !in url && !Contains(url, PageParam)
  }

  const RelOpen: string := ">; rel=\""
  const RelClose: string := "\""

  /** What follows the page number: `>; rel="REL"`. */
  function RelSuffix(rel: Rel): string {
    RelOpen + Keyword(rel) + RelClose
  }

  /** Everything of an entry from its page parameter on. */
  function EntryTail(page: nat, rel: Rel): string {
    PageParam + (DecimalString(page) + RelSuffix(rel))
  }

  /** `<URL&page=N>; rel="REL"`, after `lead` (empty for the first entry, a space for the others). */
  function FormatEntry(lead: string, e: LinkEntry): string {
    (lead + "<" + e.url) + EntryTail(e.page, e.rel)
  }

  function Lead(j: nat): string {
    if j == 0 then "" else " "
  }

  /** The pieces a header of `entries` consists of. */
  function Pieces(entries: seq<LinkEntry>): (ps: seq<string>)
    ensures |ps| == |entries|
    ensures forall j :: 0 <= j < |ps| ==> ps[j] == FormatEntry(Lead(j), entries[j])
  {
    seq(|entries|, j requires 0 <= j < |entries| => FormatEntry(Lead(j), entries[j]))
  }

  /** The header of `entries`, joined with `", "`. */
  function FormatLink(entries: seq<LinkEntry>): string {
    Join(Pieces(entries), ',')
  }

  // ---------------------------------------------------------------------------
  // Character facts about the fixed parts of an entry

  /** No comma and no line terminator. */
  predicate NoCommaOrLineBreak(s: string) {
    forall j :: 0 <= j < |s| ==> s[j] != ',' && !IsLineTerminator(s[j])
  }

  lemma NoCommaOrLineBreakConcat(a: string, b: string)
    requires NoCommaOrLineBreak(a) && NoCommaOrLineBreak(b)
    ensures NoCommaOrLineBreak(a + b)
  {
    assert forall j :: |a| <= j < |a + b| ==> (a + b)[j] == b[j - |a|];
  }

  lemma NoCommaOrLineBreakDigits(ds: string)
    requires AllDigits(ds)
    ensures NoCommaOrLineBreak(ds)
  {
  }

  lemma NoCommaOrLineBreakKeyword(rel: Rel)
    ensures NoCommaOrLineBreak(Keyword(rel)) && Keyword(rel) != ""
    ensures forall k :: 0 <= k < |Keyword(rel)| ==> IsLetter(Keyword(rel)[k])
  {
  }

  lemma NoCommaOrLineBreakRelSuffix(rel: Rel)
    ensures NoCommaOrLineBreak(RelSuffix(rel)) && RelSuffix(rel)[0] == '>'
  {
    NoCommaOrLineBreakKeyword(rel);
    assert NoCommaOrLineBreak(RelOpen) && NoCommaOrLineBreak(RelClose);
    NoCommaOrLineBreakConcat(RelOpen, Keyword(rel));
    NoCommaOrLineBreakConcat(RelOpen + Keyword(rel), RelClose);
  }

  lemma NoCommaOrLineBreakTail(page: nat, rel: Rel)
    ensures NoCommaOrLineBreak(EntryTail(page, rel))
  {
    NoCommaOrLineBreakDigits(DecimalString(page));
    NoCommaOrLineBreakRelSuffix(rel);
    assert NoCommaOrLineBreak(PageParam);
    NoCommaOrLineBreakConcat(DecimalString(page), RelSuffix(rel));
    NoCommaOrLineBreakConcat(PageParam, DecimalString(page) + RelSuffix(rel));
  }

  // ---------------------------------------------------------------------------
  // Which keywords the tail of an entry includes

  /** A keyword occurs in the tail of an entry exactly when it is the entry's own. */
  lemma TailKeywords(page: nat, rel: Rel, other: Rel)
    ensures Contains(EntryTail(page, rel), Keyword(other)) <==> other == rel
  {
    var ds := DecimalString(page);
    assert EntryTail(page, rel) == PageParam + (ds + RelSuffix(rel));
    if other == rel {
      OwnKeyword(ds, rel);
    } else {
      NoOtherKeyword(ds, rel, other);
    }
  }

  /** The tail written with digits `ds` includes its own keyword. */
  lemma OwnKeyword(ds: string, rel: Rel)
    ensures Contains(PageParam + (ds + RelSuffix(rel)), Keyword(rel))
  {
    var tail := PageParam + (ds + RelSuffix(rel));
    var w := Keyword(rel);
    var at := |PageParam| + |ds| + |RelOpen|;
    assert tail[at..at + |w|] == w;
    assert OccursAt(tail, w, at);
  }

  /** The tail written with digits `ds` includes no other relation's keyword. */
  lemma NoOtherKeyword(ds: string, rel: Rel, other: Rel)
    requires AllDigits(ds) && other != rel
    ensures !Contains(PageParam + (ds + RelSuffix(rel)), Keyword(other))
  {
    TailSeams(ds, rel, Keyword(other));
    MissingFromFixedParts(other);
    MissingFromDigits(ds, other);
    MissingFromOtherKeyword(rel, other);
  }

  /**
   * A word of letters occurs in the tail only inside one of its parts: every
   * seam has a non-letter on one side.
   */
  lemma TailSeams(ds: string, rel: Rel, w: string)
    requires AllDigits(ds)
    requires w != "" && forall k :: 0 <= k < |w| ==> IsLetter(w[k])
    ensures Contains(PageParam + (ds + RelSuffix(rel)), w) ==>
      Contains(PageParam, w) || Contains(ds, w) || Contains(RelOpen, w) ||
      Contains(Keyword(rel), w) || Contains(RelClose, w)
  {
    var kw := Keyword(rel);
    NoCommaOrLineBreakKeyword(rel);
    ContainsAcrossSeam(PageParam, ds + RelSuffix(rel), w);
    ContainsAcrossSeam(ds, RelSuffix(rel), w);
    ContainsAcrossSeam(RelOpen, kw + RelClose, w);
    assert RelOpen + kw + RelClose == RelOpen + (kw + RelClose);
    ContainsAcrossSeam(kw, RelClose, w);
  }

  /** No keyword occurs in `&page=`, in `>; rel="` or in the closing quote: each lacks one of its letters. */
  lemma MissingFromFixedParts(other: Rel)
    ensures !Contains(PageParam, Keyword(other))
    ensures !Contains(RelOpen, Keyword(other))
    ensures !Contains(RelClose, Keyword(other))
  {
    var w := Keyword(other);
    var k := if other == Last then 1 else if other == Prev then 3 else 0;
    MissingCharNotContained(PageParam, w, if other == Last then 0 else k);
    MissingCharNotContained(RelOpen, w, k);
    MissingCharNotContained(RelClose, w, 0);
  }

  /** No keyword occurs among digits. */
  lemma MissingFromDigits(ds: string, other: Rel)
    requires AllDigits(ds)
    ensures !Contains(ds, Keyword(other))
  {
    var w := Keyword(other);
    assert w[0] !in ds;
    MissingCharNotContained(ds, w, 0);
  }

  /** No keyword occurs in another relation's keyword. */
  lemma MissingFromOtherKeyword(rel: Rel, other: Rel)
    requires other != rel
    ensures !Contains(Keyword(rel), Keyword(other))
  {
    var k := if other == Last then 1 else if other == Prev then 3 else 0;
    MissingCharNotContained(Keyword(rel), Keyword(other), if other == Last then 0 else k);
  }

  lemma TailRels(page: nat, rel: Rel)
    ensures NamedRels(EntryTail(page, rel)) == {rel}
  {
    forall other
      ensures other in NamedRels(EntryTail(page, rel)) <==> other == rel
    {
      TailKeywords(page, rel, other);
    }
  }

  // ---------------------------------------------------------------------------
  // Where the regular expression matches an entry

  /** An entry with the numeral `ds` in place of the page number and `rest` after it. */
  function RawEntry(lead: string, url: string, ds: string, rest: string): string {
    (lead + "<" + url) + (PageParam + (ds + rest))
  }

  /** The expression matches a raw entry at its page parameter. */
  lemma RawMatchesAtParam(lead: string, url: string, ds: string, rest: string)
    requires ds != "" && AllDigits(ds) && NoCommaOrLineBreak(ds) && NoCommaOrLineBreak(rest)
    ensures MatchesAt(RawEntry(lead, url, ds, rest), |lead| + 1 + |url|)
  {
    var s := RawEntry(lead, url, ds, rest);
    var tail := PageParam + (ds + rest);
    var at := |lead| + 1 + |url|;
    assert s[at..] == tail;
    NoCommaOrLineBreakConcat(ds, rest);
    assert NoCommaOrLineBreak(PageParam);
    NoCommaOrLineBreakConcat(PageParam, ds + rest);
    assert s[at..at + |PageParam|] == tail[..|PageParam|] == PageParam;
    assert s[at + |PageParam|] == ds[0];
    assert forall j :: at <= j < |s| ==> s[j] == tail[j - at];
  }

  /** The expression does not match a raw entry before its page parameter. */
  lemma RawNoMatchBeforeParam(lead: string, url: string, ds: string, rest: string)
    requires lead == "" || lead == " "
    requires !Contains(url, PageParam)
    ensures forall i: nat :: i < |lead| + 1 + |url| ==> !MatchesAt(RawEntry(lead, url, ds, rest), i)
  {
    var s := RawEntry(lead, url, ds, rest);
    var u := |lead| + 1;
    var at := u + |url|;
    assert s[u..at] == url;
    assert s[at] == '&';
    forall i: nat | i < at
      ensures !MatchesAt(s, i)
    {
      if i + |PageParam| > |s| {
      } else if i < u {
        assert s[i] == (lead + "<")[i];
        assert s[i..i + |PageParam|][0] == s[i] != '&';
      } else {
        var p := i - u;
        if p + |PageParam| <= |url| {
          assert !OccursAt(url, PageParam, p);
          assert s[i..i + |PageParam|] == s[u..at][p..p + |PageParam|];
        } else {
          var k := |url| - p;
          assert s[i..i + |PageParam|][k] == s[at] == '&' != PageParam[k];
        }
      }
    }
  }

  /**
   * The leftmost match in a raw entry is its page parameter: `match[0]` is
   * everything from there on and the capture is the numeral.
   */
  lemma RawMatch(lead: string, url: string, ds: string, rest: string)
    requires lead == "" || lead == " "
    requires !Contains(url, PageParam)
    requires ds != "" && AllDigits(ds) && NoCommaOrLineBreak(ds) && NoCommaOrLineBreak(rest)
    requires rest == "" || !IsDigit(rest[0])
    ensures MatchPageLink(RawEntry(lead, url, ds, rest)) ==
      Some(PageMatch(|lead| + 1 + |url|, PageParam + (ds + rest), ds))
  {
    var s := RawEntry(lead, url, ds, rest);
    var at := |lead| + 1 + |url|;
    RawMatchesAtParam(lead, url, ds, rest);
    RawNoMatchBeforeParam(lead, url, ds, rest);
    var m := MatchPageLink(s).value;
    assert m.index == at;
    assert s[at..] == PageParam + (ds + rest);
    assert s[at + |PageParam|..] == ds + rest;
    DigitRunStops(ds, rest);
  }

  /** What the parser reads from one entry: its own relation and its page number. */
  lemma EntryReading(lead: string, e: LinkEntry)
    requires lead == "" || lead == " "
    requires PlainUrl(e.url)
    ensures Read(FormatEntry(lead, e)) == Some(Reading({e.rel}, e.page))
  {
    var ds := DecimalString(e.page);
    NoCommaOrLineBreakDigits(ds);
    NoCommaOrLineBreakRelSuffix(e.rel);
    assert FormatEntry(lead, e) == RawEntry(lead, e.url, ds, RelSuffix(e.rel));
    RawMatch(lead, e.url, ds, RelSuffix(e.rel));
    DecimalRoundTrip(e.page);
    TailRels(e.page, e.rel);
  }

  // ---------------------------------------------------------------------------
  // The whole header

  lemma PiecesNoCommaOrLineBreak(entries: seq<LinkEntry>)
    requires forall j :: 0 <= j < |entries| ==> PlainUrl(entries[j].url)
    ensures forall j :: 0 <= j < |entries| ==> ',' !in Pieces(entries)[j]
  {
    forall j | 0 <= j < |entries|
      ensures ',' !in Pieces(entries)[j]
    {
      var e := entries[j];
      var piece := FormatEntry(Lead(j), e);
      NoCommaOrLineBreakTail(e.page, e.rel);
      assert piece == (Lead(j) + "<" + e.url) + EntryTail(e.page, e.rel);
      assert forall i :: 0 <= i < |piece| ==> piece[i] != ',' by {
        forall i | 0 <= i < |piece|
          ensures piece[i] != ','
        {
          if i >= |Lead(j)| + 1 + |e.url| {
            assert piece[i] == EntryTail(e.page, e.rel)[i - |Lead(j)| - 1 - |e.url|];
          } else if i >= |Lead(j)| + 1 {
            assert piece[i] == e.url[i - |Lead(j)| - 1];
          }
        }
      }
    }
  }

  /** The readings of a formatted header are the entries' relations and page numbers. */
  lemma FormattedReadings(entries: seq<LinkEntry>)
    requires |entries| >= 1
    requires forall j :: 0 <= j < |entries| ==> PlainUrl(entries[j].url)
    ensures var link := Some(FormatLink(entries));
      LinkText(link) != "" &&
      Fragments(link) == Pieces(entries) &&
      forall j :: 0 <= j < |entries| ==>
        Readings(Fragments(link))[j] == Some(Reading({entries[j].rel}, entries[j].page))
  {
    var ps := Pieces(entries);
    PiecesNoCommaOrLineBreak(entries);
    SplitJoin(ps, ',');
    assert Split(FormatLink(entries), ',') == ps;
    assert |FormatLink(entries)| >= |ps[0]| >= 1;
    forall j | 0 <= j < |entries|
      ensures Read(ps[j]) == Some(Reading({entries[j].rel}, entries[j].page))
    {
      EntryReading(Lead(j), entries[j]);
    }
  }

  /** Entry `j` carries `rel` and no later entry does. */
  ghost predicate LastWith(entries: seq<LinkEntry>, rel: Rel, j: int) {
    0 <= j < |entries| && entries[j].rel == rel &&
    forall k :: j < k < |entries| ==> entries[k].rel != rel
  }

  /**
   * A descriptor field that follows readings naming exactly each entry's
   * relation follows the entries: unset when no entry carries `rel`, and
   * otherwise the page of the last entry that does.
   */
  lemma FieldFollowsEntries(d: PageData, rs: seq<Option<Reading>>, entries: seq<LinkEntry>, rel: Rel)
    requires |rs| == |entries|
    requires forall j :: 0 <= j < |entries| ==> rs[j] == Some(Reading({entries[j].rel}, entries[j].page))
    requires Field(d, rel).None? <==> NoneNames(rs, rel)
    requires forall j :: LastNaming(rs, rel, j) ==> Field(d, rel) == Some(rs[j].value.page)
    ensures Field(d, rel).None? <==> forall j :: 0 <= j < |entries| ==> entries[j].rel != rel
    ensures forall j :: LastWith(entries, rel, j) ==> Field(d, rel) == Some(entries[j].page)
  {
    assert forall j :: 0 <= j < |entries| ==> (Names(rs[j], rel) <==> entries[j].rel == rel);
    forall j | LastWith(entries, rel, j)
      ensures LastNaming(rs, rel, j)
    {
    }
  }

  /**
   * The parser inverts the server's formatting: for a header of entries
   * with plain URLs, a relation no entry carries is unset, and a relation
   * some entry carries holds the page number of the last such entry.
   */
  lemma FormatLinkRoundTrip(entries: seq<LinkEntry>, page: int, rel: Rel)
    requires forall j :: 0 <= j < |entries| ==> PlainUrl(entries[j].url)
    ensures Paginate(Some(FormatLink(entries)), page).page == page
    ensures Field(Paginate(Some(FormatLink(entries)), page), rel).None? <==>
      forall j :: 0 <= j < |entries| ==> entries[j].rel != rel
    ensures forall j :: LastWith(entries, rel, j) ==>
      Field(Paginate(Some(FormatLink(entries)), page), rel) == Some(entries[j].page)
  {
    var link := Some(FormatLink(entries));
    var rs := Readings(Fragments(link));
    PaginateField(link, page, rel);
    if |entries| >= 1 {
      FormattedReadings(entries);
      FieldFollowsEntries(Paginate(link, page), rs, entries, rel);
    }
  }

  /**
   * The usual header of a first page: entries `next` → `n` and `last` → `m`,
   * requested as page `page`, give exactly `{ page, next: n, last: m }`.
   */
  lemma NextAndLastHeader(url: string, page: int, n: nat, m: nat)
    requires PlainUrl(url)
    ensures Paginate(Some(FormatLink([LinkEntry(url, n, Next), LinkEntry(url, m, Last)])), page)
      == PageData(page, None, Some(n), None, Some(m))
  {
    var entries := [LinkEntry(url, n, Next), LinkEntry(url, m, Last)];
    var d := Paginate(Some(FormatLink(entries)), page);
    FormatLinkRoundTrip(entries, page, Prev);
    FormatLinkRoundTrip(entries, page, Next);
    FormatLinkRoundTrip(entries, page, First);
    FormatLinkRoundTrip(entries, page, Last);
    assert LastWith(entries, Next, 0) && LastWith(entries, Last, 1);
    assert Field(d, Prev) == None && Field(d, First) == None;
  }

  /** A header with entries `next` → 5 and `last` → 9, for page 4, gives `{ page: 4, next: 5, last: 9 }`. */
  lemma NextAndLastExample(url: string)
    requires PlainUrl(url)
    ensures Paginate(Some(FormatLink([LinkEntry(url, 5, Next), LinkEntry(url, 9, Last)])), 4)
      == PageData(4, None, Some(5), None, Some(9))
  {
    NextAndLastHeader(url, 4, 5, 9);
  }
}
