/**
 * Two template filters: `split`, a thin wrapper over `str.split(sep)`, and
 * `get_ref_tooltip`, which renders a literature reference as plain text.
 * A reference field is a string, and the empty string is the unset
 * (falsy) value. The author string comes from the reference library and
 * is a parameter here. Text is treated as already encoded (the Python 2
 * `.encode('utf-8')` calls leave an ASCII `str` unchanged).
 */
module Universal {
  import opened Common
  import PyText

  datatype PyError = ValueError

  /** The `split` filter: `s.split(sep)`; Python rejects an empty separator. */
  function SplitFilter(s: string, sep: string): (r: Result<seq<string>, PyError>)
    ensures r.Err? <==> sep == ""
    ensures r.Ok? ==> PyText.Join(sep, r.value) == s
  {
    if sep == "" then Err(ValueError)
    else
      PyText.JoinSplit(s, sep);
      Ok(PyText.Split(s, sep))
  }

  datatype Reference =
    | Article(title: string, journal: string, volume: string, number: string, pages: string, year: string)
    | Book(title: string, edition: string, volume: string, year: string, publisher: string, address: string)
    | Thesis(title: string, degree: string, school: string, year: string)
    | Other

  /** `'"<title>"\n\n'` when a title is set. */
  function TitleBlock(title: string): string
  {
    if title != "" then "\"" + title + "\"\n\n" else ""
  }

  /** `' (<year>)'` when a year is set. */
  function YearSuffix(year: string): string
  {
    if year != "" then " (" + year + ")" else ""
  }

  /** The journal line of an article: volume only with a journal, number and pages only with a volume. */
  function ArticleVenue(ref: Reference): string
    requires ref.Article?
  {
    if ref.journal == "" then ""
    else
      "\n" + ref.journal
      + (if ref.volume != "" then
           ", " + ref.volume
           + (if ref.number != "" then " (" + ref.number + ")" else "")
           + (if ref.pages != "" then ", p. " + ref.pages else "")
         else "")
      + YearSuffix(ref.year)
  }

  /** The title line of a book: edition, volume, year and the blank line only with a title. */
  function BookTitle(ref: Reference): string
    requires ref.Book?
  {
    if ref.title == "" then ""
    else
      "\"" + ref.title + "\""
      + (if ref.edition != "" then ", " + ref.edition + " ed." else "")
      + (if ref.volume != "" then ", Vol. " + ref.volume else "")
      + YearSuffix(ref.year)
      + "\n\n"
  }

  /** The publisher line of a book: address only with a publisher. */
  function BookPublisher(ref: Reference): string
    requires ref.Book?
  {
    if ref.publisher == "" then ""
    else "\n" + ref.publisher + (if ref.address != "" then ", " + ref.address else "")
  }

  /** The degree and school line of a thesis. */
  function ThesisSchool(ref: Reference): string
    requires ref.Thesis?
  {
    if ref.degree != "" then
      "\n" + ref.degree + " Thesis" + (if ref.school != "" then ", " + ref.school else "")
    else if ref.school != "" then "\n" + ref.school
    else ""
  }

  /** `get_ref_tooltip(reference)`, with `authors` standing for `reference.getAuthorString()`. */
  function RefTooltip(ref: Reference, authors: string): (r: string)
    ensures ref.Other? ==> r == ""
    ensures !ref.Other? ==> PyText.OccursAt(r, authors, |if ref.Book? then BookTitle(ref) else TitleBlock(ref.title)|)
  {
    match ref
    case Article(_, _, _, _, _, _) =>
      var r := TitleBlock(ref.title) + authors + ArticleVenue(ref);
      assert r[|TitleBlock(ref.title)|..|TitleBlock(ref.title)| + |authors|] == authors;
      r
    case Book(_, _, _, _, _, _) =>
      var r := BookTitle(ref) + authors + BookPublisher(ref);
      assert r[|BookTitle(ref)|..|BookTitle(ref)| + |authors|] == authors;
      r
    case Thesis(_, _, _, _) =>
      var r := TitleBlock(ref.title) + authors + ThesisSchool(ref) + YearSuffix(ref.year);
      assert r[|TitleBlock(ref.title)|..|TitleBlock(ref.title)| + |authors|] == authors;
      r
    case Other => ""
  }

  /** An article or thesis begins with its quoted title and a blank line exactly when a title is set, and otherwise with the authors. */
  lemma TitleLeadsWhenSet(ref: Reference, authors: string)
    requires ref.Article? || ref.Thesis?
    ensures ref.title != "" ==> PyText.StartsWith(RefTooltip(ref, authors), "\"" + ref.title + "\"\n\n")
    ensures ref.title == "" ==> PyText.StartsWith(RefTooltip(ref, authors), authors)
  {
    var tail := if ref.Article? then ArticleVenue(ref) else ThesisSchool(ref) + YearSuffix(ref.year);
    var head := TitleBlock(ref.title);
    assert RefTooltip(ref, authors) == head + (authors + tail);
    PyText.ExtendPrefix(head, authors + tail, head);
    PyText.ExtendPrefix(authors, tail, authors);
  }

  /** Without a journal, an article's volume, number, pages and year are not shown. */
  lemma ArticleVenueNeedsJournal(ref: Reference, authors: string, volume: string, number: string, pages: string, year: string)
    requires ref.Article? && ref.journal == ""
    ensures RefTooltip(ref, authors) == RefTooltip(ref.(volume := volume, number := number, pages := pages, year := year), authors)
    ensures RefTooltip(ref, authors) == TitleBlock(ref.title) + authors
  {
  }

  /** Without a volume, an article's number and pages are not shown. */
  lemma ArticleIssueNeedsVolume(ref: Reference, authors: string, number: string, pages: string)
    requires ref.Article? && ref.volume == ""
    ensures RefTooltip(ref, authors) == RefTooltip(ref.(number := number, pages := pages), authors)
  {
  }

  /** A set journal year closes an article's tooltip. */
  lemma ArticleYearLast(ref: Reference, authors: string)
    requires ref.Article? && ref.journal != "" && ref.year != ""
    ensures PyText.EndsWith(RefTooltip(ref, authors), " (" + ref.year + ")")
  {
    var y := " (" + ref.year + ")";
    var lead := "\n" + ref.journal
      + (if ref.volume != "" then
           ", " + ref.volume
           + (if ref.number != "" then " (" + ref.number + ")" else "")
           + (if ref.pages != "" then ", p. " + ref.pages else "")
         else "");
    assert ArticleVenue(ref) == lead + y;
    PyText.EndsWithItself(lead, y);
    PyText.PrependSuffix(TitleBlock(ref.title) + authors, ArticleVenue(ref), y);
  }

  /** Without a title, a book shows neither edition, volume nor year, and begins with the authors. */
  lemma BookDetailsNeedTitle(ref: Reference, authors: string, edition: string, volume: string, year: string)
    requires ref.Book? && ref.title == ""
    ensures RefTooltip(ref, authors) == RefTooltip(ref.(edition := edition, volume := volume, year := year), authors)
    ensures PyText.StartsWith(RefTooltip(ref, authors), authors)
  {
    var r := RefTooltip(ref, authors);
    assert r == authors + BookPublisher(ref);
    assert r[..|authors|] == authors;
  }

  /** A book with a title ends that part with a blank line before the authors. */
  lemma BookTitleBlankLine(ref: Reference)
    requires ref.Book? && ref.title != ""
    ensures PyText.EndsWith(BookTitle(ref), "\n\n")
  {
    var t := BookTitle(ref);
    assert t[|t| - 2..] == "\n\n";
  }

  /** Without a publisher, a book's address is not shown. */
  lemma BookAddressNeedsPublisher(ref: Reference, authors: string, address: string)
    requires ref.Book? && ref.publisher == ""
    ensures RefTooltip(ref, authors) == RefTooltip(ref.(address := address), authors)
  {
  }

  /** A thesis without a degree shows only its school on the last line; with a degree, the school follows the degree. */
  lemma ThesisDegreeLine(ref: Reference)
    requires ref.Thesis?
    ensures ref.degree == "" ==> ThesisSchool(ref) == (if ref.school != "" then "\n" + ref.school else "")
    ensures ref.degree != "" ==> PyText.StartsWith(ThesisSchool(ref), "\n" + ref.degree + " Thesis")
  {
    if ref.degree != "" {
      var p := "\n" + ref.degree + " Thesis";
      assert ThesisSchool(ref)[..|p|] == p;
    }
  }

  /** A thesis year is appended whenever it is set, whatever the degree and school. */
  lemma ThesisYearLast(ref: Reference, authors: string)
    requires ref.Thesis? && ref.year != ""
    ensures PyText.EndsWith(RefTooltip(ref, authors), " (" + ref.year + ")")
  {
    var r := RefTooltip(ref, authors);
    var y := " (" + ref.year + ")";
    assert r == (TitleBlock(ref.title) + authors + ThesisSchool(ref)) + y;
    assert r[|r| - |y|..] == y;
  }
}
