/**
 * The index scanner (index_scanner.py): parsing of the `<section>` listing
 * entries of an index page into `IndexPuzzle`s, and the page-by-page crawl that
 * stops as soon as a page's oldest puzzle is already known.
 *
 * An HTML element is represented by the few things the scanner looks up in it:
 * its tag name, whether it has an `id` attribute, the first stripped string of
 * its `fc-item__title` element, the `data-timestamp` attribute of its
 * `fc-item__timestamp` time element, and the `href` of its `fc-item__link` anchor.
 * An index page is the sequence of `<section>` elements it contains, in document order.
 */
module IndexScanner {
  import opened Wrappers
  import opened Text
  import opened KakurizerTypes
  import Datastore

  /** The `fc-item__title` element; `firstString` is its first stripped string, if it has any text. */
  datatype Title = Title(firstString: Option<string>)
  /** The `fc-item__timestamp` time element and its `data-timestamp` attribute. */
  datatype TimeTag = TimeTag(dataTimestamp: Option<string>)
  /** The `fc-item__link` anchor and its `href` attribute. */
  datatype Link = Link(href: Option<string>)

  datatype Tag = Tag(name: string, hasId: bool, title: Option<Title>, time: Option<TimeTag>, link: Option<Link>)

  const NO_HEADER := "Could not find header tag"
  const NO_TITLE_TEXT := "Could not parse puzzle id from section title"
  const NO_TIMESTAMP := "Could not find timestamp in section"
  const NO_TIMESTAMP_ATTR := "Could not find data-timestamp attribute for timestamp"
  const NO_LINK := "Cannot find link to puzzle"
  const NO_HREF := "Cannot find href attribute on link to puzzle"
  const NO_DIFFICULTY := "Unable to find difficulty in title text"

  /** The ValueError `int(s)` raises on text that is not an integer. */
  function InvalidLiteral(s: string): Exception {
    ValueError("invalid literal for int() with base 10: '" + s + "'")
  }

  // ---------------------------------------------------------------------------
  // One section
  // ---------------------------------------------------------------------------

  /** `is_puzzle`: a `<section>` element carrying an `id` attribute. */
  predicate IsPuzzle(t: Tag) {
    t.name == "section" && t.hasId
  }

  /** `get_id`: the second space-separated title word, commas removed, as an integer. */
  function GetId(t: Tag): Result<int, Exception> {
    match t.title
    case None => Failure(ValueError(NO_HEADER))
    case Some(Title(None)) => Failure(ValueError(NO_TITLE_TEXT))
    case Some(Title(Some(header))) =>
      var words := Split(header, ' ');
      if |words| < 2 then Failure(IndexError)
      else
        var digits := ReplaceAll(words[1], ",", "");
        match ParseInt(digits)
        case None => Failure(InvalidLiteral(digits))
        case Some(n) => Success(n)
  }

  /** `get_timestamp`: the integer value of the time element's `data-timestamp`. */
  function GetTimestamp(t: Tag): Result<int, Exception> {
    match t.time
    case None => Failure(ValueError(NO_TIMESTAMP))
    case Some(TimeTag(None)) => Failure(ValueError(NO_TIMESTAMP_ATTR))
    case Some(TimeTag(Some(text))) =>
      match ParseInt(text)
      case None => Failure(InvalidLiteral(text))
      case Some(n) => Success(n)
  }

  /** `get_pageurl`: the link's `href`, verbatim. */
  function GetPageUrl(t: Tag): Result<string, Exception> {
    match t.link
    case None => Failure(ValueError(NO_LINK))
    case Some(Link(None)) => Failure(ValueError(NO_HREF))
    case Some(Link(Some(href))) => Success(href)
  }

  /** The difficulty spelled by a lower-cased title word. */
  function DifficultyOfWord(word: string): (r: Option<Difficulty>)
    ensures forall d: Difficulty :: r == Some(d) <==> word == Lower(d.Name())
  {
    assert Lower("EASY") == "easy" && Lower("MEDIUM") == "medium" && Lower("HARD") == "hard";
    if word == "easy" then Some(EASY)
    else if word == "medium" then Some(MEDIUM)
    else if word == "hard" then Some(HARD)
    else None
  }

  /**
   * `get_difficulty`: the name of the difficulty the third title word spells,
   * ignoring case; every failure (no title, no third word, an unknown word)
   * surfaces as the same ValueError.
   */
  function GetDifficulty(t: Tag): (r: Result<string, Exception>)
    ensures r.Success? ==> exists d: Difficulty :: r.value == d.Name()
    ensures r.Failure? ==> r.error == ValueError(NO_DIFFICULTY)
  {
    if t.title.None? || t.title.value.firstString.None? then Failure(ValueError(NO_DIFFICULTY))
    else
      var words := Split(t.title.value.firstString.value, ' ');
      if |words| < 3 then Failure(ValueError(NO_DIFFICULTY))
      else
        match DifficultyOfWord(Lower(words[2]))
        case None => Failure(ValueError(NO_DIFFICULTY))
        case Some(d) => Success(d.Name())
  }

  /**
   * `parse_section`: all four fields or the first failure, in the order id,
   * timestamp, page url, difficulty; never a partial record.
   */
  function ParseSection(t: Tag): Result<IndexPuzzle, Exception> {
    var id :- GetId(t);
    var timestampMillis :- GetTimestamp(t);
    var pageUrl :- GetPageUrl(t);
    var difficulty :- GetDifficulty(t);
    Success(IndexPuzzle(id, timestampMillis, pageUrl, difficulty))
  }

  /**
   * A section parses exactly when all four extractors succeed, into the record of
   * their values; otherwise it fails with the first extractor's error.
   */
  lemma ParseSectionFields(t: Tag)
    ensures var r := ParseSection(t);
            && (r.Success? <==> GetId(t).Success? && GetTimestamp(t).Success? && GetPageUrl(t).Success? && GetDifficulty(t).Success?)
            && (r.Success? ==> r.value == IndexPuzzle(GetId(t).value, GetTimestamp(t).value, GetPageUrl(t).value, GetDifficulty(t).value))
            && (r.Failure? ==>
                  r.error == (if GetId(t).Failure? then GetId(t).error
                              else if GetTimestamp(t).Failure? then GetTimestamp(t).error
                              else if GetPageUrl(t).Failure? then GetPageUrl(t).error
                              else GetDifficulty(t).error))
  {
  }

  /** A section whose title is `first id difficulty more...`, with the given time stamp and link. */
  function WellFormedSection(first: string, id: int, difficultyWord: string, more: seq<string>,
                             timestampMillis: int, pageUrl: string): Tag
  {
    var title := Join([first, IntToString(id), difficultyWord] + more, ' ');
    Tag("section", true, Some(Title(Some(title))), Some(TimeTag(Some(IntToString(timestampMillis)))),
        Some(Link(Some(pageUrl))))
  }

  /**
   * A well-formed section parses to exactly the record its text spells: the id and
   * time stamp are read back, the link verbatim, and the difficulty word in any
   * letter case gives the difficulty's name. Words after the third are ignored.
   */
  lemma ParseWellFormedSection(first: string, id: int, difficultyWord: string, more: seq<string>,
                               timestampMillis: int, pageUrl: string, d: Difficulty)
    requires ' ' !in first && ' ' !in difficultyWord
    requires forall i :: 0 <= i < |more| ==> ' ' !in more[i]
    requires Lower(difficultyWord) == Lower(d.Name())
    ensures ParseSection(WellFormedSection(first, id, difficultyWord, more, timestampMillis, pageUrl))
         == Success(IndexPuzzle(id, timestampMillis, pageUrl, d.Name()))
  {
    var t := WellFormedSection(first, id, difficultyWord, more, timestampMillis, pageUrl);
    var words := [first, IntToString(id), difficultyWord] + more;
    IntToStringPlain(id);
    SplitJoin(words, ' ');
    ReplaceAbsent(IntToString(id), ",", "");
    ParseIntOfIntToString(id);
    ParseIntOfIntToString(timestampMillis);
    assert GetId(t) == Success(id);
    assert GetTimestamp(t) == Success(timestampMillis);
    assert GetDifficulty(t) == Success(d.Name());
  }

  /** The numbers of the test fixture, printed. */
  lemma FixtureNumbers()
    ensures IntToString(123) == "123" && IntToString(1234) == "1234" && IntToString(98765) == "98765"
  {
    NatToStringSnoc(1, 2);
    NatToStringSnoc(12, 3);
    NatToStringSnoc(123, 4);
    NatToStringSnoc(9, 8);
    NatToStringSnoc(98, 7);
    NatToStringSnoc(987, 6);
    NatToStringSnoc(9876, 5);
  }

  /** Decimal text `s` that `str` prints for `n` is read back as `n`. */
  lemma ReadPrinted(s: string, n: int)
    requires IntToString(n) == s
    ensures ParseInt(s) == Some(n)
  {
    ParseIntOfIntToString(n);
  }

  /** The record of the test fixture: "Kakuro 123 hard", time stamp 98765, link "puzzle.html". */
  lemma ParseFixtureSection()
    ensures ParseSection(Tag("section", true, Some(Title(Some("Kakuro 123 hard"))),
                             Some(TimeTag(Some("98765"))), Some(Link(Some("puzzle.html")))))
         == Success(IndexPuzzle(123, 98765, "puzzle.html", "HARD"))
  {
    FixtureNumbers();
    assert Join(["Kakuro", "123", "hard"], ' ') == "Kakuro 123 hard";
    assert Lower("hard") == Lower(HARD.Name());
    assert ["Kakuro", IntToString(123), "hard"] + [] == ["Kakuro", "123", "hard"];
    assert WellFormedSection("Kakuro", 123, "hard", [], 98765, "puzzle.html")
        == Tag("section", true, Some(Title(Some("Kakuro 123 hard"))),
               Some(TimeTag(Some("98765"))), Some(Link(Some("puzzle.html"))));
    ParseWellFormedSection("Kakuro", 123, "hard", [], 98765, "puzzle.html", HARD);
  }

  /** The error table: which defect of a section makes parsing fail, and with what. */
  lemma ParseSectionErrors(t: Tag)
    ensures t.title.None? ==> ParseSection(t) == Failure(ValueError(NO_HEADER))
    ensures t.title == Some(Title(None)) ==> ParseSection(t) == Failure(ValueError(NO_TITLE_TEXT))
    ensures (t.title.Some? && t.title.value.firstString.Some? && |Split(t.title.value.firstString.value, ' ')| < 2)
            ==> ParseSection(t) == Failure(IndexError)
    ensures GetId(t).Success? && t.time.None? ==> ParseSection(t) == Failure(ValueError(NO_TIMESTAMP))
    ensures GetId(t).Success? && t.time == Some(TimeTag(None)) ==> ParseSection(t) == Failure(ValueError(NO_TIMESTAMP_ATTR))
    ensures GetId(t).Success? && t.time.Some? && t.time.value.dataTimestamp.Some?
            && ParseInt(t.time.value.dataTimestamp.value).None?
            ==> ParseSection(t) == Failure(InvalidLiteral(t.time.value.dataTimestamp.value))
    ensures GetId(t).Success? && GetTimestamp(t).Success? && t.link.None? ==> ParseSection(t) == Failure(ValueError(NO_LINK))
    ensures GetId(t).Success? && GetTimestamp(t).Success? && t.link == Some(Link(None))
            ==> ParseSection(t) == Failure(ValueError(NO_HREF))
    ensures GetId(t).Success? && GetTimestamp(t).Success? && GetPageUrl(t).Success? && GetDifficulty(t).Failure?
            ==> ParseSection(t) == Failure(ValueError(NO_DIFFICULTY))
  {
  }

  /** A title of space-free words whose second word, free of commas, is not an integer: parsing fails on the id. */
  lemma IdWordNotANumber(t: Tag, words: seq<string>)
    requires |words| >= 2 && ',' !in words[1] && ParseInt(words[1]).None?
    requires forall i :: 0 <= i < |words| ==> ' ' !in words[i]
    requires t.title == Some(Title(Some(Join(words, ' '))))
    ensures ParseSection(t) == Failure(InvalidLiteral(words[1]))
  {
    SplitJoin(words, ' ');
    ReplaceAbsent(words[1], ",", "");
    assert GetId(t) == Failure(InvalidLiteral(words[1]));
  }

  /** A title whose second word is the difficulty: the id is not an integer. */
  lemma ParseTitleWithoutId(time: Option<TimeTag>, link: Option<Link>)
    ensures ParseSection(Tag("section", true, Some(Title(Some("Kakuro hard"))), time, link))
         == Failure(InvalidLiteral("hard"))
  {
    assert Join(["Kakuro", "hard"], ' ') == "Kakuro hard";
    ParseIntRejects("hard", 0);
    IdWordNotANumber(Tag("section", true, Some(Title(Some("Kakuro hard"))), time, link), ["Kakuro", "hard"]);
  }

  /** A title whose second word is not a number. */
  lemma ParseTitleWithBadId(time: Option<TimeTag>, link: Option<Link>)
    ensures ParseSection(Tag("section", true, Some(Title(Some("Kakuro abc hard"))), time, link))
         == Failure(InvalidLiteral("abc"))
  {
    assert Join(["Kakuro", "abc", "hard"], ' ') == "Kakuro abc hard";
    ParseIntRejects("abc", 0);
    IdWordNotANumber(Tag("section", true, Some(Title(Some("Kakuro abc hard"))), time, link), ["Kakuro", "abc", "hard"]);
  }

  /** Dropping the commas from "1,234" leaves "1234". */
  lemma RemoveCommasFromThousands()
    ensures ReplaceAll("1,234", ",", "") == "1234"
  {
    ReplaceAfterPlain("1", ",234", ",", "");
    ReplaceAbsent("234", ",", "");
    assert ",234"[1..] == "234";
    assert "," <= ",234";
    assert ReplaceAll(",234", ",", "") == "" + ReplaceAll("234", ",", "");
    assert "1" + ",234" == "1,234";
  }

  /** Commas in the id are dropped before it is read: "Kakuro 1,234 hard" has id 1234. */
  lemma ParseIdWithComma(t: Tag, title: string)
    requires title == "Kakuro 1,234 hard" && t.title == Some(Title(Some(title)))
    ensures GetId(t) == Success(1234)
  {
    var words := ["Kakuro", "1,234", "hard"];
    assert Join(words, ' ') == title;
    SplitJoin(words, ' ');
    RemoveCommasFromThousands();
    FixtureNumbers();
    ReadPrinted("1234", 1234);
  }

  /** The sections of the fixture with the given title, a valid time stamp and a valid link. */
  function FixtureWithTitle(title: string): Tag {
    Tag("section", true, Some(Title(Some(title))), Some(TimeTag(Some("98765"))), Some(Link(Some("puzzle.html"))))
  }

  /** A title made of space-free words: its second word, if a printed integer, is the id. */
  lemma IdOfTitleWords(t: Tag, words: seq<string>, id: int)
    requires |words| >= 2 && words[1] == IntToString(id)
    requires forall i :: 0 <= i < |words| ==> ' ' !in words[i]
    requires t.title == Some(Title(Some(Join(words, ' '))))
    ensures GetId(t) == Success(id)
  {
    SplitJoin(words, ' ');
    IntToStringPlain(id);
    ReplaceAbsent(IntToString(id), ",", "");
    ParseIntOfIntToString(id);
  }

  /** A title made of space-free words: the difficulty is read from its third word, and there must be one. */
  lemma DifficultyOfTitleWords(t: Tag, words: seq<string>)
    requires |words| >= 1
    requires forall i :: 0 <= i < |words| ==> ' ' !in words[i]
    requires t.title == Some(Title(Some(Join(words, ' '))))
    ensures |words| < 3 ==> GetDifficulty(t) == Failure(ValueError(NO_DIFFICULTY))
    ensures |words| >= 3 ==> GetDifficulty(t).Success? == DifficultyOfWord(Lower(words[2])).Some?
  {
    SplitJoin(words, ' ');
  }

  /** The fixture's id, time stamp and link are read correctly whatever its title says after "Kakuro 123". */
  lemma FixtureFieldsParse(title: string, words: seq<string>)
    requires |words| >= 2 && words[0] == "Kakuro" && words[1] == "123"
    requires forall i :: 0 <= i < |words| ==> ' ' !in words[i]
    requires title == Join(words, ' ')
    ensures var t := FixtureWithTitle(title);
            GetId(t) == Success(123) && GetTimestamp(t) == Success(98765) && GetPageUrl(t) == Success("puzzle.html")
  {
    FixtureNumbers();
    ReadPrinted("98765", 98765);
    IdOfTitleWords(FixtureWithTitle(title), words, 123);
  }

  /** A title with an id but no third word fails on the difficulty. */
  lemma ParseTitleWithoutDifficulty(title: string)
    requires title == "Kakuro 123"
    ensures ParseSection(FixtureWithTitle(title)) == Failure(ValueError(NO_DIFFICULTY))
  {
    var words := ["Kakuro", "123"];
    assert Join(words, ' ') == title;
    FixtureFieldsParse(title, words);
    DifficultyOfTitleWords(FixtureWithTitle(title), words);
  }

  /** A title whose third word is no difficulty level fails on the difficulty. */
  lemma ParseTitleWithUnknownDifficulty(title: string)
    requires title == "Kakuro 123 okayish"
    ensures ParseSection(FixtureWithTitle(title)) == Failure(ValueError(NO_DIFFICULTY))
  {
    var words := ["Kakuro", "123", "okayish"];
    assert Join(words, ' ') == title;
    FixtureFieldsParse(title, words);
    assert |Lower("okayish")| == 7;
    assert DifficultyOfWord(Lower(words[2])) == None;
    DifficultyOfTitleWords(FixtureWithTitle(title), words);
  }

  // ---------------------------------------------------------------------------
  // One page
  // ---------------------------------------------------------------------------

  /** The sections `is_puzzle` keeps, in document order. */
  function PuzzleSections(sections: seq<Tag>): (r: seq<Tag>)
    ensures |r| <= |sections|
    decreases |sections|
  {
    if |sections| == 0 then []
    else (if IsPuzzle(sections[0]) then [sections[0]] else []) + PuzzleSections(sections[1..])
  }

  /** The sections kept are exactly those `is_puzzle` accepts. */
  lemma {:induction false} PuzzleSectionsMembers(sections: seq<Tag>)
    ensures forall t :: t in PuzzleSections(sections) <==> t in sections && IsPuzzle(t)
    decreases |sections|
  {
    if |sections| > 0 {
      PuzzleSectionsMembers(sections[1..]);
      assert sections == [sections[0]] + sections[1..];
    }
  }

  /**
   * Parses the given sections in order: one record per section, or the error of
   * the first section that fails to parse (the sections after it are not looked at).
   */
  function ParseSections(ts: seq<Tag>): (r: Result<seq<IndexPuzzle>, Exception>)
    ensures r.Success? ==> |r.value| == |ts|
    decreases |ts|
  {
    if |ts| == 0 then Success([])
    else
      var head := ParseSection(ts[0]);
      if head.Failure? then Failure(head.error)
      else
        var rest := ParseSections(ts[1..]);
        if rest.Failure? then Failure(rest.error)
        else Success([head.value] + rest.value)
  }

  /** The page parses exactly when every section does, record `i` being section `i`'s. */
  lemma {:induction false} ParseSectionsAllOrNothing(ts: seq<Tag>)
    ensures var r := ParseSections(ts);
            && (r.Success? <==> forall i :: 0 <= i < |ts| ==> ParseSection(ts[i]).Success?)
            && (r.Success? ==> forall i :: 0 <= i < |ts| ==> ParseSection(ts[i]) == Success(r.value[i]))
    decreases |ts|
  {
    if |ts| > 0 && ParseSection(ts[0]).Success? {
      ParseSectionsAllOrNothing(ts[1..]);
      assert forall i :: 1 <= i < |ts| ==> ts[i] == ts[1..][i - 1];
    }
  }

  /** A page that fails to parse fails with the error of its first section that fails. */
  lemma {:induction false} ParseSectionsFirstError(ts: seq<Tag>)
    ensures var r := ParseSections(ts);
            r.Failure? ==>
              exists i :: && 0 <= i < |ts|
                          && ParseSection(ts[i]) == Failure(r.error)
                          && forall j :: 0 <= j < i ==> ParseSection(ts[j]).Success?
    decreases |ts|
  {
    if |ts| > 0 && ParseSection(ts[0]).Success? && ParseSections(ts[1..]).Failure? {
      ParseSectionsFirstError(ts[1..]);
      var e := ParseSections(ts[1..]).error;
      var i :| 0 <= i < |ts[1..]| && ParseSection(ts[1..][i]) == Failure(e)
               && forall j :: 0 <= j < i ==> ParseSection(ts[1..][j]).Success?;
      assert ParseSection(ts[i + 1]) == Failure(e);
      assert forall j :: 1 <= j < i + 1 ==> ts[j] == ts[1..][j - 1];
    }
  }

  /**
   * `parse_index`: one record per puzzle section, in document order; the first
   * puzzle section that fails to parse fails the whole page.
   */
  function ParseIndex(sections: seq<Tag>): Result<seq<IndexPuzzle>, Exception> {
    ParseSections(PuzzleSections(sections))
  }

  /** Sections that are not puzzles do not affect the page: a `<section>` without `id`, or a `<div>` with one, is skipped. */
  lemma ParseIndexSkipsNonPuzzles(before: seq<Tag>, t: Tag, after: seq<Tag>)
    requires t.name != "section" || !t.hasId
    ensures ParseIndex(before + [t] + after) == ParseIndex(before + after)
  {
    PuzzleSectionsAppend(before + [t], after);
    PuzzleSectionsAppend(before, [t]);
    PuzzleSectionsAppend(before, after);
    assert PuzzleSections([t]) == [];
    assert PuzzleSections(before) + [] == PuzzleSections(before);
  }

  /** The puzzle sections of two runs of tags, one after the other, are those of the first run, then those of the second. */
  lemma {:induction false} PuzzleSectionsAppend(a: seq<Tag>, b: seq<Tag>)
    ensures PuzzleSections(a + b) == PuzzleSections(a) + PuzzleSections(b)
    decreases |a|
  {
    if |a| == 0 {
      assert a + b == b;
    } else {
      assert (a + b)[0] == a[0] && (a + b)[1..] == a[1..] + b;
      PuzzleSectionsAppend(a[1..], b);
    }
  }

  /** The section listing a record, its title "Kakuro <id> <difficulty in lower case>". */
  function SectionOf(p: IndexPuzzle, d: Difficulty): Tag {
    WellFormedSection("Kakuro", p.id, Lower(d.Name()), [], p.timestampMillis, p.pageUrl)
  }

  /** The page listing the given records, in order. */
  function WellFormedPage(puzzles: seq<IndexPuzzle>, ds: seq<Difficulty>): (page: seq<Tag>)
    requires |ds| == |puzzles|
    ensures |page| == |puzzles|
  {
    seq(|puzzles|, i requires 0 <= i < |puzzles| => SectionOf(puzzles[i], ds[i]))
  }

  /** A record whose difficulty is the name of `d` is read back from its section. */
  lemma ParseSectionOf(p: IndexPuzzle, d: Difficulty)
    requires p.difficulty == d.Name()
    ensures IsPuzzle(SectionOf(p, d)) && ParseSection(SectionOf(p, d)) == Success(p)
  {
    assert ' ' !in Lower(d.Name()) by {
      assert Lower("EASY") == "easy" && Lower("MEDIUM") == "medium" && Lower("HARD") == "hard";
    }
    assert ' ' !in "Kakuro";
    ParseWellFormedSection("Kakuro", p.id, Lower(d.Name()), [], p.timestampMillis, p.pageUrl, d);
  }

  /** A page made only of puzzle sections keeps all of them. */
  lemma {:induction false} PuzzleSectionsKeepsPuzzles(page: seq<Tag>)
    requires forall i :: 0 <= i < |page| ==> IsPuzzle(page[i])
    ensures PuzzleSections(page) == page
    decreases |page|
  {
    if |page| > 0 {
      var rest := page[1..];
      assert forall i :: 0 <= i < |rest| ==> rest[i] == page[i + 1];
      PuzzleSectionsKeepsPuzzles(rest);
      assert IsPuzzle(page[0]);
      assert PuzzleSections(page) == [page[0]] + rest;
      assert [page[0]] + rest == page;
    }
  }

  /** The page listing the given records parses back to those records, in order. */
  lemma ParseWellFormedPage(puzzles: seq<IndexPuzzle>, ds: seq<Difficulty>)
    requires |ds| == |puzzles|
    requires forall i :: 0 <= i < |puzzles| ==> puzzles[i].difficulty == ds[i].Name()
    ensures ParseIndex(WellFormedPage(puzzles, ds)) == Success(puzzles)
  {
    var page := WellFormedPage(puzzles, ds);
    forall i | 0 <= i < |page| ensures IsPuzzle(page[i]) && ParseSection(page[i]) == Success(puzzles[i]) {
      ParseSectionOf(puzzles[i], ds[i]);
    }
    PuzzleSectionsKeepsPuzzles(page);
    ParseSectionsAllOrNothing(page);
    assert ParseSections(page).value == puzzles;
  }

  // ---------------------------------------------------------------------------
  // The crawl
  // ---------------------------------------------------------------------------

  /** An index page after parsing: its records, or the exception parsing raised. */
  type ParsedPage = Result<seq<IndexPuzzle>, Exception>

  /**
   * `get_index(INDEX_URL, pageNumber)`, as the page's sections: the index is the
   * sequence of its pages, and page numbers past its end give a page without sections.
   */
  function FetchPage(index: seq<seq<Tag>>, pageNumber: nat): seq<Tag> {
    if 1 <= pageNumber <= |index| then index[pageNumber - 1] else []
  }

  /** Every page of the index, parsed. */
  function ParsedIndex(index: seq<seq<Tag>>): (r: seq<ParsedPage>)
    ensures |r| == |index|
  {
    if |index| == 0 then [] else [ParseIndex(index[0])] + ParsedIndex(index[1..])
  }

  /** Page `pageNumber` (counting from 1) of parsed pages; past the end, a page without records. */
  function PageAt(pages: seq<ParsedPage>, pageNumber: nat): ParsedPage {
    if 1 <= pageNumber <= |pages| then pages[pageNumber - 1] else Success([])
  }

  lemma PageAtParsedIndex(index: seq<seq<Tag>>, pageNumber: nat)
    ensures PageAt(ParsedIndex(index), pageNumber) == ParseIndex(FetchPage(index, pageNumber))
  {
    if 1 <= pageNumber <= |index| {
      if pageNumber > 1 {
        PageAtParsedIndex(index[1..], pageNumber - 1);
      }
    } else {
      assert PuzzleSections([]) == [];
      assert ParseSections([]) == Success([]);
    }
  }

  /**
   * The records of a page that are new: their id is not among the known ids
   * `existing`, and they were not collected from an earlier page.
   */
  function NewOnPage(page: seq<IndexPuzzle>, existing: set<int>, collected: seq<IndexPuzzle>): (r: seq<IndexPuzzle>)
    ensures |r| <= |page|
    decreases |page|
  {
    if |page| == 0 then []
    else
      var p := page[0];
      (if p.id !in existing && p !in collected then [p] else []) + NewOnPage(page[1..], existing, collected)
  }

  /** A record is kept exactly when it is on the page, its id is not known and it was not collected before. */
  lemma {:induction false} NewOnPageMembers(page: seq<IndexPuzzle>, existing: set<int>, collected: seq<IndexPuzzle>)
    ensures forall p :: p in NewOnPage(page, existing, collected) <==> p in page && p.id !in existing && p !in collected
    decreases |page|
  {
    if |page| > 0 {
      NewOnPageMembers(page[1..], existing, collected);
      assert page == [page[0]] + page[1..];
    }
  }

  /** When every record of the page is new, all of them are kept, in order. */
  lemma {:induction false} NewOnPageKeepsAll(page: seq<IndexPuzzle>, existing: set<int>, collected: seq<IndexPuzzle>)
    requires forall p :: p in page ==> p.id !in existing && p !in collected
    ensures NewOnPage(page, existing, collected) == page
    decreases |page|
  {
    if |page| > 0 {
      assert forall p :: p in page[1..] ==> p in page;
      NewOnPageKeepsAll(page[1..], existing, collected);
      assert [page[0]] + page[1..] == page;
    }
  }

  /** The new records of a non-empty page, given the ids the store holds between the page's last and first id. */
  function NewOf(page: seq<IndexPuzzle>, known: set<int>, collected: seq<IndexPuzzle>): seq<IndexPuzzle>
    requires |page| > 0
  {
    NewOnPage(page, Datastore.IdsBetween(known, page[|page| - 1].id, page[0].id), collected)
  }

  /** What a crawl ends with: the new records or the exception that stopped it, and how many pages it fetched. */
  datatype CrawlState = CrawlState(result: Result<seq<IndexPuzzle>, Exception>, pagesFetched: nat)

  /**
   * The crawl from page `pageNumber` on, with `collected` gathered from the pages
   * before: take the page's records, keep those whose id is not known between the
   * page's last and first id and that were not collected yet, and go on to the
   * next page exactly when the page's last record was kept. A page that failed to
   * parse, or has no records, ends the crawl with an exception.
   */
  function CrawlFrom(pages: seq<ParsedPage>, known: set<int>, pageNumber: nat, collected: seq<IndexPuzzle>): CrawlState
    requires 1 <= pageNumber <= |pages| + 1
    decreases |pages| + 1 - pageNumber
  {
    match PageAt(pages, pageNumber)
    case Failure(e) => CrawlState(Failure(e), pageNumber)
    case Success(page) =>
      if |page| == 0 then CrawlState(Failure(IndexError), pageNumber)
      else
        var newOnes := NewOf(page, known, collected);
        if page[|page| - 1] in newOnes then CrawlFrom(pages, known, pageNumber + 1, collected + newOnes)
        else CrawlState(Success(collected + newOnes), pageNumber)
  }

  /** The whole crawl of an index, starting at page 1 with nothing collected. */
  function Crawl(index: seq<seq<Tag>>, known: set<int>): CrawlState {
    CrawlFrom(ParsedIndex(index), known, 1, [])
  }

  /** One step of the crawl on a page with records. */
  lemma CrawlStep(pages: seq<ParsedPage>, known: set<int>, pageNumber: nat, collected: seq<IndexPuzzle>,
                  page: seq<IndexPuzzle>, existing: set<int>, newOnes: seq<IndexPuzzle>)
    requires 1 <= pageNumber <= |pages| + 1
    requires PageAt(pages, pageNumber) == Success(page) && |page| > 0
    requires existing == Datastore.IdsBetween(known, page[|page| - 1].id, page[0].id)
    requires newOnes == NewOnPage(page, existing, collected)
    ensures pageNumber <= |pages|
    ensures page[|page| - 1] in newOnes
            ==> CrawlFrom(pages, known, pageNumber, collected) == CrawlFrom(pages, known, pageNumber + 1, collected + newOnes)
    ensures page[|page| - 1] !in newOnes
            ==> CrawlFrom(pages, known, pageNumber, collected) == CrawlState(Success(collected + newOnes), pageNumber)
  {
  }

  /** A page that failed to parse, or has no records, ends the crawl with its exception. */
  lemma CrawlFails(pages: seq<ParsedPage>, known: set<int>, pageNumber: nat, collected: seq<IndexPuzzle>, e: Exception)
    requires 1 <= pageNumber <= |pages| + 1
    requires PageAt(pages, pageNumber) == Failure(e) || (PageAt(pages, pageNumber) == Success([]) && e == IndexError)
    ensures CrawlFrom(pages, known, pageNumber, collected) == CrawlState(Failure(e), pageNumber)
  {
  }

  /**
   * `get_new_puzzles`: walks the index from page 1 until a page's last record is
   * not new, asking the store for the known ids in each page's id range. Also
   * returns the number of pages fetched.
   *
   * `get_ids` hands back a one-shot generator, which the membership test of the
   * list comprehension consumes as it goes; the model follows the documented
   * contract of `get_ids` instead (a collection of ids, tested by membership).
   * The loop runs for page 1 and then while the previous page's last record
   * was new; `goOn` holds that condition.
   */
  method GetNewPuzzles(datastore: Datastore.DatastoreClient, index: seq<seq<Tag>>)
    returns (r: Result<seq<IndexPuzzle>, Exception>, pagesFetched: nat)
    ensures CrawlState(r, pagesFetched) == Crawl(index, datastore.Ids())
  {
    ghost var known := datastore.Ids();
    ghost var pages := ParsedIndex(index);
    ghost var target := Crawl(index, known);
    var pageNumber := 1;
    var pagePuzzles: seq<IndexPuzzle> := [];
    var newPagePuzzles: seq<IndexPuzzle> := [];
    var newPuzzles: seq<IndexPuzzle> := [];
    var goOn := true;
    while goOn
      invariant 1 <= pageNumber <= |pages| + 1
      invariant target == if goOn
                then CrawlFrom(pages, known, pageNumber, newPuzzles) else CrawlState(Success(newPuzzles), pageNumber - 1)
      decreases |pages| + 1 - pageNumber
    {
      var parsed := ParseIndex(FetchPage(index, pageNumber));
      PageAtParsedIndex(index, pageNumber);
      if parsed.Failure? {
        CrawlFails(pages, known, pageNumber, newPuzzles, parsed.error);
        return parsed.PropagateFailure(), pageNumber;
      }
      pagePuzzles := parsed.value;
      if |pagePuzzles| == 0 {
        CrawlFails(pages, known, pageNumber, newPuzzles, IndexError);
        return Failure(IndexError), pageNumber;
      }
      var minId := pagePuzzles[|pagePuzzles| - 1].id;
      var maxId := pagePuzzles[0].id;
      var existingIds := datastore.GetIds(minId, maxId);
      newPagePuzzles := NewOnPage(pagePuzzles, existingIds, newPuzzles);
      CrawlStep(pages, known, pageNumber, newPuzzles, pagePuzzles, existingIds, newPagePuzzles);
      newPuzzles := newPuzzles + newPagePuzzles;
      pageNumber := pageNumber + 1;
      goOn := pagePuzzles[|pagePuzzles| - 1] in newPagePuzzles;
    }
    return Success(newPuzzles), pageNumber - 1;
  }

  // ---------------------------------------------------------------------------
  // Properties of the crawl
  // ---------------------------------------------------------------------------

  /** Every record of a page lies between the page's last and first ids, as on an index listed newest first. */
  predicate Bracketed(page: seq<IndexPuzzle>) {
    |page| > 0 ==> forall p :: p in page ==> page[|page| - 1].id <= p.id <= page[0].id
  }

  predicate AllPagesBracketed(pages: seq<ParsedPage>) {
    forall k :: 0 <= k < |pages| ==> pages[k].Success? ==> Bracketed(pages[k].value)
  }

  /** On pages listed newest first, no record the crawl returns has an id the store already holds. */
  lemma {:induction false} CrawlAvoidsKnownIds(pages: seq<ParsedPage>, known: set<int>, pageNumber: nat, collected: seq<IndexPuzzle>)
    requires 1 <= pageNumber <= |pages| + 1
    requires AllPagesBracketed(pages)
    requires forall p :: p in collected ==> p.id !in known
    ensures var c := CrawlFrom(pages, known, pageNumber, collected);
            c.result.Success? ==> forall p :: p in c.result.value ==> p.id !in known
    decreases |pages| + 1 - pageNumber
  {
    var parsed := PageAt(pages, pageNumber);
    if parsed.Success? && |parsed.value| > 0 {
      var page := parsed.value;
      assert pageNumber <= |pages|;
      assert Bracketed(page) by {
        assert parsed == pages[pageNumber - 1];
      }
      var existing := Datastore.IdsBetween(known, page[|page| - 1].id, page[0].id);
      var newOnes := NewOf(page, known, collected);
      NewOnPageMembers(page, existing, collected);
      assert forall p :: p in collected + newOnes ==> p.id !in known;
      if page[|page| - 1] in newOnes {
        CrawlAvoidsKnownIds(pages, known, pageNumber + 1, collected + newOnes);
      }
    }
  }

  predicate NoDuplicates(s: seq<IndexPuzzle>) {
    forall i, j :: 0 <= i < j < |s| ==> s[i] != s[j]
  }

  /** No page that parsed lists a record twice. */
  predicate NoPageRepeats(pages: seq<ParsedPage>) {
    forall k :: 0 <= k < |pages| ==> pages[k].Success? ==> NoDuplicates(pages[k].value)
  }

  lemma {:induction false} NewOnPageNoDuplicates(page: seq<IndexPuzzle>, existing: set<int>, collected: seq<IndexPuzzle>)
    requires NoDuplicates(page)
    ensures NoDuplicates(NewOnPage(page, existing, collected))
    decreases |page|
  {
    if |page| > 0 {
      var p := page[0];
      assert NoDuplicates(page[1..]) by {
        forall i, j | 0 <= i < j < |page[1..]| ensures page[1..][i] != page[1..][j] {
          assert page[1..][i] == page[i + 1] && page[1..][j] == page[j + 1];
        }
      }
      NewOnPageNoDuplicates(page[1..], existing, collected);
      var tail := NewOnPage(page[1..], existing, collected);
      NewOnPageMembers(page[1..], existing, collected);
      assert p !in page[1..] by {
        forall k | 0 <= k < |page[1..]| ensures page[1..][k] != p {
          assert page[1..][k] == page[k + 1];
        }
      }
      assert p !in tail;
    }
  }

  /** Appending records that are distinct and not yet collected keeps the collection free of duplicates. */
  lemma AppendNoDuplicates(collected: seq<IndexPuzzle>, newOnes: seq<IndexPuzzle>)
    requires NoDuplicates(collected) && NoDuplicates(newOnes)
    requires forall p :: p in newOnes ==> p !in collected
    ensures NoDuplicates(collected + newOnes)
  {
    var acc := collected + newOnes;
    forall i, j | 0 <= i < j < |acc| ensures acc[i] != acc[j] {
      if j >= |collected| {
        assert acc[j] == newOnes[j - |collected|];
        assert acc[j] in newOnes;
        if i < |collected| {
          assert acc[i] == collected[i];
          assert acc[i] in collected;
        } else {
          assert acc[i] == newOnes[i - |collected|];
        }
      } else {
        assert acc[i] == collected[i] && acc[j] == collected[j];
      }
    }
  }

  /** A record is collected at most once when no page lists it twice: records repeated across pages are dropped. */
  lemma {:induction false} CrawlNoDuplicates(pages: seq<ParsedPage>, known: set<int>, pageNumber: nat, collected: seq<IndexPuzzle>)
    requires 1 <= pageNumber <= |pages| + 1
    requires NoPageRepeats(pages)
    requires NoDuplicates(collected)
    ensures var c := CrawlFrom(pages, known, pageNumber, collected);
            c.result.Success? ==> NoDuplicates(c.result.value)
    decreases |pages| + 1 - pageNumber
  {
    var parsed := PageAt(pages, pageNumber);
    if parsed.Success? && |parsed.value| > 0 {
      var page := parsed.value;
      assert pageNumber <= |pages|;
      assert NoDuplicates(page) by {
        assert parsed == pages[pageNumber - 1];
      }
      var existing := Datastore.IdsBetween(known, page[|page| - 1].id, page[0].id);
      var newOnes := NewOf(page, known, collected);
      NewOnPageNoDuplicates(page, existing, collected);
      NewOnPageMembers(page, existing, collected);
      AppendNoDuplicates(collected, newOnes);
      if page[|page| - 1] in newOnes {
        CrawlNoDuplicates(pages, known, pageNumber + 1, collected + newOnes);
      }
    }
  }

  /** The crawl keeps what it collected before, and stops at or after the page it starts at. */
  lemma {:induction false} CrawlExtends(pages: seq<ParsedPage>, known: set<int>, pageNumber: nat, collected: seq<IndexPuzzle>)
    requires 1 <= pageNumber <= |pages| + 1
    ensures var c := CrawlFrom(pages, known, pageNumber, collected);
            && pageNumber <= c.pagesFetched <= |pages| + 1
            && (c.result.Success? ==> collected <= c.result.value)
    decreases |pages| + 1 - pageNumber
  {
    var parsed := PageAt(pages, pageNumber);
    if parsed.Success? && |parsed.value| > 0 {
      var page := parsed.value;
      var existing := Datastore.IdsBetween(known, page[|page| - 1].id, page[0].id);
      var newOnes := NewOf(page, known, collected);
      if page[|page| - 1] in newOnes {
        CrawlExtends(pages, known, pageNumber + 1, collected + newOnes);
      }
    }
  }

  /** Ids strictly decrease along the records: newest first. */
  predicate Descending(s: seq<IndexPuzzle>) {
    forall i, j :: 0 <= i < j < |s| ==> s[i].id > s[j].id
  }

  /**
   * The index is listed newest first: every page that parsed is in descending id
   * order, and a page's last id is above the first id of the page after it.
   */
  predicate NewestFirst(pages: seq<ParsedPage>) {
    && (forall k :: 0 <= k < |pages| ==> pages[k].Success? ==> Descending(pages[k].value))
    && (forall k, l :: 0 <= k && l == k + 1 < |pages| ==>
          pages[k].Success? && pages[l].Success? && |pages[k].value| > 0 && |pages[l].value| > 0
          ==> pages[k].value[|pages[k].value| - 1].id > pages[l].value[0].id)
  }

  /** The last record collected so far is newer than the first record of the page `parsed`. */
  predicate NewerThanPage(collected: seq<IndexPuzzle>, parsed: ParsedPage) {
    parsed.Success? && |collected| > 0 && |parsed.value| > 0 ==> collected[|collected| - 1].id > parsed.value[0].id
  }

  /** The tail of a descending sequence is descending, and its head is newer than every record in the tail. */
  lemma DescendingSplit(s: seq<IndexPuzzle>)
    requires Descending(s) && |s| > 0
    ensures Descending(s[1..])
    ensures forall q :: q in s[1..] ==> s[0].id > q.id
  {
    var rest := s[1..];
    forall i, j | 0 <= i < j < |rest| ensures rest[i].id > rest[j].id {
      assert rest[i] == s[i + 1] && rest[j] == s[j + 1];
    }
    forall q | q in rest ensures s[0].id > q.id {
      var k :| 0 <= k < |rest| && rest[k] == q;
      assert rest[k] == s[k + 1];
    }
  }

  /** A record newer than every record of a descending sequence can be put in front of it. */
  lemma DescendingCons(x: IndexPuzzle, s: seq<IndexPuzzle>)
    requires Descending(s)
    requires forall q :: q in s ==> x.id > q.id
    ensures Descending([x] + s)
  {
    var r := [x] + s;
    forall i, j | 0 <= i < j < |r| ensures r[i].id > r[j].id {
      assert r[j] == s[j - 1];
      if i > 0 {
        assert r[i] == s[i - 1];
      } else {
        assert r[j] in s;
      }
    }
  }

  /** The new records of a descending page keep its order. */
  lemma {:induction false} NewOnPageDescending(page: seq<IndexPuzzle>, existing: set<int>, collected: seq<IndexPuzzle>)
    requires Descending(page)
    ensures Descending(NewOnPage(page, existing, collected))
    decreases |page|
  {
    if |page| > 0 {
      var rest := page[1..];
      DescendingSplit(page);
      NewOnPageDescending(rest, existing, collected);
      var tail := NewOnPage(rest, existing, collected);
      NewOnPageMembers(rest, existing, collected);
      if page[0].id !in existing && page[0] !in collected {
        DescendingCons(page[0], tail);
        assert NewOnPage(page, existing, collected) == [page[0]] + tail;
      } else {
        assert NewOnPage(page, existing, collected) == tail;
      }
    }
  }

  /** Every record of a descending page has an id between its last and its first. */
  lemma DescendingBounds(page: seq<IndexPuzzle>)
    requires Descending(page) && |page| > 0
    ensures forall q :: q in page ==> page[|page| - 1].id <= q.id <= page[0].id
  {
    forall q | q in page ensures page[|page| - 1].id <= q.id <= page[0].id {
      var k :| 0 <= k < |page| && page[k] == q;
    }
  }

  /** Appending records that are older than everything collected keeps the collection descending. */
  lemma AppendDescending(collected: seq<IndexPuzzle>, newOnes: seq<IndexPuzzle>)
    requires Descending(collected) && Descending(newOnes)
    requires forall p, q :: p in collected && q in newOnes ==> p.id > q.id
    ensures Descending(collected + newOnes)
  {
    var acc := collected + newOnes;
    forall i, j | 0 <= i < j < |acc| ensures acc[i].id > acc[j].id {
      if j >= |collected| {
        assert acc[j] == newOnes[j - |collected|];
        if i < |collected| {
          assert acc[i] == collected[i];
          assert acc[i] in collected && acc[j] in newOnes;
        } else {
          assert acc[i] == newOnes[i - |collected|];
        }
      } else {
        assert acc[i] == collected[i] && acc[j] == collected[j];
      }
    }
  }

  /**
   * Adding the new records of a descending page to a descending collection whose
   * last record is newer than the page keeps it descending, and its last record
   * is then no older than the page's last record.
   */
  lemma AppendPageDescending(collected: seq<IndexPuzzle>, page: seq<IndexPuzzle>, existing: set<int>)
    requires Descending(page) && |page| > 0 && Descending(collected)
    requires |collected| > 0 ==> collected[|collected| - 1].id > page[0].id
    ensures var acc := collected + NewOnPage(page, existing, collected);
            Descending(acc) && (|acc| > 0 ==> acc[|acc| - 1].id >= page[|page| - 1].id)
  {
    var newOnes := NewOnPage(page, existing, collected);
    DescendingBounds(page);
    NewOnPageDescending(page, existing, collected);
    NewOnPageMembers(page, existing, collected);
    if |collected| > 0 {
      DescendingBounds(collected);
    }
    AppendDescending(collected, newOnes);
    var acc := collected + newOnes;
    if |newOnes| > 0 {
      assert acc[|acc| - 1] == newOnes[|newOnes| - 1];
      assert acc[|acc| - 1] in page;
    } else {
      assert acc == collected;
    }
  }

  /** One page of the crawl on an index listed newest first: the collection stays descending and newer than the next page. */
  lemma NewestFirstStep(pages: seq<ParsedPage>, pageNumber: nat, collected: seq<IndexPuzzle>,
                        page: seq<IndexPuzzle>, existing: set<int>, newOnes: seq<IndexPuzzle>)
    requires 1 <= pageNumber <= |pages| && NewestFirst(pages)
    requires pages[pageNumber - 1] == Success(page) && |page| > 0
    requires Descending(collected) && NewerThanPage(collected, pages[pageNumber - 1])
    requires newOnes == NewOnPage(page, existing, collected)
    ensures Descending(collected + newOnes)
    ensures NewerThanPage(collected + newOnes, PageAt(pages, pageNumber + 1))
  {
    assert Descending(page);
    AppendPageDescending(collected, page, existing);
    var next := PageAt(pages, pageNumber + 1);
    if next.Success? && |next.value| > 0 {
      assert next == pages[pageNumber];
      assert page[|page| - 1].id > next.value[0].id;
    }
  }

  /** On an index listed newest first, the crawl returns its records newest first. */
  lemma {:induction false} CrawlNewestFirst(pages: seq<ParsedPage>, known: set<int>, pageNumber: nat, collected: seq<IndexPuzzle>)
    requires 1 <= pageNumber <= |pages| + 1
    requires NewestFirst(pages)
    requires Descending(collected) && NewerThanPage(collected, PageAt(pages, pageNumber))
    ensures var c := CrawlFrom(pages, known, pageNumber, collected);
            c.result.Success? ==> Descending(c.result.value)
    decreases |pages| + 1 - pageNumber
  {
    var c := CrawlFrom(pages, known, pageNumber, collected);
    var parsed := PageAt(pages, pageNumber);
    if parsed.Success? && |parsed.value| > 0 {
      var page := parsed.value;
      assert pageNumber <= |pages| && parsed == pages[pageNumber - 1];
      var existing := Datastore.IdsBetween(known, page[|page| - 1].id, page[0].id);
      var newOnes := NewOnPage(page, existing, collected);
      CrawlStep(pages, known, pageNumber, collected, page, existing, newOnes);
      NewestFirstStep(pages, pageNumber, collected, page, existing, newOnes);
      if page[|page| - 1] in newOnes {
        CrawlNewestFirst(pages, known, pageNumber + 1, collected + newOnes);
        assert c == CrawlFrom(pages, known, pageNumber + 1, collected + newOnes);
      } else {
        assert c.result == Success(collected + newOnes);
      }
    } else if parsed.Failure? {
      CrawlFails(pages, known, pageNumber, collected, parsed.error);
      assert c.result.Failure?;
    } else {
      CrawlFails(pages, known, pageNumber, collected, IndexError);
      assert c.result.Failure?;
    }
  }

  /** On an index listed newest first, `get_new_puzzles` returns its new records newest first. */
  lemma NewPuzzlesNewestFirst(index: seq<seq<Tag>>, known: set<int>)
    requires NewestFirst(ParsedIndex(index))
    ensures var r := Crawl(index, known).result;
            r.Success? ==> Descending(r.value)
  {
    CrawlNewestFirst(ParsedIndex(index), known, 1, []);
  }

  /**
   * What `get_new_puzzles` promises when every page is listed newest first and
   * lists no record twice: the records it returns are all new to the store, and
   * each appears once.
   */
  lemma NewPuzzlesAreNew(index: seq<seq<Tag>>, known: set<int>)
    requires AllPagesBracketed(ParsedIndex(index))
    requires NoPageRepeats(ParsedIndex(index))
    ensures var r := Crawl(index, known).result;
            r.Success? ==> (forall p :: p in r.value ==> p.id !in known) && NoDuplicates(r.value)
  {
    var pages := ParsedIndex(index);
    CrawlAvoidsKnownIds(pages, known, 1, []);
    CrawlNoDuplicates(pages, known, 1, []);
  }

  /** The crawl goes on after page `pageNumber`: the page has records and its last one is new. */
  predicate GoesOn(pages: seq<ParsedPage>, known: set<int>, pageNumber: nat, collected: seq<IndexPuzzle>) {
    var parsed := PageAt(pages, pageNumber);
    && parsed.Success? && |parsed.value| > 0
    && var page := parsed.value;
       page[|page| - 1] in NewOnPage(page, Datastore.IdsBetween(known, page[|page| - 1].id, page[0].id), collected)
  }

  /** Page `pageNumber + 1` is fetched exactly when the crawl goes on after page `pageNumber`. */
  lemma FetchesNextPageIff(pages: seq<ParsedPage>, known: set<int>, pageNumber: nat, collected: seq<IndexPuzzle>)
    requires 1 <= pageNumber <= |pages| + 1
    ensures CrawlFrom(pages, known, pageNumber, collected).pagesFetched > pageNumber
            <==> GoesOn(pages, known, pageNumber, collected)
  {
    if GoesOn(pages, known, pageNumber, collected) {
      var page := PageAt(pages, pageNumber).value;
      var newOnes := NewOnPage(page, Datastore.IdsBetween(known, page[|page| - 1].id, page[0].id), collected);
      assert pageNumber <= |pages|;
      assert CrawlFrom(pages, known, pageNumber, collected) == CrawlFrom(pages, known, pageNumber + 1, collected + newOnes);
      CrawlExtends(pages, known, pageNumber + 1, collected + newOnes);
    } else {
      assert CrawlFrom(pages, known, pageNumber, collected).pagesFetched == pageNumber;
    }
  }

  /** The stopping rule: a page whose last record's id is already stored is the last page fetched. */
  lemma StopsAtKnownLast(pages: seq<ParsedPage>, known: set<int>, pageNumber: nat, collected: seq<IndexPuzzle>)
    requires 1 <= pageNumber <= |pages| + 1
    requires PageAt(pages, pageNumber).Success?
    requires var page := PageAt(pages, pageNumber).value;
             |page| > 0 && page[|page| - 1].id in known && page[|page| - 1].id <= page[0].id
    ensures CrawlFrom(pages, known, pageNumber, collected).pagesFetched == pageNumber
  {
    var page := PageAt(pages, pageNumber).value;
    NewOnPageMembers(page, Datastore.IdsBetween(known, page[|page| - 1].id, page[0].id), collected);
  }

  /** The continuation rule: a page whose last record is new is followed by the next page. */
  lemma ContinuesAfterNewLast(pages: seq<ParsedPage>, known: set<int>, pageNumber: nat, collected: seq<IndexPuzzle>)
    requires 1 <= pageNumber <= |pages| + 1
    requires PageAt(pages, pageNumber).Success?
    requires var page := PageAt(pages, pageNumber).value;
             |page| > 0 && page[|page| - 1].id !in known && page[|page| - 1] !in collected
    ensures CrawlFrom(pages, known, pageNumber, collected).pagesFetched > pageNumber
  {
    var page := PageAt(pages, pageNumber).value;
    var existing := Datastore.IdsBetween(known, page[|page| - 1].id, page[0].id);
    var newOnes := NewOnPage(page, existing, collected);
    NewOnPageMembers(page, existing, collected);
    assert page[|page| - 1] in newOnes;
    assert pageNumber <= |pages|;
    CrawlExtends(pages, known, pageNumber + 1, collected + newOnes);
  }

  /** The index of the two-page scenario. */
  function ScenarioPages(p10: IndexPuzzle, p9: IndexPuzzle, p8: IndexPuzzle, p7: IndexPuzzle, p6: IndexPuzzle)
    : seq<ParsedPage>
  {
    [Success([p10, p9, p8]), Success([p7, p6])]
  }

  /** Page 1 of the two-page scenario: ids 10, 9, 8, none stored, are all new and the crawl goes on. */
  lemma FirstPageOfScenario(p10: IndexPuzzle, p9: IndexPuzzle, p8: IndexPuzzle, p7: IndexPuzzle, p6: IndexPuzzle)
    requires p10.id == 10 && p9.id == 9 && p8.id == 8
    ensures var pages := ScenarioPages(p10, p9, p8, p7, p6);
            CrawlFrom(pages, {6}, 1, []) == CrawlFrom(pages, {6}, 2, [p10, p9, p8])
  {
    var first := [p10, p9, p8];
    assert PageAt(ScenarioPages(p10, p9, p8, p7, p6), 1) == Success(first);
    assert Datastore.IdsBetween({6}, 8, 10) == {};
    NewOnPageKeepsAll(first, {}, []);
    assert [] + first == first;
  }

  /** Page 2 of the two-page scenario: 7 is new, 6 is stored, so the crawl stops there with 7 added. */
  lemma SecondPageOfScenario(p10: IndexPuzzle, p9: IndexPuzzle, p8: IndexPuzzle, p7: IndexPuzzle, p6: IndexPuzzle,
                             collected: seq<IndexPuzzle>)
    requires p7.id == 7 && p6.id == 6 && p7 !in collected
    ensures CrawlFrom(ScenarioPages(p10, p9, p8, p7, p6), {6}, 2, collected) == CrawlState(Success(collected + [p7]), 2)
  {
    var second := [p7, p6];
    assert PageAt(ScenarioPages(p10, p9, p8, p7, p6), 2) == Success(second);
    assert Datastore.IdsBetween({6}, 6, 7) == {6};
    assert NewOnPage(second, {6}, collected) == [p7];
  }

  /** Two pages, [10, 9, 8] and [7, 6], with 6 already stored: both pages are fetched and 10, 9, 8, 7 are new. */
  lemma TwoPageScenario(p10: IndexPuzzle, p9: IndexPuzzle, p8: IndexPuzzle, p7: IndexPuzzle, p6: IndexPuzzle)
    requires p10.id == 10 && p9.id == 9 && p8.id == 8 && p7.id == 7 && p6.id == 6
    ensures CrawlFrom([Success([p10, p9, p8]), Success([p7, p6])], {6}, 1, [])
         == CrawlState(Success([p10, p9, p8, p7]), 2)
  {
    FirstPageOfScenario(p10, p9, p8, p7, p6);
    assert p7 !in [p10, p9, p8];
    SecondPageOfScenario(p10, p9, p8, p7, p6, [p10, p9, p8]);
    assert [p10, p9, p8] + [p7] == [p10, p9, p8, p7];
  }
}
