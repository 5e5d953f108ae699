/** The loaded corpus both reader services work on, and the lookups they share:
    finding a book by key, the JavaScript truthiness tests on chapters and
    verses, numbering a chapter's verses, and the whole-corpus search. Where
    the two services differ, the difference is a parameter: which fields a
    book key is compared with, and which field labels a search hit. */
module Corpus {
  import opened Base
  import opened Text
  import opened Grid

  /** One book of the corpus document: `chapters[i][j]` is the text of
      chapter i+1, verse j+1. The app service calls the full-name field
      `name`; the src service calls it `book`. */
  datatype Book = Book(abbrev: string, name: string, chapters: seq<seq<string>>)

  /** The errors the services throw, one constructor per message. */
  datatype Error =
    | LoadFailed             // the file system, `require` or JSON.parse threw
    | InvalidFormat          // "Invalid Bible data format"
    | NotInitialized         // "Bible data not initialized"
    | InvalidChapterOrVerse  // "Invalid chapter or verse number"
    | InvalidChapter         // "Invalid chapter number"
    | BookNotFound           // "Book not found"
    | ChapterNotFound        // "Chapter not found"
    | VerseNotFound          // "Verse not found"

  /** Which fields of a book a requested key is compared with. */
  datatype MatchRule = AbbrevOnly | NameOrAbbrev

  /** The test inside `bibleData.find(...)`: case-insensitive equality of the
      key with the abbreviation, or (under `NameOrAbbrev`) with the full name. */
  predicate KeyMatches(rule: MatchRule, b: Book, key: string) {
    || Lower(b.abbrev) == Lower(key)
    || (rule == NameOrAbbrev && Lower(b.name) == Lower(key))
  }

  function FindFrom(books: seq<Book>, key: string, rule: MatchRule, from: nat): (r: Option<nat>)
    requires from <= |books|
    ensures r.Some? ==> from <= r.value < |books| && KeyMatches(rule, books[r.value], key)
    ensures r.Some? ==> forall j :: from <= j < r.value ==> !KeyMatches(rule, books[j], key)
    ensures r.None? ==> forall j :: from <= j < |books| ==> !KeyMatches(rule, books[j], key)
    decreases |books| - from
  {
    if from == |books| then None
    else if KeyMatches(rule, books[from], key) then Some(from)
    else FindFrom(books, key, rule, from + 1)
  }

  /** `bibleData.find(...)`: the index of the first book, in corpus order,
      that the key matches, or `None` when no book does. */
  function FindBook(books: seq<Book>, key: string, rule: MatchRule): (r: Option<nat>)
    ensures r.Some? ==> r.value < |books| && KeyMatches(rule, books[r.value], key)
    ensures r.Some? ==> forall j :: 0 <= j < r.value ==> !KeyMatches(rule, books[j], key)
    ensures r.None? <==> forall j :: 0 <= j < |books| ==> !KeyMatches(rule, books[j], key)
  {
    FindFrom(books, key, rule, 0)
  }

  /** The key case-insensitively names book `i` and no earlier book. */
  lemma FindBookNames(books: seq<Book>, key: string, rule: MatchRule, i: nat)
    requires i < |books| && KeyMatches(rule, books[i], key)
    requires forall j :: 0 <= j < i ==> !KeyMatches(rule, books[j], key)
    ensures FindBook(books, key, rule) == Some(i)
  {
    var r := FindBook(books, key, rule);
    assert r.Some?;
    assert !(r.value < i) && !(i < r.value);
  }

  /** `chapters[chapterNum - 1]` tested for truthiness: an array is truthy even
      when empty, so only a position outside the book fails. */
  function ChapterAt(b: Book, chapterNum: int): (r: Option<seq<string>>)
    ensures r.Some? <==> 1 <= chapterNum <= |b.chapters|
    ensures r.Some? ==> r.value == b.chapters[chapterNum - 1]
  {
    ElementAt(b.chapters, chapterNum - 1)
  }

  /** `chapter[verseNum - 1]` tested for truthiness: a position outside the
      chapter and the empty string both fail. */
  function VerseAt(chapter: seq<string>, verseNum: int): (r: Option<string>)
    ensures r.Some? <==> 1 <= verseNum <= |chapter| && chapter[verseNum - 1] != ""
    ensures r.Some? ==> r.value == chapter[verseNum - 1]
  {
    match ElementAt(chapter, verseNum - 1)
    case None => None
    case Some(text) => if text == "" then None else Some(text)
  }

  /** What `getVerse` returns. */
  datatype VerseView = VerseView(text: string, verse: int)

  /** One entry of a `getChapter` result. */
  datatype NumberedVerse = NumberedVerse(verse: int, text: string)

  /** What `getChapter` returns: the caller's book string, the chapter number
      as given, and the numbered verses. */
  datatype ChapterView = ChapterView(book: string, chapter: int, verses: seq<NumberedVerse>)

  function NumberFrom(texts: seq<string>, first: int): (r: seq<NumberedVerse>)
    ensures |r| == |texts|
    ensures forall i :: 0 <= i < |r| ==> r[i].verse == first + i && r[i].text == texts[i]
    decreases |texts|
  {
    if texts == [] then [] else [NumberedVerse(first, texts[0])] + NumberFrom(texts[1..], first + 1)
  }

  /** `chapter.map((text, index) => ({verse: index + 1, text}))`: one entry per
      stored verse, numbered 1..N with no gaps, texts in stored order. */
  function Number(texts: seq<string>): (r: seq<NumberedVerse>)
    ensures |r| == |texts|
    ensures forall i :: 0 <= i < |r| ==> r[i] == NumberedVerse(i + 1, texts[i])
  {
    NumberFrom(texts, 1)
  }

  function Texts(vs: seq<NumberedVerse>): (r: seq<string>)
    ensures |r| == |vs|
    ensures forall i :: 0 <= i < |vs| ==> r[i] == vs[i].text
  {
    seq(|vs|, i requires 0 <= i < |vs| => vs[i].text)
  }

  /** Numbering keeps the texts: dropping the numbers gives the chapter back. */
  lemma TextsOfNumber(texts: seq<string>)
    ensures Texts(Number(texts)) == texts
  {
  }

  /** Which field of its book a search hit is labelled with. */
  datatype HitLabel = ByAbbrev | ByName

  function LabelOf(b: Book, field: HitLabel): string {
    match field
    case ByAbbrev => b.abbrev
    case ByName => b.name
  }

  /** No book answers, under `rule`, to the label of a later book: each
      label finds its own book. */
  predicate LabelsIdentify(books: seq<Book>, rule: MatchRule, field: HitLabel) {
    forall i, j :: 0 <= j < i < |books| ==> !KeyMatches(rule, books[j], LabelOf(books[i], field))
  }

  /** Looking a book up by its own label finds it, when labels identify books
      and the rule compares the labelled field. */
  lemma LabelFindsItsBook(books: seq<Book>, rule: MatchRule, field: HitLabel, i: nat)
    requires i < |books| && LabelsIdentify(books, rule, field)
    requires field == ByName ==> rule == NameOrAbbrev
    ensures FindBook(books, LabelOf(books[i], field), rule) == Some(i)
  {
    FindBookNames(books, LabelOf(books[i], field), rule, i);
  }

  /** One `searchText` result. */
  datatype Hit = Hit(book: string, chapter: int, verse: int, text: string)

  /** The corpus as a books/chapters/verses grid of texts. */
  function Texts3(books: seq<Book>): (g: seq<seq<seq<string>>>)
    ensures |g| == |books|
    ensures forall b :: 0 <= b < |books| ==> g[b] == books[b].chapters
  {
    seq(|books|, b requires 0 <= b < |books| => books[b].chapters)
  }

  /** The verse at `l` matches `query` in the sense of `searchText`. */
  predicate MatchesAt(books: seq<Book>, query: string, l: Loc) {
    Valid(Texts3(books), l) && Matches(At(Texts3(books), l), query)
  }

  /** The positions of the matching verses: every one, each once, in book,
      then chapter, then verse order. */
  function MatchingLocs(books: seq<Book>, query: string): (r: seq<Loc>)
    ensures forall l :: l in r <==> MatchesAt(books, query, l)
    ensures Ordered(r)
    ensures forall i, j :: 0 <= i < |r| && 0 <= j < |r| && i != j ==> r[i] != r[j]
  {
    var locs := Scan(Texts3(books), (t: string) => Matches(t, query));
    OrderedImpliesDistinct(locs);
    locs
  }

  /** The result of the triple `forEach` of `searchText`: one hit per matching
      verse, labelled with its book's field, with 1-based chapter and verse
      numbers and the stored text. */
  function Search(books: seq<Book>, query: string, field: HitLabel): (r: seq<Hit>)
    ensures |r| == |MatchingLocs(books, query)|
    ensures forall k :: 0 <= k < |r| ==>
      var l := MatchingLocs(books, query)[k];
      && l.book < |books| && l.chapter < |books[l.book].chapters|
      && l.verse < |books[l.book].chapters[l.chapter]|
      && r[k] == Hit(LabelOf(books[l.book], field), l.chapter + 1, l.verse + 1,
                     books[l.book].chapters[l.chapter][l.verse])
      && Matches(r[k].text, query)
  {
    var locs := MatchingLocs(books, query);
    assert forall k :: 0 <= k < |locs| ==> locs[k] in locs;
    seq(|locs|, k requires 0 <= k < |locs| =>
      Hit(LabelOf(books[locs[k].book], field), locs[k].chapter + 1, locs[k].verse + 1,
          books[locs[k].book].chapters[locs[k].chapter][locs[k].verse]))
  }

  /** Every verse whose text matches the query is reported, under its book's
      label and its 1-based chapter and verse numbers. */
  lemma {:induction false} SearchComplete(books: seq<Book>, query: string, field: HitLabel, b: nat, c: nat, v: nat)
    requires b < |books| && c < |books[b].chapters| && v < |books[b].chapters[c]|
    requires Matches(books[b].chapters[c][v], query)
    ensures Hit(LabelOf(books[b], field), c + 1, v + 1, books[b].chapters[c][v]) in Search(books, query, field)
  {
    var l := Loc(b, c, v);
    var locs := MatchingLocs(books, query);
    assert MatchesAt(books, query, l);
    var k :| 0 <= k < |locs| && locs[k] == l;
    assert Search(books, query, field)[k] == Hit(LabelOf(books[b], field), c + 1, v + 1, books[b].chapters[c][v]);
  }

  /** With the empty query every stored verse is reported. */
  lemma {:induction false} EmptySearchListsEverything(books: seq<Book>, field: HitLabel)
    ensures |Search(books, "", field)| == |MatchingLocs(books, "")|
    ensures forall l :: l in MatchingLocs(books, "") <==> Valid(Texts3(books), l)
  {
    forall l | Valid(Texts3(books), l)
      ensures MatchesAt(books, "", l)
    {
      EmptyQueryMatchesEverything(At(Texts3(books), l));
    }
  }

  /** A hit for a non-empty query never carries an empty text. */
  lemma {:induction false} HitsOfNonEmptyQueryHaveText(books: seq<Book>, query: string, field: HitLabel)
    requires query != ""
    ensures forall k :: 0 <= k < |Search(books, query, field)| ==> Search(books, query, field)[k].text != ""
  {
    var r := Search(books, query, field);
    forall k | 0 <= k < |r|
      ensures r[k].text != ""
    {
      if r[k].text == "" {
        EmptyTextMatchesOnlyEmpty(query);
      }
    }
  }
}
