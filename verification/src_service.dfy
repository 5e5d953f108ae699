/** The reader service of src/services/bibleService.ts: books are found by full
    name or abbreviation, there is no positivity check on chapter and verse
    numbers, search hits are labelled with the full name, and `initialize`
    stores whatever document it reads, with no shape check. The stored data
    is `null` until then, and every accessor throws while it is falsy. */
module SrcService {
  import opened Base
  import opened Text
  import opened Grid
  import opened Corpus
  import opened Document

  /** The service's two fields; `data` is `None` while `bibleData` is falsy. */
  datatype State = State(initialized: bool, data: Option<seq<Book>>)

  /** The state the constructor sets up. */
  const Start := State(false, None)

  /** What `bibleData` holds after assigning it the document: `null` for a
      falsy document, the books it describes otherwise. This service's
      documents call the full-name field `book`. */
  function Stored(doc: Json): (r: Option<seq<Book>>)
    ensures r.Some? <==> Truthy(doc)
  {
    if Truthy(doc) then Some(DecodeCorpus(doc, "book")) else None
  }

  /** `initialize()`: a no-op once initialized. Otherwise the document read is
      assigned to `bibleData` before the cached copy is written, so a failed
      write leaves the data assigned and the flag down; a successful read sets
      the flag whatever the document is. */
  function Initialize(s: State, load: Load): (r: (State, Outcome<Error>))
    ensures s.initialized ==> r == (s, Pass)
    ensures r.1.Pass? <==> r.0.initialized
    ensures r.1.Fail? ==> r.1.error == LoadFailed && !r.0.initialized
    ensures load.ReadFailed? ==> r.0 == s
    ensures !s.initialized && !load.ReadFailed? ==> r.0.data == Stored(load.doc)
    ensures !s.initialized && load.Loaded? ==> r == (State(true, Stored(load.doc)), Pass)
    ensures !s.initialized && load.CopyFailed? ==> r == (State(false, Stored(load.doc)), Fail(LoadFailed))
  {
    if s.initialized then (s, Pass)
    else
      match load
      case ReadFailed => (s, Fail(LoadFailed))
      case CopyFailed(doc) => (State(false, Stored(doc)), Fail(LoadFailed))
      case Loaded(doc) => (State(true, Stored(doc)), Pass)
  }

  /** `getVerse(book, chapter, verse)`: no positivity check, so a chapter
      number of 0 or less reads `chapters[-1]` or below, which is `undefined`. */
  function GetVerse(data: Option<seq<Book>>, book: string, chapter: int, verse: int): (r: Result<VerseView, Error>)
    ensures data.None? <==> r == Err(NotInitialized)
    ensures r == Err(BookNotFound) <==>
      data.Some? && forall j :: 0 <= j < |data.value| ==> !KeyMatches(NameOrAbbrev, data.value[j], book)
    ensures chapter <= 0 ==> r.Err? && r.error in {NotInitialized, BookNotFound, ChapterNotFound}
    ensures verse <= 0 ==> r.Err? && r.error in {NotInitialized, BookNotFound, ChapterNotFound, VerseNotFound}
    ensures r == Err(ChapterNotFound) <==>
      && data.Some? && FindBook(data.value, book, NameOrAbbrev).Some?
      && !(1 <= chapter <= |data.value[FindBook(data.value, book, NameOrAbbrev).value].chapters|)
    ensures r.Ok? <==>
      && data.Some? && FindBook(data.value, book, NameOrAbbrev).Some?
      && var b := data.value[FindBook(data.value, book, NameOrAbbrev).value];
         && 1 <= chapter <= |b.chapters| && 1 <= verse <= |b.chapters[chapter - 1]|
         && b.chapters[chapter - 1][verse - 1] != ""
    ensures r.Ok? ==>
      && data.Some? && FindBook(data.value, book, NameOrAbbrev).Some?
      && var b := data.value[FindBook(data.value, book, NameOrAbbrev).value];
         && 1 <= chapter <= |b.chapters| && 1 <= verse <= |b.chapters[chapter - 1]|
         && r.value == VerseView(b.chapters[chapter - 1][verse - 1], verse)
         && r.value.text != ""
    ensures r.Err? ==> r.error in {NotInitialized, BookNotFound, ChapterNotFound, VerseNotFound}
  {
    match data
    case None => Err(NotInitialized)
    case Some(books) =>
      match FindBook(books, book, NameOrAbbrev)
      case None => Err(BookNotFound)
      case Some(i) =>
        match ChapterAt(books[i], chapter)
        case None => Err(ChapterNotFound)
        case Some(texts) =>
          match VerseAt(texts, verse)
          case None => Err(VerseNotFound)
          case Some(text) => Ok(VerseView(text, verse))
  }

  /** `getChapter(book, chapterNum)`: any number outside 1..length, including
      0 and the negatives, is "Chapter not found". */
  function GetChapter(data: Option<seq<Book>>, book: string, chapterNum: int): (r: Result<ChapterView, Error>)
    ensures data.None? <==> r == Err(NotInitialized)
    ensures r == Err(BookNotFound) <==>
      data.Some? && forall j :: 0 <= j < |data.value| ==> !KeyMatches(NameOrAbbrev, data.value[j], book)
    ensures r == Err(ChapterNotFound) <==>
      data.Some? && FindBook(data.value, book, NameOrAbbrev).Some?
      && !(1 <= chapterNum <= |data.value[FindBook(data.value, book, NameOrAbbrev).value].chapters|)
    ensures r.Ok? ==>
      && r.value.book == book && r.value.chapter == chapterNum
      && data.Some? && FindBook(data.value, book, NameOrAbbrev).Some?
      && var b := data.value[FindBook(data.value, book, NameOrAbbrev).value];
         && 1 <= chapterNum <= |b.chapters|
         && |r.value.verses| == |b.chapters[chapterNum - 1]|
         && forall i :: 0 <= i < |r.value.verses| ==>
              r.value.verses[i] == NumberedVerse(i + 1, b.chapters[chapterNum - 1][i])
    ensures r.Err? ==> r.error in {NotInitialized, BookNotFound, ChapterNotFound}
  {
    match data
    case None => Err(NotInitialized)
    case Some(books) =>
      match FindBook(books, book, NameOrAbbrev)
      case None => Err(BookNotFound)
      case Some(i) =>
        match ChapterAt(books[i], chapterNum)
        case None => Err(ChapterNotFound)
        case Some(texts) => Ok(ChapterView(book, chapterNum, Number(texts)))
  }

  /** A verse lookup is the chapter lookup followed by picking the verse: the
      same errors, and the text of the chapter's entry with that number,
      which must exist and not be empty. */
  lemma VerseIsEntryOfChapter(data: Option<seq<Book>>, book: string, chapter: int, verse: int)
    ensures GetChapter(data, book, chapter).Err? ==>
      GetVerse(data, book, chapter, verse) == Err(GetChapter(data, book, chapter).error)
    ensures GetChapter(data, book, chapter).Ok? ==>
      var vs := GetChapter(data, book, chapter).value.verses;
      GetVerse(data, book, chapter, verse) ==
        if 1 <= verse <= |vs| && vs[verse - 1].text != "" then Ok(VerseView(vs[verse - 1].text, verse))
        else Err(VerseNotFound)
  {
  }

  /** `searchText(query)`: the matching verses, labelled with their book's
      full name. */
  function SearchText(data: Option<seq<Book>>, query: string): (r: Result<seq<Hit>, Error>)
    ensures data.None? <==> r == Err(NotInitialized)
    ensures r.Ok? ==> data.Some? && |r.value| == |MatchingLocs(data.value, query)|
    ensures r.Ok? ==> forall k :: 0 <= k < |r.value| ==>
      var books := data.value;
      var l := MatchingLocs(books, query)[k];
      && l.book < |books| && l.chapter < |books[l.book].chapters|
      && l.verse < |books[l.book].chapters[l.chapter]|
      && r.value[k] == Hit(books[l.book].name, l.chapter + 1, l.verse + 1, books[l.book].chapters[l.chapter][l.verse])
    ensures r.Ok? ==> forall b, c, v ::
      (0 <= b < |data.value| && 0 <= c < |data.value[b].chapters| && 0 <= v < |data.value[b].chapters[c]|
       && Matches(data.value[b].chapters[c][v], query))
      ==> Hit(data.value[b].name, c + 1, v + 1, data.value[b].chapters[c][v]) in r.value
  {
    match data
    case None => Err(NotInitialized)
    case Some(books) =>
      forall b, c, v | 0 <= b < |books| && 0 <= c < |books[b].chapters| && 0 <= v < |books[b].chapters[c]|
        && Matches(books[b].chapters[c][v], query)
        ensures Hit(books[b].name, c + 1, v + 1, books[b].chapters[c][v]) in Search(books, query, ByName)
      {
        SearchComplete(books, query, ByName, b, c, v);
      }
      Ok(Search(books, query, ByName))
  }

  /** The verse at 0-based position (b, c, v) is found under its book's full
      name and its 1-based numbers, when the text is not empty. */
  lemma VerseFoundByName(books: seq<Book>, b: nat, c: nat, v: nat)
    requires LabelsIdentify(books, NameOrAbbrev, ByName)
    requires b < |books| && c < |books[b].chapters| && v < |books[b].chapters[c]|
    requires books[b].chapters[c][v] != ""
    ensures GetVerse(Some(books), books[b].name, c + 1, v + 1) == Ok(VerseView(books[b].chapters[c][v], v + 1))
  {
    LabelFindsItsBook(books, NameOrAbbrev, ByName, b);
    assert FindBook(books, books[b].name, NameOrAbbrev) == Some(b);
  }

  /** Search and lookup agree: when no book's name or abbreviation equals a
      later book's name up to case, looking up a hit with a non-empty text
      returns that text. */
  lemma SearchHitIsVerse(books: seq<Book>, query: string, k: nat)
    requires LabelsIdentify(books, NameOrAbbrev, ByName)
    ensures SearchText(Some(books), query).Ok?
    ensures k < |SearchText(Some(books), query).value| && SearchText(Some(books), query).value[k].text != "" ==>
      var h := SearchText(Some(books), query).value[k];
      GetVerse(Some(books), h.book, h.chapter, h.verse) == Ok(VerseView(h.text, h.verse))
  {
    var hits := SearchText(Some(books), query).value;
    if k < |hits| && hits[k].text != "" {
      var l := MatchingLocs(books, query)[k];
      assert hits[k] == Hit(books[l.book].name, l.chapter + 1, l.verse + 1, books[l.book].chapters[l.chapter][l.verse]);
      VerseFoundByName(books, l.book, l.chapter, l.verse);
    }
  }

  /** `getBooks()`: the loaded books, unchanged. */
  function GetBooks(data: Option<seq<Book>>): (r: Result<seq<Book>, Error>)
    ensures data.None? <==> r == Err(NotInitialized)
    ensures data.Some? ==> r == Ok(data.value)
  {
    match data
    case None => Err(NotInitialized)
    case Some(books) => Ok(books)
  }

  /** `getBookByIndex(index)`: `bibleData[index]`, which is `undefined`
      rather than an error for an index outside the books. */
  function GetBookByIndex(data: Option<seq<Book>>, index: int): (r: Result<Option<Book>, Error>)
    ensures data.None? <==> r == Err(NotInitialized)
    ensures r.Ok? ==> (r.value.Some? <==> 0 <= index < |data.value|)
    ensures r.Ok? && r.value.Some? ==> r.value.value == data.value[index]
  {
    match data
    case None => Err(NotInitialized)
    case Some(books) => Ok(ElementAt(books, index))
  }

  /** Indexing agrees with the list `getBooks` returns: the book at a position
      of that list, and `undefined` past either end. */
  lemma BookByIndexIsElementOfBooks(data: Option<seq<Book>>, index: int)
    ensures GetBooks(data).Err? <==> GetBookByIndex(data, index).Err?
    ensures GetBooks(data).Ok? ==>
      GetBookByIndex(data, index) ==
        if 0 <= index < |GetBooks(data).value| then Ok(Some(GetBooks(data).value[index])) else Ok(None)
  {
  }

  /** One call of the service, in the order the source makes it. */
  datatype Query =
    | VerseQuery(book: string, chapter: int, verse: int)
    | ChapterQuery(book: string, chapterNum: int)
    | SearchQuery(query: string)
    | BooksQuery
    | BookAtQuery(index: int)

  datatype Answer =
    | VerseAnswer(verse: VerseView)
    | ChapterAnswer(chapter: ChapterView)
    | SearchAnswer(hits: seq<Hit>)
    | BooksAnswer(books: seq<Book>)
    | BookAtAnswer(book: Option<Book>)

  /** What a call computes on the stored data. */
  function Respond(data: Option<seq<Book>>, q: Query): (r: Result<Answer, Error>)
    ensures data.None? ==> r == Err(NotInitialized)
  {
    match q
    case VerseQuery(b, c, v) =>
      (match GetVerse(data, b, c, v) case Ok(x) => Ok(VerseAnswer(x)) case Err(e) => Err(e))
    case ChapterQuery(b, c) =>
      (match GetChapter(data, b, c) case Ok(x) => Ok(ChapterAnswer(x)) case Err(e) => Err(e))
    case SearchQuery(t) =>
      (match SearchText(data, t) case Ok(x) => Ok(SearchAnswer(x)) case Err(e) => Err(e))
    case BooksQuery =>
      (match GetBooks(data) case Ok(x) => Ok(BooksAnswer(x)) case Err(e) => Err(e))
    case BookAtQuery(i) =>
      (match GetBookByIndex(data, i) case Ok(x) => Ok(BookAtAnswer(x)) case Err(e) => Err(e))
  }

  /** A public call: `await this.initialize()` first, whose failure is thrown
      to the caller, then the query on the stored data. */
  function Serve(s: State, load: Load, q: Query): (r: (State, Result<Answer, Error>))
    ensures s.initialized ==> r == (s, Respond(s.data, q))
    ensures r.0.initialized ==> r.1 == Respond(r.0.data, q)
    ensures !r.0.initialized ==> r.1 == Err(LoadFailed)
    ensures r.0 == Initialize(s, load).0
    ensures Initialize(s, load).1.Fail? ==> r.1 == Err(Initialize(s, load).1.error)
  {
    var (s1, outcome) := Initialize(s, load);
    match outcome
    case Fail(e) => (s1, Err(e))
    case Pass => (s1, Respond(s1.data, q))
  }

  /** A document that reads as `null` sets the flag without storing books, so
      from then on every call fails with "Bible data not initialized", and no
      later load can repair it. */
  lemma NullDocumentIsPermanent(load: Load, q: Query)
    ensures Initialize(Start, Loaded(Null)).0 == State(true, None)
    ensures Serve(Initialize(Start, Loaded(Null)).0, load, q) == (State(true, None), Err(NotInitialized))
  {
  }
}
