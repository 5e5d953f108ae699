/** The reader service of app/services/bibleService.ts: books are found by
    abbreviation only, chapter and verse numbers are checked for positivity
    before any lookup, search hits are labelled with the abbreviation, and
    loading is guarded by a shape check and an `initialized` flag. */
module AppService {
  import opened Base
  import opened Text
  import opened Grid
  import opened Corpus
  import opened Document

  /** The service's two fields. */
  datatype State = State(initialized: bool, data: seq<Book>)

  /** The state the constructor sets up. */
  const Start := State(false, [])

  /** The shape check of `initialize`: an array whose element 0 has a truthy
      `abbrev`, a truthy `name` and an array `chapters`. Nothing else of the
      document is looked at. */
  predicate FormatOk(raw: Json) {
    && raw.Arr?
    && var first := ElementAt(raw.items, 0);
       && TruthyValue(Prop(first, "abbrev"))
       && TruthyValue(Prop(first, "name"))
       && IsArray(Prop(first, "chapters"))
  }

  /** The shape check passes or fails on element 0 alone. */
  lemma FormatInspectsOnlyFirst(first: Json, rest: seq<Json>, other: seq<Json>)
    ensures FormatOk(Arr([first] + rest)) == FormatOk(Arr([first] + other))
  {
  }

  /** Non-arrays and empty arrays are rejected. */
  lemma FormatRejectsEmptyAndNonArray(raw: Json)
    requires !raw.Arr? || raw.items == []
    ensures !FormatOk(raw)
  {
  }

  /** On a document that describes a corpus, the shape check accepts exactly when
      there is a first book and its abbreviation and name are not empty. */
  lemma FormatOkOfEncoded(books: seq<Book>)
    ensures FormatOk(EncodeCorpus(books, "name")) <==> |books| > 0 && books[0].abbrev != "" && books[0].name != ""
  {
    var doc := EncodeCorpus(books, "name");
    if |books| > 0 {
      var first := ElementAt(doc.items, 0);
      assert first == Some(BookJson(books[0], "name"));
      assert Prop(first, "abbrev") == Some(Str(books[0].abbrev));
      assert Prop(first, "name") == Some(Str(books[0].name));
    }
  }

  /** `initialize()`: a no-op once initialized; otherwise the document is
      loaded and checked, and only a document that passes is stored and sets
      the flag. Every failure leaves the state as it was. */
  function Initialize(s: State, load: Load): (r: (State, Outcome<Error>))
    ensures s.initialized ==> r == (s, Pass)
    ensures r.1.Pass? <==> r.0.initialized
    ensures r.1.Fail? ==> r.0 == s
    ensures r.1.Fail? ==> r.1.error == LoadFailed || r.1.error == InvalidFormat
    ensures !s.initialized && r.1.Pass? ==> load.Loaded? && FormatOk(load.doc) && |r.0.data| > 0
    ensures !s.initialized ==> (r.1 == Fail(LoadFailed) <==> !load.Loaded?)
    ensures !s.initialized ==> (r.1 == Fail(InvalidFormat) <==> load.Loaded? && !FormatOk(load.doc))
    ensures !s.initialized && load.Loaded? && FormatOk(load.doc) ==>
      r == (State(true, DecodeCorpus(load.doc, "name")), Pass)
  {
    if s.initialized then (s, Pass)
    else
      match load
      case ReadFailed => (s, Fail(LoadFailed))
      case CopyFailed(_) => (s, Fail(LoadFailed))
      case Loaded(raw) =>
        if FormatOk(raw) then (State(true, DecodeCorpus(raw, "name")), Pass)
        else (s, Fail(InvalidFormat))
  }

  /** A load the first call would store. */
  predicate Accepted(load: Load) {
    load.Loaded? && FormatOk(load.doc)
  }

  /** `initialize()` called once per load, in order. */
  function InitializeAll(s: State, loads: seq<Load>): State
    decreases |loads|
  {
    if loads == [] then s else InitializeAll(Initialize(s, loads[0]).0, loads[1..])
  }

  /** Index of the first accepted load. */
  function FirstAccepted(loads: seq<Load>): (r: Option<nat>)
    ensures r.Some? ==> r.value < |loads| && Accepted(loads[r.value])
    ensures r.Some? ==> forall j :: 0 <= j < r.value ==> !Accepted(loads[j])
    ensures r.None? ==> forall j :: 0 <= j < |loads| ==> !Accepted(loads[j])
    decreases |loads|
  {
    if loads == [] then None
    else if Accepted(loads[0]) then Some(0)
    else match FirstAccepted(loads[1..])
      case None => None
      case Some(i) => Some(i + 1)
  }

  /** Loading is effective at most once: after any run of calls the service
      holds the first accepted document, or is still uninitialized with its
      data untouched when none was accepted. */
  lemma {:induction false} InitializeAtMostOnce(s: State, loads: seq<Load>)
    requires !s.initialized
    ensures FirstAccepted(loads).None? ==> InitializeAll(s, loads) == s
    ensures FirstAccepted(loads).Some? ==>
      InitializeAll(s, loads) == State(true, DecodeCorpus(loads[FirstAccepted(loads).value].doc, "name"))
    decreases |loads|
  {
    if loads != [] {
      var s1 := Initialize(s, loads[0]).0;
      if Accepted(loads[0]) {
        InitializedStays(s1, loads[1..]);
      } else {
        assert s1 == s;
        InitializeAtMostOnce(s, loads[1..]);
      }
    }
  }

  /** Once initialized, further calls change nothing. */
  lemma {:induction false} InitializedStays(s: State, loads: seq<Load>)
    requires s.initialized
    ensures InitializeAll(s, loads) == s
    decreases |loads|
  {
    if loads != [] {
      InitializedStays(s, loads[1..]);
    }
  }

  /** `getVerse(book, chapter, verse)` on the loaded books. */
  function GetVerse(data: seq<Book>, book: string, chapter: int, verse: int): (r: Result<VerseView, Error>)
    ensures (chapter <= 0 || verse <= 0) <==> r == Err(InvalidChapterOrVerse)
    ensures r == Err(BookNotFound) <==>
      chapter > 0 && verse > 0 && forall j :: 0 <= j < |data| ==> !KeyMatches(AbbrevOnly, data[j], book)
    ensures r == Err(ChapterNotFound) <==>
      && chapter > 0 && verse > 0 && FindBook(data, book, AbbrevOnly).Some?
      && chapter > |data[FindBook(data, book, AbbrevOnly).value].chapters|
    ensures r.Ok? <==>
      && chapter > 0 && verse > 0 && FindBook(data, book, AbbrevOnly).Some?
      && var b := data[FindBook(data, book, AbbrevOnly).value];
         && chapter <= |b.chapters| && verse <= |b.chapters[chapter - 1]|
         && b.chapters[chapter - 1][verse - 1] != ""
    ensures r.Ok? ==>
      && FindBook(data, book, AbbrevOnly).Some?
      && var b := data[FindBook(data, book, AbbrevOnly).value];
         && chapter <= |b.chapters| && verse <= |b.chapters[chapter - 1]|
         && r.value == VerseView(b.chapters[chapter - 1][verse - 1], verse)
         && r.value.text != ""
    ensures r.Err? ==> r.error in {InvalidChapterOrVerse, BookNotFound, ChapterNotFound, VerseNotFound}
  {
    if chapter <= 0 || verse <= 0 then Err(InvalidChapterOrVerse)
    else
      match FindBook(data, book, AbbrevOnly)
      case None => Err(BookNotFound)
      case Some(i) =>
        match ChapterAt(data[i], chapter)
        case None => Err(ChapterNotFound)
        case Some(texts) =>
          match VerseAt(texts, verse)
          case None => Err(VerseNotFound)
          case Some(text) => Ok(VerseView(text, verse))
  }

  /** `getChapter(book, chapterNum)` on the loaded books. */
  function GetChapter(data: seq<Book>, book: string, chapterNum: int): (r: Result<ChapterView, Error>)
    ensures chapterNum <= 0 <==> r == Err(InvalidChapter)
    ensures r == Err(BookNotFound) <==>
      chapterNum > 0 && forall j :: 0 <= j < |data| ==> !KeyMatches(AbbrevOnly, data[j], book)
    ensures r == Err(ChapterNotFound) <==>
      chapterNum > 0 && FindBook(data, book, AbbrevOnly).Some?
      && chapterNum > |data[FindBook(data, book, AbbrevOnly).value].chapters|
    ensures r.Ok? ==>
      && r.value.book == book && r.value.chapter == chapterNum
      && FindBook(data, book, AbbrevOnly).Some?
      && var b := data[FindBook(data, book, AbbrevOnly).value];
         && chapterNum <= |b.chapters|
         && |r.value.verses| == |b.chapters[chapterNum - 1]|
         && forall i :: 0 <= i < |r.value.verses| ==>
              r.value.verses[i] == NumberedVerse(i + 1, b.chapters[chapterNum - 1][i])
    ensures r.Err? ==> r.error in {InvalidChapter, BookNotFound, ChapterNotFound}
  {
    if chapterNum <= 0 then Err(InvalidChapter)
    else
      match FindBook(data, book, AbbrevOnly)
      case None => Err(BookNotFound)
      case Some(i) =>
        match ChapterAt(data[i], chapterNum)
        case None => Err(ChapterNotFound)
        case Some(texts) => Ok(ChapterView(book, chapterNum, Number(texts)))
  }

  /** For positive numbers a verse lookup is the chapter lookup followed by
      picking the verse: same errors, and the same text as the chapter's
      entry with that number, which must not be empty. */
  lemma VerseIsEntryOfChapter(data: seq<Book>, book: string, chapter: int, verse: int)
    requires chapter > 0 && verse > 0
    ensures GetChapter(data, book, chapter).Err? ==>
      GetVerse(data, book, chapter, verse) == Err(GetChapter(data, book, chapter).error)
    ensures GetChapter(data, book, chapter).Ok? ==>
      var vs := GetChapter(data, book, chapter).value.verses;
      GetVerse(data, book, chapter, verse) ==
        if verse <= |vs| && vs[verse - 1].text != "" then Ok(VerseView(vs[verse - 1].text, verse))
        else Err(VerseNotFound)
  {
  }

  /** `searchText(query)`: the matching verses, labelled with their book's
      abbreviation. */
  function SearchText(data: seq<Book>, query: string): (r: seq<Hit>)
    ensures |r| == |MatchingLocs(data, query)|
    ensures forall k :: 0 <= k < |r| ==>
      var l := MatchingLocs(data, query)[k];
      && l.book < |data| && l.chapter < |data[l.book].chapters|
      && l.verse < |data[l.book].chapters[l.chapter]|
      && r[k] == Hit(data[l.book].abbrev, l.chapter + 1, l.verse + 1, data[l.book].chapters[l.chapter][l.verse])
    ensures forall b, c, v ::
      (0 <= b < |data| && 0 <= c < |data[b].chapters| && 0 <= v < |data[b].chapters[c]|
       && Matches(data[b].chapters[c][v], query))
      ==> Hit(data[b].abbrev, c + 1, v + 1, data[b].chapters[c][v]) in r
  {
    forall b, c, v | 0 <= b < |data| && 0 <= c < |data[b].chapters| && 0 <= v < |data[b].chapters[c]|
      && Matches(data[b].chapters[c][v], query)
      ensures Hit(data[b].abbrev, c + 1, v + 1, data[b].chapters[c][v]) in Search(data, query, ByAbbrev)
    {
      SearchComplete(data, query, ByAbbrev, b, c, v);
    }
    Search(data, query, ByAbbrev)
  }

  /** The verse at 0-based position (b, c, v) is found under its book's
      abbreviation and its 1-based numbers, when the text is not empty. */
  lemma VerseFoundByAbbrev(data: seq<Book>, b: nat, c: nat, v: nat)
    requires LabelsIdentify(data, AbbrevOnly, ByAbbrev)
    requires b < |data| && c < |data[b].chapters| && v < |data[b].chapters[c]|
    requires data[b].chapters[c][v] != ""
    ensures GetVerse(data, data[b].abbrev, c + 1, v + 1) == Ok(VerseView(data[b].chapters[c][v], v + 1))
  {
    LabelFindsItsBook(data, AbbrevOnly, ByAbbrev, b);
    assert FindBook(data, data[b].abbrev, AbbrevOnly) == Some(b);
  }

  /** Search and lookup agree: when no two books share an abbreviation up to
      case, looking up a hit with a non-empty text returns that text. */
  lemma SearchHitIsVerse(data: seq<Book>, query: string, k: nat)
    requires LabelsIdentify(data, AbbrevOnly, ByAbbrev)
    ensures k < |SearchText(data, query)| && SearchText(data, query)[k].text != "" ==>
      var h := SearchText(data, query)[k];
      GetVerse(data, h.book, h.chapter, h.verse) == Ok(VerseView(h.text, h.verse))
  {
    var hits := SearchText(data, query);
    if k < |hits| && hits[k].text != "" {
      var l := MatchingLocs(data, query)[k];
      assert hits[k] == Hit(data[l.book].abbrev, l.chapter + 1, l.verse + 1, data[l.book].chapters[l.chapter][l.verse]);
      VerseFoundByAbbrev(data, l.book, l.chapter, l.verse);
    }
  }

  /** The name table of `getBookAbbrev`, keyed by lower-case full name. */
  const AbbrevTable: map<string, string> := map[
    "genesis" := "gn",
    "exodus" := "ex",
    "leviticus" := "lv",
    "numbers" := "nm",
    "deuteronomy" := "dt"]

  lemma AbbrevTableLowerCase()
    ensures forall k :: k in AbbrevTable ==> IsLowerCase(AbbrevTable[k])
    ensures forall k :: k in AbbrevTable ==> AbbrevTable[k] !in AbbrevTable
  {
  }

  /** `getBookAbbrev(fullName)`, reading only the table's own entries: a
      listed name, in any case, gives its code; any other input is returned
      lower-cased. */
  function BookAbbrev(fullName: string): (r: string)
    ensures Lower(fullName) in AbbrevTable ==> r == AbbrevTable[Lower(fullName)]
    ensures Lower(fullName) !in AbbrevTable ==> r == Lower(fullName)
    ensures IsLowerCase(r)
  {
    AbbrevTableLowerCase();
    var key := Lower(fullName);
    if key in AbbrevTable then AbbrevTable[key] else key
  }

  /** Applying `getBookAbbrev` to its own result changes nothing. */
  lemma BookAbbrevIdempotent(fullName: string)
    ensures BookAbbrev(BookAbbrev(fullName)) == BookAbbrev(fullName)
  {
    var r := BookAbbrev(fullName);
    LowerKeepsLowerCase(r);
    AbbrevTableLowerCase();
  }

  /** Members of `Object.prototype` whose names are all lower case, so that a
      lower-cased key can reach them through `bookMap[key]`. */
  const InheritedMembers: set<string> := {"constructor", "__proto__"}

  /** What `bookMap[key] || key` yields as written: a string, or an inherited
      prototype member (a function or an object), which is truthy. */
  datatype AbbrevValue = StringValue(s: string) | PrototypeMember(name: string)

  /** `getBookAbbrev` as written: `bookMap` is a plain object literal, so the
      lookup also sees the members it inherits. */
  function BookAbbrevAsWritten(fullName: string): (r: AbbrevValue)
    ensures r.PrototypeMember? <==> Lower(fullName) in InheritedMembers
    ensures r.StringValue? ==> r.s == BookAbbrev(fullName)
  {
    var key := Lower(fullName);
    if key in AbbrevTable then StringValue(AbbrevTable[key])
    else if key in InheritedMembers then PrototypeMember(key)
    else StringValue(key)
  }

  /** The input "Constructor" makes `getBookAbbrev` return `Object` itself. */
  lemma ConstructorIsNotAnAbbreviation()
    ensures BookAbbrevAsWritten("Constructor") == PrototypeMember("constructor")
    ensures BookAbbrev("Constructor") == "constructor"
  {
    assert Lower("Constructor") == "constructor";
  }

  /** One call of the service, in the order the source makes it. */
  datatype Query =
    | VerseQuery(book: string, chapter: int, verse: int)
    | ChapterQuery(book: string, chapterNum: int)
    | SearchQuery(query: string)

  datatype Answer = VerseAnswer(verse: VerseView) | ChapterAnswer(chapter: ChapterView) | SearchAnswer(hits: seq<Hit>)

  /** What a call computes on the loaded books. */
  function Respond(data: seq<Book>, q: Query): Result<Answer, Error> {
    match q
    case VerseQuery(b, c, v) =>
      (match GetVerse(data, b, c, v) case Ok(x) => Ok(VerseAnswer(x)) case Err(e) => Err(e))
    case ChapterQuery(b, c) =>
      (match GetChapter(data, b, c) case Ok(x) => Ok(ChapterAnswer(x)) case Err(e) => Err(e))
    case SearchQuery(t) => Ok(SearchAnswer(SearchText(data, t)))
  }

  /** A public call: `await this.initialize()` first, whose failure is thrown
      to the caller, then the query on the stored books. */
  function Serve(s: State, load: Load, q: Query): (r: (State, Result<Answer, Error>))
    ensures s.initialized ==> r == (s, Respond(s.data, q))
    ensures r.0.initialized ==> r.1 == Respond(r.0.data, q)
    ensures !r.0.initialized ==> r.0 == s && r.1.Err? && r.1.error in {LoadFailed, InvalidFormat}
    ensures r.0 == Initialize(s, load).0
    ensures Initialize(s, load).1.Fail? ==> r.1 == Err(Initialize(s, load).1.error)
  {
    var (s1, outcome) := Initialize(s, load);
    match outcome
    case Fail(e) => (s1, Err(e))
    case Pass => (s1, Respond(s1.data, q))
  }
}
