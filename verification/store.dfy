/** The static chapter store of app/data/bible.ts: a JavaScript object keyed by
    book name, each value an object keyed by the chapter number's decimal
    text, each value an array of `{verse, text}` objects. A JavaScript object
    is modelled as its own entries in `Object.entries` order. */
module Store {
  import opened Base
  import opened Text
  import opened Grid
  import opened Decimal

  datatype VerseEntry = VerseEntry(verse: int, text: string)

  /** An object's own (key, value) entries, in enumeration order. */
  type Entries<V> = seq<(string, V)>

  /** Book name -> chapter key -> verses. */
  type Database = Entries<Entries<seq<VerseEntry>>>

  /** Object keys never repeat. */
  predicate DistinctKeys<V>(e: Entries<V>) {
    forall i, j :: 0 <= i < j < |e| ==> e[i].0 != e[j].0
  }

  function KeySet<V>(e: Entries<V>): set<string> {
    set i | 0 <= i < |e| :: e[i].0
  }

  function IndexFrom<V>(e: Entries<V>, key: string, from: nat): (r: Option<nat>)
    requires from <= |e|
    ensures r.Some? ==> from <= r.value < |e| && e[r.value].0 == key
    ensures r.None? ==> forall j :: from <= j < |e| ==> e[j].0 != key
    decreases |e| - from
  {
    if from == |e| then None
    else if e[from].0 == key then Some(from)
    else IndexFrom(e, key, from + 1)
  }

  /** `obj[key]` restricted to own properties: the value under `key`, or
      `undefined` when the object has no such key. */
  function Get<V>(e: Entries<V>, key: string): (r: Option<V>)
    ensures r.None? <==> key !in KeySet(e)
    ensures r.Some? ==> exists i :: 0 <= i < |e| && e[i].0 == key && e[i].1 == r.value
  {
    match IndexFrom(e, key, 0)
    case None => None
    case Some(i) => Some(e[i].1)
  }

  /** With distinct keys, each entry's key reads back that entry's value. */
  lemma GetOwnEntry<V>(e: Entries<V>, i: nat)
    requires DistinctKeys(e) && i < |e|
    ensures Get(e, e[i].0) == Some(e[i].1)
  {
    var j :| 0 <= j < |e| && e[j].0 == e[i].0 && e[j].1 == Get(e, e[i].0).value;
    assert !(j < i) && !(i < j);
  }

  /** What `getChapter` returns when it finds the chapter. */
  datatype ChapterRef = ChapterRef(verses: seq<VerseEntry>, reference: string)

  /** `getChapter(book, chapter)`: non-null exactly when `book` is a key of the
      store (case matters) and `chapter.toString()` is a key of that book. */
  function GetChapter(db: Database, book: string, chapter: int): (r: Option<ChapterRef>)
    ensures book !in KeySet(db) ==> r.None?
    ensures book in KeySet(db) ==> (r.Some? <==> ToDecimal(chapter) in KeySet(Get(db, book).value))
    ensures r.Some? ==> r.value.verses == Get(Get(db, book).value, ToDecimal(chapter)).value
    ensures r.Some? ==> r.value.reference == book + " " + ToDecimal(chapter)
  {
    var chapterKey := ToDecimal(chapter);
    match Get(db, book)
    case None => None
    case Some(chapters) =>
      match Get(chapters, chapterKey)
      case None => None
      case Some(verses) => Some(ChapterRef(verses, book + " " + chapterKey))
  }

  /** The reference names the book and, after one space, a number that
      `parseInt` reads back as the chapter asked for. */
  lemma ReferenceNamesChapter(db: Database, book: string, chapter: int)
    requires GetChapter(db, book, chapter).Some?
    ensures var reference := GetChapter(db, book, chapter).value.reference;
      && |reference| > |book| + 1
      && reference[..|book|] == book && reference[|book|] == ' '
      && ParseInt(reference[|book| + 1..]) == Some(chapter)
  {
    var key := ToDecimal(chapter);
    var reference := GetChapter(db, book, chapter).value.reference;
    assert reference == book + " " + key;
    assert reference[..|book|] == book;
    assert reference[|book| + 1..] == key;
    ParseIntOfDecimal(chapter);
  }

  /** `getMaxChapter(book)`: the number of chapter keys of a stored book, and
      0 for any other name (the `TypeError` of `Object.keys(undefined)` is
      caught). */
  function GetMaxChapter(db: Database, book: string): (r: nat)
    ensures book !in KeySet(db) ==> r == 0
    ensures book in KeySet(db) ==> r == |Get(db, book).value|
  {
    match Get(db, book)
    case None => 0
    case Some(chapters) => |chapters|
  }

  /** The chapters of a book are keyed "1", "2", ... in order. */
  predicate NumberedChapters(chapters: Entries<seq<VerseEntry>>) {
    forall j :: 0 <= j < |chapters| ==> chapters[j].0 == ToDecimal(j + 1)
  }

  /** For a book whose chapters are keyed "1".."n", `getChapter` succeeds for
      exactly the chapters 1..getMaxChapter(book). */
  lemma MaxChapterBoundsChapters(db: Database, book: string, chapter: int)
    requires book in KeySet(db) && NumberedChapters(Get(db, book).value)
    ensures GetChapter(db, book, chapter).Some? <==> 1 <= chapter <= GetMaxChapter(db, book)
  {
    var chapters := Get(db, book).value;
    if 1 <= chapter <= |chapters| {
      assert chapters[chapter - 1].0 == ToDecimal(chapter);
      assert ToDecimal(chapter) in KeySet(chapters);
    }
    if ToDecimal(chapter) in KeySet(chapters) {
      var j :| 0 <= j < |chapters| && chapters[j].0 == ToDecimal(chapter);
      ToDecimalInjective(j + 1, chapter);
    }
  }

  /** One `searchBible` result; `chapter` is `None` where `parseInt` gives `NaN`. */
  datatype StoreHit = StoreHit(book: string, chapter: Option<int>, verse: int, text: string)

  /** The store as a books/chapters/verses grid, keys dropped. */
  function Entries3(db: Database): (g: seq<seq<seq<VerseEntry>>>)
    ensures |g| == |db|
    ensures forall b :: 0 <= b < |db| ==> |g[b]| == |db[b].1|
    ensures forall b, c :: 0 <= b < |db| && 0 <= c < |db[b].1| ==> g[b][c] == db[b].1[c].1
  {
    seq(|db|, b requires 0 <= b < |db| => seq(|db[b].1|, c requires 0 <= c < |db[b].1| => db[b].1[c].1))
  }

  /** The positions of the matching verse objects: every one, each once, in
      entry order. */
  function MatchingEntries(db: Database, query: string): (r: seq<Loc>)
    ensures forall l :: l in r <==> Valid(Entries3(db), l) && Matches(At(Entries3(db), l).text, query)
    ensures Ordered(r)
    ensures forall i, j :: 0 <= i < |r| && 0 <= j < |r| && i != j ==> r[i] != r[j]
  {
    var locs := Scan(Entries3(db), (e: VerseEntry) => Matches(e.text, query));
    OrderedImpliesDistinct(locs);
    locs
  }

  /** `searchBible(query)`: one result per stored verse object whose text
      matches, taking the book from the key, the chapter from `parseInt` of
      the chapter key, and the verse number and text from the object itself. */
  function SearchBible(db: Database, query: string): (r: seq<StoreHit>)
    ensures |r| == |MatchingEntries(db, query)|
    ensures forall k :: 0 <= k < |r| ==>
      var l := MatchingEntries(db, query)[k];
      && l.book < |db| && l.chapter < |db[l.book].1| && l.verse < |db[l.book].1[l.chapter].1|
      && var e := db[l.book].1[l.chapter].1[l.verse];
         r[k] == StoreHit(db[l.book].0, ParseInt(db[l.book].1[l.chapter].0), e.verse, e.text)
    ensures forall k :: 0 <= k < |r| ==> Matches(r[k].text, query)
  {
    var g := Entries3(db);
    var locs := MatchingEntries(db, query);
    assert forall k :: 0 <= k < |locs| ==> locs[k] in locs;
    seq(|locs|, k requires 0 <= k < |locs| =>
      StoreHit(db[locs[k].book].0, ParseInt(db[locs[k].book].1[locs[k].chapter].0),
               At(g, locs[k]).verse, At(g, locs[k]).text))
  }

  /** Every stored verse object whose text matches appears among the results. */
  lemma {:induction false} SearchBibleComplete(db: Database, query: string, b: nat, c: nat, v: nat)
    requires b < |db| && c < |db[b].1| && v < |db[b].1[c].1|
    requires Matches(db[b].1[c].1[v].text, query)
    ensures var e := db[b].1[c].1[v];
      StoreHit(db[b].0, ParseInt(db[b].1[c].0), e.verse, e.text) in SearchBible(db, query)
  {
    var l := Loc(b, c, v);
    var locs := MatchingEntries(db, query);
    assert Valid(Entries3(db), l) && At(Entries3(db), l) == db[b].1[c].1[v];
    assert l in locs;
    var k :| 0 <= k < |locs| && locs[k] == l;
    assert SearchBible(db, query)[k] == StoreHit(db[b].0, ParseInt(db[b].1[c].0), db[b].1[c].1[v].verse, db[b].1[c].1[v].text);
  }

  /** A chapter key is the decimal text of the number `parseInt` reads from it. */
  predicate CanonicalKey(key: string) {
    ParseInt(key).Some? && ToDecimal(ParseInt(key).value) == key
  }

  /** Keys never repeat, and every chapter key is canonical. */
  predicate WellKeyed(db: Database) {
    && DistinctKeys(db)
    && (forall b :: 0 <= b < |db| ==> DistinctKeys(db[b].1))
    && (forall b, c :: 0 <= b < |db| && 0 <= c < |db[b].1| ==> CanonicalKey(db[b].1[c].0))
  }

  /** Search and lookup agree: in a well-keyed store, `getChapter` with a
      result's book and chapter returns the list holding the matched verse. */
  lemma {:induction false} SearchHitsAreInChapters(db: Database, query: string)
    requires WellKeyed(db)
    ensures forall k :: 0 <= k < |SearchBible(db, query)| ==>
      var h := SearchBible(db, query)[k];
      && h.chapter.Some?
      && GetChapter(db, h.book, h.chapter.value).Some?
      && VerseEntry(h.verse, h.text) in GetChapter(db, h.book, h.chapter.value).value.verses
  {
    var r := SearchBible(db, query);
    forall k | 0 <= k < |r|
      ensures r[k].chapter.Some?
      ensures GetChapter(db, r[k].book, r[k].chapter.value).Some?
      ensures VerseEntry(r[k].verse, r[k].text) in GetChapter(db, r[k].book, r[k].chapter.value).value.verses
    {
      var l := MatchingEntries(db, query)[k];
      var key := db[l.book].1[l.chapter].0;
      var e := db[l.book].1[l.chapter].1[l.verse];
      assert r[k] == StoreHit(db[l.book].0, ParseInt(key), e.verse, e.text);
      assert CanonicalKey(key);
      GetOwnEntry(db, l.book);
      GetOwnEntry(db[l.book].1, l.chapter);
      assert ToDecimal(ParseInt(key).value) == key;
      assert GetChapter(db, r[k].book, r[k].chapter.value) == Some(ChapterRef(db[l.book].1[l.chapter].1, db[l.book].0 + " " + key));
      assert e == db[l.book].1[l.chapter].1[l.verse];
    }
  }

  /** The store as the source ships it: Genesis 1, verses 1 and 2. */
  const Kjv: Database := [
    ("Genesis", [
      ("1", [
        VerseEntry(1, "In the beginning God created the heaven and the earth."),
        VerseEntry(2, "And the earth was without form, and void; and darkness was upon the face of the deep...")
      ])
    ])
  ]

  /** On the shipped store: Genesis has one chapter, found as "Genesis 1";
      book names are case-sensitive; chapter 2 is absent. */
  lemma KjvLookups()
    ensures GetMaxChapter(Kjv, "Genesis") == 1
    ensures GetChapter(Kjv, "Genesis", 1) == Some(ChapterRef(Kjv[0].1[0].1, "Genesis 1"))
    ensures GetChapter(Kjv, "genesis", 1).None?
    ensures GetChapter(Kjv, "Genesis", 2).None?
    ensures GetMaxChapter(Kjv, "Exodus") == 0
  {
    assert ToDecimal(1) == "1";
    assert ToDecimal(2) == "2";
    assert IndexFrom(Kjv, "Genesis", 0) == Some(0);
    assert IndexFrom(Kjv[0].1, "1", 0) == Some(0);
    assert Get(Kjv, "Genesis") == Some(Kjv[0].1);
    assert Get(Kjv[0].1, "1") == Some(Kjv[0].1[0].1);
    assert "Genesis" + " " + "1" == "Genesis 1";
    assert IndexFrom(Kjv[0].1, "2", 0) == None;
    assert IndexFrom(Kjv, "genesis", 0) == None;
    assert IndexFrom(Kjv, "Exodus", 0) == None;
  }
}
