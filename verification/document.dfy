/** The corpus document as the services receive it from `require` or
    `JSON.parse`: a JSON value, the JavaScript truthiness and property reads
    the shape checks use on it, and its reading into books. */
module Document {
  import opened Base
  import opened Corpus

  /** A parsed JSON value. Numbers are integers here. */
  datatype Json =
    | Null
    | Bool(b: bool)
    | Num(n: int)
    | Str(s: string)
    | Arr(items: seq<Json>)
    | Obj(fields: map<string, Json>)

  /** JavaScript truthiness: `null`, `false`, `0` and `""` are falsy;
      every array and object, empty or not, is truthy. */
  predicate Truthy(j: Json) {
    match j
    case Null => false
    case Bool(b) => b
    case Num(n) => n != 0
    case Str(s) => s != ""
    case Arr(_) => true
    case Obj(_) => true
  }

  /** `o?.key`: `undefined` unless `o` is an object holding `key`. */
  function Prop(o: Option<Json>, key: string): (r: Option<Json>)
    ensures r.Some? <==> o.Some? && o.value.Obj? && key in o.value.fields
  {
    if o.Some? && o.value.Obj? && key in o.value.fields then Some(o.value.fields[key]) else None
  }

  /** `!!v` for a value that may be `undefined`. */
  predicate TruthyValue(o: Option<Json>) {
    o.Some? && Truthy(o.value)
  }

  /** `Array.isArray(v)` for a value that may be `undefined`. */
  predicate IsArray(o: Option<Json>) {
    o.Some? && o.value.Arr?
  }

  /** How loading the document ended: it was read (from the bundled asset or
      from the cached file), reading or parsing threw, or the asset was read
      but writing its cached copy threw. */
  datatype Load = Loaded(doc: Json) | ReadFailed | CopyFailed(doc: Json)

  function StringOf(o: Option<Json>): string {
    if o.Some? && o.value.Str? then o.value.s else ""
  }

  function VerseOf(j: Json): string {
    if j.Str? then j.s else ""
  }

  function ChapterOf(j: Json): seq<string> {
    if j.Arr? then seq(|j.items|, i requires 0 <= i < |j.items| => VerseOf(j.items[i])) else []
  }

  function ChaptersOf(o: Option<Json>): seq<seq<string>> {
    if IsArray(o) then seq(|o.value.items|, i requires 0 <= i < |o.value.items| => ChapterOf(o.value.items[i]))
    else []
  }

  /** The book an element of the document describes; `nameKey` is the JSON key
      of the full-name field. A field of the wrong JSON type reads as empty. */
  function BookOf(j: Json, nameKey: string): Book {
    Book(StringOf(Prop(Some(j), "abbrev")), StringOf(Prop(Some(j), nameKey)), ChaptersOf(Prop(Some(j), "chapters")))
  }

  /** The books a document describes, in document order. */
  function DecodeCorpus(doc: Json, nameKey: string): (r: seq<Book>)
    ensures doc.Arr? ==> |r| == |doc.items|
  {
    if doc.Arr? then seq(|doc.items|, i requires 0 <= i < |doc.items| => BookOf(doc.items[i], nameKey)) else []
  }

  function ChapterJson(texts: seq<string>): Json {
    Arr(seq(|texts|, i requires 0 <= i < |texts| => Str(texts[i])))
  }

  function BookJson(b: Book, nameKey: string): Json {
    Obj(map[
      "abbrev" := Str(b.abbrev),
      nameKey := Str(b.name),
      "chapters" := Arr(seq(|b.chapters|, i requires 0 <= i < |b.chapters| => ChapterJson(b.chapters[i])))])
  }

  /** The document that describes `books`: `[{abbrev, <nameKey>, chapters}, ...]`. */
  function EncodeCorpus(books: seq<Book>, nameKey: string): Json {
    Arr(seq(|books|, i requires 0 <= i < |books| => BookJson(books[i], nameKey)))
  }

  lemma BookOfBookJson(b: Book, nameKey: string)
    requires nameKey != "abbrev" && nameKey != "chapters"
    ensures BookOf(BookJson(b, nameKey), nameKey) == b
  {
    var j := BookJson(b, nameKey);
    assert Prop(Some(j), "abbrev") == Some(Str(b.abbrev));
    assert Prop(Some(j), nameKey) == Some(Str(b.name));
    var cs := ChaptersOf(Prop(Some(j), "chapters"));
    assert |cs| == |b.chapters|;
    forall i | 0 <= i < |b.chapters|
      ensures cs[i] == b.chapters[i]
    {
      assert cs[i] == ChapterOf(ChapterJson(b.chapters[i]));
    }
  }

  /** Reading the document that describes `books` gives `books` back, for
      either name of the full-name field. */
  lemma {:induction false} DecodeEncode(books: seq<Book>, nameKey: string)
    requires nameKey != "abbrev" && nameKey != "chapters"
    ensures DecodeCorpus(EncodeCorpus(books, nameKey), nameKey) == books
  {
    var r := DecodeCorpus(EncodeCorpus(books, nameKey), nameKey);
    forall i | 0 <= i < |books|
      ensures r[i] == books[i]
    {
      BookOfBookJson(books[i], nameKey);
    }
  }
}
