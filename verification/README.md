# Corpus access of the sageBibleAi reader, in Dafny

This project models the in-memory corpus access of the reader app. The
repository has three near-duplicate implementations of it, and the model
keeps each one separate:

- **app/services/bibleService.ts** (module `AppService`): loads a JSON array of
  books `{abbrev, name, chapters}`. Loading is guarded by a shape check on
  element 0 and an `initialized` flag. `getVerse` and `getChapter` reject
  non-positive numbers before any lookup. Books are found by abbreviation
  only, ignoring case. `searchText` labels each hit with the abbreviation.
  `getBookAbbrev` maps five full names to their codes.
- **src/services/bibleService.ts** (module `SrcService`): books are
  `{book, abbrev, chapters}`. `initialize` stores whatever document it reads,
  and every accessor throws "Bible data not initialized" while that data is
  falsy. Books are found by full name or abbreviation. There is no positivity
  check. Search hits carry the full name. `getBooks` and `getBookByIndex`
  expose the loaded list.
- **app/data/bible.ts** (module `Store`): a static object keyed by book name
  and then by chapter-number text, queried by `getChapter`, `getMaxChapter`
  and `searchBible`.

Shared pieces:

- `Text`: ASCII `toLowerCase` and `includes`.
- `Decimal`: `toString` and `parseInt` for integers.
- `Grid`: the books/chapters/verses walk every search performs.
- `Corpus`: the Book record, the errors, first-match book lookup, the
  truthiness tests on chapters and verses, chapter numbering, and search.
- `Document`: the JSON value the loaders read, JavaScript truthiness, and
  decoding to books.

Each thrown `Error` is a constructor of `Corpus.Error` inside a `Result`.

Each service is a state record (`initialized`, `data`). Each operation is a
pure function of that state. A public call (`Serve`) runs `initialize` first,
as the source's `await this.initialize()` does. The outcome of the file
system and asset reads is a parameter (`Document.Load`).

Three behaviours of the code worth knowing before reading the contracts:

- Every search scans every verse of every chapter of every book and returns
  every match, in book, chapter and verse order.
- src's `getChapter` answers "Chapter not found" for chapter numbers of 0 or
  less, because `chapters[-1]` and below are `undefined`.
- The app's shape check reads only element 0 of the document.

## Model

| member | source | states |
|---|---|---|
| Text.Lower | app/services/bibleService.ts:79 | `toLowerCase` keeps the length, lowers each character on its own, and leaves no A..Z in its result |
| Text.LowerIdempotent | app/services/bibleService.ts:174 | lowering an already-lowered string changes nothing |
| Text.IncludesIff | app/services/bibleService.ts:144 | the left-to-right prefix scan of `includes` succeeds exactly when the needle occurs at some offset of the haystack |
| Text.MatchesIgnoresCase | src/services/bibleService.ts:184 | the search test holds iff the lowered query occurs in the lowered text, and lowering either side first does not change its answer |
| Text.EmptyQueryMatchesEverything | app/services/bibleService.ts:144 | every verse text matches the empty query |
| Text.EmptyTextMatchesOnlyEmpty | app/services/bibleService.ts:144 | an empty verse text matches the empty query and no other |
| Decimal.ToDecimal | app/data/bible.ts:28 | the chapter key is a minus sign for negatives followed by decimal digits, with no leading zero except in "0" |
| Decimal.ParseInt | app/data/bible.ts:60 | a non-empty all-digit key reads as the number it spells; a result needs at least one digit; text that does not start with white space, a sign or a digit is `NaN` |
| Decimal.ParseIntOfDecimal | app/data/bible.ts:60 | `parseInt` reads back, as the same integer, every text that `toString` writes for an integer, negatives included |
| Decimal.ToDecimalInjective | app/data/bible.ts:28 | two different chapter numbers never have the same key text |
| Grid.Scan | app/services/bibleService.ts:141-143 | the nested walk keeps every position whose verse passes the test, and only those, each once, in book, then chapter, then verse order |
| Corpus.FindBook | app/services/bibleService.ts:78-80 | `find` returns the first book, in corpus order, that the key matches ignoring case, and returns nothing exactly when no book matches |
| Corpus.LabelFindsItsBook | src/services/bibleService.ts:99-102 | when no earlier book answers to a later book's label, looking a book up by its own label finds that book |
| Corpus.ChapterAt | app/services/bibleService.ts:83 | `chapters[n-1]` is truthy exactly for n in 1..length, even when that chapter is an empty array |
| Corpus.VerseAt | app/services/bibleService.ts:84 | `chapter[v-1]` is truthy exactly for v in 1..length with a non-empty text |
| Corpus.Number | app/services/bibleService.ts:120-123 | one entry per stored verse, entry i numbered i+1 and carrying the i-th text |
| Corpus.TextsOfNumber | src/services/bibleService.ts:148-151 | numbering loses nothing: removing the numbers gives back the stored chapter |
| Corpus.MatchingLocs | app/services/bibleService.ts:141-144 | the positions reported are exactly the verses whose lowered text contains the lowered query, in corpus order, with no position listed twice |
| Corpus.Search | src/services/bibleService.ts:181-194 | hit k is the k-th matching position, with its book's label, 1-based chapter and verse numbers, and the stored text |
| Corpus.SearchComplete | app/services/bibleService.ts:141-153 | every matching verse is reported under its book's label and its 1-based numbers |
| Corpus.EmptySearchListsEverything | app/services/bibleService.ts:144-150 | an empty query reports every verse of the corpus |
| Corpus.HitsOfNonEmptyQueryHaveText | app/services/bibleService.ts:144-149 | for a non-empty query, no hit has an empty text |
| Document.DecodeEncode | app/services/bibleService.ts:4-8 | reading the JSON document that describes a list of books gives that list back, whichever key the full-name field uses |
| AppService.FormatInspectsOnlyFirst | app/services/bibleService.ts:46 | the shape check's answer depends on element 0 alone |
| AppService.FormatRejectsEmptyAndNonArray | app/services/bibleService.ts:46-47 | a non-array or an empty array is rejected |
| AppService.FormatOkOfEncoded | app/services/bibleService.ts:46-48 | a document that describes books passes iff it has a first book and that book's abbreviation and name are non-empty |
| AppService.Initialize | app/services/bibleService.ts:19-67 | no-op once initialized; the call succeeds iff the flag ends set; a failed read or copy-back is "load failed" and a rejected shape is "Invalid Bible data format", each exactly in its case and each leaving the state unchanged; an accepted document is stored, non-empty, and sets the flag |
| AppService.InitializeAtMostOnce | app/services/bibleService.ts:19-62 | after any run of calls the service holds the first accepted document, or is unchanged and uninitialized if none was accepted |
| AppService.InitializedStays | app/services/bibleService.ts:20 | once initialized, any further calls leave the state as it is |
| AppService.GetVerse | app/services/bibleService.ts:70-94 | "Invalid chapter or verse number" iff a number is ≤ 0, checked before the book. "Book not found" iff the numbers are positive and no abbreviation matches. "Chapter not found" iff the book is found and the chapter is past its last. The call succeeds iff the verse is in range and its text is non-empty; then it returns the first matching book's stored text, with `verse` echoed |
| AppService.GetChapter | app/services/bibleService.ts:96-134 | "Invalid chapter number" iff chapterNum ≤ 0. "Book not found" and "Chapter not found" exactly in their cases. On success, the caller's book and chapterNum echoed, with one numbered entry per stored verse |
| AppService.VerseIsEntryOfChapter | app/services/bibleService.ts:83-123 | for positive numbers, `getVerse` fails with `getChapter`'s error, or returns the text of the chapter entry with that number, or "Verse not found" when there is none or it is empty |
| AppService.SearchText | app/services/bibleService.ts:136-161 | the hits are the matching verses in corpus order, labelled with the abbreviation, and every matching verse is among them |
| AppService.VerseFoundByAbbrev | app/services/bibleService.ts:78-89 | with abbreviations distinct up to case, every non-empty verse is returned by `getVerse` under its book's abbreviation and 1-based numbers |
| AppService.SearchHitIsVerse | app/services/bibleService.ts:141-150 | with abbreviations distinct up to case, looking up any hit with a non-empty text returns that text |
| AppService.AbbrevTableLowerCase | app/services/bibleService.ts:165-171 | every code in the table is lower case, and no code is itself a key of the table |
| AppService.BookAbbrev | app/services/bibleService.ts:164-175 | a listed name, in any case, gives its code; any other input comes back lower-cased; the result is always lower case |
| AppService.BookAbbrevIdempotent | app/services/bibleService.ts:174 | applying `getBookAbbrev` to its own result changes nothing |
| AppService.BookAbbrevAsWritten | app/services/bibleService.ts:165-174 | the lookup as written yields an inherited prototype member exactly for the lowered names "constructor" and "__proto__", and agrees with the intended result on all other inputs |
| AppService.ConstructorIsNotAnAbbreviation | app/services/bibleService.ts:174 | on input "Constructor" the code as written returns a prototype member, where the intended result is "constructor" |
| AppService.Serve | app/services/bibleService.ts:70-72 | a call first runs `initialize`: it leaves the state `Initialize` leaves and fails with `Initialize`'s error when that fails; it answers from the stored books whenever the service ends initialized; otherwise the state is unchanged and the call fails with the load or shape error |
| SrcService.Stored | src/services/bibleService.ts:50-68 | `bibleData` holds books exactly when the document read is truthy |
| SrcService.Initialize | src/services/bibleService.ts:28-87 | no-op once initialized; the call succeeds iff the flag ends set; a failed read changes nothing; a successful read stores the document and sets the flag whatever the document is; a failed copy-back leaves the document assigned but the flag down |
| SrcService.GetVerse | src/services/bibleService.ts:89-121 | "not initialized" iff the data is null. "Book not found" iff no name or abbreviation matches. "Chapter not found" iff the book is found and the chapter is outside 1..length, so also for a chapter ≤ 0. The call succeeds iff the verse is in range and its text is non-empty; then it returns the first matching book's stored text, with `verse` echoed |
| SrcService.GetChapter | src/services/bibleService.ts:123-162 | "Chapter not found" iff the book is found and chapterNum is outside 1..length (including ≤ 0). On success, the caller's book and chapterNum echoed, with one numbered entry per stored verse |
| SrcService.VerseIsEntryOfChapter | src/services/bibleService.ts:106-157 | `getVerse` fails with `getChapter`'s error, or returns the text of the chapter entry with that number, or "Verse not found" |
| SrcService.SearchText | src/services/bibleService.ts:164-206 | fails iff the data is null; otherwise the hits are the matching verses in corpus order, labelled with the full name, and every matching verse is among them |
| SrcService.VerseFoundByName | src/services/bibleService.ts:99-116 | when no book answers to a later book's full name, every non-empty verse is returned under its book's name and 1-based numbers |
| SrcService.SearchHitIsVerse | src/services/bibleService.ts:181-194 | under the same condition, looking up any hit with a non-empty text returns that text |
| SrcService.GetBooks | src/services/bibleService.ts:208-214 | the loaded list unchanged, or "not initialized" iff the data is null |
| SrcService.GetBookByIndex | src/services/bibleService.ts:216-222 | the book at the index, or `undefined` (not an error) for an index outside 0..length-1 |
| SrcService.BookByIndexIsElementOfBooks | src/services/bibleService.ts:208-222 | `getBookByIndex` agrees with the list `getBooks` returns, and fails exactly when it fails |
| SrcService.Respond | src/services/bibleService.ts:93-95 | every query fails with "Bible data not initialized" while the data is null |
| SrcService.Serve | src/services/bibleService.ts:89-90 | a call first runs `initialize`: it leaves the state `Initialize` leaves and fails with `Initialize`'s error when that fails; it answers from the stored data whenever the service ends initialized; otherwise it fails with the load error |
| SrcService.NullDocumentIsPermanent | src/services/bibleService.ts:64-95 | a document that reads as null sets the flag without storing books, so every later call fails with "not initialized", whatever is loaded |
| Store.Get | app/data/bible.ts:29 | a key lookup on the object is undefined exactly when the key is not among the object's keys; otherwise it gives a value stored under that key |
| Store.GetChapter | app/data/bible.ts:26-40 | non-null iff the book is a key (case-sensitive) and the chapter's decimal text is a key of that book. The verses are the stored list unchanged, and the reference is the book, a space, and the chapter's decimal text |
| Store.ReferenceNamesChapter | app/data/bible.ts:32 | the reference starts with the book name and a space, and the rest parses back to the chapter number |
| Store.GetMaxChapter | app/data/bible.ts:42-48 | the number of chapter keys for a stored book, and 0 for any other name |
| Store.MaxChapterBoundsChapters | app/data/bible.ts:28-48 | for a book whose chapters are keyed "1".."n", `getChapter` succeeds for exactly the chapters 1..getMaxChapter |
| Store.MatchingEntries | app/data/bible.ts:54-57 | the positions reported are exactly the stored verse objects whose lowered text contains the lowered query, in entry order, with no position listed twice |
| Store.SearchBible | app/data/bible.ts:50-69 | result k takes the book from the key, the chapter from `parseInt` of the chapter key, and the verse number and text from the stored object, and its text matches |
| Store.SearchBibleComplete | app/data/bible.ts:54-64 | every stored verse object whose text matches is among the results |
| Store.SearchHitsAreInChapters | app/data/bible.ts:28-63 | with distinct keys and canonical chapter keys, `getChapter` with a result's book and chapter returns the list holding the matched verse |
| Store.KjvLookups | app/data/bible.ts:14-24 | on the shipped data, Genesis has one chapter, found as "Genesis 1"; the lower-case "genesis", chapter 2 and Exodus are absent |

## Findings

| source | as written | input that shows it | evidently intended | confidence | as-written member | corrected member |
|---|---|---|---|---|---|---|
| app/services/bibleService.ts:165-174 | the name table is a plain object literal, so indexing it with the lowered name also finds members inherited from `Object.prototype`, which are truthy and win over the fallback | `getBookAbbrev("Constructor")` returns the `Object` constructor function, not a string (likewise "__proto__") | return the lowered input, "constructor" | high; not executed | AppService.BookAbbrevAsWritten | AppService.BookAbbrev |

## Left out

- File system, `require`, `JSON.parse`, the cached-copy write and logging: the outcome of the reads and write is the `Load` parameter (`Loaded`, `ReadFailed`, `CopyFailed`).
- `async`/`await`: every call is treated as sequential, so two overlapping `initialize` calls are not modelled.
- Document.DecodeCorpus: a field of the wrong JSON type reads as empty (`""` for a name or verse, `[]` for a chapter list or chapter). The source keeps the raw value, so the model differs from it on such documents:
  - a `null` chapter is falsy, and the source answers "Chapter not found" for it; the model reads it as `[]`, so `GetChapter` returns no verses and `GetVerse` answers "Verse not found";
  - a truthy verse that is not a string, such as `7`, is returned by the source's `getVerse`; the model answers "Verse not found";
  - in src, a truthy document that is not an array, such as `{}`, is returned by `getBooks` and makes `find` throw a `TypeError`; the model answers `Ok([])` and "Book not found";
  - a book without a string `abbrev` (app) makes the source's `toLowerCase()` throw a `TypeError`; in src the same happens when `book` is not a string, or when `abbrev` is not a string and the full name did not match (src/services/bibleService.ts:99-102); the model compares against `""`;
  - `searchText` throws a `TypeError` on any verse that is not a string and on any chapter that is not an array, anywhere in the corpus (`verse.toLowerCase()` and `chapter.forEach` at app/services/bibleService.ts:142-144 and src/services/bibleService.ts:182-184); the model skips such a verse, or reports it with text `""` for the empty query;
  - `getChapter` throws a `TypeError` on a truthy chapter that is not an array (`chapter.slice` and `chapter.map` at app/services/bibleService.ts:118-120 and src/services/bibleService.ts:145-147); the model returns the chapter with no verses.
- SrcService.Initialize: after assigning the document, the source logs the first verses of the first book (src/services/bibleService.ts:55-58 and 72-75). That logging throws a `TypeError` when the first chapter is a truthy value that is neither a string nor an array (a number, `true` or a non-array object), and, for a document read from the file, also when it is missing, `null`, `0` or `false` while the chapter list is truthy (an empty string has `slice` and does not throw); then the flag stays down with the document assigned. The model treats logging as free of effects and sets the flag.
- AppService.Initialize: after the shape check passes and the document is assigned, the log at app/services/bibleService.ts:59 calls `firstBook.chapters[0]?.slice(0, 3)`, which throws a `TypeError` when the first chapter is a number, a boolean or a non-array object. With `[{"abbrev":"gn","name":"Genesis","chapters":[5]}]` the source therefore never initializes and keeps that document in `bibleData`; the model accepts it, and every failure the model raises leaves the state unchanged.
- Chapter and verse numbers are integers. Fractional numbers, `NaN` and JavaScript's floating-point range are not modelled. JSON numbers are integers too.
- Text.Lower: only ASCII A..Z are lowered; Unicode case mapping is not modelled.
- Decimal.ParseInt: the `0x` hexadecimal prefix and non-ASCII white space are not modelled. Neither occurs in a chapter key written by `toString`.
- Decimal.ToDecimal: the exponent notation `toString` uses from 10^21 upward is not modelled.
- Store.Get: only own keys are read. An inherited member such as `bibleDatabaseKJV["constructor"]` is truthy, but its chapter lookup is `undefined` and `Object.keys` of it is empty. It therefore behaves exactly like an unknown book.
- Store: a JavaScript object is an entry list taken to be already in `Object.entries` order. The rule that integer-like keys come first, in ascending order, is not derived.
- app/utils/downloadManager.ts, app/utils/bibleStorage.ts, app/context/BibleContext.tsx and all React components are network, storage, timer and UI code with no pure logic to prove.
