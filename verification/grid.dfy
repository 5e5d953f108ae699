/** The three-level walk every search of the reader performs: over books, then
    over each book's chapters, then over each chapter's verses, keeping the
    positions whose verse passes a test. Positions are 0-based indices; the
    callers turn them into the 1-based numbers they report. */
module Grid {

  /** Position of one verse: book index, chapter index, verse index. */
  datatype Loc = Loc(book: nat, chapter: nat, verse: nat)

  predicate Valid<T>(g: seq<seq<seq<T>>>, l: Loc) {
    l.book < |g| && l.chapter < |g[l.book]| && l.verse < |g[l.book][l.chapter]|
  }

  function At<T>(g: seq<seq<seq<T>>>, l: Loc): T
    requires Valid(g, l)
  {
    g[l.book][l.chapter][l.verse]
  }

  /** Reading order: by book, then chapter, then verse. */
  predicate Before(a: Loc, b: Loc) {
    || a.book < b.book
    || (a.book == b.book && a.chapter < b.chapter)
    || (a.book == b.book && a.chapter == b.chapter && a.verse < b.verse)
  }

  /** Strictly increasing in reading order, hence free of repetitions. */
  predicate Ordered(s: seq<Loc>) {
    forall i, j :: 0 <= i < j < |s| ==> Before(s[i], s[j])
  }

  lemma OrderedAppend(a: seq<Loc>, b: seq<Loc>)
    requires Ordered(a) && Ordered(b)
    requires forall x, y :: x in a && y in b ==> Before(x, y)
    ensures Ordered(a + b)
  {
    forall i, j | 0 <= i < j < |a + b|
      ensures Before((a + b)[i], (a + b)[j])
    {
      if j < |a| {
        assert (a + b)[i] == a[i] && (a + b)[j] == a[j];
      } else if i >= |a| {
        assert (a + b)[i] == b[i - |a|] && (a + b)[j] == b[j - |a|];
      } else {
        assert (a + b)[i] in a && (a + b)[j] in b;
      }
    }
  }

  lemma OrderedImpliesDistinct(s: seq<Loc>)
    requires Ordered(s)
    ensures forall i, j :: 0 <= i < |s| && 0 <= j < |s| && i != j ==> s[i] != s[j]
  {
    forall i, j | 0 <= i < |s| && 0 <= j < |s| && i != j
      ensures s[i] != s[j]
    {
      if i < j { assert Before(s[i], s[j]); } else { assert Before(s[j], s[i]); }
    }
  }

  /** The passing verses among the first `n` of chapter `c` of book `b`. */
  function ScanVerses<T>(g: seq<seq<seq<T>>>, keep: T -> bool, b: nat, c: nat, n: nat): (r: seq<Loc>)
    requires b < |g| && c < |g[b]| && n <= |g[b][c]|
    ensures forall l :: l in r ==> l.book == b && l.chapter == c && l.verse < n
    ensures forall l :: l in r ==> Valid(g, l) && keep(At(g, l))
    ensures Ordered(r)
    decreases n
  {
    if n == 0 then []
    else
      var prefix := ScanVerses(g, keep, b, c, n - 1);
      var here := Loc(b, c, n - 1);
      var last := if keep(At(g, here)) then [here] else [];
      OrderedAppend(prefix, last);
      prefix + last
  }

  /** The passing verses in the first `n` chapters of book `b`. */
  function ScanChapters<T>(g: seq<seq<seq<T>>>, keep: T -> bool, b: nat, n: nat): (r: seq<Loc>)
    requires b < |g| && n <= |g[b]|
    ensures forall l :: l in r ==> l.book == b && l.chapter < n
    ensures forall l :: l in r ==> Valid(g, l) && keep(At(g, l))
    ensures Ordered(r)
    decreases n
  {
    if n == 0 then []
    else
      var prefix := ScanChapters(g, keep, b, n - 1);
      var last := ScanVerses(g, keep, b, n - 1, |g[b][n - 1]|);
      OrderedAppend(prefix, last);
      prefix + last
  }

  /** The passing verses in the first `n` books. */
  function ScanBooks<T>(g: seq<seq<seq<T>>>, keep: T -> bool, n: nat): (r: seq<Loc>)
    requires n <= |g|
    ensures forall l :: l in r ==> l.book < n
    ensures forall l :: l in r ==> Valid(g, l) && keep(At(g, l))
    ensures Ordered(r)
    decreases n
  {
    if n == 0 then []
    else
      var prefix := ScanBooks(g, keep, n - 1);
      var last := ScanChapters(g, keep, n - 1, |g[n - 1]|);
      OrderedAppend(prefix, last);
      prefix + last
  }

  lemma {:induction false} ScanVersesComplete<T>(g: seq<seq<seq<T>>>, keep: T -> bool, b: nat, c: nat, n: nat, l: Loc)
    requires b < |g| && c < |g[b]| && n <= |g[b][c]|
    requires l.book == b && l.chapter == c && l.verse < n && keep(At(g, l))
    ensures l in ScanVerses(g, keep, b, c, n)
    decreases n
  {
    if l.verse < n - 1 {
      ScanVersesComplete(g, keep, b, c, n - 1, l);
    }
  }

  lemma {:induction false} ScanChaptersComplete<T>(g: seq<seq<seq<T>>>, keep: T -> bool, b: nat, n: nat, l: Loc)
    requires b < |g| && n <= |g[b]|
    requires Valid(g, l) && l.book == b && l.chapter < n && keep(At(g, l))
    ensures l in ScanChapters(g, keep, b, n)
    decreases n
  {
    if l.chapter < n - 1 {
      ScanChaptersComplete(g, keep, b, n - 1, l);
    } else {
      ScanVersesComplete(g, keep, b, n - 1, |g[b][n - 1]|, l);
    }
  }

  lemma {:induction false} ScanBooksComplete<T>(g: seq<seq<seq<T>>>, keep: T -> bool, n: nat, l: Loc)
    requires n <= |g|
    requires Valid(g, l) && l.book < n && keep(At(g, l))
    ensures l in ScanBooks(g, keep, n)
    decreases n
  {
    if l.book < n - 1 {
      ScanBooksComplete(g, keep, n - 1, l);
    } else {
      ScanChaptersComplete(g, keep, n - 1, |g[n - 1]|, l);
    }
  }

  /** Every position of `g` whose verse passes `keep`, each once, in reading order. */
  function Scan<T>(g: seq<seq<seq<T>>>, keep: T -> bool): (r: seq<Loc>)
    ensures forall l :: l in r <==> Valid(g, l) && keep(At(g, l))
    ensures Ordered(r)
  {
    var r := ScanBooks(g, keep, |g|);
    forall l | Valid(g, l) && keep(At(g, l))
      ensures l in r
    {
      ScanBooksComplete(g, keep, |g|, l);
    }
    r
  }
}
