/**
 * normalizeTranscript (app.js:170-173): `toLowerCase()`, then `normalize('NFD')`, then
 * removal of every `\p{Diacritic}` character. The three Unicode tables are parameters:
 * a lower-case mapping and a canonical decomposition per character, and the Diacritic
 * property.
 */
module Normalize {

  /** The Unicode data normalizeTranscript depends on, one entry per character. */
  datatype CharTables = CharTables(lower: char -> string, decompose: char -> string, isDiacritic: char -> bool)

  /** Replace every character of s by its image under f. */
  function MapChars(f: char -> string, s: string): string
    decreases |s|
  {
    if s == [] then [] else f(s[0]) + MapChars(f, s[1..])
  }

  lemma {:induction false} MapCharsAppend(f: char -> string, a: string, b: string)
    ensures MapChars(f, a + b) == MapChars(f, a) + MapChars(f, b)
    decreases |a|
  {
    if a == [] {
      assert a + b == b;
    } else {
      assert (a + b)[1..] == a[1..] + b;
      MapCharsAppend(f, a[1..], b);
    }
  }

  lemma MapCharsSingle(f: char -> string, x: char)
    ensures MapChars(f, [x]) == f(x)
  {
    assert [x][1..] == [];
  }

  /** Every character of the image comes from the image of some character of s. */
  lemma {:induction false} MapCharsSource(f: char -> string, s: string, x: char)
    requires x in MapChars(f, s)
    ensures exists y :: y in s && x in f(y)
    decreases |s|
  {
    if x !in f(s[0]) {
      MapCharsSource(f, s[1..], x);
      var y :| y in s[1..] && x in f(y);
      assert y in s;
    }
  }

  /** `toLowerCase()`. */
  function LowerCase(t: CharTables, s: string): string {
    MapChars(t.lower, s)
  }

  /** `normalize('NFD')`, as per-character canonical decomposition. */
  function Decompose(t: CharTables, s: string): string {
    MapChars(t.decompose, s)
  }

  /** `replace(/\p{Diacritic}/gu, '')`: s with every diacritic removed. */
  function RemoveDiacritics(t: CharTables, s: string): (r: string)
    ensures |r| <= |s|
    ensures forall k :: 0 <= k < |r| ==> !t.isDiacritic(r[k])
    decreases |s|
  {
    if s == [] then []
    else if t.isDiacritic(s[0]) then RemoveDiacritics(t, s[1..])
    else [s[0]] + RemoveDiacritics(t, s[1..])
  }

  /** RemoveDiacritics keeps every other character as often as it occurs, and drops all diacritics. */
  lemma {:induction false} RemoveDiacriticsCounts(t: CharTables, s: string, c: char)
    ensures multiset(RemoveDiacritics(t, s))[c] == if t.isDiacritic(c) then 0 else multiset(s)[c]
    decreases |s|
  {
    if s != [] {
      RemoveDiacriticsCounts(t, s[1..], c);
      assert s == [s[0]] + s[1..];
    }
  }

  /** A string without diacritics is left as it is. */
  lemma {:induction false} RemoveDiacriticsClean(t: CharTables, s: string)
    requires forall k :: 0 <= k < |s| ==> !t.isDiacritic(s[k])
    ensures RemoveDiacritics(t, s) == s
    decreases |s|
  {
    if s != [] {
      RemoveDiacriticsClean(t, s[1..]);
    }
  }

  lemma {:induction false} RemoveDiacriticsAppend(t: CharTables, a: string, b: string)
    ensures RemoveDiacritics(t, a + b) == RemoveDiacritics(t, a) + RemoveDiacritics(t, b)
    decreases |a|
  {
    if a == [] {
      assert a + b == b;
    } else {
      assert (a + b)[1..] == a[1..] + b;
      RemoveDiacriticsAppend(t, a[1..], b);
    }
  }

  /** normalizeTranscript. */
  function NormalizeTranscript(t: CharTables, s: string): (r: string)
    ensures forall k :: 0 <= k < |r| ==> !t.isDiacritic(r[k])
  {
    RemoveDiacritics(t, Decompose(t, LowerCase(t, s)))
  }

  /** Normalizing works character by character: it distributes over concatenation. */
  lemma NormalizeAppend(t: CharTables, a: string, b: string)
    ensures NormalizeTranscript(t, a + b) == NormalizeTranscript(t, a) + NormalizeTranscript(t, b)
  {
    MapCharsAppend(t.lower, a, b);
    MapCharsAppend(t.decompose, LowerCase(t, a), LowerCase(t, b));
    RemoveDiacriticsAppend(t, Decompose(t, LowerCase(t, a)), Decompose(t, LowerCase(t, b)));
  }

  /** Every character of a normalized string is lower-cased, decomposed and not a diacritic. */
  lemma NormalizeSource(t: CharTables, s: string, x: char)
    requires x in NormalizeTranscript(t, s)
    ensures !t.isDiacritic(x)
    ensures exists c, y :: c in s && y in t.lower(c) && x in t.decompose(y)
  {
    var d := Decompose(t, LowerCase(t, s));
    RemoveDiacriticsCounts(t, d, x);
    assert x in d;
    MapCharsSource(t.decompose, LowerCase(t, s), x);
    var y :| y in LowerCase(t, s) && x in t.decompose(y);
    MapCharsSource(t.lower, s, y);
  }

  /** Normalizing the one-character string [x] gives [x] back. */
  predicate Fixed(t: CharTables, x: char) {
    NormalizeTranscript(t, [x]) == [x]
  }

  /** The tables' assumption under which normalizing twice is normalizing once: every character
      normalizeTranscript can produce is already in normal form. The Unicode tables have this
      property (lower-cased, fully decomposed text stays so). */
  ghost predicate Stable(t: CharTables) {
    forall c, y, x :: y in t.lower(c) && x in t.decompose(y) && !t.isDiacritic(x) ==> Fixed(t, x)
  }

  /** A string made of normal-form characters is its own normalization. */
  lemma {:induction false} NormalizeFixedString(t: CharTables, w: string)
    requires forall k :: 0 <= k < |w| ==> Fixed(t, w[k])
    ensures NormalizeTranscript(t, w) == w
    decreases |w|
  {
    if w != [] {
      assert w == [w[0]] + w[1..];
      NormalizeAppend(t, [w[0]], w[1..]);
      NormalizeFixedString(t, w[1..]);
    }
  }

  /** Under stable tables normalizeTranscript is idempotent. */
  lemma NormalizeIdempotent(t: CharTables, s: string)
    requires Stable(t)
    ensures NormalizeTranscript(t, NormalizeTranscript(t, s)) == NormalizeTranscript(t, s)
  {
    var r := NormalizeTranscript(t, s);
    forall k | 0 <= k < |r| ensures Fixed(t, r[k]) {
      NormalizeSource(t, s, r[k]);
    }
    NormalizeFixedString(t, r);
  }

  // ---------------------------------------------------------------------------
  // A small table: ASCII upper case and É, and é decomposed into e and U+0301.

  /** Tables covering ASCII letters and the one accented letter é, with the combining marks U+0300..U+036F as diacritics. */
  function SampleTables(): CharTables {
    CharTables(
      (c: char) => if 'A' <= c <= 'Z' then [(c as int + 32) as char] else if c == 'É' then ['é'] else [c],
      (c: char) => if c == 'é' then ['e', '\U{0301}'] else [c],
      (c: char) => '\U{0300}' <= c <= '\U{036F}')
  }

  /** The sample tables meet the stability assumption, so it is not vacuous. */
  lemma SampleTablesStable()
    ensures Stable(SampleTables())
  {
    var t := SampleTables();
    forall c, y, x | y in t.lower(c) && x in t.decompose(y) && !t.isDiacritic(x)
      ensures Fixed(t, x)
    {
      assert !('A' <= x <= 'Z') && x != 'É' && x != 'é';
      MapCharsSingle(t.lower, x);
      MapCharsSingle(t.decompose, x);
    }
  }

  /** With the sample tables, "CafÉ" normalizes to "cafe": É is lower-cased, decomposed, and its accent dropped. */
  lemma SampleCafe()
    ensures NormalizeTranscript(SampleTables(), "CafÉ") == "cafe"
  {
  }
}
