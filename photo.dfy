/**
 * The first photo pattern of app.js, `(?:toon|laat|geef).*?(?:foto|afbeelding).*?(?:van|over)?\s+(.+)`,
 * matched as a backtracking engine does: the lazy `.*?` grow one character at a time,
 * the optional `(?:van|over)?` is tried before it is skipped, and alternatives left to right.
 */
module Photo {
  import opened Wrappers
  import opened Chars
  import opened Pattern

  const Verbs: seq<string> := ["toon", "laat", "geef"]
  const Nouns: seq<string> := ["foto", "afbeelding"]
  const Fillers: seq<string> := ["van", "over"]

  /** One way the pattern can match: start i, verb a, noun n starting at f, the second `.*?`
      ending at g, filler o (o == |Fillers| when the optional group is skipped), group s[c..e]. */
  datatype Choice = Choice(i: nat, a: nat, f: nat, n: nat, g: nat, o: nat, c: nat, e: nat)

  /** `(?:van|over)?\s+(.+)` from g, taking filler o (or skipping it) and capturing s[c..e]. */
  ghost predicate GroupOk(s: string, g: nat, o: nat, c: nat, e: nat) {
    o <= |Fillers| && g <= |s| &&
    if o < |Fillers| then HasAt(s, g, Fillers[o]) && TailMatch(s, g + |Fillers[o]|, c, e)
    else TailMatch(s, g, c, e)
  }

  ghost predicate FillerOk(s: string, t: Choice) {
    GroupOk(s, t.g, t.o, t.c, t.e)
  }

  /** `.*?(?:van|over)?\s+(.+)` from h. */
  ghost predicate Lazy2Ok(s: string, h: nat, t: Choice) {
    h <= t.g && NoTerminator(s, h, t.g) && FillerOk(s, t)
  }

  /** `(?:foto|afbeelding).*?(?:van|over)?\s+(.+)` from t.f. */
  ghost predicate NounOk(s: string, t: Choice) {
    t.n < |Nouns| && HasAt(s, t.f, Nouns[t.n]) && Lazy2Ok(s, t.f + |Nouns[t.n]|, t)
  }

  /** `.*?(?:foto|afbeelding).*?(?:van|over)?\s+(.+)` from p. */
  ghost predicate Lazy1Ok(s: string, p: nat, t: Choice) {
    p <= t.f && NoTerminator(s, p, t.f) && NounOk(s, t)
  }

  /** The whole pattern matches as t describes. */
  ghost predicate PhotoMatch(s: string, t: Choice) {
    t.a < |Verbs| && HasAt(s, t.i, Verbs[t.a]) && Lazy1Ok(s, t.i + |Verbs[t.a]|, t)
  }

  /** t comes no later than u in backtracking order: leftmost start, earlier verb, shorter first
      `.*?`, earlier noun, shorter second `.*?`, filler before skipping it, then the tail's order. */
  predicate Before(t: Choice, u: Choice) {
    t.i < u.i || (t.i == u.i && (t.a < u.a || (t.a == u.a && (t.f < u.f || (t.f == u.f && (t.n < u.n || (t.n == u.n &&
    (t.g < u.g || (t.g == u.g && (t.o < u.o || (t.o == u.o && TailPrefers(t.c, t.e, u.c, u.e))))))))))))
  }

  /** Filler o (the optional group skipped when o == |Fillers|) at g, then the tail. */
  function FillerTail(s: string, g: nat, o: nat): (r: Option<Span>)
    requires g <= |s| && o <= |Fillers|
    ensures r.Some? ==> r.value.lo < r.value.hi <= |s|
  {
    if o == |Fillers| then Tail(s, g)
    else if HasAt(s, g, Fillers[o]) then Tail(s, g + |Fillers[o]|)
    else None
  }

  function FromFiller(s: string, i: nat, a: nat, f: nat, n: nat, g: nat, o: nat): (r: Option<Choice>)
    requires g <= |s| && o <= |Fillers|
    decreases |Fillers| - o
    ensures r.Some? ==> r.value.c < r.value.e <= |s|
  {
    match FillerTail(s, g, o)
    case Some(sp) => Some(Choice(i, a, f, n, g, o, sp.lo, sp.hi))
    case None => if o < |Fillers| then FromFiller(s, i, a, f, n, g, o + 1) else None
  }

  function FromLazy2(s: string, i: nat, a: nat, f: nat, n: nat, g: nat): (r: Option<Choice>)
    requires g <= |s|
    decreases |s| - g
    ensures r.Some? ==> r.value.c < r.value.e <= |s|
  {
    match FromFiller(s, i, a, f, n, g, 0)
    case Some(t) => Some(t)
    case None => if g < |s| && !IsLineTerminator(s[g]) then FromLazy2(s, i, a, f, n, g + 1) else None
  }

  /** Noun n at f, then the rest of the pattern. */
  function NounHere(s: string, i: nat, a: nat, f: nat, n: nat): (r: Option<Choice>)
    requires f <= |s| && n < |Nouns|
    ensures r.Some? ==> r.value.c < r.value.e <= |s|
  {
    if HasAt(s, f, Nouns[n]) then FromLazy2(s, i, a, f, n, f + |Nouns[n]|) else None
  }

  function FromNoun(s: string, i: nat, a: nat, f: nat, n: nat): (r: Option<Choice>)
    requires f <= |s|
    decreases |Nouns| - n
    ensures r.Some? ==> r.value.c < r.value.e <= |s|
  {
    if n >= |Nouns| then None
    else
      match NounHere(s, i, a, f, n)
      case Some(t) => Some(t)
      case None => FromNoun(s, i, a, f, n + 1)
  }

  function FromLazy1(s: string, i: nat, a: nat, f: nat): (r: Option<Choice>)
    requires f <= |s|
    decreases |s| - f
    ensures r.Some? ==> r.value.c < r.value.e <= |s|
  {
    match FromNoun(s, i, a, f, 0)
    case Some(t) => Some(t)
    case None => if f < |s| && !IsLineTerminator(s[f]) then FromLazy1(s, i, a, f + 1) else None
  }

  /** Verb a at i, then the rest of the pattern. */
  function VerbHere(s: string, i: nat, a: nat): (r: Option<Choice>)
    requires i <= |s| && a < |Verbs|
    ensures r.Some? ==> r.value.c < r.value.e <= |s|
  {
    if HasAt(s, i, Verbs[a]) then FromLazy1(s, i, a, i + |Verbs[a]|) else None
  }

  function FromVerb(s: string, i: nat, a: nat): (r: Option<Choice>)
    requires i <= |s|
    decreases |Verbs| - a
    ensures r.Some? ==> r.value.c < r.value.e <= |s|
  {
    if a >= |Verbs| then None
    else
      match VerbHere(s, i, a)
      case Some(t) => Some(t)
      case None => FromVerb(s, i, a + 1)
  }

  function SearchFrom(s: string, i: nat): (r: Option<Choice>)
    requires i <= |s|
    decreases |s| - i
    ensures r.Some? ==> r.value.c < r.value.e <= |s|
  {
    match FromVerb(s, i, 0)
    case Some(t) => Some(t)
    case None => if i < |s| then SearchFrom(s, i + 1) else None
  }

  /** `text.match(...)` for the first photo pattern: the first match in backtracking order. */
  function Search(s: string): (r: Option<Choice>)
    ensures r.Some? ==> r.value.c < r.value.e <= |s|
  {
    SearchFrom(s, 0)
  }

  // ---------------------------------------------------------------------------
  // Each level returns the first match, in backtracking order, among those it is responsible for.

  lemma FillerTailIsFirst(s: string, g: nat, o: nat)
    requires g <= |s| && o <= |Fillers|
    ensures match FillerTail(s, g, o)
      case Some(sp) =>
        GroupOk(s, g, o, sp.lo, sp.hi) && forall c, e :: GroupOk(s, g, o, c, e) ==> TailPrefers(sp.lo, sp.hi, c, e)
      case None =>
        forall c, e :: !GroupOk(s, g, o, c, e)
  {
    if o == |Fillers| {
      TailIsFirstMatch(s, g);
    } else if HasAt(s, g, Fillers[o]) {
      TailIsFirstMatch(s, g + |Fillers[o]|);
    }
  }

  lemma {:induction false} FromFillerIsFirst(s: string, i: nat, a: nat, f: nat, n: nat, g: nat, o: nat)
    requires g <= |s| && o <= |Fillers|
    ensures match FromFiller(s, i, a, f, n, g, o)
      case Some(t) =>
        t == Choice(i, a, f, n, g, t.o, t.c, t.e) && o <= t.o && GroupOk(s, g, t.o, t.c, t.e) &&
        forall o', c, e :: o <= o' && GroupOk(s, g, o', c, e) ==> t.o < o' || (t.o == o' && TailPrefers(t.c, t.e, c, e))
      case None =>
        forall o', c, e :: o <= o' ==> !GroupOk(s, g, o', c, e)
    decreases |Fillers| - o
  {
    FillerTailIsFirst(s, g, o);
    if o < |Fillers| {
      FromFillerIsFirst(s, i, a, f, n, g, o + 1);
    }
    match FillerTail(s, g, o)
    case Some(sp) =>
      assert FromFiller(s, i, a, f, n, g, o) == Some(Choice(i, a, f, n, g, o, sp.lo, sp.hi));
    case None =>
      forall o', c, e | o <= o' && GroupOk(s, g, o', c, e)
        ensures o < o'
      {
      }
  }

  lemma {:induction false} FromLazy2IsFirst(s: string, i: nat, a: nat, f: nat, n: nat, h: nat, g: nat)
    requires h <= g <= |s| && NoTerminator(s, h, g)
    ensures match FromLazy2(s, i, a, f, n, g)
      case Some(t) =>
        t.i == i && t.a == a && t.f == f && t.n == n && g <= t.g && Lazy2Ok(s, h, t) &&
        forall u: Choice :: u.i == i && u.a == a && u.f == f && u.n == n && g <= u.g && Lazy2Ok(s, h, u) ==> Before(t, u)
      case None =>
        forall u: Choice :: g <= u.g ==> !Lazy2Ok(s, h, u)
    decreases |s| - g
  {
    FromFillerIsFirst(s, i, a, f, n, g, 0);
    var more := g < |s| && !IsLineTerminator(s[g]);
    if more {
      FromLazy2IsFirst(s, i, a, f, n, h, g + 1);
    }
    // a match that takes more than g is one the recursive call covers
    forall u: Choice | g < u.g && Lazy2Ok(s, h, u)
      ensures more && g + 1 <= u.g
    {
      assert !IsLineTerminator(s[g]);
    }
    match FromFiller(s, i, a, f, n, g, 0)
    case Some(t) =>
      forall u: Choice | u.i == i && u.a == a && u.f == f && u.n == n && g <= u.g && Lazy2Ok(s, h, u)
        ensures Before(t, u)
      {
        if u.g == g {
          assert GroupOk(s, g, u.o, u.c, u.e);
        }
      }
    case None =>
      forall u: Choice | u.g == g
        ensures !Lazy2Ok(s, h, u)
      {
        assert !GroupOk(s, g, u.o, u.c, u.e);
      }
  }

  lemma NounHereIsFirst(s: string, i: nat, a: nat, f: nat, n: nat)
    requires f <= |s| && n < |Nouns|
    ensures match NounHere(s, i, a, f, n)
      case Some(t) =>
        t.i == i && t.a == a && t.f == f && t.n == n && NounOk(s, t) &&
        forall u: Choice :: u.i == i && u.a == a && u.f == f && u.n == n && NounOk(s, u) ==> Before(t, u)
      case None =>
        forall u: Choice :: u.f == f && u.n == n ==> !NounOk(s, u)
  {
    var w := Nouns[n];
    if HasAt(s, f, w) {
      var h := f + |w|;
      FromLazy2IsFirst(s, i, a, f, n, h, h);
      match FromLazy2(s, i, a, f, n, h)
      case Some(t) =>
        forall u: Choice | u.i == i && u.a == a && u.f == f && u.n == n && NounOk(s, u)
          ensures Before(t, u)
        {
          assert Lazy2Ok(s, h, u);
        }
      case None =>
        forall u: Choice | u.f == f && u.n == n
          ensures !NounOk(s, u)
        {
          assert !Lazy2Ok(s, h, u);
        }
    }
  }

  lemma {:induction false} FromNounIsFirst(s: string, i: nat, a: nat, f: nat, n: nat)
    requires f <= |s|
    ensures match FromNoun(s, i, a, f, n)
      case Some(t) =>
        t.i == i && t.a == a && t.f == f && n <= t.n && NounOk(s, t) &&
        forall u: Choice :: u.i == i && u.a == a && u.f == f && n <= u.n && NounOk(s, u) ==> Before(t, u)
      case None =>
        forall u: Choice :: u.f == f && n <= u.n ==> !NounOk(s, u)
    decreases |Nouns| - n
  {
    if n < |Nouns| {
      FromNounIsFirst(s, i, a, f, n + 1);
      NounHereIsFirst(s, i, a, f, n);
      match NounHere(s, i, a, f, n)
      case Some(t) =>
        assert FromNoun(s, i, a, f, n) == Some(t);
        forall u: Choice | u.i == i && u.a == a && u.f == f && n < u.n
          ensures Before(t, u)
        {
        }
      case None =>
        assert FromNoun(s, i, a, f, n) == FromNoun(s, i, a, f, n + 1);
    }
  }

  lemma {:induction false} FromLazy1IsFirst(s: string, i: nat, a: nat, p: nat, f: nat)
    requires p <= f <= |s| && NoTerminator(s, p, f)
    ensures match FromLazy1(s, i, a, f)
      case Some(t) =>
        t.i == i && t.a == a && f <= t.f && Lazy1Ok(s, p, t) &&
        forall u: Choice :: u.i == i && u.a == a && f <= u.f && Lazy1Ok(s, p, u) ==> Before(t, u)
      case None =>
        forall u: Choice :: f <= u.f ==> !Lazy1Ok(s, p, u)
    decreases |s| - f
  {
    FromNounIsFirst(s, i, a, f, 0);
    if f < |s| && !IsLineTerminator(s[f]) {
      FromLazy1IsFirst(s, i, a, p, f + 1);
    }
  }

  lemma VerbHereIsFirst(s: string, i: nat, a: nat)
    requires i <= |s| && a < |Verbs|
    ensures match VerbHere(s, i, a)
      case Some(t) =>
        t.i == i && t.a == a && PhotoMatch(s, t) &&
        forall u: Choice :: u.i == i && u.a == a && PhotoMatch(s, u) ==> Before(t, u)
      case None =>
        forall u: Choice :: u.i == i && u.a == a ==> !PhotoMatch(s, u)
  {
    var p := i + |Verbs[a]|;
    if HasAt(s, i, Verbs[a]) {
      FromLazy1IsFirst(s, i, a, p, p);
      match FromLazy1(s, i, a, p)
      case Some(t) =>
        forall u: Choice | u.i == i && u.a == a && PhotoMatch(s, u)
          ensures Before(t, u)
        {
          assert Lazy1Ok(s, p, u);
        }
      case None =>
        forall u: Choice | u.i == i && u.a == a
          ensures !PhotoMatch(s, u)
        {
          assert !Lazy1Ok(s, p, u);
        }
    }
  }

  lemma {:induction false} FromVerbIsFirst(s: string, i: nat, a: nat)
    requires i <= |s|
    ensures match FromVerb(s, i, a)
      case Some(t) =>
        t.i == i && a <= t.a && PhotoMatch(s, t) &&
        forall u: Choice :: u.i == i && a <= u.a && PhotoMatch(s, u) ==> Before(t, u)
      case None =>
        forall u: Choice :: u.i == i && a <= u.a ==> !PhotoMatch(s, u)
    decreases |Verbs| - a
  {
    if a < |Verbs| {
      FromVerbIsFirst(s, i, a + 1);
      VerbHereIsFirst(s, i, a);
      match VerbHere(s, i, a)
      case Some(t) =>
        assert FromVerb(s, i, a) == Some(t);
        forall u: Choice | u.i == i && a < u.a
          ensures Before(t, u)
        {
        }
      case None =>
        assert FromVerb(s, i, a) == FromVerb(s, i, a + 1);
    }
  }

  lemma {:induction false} SearchFromIsFirst(s: string, i: nat)
    requires i <= |s|
    ensures match SearchFrom(s, i)
      case Some(t) =>
        i <= t.i && PhotoMatch(s, t) && forall u: Choice :: i <= u.i && PhotoMatch(s, u) ==> Before(t, u)
      case None =>
        forall u: Choice :: i <= u.i ==> !PhotoMatch(s, u)
    decreases |s| - i
  {
    FromVerbIsFirst(s, i, 0);
    if i < |s| {
      SearchFromIsFirst(s, i + 1);
    }
  }

  /** Search returns exactly the match a backtracking matcher reports first, and none only when there is none. */
  lemma SearchIsFirst(s: string)
    ensures match Search(s)
      case Some(t) => PhotoMatch(s, t) && forall u: Choice :: PhotoMatch(s, u) ==> Before(t, u)
      case None => forall u: Choice :: !PhotoMatch(s, u)
  {
    SearchFromIsFirst(s, 0);
  }

  /** A match needs one of the verbs, so one of their first letters. */
  lemma SearchNeedsVerb(s: string)
    ensures Search(s).Some? ==> 't' in s || 'l' in s || 'g' in s
  {
    SearchIsFirst(s);
    if Search(s).Some? {
      var t := Search(s).value;
      HasAtChar(s, t.i, Verbs[t.a], 0);
    }
  }
}
