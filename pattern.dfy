/**
 * Regular-expression fragments built from literal words and runs of `\s`, the only
 * building blocks (besides lazy `.*?`, see module Photo) of the patterns in app.js.
 * Each fragment has two readings: the regular-expression one, where a run of spaces
 * may take any admissible number of characters (Matches), and the greedy one that a
 * backtracking matcher settles on (End). For well-formed fragments they agree.
 */
module Pattern {
  import opened Wrappers
  import opened Chars

  /** A literal word, or a run of at least `min` characters of `\s` (`\s*` for 0, `\s+` for 1). */
  datatype Piece = Word(w: string) | Spaces(min: nat)

  /** Every run of spaces is followed by a word that starts with a word character, which `\s` does not match. */
  predicate WellFormed(ps: seq<Piece>) {
    forall k :: 0 <= k < |ps| && ps[k].Spaces? ==>
      k + 1 < |ps| && ps[k + 1].Word? && |ps[k + 1].w| > 0 && IsWordChar(ps[k + 1].w[0])
  }

  predicate AllWellFormed(alts: seq<seq<Piece>>) {
    forall k :: 0 <= k < |alts| ==> WellFormed(alts[k])
  }

  /** The regular-expression reading: the fragment can match s[i..p] for some lengths of its space runs. */
  ghost predicate Matches(s: string, i: nat, ps: seq<Piece>, p: nat)
    decreases |ps|
  {
    if ps == [] then i == p && p <= |s|
    else match ps[0]
      case Word(w) => HasAt(s, i, w) && Matches(s, i + |w|, ps[1..], p)
      case Spaces(m) => exists j: nat :: i + m <= j && AllSpace(s, i, j) && Matches(s, j, ps[1..], p)
  }

  /** The greedy reading: every run of spaces takes all the spaces there are; the end of the match, if any. */
  function End(s: string, i: nat, ps: seq<Piece>): (r: Option<nat>)
    requires i <= |s|
    ensures r.Some? ==> i <= r.value <= |s|
    decreases |ps|
  {
    if ps == [] then Some(i)
    else match ps[0]
      case Word(w) => if HasAt(s, i, w) then End(s, i + |w|, ps[1..]) else None
      case Spaces(m) =>
        var j := SkipSpaces(s, i);
        if i + m <= j then End(s, j, ps[1..]) else None
  }

  lemma WellFormedTail(ps: seq<Piece>)
    requires WellFormed(ps) && ps != []
    ensures WellFormed(ps[1..])
  {
    var rest := ps[1..];
    forall k | 0 <= k < |rest| && rest[k].Spaces?
      ensures k + 1 < |rest| && rest[k + 1].Word? && |rest[k + 1].w| > 0 && IsWordChar(rest[k + 1].w[0])
    {
      assert rest[k] == ps[k + 1];
    }
  }

  /** For a well-formed fragment the greedy match is the only match: backtracking into a run of
      spaces can never help, because the word after it starts with a non-space. */
  lemma {:induction false} EndIsOnlyMatch(s: string, i: nat, ps: seq<Piece>, p: nat)
    requires i <= |s| && WellFormed(ps)
    ensures Matches(s, i, ps, p) <==> End(s, i, ps) == Some(p)
    decreases |ps|
  {
    if ps != [] {
      var rest := ps[1..];
      WellFormedTail(ps);
      match ps[0]
      case Word(w) =>
        if HasAt(s, i, w) {
          EndIsOnlyMatch(s, i + |w|, rest, p);
        }
      case Spaces(m) =>
        var j := SkipSpaces(s, i);
        var w := ps[1].w;
        assert rest[0] == Word(w);
        if Matches(s, i, ps, p) {
          var j': nat :| i + m <= j' && AllSpace(s, i, j') && Matches(s, j', rest, p);
          HasAtChar(s, j', w, 0);
          SpaceRunBound(s, i, j');
          EndIsOnlyMatch(s, j', rest, p);
        }
        if End(s, i, ps) == Some(p) {
          EndIsOnlyMatch(s, j, rest, p);
        }
    }
  }

  // ---------------------------------------------------------------------------
  // `RegExp.prototype.test` for `(alt_0|alt_1|...)`, optionally as `\b(alt_0|...)\b`

  /** The pattern matches s[i..p] through alternative k. */
  ghost predicate TestMatchAt(s: string, alts: seq<seq<Piece>>, bounded: bool, i: nat, k: nat, p: nat) {
    k < |alts| && i <= |s| && (!bounded || IsBoundary(s, i)) &&
    Matches(s, i, alts[k], p) && p <= |s| && (!bounded || IsBoundary(s, p))
  }

  /** The regular-expression reading of `test`: some match exists anywhere in s. */
  ghost predicate TestSpec(s: string, alts: seq<seq<Piece>>, bounded: bool) {
    exists i: nat, k: nat, p: nat :: TestMatchAt(s, alts, bounded, i, k, p)
  }

  predicate AltAt(s: string, i: nat, ps: seq<Piece>, bounded: bool)
    requires i <= |s|
  {
    (!bounded || IsBoundary(s, i)) &&
    match End(s, i, ps)
    case None => false
    case Some(p) => !bounded || IsBoundary(s, p)
  }

  predicate AnyAltAt(s: string, i: nat, alts: seq<seq<Piece>>, bounded: bool, k: nat)
    requires i <= |s|
    decreases |alts| - k
  {
    k < |alts| && (AltAt(s, i, alts[k], bounded) || AnyAltAt(s, i, alts, bounded, k + 1))
  }

  predicate TestFrom(s: string, i: nat, alts: seq<seq<Piece>>, bounded: bool)
    requires i <= |s|
    decreases |s| - i
  {
    AnyAltAt(s, i, alts, bounded, 0) || (i < |s| && TestFrom(s, i + 1, alts, bounded))
  }

  /** `RegExp.prototype.test`: try every start position, and every alternative at each. */
  predicate Test(s: string, alts: seq<seq<Piece>>, bounded: bool) {
    TestFrom(s, 0, alts, bounded)
  }

  lemma {:induction false} AnyAltAtSpec(s: string, i: nat, alts: seq<seq<Piece>>, bounded: bool, k: nat)
    requires i <= |s| && AllWellFormed(alts)
    ensures AnyAltAt(s, i, alts, bounded, k) <==> exists k': nat, p: nat :: k <= k' && TestMatchAt(s, alts, bounded, i, k', p)
    decreases |alts| - k
  {
    if k < |alts| {
      AnyAltAtSpec(s, i, alts, bounded, k + 1);
      match End(s, i, alts[k])
      case None =>
        forall p: nat ensures !Matches(s, i, alts[k], p) {
          EndIsOnlyMatch(s, i, alts[k], p);
        }
      case Some(p) =>
        EndIsOnlyMatch(s, i, alts[k], p);
        if AltAt(s, i, alts[k], bounded) {
          assert TestMatchAt(s, alts, bounded, i, k, p);
        }
        if exists k': nat, p': nat :: k <= k' && TestMatchAt(s, alts, bounded, i, k', p') {
          var k': nat, p': nat :| k <= k' && TestMatchAt(s, alts, bounded, i, k', p');
          if k' == k {
            EndIsOnlyMatch(s, i, alts[k], p');
          } else {
            assert k + 1 <= k';
          }
        }
    }
  }

  lemma {:induction false} TestFromSpec(s: string, i: nat, alts: seq<seq<Piece>>, bounded: bool)
    requires i <= |s| && AllWellFormed(alts)
    ensures TestFrom(s, i, alts, bounded) <==> exists i': nat, k: nat, p: nat :: i <= i' && TestMatchAt(s, alts, bounded, i', k, p)
    decreases |s| - i
  {
    AnyAltAtSpec(s, i, alts, bounded, 0);
    if i < |s| {
      TestFromSpec(s, i + 1, alts, bounded);
    }
    if exists i': nat, k: nat, p: nat :: i <= i' && TestMatchAt(s, alts, bounded, i', k, p) {
      var i': nat, k: nat, p: nat :| i <= i' && TestMatchAt(s, alts, bounded, i', k, p);
      if i' == i {
        assert exists k': nat, p': nat :: 0 <= k' && TestMatchAt(s, alts, bounded, i, k', p');
      } else {
        assert exists i2: nat, k': nat, p': nat :: i + 1 <= i2 && TestMatchAt(s, alts, bounded, i2, k', p');
      }
    }
  }

  /** The scanner answers exactly the regular-expression question. */
  lemma TestIsSpec(s: string, alts: seq<seq<Piece>>, bounded: bool)
    requires AllWellFormed(alts)
    ensures Test(s, alts, bounded) <==> TestSpec(s, alts, bounded)
  {
    TestFromSpec(s, 0, alts, bounded);
  }

  // ---------------------------------------------------------------------------
  // `String.prototype.match` for `(alt_0|alt_1|...)\s+(.+)`: the leftmost match and its group

  /** Positions s[lo..hi] of a captured group. */
  datatype Span = Span(lo: nat, hi: nat)

  /** `\s+(.+)` ending the pattern can match from x, with the group capturing s[c..e]. */
  ghost predicate TailMatch(s: string, x: nat, c: nat, e: nat) {
    x < c < e <= |s| && AllSpace(s, x, c) && NoTerminator(s, c, e)
  }

  /** Backtracking order of `\s+(.+)`: a longer run of spaces first, then a longer group. */
  predicate TailPrefers(c: nat, e: nat, c': nat, e': nat) {
    c > c' || (c == c' && e >= e')
  }

  /** The largest group start in (x, c]: a position holding a character `.` matches. */
  function GroupStart(s: string, x: nat, c: nat): (r: Option<nat>)
    requires c <= |s|
    ensures r.Some? ==> x < r.value <= c && r.value < |s| && !IsLineTerminator(s[r.value])
    ensures forall d :: (if r.Some? then r.value else x) < d <= c && d < |s| ==> IsLineTerminator(s[d])
    decreases c
  {
    if c <= x then None
    else if c < |s| && !IsLineTerminator(s[c]) then Some(c)
    else GroupStart(s, x, c - 1)
  }

  /** Greedy `\s+` gives back spaces one at a time until `(.+)` can start; `(.+)` then runs to the next line terminator. */
  function Tail(s: string, x: nat): (r: Option<Span>)
    requires x <= |s|
    ensures r.Some? ==> x < r.value.lo < r.value.hi <= |s|
  {
    match GroupStart(s, x, SkipSpaces(s, x))
    case None => None
    case Some(c) => Some(Span(c, NextTerminator(s, c)))
  }

  /** Tail finds the match backtracking finds first, and finds none only when there is none. */
  lemma TailIsFirstMatch(s: string, x: nat)
    requires x <= |s|
    ensures match Tail(s, x)
      case Some(g) => TailMatch(s, x, g.lo, g.hi) && forall c, e :: TailMatch(s, x, c, e) ==> TailPrefers(g.lo, g.hi, c, e)
      case None => forall c, e :: !TailMatch(s, x, c, e)
  {
    var q := SkipSpaces(s, x);
    forall c: nat, e: nat | TailMatch(s, x, c, e)
      ensures c <= q && c < |s| && !IsLineTerminator(s[c]) && e <= NextTerminator(s, c)
    {
      SpaceRunBound(s, x, c);
      TerminatorRunBound(s, c, e);
    }
    match GroupStart(s, x, q)
    case None =>
    case Some(c) =>
      assert AllSpace(s, x, c);
  }

  /** Where and how `(alt_0|...)\s+(.+)` matched: its start, the alternative, and the group. */
  datatype Found = Found(start: nat, alt: nat, group: Span)

  /** The pattern can match from i through alternative k with the group capturing s[c..e]. */
  ghost predicate LeadTailMatch(s: string, alts: seq<seq<Piece>>, i: nat, k: nat, c: nat, e: nat) {
    k < |alts| && i <= |s| && exists p: nat :: Matches(s, i, alts[k], p) && TailMatch(s, p, c, e)
  }

  /** The order in which a backtracking matcher meets matches: leftmost start, then the
      earlier alternative, then the order of the tail. */
  predicate Precedes(f: Found, i: nat, k: nat, c: nat, e: nat) {
    f.start < i || (f.start == i && (f.alt < k || (f.alt == k && TailPrefers(f.group.lo, f.group.hi, c, e))))
  }

  function AltsFrom(s: string, i: nat, alts: seq<seq<Piece>>, k: nat): (r: Option<Found>)
    requires i <= |s|
    ensures r.Some? ==> r.value.start == i && k <= r.value.alt < |alts| && r.value.group.lo < r.value.group.hi <= |s|
    decreases |alts| - k
  {
    if k >= |alts| then None
    else
      var here := match End(s, i, alts[k]) case None => None case Some(p) => Tail(s, p);
      match here
      case Some(g) => Some(Found(i, k, g))
      case None => AltsFrom(s, i, alts, k + 1)
  }

  function SearchFrom(s: string, i: nat, alts: seq<seq<Piece>>): (r: Option<Found>)
    requires i <= |s|
    ensures r.Some? ==> i <= r.value.start <= |s| && r.value.group.lo < r.value.group.hi <= |s|
    decreases |s| - i
  {
    match AltsFrom(s, i, alts, 0)
    case Some(f) => Some(f)
    case None => if i < |s| then SearchFrom(s, i + 1, alts) else None
  }

  /** `String.prototype.match` without the `g` flag: the first match in backtracking order. */
  function Search(s: string, alts: seq<seq<Piece>>): (r: Option<Found>)
    ensures r.Some? ==> r.value.group.lo < r.value.group.hi <= |s|
  {
    SearchFrom(s, 0, alts)
  }

  lemma {:induction false} AltsFromIsFirst(s: string, i: nat, alts: seq<seq<Piece>>, k: nat)
    requires i <= |s| && AllWellFormed(alts)
    ensures match AltsFrom(s, i, alts, k)
      case Some(f) =>
        LeadTailMatch(s, alts, i, f.alt, f.group.lo, f.group.hi) &&
        forall k', c, e :: k <= k' && LeadTailMatch(s, alts, i, k', c, e) ==> Precedes(f, i, k', c, e)
      case None => forall k', c, e :: k <= k' ==> !LeadTailMatch(s, alts, i, k', c, e)
    decreases |alts| - k
  {
    if k < |alts| {
      AltsFromIsFirst(s, i, alts, k + 1);
      forall c: nat, e: nat, p: nat | Matches(s, i, alts[k], p) && TailMatch(s, p, c, e)
        ensures End(s, i, alts[k]) == Some(p)
      {
        EndIsOnlyMatch(s, i, alts[k], p);
      }
      match End(s, i, alts[k])
      case None =>
      case Some(p) =>
        EndIsOnlyMatch(s, i, alts[k], p);
        TailIsFirstMatch(s, p);
    }
  }

  lemma {:induction false} SearchFromIsFirst(s: string, i: nat, alts: seq<seq<Piece>>)
    requires i <= |s| && AllWellFormed(alts)
    ensures match SearchFrom(s, i, alts)
      case Some(f) =>
        LeadTailMatch(s, alts, f.start, f.alt, f.group.lo, f.group.hi) &&
        forall i', k, c, e :: i <= i' && LeadTailMatch(s, alts, i', k, c, e) ==> Precedes(f, i', k, c, e)
      case None => forall i', k, c, e :: i <= i' ==> !LeadTailMatch(s, alts, i', k, c, e)
    decreases |s| - i
  {
    AltsFromIsFirst(s, i, alts, 0);
    if i < |s| {
      SearchFromIsFirst(s, i + 1, alts);
    }
  }

  /** Search returns the match a backtracking matcher reports, and none only when no match exists. */
  lemma SearchIsFirst(s: string, alts: seq<seq<Piece>>)
    requires AllWellFormed(alts)
    ensures match Search(s, alts)
      case Some(f) =>
        LeadTailMatch(s, alts, f.start, f.alt, f.group.lo, f.group.hi) &&
        forall i, k, c, e :: LeadTailMatch(s, alts, i, k, c, e) ==> Precedes(f, i, k, c, e)
      case None => forall i, k, c, e :: !LeadTailMatch(s, alts, i, k, c, e)
  {
    SearchFromIsFirst(s, 0, alts);
  }

  // ---------------------------------------------------------------------------
  // Ruling a fragment out: a fragment needs every character of every one of its words

  /** The greedy reading only succeeds if every word of the fragment occurs in s, character by character. */
  lemma {:induction false} EndNeedsWord(s: string, i: nat, ps: seq<Piece>, j: nat, m: nat)
    requires i <= |s| && j < |ps| && ps[j].Word? && m < |ps[j].w|
    requires End(s, i, ps).Some?
    ensures ps[j].w[m] in s
    decreases j
  {
    var rest := ps[1..];
    match ps[0]
    case Word(w) =>
      if j == 0 {
        HasAtChar(s, i, w, m);
      } else {
        assert rest[j - 1] == ps[j];
        EndNeedsWord(s, i + |w|, rest, j - 1, m);
      }
    case Spaces(_) =>
      assert rest[j - 1] == ps[j];
      EndNeedsWord(s, SkipSpaces(s, i), rest, j - 1, m);
  }

  /** Character m of word j of the fragment does not occur in s. */
  predicate Misses(s: string, ps: seq<Piece>, j: nat, m: nat) {
    j < |ps| && ps[j].Word? && m < |ps[j].w| && ps[j].w[m] !in s
  }

  /** Some character of some word of the fragment does not occur in s, so it can match nowhere in s. */
  ghost predicate Hopeless(s: string, ps: seq<Piece>) {
    exists j: nat, m: nat :: Misses(s, ps, j, m)
  }

  lemma HopelessEnd(s: string, i: nat, ps: seq<Piece>)
    requires i <= |s| && Hopeless(s, ps)
    ensures End(s, i, ps).None?
  {
    var j: nat, m: nat :| Misses(s, ps, j, m);
    if End(s, i, ps).Some? {
      EndNeedsWord(s, i, ps, j, m);
    }
  }

  lemma {:induction false} AnyAltAtRejects(s: string, i: nat, alts: seq<seq<Piece>>, bounded: bool, k: nat)
    requires i <= |s| && forall k' :: 0 <= k' < |alts| ==> Hopeless(s, alts[k'])
    ensures !AnyAltAt(s, i, alts, bounded, k)
    decreases |alts| - k
  {
    if k < |alts| {
      HopelessEnd(s, i, alts[k]);
      AnyAltAtRejects(s, i, alts, bounded, k + 1);
    }
  }

  lemma {:induction false} TestFromRejects(s: string, i: nat, alts: seq<seq<Piece>>, bounded: bool)
    requires i <= |s| && forall k :: 0 <= k < |alts| ==> Hopeless(s, alts[k])
    ensures !TestFrom(s, i, alts, bounded)
    decreases |s| - i
  {
    AnyAltAtRejects(s, i, alts, bounded, 0);
    if i < |s| {
      TestFromRejects(s, i + 1, alts, bounded);
    }
  }

  /** The fragment starts with a word whose first character is c. */
  predicate Leads(ps: seq<Piece>, c: char) {
    |ps| > 0 && ps[0].Word? && |ps[0].w| > 0 && ps[0].w[0] == c
  }

  /** No alternative matches at a position that does not hold the first character they all start with. */
  lemma {:induction false} AnyAltAtLead(s: string, i: nat, alts: seq<seq<Piece>>, bounded: bool, c: char, k: nat)
    requires i <= |s| && (i == |s| || s[i] != c)
    requires forall k' :: 0 <= k' < |alts| ==> Leads(alts[k'], c)
    ensures !AnyAltAt(s, i, alts, bounded, k)
    decreases |alts| - k
  {
    if k < |alts| {
      assert !HasAt(s, i, alts[k][0].w);
      AnyAltAtLead(s, i, alts, bounded, c, k + 1);
    }
  }

  /** When every alternative starts with c and c does not occur from i on, the test fails from i on. */
  lemma {:induction false} TestFromLead(s: string, i: nat, alts: seq<seq<Piece>>, bounded: bool, c: char)
    requires i <= |s| && forall j :: i <= j < |s| ==> s[j] != c
    requires forall k :: 0 <= k < |alts| ==> Leads(alts[k], c)
    ensures !TestFrom(s, i, alts, bounded)
    decreases |s| - i
  {
    AnyAltAtLead(s, i, alts, bounded, c, 0);
    if i < |s| {
      TestFromLead(s, i + 1, alts, bounded, c);
    }
  }

  /** `test` fails when every alternative is hopeless. */
  lemma TestRejects(s: string, alts: seq<seq<Piece>>, bounded: bool)
    requires forall k :: 0 <= k < |alts| ==> Hopeless(s, alts[k])
    ensures !Test(s, alts, bounded)
  {
    TestFromRejects(s, 0, alts, bounded);
  }

  lemma {:induction false} AltsFromRejects(s: string, i: nat, alts: seq<seq<Piece>>, k: nat)
    requires i <= |s| && forall k' :: 0 <= k' < |alts| ==> Hopeless(s, alts[k'])
    ensures AltsFrom(s, i, alts, k).None?
    decreases |alts| - k
  {
    if k < |alts| {
      HopelessEnd(s, i, alts[k]);
      AltsFromRejects(s, i, alts, k + 1);
    }
  }

  lemma {:induction false} SearchFromRejects(s: string, i: nat, alts: seq<seq<Piece>>)
    requires i <= |s| && forall k :: 0 <= k < |alts| ==> Hopeless(s, alts[k])
    ensures SearchFrom(s, i, alts).None?
    decreases |s| - i
  {
    AltsFromRejects(s, i, alts, 0);
    if i < |s| {
      SearchFromRejects(s, i + 1, alts);
    }
  }

  /** `match` finds nothing when every alternative is hopeless. */
  lemma SearchRejects(s: string, alts: seq<seq<Piece>>)
    requires forall k :: 0 <= k < |alts| ==> Hopeless(s, alts[k])
    ensures Search(s, alts).None?
  {
    SearchFromRejects(s, 0, alts);
  }
}
