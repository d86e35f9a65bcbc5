/**
 * The patterns handleTranscript, matchesWake and matchesShutdown test a normalized
 * transcript against (app.js:190-272), written as tables of fragments, and the intent
 * they select, in the fixed order of handleTranscript.
 */
module Commands {
  import opened Wrappers
  import opened Chars
  import opened Pattern
  import Photo

  /** `\b(jarvis\s*(wake\s*up|start)|jarvis\s*word\s*wakker|jarvis\s*start)\b`, the nested group written out. */
  const WakeAlts: seq<seq<Piece>> := [
    [Word("jarvis"), Spaces(0), Word("wake"), Spaces(0), Word("up")],
    [Word("jarvis"), Spaces(0), Word("start")],
    [Word("jarvis"), Spaces(0), Word("word"), Spaces(0), Word("wakker")],
    [Word("jarvis"), Spaces(0), Word("start")]
  ]

  /** `\b(jarvis\s*(shut\s*down|stop|slaap|ga\s+slapen|slaapstand))\b` */
  const ShutdownAlts: seq<seq<Piece>> := [
    [Word("jarvis"), Spaces(0), Word("shut"), Spaces(0), Word("down")],
    [Word("jarvis"), Spaces(0), Word("stop")],
    [Word("jarvis"), Spaces(0), Word("slaap")],
    [Word("jarvis"), Spaces(0), Word("ga"), Spaces(1), Word("slapen")],
    [Word("jarvis"), Spaces(0), Word("slaapstand")]
  ]

  /** `\b(help|wat kan je|wat kun je)\b`: the spaces here are literal. */
  const HelpAlts: seq<seq<Piece>> := [[Word("help")], [Word("wat kan je")], [Word("wat kun je")]]

  /** `(verberg|wis|clear)\s+tekst`, unanchored and without `\b`. */
  const ClearAlts: seq<seq<Piece>> := [
    [Word("verberg"), Spaces(1), Word("tekst")],
    [Word("wis"), Spaces(1), Word("tekst")],
    [Word("clear"), Spaces(1), Word("tekst")]
  ]

  /** The lead of `(?:toon\s+tekst|schrijf\s+tekst|laat\s+tekst\s+zien|zeg|spreek)\s+(.+)`. */
  const ShowTextAlts: seq<seq<Piece>> := [
    [Word("toon"), Spaces(1), Word("tekst")],
    [Word("schrijf"), Spaces(1), Word("tekst")],
    [Word("laat"), Spaces(1), Word("tekst"), Spaces(1), Word("zien")],
    [Word("zeg")],
    [Word("spreek")]
  ]

  /** The lead of the second photo pattern, `(?:foto|afbeelding)\s+van\s+(.+)`. */
  const PhotoVanAlts: seq<seq<Piece>> := [
    [Word("foto"), Spaces(1), Word("van")],
    [Word("afbeelding"), Spaces(1), Word("van")]
  ]

  /** One alternative of `(?:toon|laat)\s+(?:mij\s+)?(?:een\s+)?(?:foto|afbeelding)`, with each optional group taken or not. */
  function AskAlt(verb: string, mij: bool, een: bool, noun: string): seq<Piece> {
    [Word(verb), Spaces(1)] + (if mij then [Word("mij"), Spaces(1)] else []) +
    (if een then [Word("een"), Spaces(1)] else []) + [Word(noun)]
  }

  /** The lead of the third photo pattern, expanded in backtracking order: verb, `mij` taken before
      skipped, `een` taken before skipped, then the noun. Every run of spaces in it is followed by a
      letter, so a run can only succeed at its full length, and this order of alternatives gives the
      same first match as the pattern's own. */
  const PhotoAskAlts: seq<seq<Piece>> := [
    AskAlt("toon", true, true, "foto"), AskAlt("toon", true, true, "afbeelding"),
    AskAlt("toon", true, false, "foto"), AskAlt("toon", true, false, "afbeelding"),
    AskAlt("toon", false, true, "foto"), AskAlt("toon", false, true, "afbeelding"),
    AskAlt("toon", false, false, "foto"), AskAlt("toon", false, false, "afbeelding"),
    AskAlt("laat", true, true, "foto"), AskAlt("laat", true, true, "afbeelding"),
    AskAlt("laat", true, false, "foto"), AskAlt("laat", true, false, "afbeelding"),
    AskAlt("laat", false, true, "foto"), AskAlt("laat", false, true, "afbeelding"),
    AskAlt("laat", false, false, "foto"), AskAlt("laat", false, false, "afbeelding")
  ]

  lemma AskAltWellFormed(verb: string, mij: bool, een: bool, noun: string)
    requires |verb| > 0 && |noun| > 0 && IsWordChar(noun[0])
    ensures WellFormed(AskAlt(verb, mij, een, noun))
  {
    var v, n := Word(verb), Word(noun);
    if mij && een {
      assert AskAlt(verb, mij, een, noun) == [v, Spaces(1), Word("mij"), Spaces(1), Word("een"), Spaces(1), n];
    } else if mij {
      assert AskAlt(verb, mij, een, noun) == [v, Spaces(1), Word("mij"), Spaces(1), n];
      FiveWellFormed(verb, 1, "mij", 1, noun);
    } else if een {
      assert AskAlt(verb, mij, een, noun) == [v, Spaces(1), Word("een"), Spaces(1), n];
      FiveWellFormed(verb, 1, "een", 1, noun);
    } else {
      assert AskAlt(verb, mij, een, noun) == [v, Spaces(1), n];
      ThreeWellFormed(verb, 1, noun);
    }
  }

  lemma TablesWellFormed()
    ensures AllWellFormed(WakeAlts) && AllWellFormed(ShutdownAlts) && AllWellFormed(HelpAlts)
    ensures AllWellFormed(ClearAlts) && AllWellFormed(ShowTextAlts) && AllWellFormed(PhotoVanAlts)
    ensures AllWellFormed(PhotoAskAlts)
  {
    WakeWellFormed();
    ShutdownWellFormed();
    ClearWellFormed();
    ShowTextWellFormed();
    PhotoVanWellFormed();
    PhotoAskWellFormed();
  }

  lemma ThreeWellFormed(a: string, m: nat, b: string)
    requires |b| > 0 && IsWordChar(b[0])
    ensures WellFormed([Word(a), Spaces(m), Word(b)])
  {
  }

  lemma FiveWellFormed(a: string, m: nat, b: string, n: nat, c: string)
    requires |b| > 0 && IsWordChar(b[0]) && |c| > 0 && IsWordChar(c[0])
    ensures WellFormed([Word(a), Spaces(m), Word(b), Spaces(n), Word(c)])
  {
  }

  lemma WakeWellFormed() ensures AllWellFormed(WakeAlts) {
    FiveWellFormed("jarvis", 0, "wake", 0, "up");
    ThreeWellFormed("jarvis", 0, "start");
    FiveWellFormed("jarvis", 0, "word", 0, "wakker");
  }

  lemma ShutdownWellFormed() ensures AllWellFormed(ShutdownAlts) {
    FiveWellFormed("jarvis", 0, "shut", 0, "down");
    ThreeWellFormed("jarvis", 0, "stop");
    ThreeWellFormed("jarvis", 0, "slaap");
    FiveWellFormed("jarvis", 0, "ga", 1, "slapen");
    ThreeWellFormed("jarvis", 0, "slaapstand");
  }

  lemma ClearWellFormed() ensures AllWellFormed(ClearAlts) {
    ThreeWellFormed("verberg", 1, "tekst");
    ThreeWellFormed("wis", 1, "tekst");
    ThreeWellFormed("clear", 1, "tekst");
  }

  lemma ShowTextWellFormed() ensures AllWellFormed(ShowTextAlts) {
    ThreeWellFormed("toon", 1, "tekst");
    ThreeWellFormed("schrijf", 1, "tekst");
    FiveWellFormed("laat", 1, "tekst", 1, "zien");
  }

  lemma PhotoVanWellFormed() ensures AllWellFormed(PhotoVanAlts) {
    ThreeWellFormed("foto", 1, "van");
    ThreeWellFormed("afbeelding", 1, "van");
  }

  lemma PhotoAskWellFormed() ensures AllWellFormed(PhotoAskAlts) {
    AskAltWellFormed("toon", true, true, "foto"); AskAltWellFormed("toon", true, true, "afbeelding");
    AskAltWellFormed("toon", true, false, "foto"); AskAltWellFormed("toon", true, false, "afbeelding");
    AskAltWellFormed("toon", false, true, "foto"); AskAltWellFormed("toon", false, true, "afbeelding");
    AskAltWellFormed("toon", false, false, "foto"); AskAltWellFormed("toon", false, false, "afbeelding");
    AskAltWellFormed("laat", true, true, "foto"); AskAltWellFormed("laat", true, true, "afbeelding");
    AskAltWellFormed("laat", true, false, "foto"); AskAltWellFormed("laat", true, false, "afbeelding");
    AskAltWellFormed("laat", false, true, "foto"); AskAltWellFormed("laat", false, true, "afbeelding");
    AskAltWellFormed("laat", false, false, "foto"); AskAltWellFormed("laat", false, false, "afbeelding");
  }

  /** matchesWake (app.js:261-263). */
  predicate MatchesWake(text: string) {
    Test(text, WakeAlts, true)
  }

  /** matchesShutdown (app.js:265-267). */
  predicate MatchesShutdown(text: string) {
    Test(text, ShutdownAlts, true)
  }

  /** The help test of handleTranscript (app.js:215). */
  predicate MatchesHelp(text: string) {
    Test(text, HelpAlts, true)
  }

  /** The clear-text test of handleTranscript (app.js:223). */
  predicate MatchesClear(text: string) {
    Test(text, ClearAlts, false)
  }

  /** Each test answers exactly what its regular expression answers. */
  lemma TestsAreTheirPatterns(text: string)
    ensures MatchesWake(text) <==> TestSpec(text, WakeAlts, true)
    ensures MatchesShutdown(text) <==> TestSpec(text, ShutdownAlts, true)
    ensures MatchesHelp(text) <==> TestSpec(text, HelpAlts, true)
    ensures MatchesClear(text) <==> TestSpec(text, ClearAlts, false)
  {
    TablesWellFormed();
    TestIsSpec(text, WakeAlts, true);
    TestIsSpec(text, ShutdownAlts, true);
    TestIsSpec(text, HelpAlts, true);
    TestIsSpec(text, ClearAlts, false);
  }

  /** `textMatch[1].trim()` when the show-text pattern matches (app.js:232-234). The group `(.+)`
      is never empty, so the `textMatch[1]` guard always holds once the pattern matched. */
  function ShowTextContent(text: string): (r: Option<string>)
  {
    match Search(text, ShowTextAlts)
    case Some(f) => Some(Trim(text[f.group.lo..f.group.hi]))
    case None => None
  }

  /** `photoMatch[1]` (app.js:243-246): the group of the first of the three patterns that matches. */
  function PhotoSubject(text: string): (r: Option<string>)
    ensures r.Some? ==> |r.value| > 0
  {
    match Photo.Search(text)
    case Some(t) => Some(text[t.c..t.e])
    case None =>
      match Search(text, PhotoVanAlts)
      case Some(f) => Some(text[f.group.lo..f.group.hi])
      case None =>
        match Search(text, PhotoAskAlts)
        case Some(f) => Some(text[f.group.lo..f.group.hi])
        case None => None
  }

  // ---------------------------------------------------------------------------
  // sanitizeQuery (app.js:269-272)

  /** The class `[.!?\s]`. */
  predicate IsTrailing(c: char) {
    c == '.' || c == '!' || c == '?' || IsSpace(c)
  }

  /** `q.replace(/[.!?\s]+$/g, '')`: q without its trailing run of `[.!?\s]`. */
  function StripTrailing(q: string): (r: string)
    ensures |r| <= |q| && r == q[..|r|]
    ensures forall k :: |r| <= k < |q| ==> IsTrailing(q[k])
    ensures r == [] || !IsTrailing(r[|r| - 1])
    decreases |q|
  {
    if q != [] && IsTrailing(q[|q| - 1]) then StripTrailing(q[..|q| - 1]) else q
  }

  /** `[.!?\s]+$` matches from position i. */
  ghost predicate TrailingMatchAt(q: string, i: nat) {
    i < |q| && forall k :: i <= k < |q| ==> IsTrailing(q[k])
  }

  /** StripTrailing removes exactly the leftmost match of `[.!?\s]+$`, or nothing when there is none;
      after it, the global search resumes at the end of the string, where `+` finds nothing more. */
  lemma StripTrailingIsReplace(q: string)
    ensures var r := StripTrailing(q);
      if exists i: nat :: TrailingMatchAt(q, i)
      then TrailingMatchAt(q, |r|) && forall j: nat :: j < |r| ==> !TrailingMatchAt(q, j)
      else r == q
  {
    var r := StripTrailing(q);
    if |r| < |q| {
      assert TrailingMatchAt(q, |r|);
    }
    forall j: nat | j < |r| ensures !TrailingMatchAt(q, j) {
      assert q[|r| - 1] == r[|r| - 1];
    }
  }

  const MaxQuery := 80

  /** sanitizeQuery: strip the trailing punctuation and whitespace, then `slice(0, 80)`. */
  function SanitizeQuery(q: string): string {
    var r := StripTrailing(q);
    if |r| <= MaxQuery then r else r[..MaxQuery]
  }

  /** The result is a prefix of the input of at most 80 characters, and it ends in none of
      `.`, `!`, `?` or whitespace when the stripped text already fits in 80 characters. */
  lemma SanitizeQueryShape(q: string)
    ensures var r := SanitizeQuery(q);
      |r| <= MaxQuery && |r| <= |q| && r == q[..|r|] &&
      (|StripTrailing(q)| <= MaxQuery ==> r == [] || !IsTrailing(r[|r| - 1]))
  {
    var s := StripTrailing(q);
    if |s| > MaxQuery {
      assert q[..MaxQuery] == s[..MaxQuery];
    }
  }

  /** Truncation comes after stripping, so a long query can still end in a space. */
  lemma SanitizeQueryCanEndInSpace(x: string)
    requires |x| == MaxQuery - 1
    ensures SanitizeQuery(x + " b") == x + " "
  {
    assert (x + " b")[..MaxQuery] == x + " ";
  }

  // ---------------------------------------------------------------------------
  // The intent handleTranscript selects

  /** What handleTranscript decides to do with a transcript, before the awake flag is consulted. */
  datatype Intent = Wake | Shutdown | Help | ClearText | ShowText(content: string) | ShowPhoto(query: string) | Fallback

  /** The rules of handleTranscript in their fixed order: wake, shutdown, help, clear, show text,
      photo, and the fallback (app.js:190-258). The awake flag is consulted between the second and
      third rule; since none of the tests has an effect, classifying first is the same. */
  function Classify(text: string): Intent {
    if MatchesWake(text) then Wake
    else if MatchesShutdown(text) then Shutdown
    else if MatchesHelp(text) then Help
    else if MatchesClear(text) then ClearText
    else match ShowTextContent(text)
      case Some(content) => ShowText(content)
      case None =>
        match PhotoSubject(text)
        case Some(subject) => ShowPhoto(SanitizeQuery(subject))
        case None => Fallback
  }

  // ---------------------------------------------------------------------------
  // Letters each test needs: used to rule tests out on a given transcript

  /** Every wake phrase contains "jarvis", and "wake", "wakker" (k) or "start" (t). */
  lemma WakeNeeds(s: string)
    ensures MatchesWake(s) ==> 'j' in s && ('k' in s || 't' in s)
  {
    if 'j' !in s || ('k' !in s && 't' !in s) {
      var m := if 'j' !in s then 0 else 2;
      assert Misses(s, WakeAlts[0], m, if m == 0 then 0 else 2);
      assert Misses(s, WakeAlts[1], m, if m == 0 then 0 else 1);
      assert Misses(s, WakeAlts[2], if m == 0 then 0 else 4, if m == 0 then 0 else 2);
      assert Misses(s, WakeAlts[3], m, if m == 0 then 0 else 1);
      TestRejects(s, WakeAlts, true);
    }
  }

  /** Every shutdown phrase contains "jarvis". */
  lemma ShutdownNeeds(s: string)
    ensures MatchesShutdown(s) ==> 'j' in s
  {
    if 'j' !in s {
      assert Misses(s, ShutdownAlts[0], 0, 0);
      assert Misses(s, ShutdownAlts[1], 0, 0);
      assert Misses(s, ShutdownAlts[2], 0, 0);
      assert Misses(s, ShutdownAlts[3], 0, 0);
      assert Misses(s, ShutdownAlts[4], 0, 0);
      TestRejects(s, ShutdownAlts, true);
    }
  }

  /** "help" contains p, the other two help phrases j. */
  lemma HelpNeeds(s: string)
    ensures MatchesHelp(s) ==> 'p' in s || 'j' in s
  {
    if 'p' !in s && 'j' !in s {
      assert Misses(s, HelpAlts[0], 0, 3);
      assert Misses(s, HelpAlts[1], 0, 8);
      assert Misses(s, HelpAlts[2], 0, 8);
      TestRejects(s, HelpAlts, true);
    }
  }

  /** Every clear phrase ends in "tekst" and starts with "verberg", "wis" or "clear". */
  lemma ClearNeeds(s: string)
    ensures MatchesClear(s) ==> 's' in s && ('v' in s || 'i' in s || 'c' in s)
  {
    if 's' !in s {
      assert Misses(s, ClearAlts[0], 2, 3);
      assert Misses(s, ClearAlts[1], 2, 3);
      assert Misses(s, ClearAlts[2], 2, 3);
      TestRejects(s, ClearAlts, false);
    } else if 'v' !in s && 'i' !in s && 'c' !in s {
      assert Misses(s, ClearAlts[0], 0, 0);
      assert Misses(s, ClearAlts[1], 0, 1);
      assert Misses(s, ClearAlts[2], 0, 0);
      TestRejects(s, ClearAlts, false);
    }
  }

  /** Every show-text lead but "zeg" contains an s. */
  lemma ShowTextNeeds(s: string)
    ensures ShowTextContent(s).Some? ==> 's' in s || 'z' in s
  {
    if 's' !in s && 'z' !in s {
      assert Misses(s, ShowTextAlts[0], 2, 3);
      assert Misses(s, ShowTextAlts[1], 0, 0);
      assert Misses(s, ShowTextAlts[2], 2, 3);
      assert Misses(s, ShowTextAlts[3], 0, 0);
      assert Misses(s, ShowTextAlts[4], 0, 0);
      SearchRejects(s, ShowTextAlts);
    }
  }

  /** Each photo pattern needs a verb or "van". */
  lemma PhotoNeeds(s: string)
    ensures PhotoSubject(s).Some? ==> 't' in s || 'l' in s || 'g' in s || 'v' in s
  {
    Photo.SearchNeedsVerb(s);
    if 't' !in s && 'l' !in s && 'g' !in s && 'v' !in s {
      assert Misses(s, PhotoVanAlts[0], 2, 0);
      assert Misses(s, PhotoVanAlts[1], 2, 0);
      SearchRejects(s, PhotoVanAlts);
      forall k | 0 <= k < |PhotoAskAlts| ensures Hopeless(s, PhotoAskAlts[k]) {
        assert Misses(s, PhotoAskAlts[k], 0, 0);
      }
      SearchRejects(s, PhotoAskAlts);
    }
  }
}
