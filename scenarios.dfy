/**
 * handleTranscript on concrete transcripts: the examples of the header comment of app.js
 * (app.js:1-10) and the help text, and the quirks of the patterns as written. Each
 * scenario takes its transcript as a parameter fixed by its precondition; the smaller
 * lemmas before it evaluate one matcher step each.
 */
module Scenarios {
  import opened Wrappers
  import opened Chars
  import opened Pattern
  import opened Commands
  import opened Router
  import Photo

  /** Without j and p no wake, shutdown or help phrase occurs; without s, or without v, i and c, no clear phrase. */
  lemma NoEarlierRule(s: string)
    requires 'j' !in s && 'p' !in s && ('s' !in s || ('v' !in s && 'i' !in s && 'c' !in s))
    ensures !MatchesWake(s) && !MatchesShutdown(s) && !MatchesHelp(s) && !MatchesClear(s)
  {
    WakeNeeds(s);
    ShutdownNeeds(s);
    HelpNeeds(s);
    ClearNeeds(s);
  }

  lemma ClassifyAsShowText(text: string, content: string)
    requires !MatchesWake(text) && !MatchesShutdown(text) && !MatchesHelp(text) && !MatchesClear(text)
    requires ShowTextContent(text) == Some(content)
    ensures Classify(text) == Intent.ShowText(content)
  {
  }

  lemma ClassifyAsPhoto(text: string, subject: string)
    requires !MatchesWake(text) && !MatchesShutdown(text) && !MatchesHelp(text) && !MatchesClear(text)
    requires ShowTextContent(text) == None && PhotoSubject(text) == Some(subject)
    ensures Classify(text) == Intent.ShowPhoto(SanitizeQuery(subject))
  {
  }

  // ---------------------------------------------------------------------------
  // "jarvis wake up" and "jarviswakeup"

  lemma WakeUpEnd(s: string)
    requires s == "jarvis wake up"
    ensures End(s, 0, WakeAlts[0]) == Some(14)
  {
    var ps := WakeAlts[0];
    assert ps == [Word("jarvis"), Spaces(0), Word("wake"), Spaces(0), Word("up")];
    WakeUpWords(s);
    assert End(s, 14, ps[5..]) == Some(14);
    assert End(s, 12, ps[4..]) == Some(14);
    assert End(s, 11, ps[3..]) == Some(14);
    assert End(s, 7, ps[2..]) == Some(14);
    assert End(s, 6, ps[1..]) == Some(14);
  }

  lemma WakeUpWords(s: string)
    requires s == "jarvis wake up"
    ensures HasAt(s, 0, "jarvis") && SkipSpaces(s, 6) == 7 && HasAt(s, 7, "wake")
    ensures SkipSpaces(s, 11) == 12 && HasAt(s, 12, "up")
  {
  }

  lemma WakeUpMatches(s: string)
    requires s == "jarvis wake up"
    ensures MatchesWake(s)
  {
    WakeUpEnd(s);
    assert AltAt(s, 0, WakeAlts[0], true);
    assert AnyAltAt(s, 0, WakeAlts, true, 0);
  }

  /** The wake example of the header comment, at nine in the morning, while asleep. */
  lemma ScenarioWakeUp(s: string)
    requires s == "jarvis wake up"
    ensures HandleTranscript(false, s, 9) ==
      Outcome(true, [Speak("Goedemorgen." + AwakeTail), Log(FromJarvis, "Ik ben wakker.")])
  {
    WakeUpMatches(s);
    assert Greeting(9) == "Goedemorgen.";
  }

  lemma GluedEnd(s: string)
    requires s == "jarviswakeup"
    ensures End(s, 0, WakeAlts[0]) == Some(12)
  {
    var ps := WakeAlts[0];
    assert ps == [Word("jarvis"), Spaces(0), Word("wake"), Spaces(0), Word("up")];
    GluedWords(s);
    assert End(s, 12, ps[5..]) == Some(12);
    assert End(s, 10, ps[4..]) == Some(12);
    assert End(s, 10, ps[3..]) == Some(12);
    assert End(s, 6, ps[2..]) == Some(12);
    assert End(s, 6, ps[1..]) == Some(12);
  }

  lemma GluedWords(s: string)
    requires s == "jarviswakeup"
    ensures HasAt(s, 0, "jarvis") && SkipSpaces(s, 6) == 6 && HasAt(s, 6, "wake")
    ensures SkipSpaces(s, 10) == 10 && HasAt(s, 10, "up")
  {
  }

  lemma GluedMatches(s: string)
    requires s == "jarviswakeup"
    ensures MatchesWake(s)
  {
    GluedEnd(s);
    assert AltAt(s, 0, WakeAlts[0], true);
    assert AnyAltAt(s, 0, WakeAlts, true, 0);
  }

  /** `\s*` lets the words run together: "jarviswakeup" is a wake command. */
  lemma ScenarioGluedWake(s: string)
    requires s == "jarviswakeup"
    ensures MatchesWake(s)
    ensures HandleTranscript(false, s, 20) ==
      Outcome(true, [Speak("Goedenavond." + AwakeTail), Log(FromJarvis, "Ik ben wakker.")])
  {
    GluedMatches(s);
    assert Greeting(20) == "Goedenavond.";
  }

  // ---------------------------------------------------------------------------
  // "jarvis ga slapen"

  lemma GaSlapenMisses(s: string)
    requires s == "jarvis ga slapen"
    ensures End(s, 0, ShutdownAlts[0]) == None && End(s, 0, ShutdownAlts[1]) == None
    ensures End(s, 0, ShutdownAlts[2]) == None
  {
    assert HasAt(s, 0, "jarvis");
    assert SkipSpaces(s, 6) == 7;
    assert !HasAt(s, 7, "shut") && !HasAt(s, 7, "stop") && !HasAt(s, 7, "slaap");
  }

  lemma GaSlapenEnd(s: string)
    requires s == "jarvis ga slapen"
    ensures End(s, 0, ShutdownAlts[3]) == Some(16)
  {
    var ps := ShutdownAlts[3];
    assert ps == [Word("jarvis"), Spaces(0), Word("ga"), Spaces(1), Word("slapen")];
    GaSlapenWords(s);
    assert End(s, 16, ps[5..]) == Some(16);
    assert End(s, 10, ps[4..]) == Some(16);
    assert End(s, 9, ps[3..]) == Some(16);
    assert End(s, 7, ps[2..]) == Some(16);
    assert End(s, 6, ps[1..]) == Some(16);
  }

  lemma GaSlapenWords(s: string)
    requires s == "jarvis ga slapen"
    ensures HasAt(s, 0, "jarvis") && SkipSpaces(s, 6) == 7 && HasAt(s, 7, "ga")
    ensures SkipSpaces(s, 9) == 10 && HasAt(s, 10, "slapen")
  {
  }

  lemma GaSlapenShutdown(s: string)
    requires s == "jarvis ga slapen"
    ensures MatchesShutdown(s)
  {
    GaSlapenEnd(s);
    assert AltAt(s, 0, ShutdownAlts[3], true);
    assert AnyAltAt(s, 0, ShutdownAlts, true, 3);
    assert AnyAltAt(s, 0, ShutdownAlts, true, 2);
    assert AnyAltAt(s, 0, ShutdownAlts, true, 1);
    assert AnyAltAt(s, 0, ShutdownAlts, true, 0);
  }

  lemma GaSlapenChars(s: string)
    requires s == "jarvis ga slapen"
    ensures forall k :: 0 <= k < |s| ==> s[k] != 'k' && s[k] != 't'
  {
  }

  lemma GaSlapenLetters(s: string)
    requires s == "jarvis ga slapen"
    ensures 'k' !in s && 't' !in s
  {
    GaSlapenChars(s);
  }

  lemma GaSlapenMatches(s: string)
    requires s == "jarvis ga slapen"
    ensures MatchesShutdown(s) && !MatchesWake(s)
  {
    GaSlapenShutdown(s);
    GaSlapenLetters(s);
    WakeNeeds(s);
  }

  /** A Dutch shutdown phrase while awake. */
  lemma ScenarioGaSlapen(s: string)
    requires s == "jarvis ga slapen"
    ensures HandleTranscript(true, s, 14) ==
      Outcome(false, [Speak("Ik ga slapen. Tot later."), Log(FromJarvis, "Ga naar slaapstand.")])
  {
    GaSlapenMatches(s);
  }

  // ---------------------------------------------------------------------------
  // "jarvis shut down"

  lemma ShutDownWords(s: string)
    requires s == "jarvis shut down"
    ensures HasAt(s, 0, "jarvis") && SkipSpaces(s, 6) == 7 && HasAt(s, 7, "shut")
    ensures SkipSpaces(s, 11) == 12 && HasAt(s, 12, "down")
  {
  }

  lemma ShutDownEnd(s: string)
    requires s == "jarvis shut down"
    ensures End(s, 0, ShutdownAlts[0]) == Some(16)
  {
    var ps := ShutdownAlts[0];
    assert ps == [Word("jarvis"), Spaces(0), Word("shut"), Spaces(0), Word("down")];
    ShutDownWords(s);
    assert End(s, 16, ps[5..]) == Some(16);
    assert End(s, 12, ps[4..]) == Some(16);
    assert End(s, 11, ps[3..]) == Some(16);
    assert End(s, 7, ps[2..]) == Some(16);
    assert End(s, 6, ps[1..]) == Some(16);
  }

  lemma ShutDownShutdown(s: string)
    requires s == "jarvis shut down"
    ensures MatchesShutdown(s)
  {
    ShutDownEnd(s);
    assert IsBoundary(s, 0) && IsBoundary(s, 16);
    assert AltAt(s, 0, ShutdownAlts[0], true);
    assert AnyAltAt(s, 0, ShutdownAlts, true, 0);
  }

  /** After "jarvis " comes "shut", which none of the wake alternatives continues with. */
  lemma ShutDownWakeMisses(s: string)
    requires s == "jarvis shut down"
    ensures !AnyAltAt(s, 0, WakeAlts, true, 0)
  {
    ShutDownWords(s);
    assert !HasAt(s, 7, "wake") && !HasAt(s, 7, "start") && !HasAt(s, 7, "word");
    var a, b, c := WakeAlts[0], WakeAlts[1], WakeAlts[2];
    assert a == [Word("jarvis"), Spaces(0), Word("wake"), Spaces(0), Word("up")];
    assert b == [Word("jarvis"), Spaces(0), Word("start")] == WakeAlts[3];
    assert c == [Word("jarvis"), Spaces(0), Word("word"), Spaces(0), Word("wakker")];
    assert End(s, 7, a[2..]) == None && End(s, 6, a[1..]) == None;
    assert End(s, 7, b[2..]) == None && End(s, 6, b[1..]) == None;
    assert End(s, 7, c[2..]) == None && End(s, 6, c[1..]) == None;
    assert !AnyAltAt(s, 0, WakeAlts, true, 3);
    assert !AnyAltAt(s, 0, WakeAlts, true, 2);
    assert !AnyAltAt(s, 0, WakeAlts, true, 1);
  }

  lemma ShutDownOneJ(s: string)
    requires s == "jarvis shut down"
    ensures forall j :: 1 <= j < |s| ==> s[j] != 'j'
  {
  }

  lemma WakeLeadsWithJ()
    ensures forall k :: 0 <= k < |WakeAlts| ==> Leads(WakeAlts[k], 'j')
  {
  }

  /** "jarvis shut down" contains every letter of "jarvis start" and "jarvis word wakker", yet it is no wake command. */
  lemma ShutDownNotWake(s: string)
    requires s == "jarvis shut down"
    ensures !MatchesWake(s)
  {
    ShutDownWakeMisses(s);
    ShutDownOneJ(s);
    WakeLeadsWithJ();
    TestFromLead(s, 1, WakeAlts, true, 'j');
  }

  /** The shutdown example of the header comment, while already asleep: only the reminder is spoken. */
  lemma ScenarioShutDownAsleep(s: string, hour: int)
    requires s == "jarvis shut down"
    ensures HandleTranscript(false, s, hour) == Outcome(false, [Speak("Ik ben al in slaapstand.")])
  {
    ShutDownShutdown(s);
    ShutDownNotWake(s);
  }

  // ---------------------------------------------------------------------------
  // "toon tekst hallo wereld"

  lemma TekstEnd(s: string)
    requires s == "toon tekst hallo wereld"
    ensures End(s, 0, ShowTextAlts[0]) == Some(10)
  {
    var ps := ShowTextAlts[0];
    assert ps == [Word("toon"), Spaces(1), Word("tekst")];
    TekstWords(s);
    assert End(s, 10, ps[3..]) == Some(10);
    assert End(s, 5, ps[2..]) == Some(10);
    assert End(s, 4, ps[1..]) == Some(10);
  }

  lemma TekstWords(s: string)
    requires s == "toon tekst hallo wereld"
    ensures HasAt(s, 0, "toon") && SkipSpaces(s, 4) == 5 && HasAt(s, 5, "tekst")
  {
  }

  lemma TekstTail(s: string)
    requires s == "toon tekst hallo wereld"
    ensures Tail(s, 10) == Some(Span(11, 23))
  {
    TekstTailFacts(s);
    TekstLineEnd(s);
    assert GroupStart(s, 10, 11) == Some(11);
    TerminatorRunBound(s, 11, 23);
  }

  lemma TekstTailFacts(s: string)
    requires s == "toon tekst hallo wereld"
    ensures SkipSpaces(s, 10) == 11 && !IsLineTerminator(s[11])
  {
  }

  lemma TekstLineEnd(s: string)
    requires s == "toon tekst hallo wereld"
    ensures NoTerminator(s, 11, 23)
  {
  }


  lemma TekstSearch(s: string)
    requires s == "toon tekst hallo wereld"
    ensures Search(s, ShowTextAlts) == Some(Found(0, 0, Span(11, 23)))
  {
    TekstEnd(s);
    TekstTail(s);
    assert AltsFrom(s, 0, ShowTextAlts, 0) == Some(Found(0, 0, Span(11, 23)));
  }

  lemma TekstContent(s: string)
    requires s == "toon tekst hallo wereld"
    ensures ShowTextContent(s) == Some("hallo wereld")
  {
    TekstSearch(s);
    TekstGroup(s);
    HalloWereld(s[11..23]);
  }

  lemma TekstGroup(s: string)
    requires s == "toon tekst hallo wereld"
    ensures s[11..23] == "hallo wereld"
  {
  }

  lemma HalloWereld(g: string)
    requires g == "hallo wereld"
    ensures Trim(g) == g
  {
    TrimUnpadded(g);
  }

  lemma TekstChars(s: string)
    requires s == "toon tekst hallo wereld"
    ensures forall k :: 0 <= k < |s| ==> s[k] != 'j' && s[k] != 'p' && s[k] != 'v' && s[k] != 'i' && s[k] != 'c'
  {
  }

  lemma TekstLetters(s: string)
    requires s == "toon tekst hallo wereld"
    ensures 'j' !in s && 'p' !in s && 'v' !in s && 'i' !in s && 'c' !in s
  {
    TekstChars(s);
  }

  lemma TekstIntent(s: string)
    requires s == "toon tekst hallo wereld"
    ensures Classify(s) == Intent.ShowText("hallo wereld")
  {
    TekstLetters(s);
    NoEarlierRule(s);
    TekstContent(s);
    ClassifyAsShowText(s, "hallo wereld");
  }

  /** The text example of the help text: the rest of the sentence is shown and spoken. */
  lemma ScenarioShowText(s: string)
    requires s == "toon tekst hallo wereld"
    ensures HandleTranscript(true, s, 10) ==
      Outcome(true, [Action.ShowText("hallo wereld"), Speak("hallo wereld"), Log(FromJarvis, "Tekst getoond en uitgesproken.")])
  {
    TekstIntent(s);
  }

  /** The same command while asleep is dropped by the sleep gate. */
  lemma ScenarioShowTextAsleep(s: string)
    requires s == "toon tekst hallo wereld"
    ensures HandleTranscript(false, s, 10) == Outcome(false, [])
  {
    TekstIntent(s);
  }

  // ---------------------------------------------------------------------------
  // "ik zeg hallo"

  lemma ZegNoEarlierStart(s: string)
    requires s == "ik zeg hallo"
    ensures AltsFrom(s, 0, ShowTextAlts, 0) == None
    ensures AltsFrom(s, 1, ShowTextAlts, 0) == None
    ensures AltsFrom(s, 2, ShowTextAlts, 0) == None
  {
    assert !HasAt(s, 0, "toon") && !HasAt(s, 0, "schrijf") && !HasAt(s, 0, "laat") && !HasAt(s, 0, "zeg") && !HasAt(s, 0, "spreek");
    assert !HasAt(s, 1, "toon") && !HasAt(s, 1, "schrijf") && !HasAt(s, 1, "laat") && !HasAt(s, 1, "zeg") && !HasAt(s, 1, "spreek");
    assert !HasAt(s, 2, "toon") && !HasAt(s, 2, "schrijf") && !HasAt(s, 2, "laat") && !HasAt(s, 2, "zeg") && !HasAt(s, 2, "spreek");
  }

  lemma ZegAtThree(s: string)
    requires s == "ik zeg hallo"
    ensures AltsFrom(s, 3, ShowTextAlts, 0) == Some(Found(3, 3, Span(7, 12)))
  {
    ZegMisses(s);
    ZegEnd(s);
    ZegTail(s);
    assert AltsFrom(s, 3, ShowTextAlts, 3) == Some(Found(3, 3, Span(7, 12)));
    assert AltsFrom(s, 3, ShowTextAlts, 2) == Some(Found(3, 3, Span(7, 12)));
    assert AltsFrom(s, 3, ShowTextAlts, 1) == Some(Found(3, 3, Span(7, 12)));
  }

  lemma ZegMisses(s: string)
    requires s == "ik zeg hallo"
    ensures End(s, 3, ShowTextAlts[0]) == None && End(s, 3, ShowTextAlts[1]) == None
    ensures End(s, 3, ShowTextAlts[2]) == None
  {
    assert !HasAt(s, 3, "toon") && !HasAt(s, 3, "schrijf") && !HasAt(s, 3, "laat");
  }

  lemma ZegEnd(s: string)
    requires s == "ik zeg hallo"
    ensures End(s, 3, ShowTextAlts[3]) == Some(6)
  {
    var ps := ShowTextAlts[3];
    assert ps == [Word("zeg")];
    ZegWord(s);
    assert End(s, 6, ps[1..]) == Some(6);
  }

  lemma ZegWord(s: string)
    requires s == "ik zeg hallo"
    ensures HasAt(s, 3, "zeg")
  {
  }

  lemma ZegTail(s: string)
    requires s == "ik zeg hallo"
    ensures Tail(s, 6) == Some(Span(7, 12))
  {
    ZegTailFacts(s);
    ZegLineEnd(s);
    assert GroupStart(s, 6, 7) == Some(7);
    TerminatorRunBound(s, 7, 12);
  }

  lemma ZegTailFacts(s: string)
    requires s == "ik zeg hallo"
    ensures SkipSpaces(s, 6) == 7 && !IsLineTerminator(s[7])
  {
  }

  lemma ZegLineEnd(s: string)
    requires s == "ik zeg hallo"
    ensures NoTerminator(s, 7, 12)
  {
  }


  lemma ZegSearch(s: string)
    requires s == "ik zeg hallo"
    ensures Search(s, ShowTextAlts) == Some(Found(3, 3, Span(7, 12)))
  {
    ZegNoEarlierStart(s);
    ZegAtThree(s);
    assert SearchFrom(s, 3, ShowTextAlts) == Some(Found(3, 3, Span(7, 12)));
    assert SearchFrom(s, 2, ShowTextAlts) == Some(Found(3, 3, Span(7, 12)));
    assert SearchFrom(s, 1, ShowTextAlts) == Some(Found(3, 3, Span(7, 12)));
  }

  lemma ZegContent(s: string)
    requires s == "ik zeg hallo"
    ensures ShowTextContent(s) == Some("hallo")
  {
    ZegSearch(s);
    ZegGroup(s);
    Hallo(s[7..12]);
  }

  lemma ZegGroup(s: string)
    requires s == "ik zeg hallo"
    ensures s[7..12] == "hallo"
  {
  }

  lemma Hallo(g: string)
    requires g == "hallo"
    ensures Trim(g) == g
  {
    TrimUnpadded(g);
  }

  lemma ZegChars(s: string)
    requires s == "ik zeg hallo"
    ensures forall k :: 0 <= k < |s| ==> s[k] != 'j' && s[k] != 'p' && s[k] != 's'
  {
  }

  lemma ZegLetters(s: string)
    requires s == "ik zeg hallo"
    ensures 'j' !in s && 'p' !in s && 's' !in s
  {
    ZegChars(s);
  }

  lemma ZegIntent(s: string)
    requires s == "ik zeg hallo"
    ensures Classify(s) == Intent.ShowText("hallo")
  {
    ZegLetters(s);
    NoEarlierRule(s);
    ZegContent(s);
    ClassifyAsShowText(s, "hallo");
  }

  /** The show-text pattern is not anchored: "zeg" in the middle of a sentence triggers it. */
  lemma ScenarioUnanchoredZeg(s: string)
    requires s == "ik zeg hallo"
    ensures HandleTranscript(true, s, 10) ==
      Outcome(true, [Action.ShowText("hallo"), Speak("hallo"), Log(FromJarvis, "Tekst getoond en uitgesproken.")])
  {
    ZegIntent(s);
  }

  // ---------------------------------------------------------------------------
  // "verberg tekst"

  lemma VerbergMatches(s: string)
    requires s == "verberg tekst"
    ensures MatchesClear(s)
  {
    assert HasAt(s, 0, "verberg");
    assert SkipSpaces(s, 7) == 8;
    assert HasAt(s, 8, "tekst");
    assert End(s, 0, ClearAlts[0]) == Some(13);
    assert AltAt(s, 0, ClearAlts[0], false);
    assert AnyAltAt(s, 0, ClearAlts, false, 0);
  }

  lemma VerbergChars(s: string)
    requires s == "verberg tekst"
    ensures forall k :: 0 <= k < |s| ==> s[k] != 'j' && s[k] != 'p'
  {
  }

  lemma VerbergLetters(s: string)
    requires s == "verberg tekst"
    ensures 'j' !in s && 'p' !in s
  {
    VerbergChars(s);
  }

  /** The clear example of the header comment. */
  lemma ScenarioClear(s: string)
    requires s == "verberg tekst"
    ensures HandleTranscript(true, s, 10) ==
      Outcome(true, [HideText, Speak("Tekst verborgen."), Log(FromJarvis, "Tekst verborgen.")])
  {
    VerbergLetters(s);
    WakeNeeds(s);
    ShutdownNeeds(s);
    HelpNeeds(s);
    VerbergMatches(s);
  }

  // ---------------------------------------------------------------------------
  // "foto van katten"

  lemma KattenNoVerbLate(s: string)
    requires s == "foto van katten"
    ensures Photo.SearchFrom(s, 8) == None
  {
    assert Photo.SearchFrom(s, 15) == None;
    assert Photo.SearchFrom(s, 14) == None;
    assert Photo.SearchFrom(s, 13) == None;
    assert Photo.SearchFrom(s, 12) == None;
    assert Photo.SearchFrom(s, 11) == None;
    assert Photo.SearchFrom(s, 10) == None;
    assert Photo.SearchFrom(s, 9) == None;
  }

  lemma KattenNoFirstPattern(s: string)
    requires s == "foto van katten"
    ensures Photo.Search(s) == None
  {
    KattenNoVerbLate(s);
    assert Photo.SearchFrom(s, 7) == None;
    assert Photo.SearchFrom(s, 6) == None;
    assert Photo.SearchFrom(s, 5) == None;
    assert Photo.SearchFrom(s, 4) == None;
    assert Photo.SearchFrom(s, 3) == None;
    assert Photo.SearchFrom(s, 2) == None;
    assert Photo.SearchFrom(s, 1) == None;
  }

  lemma KattenVanEnd(s: string)
    requires s == "foto van katten"
    ensures End(s, 0, PhotoVanAlts[0]) == Some(8)
  {
    assert HasAt(s, 0, "foto");
    assert SkipSpaces(s, 4) == 5;
    assert HasAt(s, 5, "van");
  }

  lemma KattenVanTail(s: string)
    requires s == "foto van katten"
    ensures Tail(s, 8) == Some(Span(9, 15))
  {
    KattenVanTailFacts(s);
    KattenVanLineEnd(s);
    assert GroupStart(s, 8, 9) == Some(9);
    TerminatorRunBound(s, 9, 15);
  }

  lemma KattenVanTailFacts(s: string)
    requires s == "foto van katten"
    ensures SkipSpaces(s, 8) == 9 && !IsLineTerminator(s[9])
  {
  }

  lemma KattenVanLineEnd(s: string)
    requires s == "foto van katten"
    ensures NoTerminator(s, 9, 15)
  {
  }

  lemma KattenSecondPattern(s: string)
    requires s == "foto van katten"
    ensures Search(s, PhotoVanAlts) == Some(Found(0, 0, Span(9, 15)))
  {
    KattenVanEnd(s);
    KattenVanTail(s);
    assert AltsFrom(s, 0, PhotoVanAlts, 0) == Some(Found(0, 0, Span(9, 15)));
    assert SearchFrom(s, 0, PhotoVanAlts) == Some(Found(0, 0, Span(9, 15)));
  }

  lemma KattenSubject(s: string)
    requires s == "foto van katten"
    ensures PhotoSubject(s) == Some("katten")
  {
    KattenNoFirstPattern(s);
    KattenSecondPattern(s);
    assert s[9..15] == "katten";
  }

  lemma KattenRules(s: string)
    requires s == "foto van katten"
    ensures !MatchesWake(s) && !MatchesShutdown(s) && !MatchesHelp(s) && !MatchesClear(s)
    ensures ShowTextContent(s) == None
  {
    KattenLetters(s);
    NoEarlierRule(s);
    ShowTextNeeds(s);
  }

  lemma KattenChars(s: string)
    requires s == "foto van katten"
    ensures forall k :: 0 <= k < |s| ==> s[k] != 'j' && s[k] != 'p' && s[k] != 's' && s[k] != 'z'
  {
  }

  lemma KattenLetters(s: string)
    requires s == "foto van katten"
    ensures 'j' !in s && 'p' !in s && 's' !in s && 'z' !in s
  {
    KattenChars(s);
  }

  lemma KattenQuery()
    ensures SanitizeQuery("katten") == "katten"
    ensures PhotoReply("katten") == "Toon een foto van katten."
  {
    assert StripTrailing("katten") == "katten";
  }

  lemma KattenIntent(s: string)
    requires s == "foto van katten"
    ensures Classify(s) == Intent.ShowPhoto("katten")
  {
    KattenRules(s);
    KattenSubject(s);
    KattenQuery();
    ClassifyAsPhoto(s, "katten");
  }

  /** The second photo pattern: "foto van katten" has no verb, and the query is "katten". */
  lemma ScenarioPhotoVan(s: string)
    requires s == "foto van katten"
    ensures HandleTranscript(true, s, 10) ==
      Outcome(true, [Action.ShowPhoto("katten"), Speak("Toon een foto van katten."), Log(FromJarvis, "Toon een foto van katten.")])
  {
    KattenIntent(s);
    KattenQuery();
  }

  // ---------------------------------------------------------------------------
  // "toon foto van katten"

  lemma ToonFotoRules(s: string)
    requires s == "toon foto van katten"
    ensures !MatchesWake(s) && !MatchesShutdown(s) && !MatchesHelp(s) && !MatchesClear(s)
    ensures ShowTextContent(s) == None
  {
    ToonFotoLetters(s);
    NoEarlierRule(s);
    ShowTextNeeds(s);
  }

  lemma ToonFotoChars(s: string)
    requires s == "toon foto van katten"
    ensures forall k :: 0 <= k < |s| ==> s[k] != 'j' && s[k] != 'p' && s[k] != 's' && s[k] != 'z'
  {
  }

  lemma ToonFotoLetters(s: string)
    requires s == "toon foto van katten"
    ensures 'j' !in s && 'p' !in s && 's' !in s && 'z' !in s
  {
    ToonFotoChars(s);
  }

  lemma ToonFotoQuery()
    ensures SanitizeQuery("van katten") == "van katten"
    ensures PhotoReply("van katten") == "Toon een foto van van katten."
  {
    assert StripTrailing("van katten") == "van katten";
  }

  lemma ToonFotoTail(s: string)
    requires s == "toon foto van katten"
    ensures Tail(s, 9) == Some(Span(10, 20))
  {
    ToonFotoTailFacts(s);
    ToonFotoLineEnd(s);
    assert GroupStart(s, 9, 10) == Some(10);
    TerminatorRunBound(s, 10, 20);
  }

  lemma ToonFotoTailFacts(s: string)
    requires s == "toon foto van katten"
    ensures SkipSpaces(s, 9) == 10 && !IsLineTerminator(s[10])
  {
  }

  lemma ToonFotoLineEnd(s: string)
    requires s == "toon foto van katten"
    ensures NoTerminator(s, 10, 20)
  {
  }


  lemma ToonFotoFiller(s: string)
    requires s == "toon foto van katten"
    ensures Photo.FromLazy2(s, 0, 0, 5, 0, 9) == Some(Photo.Choice(0, 0, 5, 0, 9, 2, 10, 20))
  {
    ToonFotoTail(s);
    assert !HasAt(s, 9, "van") && !HasAt(s, 9, "over");
    assert Photo.FromFiller(s, 0, 0, 5, 0, 9, 2) == Some(Photo.Choice(0, 0, 5, 0, 9, 2, 10, 20));
    assert Photo.FromFiller(s, 0, 0, 5, 0, 9, 1) == Some(Photo.Choice(0, 0, 5, 0, 9, 2, 10, 20));
    assert Photo.FromFiller(s, 0, 0, 5, 0, 9, 0) == Some(Photo.Choice(0, 0, 5, 0, 9, 2, 10, 20));
  }

  lemma ToonFotoSubject(s: string)
    requires s == "toon foto van katten"
    ensures PhotoSubject(s) == Some("van katten")
  {
    ToonFotoFirstPattern(s);
    assert s[10..20] == "van katten";
  }

  lemma ToonFotoFirstPattern(s: string)
    requires s == "toon foto van katten"
    ensures Photo.Search(s) == Some(Photo.Choice(0, 0, 5, 0, 9, 2, 10, 20))
  {
    ToonFotoFiller(s);
    assert HasAt(s, 5, "foto");
    assert Photo.FromNoun(s, 0, 0, 5, 0) == Some(Photo.Choice(0, 0, 5, 0, 9, 2, 10, 20));
    assert !HasAt(s, 4, "foto") && !HasAt(s, 4, "afbeelding");
    assert Photo.FromNoun(s, 0, 0, 4, 0) == None;
    assert Photo.FromLazy1(s, 0, 0, 4) == Some(Photo.Choice(0, 0, 5, 0, 9, 2, 10, 20));
    assert HasAt(s, 0, "toon");
    assert Photo.FromVerb(s, 0, 0) == Some(Photo.Choice(0, 0, 5, 0, 9, 2, 10, 20));
  }

  /** The first photo pattern takes "van" into the subject: its lazy `.*?` stop right after "foto",
      the optional "van" cannot match the space there, and `\s+(.+)` captures "van katten". */
  lemma ToonFotoIntent(s: string)
    requires s == "toon foto van katten"
    ensures Classify(s) == Intent.ShowPhoto("van katten")
  {
    ToonFotoRules(s);
    ToonFotoSubject(s);
    ToonFotoQuery();
    ClassifyAsPhoto(s, "van katten");
  }

  lemma ScenarioToonFoto(s: string)
    requires s == "toon foto van katten"
    ensures HandleTranscript(true, s, 10) ==
      Outcome(true, [Action.ShowPhoto("van katten"), Speak("Toon een foto van van katten."), Log(FromJarvis, "Toon een foto van van katten.")])
  {
    ToonFotoIntent(s);
    ToonFotoQuery();
  }

  // ---------------------------------------------------------------------------
  // A transcript no rule applies to

  lemma OkeChars(s: string)
    requires s == "oke"
    ensures forall k :: 0 <= k < |s| ==> s[k] != 'j' && s[k] != 'p' && s[k] != 's' && s[k] != 'z' && s[k] != 't' && s[k] != 'l' && s[k] != 'g' && s[k] != 'v'
  {
  }

  lemma OkeLetters(s: string)
    requires s == "oke"
    ensures 'j' !in s && 'p' !in s && 's' !in s && 'z' !in s && 't' !in s && 'l' !in s && 'g' !in s && 'v' !in s
  {
    OkeChars(s);
  }

  lemma OkeIntent(s: string)
    requires s == "oke"
    ensures Classify(s) == Intent.Fallback
  {
    OkeLetters(s);
    NoEarlierRule(s);
    ShowTextNeeds(s);
    PhotoNeeds(s);
  }

  /** Anything else is acknowledged with "Begrepen.". */
  lemma ScenarioFallback(s: string)
    requires s == "oke"
    ensures HandleTranscript(true, s, 10) == Outcome(true, [Speak("Begrepen."), Log(FromJarvis, "Begrepen.")])
  {
    OkeIntent(s);
  }
}
