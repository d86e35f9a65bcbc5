/**
 * handleTranscript (app.js:188-259) with the greeting and sleep acknowledgement it calls
 * (app.js:175-185), as a function from the awake flag, the transcript and the current
 * hour to the new flag and the list of effects, in the order the source performs them.
 */
module Router {
  import opened Commands

  /** The two kinds of log rows appendLog writes (app.js:66-76). */
  datatype Speaker = FromUser | FromJarvis

  /** The effects handleTranscript has besides the awake flag. */
  datatype Action =
    | Speak(text: string)               // speak(text): queue an utterance
    | Log(speaker: Speaker, text: string) // appendLog(kind, text)
    | ShowText(content: string)         // the text display shows content and is unhidden
    | HideText                          // the text display is emptied and hidden
    | ShowPhoto(query: string)          // showPhoto(query)

  /** The awake flag after a transcript, and what was done in response. */
  datatype Outcome = Outcome(awake: bool, actions: seq<Action>)

  const AwakeTail := " Ik ben wakker. Waarmee kan ik helpen?"
  const AwakeLog := "Ik ben wakker."
  const AlreadyAwake := "Ik ben al actief."
  const SleepReply := "Ik ga slapen. Tot later."
  const SleepLog := "Ga naar slaapstand."
  const AlreadyAsleep := "Ik ben al in slaapstand."
  const HelpText := "Ik kan tekst voorlezen en tonen, en foto's van internet laten zien. Zeg bijvoorbeeld: toon tekst hallo wereld. Of: toon foto van katten."
  const HiddenReply := "Tekst verborgen."
  const ShownLog := "Tekst getoond en uitgesproken."
  const FallbackReply := "Begrepen."

  /** The greeting of sayAwakeGreeting for the hour `new Date().getHours()` returns. */
  function Greeting(hour: int): string {
    if hour < 12 then "Goedemorgen." else if hour < 18 then "Goedemiddag." else "Goedenavond."
  }

  /** sayAwakeGreeting (app.js:175-180). */
  function AwakeGreeting(hour: int): seq<Action> {
    [Speak(Greeting(hour) + AwakeTail), Log(FromJarvis, AwakeLog)]
  }

  /** saySleepAcknowledgement (app.js:182-185). */
  function SleepAcknowledgement(): seq<Action> {
    [Speak(SleepReply), Log(FromJarvis, SleepLog)]
  }

  function PhotoReply(query: string): string {
    "Toon een foto van " + query + "."
  }

  /** What the awake assistant does for a command that is neither wake nor shutdown. */
  function Respond(intent: Intent): seq<Action> {
    match intent
    case Help => [Speak(HelpText), Log(FromJarvis, HelpText)]
    case ClearText => [HideText, Speak(HiddenReply), Log(FromJarvis, HiddenReply)]
    case ShowText(content) => [Action.ShowText(content), Speak(content), Log(FromJarvis, ShownLog)]
    case ShowPhoto(query) => [Action.ShowPhoto(query), Speak(PhotoReply(query)), Log(FromJarvis, PhotoReply(query))]
    case _ => [Speak(FallbackReply), Log(FromJarvis, FallbackReply)]
  }

  /** handleTranscript: wake and shutdown work in both states; everything else is ignored while asleep. */
  function HandleTranscript(awake: bool, text: string, hour: int): Outcome {
    match Classify(text)
    case Wake => if !awake then Outcome(true, AwakeGreeting(hour)) else Outcome(true, [Speak(AlreadyAwake)])
    case Shutdown => if awake then Outcome(false, SleepAcknowledgement()) else Outcome(false, [Speak(AlreadyAsleep)])
    case intent => if !awake then Outcome(false, []) else Outcome(true, Respond(intent))
  }

  /** The texts passed to speak, in order. */
  function Spoken(actions: seq<Action>): (r: seq<string>)
    ensures |r| <= |actions|
  {
    if actions == [] then []
    else (if actions[0].Speak? then [actions[0].text] else []) + Spoken(actions[1..])
  }

  lemma {:induction false} SpokenAppend(a: seq<Action>, b: seq<Action>)
    ensures Spoken(a + b) == Spoken(a) + Spoken(b)
    decreases |a|
  {
    if a == [] {
      assert a + b == b;
    } else {
      assert (a + b)[0] == a[0];
      assert (a + b)[1..] == a[1..] + b;
      SpokenAppend(a[1..], b);
      var head := if a[0].Speak? then [a[0].text] else [];
      assert Spoken(a + b) == head + Spoken(a[1..] + b);
      assert Spoken(a) == head + Spoken(a[1..]);
    }
  }

  // ---------------------------------------------------------------------------
  // The wake/sleep state machine

  /** Wake while asleep switches the flag on and greets according to the hour. */
  lemma WakeWhileAsleep(text: string, hour: int)
    requires MatchesWake(text)
    ensures HandleTranscript(false, text, hour) == Outcome(true, [Speak(Greeting(hour) + AwakeTail), Log(FromJarvis, AwakeLog)])
    ensures hour < 12 ==> Greeting(hour) == "Goedemorgen."
    ensures 12 <= hour < 18 ==> Greeting(hour) == "Goedemiddag."
    ensures 18 <= hour ==> Greeting(hour) == "Goedenavond."
  {
  }

  /** Shutdown while awake switches the flag off and says goodbye; wake takes priority over it. */
  lemma ShutdownWhileAwake(text: string, hour: int)
    requires MatchesShutdown(text)
    ensures HandleTranscript(true, text, hour) ==
      if MatchesWake(text) then Outcome(true, [Speak(AlreadyAwake)])
      else Outcome(false, [Speak(SleepReply), Log(FromJarvis, SleepLog)])
  {
  }

  /** Repeating a state command does not change the state, and only says so. */
  lemma IdempotentRepeats(text: string, hour: int)
    ensures MatchesWake(text) ==> HandleTranscript(true, text, hour) == Outcome(true, [Speak(AlreadyAwake)])
    ensures !MatchesWake(text) && MatchesShutdown(text) ==>
      HandleTranscript(false, text, hour) == Outcome(false, [Speak(AlreadyAsleep)])
  {
  }

  /** The flag afterwards: on after a wake command, off after a shutdown command, unchanged otherwise. */
  lemma AwakeAfter(awake: bool, text: string, hour: int)
    ensures HandleTranscript(awake, text, hour).awake == (MatchesWake(text) || (awake && !MatchesShutdown(text)))
  {
  }

  /** The sleep gate: nothing happens exactly when the assistant is asleep and the transcript is neither wake nor shutdown. */
  lemma SilentIffGated(awake: bool, text: string, hour: int)
    ensures HandleTranscript(awake, text, hour).actions == [] <==> !awake && !MatchesWake(text) && !MatchesShutdown(text)
  {
  }

  lemma SpokenOne(a: Action)
    ensures Spoken([a]) == if a.Speak? then [a.text] else []
  {
    assert [a][1..] == [];
  }

  lemma SpokenPair(a: Action, b: Action)
    ensures Spoken([a, b]) == Spoken([a]) + Spoken([b])
  {
    assert [a, b] == [a] + [b];
    SpokenAppend([a], [b]);
  }

  lemma SpokenTriple(a: Action, b: Action, c: Action)
    ensures Spoken([a, b, c]) == Spoken([a]) + Spoken([b]) + Spoken([c])
  {
    assert [a, b, c] == [a] + [b, c];
    SpokenAppend([a], [b, c]);
    SpokenPair(b, c);
  }

  /** An answer made of the utterance u and the log row l speaks once. */
  lemma SpeakThenLog(u: string, l: Action)
    requires !l.Speak?
    ensures Spoken([Speak(u), l]) == [u]
  {
    SpokenPair(Speak(u), l);
    SpokenOne(Speak(u));
    SpokenOne(l);
  }

  /** An answer made of a display effect d, the utterance u and the log row l speaks once. */
  lemma ShowSpeakLog(d: Action, u: string, l: Action)
    requires !d.Speak? && !l.Speak?
    ensures Spoken([d, Speak(u), l]) == [u]
  {
    SpokenTriple(d, Speak(u), l);
    SpokenOne(d);
    SpokenOne(Speak(u));
    SpokenOne(l);
  }

  lemma RespondSpeaksOnce(intent: Intent)
    ensures |Spoken(Respond(intent))| == 1
  {
    match intent
    case Help => SpeakThenLog(HelpText, Log(FromJarvis, HelpText));
    case ClearText => ShowSpeakLog(HideText, HiddenReply, Log(FromJarvis, HiddenReply));
    case ShowText(content) => ShowSpeakLog(Action.ShowText(content), content, Log(FromJarvis, ShownLog));
    case ShowPhoto(query) =>
      ShowSpeakLog(Action.ShowPhoto(query), PhotoReply(query), Log(FromJarvis, PhotoReply(query)));
    case Wake => SpeakThenLog(FallbackReply, Log(FromJarvis, FallbackReply));
    case Shutdown => SpeakThenLog(FallbackReply, Log(FromJarvis, FallbackReply));
    case Fallback => SpeakThenLog(FallbackReply, Log(FromJarvis, FallbackReply));
  }

  /** Every transcript that is answered is answered with exactly one utterance. */
  lemma OneUtterance(awake: bool, text: string, hour: int)
    ensures var acts := HandleTranscript(awake, text, hour).actions;
      acts != [] ==> |Spoken(acts)| == 1
  {
    var acts := HandleTranscript(awake, text, hour).actions;
    match Classify(text)
    case Wake =>
      SpokenOne(Speak(AlreadyAwake));
      SpokenOne(Log(FromJarvis, AwakeLog));
      SpokenPair(Speak(Greeting(hour) + AwakeTail), Log(FromJarvis, AwakeLog));
    case Shutdown =>
      SpokenOne(Speak(AlreadyAsleep));
      SpokenOne(Log(FromJarvis, SleepLog));
      SpokenPair(Speak(SleepReply), Log(FromJarvis, SleepLog));
    case intent =>
      RespondSpeaksOnce(intent);
  }

  /** The fallback reply is given exactly when the assistant is awake and no rule applies. */
  lemma FallbackIffNoRule(awake: bool, text: string, hour: int)
    ensures HandleTranscript(awake, text, hour).actions == [Speak(FallbackReply), Log(FromJarvis, FallbackReply)]
      <==> awake && Classify(text) == Fallback
  {
  }

  // ---------------------------------------------------------------------------
  // A sequence of transcripts

  /** A final transcript and the hour at which it was heard. */
  datatype Heard = Heard(text: string, hour: int)

  /** The page's response to one final transcript. */
  function Step(awake: bool, h: Heard): Outcome {
    HandleTranscript(awake, h.text, h.hour)
  }

  /** `step` applied to each transcript in turn, threading the awake flag and collecting the effects. */
  function RunWith(step: (bool, Heard) -> Outcome, awake: bool, inputs: seq<Heard>): Outcome
    decreases |inputs|
  {
    if inputs == [] then Outcome(awake, [])
    else
      var first := step(awake, inputs[0]);
      var rest := RunWith(step, first.awake, inputs[1..]);
      Outcome(rest.awake, first.actions + rest.actions)
  }

  /** handleTranscript applied to each transcript in turn. */
  function Run(awake: bool, inputs: seq<Heard>): Outcome {
    RunWith(Step, awake, inputs)
  }

  function Repeat<T>(x: T, n: nat): (r: seq<T>)
    ensures |r| == n && forall k :: 0 <= k < n ==> r[k] == x
  {
    if n == 0 then [] else [x] + Repeat(x, n - 1)
  }

  /** The flag as an independent reading: set by the last wake or shutdown command among the transcripts. */
  function LastSwitch(awake: bool, inputs: seq<Heard>): bool
    decreases |inputs|
  {
    if inputs == [] then awake
    else
      var last := inputs[|inputs| - 1].text;
      if MatchesWake(last) then true
      else if MatchesShutdown(last) then false
      else LastSwitch(awake, inputs[..|inputs| - 1])
  }

  lemma {:induction false} RunWithAppend(step: (bool, Heard) -> Outcome, awake: bool, a: seq<Heard>, b: seq<Heard>)
    ensures var m := RunWith(step, awake, a); var r := RunWith(step, m.awake, b);
      RunWith(step, awake, a + b) == Outcome(r.awake, m.actions + r.actions)
    decreases |a|
  {
    if a == [] {
      assert a + b == b;
    } else {
      var first := step(awake, a[0]);
      assert (a + b)[1..] == a[1..] + b;
      assert (a + b)[0] == a[0];
      RunWithAppend(step, first.awake, a[1..], b);
      var m := RunWith(step, first.awake, a[1..]);
      var r := RunWith(step, m.awake, b);
      assert RunWith(step, awake, a + b) == Outcome(r.awake, first.actions + (m.actions + r.actions));
      assert first.actions + (m.actions + r.actions) == (first.actions + m.actions) + r.actions;
    }
  }

  lemma RunWithSingle(step: (bool, Heard) -> Outcome, awake: bool, h: Heard)
    ensures RunWith(step, awake, [h]) == Outcome(step(awake, h).awake, step(awake, h).actions)
  {
    assert [h][1..] == [];
    assert step(awake, h).actions + [] == step(awake, h).actions;
  }

  /** Handling transcripts in two batches is handling them in one, the second from the state the first left. */
  lemma RunAppend(awake: bool, a: seq<Heard>, b: seq<Heard>)
    ensures var m := Run(awake, a); var r := Run(m.awake, b);
      Run(awake, a + b) == Outcome(r.awake, m.actions + r.actions)
  {
    RunWithAppend(Step, awake, a, b);
  }

  /** After any sequence of transcripts the flag is the one the last state command set. */
  lemma {:induction false} RunAwakeIsLastSwitch(awake: bool, inputs: seq<Heard>)
    ensures Run(awake, inputs).awake == LastSwitch(awake, inputs)
    decreases |inputs|
  {
    if inputs != [] {
      var front := inputs[..|inputs| - 1];
      var last := inputs[|inputs| - 1];
      assert inputs == front + [last];
      RunAppend(awake, front, [last]);
      RunAwakeIsLastSwitch(awake, front);
      var m := Run(awake, front).awake;
      RunWithSingle(Step, m, last);
      AwakeAfter(m, last.text, last.hour);
    }
  }

  /** Once awake, further wake commands only answer "Ik ben al actief.". */
  lemma {:induction false} RepeatedWakeWhileAwake(text: string, hour: int, n: nat)
    requires MatchesWake(text)
    ensures Run(true, Repeat(Heard(text, hour), n)) == Outcome(true, Repeat(Speak(AlreadyAwake), n))
    decreases n
  {
    if n > 0 {
      RepeatedWakeWhileAwake(text, hour, n - 1);
      assert Repeat(Heard(text, hour), n)[1..] == Repeat(Heard(text, hour), n - 1);
    }
  }

  /** Saying a wake command n + 1 times greets once, from either state, and then only confirms. */
  lemma RepeatedWake(awake: bool, text: string, hour: int, n: nat)
    requires MatchesWake(text)
    ensures Run(awake, Repeat(Heard(text, hour), n + 1)) ==
      Outcome(true, HandleTranscript(awake, text, hour).actions + Repeat(Speak(AlreadyAwake), n))
  {
    assert Repeat(Heard(text, hour), n + 1)[1..] == Repeat(Heard(text, hour), n);
    RepeatedWakeWhileAwake(text, hour, n);
  }
}
