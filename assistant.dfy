/**
 * The page's mutable `state` object (app.js:29-39) as far as the core uses it: the awake
 * flag and the speech queue. speak, processSpeechQueue and the utterance's onstart/onend
 * handlers (app.js:92-112) are methods that change it; handleTranscript and the
 * recognition onresult handler (app.js:138-151) drive it.
 */
module Assistant {
  import opened Wrappers
  import opened Router
  import Normalize

  class Jarvis {
    /** state.awake */
    var awake: bool
    /** state.speechQueue: the texts of the utterances waiting to be handed to the synthesizer. */
    var speechQueue: seq<string>
    /** state.speaking: set by an utterance's onstart, cleared by its onend. */
    var speaking: bool
    /** Every text passed to speak, in call order. */
    ghost var requested: seq<string>
    /** Every text handed to `window.speechSynthesis.speak`, in order. */
    ghost var dispatched: seq<string>

    /** The queue is first-in first-out: what was handed on, followed by what waits, is what was asked for. */
    ghost predicate Valid()
      reads this
    {
      dispatched + speechQueue == requested
    }

    /** The initial state: asleep, silent, nothing queued. */
    constructor ()
      ensures Valid()
      ensures !awake && speechQueue == [] && !speaking
      ensures requested == [] && dispatched == []
    {
      awake := false;
      speechQueue := [];
      speaking := false;
      requested := [];
      dispatched := [];
    }

    /** setAwake (app.js:51-58); the LED and status text are not modelled. */
    method SetAwake(isAwake: bool)
      modifies this
      ensures awake == isAwake
      ensures speechQueue == old(speechQueue) && speaking == old(speaking)
      ensures requested == old(requested) && dispatched == old(dispatched)
    {
      awake := isAwake;
    }

    /**
     * processSpeechQueue (app.js:107-112): while something is speaking, or nothing waits,
     * nothing happens; otherwise the head of the queue is removed and handed on, returned in `sent`.
     */
    method ProcessSpeechQueue() returns (sent: Option<string>)
      requires Valid()
      modifies this
      ensures Valid()
      ensures old(speaking) || old(speechQueue) == [] ==>
        sent == None && speechQueue == old(speechQueue) && dispatched == old(dispatched)
      ensures !old(speaking) && old(speechQueue) != [] ==>
        sent == Some(old(speechQueue)[0]) && speechQueue == old(speechQueue)[1..] &&
        dispatched == old(dispatched) + [old(speechQueue)[0]]
      ensures awake == old(awake) && speaking == old(speaking) && requested == old(requested)
    {
      if speaking {
        return None;
      }
      if speechQueue == [] {
        return None;
      }
      var next := speechQueue[0];
      speechQueue := speechQueue[1..];
      dispatched := dispatched + [next];
      assert old(speechQueue) == [next] + speechQueue;
      return Some(next);
    }

    /** speak (app.js:92-105): the utterance joins the back of the queue, then the queue is processed. */
    method Speak(text: string) returns (sent: Option<string>)
      requires Valid()
      modifies this
      ensures Valid()
      ensures requested == old(requested) + [text]
      ensures old(speaking) ==>
        sent == None && speechQueue == old(speechQueue) + [text] && dispatched == old(dispatched)
      ensures !old(speaking) ==>
        var q := old(speechQueue) + [text];
        sent == Some(q[0]) && speechQueue == q[1..] && dispatched == old(dispatched) + [q[0]]
      ensures awake == old(awake) && speaking == old(speaking)
    {
      speechQueue := speechQueue + [text];
      requested := requested + [text];
      sent := ProcessSpeechQueue();
    }

    /** An utterance's onstart (app.js:98): only the speaking flag changes. */
    method OnStart()
      modifies this
      ensures speaking
      ensures awake == old(awake) && speechQueue == old(speechQueue)
      ensures requested == old(requested) && dispatched == old(dispatched)
    {
      speaking := true;
    }

    /** An utterance's onend (app.js:99-102): speaking is cleared and the next waiting text, if any, is handed on. */
    method OnEnd() returns (sent: Option<string>)
      requires Valid()
      modifies this
      ensures Valid() && !speaking
      ensures old(speechQueue) == [] ==> sent == None && speechQueue == [] && dispatched == old(dispatched)
      ensures old(speechQueue) != [] ==>
        sent == Some(old(speechQueue)[0]) && speechQueue == old(speechQueue)[1..] &&
        dispatched == old(dispatched) + [old(speechQueue)[0]]
      ensures awake == old(awake) && requested == old(requested)
    {
      speaking := false;
      sent := ProcessSpeechQueue();
    }

    /**
     * handleTranscript (app.js:188-259) on this state: the new awake flag and the effects are
     * those of Router.HandleTranscript; setAwake is called when the flag changes, and the one
     * utterance of the answer, if any, is spoken.
     */
    method HandleTranscript(text: string, hour: int) returns (effects: seq<Action>)
      requires Valid()
      modifies this
      ensures Valid()
      ensures var o := Router.HandleTranscript(old(awake), text, hour);
        awake == o.awake && effects == o.actions
      ensures requested == old(requested) + Spoken(effects)
      ensures var q := old(speechQueue) + Spoken(effects);
        if old(speaking) || Spoken(effects) == [] then speechQueue == q && dispatched == old(dispatched)
        else speechQueue == q[1..] && dispatched == old(dispatched) + [q[0]]
      ensures speaking == old(speaking)
    {
      var o := Router.HandleTranscript(awake, text, hour);
      if o.awake != awake {
        SetAwake(o.awake);
      }
      OneUtterance(old(awake), text, hour);
      var said := Spoken(o.actions);
      if said != [] {
        assert said == [said[0]];
        var _ := Speak(said[0]);
      }
      effects := o.actions;
    }

    /**
     * The onresult handler (app.js:138-151): the final text of the event, if non-empty, is
     * normalized, logged as the user's, and handled. `tables` stands for the Unicode data.
     */
    method OnResult(results: seq<Recognized>, resultIndex: nat, tables: Normalize.CharTables, hour: int)
      returns (effects: seq<Action>)
      requires Valid()
      modifies this
      ensures Valid()
      ensures var finalText := FinalOf(results, resultIndex);
        if finalText == [] then
          effects == [] && awake == old(awake) && requested == old(requested) &&
          speechQueue == old(speechQueue) && dispatched == old(dispatched)
        else
          var transcript := Normalize.NormalizeTranscript(tables, finalText);
          var o := Router.HandleTranscript(old(awake), transcript, hour);
          var q := old(speechQueue) + Spoken(o.actions);
          effects == [Log(FromUser, transcript)] + o.actions && awake == o.awake &&
          requested == old(requested) + Spoken(o.actions) &&
          if old(speaking) || Spoken(o.actions) == [] then speechQueue == q && dispatched == old(dispatched)
          else speechQueue == q[1..] && dispatched == old(dispatched) + [q[0]]
      ensures speaking == old(speaking)
    {
      var finalText := FinalText(results, resultIndex);
      if finalText == [] {
        return [];
      }
      var transcript := Normalize.NormalizeTranscript(tables, finalText);
      var handled := HandleTranscript(transcript, hour);
      effects := [Log(FromUser, transcript)] + handled;
    }
  }

  /**
   * Playback is not exclusive: `speaking` is set only when an utterance starts, so two speak
   * calls in a row, before the first starts, both hand their text to the synthesizer.
   */
  method SpeakTwiceBeforeStart(a: string, b: string) returns (first: Option<string>, second: Option<string>)
    ensures first == Some(a) && second == Some(b)
  {
    var jarvis := new Jarvis();
    first := jarvis.Speak(a);
    second := jarvis.Speak(b);
  }

  /** Once an utterance has started, the next one waits in the queue until the first ends. */
  method QueuedWhileSpeaking(a: string, b: string) returns (during: Option<string>, after: Option<string>)
    ensures during == None && after == Some(b)
  {
    var jarvis := new Jarvis();
    var _ := jarvis.Speak(a);
    jarvis.OnStart();
    during := jarvis.Speak(b);
    after := jarvis.OnEnd();
  }

  // ---------------------------------------------------------------------------
  // The final text of a recognition event

  /** One entry of `event.results`: whether it is final, and the transcript of its first alternative. */
  datatype Recognized = Recognized(isFinal: bool, transcript: string)

  /** The final transcripts of rs, concatenated in order. */
  function Finals(rs: seq<Recognized>): string
    decreases |rs|
  {
    if rs == [] then [] else (if rs[0].isFinal then rs[0].transcript else []) + Finals(rs[1..])
  }

  /** The final transcripts from resultIndex on; an index past the end selects nothing. */
  function FinalOf(results: seq<Recognized>, resultIndex: nat): string {
    if resultIndex <= |results| then Finals(results[resultIndex..]) else []
  }

  lemma {:induction false} FinalsAppend(a: seq<Recognized>, b: seq<Recognized>)
    ensures Finals(a + b) == Finals(a) + Finals(b)
    decreases |a|
  {
    if a == [] {
      assert a + b == b;
    } else {
      assert (a + b)[1..] == a[1..] + b;
      FinalsAppend(a[1..], b);
    }
  }

  /** Interim results contribute nothing: the final text is empty exactly when every final result's transcript is. */
  lemma {:induction false} FinalsEmpty(rs: seq<Recognized>)
    ensures Finals(rs) == [] <==> forall k :: 0 <= k < |rs| && rs[k].isFinal ==> rs[k].transcript == []
    decreases |rs|
  {
    if rs != [] {
      FinalsEmpty(rs[1..]);
      assert forall k :: 1 <= k < |rs| ==> rs[k] == rs[1..][k - 1];
    }
  }

  /** An interim result may be dropped without changing the final text. */
  lemma DropInterim(a: seq<Recognized>, r: Recognized, b: seq<Recognized>)
    requires !r.isFinal
    ensures Finals(a + [r] + b) == Finals(a + b)
  {
    FinalsAppend(a + [r], b);
    FinalsAppend(a, [r]);
    FinalsAppend(a, b);
    assert Finals([r]) == [];
  }

  /** The loop of onresult (app.js:139-145) gathering the final text from `event.resultIndex` on. */
  method FinalText(results: seq<Recognized>, resultIndex: nat) returns (finalText: string)
    ensures finalText == FinalOf(results, resultIndex)
  {
    finalText := [];
    if resultIndex >= |results| {
      assert resultIndex == |results| ==> results[resultIndex..] == [];
      return;
    }
    var i := resultIndex;
    while i < |results|
      invariant resultIndex <= i <= |results|
      invariant finalText == Finals(results[resultIndex..i])
    {
      var r := results[i];
      if r.isFinal {
        finalText := finalText + r.transcript;
      }
      FinalsAppend(results[resultIndex..i], [r]);
      assert results[resultIndex..i + 1] == results[resultIndex..i] + [r];
      i := i + 1;
    }
    assert results[resultIndex..i] == results[resultIndex..];
  }
}
