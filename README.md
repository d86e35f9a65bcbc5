# JARVIS voice assistant: a Dafny model of its command core

JARVIS is a Dutch voice assistant that runs in a web page (`app.js`). Speech recognition
delivers transcripts. Each transcript is normalized: lower-cased, decomposed, and stripped of
diacritics. It is then matched against a fixed list of regular expressions, in order:

1. wake ("jarvis wake up" and Dutch variants);
2. shutdown;
3. while asleep, nothing else is answered;
4. help;
5. clear the text display;
6. show and speak a text;
7. show a photo;
8. the fallback "Begrepen.".

Every answer is spoken through a first-in first-out speech queue. Photos arrive
asynchronously in a grid of at most nine tiles, newest first.

The model has these parts:

- `Chars`: the JavaScript meaning of `\s`, `.`, `\b`, and `String.prototype.trim`.
- `Pattern`: regular-expression fragments built from literal words and `\s*`/`\s+` runs. It has:
  - a regular-expression reading, `Matches`;
  - a greedy scanner, `End`, proved equal to `Matches`;
  - `RegExp.prototype.test`, and `String.prototype.match` for patterns ending in `\s+(.+)`, each proved to return the match a backtracking matcher reports first.
- `Photo`: the first photo pattern `(?:toon|laat|geef).*?(?:foto|afbeelding).*?(?:van|over)?\s+(.+)`, with its two lazy `.*?`, as a search proved to find the first match in backtracking order.
- `Commands`: the tables of all patterns of `handleTranscript`, `matchesWake` and `matchesShutdown`, `sanitizeQuery`, and `Classify`, which picks the rule that applies.
- `Normalize`: `normalizeTranscript` over Unicode tables given as parameters.
- `Router`: `handleTranscript` as a function from the awake flag, the transcript and the hour to the new flag and the list of effects (speak, log, show/hide text, show photo).
- `Scenarios`: concrete transcripts worked through that function, including the quirks of the patterns as written.
- `Assistant`: the page's `state` as a class `Jarvis` (awake flag, speech queue, speaking flag), with speak, processSpeechQueue, the utterance events, handleTranscript and the recognition `onresult` handler as methods.
- `Display`: `escapeHtml`, and the photo grid as a class whose trim is the loop of `trimPhotoGrid`.

Quirks of the code the model keeps:

- The show-text pattern is not anchored, so "ik zeg hallo" shows "hallo".
- `\s*` lets "jarviswakeup" wake the assistant.
- The lazy first photo pattern may skip the optional `van`, so "toon foto van katten" asks for "van katten". "foto van katten" asks for "katten".
- `sanitizeQuery` truncates after stripping, so a query can end in a space.
- `speaking` is set only when an utterance starts. Two `speak` calls before the first start both reach the synthesizer, so playback is not exclusive.
- The third photo pattern `(?:toon|laat)\s+(?:mij\s+)?(?:een\s+)?(?:foto|afbeelding)\s+(.+)` is written out as 16 alternatives. They are listed in the order backtracking tries them: the verb, then each optional group taken before skipped, then the noun.

## Model

| member | source | states |
|---|---|---|
| Chars.Trim | app.js:234 | `trim` returns the input with a leading and a trailing whitespace run removed, and the result neither starts nor ends with whitespace |
| Chars.TrimIdempotent | app.js:234 | trimming twice is trimming once |
| Pattern.EndIsOnlyMatch | app.js:261-267 | for a well-formed fragment, the greedy scan ends where the regular expression can end and nowhere else |
| Pattern.TestIsSpec | app.js:261-267 | the scanner for `(alt_0\|alt_1\|...)`, with or without surrounding `\b`, answers true exactly when some alternative matches at some position |
| Pattern.TailIsFirstMatch | app.js:232 | for a trailing `\s+(.+)`, the group found is the first in backtracking order (longest space run that still lets `.` start, group to the next line terminator), and none is found only when no match exists |
| Pattern.SearchIsFirst | app.js:232 | `match` for `(?:alts)\s+(.+)` returns a real match that precedes every other (leftmost start, then earlier alternative, then tail order), and no match only when none exists |
| Pattern.TestRejects | app.js:261-267 | a test fails when every alternative needs a character the text does not contain |
| Pattern.SearchRejects | app.js:232 | a `match` fails when every alternative needs a character the text does not contain |
| Pattern.TestFromLead | app.js:261-263 | a test fails from a position on when every alternative starts with a character that does not occur from there on |
| Photo.SearchIsFirst | app.js:243 | the lazy first photo pattern's search returns the match backtracking reports first (leftmost, verb order, shortest `.*?`, noun order, shortest second `.*?`, filler before skipping it, tail order), and none only when none exists |
| Photo.SearchNeedsVerb | app.js:243 | the first photo pattern matches only texts containing a first letter of toon/laat/geef |
| Commands.MatchesWake | app.js:261-263 | `matchesWake`; its contract is carried by Commands.TestsAreTheirPatterns (exactly the regular expression) and Commands.WakeNeeds |
| Commands.MatchesShutdown | app.js:265-267 | `matchesShutdown`; see Commands.TestsAreTheirPatterns and Commands.ShutdownNeeds |
| Commands.MatchesHelp | app.js:215 | the help test; see Commands.TestsAreTheirPatterns and Commands.HelpNeeds |
| Commands.MatchesClear | app.js:223 | the clear-text test, unanchored and without `\b`; see Commands.TestsAreTheirPatterns and Commands.ClearNeeds |
| Commands.ShowTextContent | app.js:232-234 | `textMatch[1].trim()`; its group is the first match in backtracking order by Pattern.SearchIsFirst, trimmed as Chars.Trim states; see also Scenarios.ZegContent |
| Commands.TestsAreTheirPatterns | app.js:215-267 | matchesWake, matchesShutdown and the help and clear tests each answer exactly their regular expression |
| Commands.PhotoSubject | app.js:243-246 | the photo subject, taken from the first of the three patterns that matches, is never empty |
| Commands.StripTrailing | app.js:271 | the result is a prefix of the input; everything removed is `.`, `!`, `?` or whitespace; the result does not end in one of them |
| Commands.StripTrailingIsReplace | app.js:271 | stripping removes exactly the leftmost match of `[.!?\s]+$`, and nothing when there is none |
| Commands.SanitizeQuery | app.js:269-272 | strip, then `slice(0, 80)`; see Commands.SanitizeQueryShape, Commands.StripTrailingIsReplace and Commands.SanitizeQueryCanEndInSpace |
| Commands.SanitizeQueryShape | app.js:269-272 | the sanitized query is a prefix of at most 80 characters, and without trailing punctuation or whitespace when the stripped text fits in 80 |
| Commands.SanitizeQueryCanEndInSpace | app.js:269-272 | truncation after stripping lets an 80-character query end in a space |
| Commands.WakeNeeds | app.js:261-263 | a wake command contains `j`, and `k` or `t` |
| Commands.ShutdownNeeds | app.js:265-267 | a shutdown command contains `j` |
| Commands.HelpNeeds | app.js:215 | a help question contains `p` or `j` |
| Commands.ClearNeeds | app.js:223 | a clear command contains `s`, and `v`, `i` or `c` |
| Commands.ShowTextNeeds | app.js:232 | a show-text command contains `s` or `z` |
| Commands.PhotoNeeds | app.js:243-245 | a photo request contains `t`, `l`, `g` or `v` |
| Commands.Classify | app.js:190-258 | the rule order wake, shutdown, help, clear, show text, photo, fallback; see Router.AwakeAfter, Router.FallbackIffNoRule and the Needs lemmas, which let a transcript skip the earlier rules |
| Normalize.RemoveDiacritics | app.js:172 | no diacritic is left and the text does not grow |
| Normalize.RemoveDiacriticsCounts | app.js:172 | every character that is not a diacritic is kept exactly as often as it occurs |
| Normalize.RemoveDiacriticsClean | app.js:172 | text without diacritics is left unchanged |
| Normalize.NormalizeTranscript | app.js:170-173 | the normalized transcript contains no diacritic |
| Normalize.NormalizeAppend | app.js:170-173 | normalization works character by character: it distributes over concatenation |
| Normalize.NormalizeSource | app.js:170-173 | each character of the result is a non-diacritic in the decomposition of the lower-case form of an input character |
| Normalize.NormalizeIdempotent | app.js:170-173 | with tables whose output is already normal, normalizing twice is normalizing once |
| Normalize.SampleTablesStable | app.js:170-173 | a concrete table set meets that condition, so the condition can be met |
| Normalize.SampleCafe | app.js:170-173 | with those tables "CafÉ" normalizes to "cafe" |
| Router.Greeting | app.js:176-177 | the greeting for the hour; Router.WakeWhileAsleep states its three cases |
| Router.AwakeGreeting | app.js:175-180 | sayAwakeGreeting speaks the greeting and logs "Ik ben wakker."; see Router.WakeWhileAsleep |
| Router.SleepAcknowledgement | app.js:182-185 | saySleepAcknowledgement speaks and logs the goodbye; see Router.ShutdownWhileAwake |
| Router.Respond | app.js:214-258 | the awake answer to every other intent; see Router.RespondSpeaksOnce and Router.FallbackIffNoRule |
| Router.HandleTranscript | app.js:188-259 | handleTranscript; its contract is carried by Router.AwakeAfter, Router.SilentIffGated, Router.OneUtterance, Router.FallbackIffNoRule and Router.RunAwakeIsLastSwitch |
| Router.WakeWhileAsleep | app.js:175-198 | a wake command while asleep wakes the assistant, and speaks and logs the greeting for the hour (morning before 12, afternoon before 18, evening after) |
| Router.ShutdownWhileAwake | app.js:182-207 | a shutdown command while awake puts the assistant to sleep with the sleep acknowledgement, unless it is also a wake command, which takes priority |
| Router.IdempotentRepeats | app.js:190-207 | repeating wake while awake, or shutdown while asleep, only says "already" and keeps the state |
| Router.AwakeAfter | app.js:188-259 | after a transcript the assistant is awake exactly when it was a wake command, or it was awake and the transcript is not a shutdown command |
| Router.SilentIffGated | app.js:209-212 | nothing at all happens exactly when the assistant is asleep and the transcript is neither wake nor shutdown |
| Router.RespondSpeaksOnce | app.js:214-258 | every answer of the awake assistant speaks exactly one utterance |
| Router.OneUtterance | app.js:188-259 | every transcript that gets an answer gets exactly one utterance |
| Router.FallbackIffNoRule | app.js:255-258 | "Begrepen." is said exactly when the assistant is awake and no rule applies |
| Router.SpokenAppend | app.js:188-259 | the utterances of two effect lists in a row are the utterances of each, in order |
| Router.RunAppend | app.js:188-259 | handling transcripts in two batches is handling them in one, the second starting from the state the first left |
| Router.RunAwakeIsLastSwitch | app.js:188-259 | after a sequence of transcripts the awake flag is set by the last wake or shutdown command, and unchanged when there was none |
| Router.RepeatedWakeWhileAwake | app.js:194-196 | any number of wake commands while awake only say "Ik ben al actief." each time |
| Router.RepeatedWake | app.js:190-198 | n+1 wake commands from any state leave the assistant awake, with the first one's answer followed by n times "Ik ben al actief." |
| Scenarios.ScenarioWakeUp | app.js:190-198 | "jarvis wake up" at 9 o'clock wakes the assistant with "Goedemorgen. Ik ben wakker. Waarmee kan ik helpen?" |
| Scenarios.ScenarioGluedWake | app.js:261-263 | "jarviswakeup" is a wake command, and at 20 o'clock gets the evening greeting |
| Scenarios.ScenarioGaSlapen | app.js:199-207 | "jarvis ga slapen" while awake puts the assistant to sleep |
| Scenarios.ScenarioShutDownAsleep | app.js:199-207 | "jarvis shut down" while asleep only says "Ik ben al in slaapstand." and stays asleep, although the text holds every letter of two wake phrases |
| Scenarios.ScenarioShowText | app.js:232-240 | "toon tekst hallo wereld" shows and speaks "hallo wereld" |
| Scenarios.ScenarioShowTextAsleep | app.js:209-212 | the same command while asleep does nothing |
| Scenarios.ZegContent | app.js:232-234 | in "ik zeg hallo" the unanchored show-text pattern captures "hallo" |
| Scenarios.ScenarioUnanchoredZeg | app.js:232-240 | "ik zeg hallo" shows and speaks "hallo" |
| Scenarios.ScenarioClear | app.js:223-229 | "verberg tekst" hides the text and says "Tekst verborgen." |
| Scenarios.KattenSubject | app.js:243-244 | "foto van katten" fails the first photo pattern and the second captures "katten" |
| Scenarios.ScenarioPhotoVan | app.js:243-253 | "foto van katten" shows a photo of "katten" and says "Toon een foto van katten." |
| Scenarios.ToonFotoSubject | app.js:243 | in "toon foto van katten" the lazy pattern skips the optional `van` and captures "van katten" |
| Scenarios.ScenarioToonFoto | app.js:243-253 | "toon foto van katten" asks for "van katten" and says "Toon een foto van van katten." |
| Scenarios.ScenarioFallback | app.js:255-258 | "oke" while awake gets "Begrepen." |
| Assistant.Jarvis.constructor | app.js:29-39 | the page starts asleep, not speaking, with an empty queue |
| Assistant.Jarvis.SetAwake | app.js:51-58 | only the awake flag changes, to the given value |
| Assistant.Jarvis.ProcessSpeechQueue | app.js:107-112 | while speaking, or with an empty queue, nothing changes; otherwise the head of the queue is removed and handed to the synthesizer; the queue stays first-in first-out |
| Assistant.Jarvis.Speak | app.js:92-105 | the text joins the back of the queue and is counted as requested; when not speaking the head of the new queue is handed on at once |
| Assistant.Jarvis.OnStart | app.js:98 | an utterance's start sets the speaking flag and changes nothing else |
| Assistant.Jarvis.OnEnd | app.js:99-102 | an utterance's end clears the speaking flag and hands on the next waiting text, if any |
| Assistant.Jarvis.HandleTranscript | app.js:188-259 | the awake flag and the effects are those of `Router.HandleTranscript`; the answer's utterance is queued and, when not speaking, handed on |
| Assistant.Jarvis.OnResult | app.js:138-151 | a non-empty final text is normalized, logged as the user's, and handled; an empty one changes nothing |
| Assistant.SpeakTwiceBeforeStart | app.js:92-112 | for any two texts, two speak calls before the first utterance starts both reach the synthesizer, in order: playback is not exclusive |
| Assistant.QueuedWhileSpeaking | app.js:92-112 | for any two texts, once the first utterance has started the second waits in the queue and is handed on by the first one's end |
| Assistant.Finals | app.js:139-145 | the concatenated final transcripts; see Assistant.FinalsAppend, Assistant.FinalsEmpty and Assistant.DropInterim |
| Assistant.FinalOf | app.js:138-145 | the final text of an event from `resultIndex` on; Assistant.FinalText computes it by the loop |
| Assistant.FinalText | app.js:139-145 | the loop gathers the final transcripts from `resultIndex` on, in order; an index at or past the end gives the empty text |
| Assistant.FinalsAppend | app.js:139-145 | the final text of two result lists in a row is the two final texts in a row |
| Assistant.FinalsEmpty | app.js:139-146 | the final text is empty exactly when every final result's transcript is empty |
| Assistant.DropInterim | app.js:142-144 | an interim result never contributes to the final text |
| Display.Entity | app.js:79 | each of `&`, `<`, `>` and `"` has an entity of its own, and no entity contains `<`, `>` or `"` |
| Display.RunLength | app.js:79 | the length of the leading run of `[&<>"]` characters: all of them special, the next one not |
| Display.Replacement | app.js:79 | the replacement of one match: its entity for a single character, "undefined" for a longer run; see Display.EscapeHtmlDoubled and Display.EscapeHtmlIsolated |
| Display.EscapeHtml | app.js:78-80 | escapeHtml as written leaves no `<`, `>` or `"` in its output |
| Display.EscapeHtmlIsolated | app.js:78-80 | where no two special characters are adjacent, escapeHtml as written is the per-character escape |
| Display.EscapeHtmlDoubled | app.js:79 | "<<" comes out as "undefined" |
| Display.EscapeHtmlCollides | app.js:79 | "<<" and the word "undefined" come out the same, so the escape loses information |
| Display.EscapeHtmlPlain | app.js:79 | text without special characters comes out unchanged |
| Display.EscapeHtmlPerChar | app.js:78-80 | the corrected escape leaves no `<`, `>` or `"` and never shortens the text |
| Display.UnescapeEntity | app.js:79 | reading back one escaped character gives that character |
| Display.UnescapeEscape | app.js:78-80 | reading back the corrected escape gives the original text |
| Display.Newest | app.js:295-300 | keeping the first n tiles gives a prefix of length min(n, size) |
| Display.NewestFront | app.js:295-300 | trimming, adding in front and trimming again with the same bound is adding and trimming once |
| Display.AfterAddsNewestFirst | app.js:281-300 | starting from a grid of at most nine tiles, after any sequence of added tiles the grid holds the most recent ones, newest first, at most nine |
| Display.AddToFull | app.js:289-300 | adding to a full grid drops its oldest tile and keeps the rest in order |
| Display.PhotoGrid.Trim | app.js:295-300 | the loop removes each snapshot child from index 9 on, leaving the first nine children in order |
| Display.PhotoGrid.Add | app.js:281-300 | the tile is prepended and the grid trimmed, so it never holds more than nine tiles |
| Display.PhotoGrid.OnLoad | app.js:289-292 | a loaded image is the new first tile |
| Display.PhotoGrid.OnError | app.js:281-287 | an image that fails to load is replaced by the placeholder `Geen afbeelding gevonden voor "<query>"` as the new first tile |

## Left out

- The DOM. The text display, the log rows and the photo tiles are modelled as values: the `ShowText`, `HideText` and `Log` actions, and `Tile`. `appendLog`'s markup, element creation, CSS classes, LEDs and status texts are not modelled.
- The clock. `updateClock` is not modelled, and the hour of `new Date().getHours()` is a parameter.
- Speech recognition set-up and life cycle are not modelled: `createRecognition`, `startRecognitionFlow`, the session's `onend` restart, its `onerror` log row, `setMicListening`, and the permission gate. The `onresult` handler is modelled.
- Recognition alternatives: a result holds only its first alternative, as `maxAlternatives = 1` requests.
- `Assistant.FinalText` takes `resultIndex` as a `nat`; the browser never passes a negative index.
- Speech synthesis: voice selection (`loadVoices`), the utterance's `lang`, `voice`, `rate` and `pitch`, and the synthesizer's own playback are not modelled. `dispatched` records the order in which texts are handed to `speechSynthesis.speak`, not what is heard.
- A synthesis failure: the code sets no `onerror` on an utterance, so an utterance that fails without an `end` event leaves `speaking` as it was. The model follows the code and has no such event. A design in which a failure clears the flag and moves on is not what the code does.
- Exclusive playback is not claimed: `speaking` is set only by `onstart`, and the model proves the opposite (`Assistant.SpeakTwiceBeforeStart`).
- Photo fetching: the URL, `encodeURIComponent`, the `alt` text and the network load are not modelled. Only the two outcomes of the load are modelled, `OnLoad` and `OnError`.
- The clear-text, clear-photos and clear-log buttons are UI handlers and are not modelled.
- `server.js` is not part of this model.
- Unicode data. `toLowerCase`, the NFD decomposition and `\p{Diacritic}` come from tables passed as a parameter (`Normalize.CharTables`), one entry per character. Canonical reordering of combining marks and context-dependent lower-casing (final sigma) are not modelled.
- String length and indices count code points, not UTF-16 code units. `slice(0, 80)` in `sanitizeQuery` therefore differs for text outside the Basic Multilingual Plane.
- Normalize.NormalizeIdempotent: proved only under the stated stability condition on the tables. It is not proved for the real Unicode tables, which are not part of the model.
- Commands.PhotoSubject: its own contract says only that the subject is non-empty. That each of the three patterns yields its first match is proved separately, by Photo.SearchIsFirst and Pattern.SearchIsFirst.
- `\b` and `\w` use the ASCII word characters, as JavaScript does without the `u` flag. The transcript is normalized first, so accented letters are mostly decomposed away before matching.

## Findings

| source | as written | input that shows it | evidently intended | confidence | as-written member | corrected member |
|---|---|---|---|---|---|---|
| app.js:79 | `/[&<>"]+/g` replaces a whole run of special characters by one lookup in an object keyed by single characters; a run of two or more finds no key and is replaced by the text "undefined" | `escapeHtml("<<")` yields `"undefined"`, the same as `escapeHtml("undefined")` | each special character replaced by its own entity (`/[&<>"]/g`), so `"<<"` yields `"&lt;&lt;"` | not executed | Display.EscapeHtmlCollides | Display.UnescapeEscape |
