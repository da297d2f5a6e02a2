# Verified model of the AI assistant's core logic

This project models the four pieces of sequential logic at the centre of a
desktop AI assistant. It states and proves their properties in Dafny. The
foreign calls around them become inputs: audio devices, speech recognition,
screen capture, OCR, window lookup, HTTP and YAML parsing.

- `voice_processor.dfy` (module `Voice`, class `VoiceProcessor`) covers the
  voice listener:
  - the keyword classifier that routes a command;
  - the wake-phrase rule ("hey assistant") that turns a transcript into a
    queued command;
  - one listening session of the continuous listener. The frame list grows
    until a command resets it. The recognizer sees at most the last 215
    chunks. The silence counter closes the session at the 216th consecutive
    failed chunk;
  - the FIFO `get_command` and `stop`.
- `context_manager.dfy` (module `ScreenContext`, class `ContextManager`)
  covers the screen monitor:
  - the frame-change test, both as written (int16 squares) and with exact
    squares;
  - the YouTube, PDF and e-mail classifiers;
  - the OCR text rule;
  - one monitoring cycle and the monitoring loop, as a state machine whose
    invariant says the context is either empty or a coherent five-key
    dictionary;
  - `get_context` and `stop`.
- `llm_manager.dfy` (module `Llm`, class `LlmManager`) covers the
  language-model dispatcher:
  - the client list built from the API keys;
  - the two chat messages;
  - the request each provider receives;
  - the ordered fallback loop that returns the first reply, or one of two
    distinct errors.
- `config.dfy` (module `Configuration`, class `Config`) covers the
  configuration: the shallow merge of a YAML mapping over the defaults, and
  `get` with a fallback.
- `text.dfy` (module `Text`) models the Python string operations the core
  relies on: `lower`, `in`, `replace(pat, "")`, `strip` and `"\n".join`.
  It also defines `split`, which the core never calls. It is there only to
  state that the joined context lines read back (`Llm.ContextReadBack`).
- `wrappers.dfy` holds `Option`.

The listening session is specified by the pure functions `Step` and `After`
over a `Session` record, and the monitor by `Cycle` and `Run` over a
`Monitor` record. The imperative loops (`Listen`, `ContinuousMonitor`,
`Query`) are proved against these functions. The properties of the listener
and the monitor are lemmas about the functions.

The wake-phrase rule removes every occurrence of "hey assistant" from the
lower-cased transcript, as `str.replace` does, not just the first one, and
then strips the result.

The monitor (`Cycle`, `MonitorCycle`, `ContinuousMonitor`) runs the corrected
change test `ScreenChanged`, not the int16 test the loop calls (see
"## Findings"). `CycleAsWritten` is the cycle with the int16 test.
`CycleCatchesCodeChanges` and `CycleFollowsCodeOnSmallDifferences` relate
the two for one cycle from the same state. `MonitorAndCodeDiverge` shows that
along a run either one can publish a frame the other skips.

## Model

| member | source | states |
|---|---|---|
| Text.Lower | src/voice_processor.py:129 | `lower()` keeps the length, folds every character, and leaves no ASCII capital |
| Text.LowerOfLower | src/voice_processor.py:129 | lower-casing a string that has no ASCII capital changes nothing |
| Text.Contains | src/voice_processor.py:130 | `pat in s` holds exactly when `pat` occurs at some index of `s` |
| Text.RemoveAll | src/voice_processor.py:52 | `replace(pat, "")` never lengthens the string |
| Text.RemoveAllKeepsCharacters | src/voice_processor.py:52 | `replace(pat, "")` keeps only characters of the string, each at most as often as it occurs there |
| Text.RemoveAllWithoutPattern | src/voice_processor.py:52 | `replace(pat, "")` leaves a string in which `pat` does not occur unchanged |
| Text.RemoveAllFirstOccurrence | src/voice_processor.py:52 | `replace(pat, "")` scans left to right: the text before the first occurrence is kept, that occurrence is deleted, and the rest is processed the same way |
| Text.Strip | src/voice_processor.py:52 | `strip()` returns the middle of the string between a whitespace-only prefix and suffix, with no whitespace at either end |
| Text.StripEmpty | src/context_manager.py:67 | `strip()` yields the empty string exactly when the input is all whitespace |
| Text.StripAfterSpaces | src/voice_processor.py:52 | stripping leading whitespace off an already trimmed string gives that string back |
| Text.Join | src/llm_manager.py:64 | `"\n".join(parts)`: the parts with one separator between neighbours; `Text.SplitJoin` states that splitting undoes it |
| Text.SplitJoin | src/llm_manager.py:64 | splitting a `"\n".join` on newlines gives back the parts when no part contains a newline |
| Voice.WindowChunks | src/voice_processor.py:48 | the window size 215 is `int(rate / chunk * 5)` for rate 44100 and chunk 1024: the whole chunks in five seconds |
| Voice.CommandKind.Label | src/voice_processor.py:125-141 | the six labels `classify_command` returns, one per route; the `Classify*` lemmas state which route each command takes |
| Voice.ContainsAny | src/voice_processor.py:130 | `any(k in s for k in keywords)` holds exactly when some keyword occurs |
| Voice.Classify | src/voice_processor.py:125-141 | `classify_command`: a missing or empty command is unknown, and a web summary needs both "summarize" and "http" (the full priority order is in the lemmas below) |
| Voice.ClassifyIgnoresCase | src/voice_processor.py:129-130 | the route depends only on the lower-cased command |
| Voice.ClassifyAutomationFirst | src/voice_processor.py:130-133 | an automation keyword decides before every later rule: web summary iff "summarize" and "http" both occur, automation otherwise |
| Voice.ClassifyFirstMatchWins | src/voice_processor.py:134-139 | without an automation keyword, query, then search, then e-mail reply: the first group that matches wins (both directions) |
| Voice.ClassifyUnknown | src/voice_processor.py:127-141 | "unknown" exactly for a missing or empty command or one that matches no keyword group |
| Voice.WakeCommand | src/voice_processor.py:51-52 | a command comes out iff the lower-cased transcript contains "hey assistant"; it is that text with every occurrence of the phrase removed, then stripped, so it is trimmed and has no ASCII capital |
| Voice.WakeCommandAfterPhrase | src/voice_processor.py:51-52 | "hey assistant", whitespace, then a trimmed command without the phrase queues exactly that command |
| Voice.WakeCommandAroundPhrase | src/voice_processor.py:51-52 | a phrase in the middle of the transcript queues the text on both sides of it, joined and stripped |
| Voice.React | src/voice_processor.py:50-60 | a failed recognition is silence; a transcript queues a command exactly when the wake-phrase rule yields one, and queues that command |
| Voice.Step | src/voice_processor.py:46-60 | one iteration of the inner loop on its locals: the chunk is appended (or the frames dropped after a queued command), the silence counter is reset or extended, and the limit may close the session |
| Voice.After | src/voice_processor.py:45-60 | the session after n reads, stopping at the silence timeout; the properties are the lemmas below |
| Voice.Window | src/voice_processor.py:48 | the recognizer gets the last min(n, 215) frames, as a suffix of the frame list |
| Voice.SilenceLimit | src/voice_processor.py:57-60 | the silence test `count * 1024/44100 > 5` holds exactly from the 216th consecutive failed chunk |
| Voice.AfterClosed | src/voice_processor.py:59-60 | once the loop has broken out on silence, further chunks change nothing |
| Voice.CommandsOfReactions | src/voice_processor.py:51-55 | the commands the reactions queue are those the wake-phrase rule draws from the transcripts, in order |
| Voice.AfterCommands | src/voice_processor.py:45-60 | after n chunks the session has read at most n, has queued the commands of the reactions it read, and has read all n unless it closed |
| Voice.SessionCommands | src/voice_processor.py:45-60 | a session queues exactly the wake-phrase commands of the transcripts it consumed, in arrival order, and consumes every chunk unless it closes on silence |
| Voice.AfterReaches | src/voice_processor.py:56-60 | the silence counter equals the number of trailing failures, and the session closed iff that number exceeds the limit, never earlier |
| Voice.SessionClosesOnlyAfterSilence | src/voice_processor.py:56-60 | a closed session has just read 216 consecutive failed chunks |
| Voice.SilenceClosesSession | src/voice_processor.py:57-60 | 216 consecutive failed chunks close the session, at the latest on the last of them |
| Voice.NextRecentWindow | src/voice_processor.py:47-48 | the window over the frames gathered since the last reset is the most recent run of at most 215 chunks |
| Voice.HandedStep | src/voice_processor.py:47-48 | each read hands over exactly one more window: the last 215 of the session's frames with that chunk appended |
| Voice.VoiceProcessor.constructor | src/voice_processor.py:13-27 | the listener starts running with an empty queue and the given listening switch |
| Voice.VoiceProcessor.ActOn | src/voice_processor.py:51-60 | acting on one answer is one `Step`: a command is queued and the frames dropped, or the silence counter is reset or extended |
| Voice.VoiceProcessor.ListenStep | src/voice_processor.py:46-60 | one iteration appends the chunk, passes the window of the frames, queues what the reaction queues, and advances `After` by one chunk; the windows so far stay recent runs ending at their reads and equal to those `WindowAfter` gives |
| Voice.VoiceProcessor.Listen | src/voice_processor.py:42-61 | the inner loop yields `After`'s commands, reads as many chunks as `After`, and times out iff `After` closed; the k-th window is the last 215 of the frames gathered since the last queued command, with the k-th chunk appended |
| Voice.VoiceProcessor.ListenSession | src/voice_processor.py:29-66 | when running with listening enabled, the session's commands go on the back of the queue and the windows are those of `Listen`; otherwise nothing happens |
| Voice.VoiceProcessor.GetCommand | src/voice_processor.py:143-148 | pops the oldest queued command, or returns None on an empty queue without blocking |
| Voice.VoiceProcessor.Stop | src/voice_processor.py:150-153 | clears the running flag and leaves the queue alone |
| ScreenContext.Int16 | src/context_manager.py:103 | the int16 value lies in [-32768, 32768), is congruent to the input modulo 65536, and is the input when it is in range |
| ScreenContext.SquaredDiff | src/context_manager.py:103 | a pixel difference squared is at most 65025, is zero iff the pixels are equal, and stays below 32768 iff the difference is within ±181 |
| ScreenContext.SquareSum | src/context_manager.py:103 | the sum of squared differences is zero iff the frames are equal |
| ScreenContext.MeanInIntegers | src/context_manager.py:103-104 | "mean > threshold" is "sum > threshold × n" for n > 0 |
| ScreenContext.ScreenChangedAsWritten | src/context_manager.py:99-104 | as written: changed without a baseline, an error for frames of different sizes (same-size frames of different shape are compared, see "## Left out"), otherwise the mean of the int16-wrapped squares against the threshold |
| ScreenContext.ScreenChanged | src/context_manager.py:99-104 | with exact squares: changed without a baseline, an error when sizes differ (same-size frames of different shape are compared, see "## Left out"), mean squared difference against the threshold, and an identical frame is never a change |
| ScreenContext.WrappedSquareSum | src/context_manager.py:103 | the sum of `(new.astype(np.int16) - old.astype(np.int16)) ** 2` with each square wrapped to int16; `WrappedSumAtMostExact`, `WrappedSumExactForSmallDifferences` and `AsWrittenMissesBlackToWhite` state how it relates to the exact sum |
| ScreenContext.WrappedSumAtMostExact | src/context_manager.py:103 | the wrapped sum of squares never exceeds the exact one |
| ScreenContext.WrappedSumExactForSmallDifferences | src/context_manager.py:103 | with every pixel difference within ±181 the wrapped sum is exact |
| ScreenContext.AsWrittenChangeIsReal | src/context_manager.py:99-104 | every change the code as written reports is a real change |
| ScreenContext.AsWrittenAgreesOnSmallDifferences | src/context_manager.py:99-104 | the code as written and the exact test agree when no pixel moves by more than 181 |
| ScreenContext.AsWrittenMissesBlackToWhite | src/context_manager.py:103-104 | a black pixel turning white is unchanged for the code as written and changed for the exact test |
| ScreenContext.IsYoutubeVideo | src/context_manager.py:106-108 | "chrome" in the lower-cased application name and "youtube.com/watch" in the lower-cased screen text |
| ScreenContext.IsPdfOpen | src/context_manager.py:110-112 | "adobe acrobat" in the application name, or ".pdf" in the screen text with "chrome" in the application name, all lower-cased |
| ScreenContext.IsEmailOpen | src/context_manager.py:114-116 | "gmail" or "outlook" in the lower-cased application name; the screen text plays no part |
| ScreenContext.ClassifiersIgnoreCase | src/context_manager.py:106-116 | the YouTube, PDF and e-mail tests give the same answers on lower-cased inputs |
| ScreenContext.BrowserFlagsNeedChrome | src/context_manager.py:106-112 | the YouTube flag, and the PDF flag without Acrobat, both need "chrome" in the application name |
| ScreenContext.ScreenText | src/context_manager.py:62-70 | "OCR failed" on an exception, "No text detected" for an empty result, otherwise the stripped OCR text; always trimmed, and empty exactly when OCR returned whitespace only |
| ScreenContext.Publish | src/context_manager.py:128-134 | the published dictionary has exactly the five keys, holds the application and the text, and its flags are computed from them |
| ScreenContext.Cycle | src/context_manager.py:121-135 | one iteration of the monitoring loop, with the corrected change test; its properties are the lemmas below |
| ScreenContext.CycleAsWritten | src/context_manager.py:121-135 | one iteration of the monitoring loop as written, with the int16 change test; `CycleCatchesCodeChanges`, `CycleFollowsCodeOnSmallDifferences` and `MonitorAndCodeDiverge` relate it to `Cycle` |
| ScreenContext.Run | src/context_manager.py:118-136 | the monitoring loop over a sequence of samples, one cycle each, in order |
| ScreenContext.CycleCoherent | src/context_manager.py:121-135 | one cycle keeps the invariant: empty before the first analysed frame, a coherent published context after |
| ScreenContext.RunCoherent | src/context_manager.py:118-136 | any number of cycles keeps the invariant |
| ScreenContext.SameCaptureTwice | src/context_manager.py:121-135 | capturing the same frame again changes neither the context nor the baseline |
| ScreenContext.RunAfterCrash | src/context_manager.py:118-136 | once an exception has ended the loop, later samples change nothing |
| ScreenContext.CyclePublishes | src/context_manager.py:121-135 | a cycle touches the context or the baseline only for a captured, changed frame, and then stores that frame and the dictionary published from it |
| ScreenContext.ChangedFramePublishes | src/context_manager.py:124-134 | a captured frame that differs from the baseline replaces the context with the published dictionary and becomes the baseline |
| ScreenContext.FirstCapturePublishes | src/context_manager.py:101-102 | the first captured frame always publishes a context and becomes the baseline |
| ScreenContext.CycleCatchesCodeChanges | src/context_manager.py:124-134 | in one cycle from the same state, every frame the code as written treats as changed is published by the monitor too |
| ScreenContext.CycleFollowsCodeOnSmallDifferences | src/context_manager.py:121-135 | while no pixel moves by more than 181, a cycle takes exactly the step of the code as written (`CycleAsWritten`) |
| ScreenContext.MonitorAndCodeDiverge | src/context_manager.py:103-104 | from a black one-pixel baseline, a pixel of 182 is published by the monitor and skipped by the code (its square wraps); a following pixel of 181 is then published by the code and skipped by the monitor |
| ScreenContext.RunSplit | src/context_manager.py:118-136 | running over two batches of samples is running over their concatenation |
| ScreenContext.ContextManager.constructor | src/context_manager.py:19-26 | starts with an empty context, no baseline, running, and the invariant |
| ScreenContext.ContextManager.MonitorCycle | src/context_manager.py:120-135 | one loop iteration on the fields is `Cycle` and keeps the invariant |
| ScreenContext.ContextManager.ContinuousMonitor | src/context_manager.py:118-136 | the loop leaves the state `Run` over the samples when running, unchanged when stopped, and keeps the invariant |
| ScreenContext.ContextManager.GetContext | src/context_manager.py:138-141 | returns the stored context as a value: either empty or holding the application and screen text |
| ScreenContext.ContextManager.Stop | src/context_manager.py:143-145 | clears the running flag; stopping again leaves it cleared |
| Llm.ConfiguredClients | src/llm_manager.py:54-59 | at most two clients, each present iff its key is non-empty, OpenAI before Gemini, each with its own key |
| Llm.Render | src/llm_manager.py:64 | `f"{value}"` for a context value: a string as it is, a boolean as `True` or `False`, any other value as its given `str()` text; `Llm.SystemContent` and `Llm.ContextReadBack` state what the lines hold |
| Llm.SystemContent | src/llm_manager.py:64-66 | the context header followed by the joined lines; an empty context gives the header alone, a one-entry context the header and that one "key: value" line |
| Llm.BuildMessages | src/llm_manager.py:64-68 | exactly a system message with the context content (the header alone for an empty context), then a user message whose content is the command |
| Llm.ContextReadBack | src/llm_manager.py:64-66 | when no key or value contains a newline, the system message splits back after the header into exactly the context lines; multi-line OCR text, the usual case, does not split back |
| Llm.RequestFor | src/llm_manager.py:20-44 | OpenAI is sent model "gpt-4" with the whole message list; Gemini only the content of the last message |
| Llm.GeminiSeesOnlyCommand | src/llm_manager.py:44 | Gemini receives only the command: the context never reaches it |
| Llm.Reply | src/llm_manager.py:28-33 | a call succeeds iff the status is 200 and the body has the expected shape; any other status is a failure |
| Llm.FirstReply | src/llm_manager.py:69-77 | the index of the first call that succeeds, every earlier call having failed, or none iff all fail |
| Llm.LlmManager.constructor | src/llm_manager.py:54-59 | the client list is `ConfiguredClients` of the two keys |
| Llm.LlmManager.Query | src/llm_manager.py:61-78 | no clients: that error, with nothing sent; otherwise clients are tried in order with the same messages, the first reply is returned after exactly that many calls, and "all failed" follows only after every client was called |
| Configuration.Truthy | src/config.py:29 | the truth test `if user_config:`: `None`, `False`, zero and empty strings, lists and mappings are false; `Configuration.FallsBackToDefaults` states its effect |
| Configuration.Merged | src/config.py:25-33 | the keys are the defaults' plus the file's; the file's values override; other defaults are kept; no user keys means the defaults |
| Configuration.FallsBackToDefaults | src/config.py:29-33 | a failed read, an empty or falsy document, or a non-mapping document leaves the defaults, continuous listening off |
| Configuration.ShallowServerOverride | src/config.py:30 | the merge is shallow: setting only the server host drops the default port |
| Configuration.Config.constructor | src/config.py:23-33 | the settings are `Merged` of the load outcome |
| Configuration.Config.Get | src/config.py:35-37 | the stored value when the key is present, the given default otherwise |

## Left out

- Device and service I/O is not modelled:
  - pyaudio streams, the speech recognizer, `time.sleep`;
  - `capture_voice` and `process_audio` (WAV decoding);
  - screen capture with the float luma conversion;
  - OpenCV preprocessing, tesseract OCR and the active-window lookup;
  - the HTTP bodies of the two clients and `asyncio.wait_for`;
  - file reading and YAML parsing.

  What these return is an input instead: a `Recognition` per window, a `Sample` per monitoring cycle, an `Attempt` per client call, and a `Loaded` outcome for the configuration file.
- Threads, locks and daemon loops are not modelled. Each listener or monitor step is a sequential step, and `running` is read once per call.
- The outer listening loop (reopening the stream after a silence timeout or an exception, and sleeping a second on errors) is not modelled. One `ListenSession` is one session of the inner loop over a finite chunk sequence.
- Voice.VoiceProcessor.Listen: the wake-phrase rule is applied to every recognizer answer before the loop (`Reactions`). The loop consumes these reactions one per chunk, which is equivalent because the rule depends only on that answer.
- Voice.SilenceLimit: silence is counted in whole chunks, not as the float sum of 1024/44100 s. The float sum is 4.992 s after 215 chunks and 5.015 s after 216. Both margins exceed the float rounding error by many orders of magnitude, so the limit is the same.
- Text.Lower: only ASCII letters are folded; Python's `lower()` also folds non-ASCII letters. Two consequences follow.
- Voice.WakeCommand: the queued command is the lower-cased transcript with every occurrence of the phrase removed, then stripped. Since only ASCII letters are lower-cased, it keeps non-ASCII capitals where Python lowers them ("Hey assistant call Émile" queues "call Émile" here, "call émile" in Python).
- ScreenContext.IsEmailOpen: non-ASCII characters that Python lowers into ASCII letters do not match the keywords here (U+212A KELVIN SIGN lowers to "k", so an app named "OUTLOO\u212A" is an email client in Python and not in the model). The same holds for `IsYoutubeVideo`, `IsPdfOpen` and `Voice.Classify`.
- ScreenContext.ScreenChanged: a frame is a flat pixel sequence with no width or height. Frames of the same pixel count but different shape, such as a (1080, 1920) frame after a (1920, 1080) baseline when the display is rotated, make numpy raise at src/context_manager.py:103, which ends the monitor thread; the model compares them pixel by pixel. Broadcasting between shapes of different size that numpy accepts is not modelled either: any size difference counts as the error.
- ScreenContext.ScreenChangedAsWritten: the same flat-frame limitation; a same-size reshape is compared instead of raising.
- ScreenContext.ContextManager.GetContext: the copy is implicit, because Dafny maps are values. Aliasing of the returned dictionary does not arise.
- Llm.Render: Python's `str()` of context values other than strings and booleans is not computed. Callers add such values before a query (the search results, for instance), and the model takes their rendered text as given (`Other`).
- Llm.Reply: the parsed answer is taken to be a string. A JSON body whose answer field is not a string (e.g. `null`) is not modelled.
- Configuration.Merged: YAML documents that `dict.update` accepts without being mappings (a list of key/value pairs) are treated as non-mappings. Keys that are not strings are not modelled.
- ScreenContext.Cycle: the monitor uses the corrected change test `ScreenChanged`, not the int16 test that `is_screen_changed` computes. A frame in which some pixel moved by more than 181 can therefore publish in the model while the code keeps the old context (see "## Findings"). In one cycle from the same state, every change the code detects is also detected by the model (`CycleCatchesCodeChanges`). After a cycle where the two disagree their baselines differ, and from then on either side can publish a frame the other skips (`MonitorAndCodeDiverge`).
- ScreenContext.ContextManager.MonitorCycle: follows `Cycle`, so it uses the corrected change test, as above.
- ScreenContext.ContextManager.ContinuousMonitor: follows `Run` over `Cycle`, so it uses the corrected change test, as above.
- Logging is not modelled in any module.

## Findings

| source | as written | input that shows it | evidently intended | confidence | as-written member | corrected member |
|---|---|---|---|---|---|---|
| src/context_manager.py:103-104 | the squared pixel difference is computed in int16, so a difference beyond ±181 wraps (255² = 65025 becomes -511) | baseline frame [0], new frame [255]: the mean is -511, not above 100, so a black-to-white change reads as unchanged | the mean of the exact squared differences compared with the threshold | high, not executed | ScreenContext.AsWrittenMissesBlackToWhite | ScreenContext.ScreenChanged |
