/**
 * The voice command listener of the assistant (`VoiceProcessor`): the
 * keyword classifier that routes a command, the wake-phrase rule that turns a
 * transcript into a queued command, the bookkeeping of one listening session
 * (growing frame list, rolling recognizer window, silence counter) and the
 * non-blocking pop of the command queue.
 *
 * Audio chunks are opaque, what the speech recognizer makes of each window is
 * an input, and silence is counted in whole chunks rather than float seconds.
 */
module Voice {
  import opened Wrappers
  import opened Text

  const WAKE_PHRASE: string := "hey assistant"

  /** Samples per second of the input stream. */
  const RATE: nat := 44100
  /** Samples per read of the input stream. */
  const CHUNK: nat := 1024
  /** Seconds of failed recognition after which a session closes its stream. */
  const MAX_SILENCE: nat := 5
  /** Seconds of recent audio handed to the recognizer. */
  const WINDOW_SECONDS: nat := 5
  /** The number of most recent chunks handed to the recognizer; see `WindowChunks`. */
  const WINDOW: nat := 215
  /** The number of consecutive failed chunks a session tolerates; see `SilenceLimit`. */
  const TOLERATED_SILENCE: nat := 215

  /** WINDOW is `int(rate / chunk * 5)`: the chunks that make up five seconds of audio, rounded down. */
  lemma WindowChunks()
    ensures WINDOW == RATE * WINDOW_SECONDS / CHUNK
    ensures WINDOW * CHUNK <= RATE * WINDOW_SECONDS < (WINDOW + 1) * CHUNK
  {
  }

  // ---------------------------------------------------------------------------
  // Routing a command

  datatype CommandKind = WebSummary | Automation | Query | Search | EmailReply | Unknown
  {
    /** The routing label `classify_command` returns. */
    function Label(): string
    {
      match this
      case WebSummary => "web_summary"
      case Automation => "automation"
      case Query => "query"
      case Search => "search"
      case EmailReply => "email_reply"
      case Unknown => "unknown"
    }
  }

  const AUTOMATION_KEYWORDS: seq<string> := ["open", "change", "reject", "order", "shut down"]
  const QUERY_KEYWORDS: seq<string> := ["read", "summarize", "what"]

  /** `any(k in s for k in keywords)`: some keyword occurs in `s`. */
  function ContainsAny(s: string, keywords: seq<string>): (r: bool)
    ensures r <==> exists k :: 0 <= k < |keywords| && Contains(s, keywords[k])
  {
    if keywords == [] then
      false
    else
      var rest := ContainsAny(s, keywords[1..]);
      assert forall k :: 1 <= k < |keywords| ==> keywords[k] == keywords[1..][k - 1];
      Contains(s, keywords[0]) || rest
  }

  /**
   * `classify_command`: a missing or empty command is unknown; otherwise the
   * lower-case command is tested against the keyword groups in a fixed order
   * and the first group that matches decides.
   */
  function Classify(command: Option<string>): (kind: CommandKind)
    ensures command.None? || command.value == "" ==> kind == Unknown
    ensures kind == WebSummary ==> command.Some? && Contains(Lower(command.value), "summarize") && Contains(Lower(command.value), "http")
  {
    if command.None? || command.value == "" then
      Unknown
    else
      var lowered := Lower(command.value);
      if ContainsAny(lowered, AUTOMATION_KEYWORDS) then
        if Contains(lowered, "summarize") && Contains(lowered, "http") then WebSummary else Automation
      else if ContainsAny(lowered, QUERY_KEYWORDS) then
        Query
      else if Contains(lowered, "search for") then
        Search
      else if Contains(lowered, "reply to this") then
        EmailReply
      else
        Unknown
  }

  /** A command and its lower-case form are classified alike. */
  lemma ClassifyIgnoresCase(command: string)
    ensures Classify(Some(command)) == Classify(Some(Lower(command)))
  {
    LowerOfLower(Lower(command));
  }

  /** An automation keyword decides before every later rule: web summary exactly when "summarize" and "http" both occur. */
  lemma ClassifyAutomationFirst(command: string)
    requires ContainsAny(Lower(command), AUTOMATION_KEYWORDS)
    ensures Classify(Some(command)) in {WebSummary, Automation}
    ensures Classify(Some(command)) == WebSummary <==>
              Contains(Lower(command), "summarize") && Contains(Lower(command), "http")
  {
  }

  /** Without an automation keyword, the first of query, search and e-mail reply that matches wins. */
  lemma ClassifyFirstMatchWins(command: string)
    requires command != "" && !ContainsAny(Lower(command), AUTOMATION_KEYWORDS)
    ensures Classify(Some(command)) == Query <==> ContainsAny(Lower(command), QUERY_KEYWORDS)
    ensures Classify(Some(command)) == Search <==>
              !ContainsAny(Lower(command), QUERY_KEYWORDS) && Contains(Lower(command), "search for")
    ensures Classify(Some(command)) == EmailReply <==>
              !ContainsAny(Lower(command), QUERY_KEYWORDS) && !Contains(Lower(command), "search for")
              && Contains(Lower(command), "reply to this")
  {
  }

  /** A command is unknown exactly when it is missing, empty, or mentions no keyword of any group. */
  lemma ClassifyUnknown(command: Option<string>)
    ensures Classify(command) == Unknown <==>
              command.None? || command.value == "" ||
              (var lowered := Lower(command.value);
               !ContainsAny(lowered, AUTOMATION_KEYWORDS) && !ContainsAny(lowered, QUERY_KEYWORDS)
               && !Contains(lowered, "search for") && !Contains(lowered, "reply to this"))
  {
  }

  // ---------------------------------------------------------------------------
  // The wake phrase

  lemma StripKeepsLowerCase(s: string)
    requires forall k :: 0 <= k < |s| ==> !IsUpper(s[k])
    ensures forall k :: 0 <= k < |Strip(s)| ==> !IsUpper(Strip(s)[k])
  {
    var r := Strip(s);
    var i := |s| - |StripStart(s)|;
    assert r == s[i..i + |r|];
    forall k | 0 <= k < |r| ensures !IsUpper(r[k]) {
      assert r[k] == s[i + k];
    }
  }

  lemma NoUpperKept(a: string, b: string)
    requires multiset(a) <= multiset(b)
    requires forall k :: 0 <= k < |b| ==> !IsUpper(b[k])
    ensures forall k :: 0 <= k < |a| ==> !IsUpper(a[k])
  {
    forall k | 0 <= k < |a| ensures !IsUpper(a[k]) {
      assert a[k] in multiset(a);
      assert a[k] in multiset(b);
      var j :| 0 <= j < |b| && b[j] == a[k];
    }
  }

  /**
   * The wake-phrase rule for one transcript: a command comes out exactly when
   * the lower-case transcript contains the wake phrase; it is that lower-case
   * text with every occurrence of the phrase deleted and the surrounding
   * whitespace stripped, so it has no ASCII capital and no whitespace at
   * either end.
   */
  function WakeCommand(transcript: string): (command: Option<string>)
    ensures command.Some? <==> Contains(Lower(transcript), WAKE_PHRASE)
    ensures command.Some? ==> Trimmed(command.value)
    ensures command.Some? ==> forall k :: 0 <= k < |command.value| ==> !IsUpper(command.value[k])
    ensures command.Some? ==> command.value == Strip(RemoveAll(Lower(transcript), WAKE_PHRASE))
  {
    var lowered := Lower(transcript);
    if transcript != "" && Contains(lowered, WAKE_PHRASE) then
      var removed := RemoveAll(lowered, WAKE_PHRASE);
      RemoveAllKeepsCharacters(lowered, WAKE_PHRASE);
      NoUpperKept(removed, lowered);
      StripKeepsLowerCase(removed);
      Some(Strip(removed))
    else
      None
  }

  /** Whitespace in front of a string that lacks the wake phrase does not create one. */
  lemma {:induction false} NoPhraseAfterSpaces(gap: string, rest: string)
    requires AllSpace(gap) && !Contains(rest, WAKE_PHRASE)
    ensures !Contains(gap + rest, WAKE_PHRASE)
  {
    if gap != [] {
      assert IsSpace(gap[0]);
      assert (gap + rest)[0] == gap[0];
      assert (gap + rest)[1..] == gap[1..] + rest;
      NoPhraseAfterSpaces(gap[1..], rest);
    } else {
      assert gap + rest == rest;
    }
  }

  /**
   * A transcript that reads "hey assistant", then whitespace, then a trimmed
   * command without the phrase (in any letter case) queues exactly that command.
   */
  lemma WakeCommandAfterPhrase(transcript: string, gap: string, rest: string)
    requires Lower(transcript) == WAKE_PHRASE + gap + rest
    requires AllSpace(gap) && Trimmed(rest) && !Contains(rest, WAKE_PHRASE)
    ensures WakeCommand(transcript) == Some(rest)
  {
    var lowered := Lower(transcript);
    assert lowered[..|WAKE_PHRASE|] == WAKE_PHRASE;
    assert lowered[|WAKE_PHRASE|..] == gap + rest;
    assert OccursAt(lowered, WAKE_PHRASE, 0);
    NoPhraseAfterSpaces(gap, rest);
    RemoveAllWithoutPattern(gap + rest, WAKE_PHRASE);
    assert RemoveAll(lowered, WAKE_PHRASE) == gap + rest;
    StripAfterSpaces(gap, rest);
  }

  /**
   * The phrase may stand anywhere: a transcript that reads `before`, the
   * phrase, then `after`, with no earlier occurrence and none in `after`,
   * queues the two sides joined and stripped.
   */
  lemma WakeCommandAroundPhrase(transcript: string, before: string, after: string)
    requires Lower(transcript) == before + WAKE_PHRASE + after
    requires forall i :: 0 <= i < |before| ==> !OccursAt(before + WAKE_PHRASE + after, WAKE_PHRASE, i)
    requires !Contains(after, WAKE_PHRASE)
    ensures WakeCommand(transcript) == Some(Strip(before + after))
  {
    var lowered := Lower(transcript);
    assert lowered[|before|..|before| + |WAKE_PHRASE|] == WAKE_PHRASE;
    assert OccursAt(lowered, WAKE_PHRASE, |before|);
    RemoveAllFirstOccurrence(before, WAKE_PHRASE, after);
    RemoveAllWithoutPattern(after, WAKE_PHRASE);
  }

  // ---------------------------------------------------------------------------
  // One listening session

  /** One read of CHUNK samples from the input stream, kept opaque. */
  type Chunk = seq<bv8>

  /** What the speech recognizer made of one window of audio. */
  datatype Recognition =
    | Heard(text: string)  // a transcript
    | NotUnderstood        // no speech recognized
    | ServiceError         // the recognition service failed

  /** What the listening loop does with one recognition. */
  datatype Reaction =
    | Enqueue(command: string)  // a transcript with the wake phrase: queue its command and drop the frames
    | Continue                  // a transcript without the wake phrase: keep listening
    | Silence                   // no transcript: one more chunk of silence

  /**
   * A failed recognition is silence; a transcript queues a command exactly
   * when the wake-phrase rule draws one from it, and that command is queued.
   */
  function React(heard: Recognition): (r: Reaction)
    ensures r.Silence? <==> !heard.Heard?
    ensures r.Enqueue? <==> heard.Heard? && WakeCommand(heard.text).Some?
    ensures r.Enqueue? ==> WakeCommand(heard.text) == Some(r.command)
  {
    match heard
    case Heard(text) =>
      (match WakeCommand(text)
       case Some(command) => Enqueue(command)
       case None => Continue)
    case _ => Silence
  }

  /** The reaction to each recognizer answer, in order. */
  function Reactions(heard: seq<Recognition>): (reactions: seq<Reaction>)
    ensures |reactions| == |heard|
    ensures forall j :: 0 <= j < |heard| ==> reactions[j] == React(heard[j])
  {
    seq(|heard|, j requires 0 <= j < |heard| => React(heard[j]))
  }

  /** `frames[-WINDOW:]`: the most recent WINDOW chunks, or all of them while there are fewer. */
  function Window(frames: seq<Chunk>): (w: seq<Chunk>)
    ensures |w| == if |frames| < WINDOW then |frames| else WINDOW
    ensures w == frames[|frames| - |w|..]
  {
    if |frames| <= WINDOW then frames else frames[|frames| - WINDOW..]
  }

  /** More consecutive failed chunks than the session tolerates. */
  predicate SilenceExceeded(silentChunks: nat)
  {
    silentChunks > TOLERATED_SILENCE
  }

  /**
   * SilenceExceeded is the listener's test `silence_count > max_silence`,
   * where each failed recognition adds CHUNK / RATE seconds: five seconds are
   * exceeded at the 216th consecutive failed chunk, not before.
   */
  lemma SilenceLimit(silentChunks: nat)
    ensures SilenceExceeded(silentChunks) <==> silentChunks * CHUNK > MAX_SILENCE * RATE
    ensures SilenceExceeded(silentChunks) <==> silentChunks >= 216
  {
  }

  /** The locals of the inner listening loop, together with what the loop has produced so far. */
  datatype Session = Session(
    frames: seq<Chunk>,        // every chunk read since the last queued command
    silence: nat,              // consecutive failed recognitions, in chunks
    read: nat,                 // chunks read from the stream
    commands: seq<string>,     // commands put on the queue, oldest first
    closed: bool)              // the loop left through the silence timeout

  const START: Session := Session([], 0, 0, [], false)

  /** The command one reaction puts on the queue, if any. */
  function Queued(reaction: Reaction): seq<string>
  {
    if reaction.Enqueue? then [reaction.command] else []
  }

  /**
   * One iteration: read a chunk, hand the window to the recognizer, and act
   * on its answer. Queuing a command empties the frames; any transcript
   * resets the silence counter, a failure extends it and may close the session.
   */
  function Step(s: Session, chunk: Chunk, reaction: Reaction): Session
  {
    var silence := if reaction.Silence? then s.silence + 1 else 0;
    Session(
      if reaction.Enqueue? then [] else s.frames + [chunk],
      silence,
      s.read + 1,
      s.commands + Queued(reaction),
      if reaction.Silence? then SilenceExceeded(silence) else s.closed)
  }

  /**
   * The session once the stream has delivered `chunks[..n]` and the loop has
   * reacted with `reactions[..n]`; a closed session reads nothing more.
   */
  function After(chunks: seq<Chunk>, reactions: seq<Reaction>, n: nat): Session
    requires |chunks| == |reactions| && n <= |chunks|
  {
    if n == 0 then
      START
    else
      var s := After(chunks, reactions, n - 1);
      if s.closed then s else Step(s, chunks[n - 1], reactions[n - 1])
  }

  /** Once closed, a session stays as it is whatever the stream delivers afterwards. */
  lemma {:induction false} AfterClosed(chunks: seq<Chunk>, reactions: seq<Reaction>, m: nat, n: nat)
    requires |chunks| == |reactions| && m <= n <= |chunks|
    requires After(chunks, reactions, m).closed
    ensures After(chunks, reactions, n) == After(chunks, reactions, m)
  {
    if m < n {
      AfterClosed(chunks, reactions, m, n - 1);
    }
  }

  /** The commands a sequence of reactions queues, in order. */
  function Commands(reactions: seq<Reaction>): seq<string>
  {
    if reactions == [] then []
    else Commands(reactions[..|reactions| - 1]) + Queued(reactions[|reactions| - 1])
  }

  /** The commands the wake-phrase rule draws from a sequence of recognitions, in order. */
  function WakeCommands(heard: seq<Recognition>): seq<string>
  {
    if heard == [] then
      []
    else
      var last := heard[|heard| - 1];
      var command := if last.Heard? then WakeCommand(last.text) else None;
      WakeCommands(heard[..|heard| - 1]) + (if command.Some? then [command.value] else [])
  }

  lemma ReactionsPrefix(heard: seq<Recognition>, n: nat)
    requires n <= |heard|
    ensures Reactions(heard)[..n] == Reactions(heard[..n])
  {
  }

  lemma {:induction false} CommandsOfReactions(heard: seq<Recognition>)
    ensures Commands(Reactions(heard)) == WakeCommands(heard)
  {
    if heard != [] {
      var n := |heard| - 1;
      CommandsOfReactions(heard[..n]);
      ReactionsPrefix(heard, n);
    }
  }

  /** After n chunks the session has read at most n of them and queued the commands of the reactions it consumed. */
  lemma {:induction false} AfterCommands(chunks: seq<Chunk>, reactions: seq<Reaction>, n: nat)
    requires |chunks| == |reactions| && n <= |chunks|
    ensures var s := After(chunks, reactions, n);
      && s.read <= n
      && s.commands == Commands(reactions[..s.read])
      && (s.closed || s.read == n)
  {
    if n == 0 {
      assert reactions[..0] == [];
    } else {
      AfterCommands(chunks, reactions, n - 1);
      var s := After(chunks, reactions, n - 1);
      if !s.closed {
        assert reactions[..n][..n - 1] == reactions[..n - 1];
      }
    }
  }

  /**
   * The commands a session queues are exactly those the wake-phrase rule
   * draws from the transcripts it consumed, in order; it consumes every chunk
   * unless it closes on silence.
   */
  lemma SessionCommands(chunks: seq<Chunk>, heard: seq<Recognition>)
    requires |chunks| == |heard|
    ensures var r := After(chunks, Reactions(heard), |chunks|);
      && r.read <= |heard|
      && r.commands == WakeCommands(heard[..r.read])
      && (r.closed || r.read == |heard|)
  {
    var r := After(chunks, Reactions(heard), |chunks|);
    AfterCommands(chunks, Reactions(heard), |chunks|);
    ReactionsPrefix(heard, r.read);
    CommandsOfReactions(heard[..r.read]);
  }

  /** Number of consecutive silent reactions at the end of `reactions`. */
  function TrailingSilence(reactions: seq<Reaction>): nat
  {
    if reactions == [] || !reactions[|reactions| - 1].Silence? then 0
    else 1 + TrailingSilence(reactions[..|reactions| - 1])
  }

  lemma {:induction false} TrailingSilenceSpan(reactions: seq<Reaction>, m: nat)
    requires m <= TrailingSilence(reactions)
    ensures m <= |reactions| && forall j :: |reactions| - m <= j < |reactions| ==> reactions[j].Silence?
  {
    if m > 0 {
      TrailingSilenceSpan(reactions[..|reactions| - 1], m - 1);
    }
  }

  lemma {:induction false} SpanTrailingSilence(reactions: seq<Reaction>, m: nat)
    requires m <= |reactions| && forall j :: |reactions| - m <= j < |reactions| ==> reactions[j].Silence?
    ensures m <= TrailingSilence(reactions)
  {
    if m > 0 {
      SpanTrailingSilence(reactions[..|reactions| - 1], m - 1);
    }
  }

  /** `s` is where a session that started at START stands after the reactions `past`. */
  ghost predicate Reached(s: Session, past: seq<Reaction>)
  {
    && s.read == |past|
    && s.silence == TrailingSilence(past)
    && s.closed == SilenceExceeded(s.silence)
    && forall j :: 0 <= j < |past| ==> !SilenceExceeded(TrailingSilence(past[..j]))
  }

  lemma StepReaches(s: Session, past: seq<Reaction>, chunk: Chunk, reaction: Reaction)
    requires Reached(s, past) && !s.closed
    ensures Reached(Step(s, chunk, reaction), past + [reaction])
  {
    var p := past + [reaction];
    assert p[..|p| - 1] == past;
    forall j | 0 <= j < |p| ensures !SilenceExceeded(TrailingSilence(p[..j])) {
      if j < |past| {
        assert p[..j] == past[..j];
      }
    }
  }

  /** The silence counter of a session is the number of trailing failures among the reactions it consumed. */
  lemma {:induction false} AfterReaches(chunks: seq<Chunk>, reactions: seq<Reaction>, n: nat)
    requires |chunks| == |reactions| && n <= |chunks|
    ensures var s := After(chunks, reactions, n);
      && s.read <= n
      && Reached(s, reactions[..s.read])
      && (s.closed || s.read == n)
  {
    if n == 0 {
      assert reactions[..0] == [];
    } else {
      AfterReaches(chunks, reactions, n - 1);
      var s := After(chunks, reactions, n - 1);
      if s.closed {
        assert After(chunks, reactions, n) == s;
      } else {
        assert s.read == n - 1;
        StepReaches(s, reactions[..n - 1], chunks[n - 1], reactions[n - 1]);
        assert reactions[..n - 1] + [reactions[n - 1]] == reactions[..n];
        assert After(chunks, reactions, n) == Step(s, chunks[n - 1], reactions[n - 1]);
      }
    }
  }

  /**
   * A session closes on silence only right after 216 consecutive failed
   * recognitions.
   */
  lemma SessionClosesOnlyAfterSilence(chunks: seq<Chunk>, heard: seq<Recognition>)
    requires |chunks| == |heard|
    ensures var r := After(chunks, Reactions(heard), |chunks|);
      r.closed ==> 216 <= r.read <= |heard| && forall j :: r.read - 216 <= j < r.read ==> !heard[j].Heard?
  {
    var reactions := Reactions(heard);
    AfterReaches(chunks, reactions, |chunks|);
    var r := After(chunks, reactions, |chunks|);
    var past := reactions[..r.read];
    if r.closed {
      TrailingSilenceSpan(past, 216);
      forall j | r.read - 216 <= j < r.read ensures !heard[j].Heard? {
        assert past[j].Silence?;
      }
    }
  }

  /**
   * 216 consecutive failed recognitions close the session, at the latest on
   * the last of them.
   */
  lemma SilenceClosesSession(chunks: seq<Chunk>, heard: seq<Recognition>, k: nat)
    requires |chunks| == |heard| && k + 216 <= |heard|
    requires forall j :: k <= j < k + 216 ==> !heard[j].Heard?
    ensures var r := After(chunks, Reactions(heard), |chunks|);
      r.closed && r.read <= k + 216
  {
    var reactions := Reactions(heard);
    AfterReaches(chunks, reactions, |chunks|);
    var r := After(chunks, reactions, |chunks|);
    var past := reactions[..r.read];
    if r.read >= k + 216 {
      var p := past[..k + 216];
      assert p == reactions[..k + 216];
      if r.read > k + 216 {
        assert !SilenceExceeded(TrailingSilence(p));
        SpanTrailingSilence(p, 216);
        assert false;
      }
      SpanTrailingSilence(p, 216);
      assert past == p;
    }
  }

  /** Every window `windows[k]` is a non-empty run of at most WINDOW chunks ending with `chunks[k]`. */
  ghost predicate RecentWindows(windows: seq<seq<Chunk>>, chunks: seq<Chunk>)
  {
    && |windows| <= |chunks|
    && forall k :: 0 <= k < |windows| ==> RecentWindow(windows[k], chunks, k)
  }

  /** `w` is the run of at most WINDOW chunks that ends with the k-th read. */
  ghost predicate RecentWindow(w: seq<Chunk>, chunks: seq<Chunk>, k: nat)
  {
    0 < |w| <= WINDOW && |w| <= k + 1 && k < |chunks| && w == chunks[k + 1 - |w|..k + 1]
  }

  /** The window over the frames gathered since `start` ends with the i-th read. */
  lemma WindowOfFrames(chunks: seq<Chunk>, start: nat, i: nat)
    requires start <= i < |chunks|
    ensures RecentWindow(Window(chunks[start..i + 1]), chunks, i)
  {
    var frames := chunks[start..i + 1];
    var w := Window(frames);
    assert w == frames[|frames| - |w|..];
    assert frames[|frames| - |w|..] == chunks[i + 1 - |w|..i + 1];
  }

  lemma AppendRecentWindow(windows: seq<seq<Chunk>>, w: seq<Chunk>, chunks: seq<Chunk>)
    requires RecentWindows(windows, chunks) && RecentWindow(w, chunks, |windows|)
    ensures RecentWindows(windows + [w], chunks)
  {
    var extended := windows + [w];
    forall k | 0 <= k < |extended| ensures RecentWindow(extended[k], chunks, k) {
      if k < |windows| {
        assert extended[k] == windows[k];
      }
    }
  }

  /**
   * The k-th window is `frames[-WINDOW:]` taken right after the k-th read:
   * the most recent WINDOW of the chunks gathered since the last queued
   * command, that read included.
   */
  ghost predicate WindowsOverFrames(windows: seq<seq<Chunk>>, chunks: seq<Chunk>, reactions: seq<Reaction>)
    requires |chunks| == |reactions|
  {
    && |windows| <= |chunks|
    && forall k {:trigger windows[k]} :: 0 <= k < |windows| ==> windows[k] == WindowAfter(chunks, reactions, k)
  }

  /** The window handed to the recognizer right after the k-th read: `frames[-WINDOW:]` with that chunk appended. */
  ghost function WindowAfter(chunks: seq<Chunk>, reactions: seq<Reaction>, k: nat): seq<Chunk>
    requires |chunks| == |reactions| && k < |chunks|
  {
    Window(After(chunks, reactions, k).frames + [chunks[k]])
  }

  /** The windows the loop hands to the recognizer during the first n reads, in order. */
  ghost function Handed(chunks: seq<Chunk>, reactions: seq<Reaction>, n: nat): (handed: seq<seq<Chunk>>)
    requires |chunks| == |reactions| && n <= |chunks|
    ensures |handed| == n
  {
    seq(n, k requires 0 <= k < n => WindowAfter(chunks, reactions, k))
  }

  /** Each read hands over one more window, the one over the frames gathered so far and the new chunk. */
  lemma HandedStep(chunks: seq<Chunk>, reactions: seq<Reaction>, i: nat, frames: seq<Chunk>)
    requires |chunks| == |reactions| && i < |chunks|
    requires After(chunks, reactions, i).frames == frames
    ensures Handed(chunks, reactions, i + 1) == Handed(chunks, reactions, i) + [Window(frames + [chunks[i]])]
  {
    var before := Handed(chunks, reactions, i);
    var after := Handed(chunks, reactions, i + 1);
    assert WindowAfter(chunks, reactions, i) == Window(frames + [chunks[i]]);
    forall k | 0 <= k < i ensures after[k] == before[k] {
    }
  }

  /** The windows handed over during the first n reads are those WindowsOverFrames describes. */
  lemma HandedWindows(chunks: seq<Chunk>, reactions: seq<Reaction>, n: nat)
    requires |chunks| == |reactions| && n <= |chunks|
    ensures WindowsOverFrames(Handed(chunks, reactions, n), chunks, reactions)
  {
  }

  /** The window over the frames gathered since `start`, taken after the next read, keeps RecentWindows. */
  lemma NextRecentWindow(windows: seq<seq<Chunk>>, chunks: seq<Chunk>, start: nat, frames: seq<Chunk>)
    requires start <= |windows| < |chunks| && frames == chunks[start..|windows|]
    requires RecentWindows(windows, chunks)
    ensures RecentWindows(windows + [Window(frames + [chunks[|windows|]])], chunks)
  {
    var i := |windows|;
    SliceExtend(chunks, start, i);
    WindowOfFrames(chunks, start, i);
    AppendRecentWindow(windows, Window(frames + [chunks[i]]), chunks);
  }

  /** The frames after the i-th read are the chunks read since `start`, or none once a command was queued. */
  lemma FramesSince(chunks: seq<Chunk>, start: nat, i: nat, queued: bool)
    requires start <= i < |chunks|
    ensures (if queued then [] else chunks[start..i] + [chunks[i]]) == chunks[(if queued then i + 1 else start)..i + 1]
  {
  }

  lemma SliceExtend(chunks: seq<Chunk>, lo: int, i: int)
    requires 0 <= lo <= i < |chunks|
    ensures chunks[lo..i] + [chunks[i]] == chunks[lo..i + 1]
  {
  }

  // ---------------------------------------------------------------------------
  // The listener object

  class VoiceProcessor {
    /** Cleared by `Stop`; the listening loop runs only while it is set. */
    var running: bool
    /** `command_queue`, oldest command first. */
    var queue: seq<string>
    const continuousListening: bool

    constructor(enableContinuousListening: bool)
      ensures running && queue == [] && continuousListening == enableContinuousListening
    {
      running := true;
      queue := [];
      continuousListening := enableContinuousListening;
    }

    /**
     * Acting on one answer of the recognizer: a command goes on the queue and
     * empties the frames, any transcript resets the silence counter, and a
     * failure adds one chunk of silence, closing the session once the limit
     * is exceeded. It is the session step `Step` on the loop's locals.
     */
    static method ActOn(frames: seq<Chunk>, silence: nat, chunk: Chunk, reaction: Reaction,
                         ghost chunks: seq<Chunk>, ghost reactions: seq<Reaction>,
                         ghost i: nat, ghost commands: seq<string>)
      returns (frames': seq<Chunk>, silence': nat, queued: seq<string>, closed: bool)
      requires |chunks| == |reactions| && i < |chunks|
      requires chunks[i] == chunk && reactions[i] == reaction
      requires After(chunks, reactions, i) == Session(frames, silence, i, commands, false)
      ensures frames' == if reaction.Enqueue? then [] else frames + [chunk]
      ensures queued == Queued(reaction)
      ensures After(chunks, reactions, i + 1) == Session(frames', silence', i + 1, commands + queued, closed)
    {
      frames', queued, closed := frames + [chunk], [], false;
      match reaction {
        case Enqueue(command) =>
          queued := [command];
          frames' := [];
          silence' := 0;
        case Continue =>
          silence' := 0;
        case Silence =>
          silence' := silence + 1;
          closed := SilenceExceeded(silence');
      }
    }

    /**
     * The body of the inner loop for one chunk: append it to the frames, hand
     * the most recent WINDOW of them to the recognizer and act on what the
     * wake rule made of its answer.
     */
    static method ListenStep(frames: seq<Chunk>, silence: nat, commands: seq<string>,
                             windows: seq<seq<Chunk>>, chunk: Chunk, reaction: Reaction,
                             ghost chunks: seq<Chunk>, ghost reactions: seq<Reaction>, ghost start: nat)
      returns (frames': seq<Chunk>, silence': nat, commands': seq<string>,
               windows': seq<seq<Chunk>>, closed: bool, ghost start': nat)
      requires |chunks| == |reactions| && |windows| < |chunks|
      requires chunks[|windows|] == chunk && reactions[|windows|] == reaction
      requires start <= |windows| && frames == chunks[start..|windows|]
      requires After(chunks, reactions, |windows|) == Session(frames, silence, |windows|, commands, false)
      requires RecentWindows(windows, chunks) && windows == Handed(chunks, reactions, |windows|)
      ensures windows' == windows + [Window(frames + [chunk])]
      ensures RecentWindows(windows', chunks) && windows' == Handed(chunks, reactions, |windows'|)
      ensures commands' == commands + Queued(reaction)
      ensures start' <= |windows'| && frames' == chunks[start'..|windows'|]
      ensures After(chunks, reactions, |windows'|) == Session(frames', silence', |windows'|, commands', closed)
    {
      ghost var i := |windows|;
      NextRecentWindow(windows, chunks, start, frames);
      HandedStep(chunks, reactions, i, frames);
      windows' := windows + [Window(frames + [chunk])];
      var queued;
      frames', silence', queued, closed := ActOn(frames, silence, chunk, reaction, chunks, reactions, i, commands);
      commands' := commands + queued;
      start' := if reaction.Enqueue? then i + 1 else start;
      FramesSince(chunks, start, i, reaction.Enqueue?);
    }

    /**
     * The inner loop of the continuous listener, from opening the stream until
     * the silence timeout or until the stream has delivered its last chunk:
     * `chunks[i]` is the i-th read and `reactions[i]` what the wake rule made
     * of the recognizer's answer for the window handed to it after that read.
     * It yields the commands for the queue in the order their transcripts
     * arrived and the windows handed to the recognizer, each the most recent
     * run of at most WINDOW chunks.
     */
    static method Listen(chunks: seq<Chunk>, reactions: seq<Reaction>)
      returns (commands: seq<string>, windows: seq<seq<Chunk>>, timedOut: bool)
      requires |chunks| == |reactions|
      ensures var r := After(chunks, reactions, |chunks|);
        commands == r.commands && |windows| == r.read && timedOut == r.closed
      ensures RecentWindows(windows, chunks)
      ensures WindowsOverFrames(windows, chunks, reactions)
    {
      var frames: seq<Chunk> := [];
      var silence: nat := 0;
      ghost var start: nat := 0;
      commands, windows, timedOut := [], [], false;
      while |windows| < |chunks| && !timedOut
        invariant |windows| <= |chunks|
        invariant start <= |windows| && frames == chunks[start..|windows|]
        invariant RecentWindows(windows, chunks)
        invariant windows == Handed(chunks, reactions, |windows|)
        invariant After(chunks, reactions, |windows|) == Session(frames, silence, |windows|, commands, timedOut)
        decreases |chunks| - |windows|
      {
        var i := |windows|;
        frames, silence, commands, windows, timedOut, start :=
          ListenStep(frames, silence, commands, windows, chunks[i], reactions[i], chunks, reactions, start);
      }
      if timedOut {
        AfterClosed(chunks, reactions, |windows|, |chunks|);
      }
      HandedWindows(chunks, reactions, |windows|);
    }

    /**
     * One listening session of the running listener: the wake rule is applied
     * to each recognizer answer and the commands the inner loop yields go on
     * the queue behind those already there. Nothing happens unless continuous
     * listening is enabled and the listener is running.
     */
    method ListenSession(chunks: seq<Chunk>, heard: seq<Recognition>)
      returns (windows: seq<seq<Chunk>>, timedOut: bool)
      requires |chunks| == |heard|
      modifies this`queue
      ensures var r := After(chunks, Reactions(heard), |chunks|);
        if running && continuousListening then
          && queue == old(queue) + r.commands
          && |windows| == r.read
          && timedOut == r.closed
        else
          queue == old(queue) && windows == [] && !timedOut
      ensures RecentWindows(windows, chunks)
      ensures WindowsOverFrames(windows, chunks, Reactions(heard))
    {
      windows, timedOut := [], false;
      if running && continuousListening {
        var commands;
        commands, windows, timedOut := Listen(chunks, Reactions(heard));
        queue := queue + commands;
      }
    }

    /** `get_command`: the oldest queued command, removed from the queue, or None when the queue is empty. */
    method GetCommand() returns (command: Option<string>)
      modifies this`queue
      ensures old(queue) == [] ==> command == None && queue == []
      ensures old(queue) != [] ==> command == Some(old(queue)[0]) && queue == old(queue)[1..]
    {
      if queue == [] {
        command := None;
      } else {
        command := Some(queue[0]);
        queue := queue[1..];
      }
    }

    /** `stop`: clears the running flag; the queue is untouched, and stopping twice is the same as once. */
    method Stop()
      modifies this`running
      ensures !running && queue == old(queue)
    {
      running := false;
    }
  }
}
