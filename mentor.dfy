/**
 * The voice mentor's live-audio session: the playback cursor (`nextStartTimeRef`),
 * the set of scheduled source nodes (`sourcesRef`), the interrupt flush, and the
 * session start/stop steps that set `active`, `status` and the two audio contexts.
 */
module MentorVoice {
  import opened Wrappers
  import opened Pcm

  // ---------------------------------------------------------------------------
  // The scheduling rule, over a sequence of arrivals
  // ---------------------------------------------------------------------------

  /** `Math.max`. */
  function Max(a: real, b: real): (r: real)
    ensures r >= a && r >= b && (r == a || r == b)
  {
    if a >= b then a else b
  }

  /** A response chunk as the scheduler sees it: the output clock when it arrived, and its length. */
  datatype Arrival = Arrival(now: real, duration: real)

  predicate NonNegativeDurations(arrivals: seq<Arrival>) {
    forall k :: 0 <= k < |arrivals| ==> arrivals[k].duration >= 0.0
  }

  /** The start time of each chunk: `max(cursor, now)`, after which the cursor moves past the chunk. */
  function Starts(cursor: real, arrivals: seq<Arrival>): (r: seq<real>)
    ensures |r| == |arrivals|
    decreases |arrivals|
  {
    if arrivals == [] then []
    else
      var start := Max(cursor, arrivals[0].now);
      [start] + Starts(start + arrivals[0].duration, arrivals[1..])
  }

  /** The cursor once every chunk of `arrivals` has been scheduled. */
  function CursorAfter(cursor: real, arrivals: seq<Arrival>): real
    decreases |arrivals|
  {
    if arrivals == [] then cursor
    else CursorAfter(Max(cursor, arrivals[0].now) + arrivals[0].duration, arrivals[1..])
  }

  /** Chunk `k` starts at `max` of the cursor left by the chunks before it and its own arrival time. */
  lemma {:induction false} StartAt(cursor: real, arrivals: seq<Arrival>, k: nat)
    requires k < |arrivals|
    ensures Starts(cursor, arrivals)[k] == Max(CursorAfter(cursor, arrivals[..k]), arrivals[k].now)
    ensures CursorAfter(cursor, arrivals[..k + 1]) == Starts(cursor, arrivals)[k] + arrivals[k].duration
    decreases k
  {
    var next := Max(cursor, arrivals[0].now) + arrivals[0].duration;
    if k == 0 {
      assert arrivals[..1][1..] == [];
    } else {
      StartAt(next, arrivals[1..], k - 1);
      assert arrivals[1..][..k - 1] == arrivals[..k][1..];
      assert arrivals[1..][..k] == arrivals[..k + 1][1..];
    }
  }

  /** Scheduling one more chunk appends its start and moves the cursor past it. */
  lemma {:induction false} StartsSnoc(cursor: real, arrivals: seq<Arrival>, x: Arrival)
    ensures Starts(cursor, arrivals + [x]) == Starts(cursor, arrivals) + [Max(CursorAfter(cursor, arrivals), x.now)]
    ensures CursorAfter(cursor, arrivals + [x]) == Max(CursorAfter(cursor, arrivals), x.now) + x.duration
    decreases |arrivals|
  {
    if arrivals != [] {
      var next := Max(cursor, arrivals[0].now) + arrivals[0].duration;
      assert (arrivals + [x])[1..] == arrivals[1..] + [x];
      StartsSnoc(next, arrivals[1..], x);
    }
  }

  /** With non-negative durations the cursor only moves forward. */
  lemma {:induction false} CursorAdvances(cursor: real, arrivals: seq<Arrival>)
    requires NonNegativeDurations(arrivals)
    ensures CursorAfter(cursor, arrivals) >= cursor
    decreases |arrivals|
  {
    if arrivals != [] {
      var next := Max(cursor, arrivals[0].now) + arrivals[0].duration;
      CursorAdvances(next, arrivals[1..]);
    }
  }

  /** No chunk is scheduled before the output clock's time at its arrival. */
  lemma StartNotBeforeClock(cursor: real, arrivals: seq<Arrival>, k: nat)
    requires k < |arrivals|
    ensures Starts(cursor, arrivals)[k] >= arrivals[k].now
  {
    StartAt(cursor, arrivals, k);
  }

  /**
   * No chunk starts before the previous one ends; when a chunk arrives before the
   * previous one has finished it starts exactly at that end (back to back), and
   * otherwise it starts at its arrival time.
   */
  lemma BackToBack(cursor: real, arrivals: seq<Arrival>, k: nat)
    requires k + 1 < |arrivals|
    ensures var s := Starts(cursor, arrivals); var end := s[k] + arrivals[k].duration;
      && s[k + 1] >= end
      && (arrivals[k + 1].now <= end ==> s[k + 1] == end)
      && (arrivals[k + 1].now > end ==> s[k + 1] == arrivals[k + 1].now)
  {
    StartAt(cursor, arrivals, k);
    StartAt(cursor, arrivals, k + 1);
  }

  /** Every chunk has ended by the time the cursor points at. */
  lemma EndsByCursor(cursor: real, arrivals: seq<Arrival>, k: nat)
    requires k < |arrivals| && NonNegativeDurations(arrivals)
    ensures Starts(cursor, arrivals)[k] + arrivals[k].duration <= CursorAfter(cursor, arrivals)
  {
    StartAt(cursor, arrivals, k);
    var prefix := arrivals[..k + 1];
    var rest := arrivals[k + 1..];
    assert arrivals == prefix + rest;
    CursorSplit(cursor, prefix, rest);
    CursorAdvances(CursorAfter(cursor, prefix), rest);
  }

  lemma {:induction false} CursorSplit(cursor: real, a: seq<Arrival>, b: seq<Arrival>)
    ensures CursorAfter(cursor, a + b) == CursorAfter(CursorAfter(cursor, a), b)
    decreases |a|
  {
    if a != [] {
      var next := Max(cursor, a[0].now) + a[0].duration;
      assert (a + b)[1..] == a[1..] + b;
      CursorSplit(next, a[1..], b);
    } else {
      assert a + b == b;
    }
  }

  /** With non-negative durations, scheduled chunks never overlap: an earlier one ends before a later one starts. */
  lemma {:induction false} NoOverlap(cursor: real, arrivals: seq<Arrival>, j: nat, k: nat)
    requires j < k < |arrivals| && NonNegativeDurations(arrivals)
    ensures Starts(cursor, arrivals)[j] + arrivals[j].duration <= Starts(cursor, arrivals)[k]
    decreases k - j
  {
    BackToBack(cursor, arrivals, k - 1);
    if j < k - 1 {
      NoOverlap(cursor, arrivals, j, k - 1);
    }
  }

  // ---------------------------------------------------------------------------
  // The session
  // ---------------------------------------------------------------------------

  /** An AudioBufferSourceNode holding one decoded chunk, started at `when`. */
  class SourceNode {
    const samples: seq<real>
    const when: real
    var stopped: bool

    constructor (samples: seq<real>, when: real)
      ensures this.samples == samples && this.when == when && !stopped
    {
      this.samples := samples;
      this.when := when;
      stopped := false;
    }

    /** `buffer.duration`: frames over the 24000 Hz sample rate. */
    function Duration(): (d: real)
      ensures d >= 0.0
    {
      |samples| as real / OutputSampleRate as real
    }

    method Stop()
      modifies this
      ensures stopped
    {
      stopped := true;
    }
  }

  /** The state of an AudioContext ref. */
  datatype AudioCtx = NoContext | Running | Closed

  /** `if (ref.current) ref.current.close()`: closing an already closed context changes nothing. */
  function Close(c: AudioCtx): (r: AudioCtx)
    ensures r != Running
    ensures r == NoContext <==> c == NoContext
    ensures c != Running ==> r == c
  {
    match c
    case NoContext => NoContext
    case Running => Closed
    case Closed => Closed
  }

  /** One live server message: the inline audio of its first part, and the interrupted flag. */
  datatype ServerMessage = ServerMessage(audio: Option<string>, interrupted: bool)

  /**
   * `if (base64Audio)`: an absent or empty string is falsy, so no audio is
   * handled. The empty string it skips is exactly the present chunk that would
   * have thrown at `createBuffer` for having no frames.
   */
  predicate HasAudio(msg: ServerMessage): (b: bool)
    ensures b <==> msg.audio.Some? && |msg.audio.value| > 0
    ensures msg.audio.Some? && !b ==> ChunkSamples(msg.audio.value) == Failure(NotSupportedError)
  {
    msg.audio.Some? && msg.audio.value != ""
  }

  datatype ConnectionEvent = Opened | ConnectionClosed | ConnectionError

  /** The status line each connection callback sets. */
  function EventStatus(e: ConnectionEvent): string {
    match e
    case Opened => "Connected! Say 'Hello Mentor'."
    case ConnectionClosed => "Connection Closed"
    case ConnectionError => "Error occurred"
  }

  /**
   * The nodes scheduled since the last flush sit where the scheduling rule put the
   * chunks of `log`, starting from a cursor of 0, and `cursor` is where it left off.
   */
  ghost predicate ScheduledFrom(log: seq<Arrival>, scheduled: seq<SourceNode>, cursor: real) {
    && |scheduled| == |log|
    && NonNegativeDurations(log)
    && cursor == CursorAfter(0.0, log)
    && (forall k :: 0 <= k < |log| ==>
          scheduled[k].when == Starts(0.0, log)[k] && scheduled[k].Duration() == log[k].duration)
    && (forall j, k :: 0 <= j < k < |scheduled| ==> scheduled[j] != scheduled[k])
  }

  /** Scheduling one more node by the rule keeps the queue consistent. */
  lemma ScheduleOne(log: seq<Arrival>, scheduled: seq<SourceNode>, cursor: real, arrival: Arrival, node: SourceNode)
    requires ScheduledFrom(log, scheduled, cursor) && node !in scheduled
    requires node.when == Max(cursor, arrival.now) && node.Duration() == arrival.duration
    ensures ScheduledFrom(log + [arrival], scheduled + [node], node.when + arrival.duration)
  {
    StartsSnoc(0.0, log, arrival);
    var starts := Starts(0.0, log + [arrival]);
    assert starts == Starts(0.0, log) + [node.when];
    var log', scheduled' := log + [arrival], scheduled + [node];
    forall k | 0 <= k < |log'|
      ensures scheduled'[k].when == starts[k] && scheduled'[k].Duration() == log'[k].duration
    {
      if k < |log| {
        assert starts[k] == Starts(0.0, log)[k];
      }
    }
  }

  /** The source set holds scheduled nodes that have not been stopped. */
  ghost predicate Pending(sources: set<SourceNode>, scheduled: seq<SourceNode>)
    reads sources
  {
    forall s :: s in sources ==> s in scheduled && !s.stopped
  }

  class VoiceSession {
    var active: bool
    var status: string
    /**
     * Whether `sessionRef` holds the session promise. Clearing it does not close
     * the live connection, so messages can still arrive after `stopSession`.
     */
    var sessionRef: bool
    var inputCtx: AudioCtx
    var outputCtx: AudioCtx
    var nextStartTime: real
    var sources: set<SourceNode>
    /** The chunks scheduled since the last flush, and their nodes, in arrival order. */
    ghost var log: seq<Arrival>
    ghost var scheduled: seq<SourceNode>

    ghost predicate Valid()
      reads this, sources
    {
      ScheduledFrom(log, scheduled, nextStartTime) && Pending(sources, scheduled)
    }

    /** The React state and refs outside the playback queue. */
    ghost function Lifecycle(): (bool, string, bool, AudioCtx, AudioCtx)
      reads this
    {
      (active, status, sessionRef, inputCtx, outputCtx)
    }

    /** The component as first rendered. */
    constructor ()
      ensures Valid()
      ensures !active && status == "Ready to connect" && !sessionRef
      ensures inputCtx == NoContext && outputCtx == NoContext
      ensures nextStartTime == 0.0 && sources == {}
    {
      active := false;
      status := "Ready to connect";
      sessionRef := false;
      inputCtx := NoContext;
      outputCtx := NoContext;
      nextStartTime := 0.0;
      sources := {};
      log := [];
      scheduled := [];
    }

    /**
     * The synchronous steps of `startSession`: both contexts are created, and the
     * session ref is set only once the microphone has been granted. The playback
     * cursor and the source set are left as they were.
     */
    method StartSession(micGranted: bool)
      requires Valid()
      modifies this
      ensures Valid()
      ensures active && status == "Connecting to Mentor..."
      ensures inputCtx == Running && outputCtx == Running
      ensures sessionRef == (old(sessionRef) || micGranted)
      ensures nextStartTime == old(nextStartTime) && sources == old(sources)
      ensures log == old(log) && scheduled == old(scheduled)
    {
      active := true;
      status := "Connecting to Mentor...";
      inputCtx := Running;
      outputCtx := Running;
      if micGranted {
        sessionRef := true;
      }
    }

    /** The `onopen`, `onclose` and `onerror` callbacks: each only sets the status line. */
    method OnConnectionEvent(e: ConnectionEvent)
      requires Valid()
      modifies this
      ensures Valid()
      ensures status == EventStatus(e)
      ensures active == old(active) && sessionRef == old(sessionRef)
      ensures inputCtx == old(inputCtx) && outputCtx == old(outputCtx)
      ensures nextStartTime == old(nextStartTime) && sources == old(sources)
      ensures log == old(log) && scheduled == old(scheduled)
    {
      status := EventStatus(e);
    }

    /**
     * `stopSession`: drops the session ref, closes whichever contexts exist and
     * marks the component inactive. The context refs, the cursor and the source
     * set are not touched. Calling it again changes nothing.
     */
    method StopSession()
      requires Valid()
      modifies this
      ensures Valid()
      ensures !sessionRef && !active && status == "Disconnected"
      ensures inputCtx == Close(old(inputCtx)) && outputCtx == Close(old(outputCtx))
      ensures inputCtx != Running && outputCtx != Running
      ensures nextStartTime == old(nextStartTime) && sources == old(sources)
      ensures log == old(log) && scheduled == old(scheduled)
      ensures old(!sessionRef && !active && status == "Disconnected" && inputCtx != Running && outputCtx != Running)
        ==> unchanged(this)
    {
      if sessionRef {
        sessionRef := false;
      }
      if inputCtx != NoContext {
        inputCtx := Close(inputCtx);
      }
      if outputCtx != NoContext {
        outputCtx := Close(outputCtx);
      }
      active := false;
      status := "Disconnected";
    }

    /** Schedule one decoded chunk at `max(cursor, now)` and advance the cursor by its duration. */
    method ScheduleChunk(samples: seq<real>, now: real) returns (node: SourceNode)
      requires Valid()
      modifies this
      ensures Valid() && fresh(node)
      ensures node.samples == samples && !node.stopped
      ensures node.when == Max(old(nextStartTime), now)
      ensures nextStartTime == node.when + node.Duration()
      ensures sources == old(sources) + {node}
      ensures log == old(log) + [Arrival(now, node.Duration())] && scheduled == old(scheduled) + [node]
      ensures Lifecycle() == old(Lifecycle())
    {
      nextStartTime := Max(nextStartTime, now);
      node := new SourceNode(samples, nextStartTime);
      var arrival := Arrival(now, node.Duration());
      ScheduleOne(log, scheduled, old(nextStartTime), arrival, node);
      nextStartTime := nextStartTime + node.Duration();
      sources := sources + {node};
      log := log + [arrival];
      scheduled := scheduled + [node];
    }

    /** `onended`: a node that finished playing leaves the set. */
    method OnEnded(node: SourceNode)
      requires Valid()
      modifies this
      ensures Valid()
      ensures sources == old(sources) - {node}
      ensures nextStartTime == old(nextStartTime) && log == old(log) && scheduled == old(scheduled)
      ensures Lifecycle() == old(Lifecycle())
    {
      sources := sources - {node};
    }

    /** The interrupt flush: stop every pending node, empty the set, reset the cursor to 0. */
    method Interrupt()
      requires Valid()
      modifies this, sources
      ensures Valid()
      ensures sources == {} && nextStartTime == 0.0
      ensures log == [] && scheduled == []
      ensures forall s :: s in old(sources) ==> s.stopped
      ensures Lifecycle() == old(Lifecycle())
    {
      var pending := sources;
      while pending != {}
        invariant pending <= sources
        invariant forall s :: s in sources && s !in pending ==> s.stopped
        modifies sources
        decreases pending
      {
        var s :| s in pending;
        s.Stop();
        pending := pending - {s};
      }
      sources := {};
      nextStartTime := 0.0;
      log := [];
      scheduled := [];
    }

    /**
     * `onmessage`: audio is decoded and scheduled first, the interrupted flag is
     * handled after. A chunk that fails to decode throws out of the handler before
     * anything changes, so its interrupted flag is not acted on either.
     */
    method OnMessage(msg: ServerMessage, now: real) returns (error: Option<AudioError>, node: SourceNode?)
      requires Valid()
      modifies this, sources
      ensures Valid()
      ensures Lifecycle() == old(Lifecycle())
      ensures error.Some? <==> HasAudio(msg) && ChunkSamples(msg.audio.value).Failure?
      ensures error.Some? ==> error.value == ChunkSamples(msg.audio.value).error
      ensures error.Some? ==> unchanged(this) && unchanged(old(sources))
      ensures node != null <==> HasAudio(msg) && error.None?
      ensures node != null ==> fresh(node) && node.samples == ChunkSamples(msg.audio.value).value
      ensures node != null ==> node.when == Max(old(nextStartTime), now) && node.when >= now
      ensures error.None? && msg.interrupted ==> sources == {} && nextStartTime == 0.0
      ensures error.None? && msg.interrupted ==> (forall s :: s in old(sources) ==> s.stopped) && (node != null ==> node.stopped)
      ensures error.None? && !msg.interrupted && node != null ==>
        sources == old(sources) + {node} && nextStartTime == node.when + node.Duration()
      ensures error.None? && !msg.interrupted && node == null ==> unchanged(this) && unchanged(old(sources))
    {
      error, node := None, null;
      if HasAudio(msg) {
        var decoded := DecodeOutputChunk(msg.audio.value);
        if decoded.Failure? {
          return Some(decoded.error), null;
        }
        node := ScheduleChunk(decoded.value, now);
      }
      if msg.interrupted {
        Interrupt();
      }
    }

    /** Every pending node ends by the cursor. */
    lemma PendingEndByCursor(s: SourceNode)
      requires Valid() && s in sources
      ensures s.when + s.Duration() <= nextStartTime
    {
      var k :| 0 <= k < |scheduled| && scheduled[k] == s;
      EndsByCursor(0.0, log, k);
    }

    /** Two pending nodes never play at the same time. */
    lemma PendingDoNotOverlap(a: SourceNode, b: SourceNode)
      requires Valid() && a in sources && b in sources && a != b
      ensures a.when + a.Duration() <= b.when || b.when + b.Duration() <= a.when
    {
      var j :| 0 <= j < |scheduled| && scheduled[j] == a;
      var k :| 0 <= k < |scheduled| && scheduled[k] == b;
      if j < k {
        NoOverlap(0.0, log, j, k);
      } else {
        NoOverlap(0.0, log, k, j);
      }
    }
  }

  /**
   * A stop followed by a new start keeps the cursor, which was measured on the
   * old output context's clock. The new context's clock starts again near 0, so
   * the first chunk of the new session waits until the old cursor: it starts
   * `cursor - now` late.
   */
  method RestartKeepsOldCursor(session: VoiceSession, samples: seq<real>, now: real) returns (node: SourceNode)
    requires session.Valid()
    modifies session, session.sources
    ensures session.Valid() && session.active && session.sessionRef
    ensures node.when == Max(old(session.nextStartTime), now)
    ensures now < old(session.nextStartTime) ==> node.when - now == old(session.nextStartTime) - now
  {
    session.StopSession();
    session.StartSession(true);
    node := session.ScheduleChunk(samples, now);
  }
}
