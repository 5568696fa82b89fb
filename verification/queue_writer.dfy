/**
 * QueueBase64HttpRequestRecordWriter as a sequential state machine: callers
 * format lines and offer them to a bounded FIFO; one worker removes lines,
 * hands them to the target of the most recently constructed writer and
 * decides after each line whether to flush.
 */
module QueueRecordWriter {
  import opened Wrappers
  import opened Jvm
  import opened Api
  import RecordLine
  import opened WriterTarget

  /** The capacity of the `ArrayBlockingQueue`. */
  const CAPACITY: nat := 1000
  /** A target is flushed after every line once this many milliseconds have passed since `lastFlush`. */
  const FLUSH_INTERVAL_MS: int := 10000
  /** The stop signal `close` puts on the queue. */
  const SENTINEL: JString := []

  /** The lines in front of the first stop signal: what the worker still writes. */
  function BeforeSentinel(q: seq<JString>): (r: seq<JString>)
    ensures |r| <= |q| && r == q[..|r|]
    ensures SENTINEL !in r
    ensures |r| < |q| ==> q[|r|] == SENTINEL
  {
    if q == [] || q[0] == SENTINEL then []
    else [q[0]] + BeforeSentinel(q[1..])
  }

  /** What is left on the queue once the worker has taken the first stop signal. */
  function AfterSentinel(q: seq<JString>): seq<JString>
  {
    var b := BeforeSentinel(q);
    if |b| < |q| then q[|b| + 1..] else []
  }

  /** A queue with a stop signal is the lines before the first one, the signal, and the rest. */
  lemma SentinelSplit(q: seq<JString>)
    requires SENTINEL in q
    ensures q == BeforeSentinel(q) + [SENTINEL] + AfterSentinel(q)
  {
    var b := BeforeSentinel(q);
    if |b| < |q| {
      assert q == b + [SENTINEL] + q[|b| + 1..] by {
        assert q == q[..|b|] + [q[|b|]] + q[|b| + 1..];
      }
    }
  }

  /** A queue without a stop signal is written whole and leaves nothing behind. */
  lemma NoSentinel(q: seq<JString>)
    requires SENTINEL !in q
    ensures q == BeforeSentinel(q) && AfterSentinel(q) == []
  {
    var b := BeforeSentinel(q);
    if |b| == |q| {
      assert q == b by { assert q == q[..|q|]; }
    }
  }

  /** `System.currentTimeMillis() - lastFlush > 10000`, in wrapping long arithmetic. */
  predicate Late(now: Int64, lastFlush: Int64)
  {
    Sub64(now, lastFlush) > FLUSH_INTERVAL_MS
  }

  /**
   * The flush log entries after the worker wrote `i` of the `k` lines in
   * front of the stop signal, the target holding `n0` lines before: when late
   * every line is followed by a flush; otherwise only the line that leaves
   * the queue empty is, and no line does when a stop signal is behind them.
   */
  function FlushMarks(n0: nat, i: nat, k: nat, late: bool, signalled: bool): seq<nat>
  {
    if late then seq(i, j => n0 + j + 1)
    else if i == k && k > 0 && !signalled then [n0 + k]
    else []
  }

  /** A line a writer put on the queue: never the stop signal, and it ends in the record separator. */
  predicate IsQueuedLine(line: JString)
  {
    line == SENTINEL || line[|line| - 1] == RecordLine.RECORD_SEPARATOR
  }

  /** Whether the worker flushes after writing line `i` of the `k` lines in front of the stop signal. */
  predicate FlushDue(i: nat, k: nat, late: bool, signalled: bool)
  {
    late || (i + 1 == k && !signalled)
  }

  /**
   * Whether target `t`, holding `lines0` when the drain began, throws while
   * the worker handles line `i` of the lines `b` in front of the stop signal:
   * on writing it, or on the flush due after it.
   */
  predicate LineFails(t: Target, lines0: seq<JString>, b: seq<JString>, i: nat, late: bool, signalled: bool)
    requires i < |b|
  {
    || t.writeFails(lines0 + b[..i])
    || (FlushDue(i, |b|, late, signalled) && t.flushFails(lines0 + b[..i + 1]))
  }

  /** The first line of `b`, from position `i` on, that the target fails on; `|b|` when there is none. */
  function FirstFailure(t: Target, lines0: seq<JString>, b: seq<JString>, late: bool, signalled: bool, i: nat): (k: nat)
    requires i <= |b|
    ensures i <= k <= |b|
    ensures k < |b| ==> LineFails(t, lines0, b, k, late, signalled)
    ensures forall j | i <= j < k :: !LineFails(t, lines0, b, j, late, signalled)
    decreases |b| - i
  {
    if i == |b| then |b|
    else if LineFails(t, lines0, b, i, late, signalled) then i
    else FirstFailure(t, lines0, b, late, signalled, i + 1)
  }

  /** A line no earlier line fails before, and that fails itself or ends `b`, is the first failing one. */
  lemma FirstFailureIs(t: Target, lines0: seq<JString>, b: seq<JString>, late: bool, signalled: bool, i: nat)
    requires i <= |b|
    requires forall j | 0 <= j < i :: !LineFails(t, lines0, b, j, late, signalled)
    requires i < |b| ==> LineFails(t, lines0, b, i, late, signalled)
    ensures FirstFailure(t, lines0, b, late, signalled, 0) == i
  {
  }

  /**
   * A target whose stream breaks once it holds `m` lines, and whose flush
   * never throws, fails on the line that would have been its line `m`: the
   * worker writes the lines before it and dies naming that line.
   */
  lemma BrokenStreamFailsAt(t: Target, lines0: seq<JString>, b: seq<JString>, late: bool, signalled: bool, m: nat)
    requires forall ls :: t.writeFails(ls) <==> |ls| >= m
    requires forall ls :: !t.flushFails(ls)
    requires |lines0| <= m < |lines0| + |b|
    ensures FirstFailure(t, lines0, b, late, signalled, 0) == m - |lines0|
  {
    var i := m - |lines0|;
    forall j | 0 <= j < i ensures !LineFails(t, lines0, b, j, late, signalled) {
      assert |lines0 + b[..j]| == |lines0| + j;
    }
    assert |lines0 + b[..i]| == m;
    FirstFailureIs(t, lines0, b, late, signalled, i);
  }

  /** A target that never throws fails on no line. */
  lemma ReliableNeverFails(t: Target, lines0: seq<JString>, b: seq<JString>, late: bool, signalled: bool)
    requires t.Reliable()
    ensures FirstFailure(t, lines0, b, late, signalled, 0) == |b|
  {
    forall j | 0 <= j < |b| ensures !LineFails(t, lines0, b, j, late, signalled) {
      assert !t.writeFails(lines0 + b[..j]) && !t.flushFails(lines0 + b[..j + 1]);
    }
  }

  /**
   * What a drain of queue `q0` leaves behind, the target having held `lines0`
   * and `flushes0`, with `b` the lines in front of the first stop signal and
   * `k` the first of them the target throws on. With no throw (`k == |b|`)
   * all of `b` is written and the lines behind the signal stay queued.
   * Otherwise `b[..k]` is written, and `b[k]` too when only its flush threw;
   * the worker dies naming `b[k]` and the lines after it stay queued. The
   * flushes are those the flush rule gives for the lines handled before `k`.
   */
  ghost predicate DrainOutcome(q0: seq<JString>, lines0: seq<JString>, flushes0: seq<nat>, k: nat,
                               o: Outcome<JavaException>, queue: seq<JString>, lines: seq<JString>, flushes: seq<nat>,
                               writeFails: seq<JString> -> bool, late: bool)
  {
    var b := BeforeSentinel(q0);
    && k <= |b|
    && (o.Pass? <==> k == |b|)
    && (o.Pass? ==> queue == AfterSentinel(q0) && lines == lines0 + b)
    && (o.Fail? ==>
          && o.error == RuntimeException(RecordLine.FailureMessage(b[k]), IOException)
          && queue == q0[k + 1..]
          && lines == lines0 + b[..k] + (if writeFails(lines0 + b[..k]) then [] else [b[k]]))
    && flushes == flushes0 + FlushMarks(|lines0|, k, |b|, late, SENTINEL in q0)
  }

  /** What one iteration of the worker loop did. */
  datatype Step =
    | Exited                     // `stop` is set and the queue is empty: the loop condition fails
    | Polled                     // the poll timed out on an empty queue
    | StopSignal                 // the empty line was taken: the loop breaks
    | Wrote(flushed: bool)       // a line went to the target, then a flush if one was due
    | Aborted(error: JavaException) // the target threw: the worker thread dies with this exception

  /**
   * The process-wide statics the writer shares: the queue, the `stop` flag,
   * the `doWiRecord` slot and whether the worker thread is still looping.
   */
  class WorkerState {
    var queue: seq<JString>
    var stop: bool
    var running: bool
    /** `doWiRecord`: the per-line action of the most recently constructed writer. */
    var action: QueueWriter?

    predicate Valid()
      reads this
    {
      && |queue| <= CAPACITY
      && (queue != [] ==> action != null)
      && forall i | 0 <= i < |queue| :: IsQueuedLine(queue[i])
    }

    /** The objects the worker changes: the target of the current action. */
    function Sink(): set<object>
      reads this
    {
      if action == null then {} else {action.target}
    }

    /** Class initialisation: an empty queue, `stop` false, the worker started, no action yet. */
    constructor ()
      ensures Valid() && queue == [] && !stop && running && action == null
    {
      queue := [];
      stop := false;
      running := true;
      action := null;
    }

    /** Removing the head keeps the queue well formed. */
    static lemma RestValid(q: seq<JString>)
      requires q != [] && forall i | 0 <= i < |q| :: IsQueuedLine(q[i])
      ensures forall i | 0 <= i < |q[1..]| :: IsQueuedLine(q[1..][i])
    {
      forall i | 0 <= i < |q[1..]| ensures IsQueuedLine(q[1..][i]) {
        assert q[1..][i] == q[i + 1];
      }
    }

    /**
     * One iteration of the worker loop, at time `now`. A line is written
     * unless `write` throws; it is then flushed when the queue is empty or the
     * flush is late; a throw from either ends the worker.
     */
    method Step(now: Int64) returns (s: Step)
      requires Valid() && running
      modifies this, Sink()
      ensures Valid() && stop == old(stop) && action == old(action)
      ensures old(queue) == [] ==> queue == [] && (if stop then s == Exited && !running else s == Polled && running)
      ensures old(queue) != [] ==> queue == old(queue)[1..]
      ensures old(queue) != [] && old(queue)[0] == SENTINEL ==> s == StopSignal && !running
      ensures old(queue) != [] && old(queue)[0] != SENTINEL ==>
        var line := old(queue)[0];
        var due := queue == [] || Late(now, action.lastFlush);
        var wrote := !action.target.writeFails(old(action.target.lines));
        var ok := wrote && (due ==> !action.target.flushFails(old(action.target.lines) + [line]));
        && action.target.lines == old(action.target.lines) + (if wrote then [line] else [])
        && action.target.flushes == old(action.target.flushes) + (if ok && due then [|action.target.lines|] else [])
        && (ok ==> s == Wrote(due) && running)
        && (!ok ==> s == Aborted(RuntimeException(RecordLine.FailureMessage(line), IOException)) && !running)
      ensures old(queue) == [] || old(queue)[0] == SENTINEL ==> unchanged(Sink())
    {
      if queue == [] {
        if stop {
          running := false;
          return Exited;
        }
        return Polled;
      }
      var line := queue[0];
      RestValid(queue);
      queue := queue[1..];
      if line == SENTINEL {
        running := false;
        return StopSignal;
      }
      var o := action.Apply(line, queue == [], now);
      if o.Fail? {
        running := false;
        return Aborted(RuntimeException(RecordLine.FailureMessage(line), o.error));
      }
      s := Wrote(queue == [] || Late(now, action.lastFlush));
    }

    /**
     * The worker loop once `stop` is set, with the clock held at `now`. With
     * `b` the lines in front of the first stop signal and `k` the first of them
     * the target throws on, it writes `b[..k]` in order, once each, with the
     * flushes the flush rule gives. When the target throws, line `k` is also
     * in the target if only its flush threw, and the worker dies naming line
     * `k`; otherwise it stops at the signal and leaves the lines behind it.
     */
    method Drain(now: Int64) returns (o: Outcome<JavaException>)
      requires Valid() && running && stop
      modifies this, Sink()
      ensures Valid() && !running && stop && action == old(action)
      ensures action == null ==> o.Pass? && queue == old(queue) == []
      ensures action != null ==>
        DrainOutcome(old(queue), old(action.target.lines), old(action.target.flushes),
                     FirstFailure(action.target, old(action.target.lines), BeforeSentinel(old(queue)),
                                  Late(now, action.lastFlush), SENTINEL in old(queue), 0),
                     o, queue, action.target.lines, action.target.flushes,
                     action.target.writeFails, Late(now, action.lastFlush))
    {
      if action == null {
        // Nothing can be queued before a writer exists: the loop condition fails at once.
        var s := Step(now);
        return Pass;
      }
      ghost var q0 := queue;
      ghost var lines0 := action.target.lines;
      ghost var flushes0 := action.target.flushes;
      ghost var k := FirstFailure(action.target, lines0, BeforeSentinel(q0), Late(now, action.lastFlush), SENTINEL in q0, 0);
      ghost var i: nat := 0;
      DrainStart(q0, lines0, flushes0, k, action.target.writeFails, Late(now, action.lastFlush));
      o := Pass;
      while running
        invariant DrainedTo(now, q0, lines0, flushes0, k, i, o) && action == old(action)
        decreases |queue| + (if running then 1 else 0)
      {
        o, i := DrainIteration(now, q0, lines0, flushes0, k, i, o);
      }
      DrainFinished(q0, lines0, flushes0, k, i, o, queue, action.target.lines, action.target.flushes,
                    action.target.writeFails, Late(now, action.lastFlush));
    }

    /**
     * The state of a drain that started from queue `q0`, the target holding
     * `lines0` and `flushes0` and first failing on line `k`, after `i` lines
     * were handled without a throw.
     */
    ghost predicate DrainedTo(now: Int64, q0: seq<JString>, lines0: seq<JString>, flushes0: seq<nat>,
                              k: nat, i: nat, o: Outcome<JavaException>)
      reads this, Sink()
    {
      && Valid() && stop && action != null
      && k == FirstFailure(action.target, lines0, BeforeSentinel(q0), Late(now, action.lastFlush), SENTINEL in q0, 0)
      && Drained(q0, lines0, flushes0, k, i, o, queue, running, action.target.lines, action.target.flushes,
                 action.target.writeFails, Late(now, action.lastFlush))
    }

    /** `DrainedTo` over the values it reads, `writeFails` being the target's. */
    static ghost predicate Drained(q0: seq<JString>, lines0: seq<JString>, flushes0: seq<nat>, k: nat, i: nat,
                                   o: Outcome<JavaException>, queue: seq<JString>, running: bool,
                                   lines: seq<JString>, flushes: seq<nat>, writeFails: seq<JString> -> bool, late: bool)
    {
      var b := BeforeSentinel(q0);
      && i <= k <= |b|
      && flushes == flushes0 + FlushMarks(|lines0|, i, |b|, late, SENTINEL in q0)
      && (running ==> o.Pass? && queue == q0[i..] && lines == lines0 + b[..i])
      && (!running && o.Pass? ==> i == k == |b| && queue == AfterSentinel(q0) && lines == lines0 + b)
      && (!running && o.Fail? ==>
            && i == k < |b|
            && o.error == RuntimeException(RecordLine.FailureMessage(b[i]), IOException)
            && queue == q0[i + 1..]
            && lines == lines0 + b[..i] + (if writeFails(lines0 + b[..i]) then [] else [b[i]]))
    }

    /** One pass of the drain loop: a worker step, and the handled count it advances. */
    method DrainIteration(now: Int64, ghost q0: seq<JString>, ghost lines0: seq<JString>, ghost flushes0: seq<nat>,
                          ghost k: nat, ghost i: nat, o0: Outcome<JavaException>) returns (o: Outcome<JavaException>, ghost j: nat)
      requires DrainedTo(now, q0, lines0, flushes0, k, i, o0) && running
      modifies this, Sink()
      ensures DrainedTo(now, q0, lines0, flushes0, k, j, o) && action == old(action)
      ensures |queue| + (if running then 1 else 0) < |old(queue)| + 1
    {
      ghost var q, lines, flushes := queue, action.target.lines, action.target.flushes;
      var s := Step(now);
      o := if s.Aborted? then Fail(s.error) else o0;
      j := if s.Wrote? then i + 1 else i;
      DrainAdvance(q0, lines0, flushes0, k, i, o0, action.target, Late(now, action.lastFlush),
                   q, lines, flushes, s, queue, running, action.target.lines, action.target.flushes);
    }

    /** A worker step, stated over values, advances a drain by the line it wrote, if any. */
    static lemma DrainAdvance(q0: seq<JString>, lines0: seq<JString>, flushes0: seq<nat>, k: nat, i: nat,
                              o0: Outcome<JavaException>, t: Target, late: bool,
                              q: seq<JString>, lines: seq<JString>, flushes: seq<nat>,
                              s: Step, q': seq<JString>, running': bool, lines': seq<JString>, flushes': seq<nat>)
      requires k == FirstFailure(t, lines0, BeforeSentinel(q0), late, SENTINEL in q0, 0)
      requires Drained(q0, lines0, flushes0, k, i, o0, q, true, lines, flushes, t.writeFails, late)
      requires q == [] ==> s == Exited && !running' && q' == [] && lines' == lines && flushes' == flushes
      requires q != [] ==> q' == q[1..]
      requires q != [] && q[0] == SENTINEL ==> s == StopSignal && !running' && lines' == lines && flushes' == flushes
      requires q != [] && q[0] != SENTINEL ==>
        var due := q' == [] || late;
        var wrote := !t.writeFails(lines);
        var ok := wrote && (due ==> !t.flushFails(lines + [q[0]]));
        && lines' == lines + (if wrote then [q[0]] else [])
        && flushes' == flushes + (if ok && due then [|lines'|] else [])
        && (ok ==> s == Wrote(due) && running')
        && (!ok ==> s == Aborted(RuntimeException(RecordLine.FailureMessage(q[0]), IOException)) && !running')
      ensures Drained(q0, lines0, flushes0, k, if s.Wrote? then i + 1 else i, if s.Aborted? then Fail(s.error) else o0,
                      q', running', lines', flushes', t.writeFails, late)
    {
      if q == [] || q[0] == SENTINEL {
        DrainHalt(q0, lines0, flushes0, k, i, o0, t.writeFails, late, q, lines, flushes, q');
      } else {
        DrainLine(q0, lines0, flushes0, k, i, t, late, q, lines, flushes, s, q', running', lines', flushes');
      }
    }

    /** A worker step that took a line, stated over values, advances a running drain past that line. */
    static lemma DrainLine(q0: seq<JString>, lines0: seq<JString>, flushes0: seq<nat>, k: nat, i: nat,
                           t: Target, late: bool, q: seq<JString>, lines: seq<JString>, flushes: seq<nat>,
                           s: Step, q': seq<JString>, running': bool, lines': seq<JString>, flushes': seq<nat>)
      requires k == FirstFailure(t, lines0, BeforeSentinel(q0), late, SENTINEL in q0, 0)
      requires i <= k && q == q0[i..] && lines == lines0 + BeforeSentinel(q0)[..i]
      requires flushes == flushes0 + FlushMarks(|lines0|, i, |BeforeSentinel(q0)|, late, SENTINEL in q0)
      requires q != [] && q[0] != SENTINEL && q' == q[1..]
      requires
        var due := q' == [] || late;
        var wrote := !t.writeFails(lines);
        var ok := wrote && (due ==> !t.flushFails(lines + [q[0]]));
        && lines' == lines + (if wrote then [q[0]] else [])
        && flushes' == flushes + (if ok && due then [|lines'|] else [])
        && (ok ==> s == Wrote(due) && running')
        && (!ok ==> s == Aborted(RuntimeException(RecordLine.FailureMessage(q[0]), IOException)) && !running')
      ensures Drained(q0, lines0, flushes0, k, if s.Wrote? then i + 1 else i, if s.Aborted? then Fail(s.error) else Pass,
                      q', running', lines', flushes', t.writeFails, late)
    {
      var b, signalled := BeforeSentinel(q0), SENTINEL in q0;
      DrainHead(q0, lines0, i, q, lines, q', late);
      LineOkIff(t, lines0, b, i, late, signalled, lines, q[0], q' == [] || late);
      if !LineFails(t, lines0, b, i, late, signalled) {
        HandledBeforeFailure(t, lines0, b, late, signalled, i);
        DrainWrote(q0, lines0, flushes0, k, i, late, lines, flushes, q', lines', flushes', s.flushed, t.writeFails);
      } else {
        FailedAtFirstFailure(t, lines0, b, late, signalled, i);
        DrainAbort(q0, lines0, flushes0, k, i, late, lines, flushes, q', lines', flushes', t.writeFails, s, q[0]);
      }
    }

    /** Whether the worker's write and due flush of line `i` go through, in terms of the drain's start. */
    static lemma LineOkIff(t: Target, lines0: seq<JString>, b: seq<JString>, i: nat, late: bool, signalled: bool,
                           lines: seq<JString>, head: JString, due: bool)
      requires i < |b| && lines == lines0 + b[..i] && head == b[i] && due == FlushDue(i, |b|, late, signalled)
      ensures (!t.writeFails(lines) && (due ==> !t.flushFails(lines + [head]))) <==> !LineFails(t, lines0, b, i, late, signalled)
    {
      PrefixStep(lines0, b, i);
    }

    /** A throw on the head line ends the drain, naming that line. */
    static lemma DrainAbort(q0: seq<JString>, lines0: seq<JString>, flushes0: seq<nat>, k: nat, i: nat, late: bool,
                            lines: seq<JString>, flushes: seq<nat>,
                            q': seq<JString>, lines': seq<JString>, flushes': seq<nat>,
                            writeFails: seq<JString> -> bool, s: Step, head: JString)
      requires i == k < |BeforeSentinel(q0)| && q' == q0[i + 1..] && head == BeforeSentinel(q0)[i]
      requires flushes == flushes0 + FlushMarks(|lines0|, i, |BeforeSentinel(q0)|, late, SENTINEL in q0)
      requires lines == lines0 + BeforeSentinel(q0)[..i]
      requires lines' == lines + (if !writeFails(lines) then [head] else [])
      requires flushes' == flushes
      requires s == Aborted(RuntimeException(RecordLine.FailureMessage(head), IOException))
      ensures Drained(q0, lines0, flushes0, k, i, Fail(s.error), q', false, lines', flushes', writeFails, late)
    {
    }

    /** A line handled without a throw lies before the first failing one. */
    static lemma HandledBeforeFailure(t: Target, lines0: seq<JString>, b: seq<JString>, late: bool, signalled: bool, i: nat)
      requires i < |b| && i <= FirstFailure(t, lines0, b, late, signalled, 0)
      requires !LineFails(t, lines0, b, i, late, signalled)
      ensures i < FirstFailure(t, lines0, b, late, signalled, 0)
    {
    }

    /** A throw on a line no later than the first failing one is at that line. */
    static lemma FailedAtFirstFailure(t: Target, lines0: seq<JString>, b: seq<JString>, late: bool, signalled: bool, i: nat)
      requires i < |b| && i <= FirstFailure(t, lines0, b, late, signalled, 0)
      requires LineFails(t, lines0, b, i, late, signalled)
      ensures i == FirstFailure(t, lines0, b, late, signalled, 0)
    {
    }

    /** The head line a running drain takes is line `i` in front of the stop signal. */
    static lemma DrainHead(q0: seq<JString>, lines0: seq<JString>, i: nat, q: seq<JString>, lines: seq<JString>,
                           q': seq<JString>, late: bool)
      requires i <= |BeforeSentinel(q0)| && q == q0[i..] && lines == lines0 + BeforeSentinel(q0)[..i]
      requires q != [] && q[0] != SENTINEL && q' == q[1..]
      ensures i < |BeforeSentinel(q0)| && q[0] == BeforeSentinel(q0)[i] && q' == q0[i + 1..]
      ensures (q' == [] || late) == FlushDue(i, |BeforeSentinel(q0)|, late, SENTINEL in q0)
      ensures lines + [q[0]] == lines0 + BeforeSentinel(q0)[..i + 1]
    {
      var b := BeforeSentinel(q0);
      DrainStepFacts(q0, i);
      assert q[0] == q0[i];
      PrefixStep(lines0, b, i);
    }

    /** Handling the head line without a throw advances the drain by one line and the flush it made. */
    static lemma DrainWrote(q0: seq<JString>, lines0: seq<JString>, flushes0: seq<nat>, k: nat, i: nat, late: bool,
                            lines: seq<JString>, flushes: seq<nat>,
                            q': seq<JString>, lines': seq<JString>, flushes': seq<nat>, flushed: bool,
                            writeFails: seq<JString> -> bool)
      requires i < k <= |BeforeSentinel(q0)| && q' == q0[i + 1..]
      requires flushes == flushes0 + FlushMarks(|lines0|, i, |BeforeSentinel(q0)|, late, SENTINEL in q0)
      requires flushed == FlushDue(i, |BeforeSentinel(q0)|, late, SENTINEL in q0)
      requires lines' == lines0 + BeforeSentinel(q0)[..i + 1]
      requires flushes' == flushes + (if flushed then [|lines'|] else [])
      ensures Drained(q0, lines0, flushes0, k, i + 1, Pass, q', true, lines', flushes', writeFails, late)
    {
      FlushLogStep(flushes0, flushes, flushes', |lines0|, i, |BeforeSentinel(q0)|, late, SENTINEL in q0, flushed, |lines'|);
    }

    /** The empty queue or the stop signal end the drain, writing nothing. */
    static lemma DrainHalt(q0: seq<JString>, lines0: seq<JString>, flushes0: seq<nat>, k: nat, i: nat,
                           o0: Outcome<JavaException>, writeFails: seq<JString> -> bool, late: bool,
                           q: seq<JString>, lines: seq<JString>, flushes: seq<nat>, q': seq<JString>)
      requires Drained(q0, lines0, flushes0, k, i, o0, q, true, lines, flushes, writeFails, late)
      requires q == [] ==> q' == []
      requires q != [] ==> q' == q[1..] && q[0] == SENTINEL
      ensures Drained(q0, lines0, flushes0, k, i, o0, q', false, lines, flushes, writeFails, late)
    {
      var b := BeforeSentinel(q0);
      DrainStepFacts(q0, i);
      if q == [] {
        assert i == |q0|;
      } else {
        assert q[0] == q0[i] && q' == q0[i + 1..];
        assert i == |b|;
      }
      assert b[..i] == b;
    }

    /** What a finished drain has written and left behind, `k` being the first line the target fails on. */
    static lemma DrainFinished(q0: seq<JString>, lines0: seq<JString>, flushes0: seq<nat>, k: nat, i: nat,
                               o: Outcome<JavaException>, queue: seq<JString>, lines: seq<JString>, flushes: seq<nat>,
                               writeFails: seq<JString> -> bool, late: bool)
      requires Drained(q0, lines0, flushes0, k, i, o, queue, false, lines, flushes, writeFails, late)
      ensures DrainOutcome(q0, lines0, flushes0, k, o, queue, lines, flushes, writeFails, late)
    {
      if o.Pass? {
        DrainPassed(q0, lines0, flushes0, k, i, o, queue, lines, flushes, writeFails, late);
      } else {
        DrainFailed(q0, lines0, flushes0, k, i, o, queue, lines, flushes, writeFails, late);
      }
    }

    /** A drain that ended at the stop signal or the empty queue wrote every line in front of the signal. */
    static lemma DrainPassed(q0: seq<JString>, lines0: seq<JString>, flushes0: seq<nat>, k: nat, i: nat,
                             o: Outcome<JavaException>, queue: seq<JString>, lines: seq<JString>, flushes: seq<nat>,
                             writeFails: seq<JString> -> bool, late: bool)
      requires Drained(q0, lines0, flushes0, k, i, o, queue, false, lines, flushes, writeFails, late) && o.Pass?
      ensures DrainOutcome(q0, lines0, flushes0, k, o, queue, lines, flushes, writeFails, late)
    {
      assert i == k;
    }

    /** A drain that ended in a throw stopped at the first failing line. */
    static lemma DrainFailed(q0: seq<JString>, lines0: seq<JString>, flushes0: seq<nat>, k: nat, i: nat,
                             o: Outcome<JavaException>, queue: seq<JString>, lines: seq<JString>, flushes: seq<nat>,
                             writeFails: seq<JString> -> bool, late: bool)
      requires Drained(q0, lines0, flushes0, k, i, o, queue, false, lines, flushes, writeFails, late) && o.Fail?
      ensures DrainOutcome(q0, lines0, flushes0, k, o, queue, lines, flushes, writeFails, late)
    {
      assert i == k;
    }

    /** A drain starts with nothing handled. */
    static lemma DrainStart(q0: seq<JString>, lines0: seq<JString>, flushes0: seq<nat>, k: nat,
                            writeFails: seq<JString> -> bool, late: bool)
      requires k <= |BeforeSentinel(q0)|
      ensures Drained(q0, lines0, flushes0, k, 0, Pass, q0, true, lines0, flushes0, writeFails, late)
    {
      assert q0[0..] == q0;
      assert lines0 + BeforeSentinel(q0)[..0] == lines0;
    }

    /** Appending to a log that extends `a` by `b` extends `a` by `b` and the addition. */
    static lemma AppendAssociative<T>(a: seq<T>, b: seq<T>, c: seq<T>)
      ensures a + b + c == a + (b + c)
    {
    }

    /** Handling the next line before the stop signal extends the written prefix by it. */
    static lemma PrefixStep(lines0: seq<JString>, b: seq<JString>, i: nat)
      requires i < |b|
      ensures lines0 + b[..i] + [b[i]] == lines0 + b[..i + 1]
    {
      assert b[..i + 1] == b[..i] + [b[i]];
    }

    /** The queue a drain step sees, in terms of the lines before the stop signal. */
    static lemma DrainStepFacts(q: seq<JString>, i: nat)
      requires i <= |BeforeSentinel(q)|
      ensures i < |BeforeSentinel(q)| ==> q[i] != SENTINEL && q[i] == BeforeSentinel(q)[i]
      ensures i == |BeforeSentinel(q)| && i < |q| ==> q[i] == SENTINEL && q[i + 1..] == AfterSentinel(q)
      ensures i == |q| ==> i == |BeforeSentinel(q)| && q[i..] == AfterSentinel(q) && SENTINEL !in q
      ensures i < |BeforeSentinel(q)| ==> (i + 1 == |q| <==> i + 1 == |BeforeSentinel(q)| && SENTINEL !in q)
    {
      var b := BeforeSentinel(q);
      if i == |q| {
        assert q == b;
      }
      if i < |b| {
        assert b[i] == q[..|b|][i];
        if i + 1 == |b| && SENTINEL !in q {
          assert |b| == |q|;
        }
      }
    }

    /** A flush log that held the marks for `i` lines holds those for `i + 1` once the step's flush is logged. */
    static lemma FlushLogStep(flushes0: seq<nat>, flushes: seq<nat>, flushes': seq<nat>, n0: nat, i: nat, k: nat,
                              late: bool, signalled: bool, flushed: bool, n: nat)
      requires i < k && n == n0 + i + 1
      requires flushes == flushes0 + FlushMarks(n0, i, k, late, signalled)
      requires flushed == FlushDue(i, k, late, signalled)
      requires flushes' == flushes + (if flushed then [n] else [])
      ensures flushes' == flushes0 + FlushMarks(n0, i + 1, k, late, signalled)
    {
      FlushMarksStep(n0, i, k, late, signalled, flushed);
      AppendAssociative(flushes0, FlushMarks(n0, i, k, late, signalled), if flushed then [n] else []);
    }

    /** The flush log grows by exactly the flush the step made. */
    static lemma FlushMarksStep(n0: nat, i: nat, k: nat, late: bool, signalled: bool, flushed: bool)
      requires i < k
      requires flushed == FlushDue(i, k, late, signalled)
      ensures FlushMarks(n0, i + 1, k, late, signalled) ==
        FlushMarks(n0, i, k, late, signalled) + (if flushed then [n0 + i + 1] else [])
    {
      if late {
        assert seq(i + 1, j => n0 + j + 1) == seq(i, j => n0 + j + 1) + [n0 + i + 1];
      }
    }
  }

  class QueueWriter {
    const target: Target
    /** The time of construction; nothing assigns it again. */
    const lastFlush: Int64
    /** The date formatter applied to the record timestamp. */
    const formatDate: Int64 -> JString
    /** The shared statics. */
    const worker: WorkerState

    /** A writer replaces the process-wide per-line action with its own. */
    predicate Valid()
      reads this, worker
    {
      worker.Valid() && worker.action != null
    }

    /** Installs this writer's action as `doWiRecord`. */
    constructor (target: Target, formatDate: Int64 -> JString, worker: WorkerState, now: Int64)
      requires worker.Valid()
      modifies worker
      ensures this.target == target && this.formatDate == formatDate && this.worker == worker && lastFlush == now
      ensures worker.action == this
      ensures worker.queue == old(worker.queue) && worker.stop == old(worker.stop) && worker.running == old(worker.running)
      ensures Valid()
    {
      this.target := target;
      this.formatDate := formatDate;
      this.worker := worker;
      lastFlush := now;
      new;
      worker.action := this;
    }

    /**
     * The `doWiRecord` lambda: write the line, then flush if the queue is
     * empty or the flush is late. A throw from `write` skips the flush.
     */
    method Apply(line: JString, queueEmpty: bool, now: Int64) returns (o: Outcome<JavaException>)
      modifies target
      ensures
        var due := queueEmpty || Late(now, lastFlush);
        var wrote := !target.writeFails(old(target.lines));
        var ok := wrote && (due ==> !target.flushFails(old(target.lines) + [line]));
        && target.lines == old(target.lines) + (if wrote then [line] else [])
        && target.flushes == old(target.flushes) + (if ok && due then [|target.lines|] else [])
        && o == (if ok then Pass else Fail(IOException))
    {
      o := target.Write(line);
      if o.Fail? {
        return;
      }
      if queueEmpty || Late(now, lastFlush) {
        o := target.Flush();
      }
    }

    /**
     * `write`: formats the record into its line on the caller's side and
     * offers it to the queue; a full queue drops it. Framing failures reach
     * the caller unwrapped.
     */
    method Write(record: Record) returns (o: Outcome<JavaException>)
      requires Valid()
      modifies worker
      ensures Valid() && worker.stop == old(worker.stop) && worker.running == old(worker.running)
      ensures worker.action == old(worker.action)
      ensures var line := RecordLine.Serialize(record, formatDate(record.timestamp));
        && (line.Failure? ==> o == Fail(line.error) && worker.queue == old(worker.queue))
        && (line.Success? ==> o == Pass)
        && (line.Success? && |old(worker.queue)| < CAPACITY ==> worker.queue == old(worker.queue) + [line.value])
        && (line.Success? && |old(worker.queue)| >= CAPACITY ==> worker.queue == old(worker.queue))
    {
      var line := RecordLine.BuildLine(record, formatDate(record.timestamp));
      if line.Failure? {
        return Fail(line.error);
      }
      RecordLine.SerializedLineNonEmpty(record, formatDate(record.timestamp));
      if |worker.queue| < CAPACITY {
        worker.queue := worker.queue + [line.value];
      }
      o := Pass;
    }

    /** `isReady`: nothing is waiting on the queue. */
    method IsReady() returns (r: bool)
      ensures r <==> worker.queue == []
    {
      r := worker.queue == [];
    }

    /**
     * `close`: sets `stop` and puts the stop signal at the tail. On a full
     * queue `put` blocks until the worker frees a slot; the model then leaves
     * the queue as it was and reports that the signal is not yet on it.
     */
    method Close() returns (enqueued: bool)
      requires Valid()
      modifies worker
      ensures Valid() && worker.stop && worker.running == old(worker.running) && worker.action == old(worker.action)
      ensures enqueued <==> |old(worker.queue)| < CAPACITY
      ensures worker.queue == if enqueued then old(worker.queue) + [SENTINEL] else old(worker.queue)
    {
      worker.stop := true;
      enqueued := |worker.queue| < CAPACITY;
      if enqueued {
        worker.queue := worker.queue + [SENTINEL];
      }
    }
  }

  /**
   * Closing a writer whose queue holds no earlier stop signal, then letting
   * the worker run, writes every queued line to the current target, in
   * order, and empties the queue.
   */
  method CloseAndDrain(writer: QueueWriter, now: Int64)
    requires writer.Valid() && writer.worker.running && SENTINEL !in writer.worker.queue
    requires |writer.worker.queue| < CAPACITY && writer.worker.action.target.Reliable()
    modifies writer.worker, writer.worker.action.target
    ensures writer.Valid() && writer.worker.queue == [] && !writer.worker.running
    ensures writer.worker.action.target.lines == old(writer.worker.action.target.lines) + old(writer.worker.queue)
  {
    var worker := writer.worker;
    ghost var q := worker.queue;
    var enqueued := writer.Close();
    BeforeSentinelAppend(q);
    ReliableNeverFails(worker.action.target, worker.action.target.lines, q, Late(now, worker.action.lastFlush), true);
    var o := worker.Drain(now);
  }

  /** A stop signal appended behind lines without one leaves those lines in front of it. */
  lemma {:induction false} BeforeSentinelAppend(q: seq<JString>)
    requires SENTINEL !in q
    ensures BeforeSentinel(q + [SENTINEL]) == q && AfterSentinel(q + [SENTINEL]) == []
  {
    if q != [] {
      assert (q + [SENTINEL])[0] == q[0];
      assert (q + [SENTINEL])[1..] == q[1..] + [SENTINEL];
      BeforeSentinelAppend(q[1..]);
      assert [q[0]] + q[1..] == q;
    }
  }
}
