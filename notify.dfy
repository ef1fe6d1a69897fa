/**
 * The notification loop (`API.pull`, `API.wait`, `API.close`) as a state
 * machine over abstract replies: polling with a cursor, backing off after a
 * `-3`, waiting on a server-issued URL, or stopped.
 */
module Notify {

  import opened Wire
  import opened Retry
  import Errors

  /** Why the loop is no longer running. */
  datatype Cause =
    | Silent                                              // an answer with neither `w` nor `sn`
    | TransportFailure                                    // a poll failed at the transport (logged)
    | ProtocolFailure(code: int)                          // `new Error(ERRORS[-code])` (logged)
    | Thrown                                              // an `undefined` answer: reading its `w` throws
    | WaitFailure                                         // the wait request failed (logged)
    | Aborted                                             // `close` aborted the outstanding request

  /** The message the source logs for a protocol failure: `ERRORS[-code]`, `undefined` outside the table. */
  function Report(c: Cause): (text: Option<string>)
    requires c.ProtocolFailure?
  {
    Errors.Message(-c.code)
  }

  /**
   * Where the loop is. `Polling` and `Waiting` have a request outstanding;
   * `Backoff` has a timer that will poll again as attempt `retryno` after
   * `delayMs`; `Idle` has never been started.
   */
  datatype Loop =
    | Idle
    | Polling(sn: string, retryno: nat)
    | Backoff(sn: string, retryno: nat, delayMs: nat)
    | Waiting(url: string, sn: string)
    | Stopped(cause: Cause)

  /** Whether the request handle (the field `sn` of the source) is set. */
  predicate Outstanding(l: Loop) {
    l.Polling? || l.Waiting? || l == Stopped(Aborted)
  }

  /** The retry counter of a poll never passes `MaxRetries`, and a backoff waits 2^retryno seconds. */
  predicate WellFormed(l: Loop) {
    match l
    case Polling(_, r) => r <= MaxRetries
    case Backoff(_, r, d) => 1 <= r <= MaxRetries && d == RetryDelay(r - 1)
    case _ => true
  }

  /** The effect of one callback: the next state and the batch emitted on the way, if any. */
  datatype Step = Step(next: Loop, batch: Option<Batch>)

  /** The callback of a poll for cursor `sn` made as attempt `retryno`. */
  function PollStep(sn: string, retryno: nat, reply: Reply): (s: Step)
    ensures s.batch.Some? ==> s.next.Polling? && s.next.retryno == 0
    ensures s.next.Backoff? ==> retryno < MaxRetries && s.next == Backoff(sn, retryno + 1, RetryDelay(retryno))
    ensures s.next.Waiting? ==> s.next.sn == sn
  {
    match reply
    case TransportError => Step(Stopped(TransportFailure), None)
    case Body(v) =>
      if IsCode(v) then
        if Retried(v.n, retryno) then Step(Backoff(sn, retryno + 1, RetryDelay(retryno)), None)
        else Step(Stopped(ProtocolFailure(v.n)), None)
      else if v.Nothing? then Step(Stopped(Thrown), None)
      else if v.Obj? && Present(v.w) then Step(Waiting(v.w.value, sn), None)
      else if HasCursor(v) then Step(Polling(v.sn.value, 0), v.a)
      else Step(Stopped(Silent), None)
  }

  /** The callback of a wait made while the cursor was `sn`; the body is ignored. */
  function WaitStep(sn: string, reply: Reply): (next: Loop)
    ensures next == Polling(sn, 0) || next == Stopped(WaitFailure)
  {
    if reply.TransportError? then Stopped(WaitFailure) else Polling(sn, 0)
  }

  /** `close`: abort the outstanding request if there is one, otherwise do nothing. */
  function Close(l: Loop): (closed: Loop)
    ensures closed == l || closed == Stopped(Aborted)
  {
    if Outstanding(l) then Stopped(Aborted) else l
  }

  /**
   * What can happen to the loop: the outstanding request's reply, the backoff
   * timer firing, `close`, or a command answer starting `pull` on a cursor.
   */
  datatype Event = Answer(reply: Reply) | TimerFired | CloseCalled | Start(sn: string)

  /**
   * One event. An event that cannot occur in `l` (a reply with nothing
   * outstanding, including after an abort, or a timer with none set) changes
   * nothing.
   */
  function Next(l: Loop, e: Event): (s: Step) {
    match e
    case Answer(r) =>
      if l.Polling? then PollStep(l.sn, l.retryno, r)
      else if l.Waiting? then Step(WaitStep(l.sn, r), None)
      else Step(l, None)
    case TimerFired => Step(if l.Backoff? then Polling(l.sn, l.retryno) else l, None)
    case CloseCalled => Step(Close(l), None)
    case Start(sn) => Step(Polling(sn, 0), None)
  }

  /** The backoff a step schedules: a poll answer that moves the loop into `Backoff`. */
  function Scheduled(l: Loop, s: Step): (delayMs: nat) {
    if l.Polling? && s.next.Backoff? then s.next.delayMs else 0
  }

  function BatchLog(b: Option<Batch>): (log: seq<Batch>) {
    if b.Some? then [b.value] else []
  }

  /** The loop after a run of events: its last state, the `sc` batches emitted in order, and the backoff scheduled. */
  datatype Trace = Trace(last: Loop, emitted: seq<Batch>, delayMs: nat)

  /** A run of events through the transition function `next`, one event after another. */
  function RunWith(next: (Loop, Event) -> Step, l: Loop, evs: seq<Event>): (t: Trace)
    decreases |evs|
  {
    if evs == [] then Trace(l, [], 0)
    else
      var s := next(l, evs[0]);
      var rest := RunWith(next, s.next, evs[1..]);
      Trace(rest.last, BatchLog(s.batch) + rest.emitted, Scheduled(l, s) + rest.delayMs)
  }

  /** A run of the loop's own transitions. */
  function Run(l: Loop, evs: seq<Event>): (t: Trace) {
    RunWith(Next, l, evs)
  }

  /** Running two parts one after the other is running their concatenation, whatever the transition function. */
  lemma {:induction false} RunWithAppend(next: (Loop, Event) -> Step, l: Loop, a: seq<Event>, b: seq<Event>)
    ensures var first := RunWith(next, l, a);
            var second := RunWith(next, first.last, b);
            RunWith(next, l, a + b) == Trace(second.last, first.emitted + second.emitted, first.delayMs + second.delayMs)
    decreases |a|
  {
    if a == [] {
      assert a + b == b;
    } else {
      assert (a + b)[0] == a[0];
      assert (a + b)[1..] == a[1..] + b;
      RunWithAppend(next, next(l, a[0]).next, a[1..], b);
    }
  }

  /** Every transition keeps the retry bound: no poll follows the fourth retry. */
  lemma NextKeepsWellFormed(l: Loop, e: Event)
    requires WellFormed(l)
    ensures WellFormed(Next(l, e).next)
  {
  }

  /** An answer with a truthy `w` goes to wait on it with the old cursor and emits nothing, whatever else it has. */
  lemma WaitTakesPrecedence(sn: string, retryno: nat, w: Option<string>, cursor: Option<string>, a: Option<Batch>)
    requires Present(w)
    ensures PollStep(sn, retryno, Body(Obj(w, cursor, a))) == Step(Waiting(w.value, sn), None)
  {
  }

  /** Without `w`, an answer with a truthy `sn` emits its `a` as it is, even an empty one, and polls the new cursor afresh. */
  lemma CursorAdvances(sn: string, retryno: nat, w: Option<string>, cursor: Option<string>, a: Option<Batch>)
    requires !Present(w) && Present(cursor)
    ensures PollStep(sn, retryno, Body(Obj(w, cursor, a))) == Step(Polling(cursor.value, 0), a)
  {
  }

  /** An answer with neither a truthy `w` nor a truthy `sn` stops the loop without an error. */
  lemma NeitherFieldStopsSilently(sn: string, retryno: nat, v: Value)
    requires (v.Num? && v.n >= 0) || v.Arr? || (v.Obj? && !Present(v.w) && !Present(v.sn))
    ensures PollStep(sn, retryno, Body(v)) == Step(Stopped(Silent), None)
  {
  }

  /** A batch is emitted exactly for an answer without `w` with a truthy `sn` and an `a`, and it is that `a`. */
  lemma EmitsExactlyTheBatch(sn: string, retryno: nat, reply: Reply)
    ensures PollStep(sn, retryno, reply).batch.Some?
            <==> (reply.Body? && reply.value.Obj? && !Present(reply.value.w)
                  && Present(reply.value.sn) && reply.value.a.Some?)
    ensures PollStep(sn, retryno, reply).batch.Some? ==> PollStep(sn, retryno, reply).batch == reply.value.a
  {
  }

  /** A `-3` answer is retried after 2^(retryno+1) seconds while retries remain, keeping the cursor. */
  lemma PollRetriesEagain(sn: string, retryno: nat)
    requires retryno < MaxRetries
    ensures PollStep(sn, retryno, Body(Num(Eagain))) == Step(Backoff(sn, retryno + 1, Pow2(retryno + 1) * 1000), None)
  {
  }

  /**
   * Retry k (k = 1 .. `MaxRetries`) of a poll, scheduled by the `-3` answer
   * to poll attempt k - 1, waits 2^k seconds: twice as long as retry k - 1.
   */
  lemma PollRetryKWaitsTwoToTheK(sn: string, k: nat)
    requires 1 <= k <= MaxRetries
    ensures PollStep(sn, k - 1, Body(Num(Eagain))).next == Backoff(sn, k, Pow2(k) * 1000)
    ensures k >= 2 ==> PollStep(sn, k - 1, Body(Num(Eagain))).next.delayMs
                       == 2 * PollStep(sn, k - 2, Body(Num(Eagain))).next.delayMs
  {
  }

  /**
   * A failed poll halts the loop and emits nothing: a transport error, a code
   * other than `-3`, or `-3` with the retries used up; a code is reported with
   * its description, which exists exactly for the codes -1 .. -18.
   */
  lemma PollFailureHalts(sn: string, retryno: nat, reply: Reply)
    requires reply.TransportError? || (IsCode(reply.value) && !Retried(reply.value.n, retryno))
    ensures PollStep(sn, retryno, reply).next.Stopped? && PollStep(sn, retryno, reply).batch.None?
    ensures reply.Body? ==> PollStep(sn, retryno, reply).next.cause == ProtocolFailure(reply.value.n)
    ensures reply.Body? ==> (Report(PollStep(sn, retryno, reply).next.cause).Some? <==> -18 <= reply.value.n)
  {
  }

  /** A finished wait polls again with the unchanged cursor; a failed one halts. */
  lemma WaitResumesOrHalts(url: string, sn: string, reply: Reply)
    ensures Next(Waiting(url, sn), Answer(reply)).next == if reply.TransportError? then Stopped(WaitFailure) else Polling(sn, 0)
    ensures Next(Waiting(url, sn), Answer(reply)).batch.None?
  {
  }

  /** `close` aborts exactly when a request is outstanding, leaves the loop alone otherwise, and is idempotent. */
  lemma CloseAbortsOnlyOutstanding(l: Loop)
    ensures Outstanding(l) ==> Close(l) == Stopped(Aborted)
    ensures !Outstanding(l) ==> Close(l) == l
    ensures Close(Close(l)) == Close(l)
  {
  }

  /**
   * During a backoff no request is outstanding, so `close` does nothing and
   * the timer still polls again afterwards.
   */
  lemma CloseDuringBackoffDoesNotStop(sn: string, retryno: nat, delayMs: nat)
    ensures Run(Backoff(sn, retryno, delayMs), [CloseCalled, TimerFired]).last == Polling(sn, retryno)
  {
  }

  /** One event makes one transition, emits its batch and schedules its backoff. */
  lemma RunOne(l: Loop, e: Event)
    ensures Run(l, [e]) == Trace(Next(l, e).next, BatchLog(Next(l, e).batch), Scheduled(l, Next(l, e)))
  {
    var s := Next(l, e);
    assert [e][0] == e && [e][1..] == [];
    assert RunWith(Next, s.next, []) == Trace(s.next, [], 0);
    assert BatchLog(s.batch) + [] == BatchLog(s.batch);
  }

  /** A run of two parts emits the first part's batches followed by the second's: none is dropped, repeated or reordered. */
  lemma RunAppend(l: Loop, a: seq<Event>, b: seq<Event>)
    ensures Run(l, a + b).last == Run(Run(l, a).last, b).last
    ensures Run(l, a + b).emitted == Run(l, a).emitted + Run(Run(l, a).last, b).emitted
    ensures Run(l, a + b).delayMs == Run(l, a).delayMs + Run(Run(l, a).last, b).delayMs
  {
    RunWithAppend(Next, l, a, b);
  }

  /** A loop that is idle or stopped stays so, emitting nothing, until a command answer starts it again. */
  lemma {:induction false} StoppedStaysStopped(l: Loop, evs: seq<Event>)
    requires l.Idle? || l.Stopped?
    requires forall i :: 0 <= i < |evs| ==> !evs[i].Start?
    ensures Run(l, evs) == Trace(l, [], 0)
    decreases |evs|
  {
    if evs != [] {
      StoppedStaysStopped(l, evs[1..]);
    }
  }

  /** `-3` answers to every poll attempt from `retryno` on, each retry's timer firing in between. */
  function EagainTrace(n: nat): (evs: seq<Event>) {
    if n == 0 then [Answer(Body(Num(Eagain)))]
    else [Answer(Body(Num(Eagain))), TimerFired] + EagainTrace(n - 1)
  }

  /**
   * A poll answered `-3` on every attempt halts with the EAGAIN description
   * after the fourth retry, having scheduled 2 + 4 + 8 + 16 seconds from the
   * first attempt.
   */
  lemma {:induction false} PollGivesUpAfterMaxRetries(sn: string, retryno: nat)
    requires retryno <= MaxRetries
    ensures Run(Polling(sn, retryno), EagainTrace(MaxRetries - retryno))
            == Trace(Stopped(ProtocolFailure(Eagain)), [], CumulativeDelay(MaxRetries) - CumulativeDelay(retryno))
    decreases MaxRetries - retryno
  {
    var evs := EagainTrace(MaxRetries - retryno);
    if retryno < MaxRetries {
      var head := [Answer(Body(Num(Eagain))), TimerFired];
      assert evs == head + EagainTrace(MaxRetries - (retryno + 1));
      RunAppend(Polling(sn, retryno), head, EagainTrace(MaxRetries - (retryno + 1)));
      assert head == [Answer(Body(Num(Eagain)))] + [TimerFired];
      RunAppend(Polling(sn, retryno), [Answer(Body(Num(Eagain)))], [TimerFired]);
      RunOne(Polling(sn, retryno), Answer(Body(Num(Eagain))));
      RunOne(Backoff(sn, retryno + 1, RetryDelay(retryno)), TimerFired);
      PollGivesUpAfterMaxRetries(sn, retryno + 1);
    } else {
      assert evs == [Answer(Body(Num(Eagain)))];
      RunOne(Polling(sn, retryno), Answer(Body(Num(Eagain))));
    }
  }

  /**
   * A cursor from a command, a `w` answer, the wait, then a batch with the
   * next cursor: the loop waits, re-polls the unchanged cursor, emits the
   * batch once and polls the new cursor.
   */
  lemma WaitCycleDelivers(c1: string, c2: string, url: string, x: Action)
    requires c1 != "" && c2 != "" && url != ""
    ensures Run(Idle, [Start(c1), Answer(Body(Obj(Some(url), None, None)))]).last == Waiting(url, c1)
    ensures Run(Idle, [Start(c1), Answer(Body(Obj(Some(url), None, None))), Answer(Body(Nothing))])
            == Trace(Polling(c1, 0), [], 0)
    ensures Run(Idle, [Start(c1), Answer(Body(Obj(Some(url), None, None))), Answer(Body(Nothing)),
                       Answer(Body(Obj(None, Some(c2), Some([x]))))])
            == Trace(Polling(c2, 0), [[x]], 0)
  {
    var e1, e2, e3, e4 := Start(c1), Answer(Body(Obj(Some(url), None, None))), Answer(Body(Nothing)),
                          Answer(Body(Obj(None, Some(c2), Some([x]))));
    RunOne(Idle, e1);
    RunOne(Polling(c1, 0), e2);
    assert [e1] + [e2] == [e1, e2];
    RunAppend(Idle, [e1], [e2]);
    RunOne(Waiting(url, c1), e3);
    assert [e1, e2] + [e3] == [e1, e2, e3];
    RunAppend(Idle, [e1, e2], [e3]);
    RunOne(Polling(c1, 0), e4);
    assert [e1, e2, e3] + [e4] == [e1, e2, e3, e4];
    RunAppend(Idle, [e1, e2, e3], [e4]);
  }

  /** A poll answered `-9` halts, reporting the ENOENT description, and nothing is polled afterwards. */
  lemma EnoentHalts(sn: string, retryno: nat, later: seq<Event>)
    requires forall i :: 0 <= i < |later| ==> !later[i].Start?
    ensures Run(Polling(sn, retryno), [Answer(Body(Num(-9)))] + later) == Trace(Stopped(ProtocolFailure(-9)), [], 0)
    ensures Report(ProtocolFailure(-9)) == Some("ENOENT (-9)" + ": Object (typically, node or user) not found. Wrong password?")
  {
    RunOne(Polling(sn, retryno), Answer(Body(Num(-9))));
    RunAppend(Polling(sn, retryno), [Answer(Body(Num(-9)))], later);
    StoppedStaysStopped(Stopped(ProtocolFailure(-9)), later);
  }
}
