/**
 * The `API` object: a session whose fields the callbacks update in place.
 * Each callback is one atomic step; the HTTP layer hands it an abstract
 * `Reply`, and timers are represented by the delay they are set for.
 */
module Client {

  import opened Wire
  import opened Retry
  import Command
  import Notify

  /** The query of one command attempt: `id`, and `sid` only when the session id is truthy. */
  datatype CommandQuery = CommandQuery(id: nat, sid: Option<string>)

  function SidParam(sid: string): (p: Option<string>) {
    if sid != "" then Some(sid) else None
  }

  class Session {
    const keepalive: bool
    /** The session id; callers outside this class assign it after logging in. */
    var sid: string
    var counterId: nat
    /** Whether the loop's request handle (`this.sn` in the source) is set. */
    var outstanding: bool
    var loop: Notify.Loop
    /** The batches emitted as `sc` events, in order. */
    ghost var emitted: seq<Batch>

    ghost predicate Valid()
      reads this
    {
      (outstanding <==> Notify.Outstanding(loop)) && Notify.WellFormed(loop)
    }

    /** `new API(keepalive)`, with `seed` for the random initial counter. */
    constructor (keepalive: bool, seed: nat)
      ensures Valid()
      ensures this.keepalive == keepalive && sid == "" && counterId == seed
      ensures !outstanding && loop == Notify.Idle && emitted == []
    {
      this.keepalive := keepalive;
      sid := "";
      counterId := seed;
      outstanding := false;
      loop := Notify.Idle;
      emitted := [];
    }

    /** One command attempt is sent: it takes the counter as its id and increments it. */
    method Send() returns (q: CommandQuery)
      modifies this`counterId
      ensures q == CommandQuery(old(counterId), SidParam(sid))
      ensures counterId == old(counterId) + 1
    {
      var qs := CommandQuery(counterId, None);
      counterId := counterId + 1;
      if sid != "" {
        qs := qs.(sid := Some(sid));
      }
      q := qs;
    }

    /** `pull(sn, retryno)`: a poll request is issued and its handle kept. */
    method Pull(sn: string, retryno: nat)
      requires retryno <= MaxRetries
      modifies this`outstanding, this`loop
      ensures Valid()
      ensures loop == Notify.Polling(sn, retryno) && outstanding
    {
      loop := Notify.Polling(sn, retryno);
      outstanding := true;
    }

    /** `wait(url, sn)`: a wait request is issued and its handle kept. */
    method Wait(url: string, sn: string)
      modifies this`outstanding, this`loop
      ensures Valid()
      ensures loop == Notify.Waiting(url, sn) && outstanding
    {
      loop := Notify.Waiting(url, sn);
      outstanding := true;
    }

    /**
     * The callback of command attempt `retryno`: it decides as `AttemptStep`
     * does and, when that says so, starts the notification loop first.
     */
    method OnCommandReply(reply: Reply, retryno: nat) returns (s: Command.Step)
      requires Valid()
      modifies this`outstanding, this`loop
      ensures Valid()
      ensures s == Command.AttemptStep(reply, retryno, keepalive)
      ensures s.Done? && s.pull.Some? ==> loop == Notify.Polling(s.pull.value, 0) && outstanding
      ensures !(s.Done? && s.pull.Some?) ==> loop == old(loop) && outstanding == old(outstanding)
    {
      if reply.TransportError? {
        return Command.Done(Command.Failed(Command.Transport), None);
      }
      if !Truthy(reply.value) {
        return Command.Done(Command.Failed(Command.EmptyResponse), None);
      }
      var response := Unwrap(reply.value);
      if IsCode(response) {
        if response.n == Eagain && retryno < MaxRetries {
          return Command.RetryAfter(Pow2(retryno + 1) * 1000);
        }
        s := Command.Done(Command.Answered(response), None);
      } else if keepalive && Truthy(response) && HasCursor(response) {
        Pull(response.sn.value, 0);
        s := Command.Done(Command.Answered(response), Some(response.sn.value));
      } else {
        s := Command.Done(Command.Answered(response), None);
      }
    }

    /**
     * `request(body, cb, retryno)`: attempt `retryno` is sent and answered
     * `replies[retryno]`; on a `-3` while retries remain, `request` runs
     * again with `retryno + 1` after the backoff. Every attempt takes the
     * next id.
     */
    method Request(replies: seq<Reply>, retryno: nat) returns (result: Command.Result, queries: seq<CommandQuery>, delays: seq<nat>)
      requires Valid() && retryno <= MaxRetries < |replies|
      modifies this`counterId, this`outstanding, this`loop
      ensures Valid()
      ensures result == Command.Chain(replies, retryno, keepalive).result
      ensures |queries| == Command.Chain(replies, retryno, keepalive).attempts == |delays| + 1
      ensures var pull := Command.Chain(replies, retryno, keepalive).pull;
              if pull.Some? then loop == Notify.Polling(pull.value, 0) && outstanding
              else loop == old(loop) && outstanding == old(outstanding)
      ensures forall i :: 0 <= i < |queries| ==> queries[i] == CommandQuery(old(counterId) + i, SidParam(sid))
      ensures forall i :: 0 <= i < |delays| ==> delays[i] == RetryDelay(retryno + i)
      ensures counterId == old(counterId) + |queries|
      decreases MaxRetries - retryno
    {
      Command.ChainUnfold(replies, retryno, keepalive);
      var q := Send();
      var s := OnCommandReply(replies[retryno], retryno);
      if s.Done? {
        return s.result, [q], [];
      }
      var rest, qs, ds := Request(replies, retryno + 1);
      result, queries, delays := rest, [q] + qs, [s.delayMs] + ds;
    }

    /** The callback of the outstanding poll: the handle is cleared first, then the reply decides. */
    method OnPollReply(reply: Reply) returns (batch: Option<Batch>)
      requires Valid() && loop.Polling?
      modifies this`outstanding, this`loop, this`emitted
      ensures Valid()
      ensures Notify.PollStep(old(loop).sn, old(loop).retryno, reply) == Notify.Step(loop, batch)
      ensures emitted == old(emitted) + Notify.BatchLog(batch)
    {
      var sn, retryno := loop.sn, loop.retryno;
      outstanding := false;
      batch := None;
      if reply.TransportError? {
        loop := Notify.Stopped(Notify.TransportFailure);
        return;
      }
      var response := reply.value;
      if IsCode(response) {
        if response.n == Eagain && retryno < MaxRetries {
          loop := Notify.Backoff(sn, retryno + 1, Pow2(retryno + 1) * 1000);
          return;
        }
        loop := Notify.Stopped(Notify.ProtocolFailure(response.n));
      } else if response.Nothing? {
        loop := Notify.Stopped(Notify.Thrown);
      } else if response.Obj? && Present(response.w) {
        Wait(response.w.value, sn);
      } else if response.Obj? && Present(response.sn) {
        if response.a.Some? {
          emitted := emitted + [response.a.value];
          batch := response.a;
        }
        Pull(response.sn.value, 0);
      } else {
        loop := Notify.Stopped(Notify.Silent);
      }
    }

    /** The backoff timer fires: the poll is made again as the next attempt. */
    method OnTimer()
      requires Valid() && loop.Backoff?
      modifies this`outstanding, this`loop
      ensures Valid()
      ensures loop == Notify.Polling(old(loop).sn, old(loop).retryno) && outstanding
    {
      Pull(loop.sn, loop.retryno);
    }

    /** The callback of the outstanding wait: the handle is cleared, then an error halts and anything else re-polls. */
    method OnWaitReply(reply: Reply)
      requires Valid() && loop.Waiting?
      modifies this`outstanding, this`loop
      ensures Valid()
      ensures loop == Notify.WaitStep(old(loop).sn, reply)
    {
      var sn := loop.sn;
      outstanding := false;
      if reply.TransportError? {
        loop := Notify.Stopped(Notify.WaitFailure);
        return;
      }
      Pull(sn, 0);
    }

    /** `close`: the outstanding request, if any, is aborted; its handle stays set. */
    method Close()
      requires Valid()
      modifies this`loop
      ensures Valid()
      ensures loop == Notify.Close(old(loop)) && outstanding == old(outstanding)
    {
      if outstanding {
        loop := Notify.Stopped(Notify.Aborted);
      }
    }

    /** One event of the loop, dispatched to the callback it runs. */
    method Deliver(e: Notify.Event)
      requires Valid()
      modifies this`outstanding, this`loop, this`emitted
      ensures Valid()
      ensures loop == Notify.Next(old(loop), e).next
      ensures emitted == old(emitted) + Notify.BatchLog(Notify.Next(old(loop), e).batch)
    {
      match e
      case Answer(reply) =>
        if loop.Polling? {
          var _ := OnPollReply(reply);
        } else if loop.Waiting? {
          OnWaitReply(reply);
        }
      case TimerFired =>
        if loop.Backoff? {
          OnTimer();
        }
      case CloseCalled =>
        Close();
      case Start(sn) =>
        Pull(sn, 0);
    }

    /** A sequence of events, one callback after another; the state follows `Notify.Run`. */
    method Drive(evs: seq<Notify.Event>)
      requires Valid()
      modifies this`outstanding, this`loop, this`emitted
      ensures Valid()
      ensures loop == Notify.Run(old(loop), evs).last
      ensures emitted == old(emitted) + Notify.Run(old(loop), evs).emitted
    {
      var i := 0;
      while i < |evs|
        invariant 0 <= i <= |evs| && Valid()
        invariant loop == Notify.Run(old(loop), evs[..i]).last
        invariant emitted == old(emitted) + Notify.Run(old(loop), evs[..i]).emitted
      {
        ghost var before := loop;
        Deliver(evs[i]);
        Notify.RunAppend(old(loop), evs[..i], [evs[i]]);
        assert evs[..i] + [evs[i]] == evs[..i + 1];
        Notify.RunOne(before, evs[i]);
        i := i + 1;
      }
      assert evs[..i] == evs;
    }
  }
}
