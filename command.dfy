/**
 * The decision the command channel (`API.request`) takes on the reply to one
 * attempt, and the chain of attempts that the `-3` retry rule strings together.
 */
module Command {

  import opened Wire
  import opened Retry

  /** The errors `request` hands to its callback itself. */
  datatype Failure = Transport | EmptyResponse

  /**
   * The arguments of the caller's callback: `cb(error)` with a transport error
   * or `new Error('Empty response')`, or `cb(undefined, response)`.
   */
  datatype Result = Failed(failure: Failure) | Answered(response: Value)

  /**
   * What the callback of one attempt does: schedule the next attempt after a
   * delay, or call back the caller, having started the notification loop on
   * `pull`'s cursor when that is `Some`.
   */
  datatype Step = RetryAfter(delayMs: nat) | Done(result: Result, pull: Option<string>)

  /** The callback of attempt `retryno` (0 for the first one) on `reply`. */
  function AttemptStep(reply: Reply, retryno: nat, keepalive: bool): (s: Step)
    ensures s.RetryAfter? ==> retryno < MaxRetries && s.delayMs == RetryDelay(retryno)
  {
    match reply
    case TransportError => Done(Failed(Transport), None)
    case Body(v) =>
      if !Truthy(v) then Done(Failed(EmptyResponse), None)
      else
        var u := Unwrap(v);
        if IsCode(u) then
          if Retried(u.n, retryno) then RetryAfter(RetryDelay(retryno))
          else Done(Answered(u), None)
        else
          Done(Answered(u), if keepalive && Truthy(u) && HasCursor(u) then Some(u.sn.value) else None)
  }

  /** A reply that is, once unwrapped, the code `-3`. */
  predicate IsEagain(r: Reply) {
    r.Body? && Unwrap(r.value) == Num(Eagain)
  }

  /** Only `-3` is retried, and only while retries remain; the delay of retry `retryno + 1` is 2^(retryno+1) s. */
  lemma OnlyEagainIsRetried(reply: Reply, retryno: nat, keepalive: bool)
    ensures AttemptStep(reply, retryno, keepalive).RetryAfter? <==> IsEagain(reply) && retryno < MaxRetries
    ensures AttemptStep(reply, retryno, keepalive).RetryAfter? ==>
              AttemptStep(reply, retryno, keepalive).delayMs == Pow2(retryno + 1) * 1000
  {
  }

  /**
   * Retry k (k = 1 .. `MaxRetries`) of a command, scheduled by the `-3`
   * answer to attempt k - 1, waits 2^k seconds: twice as long as retry k - 1.
   */
  lemma RetryKWaitsTwoToTheK(reply: Reply, k: nat, keepalive: bool)
    requires 1 <= k <= MaxRetries && IsEagain(reply)
    ensures AttemptStep(reply, k - 1, keepalive) == RetryAfter(Pow2(k) * 1000)
    ensures k >= 2 ==> AttemptStep(reply, k - 1, keepalive).delayMs == 2 * AttemptStep(reply, k - 2, keepalive).delayMs
  {
  }

  /**
   * A negative code that is not retried (any code but `-3`, or `-3` once the
   * retries are used up) is handed to the caller as the response itself, with
   * no error and without starting the notification loop.
   */
  lemma CodesArePassedThrough(v: Value, retryno: nat, keepalive: bool)
    requires Truthy(v) && IsCode(Unwrap(v))
    requires Unwrap(v).n != Eagain || retryno >= MaxRetries
    ensures AttemptStep(Body(v), retryno, keepalive) == Done(Answered(Unwrap(v)), None)
  {
  }

  /** Transport errors and falsy bodies are reported at once, never retried. */
  lemma FailuresAreImmediate(reply: Reply, retryno: nat, keepalive: bool)
    requires reply.TransportError? || !Truthy(reply.value)
    ensures AttemptStep(reply, retryno, keepalive)
            == Done(Failed(if reply.TransportError? then Transport else EmptyResponse), None)
  {
  }

  /**
   * A non-empty array is replaced by its first element before it is
   * classified, once: the emptiness test comes first, so `[0]` or `[null]`
   * is a normal answer rather than an empty response, and a nested array is
   * answered as it is.
   */
  lemma ArrayIsUnwrapped(items: seq<Value>, retryno: nat, keepalive: bool)
    requires |items| > 0
    ensures Truthy(items[0]) && !items[0].Arr? ==>
              AttemptStep(Body(Arr(items)), retryno, keepalive) == AttemptStep(Body(items[0]), retryno, keepalive)
    ensures !Truthy(items[0]) || items[0].Arr? ==>
              AttemptStep(Body(Arr(items)), retryno, keepalive) == Done(Answered(items[0]), None)
  {
  }

  /**
   * The notification loop is started exactly when the session keeps alive
   * and the unwrapped answer is not a code and carries a truthy `sn`; it is
   * started on that `sn`.
   */
  lemma PullStartsExactlyOnCursor(reply: Reply, retryno: nat, keepalive: bool)
    ensures (AttemptStep(reply, retryno, keepalive).Done? && AttemptStep(reply, retryno, keepalive).pull.Some?)
            <==> (keepalive && reply.Body? && Truthy(reply.value)
                  && !IsCode(Unwrap(reply.value)) && HasCursor(Unwrap(reply.value)))
    ensures AttemptStep(reply, retryno, keepalive).Done? && AttemptStep(reply, retryno, keepalive).pull.Some? ==>
              AttemptStep(reply, retryno, keepalive).pull.value == Unwrap(reply.value).sn.value
  {
  }

  /** The whole chain of attempts of one command, starting from attempt `retryno`. */
  datatype Outcome = Outcome(attempts: nat, delayMs: nat, result: Result, pull: Option<string>)

  /**
   * The number of retries of one `request` call from attempt `retryno` on,
   * where `replies[i]` is the server's reply to attempt i: one for each
   * leading `-3` reply while retries remain.
   */
  function Retries(replies: seq<Reply>, retryno: nat): (k: nat)
    requires retryno <= MaxRetries < |replies|
    ensures k <= MaxRetries - retryno
    ensures forall i :: retryno <= i < retryno + k ==> IsEagain(replies[i])
    ensures retryno + k < MaxRetries ==> !IsEagain(replies[retryno + k])
    decreases MaxRetries - retryno
  {
    if IsEagain(replies[retryno]) && retryno < MaxRetries then 1 + Retries(replies, retryno + 1) else 0
  }

  /**
   * The chain of attempts of one `request` call from attempt `retryno` on,
   * stated by the retry rule alone: each `-3` while retries remain is
   * followed, after 2^(retryno+1) seconds, by attempt `retryno + 1`; the
   * first other reply, or the `-3` to the last attempt, ends the chain with
   * what its attempt decides.
   */
  function Chain(replies: seq<Reply>, retryno: nat, keepalive: bool): (o: Outcome)
    requires retryno <= MaxRetries < |replies|
    ensures 1 <= o.attempts <= MaxRetries + 1 - retryno
  {
    var k := Retries(replies, retryno);
    OnlyEagainIsRetried(replies[retryno + k], retryno + k, keepalive);
    var s := AttemptStep(replies[retryno + k], retryno + k, keepalive);
    Outcome(k + 1, Backoff(retryno, k), s.result, s.pull)
  }

  /** One attempt of a chain: it either ends the chain or leaves the rest to the next attempt. */
  lemma ChainUnfold(replies: seq<Reply>, retryno: nat, keepalive: bool)
    requires retryno <= MaxRetries < |replies|
    ensures var s := AttemptStep(replies[retryno], retryno, keepalive);
            var o := Chain(replies, retryno, keepalive);
            (s.Done? ==> o.attempts == 1 && o.delayMs == 0 && o.result == s.result && o.pull == s.pull)
            && (s.RetryAfter? ==> retryno < MaxRetries
                                  && o.attempts == Chain(replies, retryno + 1, keepalive).attempts + 1
                                  && o.delayMs == RetryDelay(retryno) + Chain(replies, retryno + 1, keepalive).delayMs
                                  && o.result == Chain(replies, retryno + 1, keepalive).result
                                  && o.pull == Chain(replies, retryno + 1, keepalive).pull)
  {
    OnlyEagainIsRetried(replies[retryno], retryno, keepalive);
    if IsEagain(replies[retryno]) && retryno < MaxRetries {
      var k := Retries(replies, retryno + 1);
      assert Retries(replies, retryno) == k + 1;
      assert retryno + (k + 1) == retryno + 1 + k;
      assert Backoff(retryno, k + 1) == RetryDelay(retryno) + Backoff(retryno + 1, k);
    }
  }

  /**
   * A command makes at most five attempts and waits at most 30 seconds in
   * all; retry k waits 2^k seconds, so j retries wait (2^(j+1) - 2) seconds.
   */
  lemma ChainBounds(replies: seq<Reply>, keepalive: bool)
    requires MaxRetries < |replies|
    ensures var o := Chain(replies, 0, keepalive);
            1 <= o.attempts <= MaxRetries + 1
            && o.delayMs == (Pow2(o.attempts) - 2) * 1000
            && o.delayMs <= 30000
  {
    var k := Retries(replies, 0);
    BackoffIsCumulative(0, k);
    CumulativeDelayClosedForm(k);
    CumulativeDelayMonotone(k, MaxRetries);
    BackoffSchedule();
  }

  /**
   * When the replies to attempts `retryno` .. `last - 1` are `-3` and the
   * reply to attempt `last` is not, the chain ends at attempt `last` with the
   * caller seeing what attempt `last` decides.
   */
  lemma ChainEndsAtFirstOtherReply(replies: seq<Reply>, retryno: nat, last: nat, keepalive: bool)
    requires retryno <= last <= MaxRetries < |replies|
    requires forall i :: retryno <= i < last ==> IsEagain(replies[i])
    requires !IsEagain(replies[last])
    ensures var o := Chain(replies, retryno, keepalive);
            o.attempts == last - retryno + 1
            && Done(o.result, o.pull) == AttemptStep(replies[last], last, keepalive)
  {
    RetriesCount(replies, retryno, last);
    OnlyEagainIsRetried(replies[last], last, keepalive);
  }

  /** The retries end at the first reply that is not `-3`, or at the last attempt. */
  lemma {:induction false} RetriesCount(replies: seq<Reply>, retryno: nat, last: nat)
    requires retryno <= last <= MaxRetries < |replies|
    requires forall i :: retryno <= i < last ==> IsEagain(replies[i])
    requires last < MaxRetries ==> !IsEagain(replies[last])
    ensures Retries(replies, retryno) == last - retryno
    decreases last - retryno
  {
    if retryno < last {
      RetriesCount(replies, retryno + 1, last);
    }
  }

  /** After five `-3` replies the caller receives `-3` as the response, after 30 seconds of backoff. */
  lemma EagainExhausted(replies: seq<Reply>, retryno: nat, keepalive: bool)
    requires retryno <= MaxRetries < |replies|
    requires forall i :: retryno <= i <= MaxRetries ==> IsEagain(replies[i])
    ensures var o := Chain(replies, retryno, keepalive);
            o.attempts == MaxRetries + 1 - retryno
            && o.result == Answered(Num(Eagain)) && o.pull == None
            && o.delayMs + CumulativeDelay(retryno) == 30000
  {
    RetriesCount(replies, retryno, MaxRetries);
    assert retryno + (MaxRetries - retryno) == MaxRetries;
    BackoffIsCumulative(retryno, MaxRetries - retryno);
    BackoffSchedule();
  }

  /** Three `-3` replies and then an object: the caller gets the object after 2 + 4 + 8 seconds. */
  lemma SuccessAfterThreeEagains(replies: seq<Reply>, v: Value, keepalive: bool)
    requires MaxRetries < |replies| && v.Obj?
    requires forall i :: 0 <= i < 3 ==> IsEagain(replies[i])
    requires replies[3] == Body(v)
    ensures Chain(replies, 0, keepalive).result == Answered(v)
    ensures Chain(replies, 0, keepalive).attempts == 4
    ensures Chain(replies, 0, keepalive).delayMs == 14000
  {
    ChainEndsAtFirstOtherReply(replies, 0, 3, keepalive);
    ChainBounds(replies, keepalive);
  }
}
