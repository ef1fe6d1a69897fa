# MEGA API transport client: commands, retries and the notification loop

This project models, in Dafny, the transport core of the MEGA storage
client in `lib/api.js`. That core does three things:

- It sends each command to the `cs` endpoint. Every attempt gets the next
  request id. The code `-3` (EAGAIN) is retried with exponential backoff.
- It runs the notification loop. The loop polls the `sc` endpoint with a
  sequence cursor (`sn`). When the server has nothing yet, it answers with a
  wait URL (`w`); the loop waits on that URL, then polls again. Action
  batches (`a`) are emitted to subscribers as `sc` events.
- It maps the protocol error codes -1 .. -18 to fixed descriptions.

Each HTTP call is an abstract `Wire.Reply`. It is either a transport error or
a decoded body: `undefined`/`null`, an integer, an array, or an object with
optional `w`, `sn` and `a` fields. JavaScript truthiness is written out
(`Truthy`, `Present`). A timer is the number of milliseconds it is set for.
The `sc` events go to a ghost log, `emitted`.

Modules, one per component:

- `Wire`: the abstract replies.
- `Retry`: `MAX_RETRIES` and the backoff (`Math.pow(2, retryno + 1) * 1e3`).
- `Errors`: the `ERRORS` table, and `CodeTag`, an independent parser that
  reads back the `(-k)` written in each entry.
- `Command`: what the callback of one `request` attempt does
  (`AttemptStep`), and a chain of attempts stated by the retry rule alone
  (`Chain`).
- `Notify`: the loop as a state machine. The states are `Idle`,
  `Polling(sn, retryno)`, `Backoff(sn, retryno, delayMs)`, `Waiting(url, sn)`
  and `Stopped(cause)`. `Run` gives the result of a sequence of events.
- `Client`: class `Session`, the `API` object. Its fields are `counterId`,
  `sid`, the request-handle flag `outstanding` (the source's `this.sn`), the
  loop state and the ghost `emitted` log. There is one method per callback,
  plus `Request`, which re-invokes itself with `retryno + 1` as the source
  does, and `Drive`, which runs a sequence of events and follows `Notify.Run`.

Facts of `lib/api.js` that the model keeps as they are:

- A command makes at most 5 attempts: the first one and up to 4 retries,
  because the retry test is `retryno < MAX_RETRIES` (lib/api.js:62).
- A failed wait halts the loop: the wait callback only logs the error and
  does not poll again (lib/api.js:126).
- A poll answer with neither `w` nor `sn` stops the loop silently: no branch
  of lib/api.js:105-112 applies, and nothing is logged.
- A present `a` is emitted even when it is empty, since an empty array is
  truthy (lib/api.js:108-109).
- Only `request` unwraps an array reply (lib/api.js:57). `pull` does not.
- During a backoff no request handle is set (lib/api.js:90, 96-98), so
  `close` does nothing (lib/api.js:133) and the timer polls again
  (`Notify.CloseDuringBackoffDoesNotStop`).

## Model

| member | source | states |
|---|---|---|
| `Retry.RetryDelay` | lib/api.js:65 | the wait after attempt `retryno`; its values are stated by `BackoffSchedule`, `Command.RetryKWaitsTwoToTheK` and `Notify.PollRetryKWaitsTwoToTheK` |
| `Retry.CumulativeDelayClosedForm` | lib/api.js:60-66 | the backoff before attempt n totals (2^(n+1) - 2) seconds |
| `Retry.BackoffIsCumulative` | lib/api.js:60-66 | the waits of consecutive retries from attempt `from` add up to the cumulative backoff between those attempts |
| `Retry.BackoffSchedule` | lib/api.js:5 | the four retries wait 2, 4, 8 and 16 s, 30 s in all, and no retry follows the fourth |
| `Errors.Message` | lib/api.js:7-29 | `ERRORS[k]` is defined exactly for k = 1..18 |
| `Errors.HeadingNamesCode` | lib/api.js:7-29 | the head of entry k, read by an independent parser, names the code -k |
| `Errors.MessageNamesItsCode` | lib/api.js:7-29 | each description of code -k names `(-k)`, read by an independent parser |
| `Wire.Unwrap` | lib/api.js:57 | a non-empty array is replaced by its first element; its use is stated by `Command.ArrayIsUnwrapped` |
| `Command.AttemptStep` | lib/api.js:53-74 | only a retry of an attempt below `MAX_RETRIES` is scheduled, after 2^(retryno+1) s |
| `Command.OnlyEagainIsRetried` | lib/api.js:59-67 | an attempt is retried if and only if its unwrapped reply is `-3` and retries remain; the delay is 2^(retryno+1) s |
| `Command.RetryKWaitsTwoToTheK` | lib/api.js:60-66 | the `-3` answer to attempt k-1 schedules retry k of the command after 2^k s, twice the wait of retry k-1 |
| `Command.CodesArePassedThrough` | lib/api.js:59-73 | any other negative code, and an exhausted `-3`, is handed to the caller as the response, with no error, no retry and no pull |
| `Command.FailuresAreImmediate` | lib/api.js:54-55 | a transport error or a falsy body is reported at once (`Empty response` for the latter), never retried |
| `Command.ArrayIsUnwrapped` | lib/api.js:55-57 | a non-empty array is replaced by its first element, only once, after the emptiness test |
| `Command.PullStartsExactlyOnCursor` | lib/api.js:59-71 | the loop starts if and only if keepalive is set, the unwrapped answer is not a negative code and it has a truthy `sn`; it starts on that `sn` |
| `Command.Retries` | lib/api.js:59-67 | a chain retries exactly over its leading `-3` replies, at most `MAX_RETRIES` times in all; the first other reply before the last attempt ends the retries |
| `Command.Chain` | lib/api.js:39-76 | a command chain makes between 1 and 5 attempts |
| `Command.ChainUnfold` | lib/api.js:53-74 | an attempt that decides ends the chain with its decision; a retried one adds its delay and leaves the rest to the next attempt |
| `Command.ChainBounds` | lib/api.js:60-66 | at most 5 attempts and at most 30000 ms of backoff; j retries wait (2^(j+1) - 2) s |
| `Command.ChainEndsAtFirstOtherReply` | lib/api.js:59-73 | the chain ends at the first attempt not answered `-3`, with what that attempt decides |
| `Command.EagainExhausted` | lib/api.js:60-73 | five `-3` replies give the caller `-3` as the response after 30 s of backoff, with no pull |
| `Command.SuccessAfterThreeEagains` | lib/api.js:59-73 | three `-3` then an object: the caller gets the object on attempt 4 after 14 s |
| `Notify.PollStep` | lib/api.js:89-113 | a batch is emitted only when the loop moves on to a new cursor from retry 0; a backoff keeps the cursor and waits 2^(retryno+1) s with retries left; a wait keeps the cursor (further: `EmitsExactlyTheBatch`, `WaitTakesPrecedence`, `CursorAdvances`, `PollFailureHalts`) |
| `Notify.WaitStep` | lib/api.js:124-128 | a finished wait either re-polls the same cursor from retry 0 or halts (further: `WaitResumesOrHalts`) |
| `Notify.Close` | lib/api.js:132-134 | `close` either leaves the loop alone or aborts it (further: `CloseAbortsOnlyOutstanding`) |
| `Notify.Next` | lib/api.js:78-134 | dispatches each event to its callback; stated by `NextKeepsWellFormed`, `WaitResumesOrHalts`, `RunOne` and `CloseDuringBackoffDoesNotStop` |
| `Notify.NextKeepsWellFormed` | lib/api.js:92-100 | every transition keeps the poll retry counter at or below `MAX_RETRIES` |
| `Notify.WaitTakesPrecedence` | lib/api.js:105-106 | an answer with `w` goes to wait with the old cursor and emits nothing, even if it also has `sn` or `a` |
| `Notify.CursorAdvances` | lib/api.js:107-111 | without `w` but with `sn`, the answer emits `a` as it is (even empty) and polls the new `sn` from retry 0 |
| `Notify.NeitherFieldStopsSilently` | lib/api.js:105-112 | an answer with neither `w` nor `sn` stops the loop without an error |
| `Notify.EmitsExactlyTheBatch` | lib/api.js:105-112 | a batch is emitted if and only if the answer has no `w`, has `sn` and has `a`; the batch is that `a` |
| `Notify.PollRetriesEagain` | lib/api.js:93-99 | a poll answered `-3` with retries left backs off 2^(retryno+1) s and keeps the cursor |
| `Notify.PollRetryKWaitsTwoToTheK` | lib/api.js:93-98 | the `-3` answer to poll attempt k-1 backs off 2^k s before retry k, twice the wait of retry k-1 |
| `Notify.PollFailureHalts` | lib/api.js:92-103 | a transport error, another code or an exhausted `-3` halts without emitting; the reported text is `ERRORS[-code]`, present exactly for -1..-18 |
| `Notify.WaitResumesOrHalts` | lib/api.js:124-127 | a finished wait re-polls the unchanged cursor from retry 0; a failed one halts |
| `Notify.CloseAbortsOnlyOutstanding` | lib/api.js:132-134 | `close` aborts exactly when a request handle is set, is a no-op otherwise, and is idempotent |
| `Notify.CloseDuringBackoffDoesNotStop` | lib/api.js:90-98 | `close` during a backoff leaves the timer to poll again |
| `Notify.RunOne` | lib/api.js:89-134 | one event makes one transition, emits that transition's batch and schedules its backoff |
| `Notify.RunWithAppend` | lib/api.js:78-134 | a run of two parts, for any transition function, ends where the second part ends and keeps the batches and delays of both in order |
| `Notify.RunAppend` | lib/api.js:105-112 | the batches of a run are those of its first part followed by those of its second: none dropped, repeated or reordered |
| `Notify.StoppedStaysStopped` | lib/api.js:103-134 | a halted, stopped or aborted loop emits and polls nothing more until a command answer starts it |
| `Notify.PollGivesUpAfterMaxRetries` | lib/api.js:92-103 | a poll answered `-3` every time halts after the fourth retry with code -3, having scheduled 30 s from the first attempt |
| `Notify.WaitCycleDelivers` | lib/api.js:105-128 | cursor A1, then a `w` answer and the wait: re-poll A1; then `{a, sn: A2}`: the batch is emitted once and A2 is polled |
| `Notify.EnoentHalts` | lib/api.js:92-103 | `-9` halts the loop with the ENOENT description and nothing runs afterwards |
| `Client.Session.constructor` | lib/api.js:32-37 | a new session has the given keepalive, the seed as counter, no sid, no handle and an idle loop |
| `Client.Session.Send` | lib/api.js:41-44 | an attempt's id is the current counter, which grows by exactly one; `sid` is sent only when set |
| `Client.Session.Pull` | lib/api.js:78-88 | a poll is issued: the handle is set and the loop polls the cursor |
| `Client.Session.Wait` | lib/api.js:117-123 | a wait is issued: the handle is set and the loop waits on the URL with the cursor kept |
| `Client.Session.OnCommandReply` | lib/api.js:53-74 | the callback decides as `AttemptStep` and starts the loop exactly when that says so |
| `Client.Session.Request` | lib/api.js:39-76 | the whole command follows `Chain`: ids old counter + i, delays 2^(i+1) s, counter up by the number of attempts |
| `Client.Session.OnPollReply` | lib/api.js:89-113 | the handle is cleared first; the new state and emitted batch are those of `PollStep`; the log grows by that batch only |
| `Client.Session.OnTimer` | lib/api.js:96-98 | the backoff timer re-polls the same cursor as the next attempt |
| `Client.Session.OnWaitReply` | lib/api.js:124-128 | the handle is cleared, then the loop halts or re-polls as `WaitStep` says |
| `Client.Session.Close` | lib/api.js:132-134 | aborts the loop only when the handle is set; the handle itself is left set |
| `Client.Session.Deliver` | lib/api.js:78-134 | one event runs the callback it belongs to, following `Notify.Next` |
| `Client.Session.Drive` | lib/api.js:78-134 | a sequence of events leaves the state and log `Notify.Run` gives |

## Left out

- The HTTP library, the gateway URL, JSON encoding and `querystring`: every HTTP call is an abstract `Reply`, and the command body is not represented.
- The poll's query and body (`sn` twice, and `sid`): the cursor is kept in the `Polling` state instead.
- `setTimeout`: a timer is the delay it is set for, and its firing is the `TimerFired` event.
- `EventEmitter`: `emit('sc', a)` appends `a` to the ghost log `emitted`.
- `console.log`: the cause of the stop is kept; for a protocol code, `Notify.Report` gives the logged `ERRORS[-code]`. A thrown `TypeError` (a poll answered `undefined`) becomes `Stopped(Thrown)`; how it propagates is not modelled.
- The `Math.random()` seed of `counterId` and the string-to-number coercion of `++`: the initial counter is any `nat`.
- The assignment of `sid` after login: that code is not part of this model; `sid` is a public field.
- JSON values other than `undefined`/`null`, integers, arrays and objects with `w`, `sn` and `a` (strings, booleans, fractions, other fields): they are not represented.
- Concurrency: overlapping command calls are independent and not modelled together. A command answer that starts `pull` while the loop is running replaces the loop state here; the source leaves the earlier chain running and overwrites its handle.
- The runtime behaviour of `abort()`: an aborted request's callback is taken never to run.
- Client.Session.Request: it requires the server's reply to each of the 5 possible attempts (`MaxRetries < |replies|`); replies past the last attempt are ignored.
- Client.Session.Pull: it requires `retryno <= MaxRetries`, which every caller in the source meets.
