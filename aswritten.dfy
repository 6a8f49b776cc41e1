/**
 * `receive_message` with its replies as the code stands (the rest of each
 * message's processing is `Inbound.Step`). `send_message` is a plain
 * function that returns a bool, and the handler awaits that bool; `await`
 * on a bool raises a TypeError, which the handler's generic `except` turns
 * into an HTTP 500. So the batch stops at the first message that gets a
 * reply, after that message's writes have been committed. `Inbound.Run`
 * is the intended behaviour, where the send's result is simply ignored.
 */
module AsWritten {
  import opened Wrappers
  import opened Store
  import opened Inbound
  import Lifecycle

  /** The `str()` of the TypeError that awaiting a bool raises. */
  const AwaitBoolError := "object bool can't be used in 'await' expression"

  datatype Response = Response(state: State, result: Result<seq<Outcome>, HttpError>)

  function RunAsWritten(st: State, batch: seq<RawMessage>, rd: Reading): Response
    decreases |batch|
  {
    if batch == [] then Response(st, Success([]))
    else
      var s := Step(st, batch[0], rd);
      if Replies(s.outcome) then Response(s.state, Failure(HttpError(500, AwaitBoolError)))
      else
        var rest := RunAsWritten(s.state, batch[1..], rd);
        match rest.result
        case Success(os) => Response(rest.state, Success([s.outcome] + os))
        case Failure(e) => rest
  }

  function ReceiveAsWritten(st: State, batch: seq<RawMessage>, rd: Reading): Response {
    if batch == [] then Response(st, Failure(NoMessages)) else RunAsWritten(st, batch, rd)
  }

  /** A batch none of whose messages, processed in order, gets a reply. */
  ghost predicate Silent(st: State, batch: seq<RawMessage>, rd: Reading)
    decreases |batch|
  {
    batch == []
    || (var s := Step(st, batch[0], rd); !Replies(s.outcome) && Silent(s.state, batch[1..], rd))
  }

  /** `Run` taken apart at the front: the first message, then the rest from the state it leaves. */
  lemma {:induction false} RunFirst(st: State, m: RawMessage, rest: seq<RawMessage>, rd: Reading)
    ensures var s := Step(st, m, rd); var r := Run(s.state, rest, rd);
      Run(st, [m] + rest, rd) == RunResult(r.state, [s.outcome] + r.outcomes)
    decreases |rest|
  {
    var b := [m] + rest;
    if rest == [] {
      assert b[..0] == [];
    } else {
      var init := rest[..|rest| - 1];
      assert b[..|b| - 1] == [m] + init;
      assert b[|b| - 1] == rest[|rest| - 1];
      RunFirst(st, m, init, rd);
    }
  }

  /**
   * The code as written answers the batch only when no message in it is
   * replied to, and then it answers what the intended processor answers.
   */
  lemma {:induction false} AsWrittenSucceedsOnlyWhenSilent(st: State, batch: seq<RawMessage>, rd: Reading)
    ensures RunAsWritten(st, batch, rd).result.Success? <==> Silent(st, batch, rd)
    ensures Silent(st, batch, rd) ==>
      RunAsWritten(st, batch, rd)
      == Response(Run(st, batch, rd).state, Success(Run(st, batch, rd).outcomes))
    decreases |batch|
  {
    if batch != [] {
      var s := Step(st, batch[0], rd);
      AsWrittenSucceedsOnlyWhenSilent(s.state, batch[1..], rd);
      RunFirst(st, batch[0], batch[1..], rd);
      assert [batch[0]] + batch[1..] == batch;
    }
  }

  /**
   * The discrepancy: when the first message gets a reply, the code as
   * written answers a 500 and keeps only what that one message wrote,
   * where the intended processor logs every message of the batch.
   */
  lemma ReplyAbortsBatch(st: State, batch: seq<RawMessage>, rd: Reading)
    requires |batch| > 0 && Replies(Step(st, batch[0], rd).outcome)
    ensures ReceiveAsWritten(st, batch, rd)
            == Response(Step(st, batch[0], rd).state, Failure(HttpError(500, AwaitBoolError)))
    ensures |Run(st, batch, rd).state.messages| == |st.messages| + |batch|
  {
    Lifecycle.RunAppendsLog(st, batch, rd);
  }
}
