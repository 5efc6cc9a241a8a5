/** The device's inference service: the per-connection worker
    `handle_client`, the listener `loop` and the start-up `PerformWarmup`.

    The TFLite interpreter, the microsecond timer and the watchdog are
    external: `engine(k, input)` is what the k-th `Invoke()` of the device's
    life does on the input bytes (whether it succeeds and the output bytes
    it leaves), `clock(k)` is what the k-th `esp_timer_get_time()` returns,
    and every `esp_task_wdt_reconfigure` call is recorded with its timeout.
    One worker at a time is modelled. */
module MainFunctions {

  import opened Bytes
  import opened Transport
  import opened TcpServer
  import opened DataProvider
  import opened PredictionInterpreter
  import opened PredictionHandler

  /** The watchdog timeout while a client is served or the warm-up runs. */
  const LONG_TIMEOUT_MS: nat := 20000
  /** The default watchdog timeout, restored afterwards. */
  const DEFAULT_TIMEOUT_MS: nat := 5000
  /** The threshold `handle_client` passes to `GetResult`. */
  const SCORE_THRESHOLD: real := 0.0

  /** An effect of the device outside a session: a watchdog
      reconfiguration with its timeout, or the close of a client socket. */
  datatype Effect = Watchdog(timeoutMs: nat) | ClientClosed

  /** A reading of the 64-bit microsecond timer. */
  type Micros = x: int | 0 <= x < INT64_LIMIT

  /** What one `Invoke()` does: whether it returns `kTfLiteOk`, and the raw
      bytes it leaves in the output tensor when it does. */
  datatype Invocation = Invocation(ok: bool, output: seq<byte>)

  /** The steps of one request, in the order `handle_client` makes them. */
  datatype Stage = ReadStage | InvokeStage | InterpretStage | UpdateStage

  /** How a worker session ends: the loop breaks (the worker then restores
      the watchdog and closes the socket), the worker task is deleted inside
      `GetResult`, or a socket call never returns. */
  datatype Exit = Break | Deleted | Hung

  /** The external behaviour a session runs against. */
  datatype Env = Env(
    engine: (nat, seq<byte>) -> Invocation,
    clock: nat -> Micros,
    decodeFloat: Word32 -> real,
    encodeFloat: real -> Word32)

  /** Everything a session reads or changes: the client socket's scripts and
      what it has sent, the input tensor's bytes, the output tensor, how many
      invocations and timer readings the device has made, and the stages
      run so far. */
  datatype World = World(
    incoming: seq<Segment>,
    grants: seq<Grant>,
    sent: seq<byte>,
    input: seq<byte>,
    output: Tensor,
    invocations: nat,
    timerReads: nat,
    trace: seq<Stage>)

  datatype Turn = Again(w: World) | Stop(exit: Exit, w: World)

  /** The four stages of a request that succeeds. */
  const FULL: seq<Stage> := [ReadStage, InvokeStage, InterpretStage, UpdateStage]

  /** The steps a pass has run: the first `n` of the four. */
  predicate RanFirst(t: Turn, w: World, n: nat)
  {
    1 <= n <= 4 && t.w.trace == w.trace + FULL[..n]
  }

  /** One pass of the `while(1)` loop of `handle_client`: `Read` first. */
  function Round(env: Env, w: World): Turn
  {
    var q := ReadRequest(w.incoming, |w.input|);
    var w1 := w.(incoming := q.rest, input := q.written + w.input[|q.written|..], trace := w.trace + [ReadStage]);
    if q.result.Blocked? then Stop(Hung, w1)
    else if q.result.value != 0 then Stop(Break, w1)
    else Infer(env, w1)
  }

  /** The rest of a pass after a successful `Read`: time and run the
      inference. */
  function Infer(env: Env, w1: World): Turn
  {
    if !env.engine(w1.invocations, w1.input).ok then
      Stop(Break, w1.(timerReads := w1.timerReads + 1, invocations := w1.invocations + 1,
                      trace := w1.trace + [InvokeStage]))
    else Reply(env, Invoked(env, w1), InferenceTime(env, w1))
  }

  /** The world once `Invoke` has succeeded between two timer readings:
      the output tensor holds what the inference wrote. */
  function Invoked(env: Env, w1: World): World
  {
    var inv := env.engine(w1.invocations, w1.input);
    w1.(timerReads := w1.timerReads + 2, invocations := w1.invocations + 1,
        output := w1.output.(raw := inv.output),
        trace := (w1.trace + [InvokeStage]) + [InterpretStage])
  }

  /** The difference of the two timer readings around `Invoke`. */
  function InferenceTime(env: Env, w1: World): int64
  {
    env.clock(w1.timerReads + 1) - env.clock(w1.timerReads)
  }

  /** The rest of a pass after a successful `Invoke` that took `time`
      microseconds: interpret the output and send the response. */
  function Reply(env: Env, w3: World, time: int64): Turn
  {
    match Scores(w3.output, env.decodeFloat)
    case TaskDeleted => Stop(Deleted, w3)
    case Done(xs) =>
      var u := Respond(w3.grants, ScoreBytes(env.encodeFloat, Filter(xs, SCORE_THRESHOLD)), time);
      var w4 := w3.(grants := u.rest, sent := w3.sent + u.sent, trace := w3.trace + [UpdateStage]);
      if u.result.Blocked? then Stop(Hung, w4)
      else if u.result.value != 0 then Stop(Break, w4)
      else Again(w4)
  }

  /** The stages a reply runs, after the first three of its pass. */
  lemma ReplyStages(env: Env, w3: World, time: int64, w: World)
    requires w3.trace == w.trace + FULL[..3]
    ensures var t := Reply(env, w3, time);
      && (t.Again? ==> RanFirst(t, w, 4))
      && (t.Stop? && t.exit != Deleted ==> RanFirst(t, w, 4))
      && (t.Stop? && t.exit == Deleted ==> RanFirst(t, w, 3))
  {
    var t := Reply(env, w3, time);
    if t.Again? || t.exit != Deleted {
      assert t.w.trace == w3.trace + [UpdateStage];
    }
  }

  /** The stages an inference runs, after the `Read` of its pass. */
  lemma InferStages(env: Env, w1: World, w: World)
    requires w1.trace == w.trace + FULL[..1]
    ensures var t := Infer(env, w1);
      && (t.Again? ==> RanFirst(t, w, 4))
      && (t.Stop? && t.exit == Break ==> RanFirst(t, w, 2) || RanFirst(t, w, 4))
      && (t.Stop? && t.exit == Deleted ==> RanFirst(t, w, 3))
      && (t.Stop? && t.exit == Hung ==> RanFirst(t, w, 4))
  {
    var t := Infer(env, w1);
    if env.engine(w1.invocations, w1.input).ok {
      var w3 := InferRuns(env, w1);
      assert w3.trace == w.trace + FULL[..3];
      ReplyStages(env, w3, InferenceTime(env, w1), w);
      assert t == Reply(env, w3, InferenceTime(env, w1));
    } else {
      InferFails(env, w1);
      assert t.exit == Break && t.w.trace == w.trace + FULL[..2];
    }
  }

  /** The stages one pass runs: all four when the loop goes round again;
      Read alone, Read and Invoke, or all four when it breaks; the first
      three when the worker task is deleted; Read alone or all four when a call
      blocks. */
  lemma RoundStages(env: Env, w: World)
    ensures var t := Round(env, w);
      && (t.Again? ==> RanFirst(t, w, 4))
      && (t.Stop? && t.exit == Break ==> RanFirst(t, w, 1) || RanFirst(t, w, 2) || RanFirst(t, w, 4))
      && (t.Stop? && t.exit == Deleted ==> RanFirst(t, w, 3))
      && (t.Stop? && t.exit == Hung ==> RanFirst(t, w, 1) || RanFirst(t, w, 4))
  {
    var q := ReadRequest(w.incoming, |w.input|);
    var w1 := w.(incoming := q.rest, input := q.written + w.input[|q.written|..], trace := w.trace + [ReadStage]);
    assert w1.trace == w.trace + FULL[..1];
    if q.result == Returned(0) {
      InferStages(env, w1, w);
    }
  }

  /** A pass that goes round again has consumed part of the request stream,
      so the loop cannot go round for ever on a finite script. */
  lemma RoundShrinks(env: Env, w: World)
    requires Round(env, w).Again?
    ensures Volume(Round(env, w).w.incoming) < Volume(w.incoming)
  {
    var op := ReceiveAll(w.incoming, 1);
    ReceiveAllShrinks(w.incoming, 1);
    ReceiveAllShrinks(op.rest, |w.input|);
    assert w.incoming != [] by {
      if w.incoming == [] {
        assert false;
      }
    }
  }

  /** The `handle_client` loop from `w` on. */
  function Session(env: Env, w: World): (Exit, World)
    decreases Volume(w.incoming)
  {
    match Round(env, w)
    case Stop(e, w') => (e, w')
    case Again(w') =>
      RoundShrinks(env, w);
      Session(env, w')
  }

  /** The n-th stage of an endless run of successful requests. */
  function Cycle(n: nat): Stage
  {
    match n % 4
    case 0 => ReadStage
    case 1 => InvokeStage
    case 2 => InterpretStage
    case _ => UpdateStage
  }

  /** `stages` is the beginning of Read, Invoke, GetResult, Update, Read, ...:
      each request runs the four steps in order and a step runs only after
      the one before it succeeded. */
  predicate InOrder(stages: seq<Stage>)
  {
    forall i :: 0 <= i < |stages| ==> stages[i] == Cycle(i)
  }

  /** Where a session can stop: the loop breaks after a failed Read, a failed
      Invoke or a failed Update; the worker task is deleted only inside GetResult; a
      call blocks only inside Read or Update. */
  predicate EndsWell(stages: seq<Stage>, e: Exit)
  {
    |stages| > 0 &&
    match e
    case Break => |stages| % 4 != 3
    case Deleted => |stages| % 4 == 3
    case Hung => |stages| % 4 == 1 || |stages| % 4 == 0
  }

  lemma CycleShift(stages: seq<Stage>, rest: seq<Stage>)
    requires |stages| == 4 && InOrder(stages) && InOrder(rest)
    ensures InOrder(stages + rest)
  {
    forall i | 0 <= i < |stages + rest|
      ensures (stages + rest)[i] == Cycle(i)
    {
      if i >= 4 {
        assert (stages + rest)[i] == rest[i - 4];
        assert (i - 4) % 4 == i % 4;
      }
    }
  }

  lemma FullInOrder(n: nat)
    requires n <= 4
    ensures InOrder(FULL[..n])
  {
  }

  /** Over a whole session, the steps run are Read, Invoke, GetResult,
      Update, Read, ... in that order with nothing skipped, and the session
      stops at the first failing step. */
  lemma {:induction false} SessionTrace(env: Env, w: World)
    ensures var (e, w') := Session(env, w);
      exists stages: seq<Stage> ::
        w'.trace == w.trace + stages && InOrder(stages) && EndsWell(stages, e)
    decreases Volume(w.incoming)
  {
    if Round(env, w).Again? {
      RoundShrinks(env, w);
      SessionTrace(env, Round(env, w).w);
    }
    SessionTraceStep(env, w);
  }

  /** One pass of the session, given the stages of the rest of it. */
  lemma SessionTraceStep(env: Env, w: World)
    requires var t := Round(env, w);
      t.Again? ==> var (e, w') := Session(env, t.w);
        exists more: seq<Stage> :: w'.trace == t.w.trace + more && InOrder(more) && EndsWell(more, e)
    ensures var (e, w') := Session(env, w);
      exists stages: seq<Stage> ::
        w'.trace == w.trace + stages && InOrder(stages) && EndsWell(stages, e)
  {
    var t := Round(env, w);
    RoundStages(env, w);
    PassStages(t, w, Session(env, t.w));
    assert Session(env, w) == if t.Again? then Session(env, t.w) else (t.exit, t.w);
  }

  /** The stages of a pass that ran the stages `RoundStages` allows, followed,
      when it goes round again, by the stages of the rest of the session. */
  lemma PassStages(t: Turn, w: World, rest: (Exit, World))
    requires t.Again? ==> RanFirst(t, w, 4)
    requires t.Stop? && t.exit == Break ==> RanFirst(t, w, 1) || RanFirst(t, w, 2) || RanFirst(t, w, 4)
    requires t.Stop? && t.exit == Deleted ==> RanFirst(t, w, 3)
    requires t.Stop? && t.exit == Hung ==> RanFirst(t, w, 1) || RanFirst(t, w, 4)
    requires t.Again? ==>
      exists more: seq<Stage> :: rest.1.trace == t.w.trace + more && InOrder(more) && EndsWell(more, rest.0)
    ensures var (e, w') := if t.Again? then rest else (t.exit, t.w);
      exists stages: seq<Stage> ::
        w'.trace == w.trace + stages && InOrder(stages) && EndsWell(stages, e)
  {
    var n := |t.w.trace| - |w.trace|;
    var stages := FULL[..n];
    FullInOrder(n);
    assert t.w.trace == w.trace + stages;
    if t.Again? {
      var more :| rest.1.trace == t.w.trace + more && InOrder(more) && EndsWell(more, rest.0);
      CycleShift(stages, more);
      StagesAppend(w.trace, stages, more);
      assert rest.1.trace == w.trace + (stages + more);
    } else {
      StopEndsWell(t, w);
    }
  }

  /** A pass that stops ends where a session may end. */
  lemma StopEndsWell(t: Turn, w: World)
    requires t.Stop?
    requires t.exit == Break ==> RanFirst(t, w, 1) || RanFirst(t, w, 2) || RanFirst(t, w, 4)
    requires t.exit == Deleted ==> RanFirst(t, w, 3)
    requires t.exit == Hung ==> RanFirst(t, w, 1) || RanFirst(t, w, 4)
    ensures 1 <= |t.w.trace| - |w.trace| <= 4
    ensures EndsWell(FULL[..|t.w.trace| - |w.trace|], t.exit)
  {
  }

  lemma StagesAppend(before: seq<Stage>, stages: seq<Stage>, more: seq<Stage>)
    requires |stages| == 4
    ensures (before + stages) + more == before + (stages + more)
    ensures |stages + more| % 4 == |more| % 4
  {
  }

  /** A request that `Read` refuses (a failed receive or a wrong opcode)
      ends the session with nothing sent, no inference and no timer
      reading. */
  lemma RefusedRequestEndsSilently(env: Env, w: World)
    requires ReadRequest(w.incoming, |w.input|).result == Returned(1)
    ensures var (e, w') := Session(env, w);
      && e == Break
      && w'.sent == w.sent && w'.grants == w.grants
      && w'.invocations == w.invocations && w'.timerReads == w.timerReads
  {
  }

  /** A pass that goes round again has run exactly one inference on the
      received payload and sent exactly the response frame: the scores at or
      above 0.0 of the output tensor that inference left, then the time
      between the two timer readings around `Invoke`, which is never negative
      on a clock that never goes backwards. */
  lemma RoundResponds(env: Env, w: World)
    requires Round(env, w).Again?
    ensures var w' := Round(env, w).w;
      var q := ReadRequest(w.incoming, |w.input|);
      var inv := env.engine(w.invocations, q.written);
      var time := env.clock(w.timerReads + 1) - env.clock(w.timerReads);
      && q.result == Returned(0) && |q.written| == |w.input|
      && inv.ok
      && w'.input == q.written
      && w'.invocations == w.invocations + 1 && w'.timerReads == w.timerReads + 2
      && w'.output == w.output.(raw := inv.output)
      && Scores(w'.output, env.decodeFloat).Done?
      && w'.sent == w.sent + ScoreBytes(env.encodeFloat, Filter(Scores(w'.output, env.decodeFloat).value, SCORE_THRESHOLD))
                          + EncodeInt64(time)
      && (env.clock(w.timerReads) <= env.clock(w.timerReads + 1) ==> time >= 0)
  {
    RoundAgainInfers(env, w);
    var w1, w3 := RoundIsReply(env, w);
    InvokedFields(env, w, w1, ReadRequest(w.incoming, |w.input|).written);
    ReplyResponds(env, w3, env.clock(w.timerReads + 1) - env.clock(w.timerReads));
  }

  /** A pass that goes round again read a request and ran a successful
      inference on it. */
  lemma RoundAgainInfers(env: Env, w: World)
    requires Round(env, w).Again?
    ensures var q := ReadRequest(w.incoming, |w.input|);
      q.result == Returned(0) && env.engine(w.invocations, q.written).ok
  {
    var w1 := RoundReads(env, w);
    InferAgainRan(env, w1);
  }

  /** After a successful read and inference, the pass is the reply from the
      world the inference left, timed by the two clock readings. */
  lemma RoundIsReply(env: Env, w: World) returns (w1: World, w3: World)
    requires var q := ReadRequest(w.incoming, |w.input|);
      q.result == Returned(0) && env.engine(w.invocations, q.written).ok
    ensures var q := ReadRequest(w.incoming, |w.input|);
      && w1 == w.(incoming := q.rest, input := q.written + w.input[|q.written|..], trace := w.trace + [ReadStage])
      && w1.input == q.written
    ensures w3 == Invoked(env, w1)
    ensures Round(env, w) == Reply(env, w3, env.clock(w.timerReads + 1) - env.clock(w.timerReads))
  {
    var q := ReadRequest(w.incoming, |w.input|);
    w1 := w.(incoming := q.rest, input := q.written + w.input[|q.written|..], trace := w.trace + [ReadStage]);
    assert w1.input == q.written by {
      ReadRequestTakesStream(w.incoming, |w.input|);
      assert w.input[|q.written|..] == [];
    }
    w3 := Invoked(env, w1);
    var time := env.clock(w.timerReads + 1) - env.clock(w.timerReads);
    assert Round(env, w) == Infer(env, w1);
    assert Infer(env, w1) == Reply(env, w3, time) by {
      TimeBetween(env, w1, w.timerReads);
      ReplyOfTime(env, w3, InferenceTime(env, w1), time);
    }
  }

  /** What a successful inference changes: one more invocation, two more
      timer readings and the output the engine wrote. */
  lemma InvokedFields(env: Env, w: World, w1: World, input: seq<byte>)
    requires w1.sent == w.sent && w1.input == input && w1.output == w.output
    requires w1.invocations == w.invocations && w1.timerReads == w.timerReads
    ensures var w3 := Invoked(env, w1);
      && w3.sent == w.sent && w3.input == input
      && w3.invocations == w.invocations + 1 && w3.timerReads == w.timerReads + 2
      && w3.output == w.output.(raw := env.engine(w.invocations, input).output)
  {
  }

  /** The same reply for the same measured time. */
  lemma ReplyOfTime(env: Env, w3: World, t: int64, u: int64)
    requires t == u
    ensures Reply(env, w3, t) == Reply(env, w3, u)
  {
  }

  /** The inference time is the difference of the two clock readings that
      follow the `n` already made. */
  lemma TimeBetween(env: Env, w1: World, n: nat)
    requires w1.timerReads == n
    ensures InferenceTime(env, w1) == env.clock(n + 1) - env.clock(n)
  {
  }

  /** A pass that goes round again had a successful inference. */
  lemma InferAgainRan(env: Env, w1: World)
    requires Infer(env, w1).Again?
    ensures env.engine(w1.invocations, w1.input).ok
  {
    if !env.engine(w1.invocations, w1.input).ok {
      InferFails(env, w1);
    }
  }

  /** The first step of a pass that goes round again: the request read in
      full replaces the input. */
  lemma RoundReads(env: Env, w: World) returns (w1: World)
    requires ReadRequest(w.incoming, |w.input|).result == Returned(0)
    ensures var q := ReadRequest(w.incoming, |w.input|);
      && |q.written| == |w.input|
      && w1 == w.(incoming := q.rest, input := q.written, trace := w.trace + [ReadStage])
      && Round(env, w) == Infer(env, w1)
  {
    var q := ReadRequest(w.incoming, |w.input|);
    ReadRequestTakesStream(w.incoming, |w.input|);
    assert q.written + w.input[|q.written|..] == q.written;
    w1 := w.(incoming := q.rest, input := q.written, trace := w.trace + [ReadStage]);
  }

  /** A successful inference, between two timer readings, hands over to
      the reply. */
  lemma InferRuns(env: Env, w1: World) returns (w3: World)
    requires env.engine(w1.invocations, w1.input).ok
    ensures var inv := env.engine(w1.invocations, w1.input);
      && w3 == w1.(timerReads := w1.timerReads + 2, invocations := w1.invocations + 1,
                   output := w1.output.(raw := inv.output),
                   trace := (w1.trace + [InvokeStage]) + [InterpretStage])
      && Infer(env, w1) == Reply(env, w3, InferenceTime(env, w1))
  {
    w3 := Invoked(env, w1);
  }

  /** A failed inference breaks the loop after one timer reading. */
  lemma InferFails(env: Env, w1: World)
    requires !env.engine(w1.invocations, w1.input).ok
    ensures Infer(env, w1) == Stop(Break, w1.(timerReads := w1.timerReads + 1, invocations := w1.invocations + 1,
                                              trace := w1.trace + [InvokeStage]))
  {
  }

  /** A reply that lets the loop go round again has sent the whole frame. */
  lemma ReplyResponds(env: Env, w3: World, time: int64)
    requires Reply(env, w3, time).Again?
    ensures Scores(w3.output, env.decodeFloat).Done?
    ensures Reply(env, w3, time).w.input == w3.input && Reply(env, w3, time).w.output == w3.output
    ensures Reply(env, w3, time).w.invocations == w3.invocations && Reply(env, w3, time).w.timerReads == w3.timerReads
    ensures Reply(env, w3, time).w.sent ==
      w3.sent + ScoreBytes(env.encodeFloat, Filter(Scores(w3.output, env.decodeFloat).value, SCORE_THRESHOLD)) + EncodeInt64(time)
  {
    var scores := ScoreBytes(env.encodeFloat, Filter(Scores(w3.output, env.decodeFloat).value, SCORE_THRESHOLD));
    RespondSucceeds(w3.grants, scores, time);
  }

  /** The accepted sockets, in order: the non-negative accept results. */
  function Accepted(results: seq<int>): seq<int>
  {
    if results == [] then []
    else
      var n := |results| - 1;
      Accepted(results[..n]) + (if results[n] < 0 then [] else [results[n]])
  }

  /** Every accepted socket gets exactly one worker, in accept order, and a
      failed accept gets none. */
  lemma {:induction false} AcceptedExactly(results: seq<int>, s: int)
    ensures multiset(Accepted(results))[s] == if s < 0 then 0 else multiset(results)[s]
    ensures forall i :: 0 <= i < |Accepted(results)| ==> Accepted(results)[i] >= 0
  {
    if results != [] {
      AcceptedExactly(results[..|results| - 1], s);
      AcceptedStep(results, s);
    }
  }

  /** One more accept result adds its socket when it is not negative. */
  lemma AcceptedStep(results: seq<int>, s: int)
    requires results != []
    requires var front := results[..|results| - 1];
      && multiset(Accepted(front))[s] == (if s < 0 then 0 else multiset(front)[s])
      && forall i :: 0 <= i < |Accepted(front)| ==> Accepted(front)[i] >= 0
    ensures multiset(Accepted(results))[s] == if s < 0 then 0 else multiset(results)[s]
    ensures forall i :: 0 <= i < |Accepted(results)| ==> Accepted(results)[i] >= 0
  {
    var n := |results| - 1;
    var front, last := results[..n], results[n];
    assert results == front + [last];
    CountSnoc(front, last, s);
    if last < 0 {
      assert Accepted(results) == Accepted(front);
    } else {
      assert Accepted(results) == Accepted(front) + [last];
      CountSnoc(Accepted(front), last, s);
    }
  }

  /** When no accept fails, every result gets a worker, in order. */
  lemma {:induction false} AcceptedAll(results: seq<int>)
    requires forall i :: 0 <= i < |results| ==> results[i] >= 0
    ensures Accepted(results) == results
  {
    if results != [] {
      var n := |results| - 1;
      AcceptedAll(results[..n]);
      assert results == results[..n] + [results[n]];
    }
  }

  /** How `PerformWarmup` ends: the invocations it makes, whether all of them
      succeed, and the output tensor it leaves. */
  datatype Warmup = Warmup(runs: nat, completed: bool, output: Tensor)

  /** The reference behaviour of the warm-up loop from invocation `start`,
      with `runs` runs to go, on input bytes `input`. */
  function WarmupRuns(engine: (nat, seq<byte>) -> Invocation, start: nat, input: seq<byte>, runs: nat, output: Tensor): (u: Warmup)
    ensures u.runs <= runs
    ensures u.completed ==> u.runs == runs
    decreases runs
  {
    if runs == 0 then Warmup(0, true, output)
    else
      var inv := engine(start, input);
      if !inv.ok then Warmup(1, false, output)
      else
        var rest := WarmupRuns(engine, start + 1, input, runs - 1, output.(raw := inv.output));
        Warmup(rest.runs + 1, rest.completed, rest.output)
  }

  /** The warm-up completes exactly when every one of its invocations
      succeeds; otherwise it stops at the first failure, every earlier one
      having succeeded. */
  lemma {:induction false} WarmupStopsAtFirstFailure(engine: (nat, seq<byte>) -> Invocation, start: nat, input: seq<byte>, runs: nat, output: Tensor)
    ensures var u := WarmupRuns(engine, start, input, runs, output);
      && (u.completed <==> forall k :: start <= k < start + runs ==> engine(k, input).ok)
      && (!u.completed ==> u.runs > 0 && !engine(start + u.runs - 1, input).ok)
      && (forall k :: start <= k < start + u.runs - 1 ==> engine(k, input).ok)
    decreases runs
  {
    if runs > 0 && engine(start, input).ok {
      WarmupStopsAtFirstFailure(engine, start + 1, input, runs - 1, output.(raw := engine(start, input).output));
    }
  }

  /** One warm-up run: a failure stops the warm-up, a success leaves the
      rest of the runs to go. */
  lemma WarmupStep(engine: (nat, seq<byte>) -> Invocation, start: nat, input: seq<byte>, runs: nat, output: Tensor)
    requires runs > 0
    ensures var inv := engine(start, input);
      var rest := WarmupRuns(engine, start + 1, input, runs - 1, output.(raw := inv.output));
      WarmupRuns(engine, start, input, runs, output) ==
        if inv.ok then Warmup(rest.runs + 1, rest.completed, rest.output) else Warmup(1, false, output)
  {
  }

  /** The input the warm-up invokes the model on: every byte set to 1. */
  function Ones(n: nat): (bs: seq<byte>)
    ensures |bs| == n && forall i :: 0 <= i < n ==> bs[i] == 1
  {
    seq(n, _ => 1)
  }

  class Device {
    const engine: (nat, seq<byte>) -> Invocation
    const clock: nat -> Micros
    const decodeFloat: Word32 -> real
    const encodeFloat: real -> Word32
    /** `model_input->data.raw`, `model_input->bytes` long. */
    const input: array<byte>
    /** `model_output`. */
    var output: Tensor
    var invocations: nat
    var timerReads: nat
    /** The device's effects outside the session, in order: every
        `esp_task_wdt_reconfigure` call with its timeout, and every close
        of a client socket. */
    var effects: seq<Effect>
    var trace: seq<Stage>
    /** The sockets handed to a new `handle_client` task, in order. */
    var spawned: seq<int>

    constructor (engine: (nat, seq<byte>) -> Invocation, clock: nat -> Micros,
                 decodeFloat: Word32 -> real, encodeFloat: real -> Word32,
                 inputBytes: nat, output: Tensor)
      ensures this.engine == engine && this.clock == clock
      ensures this.decodeFloat == decodeFloat && this.encodeFloat == encodeFloat
      ensures fresh(input) && input.Length == inputBytes
      ensures this.output == output
      ensures invocations == 0 && timerReads == 0 && effects == [] && trace == [] && spawned == []
    {
      this.engine := engine;
      this.clock := clock;
      this.decodeFloat := decodeFloat;
      this.encodeFloat := encodeFloat;
      this.input := new byte[inputBytes](_ => 0);
      this.output := output;
      invocations := 0;
      timerReads := 0;
      effects := [];
      trace := [];
      spawned := [];
    }

    function Environment(): Env
    {
      Env(engine, clock, decodeFloat, encodeFloat)
    }

    /** The device and client socket as a session sees them. */
    function Snapshot(sock: Socket): World
      reads this, input, sock
    {
      World(sock.incoming, sock.grants, sock.sent, input[..], output, invocations, timerReads, trace)
    }

    /** `interpreter->Invoke()`. */
    method Invoke() returns (ok: bool)
      modifies this`invocations, this`output
      ensures var inv := engine(old(invocations), input[..]);
        && ok == inv.ok
        && invocations == old(invocations) + 1
        && output == if inv.ok then old(output).(raw := inv.output) else old(output)
    {
      var inv := engine(invocations, input[..]);
      invocations := invocations + 1;
      if inv.ok {
        output := output.(raw := inv.output);
      }
      ok := inv.ok;
    }

    /** `esp_timer_get_time()`. */
    method Now() returns (t: Micros)
      modifies this`timerReads
      ensures t == clock(old(timerReads)) && timerReads == old(timerReads) + 1
    {
      t := clock(timerReads);
      timerReads := timerReads + 1;
    }

    /** `esp_task_wdt_reconfigure(&config)` with `config.timeout_ms`. */
    method ReconfigureWatchdog(timeoutMs: nat)
      modifies this`effects
      ensures effects == old(effects) + [Watchdog(timeoutMs)]
    {
      effects := effects + [Watchdog(timeoutMs)];
    }

    /** `close(client_socket)`. */
    method CloseClient(sock: Socket)
      modifies this`effects, sock`closeCount
      ensures effects == old(effects) + [ClientClosed]
      ensures sock.closeCount == old(sock.closeCount) + 1
    {
      sock.Close();
      effects := effects + [ClientClosed];
    }

    /** One pass of the `handle_client` loop; `stop` says the loop is left,
        and `exit` how. */
    method ServeRequest(sock: Socket) returns (stop: bool, exit: Exit)
      modifies this`invocations, this`output, this`timerReads, this`trace, input
      modifies sock`incoming, sock`grants, sock`sent
      ensures var t := Round(Environment(), old(Snapshot(sock)));
        if stop then t == Stop(exit, Snapshot(sock)) else t == Again(Snapshot(sock))
    {
      var r := Read(sock, input);
      trace := trace + [ReadStage];
      if r.Blocked? {
        return true, Hung;
      }
      if r.value != 0 {
        return true, Break;
      }
      stop, exit := InferStep(sock);
    }

    /** The inference of a pass, timed by two timer readings. */
    method InferStep(sock: Socket) returns (stop: bool, exit: Exit)
      modifies this`invocations, this`output, this`timerReads, this`trace
      modifies sock`grants, sock`sent
      ensures var t := Infer(Environment(), old(Snapshot(sock)));
        if stop then t == Stop(exit, Snapshot(sock)) else t == Again(Snapshot(sock))
    {
      ghost var env := Environment();
      ghost var w1 := Snapshot(sock);
      assert env.clock == clock && w1.timerReads == timerReads;
      var start := Now();
      assert start == env.clock(w1.timerReads);
      var ok := Invoke();
      trace := trace + [InvokeStage];
      if !ok {
        InferFails(env, w1);
        return true, Break;
      }
      var end := Now();
      assert end == env.clock(w1.timerReads + 1);
      var inferenceTime: int64 := (end as int) - (start as int);
      assert inferenceTime == InferenceTime(env, w1);
      trace := trace + [InterpretStage];
      ghost var w3 := InferRuns(env, w1);
      ghost var t := Reply(env, w3, inferenceTime);
      assert Snapshot(sock) == w3;
      stop, exit := ReplyStep(sock, inferenceTime);
      assert if stop then t == Stop(exit, Snapshot(sock)) else t == Again(Snapshot(sock));
    }

    /** The interpretation of the output and the response of a pass. */
    method ReplyStep(sock: Socket, inferenceTime: int64) returns (stop: bool, exit: Exit)
      modifies this`trace, sock`grants, sock`sent
      ensures var t := Reply(Environment(), old(Snapshot(sock)), inferenceTime);
        if stop then t == Stop(exit, Snapshot(sock)) else t == Again(Snapshot(sock))
    {
      var prediction := GetResult(output, decodeFloat, SCORE_THRESHOLD);
      if prediction.TaskDeleted? {
        return true, Deleted;
      }
      trace := trace + [UpdateStage];
      var u := Update(sock, encodeFloat, prediction.value, inferenceTime);
      if u.Blocked? {
        return true, Hung;
      }
      if u.value != 0 {
        return true, Break;
      }
      return false, Break;
    }

    /** `handle_client(client_socket)`: the session runs as `Session`
        says; the watchdog is raised to 20 s first and, when the loop
        breaks, restored to 5 s, and only then is the socket closed, exactly
        once. */
    method HandleClient(sock: Socket) returns (exit: Exit)
      modifies this`invocations, this`output, this`timerReads, this`trace, this`effects, input
      modifies sock
      ensures Session(Environment(), old(Snapshot(sock))) == (exit, Snapshot(sock))
      ensures effects == old(effects) + [Watchdog(LONG_TIMEOUT_MS)]
        + (if exit == Break then [Watchdog(DEFAULT_TIMEOUT_MS), ClientClosed] else [])
      ensures sock.closeCount == old(sock.closeCount) + (if exit == Break then 1 else 0)
    {
      ReconfigureWatchdog(LONG_TIMEOUT_MS);
      ghost var goal := Session(Environment(), Snapshot(sock));
      while true
        invariant Session(Environment(), Snapshot(sock)) == goal
        invariant effects == old(effects) + [Watchdog(LONG_TIMEOUT_MS)]
        invariant sock.closeCount == old(sock.closeCount)
        decreases Volume(sock.incoming)
      {
        ghost var w := Snapshot(sock);
        var stop, e := ServeRequest(sock);
        if stop {
          if e != Break {
            return e;
          }
          break;
        }
        RoundShrinks(Environment(), w);
      }
      ReconfigureWatchdog(DEFAULT_TIMEOUT_MS);
      CloseClient(sock);
      exit := Break;
    }

    /** The listener `loop(server)` over the accept results `results`: a
        failed accept is skipped, every other one spawns one worker. */
    method Listen(results: seq<int>)
      modifies this`spawned
      ensures spawned == old(spawned) + Accepted(results)
    {
      for i := 0 to |results|
        invariant spawned == old(spawned) + Accepted(results[..i])
      {
        assert results[..i + 1][..i] == results[..i];
        if results[i] < 0 {
          continue;
        }
        spawned := spawned + [results[i]];
      }
      assert results[..|results|] == results;
    }

    /** `PerformWarmup(warmup_runs)`. */
    method PerformWarmup(runs: int)
      modifies this`invocations, this`output, this`effects, input
      ensures input[..] == Ones(input.Length)
      ensures var u := WarmupRuns(engine, old(invocations), Ones(input.Length), if runs < 0 then 0 else runs, old(output));
        && invocations == old(invocations) + u.runs
        && output == u.output
        && effects == old(effects) + [Watchdog(LONG_TIMEOUT_MS)] + (if u.completed then [Watchdog(DEFAULT_TIMEOUT_MS)] else [])
    {
      ReconfigureWatchdog(LONG_TIMEOUT_MS);
      forall i | 0 <= i < input.Length {
        input[i] := 1;
      }
      assert input[..] == Ones(input.Length);
      var completed := WarmupLoop(runs);
      if !completed {
        return;
      }
      ReconfigureWatchdog(DEFAULT_TIMEOUT_MS);
    }

    /** The `for` loop of `PerformWarmup`: `completed` is false when it
        returns early on a failed run. */
    method WarmupLoop(runs: int) returns (completed: bool)
      modifies this`invocations, this`output
      ensures var u := WarmupRuns(engine, old(invocations), input[..], if runs < 0 then 0 else runs, old(output));
        && invocations == old(invocations) + u.runs
        && output == u.output
        && completed == u.completed
    {
      ghost var n: nat := if runs < 0 then 0 else runs;
      ghost var goal := WarmupRuns(engine, invocations, input[..], n, output);
      ghost var rest := goal;
      ghost var base := invocations;
      var i := 0;
      while i < runs
        invariant 0 <= i <= n
        invariant invocations == base + i
        invariant rest == WarmupRuns(engine, invocations, input[..], n - i, output)
        invariant goal == Warmup(i + rest.runs, rest.completed, rest.output)
      {
        ghost var inv := engine(invocations, input[..]);
        ghost var next := WarmupRuns(engine, invocations + 1, input[..], n - i - 1, output.(raw := inv.output));
        WarmupStep(engine, invocations, input[..], n - i, output);
        var ok := Invoke();
        if !ok {
          return false;
        }
        i := i + 1;
        rest := next;
      }
      return true;
    }
  }
}
