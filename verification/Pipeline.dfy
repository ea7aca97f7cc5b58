/**
 The agent's message pipeline: a read loop fills the inbound channel, one dispatcher executes
 requests and answers them, the metric forwarder shares the outbound queue, and a write loop empties
 it. Both channels drop when full. The tunnel may reconnect at any time, which adds a read and a
 write loop and leaves the old ones to find out.
 */
module Pipeline {
  import opened Wrappers
  import opened Sequences
  import SafeMode
  import Outbound

  const MSG_BUFFER: nat := 128

  datatype Kind = CommandRequest | CommandResponse | MetricPush | Heartbeat | Other

  /** A decoded command, and whether its signature verifies under the cloud's key. */
  datatype Request = Request(cmd: SafeMode.Command, genuine: bool)

  /**
   `request` is what the payload decodes to as a command request, if it does; `success` is what it
   says as a command response.
   */
  datatype Envelope = Envelope(kind: Kind, id: string, request: Option<Request>, success: bool)

  /** The dispatcher: between envelopes, looking at one, or about to answer one it executed. */
  datatype Stage = Idle | Holding(env: Envelope) | Answering(env: Envelope, ok: bool)

  /** A verified request that was executed, and how its dispatch went. */
  datatype Execution = Execution(id: string, cmd: SafeMode.Command, ok: bool)

  datatype State = State(
    msgChan: seq<Envelope>,
    stage: Stage,
    safe: SafeMode.State,
    out: Outbound.State<Envelope>,
    read: seq<Envelope>,  // every envelope decoded, in the order in which the read loops offer them
    executed: seq<Execution>)

  /** Not yet connected. */
  const INIT: State := State([], Idle, SafeMode.INIT, Outbound.Init<Envelope>(), [], [])

  datatype Event =
    | Receive(env: Envelope, quits: bool)  // `quits`: the client is closing, and the loop chooses to see that
    | Pick
    | Ignore                // another kind, or a request that does not decode
    | Refuse(encodes: bool) // the signature does not verify
    | Execute(ok: bool)
    | Answer(encodes: bool)
    | Forward(env: Envelope)
    | Timer(safeStep: SafeMode.Event)
    | Wire(outStep: Outbound.Event<Envelope>)

  predicate Wellformed(env: Envelope) {
    env.kind == CommandRequest && env.request.Some?
  }

  predicate Genuine(env: Envelope) {
    Wellformed(env) && env.request.value.genuine
  }

  predicate Enabled(s: State, e: Event) {
    match e
    case Receive(_, _) => true
    case Pick => s.stage == Idle && |s.msgChan| > 0
    case Ignore => s.stage.Holding? && !Wellformed(s.stage.env)
    case Refuse(_) => s.stage.Holding? && Wellformed(s.stage.env) && !Genuine(s.stage.env)
    case Execute(ok) =>
      s.stage.Holding? && Genuine(s.stage.env)
      && SafeMode.Enabled(s.safe, SafeMode.Run(s.stage.env.request.value.cmd, ok))
    case Answer(_) => s.stage.Answering?
    case Forward(env) => env.kind == MetricPush
    case Timer(step) => !step.Run? && SafeMode.Enabled(s.safe, step)
    case Wire(step) => !step.Send? && Outbound.Enabled(s.out, step)
  }

  function ResponseTo(env: Envelope, success: bool): Envelope {
    Envelope(CommandResponse, env.id, None, success)
  }

  function Sending(s: State, env: Envelope): State {
    s.(out := Outbound.Step(s.out, Outbound.Send(env)))
  }

  function Step(s: State, e: Event): State
    requires Enabled(s, e)
  {
    match e
    case Receive(env, quits) =>
      s.(read := s.read + [env],
         msgChan := if |s.msgChan| < MSG_BUFFER && !quits then s.msgChan + [env] else s.msgChan)
    case Pick => s.(stage := Holding(s.msgChan[0]), msgChan := s.msgChan[1..])
    case Ignore => s.(stage := Idle)
    case Refuse(encodes) =>
      var s1 := s.(stage := Idle);
      if encodes then Sending(s1, ResponseTo(s.stage.env, false)) else s1
    case Execute(ok) =>
      s.(stage := Answering(s.stage.env, ok),
         executed := s.executed + [Execution(s.stage.env.id, s.stage.env.request.value.cmd, ok)],
         safe := SafeMode.Step(s.safe, SafeMode.Run(s.stage.env.request.value.cmd, ok)))
    case Answer(encodes) =>
      var s1 := s.(stage := Idle);
      if encodes then Sending(s1, ResponseTo(s.stage.env, s.stage.ok)) else s1
    case Forward(env) => Sending(s, env)
    case Timer(step) => s.(safe := SafeMode.Step(s.safe, step))
    case Wire(step) => s.(out := Outbound.Step(s.out, step))
  }

  /** Executing the command in hand; if that arms a rollback, its timer is created and registered before the answer. */
  function Armed(s: State, ok: bool): (s': State)
    requires Enabled(s, Execute(ok))
    ensures s'.stage == Answering(s.stage.env, ok)
  {
    var ran := Step(s, Execute(ok));
    if ok && SafeMode.Arms(s.stage.env.request.value.cmd) then
      var created := Step(ran, Timer(SafeMode.CreateTimer(|s.safe.waiting|)));
      Step(created, Timer(SafeMode.Register(|s.safe.armings|)))
    else ran
  }

  // ---------- Projections ----------

  /** `f` of every element, joined. */
  function Gather<T, U>(f: T -> seq<U>, a: seq<T>): seq<U> {
    if a == [] then [] else f(a[0]) + Gather(f, a[1..])
  }

  lemma {:induction false} GatherConcat<T, U>(f: T -> seq<U>, a: seq<T>, b: seq<T>)
    ensures Gather(f, a + b) == Gather(f, a) + Gather(f, b)
    decreases |a|
  {
    if a == [] {
      assert a + b == b;
    } else {
      assert (a + b)[1..] == a[1..] + b;
      GatherConcat(f, a[1..], b);
    }
  }

  lemma GatherOne<T, U>(f: T -> seq<U>, a: seq<T>, x: T)
    ensures Gather(f, [x]) == f(x)
    ensures Gather(f, a + [x]) == Gather(f, a) + f(x)
    ensures Gather(f, [x] + a) == f(x) + Gather(f, a)
  {
    assert [x][1..] == [];
    assert Gather(f, [x]) == f(x) + [];
    GatherConcat(f, a, [x]);
    GatherConcat(f, [x], a);
  }

  /** Where in the joined sequence the part of `a[i]` starts. */
  function Position<T, U>(f: T -> seq<U>, a: seq<T>, i: nat): nat
    requires i <= |a|
  {
    |Gather(f, a[..i])|
  }

  lemma GatherAt<T, U>(f: T -> seq<U>, a: seq<T>, i: nat)
    requires i < |a| && |f(a[i])| == 1
    ensures Position(f, a, i) < |Gather(f, a)| && Gather(f, a)[Position(f, a, i)] == f(a[i])[0]
  {
    assert a == a[..i] + ([a[i]] + a[i + 1..]);
    GatherConcat(f, a[..i], [a[i]] + a[i + 1..]);
    GatherOne(f, a[i + 1..], a[i]);
  }

  lemma PositionGrows<T, U>(f: T -> seq<U>, a: seq<T>, i: nat, j: nat)
    requires i <= j <= |a|
    ensures Position(f, a, i) <= Position(f, a, j)
    ensures i < j && |f(a[i])| == 1 ==> Position(f, a, i) < Position(f, a, j)
  {
    assert a[..j] == a[..i] + a[i..j];
    GatherConcat(f, a[..i], a[i..j]);
    if i < j {
      assert a[i..j] == [a[i]] + a[i + 1..j];
      GatherOne(f, a[i + 1..j], a[i]);
    }
  }

  /** Which element an entry of the joined sequence comes from. */
  lemma {:induction false} GatherFrom<T, U>(f: T -> seq<U>, a: seq<T>, p: nat) returns (i: nat)
    requires p < |Gather(f, a)| && forall k :: 0 <= k < |a| ==> |f(a[k])| <= 1
    ensures i < |a| && |f(a[i])| == 1 && f(a[i])[0] == Gather(f, a)[p] && Position(f, a, i) == p
    decreases |a|
  {
    if a == [] {
      assert false;
    } else {
      var n := |a| - 1;
      assert a == a[..n] + [a[n]];
      GatherOne(f, a[..n], a[n]);
      if p < |Gather(f, a[..n])| {
        i := GatherFrom(f, a[..n], p);
        assert a[..n][..i] == a[..i];
      } else {
        i := n;
      }
    }
  }

  /** `m` leads each element of `a` that counts to one of `b` that says the same, later ones to later ones. */
  ghost predicate Matches<S, T, U>(m: seq<nat>, f: S -> seq<U>, a: seq<S>, g: T -> seq<U>, b: seq<T>) {
    && |m| == |a|
    && (forall i :: 0 <= i < |a| && |f(a[i])| == 1 ==> m[i] < |b| && |g(b[m[i]])| == 1 && g(b[m[i]])[0] == f(a[i])[0])
    && (forall i, j :: 0 <= i < j < |a| && |f(a[i])| == 1 && |f(a[j])| == 1 ==> m[i] < m[j])
  }

  lemma MatchElements<S, T, U>(f: S -> seq<U>, a: seq<S>, g: T -> seq<U>, b: seq<T>) returns (m: seq<nat>)
    requires Subsequence(Gather(f, a), Gather(g, b))
    requires forall k :: 0 <= k < |b| ==> |g(b[k])| <= 1
    ensures Matches(m, f, a, g, b)
  {
    var e := SubsequenceEmbeds(Gather(f, a), Gather(g, b));
    hide Gather, Subsequence;
    m := [];
    while |m| < |a|
      invariant |m| <= |a|
      invariant forall i :: 0 <= i < |m| && |f(a[i])| == 1 ==>
                  && Position(f, a, i) < |e| && m[i] < |b| && |g(b[m[i]])| == 1
                  && g(b[m[i]])[0] == f(a[i])[0] && Position(g, b, m[i]) == e[Position(f, a, i)]
    {
      var i := |m|;
      if |f(a[i])| == 1 {
        GatherAt(f, a, i);
        var k := GatherFrom(g, b, e[Position(f, a, i)]);
        m := m + [k];
      } else {
        m := m + [0];
      }
    }
    forall i, j | 0 <= i < j < |a| && |f(a[i])| == 1 && |f(a[j])| == 1 ensures m[i] < m[j] {
      PositionGrows(f, a, i, j);
      if m[j] <= m[i] { PositionGrows(g, b, m[j], m[i]); }
    }
  }

  const REQUEST_ID: Envelope -> seq<string> := (env: Envelope) => if env.kind == CommandRequest then [env.id] else []

  const RESPONSE_ID: Envelope -> seq<string> := (env: Envelope) => if env.kind == CommandResponse then [env.id] else []

  const VERIFIED: Envelope -> seq<(string, SafeMode.Command)> := (env: Envelope) =>
    if Genuine(env) then [(env.id, env.request.value.cmd)] else []

  const EXECUTED: Execution -> seq<(string, SafeMode.Command)> := (x: Execution) => [(x.id, x.cmd)]

  // ---------- Responses ----------

  /** The request the dispatcher may still answer. */
  function Owed(stage: Stage): seq<string> {
    if stage == Idle then [] else REQUEST_ID(stage.env)
  }

  /** Response ids from the socket back, then the request in hand, then the requests waiting. */
  function ResponseLine(s: State): seq<string> {
    Gather(RESPONSE_ID, Outbound.Line(s.out)) + Owed(s.stage) + Gather(REQUEST_ID, s.msgChan)
  }

  ghost predicate ResponsesInOrder(s: State) {
    && (s.stage.Answering? ==> s.stage.env.kind == CommandRequest)
    && Subsequence(ResponseLine(s), Gather(REQUEST_ID, s.read))
  }

  /** What sending does to the outbound line: the envelope joins its end or is refused. */
  lemma SendLine(s: State, env: Envelope)
    ensures var line, line' := Outbound.Line(s.out), Outbound.Line(Sending(s, env).out);
            line' == line || line' == line + [env]
  {
    Outbound.LineSend(s.out, env);
  }

  lemma AnswerKeepsOrder(s: State, encodes: bool, success: bool)
    requires ResponsesInOrder(s) && s.stage != Idle && s.stage.env.kind == CommandRequest
    ensures var s1 := s.(stage := Idle);
            ResponsesInOrder(if encodes then Sending(s1, ResponseTo(s.stage.env, success)) else s1)
  {
    hide Subsequence, Gather;
    var s1 := s.(stage := Idle);
    var front, back := Gather(RESPONSE_ID, Outbound.Line(s.out)), Gather(REQUEST_ID, s.msgChan);
    var response := ResponseTo(s.stage.env, success);
    assert Owed(s.stage) == RESPONSE_ID(response) == [s.stage.env.id];
    SubsequenceCut(front, Owed(s.stage), back, Gather(REQUEST_ID, s.read));
    assert front + [] + back == front + back;
    if encodes {
      SendLine(s1, response);
      GatherOne(RESPONSE_ID, Outbound.Line(s.out), response);
      assert front + [s.stage.env.id] + [] + back == front + [s.stage.env.id] + back;
    }
  }

  lemma WireKeepsResponses(s: State, step: Outbound.Event<Envelope>)
    requires ResponsesInOrder(s) && Enabled(s, Wire(step))
    ensures ResponsesInOrder(Step(s, Wire(step)))
  {
    hide Subsequence, Gather, Outbound.Line, Outbound.Step, Outbound.Enabled;
    var front, cut, back := Outbound.LineShrinks(s.out, step);
    GatherConcat(RESPONSE_ID, front + cut, back);
    GatherConcat(RESPONSE_ID, front, cut);
    GatherConcat(RESPONSE_ID, front, back);
    var requests := Owed(s.stage) + Gather(REQUEST_ID, s.msgChan);
    var before, gone := Gather(RESPONSE_ID, front), Gather(RESPONSE_ID, cut);
    var after := Gather(RESPONSE_ID, back) + requests;
    assert ResponseLine(s) == before + gone + after;
    SubsequenceCut(before, gone, after, Gather(REQUEST_ID, s.read));
    assert ResponseLine(Step(s, Wire(step))) == before + after;
  }

  lemma ReceiveKeepsResponses(s: State, env: Envelope, quits: bool)
    requires ResponsesInOrder(s)
    ensures ResponsesInOrder(Step(s, Receive(env, quits)))
  {
    hide Subsequence, Gather, Outbound.Line;
    var front, back := Gather(RESPONSE_ID, Outbound.Line(s.out)), Gather(REQUEST_ID, s.msgChan);
    var line, requests := ResponseLine(s), Gather(REQUEST_ID, s.read);
    GatherOne(REQUEST_ID, s.read, env);
    GatherOne(REQUEST_ID, s.msgChan, env);
    if env.kind == CommandRequest {
      SubsequenceSnoc(line, requests, env.id);
      assert front + Owed(s.stage) + (back + [env.id]) == line + [env.id];
    } else {
      assert requests + [] == requests && back + [] == back;
    }
  }

  lemma PickKeepsResponses(s: State)
    requires ResponsesInOrder(s) && Enabled(s, Pick)
    ensures ResponsesInOrder(Step(s, Pick))
  {
    hide Subsequence, Gather, Outbound.Line;
    var front, env, others := Gather(RESPONSE_ID, Outbound.Line(s.out)), s.msgChan[0], s.msgChan[1..];
    GatherOne(REQUEST_ID, others, env);
    assert s.msgChan == [env] + others;
    assert front + [] + (REQUEST_ID(env) + Gather(REQUEST_ID, others))
        == front + REQUEST_ID(env) + Gather(REQUEST_ID, others);
  }

  lemma ForwardKeepsResponses(s: State, env: Envelope)
    requires ResponsesInOrder(s) && env.kind == MetricPush
    ensures ResponsesInOrder(Step(s, Forward(env)))
  {
    hide Subsequence, Gather, Outbound.Line, Outbound.Step;
    var front := Gather(RESPONSE_ID, Outbound.Line(s.out));
    SendLine(s, env);
    GatherOne(RESPONSE_ID, Outbound.Line(s.out), env);
    assert front + [] == front;
  }

  lemma StageKeepsResponses(s: State, e: Event)
    requires ResponsesInOrder(s) && Enabled(s, e) && (e.Ignore? || e.Execute? || e.Timer?)
    ensures ResponsesInOrder(Step(s, e))
  {
    hide Subsequence, Gather, Outbound.Line, Outbound.Step, SafeMode.Step;
    var front, back := Gather(RESPONSE_ID, Outbound.Line(s.out)), Gather(REQUEST_ID, s.msgChan);
    if e.Ignore? {
      SubsequenceCut(front, Owed(s.stage), back, Gather(REQUEST_ID, s.read));
      assert front + [] + back == front + back;
    }
  }

  lemma ReplyingKeepsResponses(s: State, e: Event)
    requires ResponsesInOrder(s) && Enabled(s, e) && (e.Refuse? || e.Answer?)
    ensures ResponsesInOrder(Step(s, e))
  {
    assert s.stage.env.kind == CommandRequest;
    hide ResponsesInOrder, Sending;
    AnswerKeepsOrder(s, e.encodes, s.stage.Answering? && s.stage.ok);
  }

  lemma ResponsesStep(s: State, e: Event)
    requires ResponsesInOrder(s) && Enabled(s, e)
    ensures ResponsesInOrder(Step(s, e))
  {
    hide ResponsesInOrder, Step;
    match e
    case Receive(env, quits) => ReceiveKeepsResponses(s, env, quits);
    case Pick => PickKeepsResponses(s);
    case Forward(env) => ForwardKeepsResponses(s, env);
    case Refuse(_) => ReplyingKeepsResponses(s, e);
    case Answer(_) => ReplyingKeepsResponses(s, e);
    case Wire(step) => WireKeepsResponses(s, step);
    case _ => StageKeepsResponses(s, e);
  }

  // ---------- Dispatches ----------

  /** Requests already executed, the one in hand, and those waiting, each with its id. */
  function DispatchLine(s: State): seq<(string, SafeMode.Command)> {
    Gather(EXECUTED, s.executed) + (if s.stage.Holding? then VERIFIED(s.stage.env) else [])
    + Gather(VERIFIED, s.msgChan)
  }

  ghost predicate DispatchesInOrder(s: State) {
    Subsequence(DispatchLine(s), Gather(VERIFIED, s.read))
  }

  lemma DispatchesStep(s: State, e: Event)
    requires DispatchesInOrder(s) && Enabled(s, e)
    ensures DispatchesInOrder(Step(s, e))
  {
    hide Subsequence, Gather, Outbound.Line, Outbound.Step, SafeMode.Step;
    var front, back := Gather(EXECUTED, s.executed), Gather(VERIFIED, s.msgChan);
    var verified := Gather(VERIFIED, s.read);
    match e
    case Receive(env, _) =>
      GatherOne(VERIFIED, s.read, env);
      GatherOne(VERIFIED, s.msgChan, env);
      var line := DispatchLine(s);
      if Genuine(env) {
        SubsequenceSnoc(line, verified, (env.id, env.request.value.cmd));
        var held := if s.stage.Holding? then VERIFIED(s.stage.env) else [];
        assert front + held + (back + VERIFIED(env)) == line + VERIFIED(env);
      } else {
        assert verified + [] == verified && back + [] == back;
      }
    case Pick =>
      var env := s.msgChan[0];
      GatherOne(VERIFIED, s.msgChan[1..], env);
      assert s.msgChan == [env] + s.msgChan[1..];
      assert front + [] + (VERIFIED(env) + Gather(VERIFIED, s.msgChan[1..]))
          == front + VERIFIED(env) + Gather(VERIFIED, s.msgChan[1..]);
    case Execute(ok) =>
      var x := Execution(s.stage.env.id, s.stage.env.request.value.cmd, ok);
      GatherOne(EXECUTED, s.executed, x);
      assert front + EXECUTED(x) + back == front + EXECUTED(x) + [] + back;
    case _ =>
  }

  // ---------- What a response claims ----------

  const SUCCESS_ID: Envelope -> seq<string> := (env: Envelope) =>
    if env.kind == CommandResponse && env.success then [env.id] else []

  const SUCCEEDED_ID: Execution -> seq<string> := (x: Execution) => if x.ok then [x.id] else []

  const RUN: Execution -> seq<(SafeMode.Command, bool)> := (x: Execution) => [(x.cmd, x.ok)]

  const LOGGED: SafeMode.Entry -> seq<(SafeMode.Command, bool)> := (entry: SafeMode.Entry) =>
    if entry.Ran? then [(entry.cmd, entry.ok)] else []

  /** The success the dispatcher is about to report. */
  function Earned(stage: Stage): seq<string> {
    if stage.Answering? && stage.ok then [stage.env.id] else []
  }

  /** Successes reported, from the socket back. */
  function SuccessLine(s: State): seq<string> {
    Gather(SUCCESS_ID, Outbound.Line(s.out)) + Earned(s.stage)
  }

  ghost predicate SuccessesInOrder(s: State) {
    Subsequence(SuccessLine(s), Gather(SUCCEEDED_ID, s.executed))
  }

  /** Executions and the router's log tell the same dispatches, in the same order and with the same results. */
  ghost predicate ExecutionsLogged(s: State) {
    Gather(RUN, s.executed) == Gather(LOGGED, s.safe.log)
  }

  lemma LoggedStep(s: State, e: Event)
    requires ExecutionsLogged(s) && Enabled(s, e)
    ensures ExecutionsLogged(Step(s, e))
  {
    hide Gather, Outbound.Step;
    match e
    case Execute(ok) =>
      var cmd := s.stage.env.request.value.cmd;
      GatherOne(RUN, s.executed, Execution(s.stage.env.id, cmd, ok));
      GatherOne(LOGGED, s.safe.log, SafeMode.Ran(cmd, ok));
    case Timer(step) =>
      if step.RollbackDispatch? {
        var cmd := s.safe.armings[step.a].cmd;
        GatherOne(LOGGED, s.safe.log, SafeMode.Rollback(step.a, cmd.kind, cmd.rollback));
        assert Gather(LOGGED, s.safe.log) + [] == Gather(LOGGED, s.safe.log);
      }
    case _ =>
  }

  /** Sending an envelope adds what it claims to the line, or nothing. */
  lemma SendClaims(s: State, env: Envelope)
    ensures var before := Gather(SUCCESS_ID, Outbound.Line(s.out));
            var after := Gather(SUCCESS_ID, Outbound.Line(Sending(s, env).out));
            after == before || after == before + SUCCESS_ID(env)
  {
    hide Gather, Outbound.Line;
    SendLine(s, env);
    GatherOne(SUCCESS_ID, Outbound.Line(s.out), env);
  }

  lemma ReplyingKeepsSuccesses(s: State, e: Event)
    requires SuccessesInOrder(s) && Enabled(s, e) && (e.Refuse? || e.Answer?)
    ensures SuccessesInOrder(Step(s, e))
  {
    hide Subsequence, Gather, Outbound.Line;
    var s1 := s.(stage := Idle);
    var line, successes := Gather(SUCCESS_ID, Outbound.Line(s.out)), Gather(SUCCEEDED_ID, s.executed);
    var response := ResponseTo(s.stage.env, s.stage.Answering? && s.stage.ok);
    assert SUCCESS_ID(response) == Earned(s.stage);
    assert line + Earned(s.stage) + [] == line + Earned(s.stage);
    SubsequenceCut(line, Earned(s.stage), [], successes);
    SendClaims(s1, response);
  }

  lemma WireKeepsSuccesses(s: State, step: Outbound.Event<Envelope>)
    requires SuccessesInOrder(s) && Enabled(s, Wire(step))
    ensures SuccessesInOrder(Step(s, Wire(step)))
  {
    hide Subsequence, Gather, Outbound.Line, Outbound.Step, Outbound.Enabled;
    var front, cut, back := Outbound.LineShrinks(s.out, step);
    GatherConcat(SUCCESS_ID, front + cut, back);
    GatherConcat(SUCCESS_ID, front, cut);
    GatherConcat(SUCCESS_ID, front, back);
    var before, gone := Gather(SUCCESS_ID, front), Gather(SUCCESS_ID, cut);
    var after := Gather(SUCCESS_ID, back) + Earned(s.stage);
    assert SuccessLine(s) == before + gone + after;
    SubsequenceCut(before, gone, after, Gather(SUCCEEDED_ID, s.executed));
    assert SuccessLine(Step(s, Wire(step))) == before + after;
  }

  lemma StageKeepsSuccesses(s: State, e: Event)
    requires SuccessesInOrder(s) && Enabled(s, e) && !e.Refuse? && !e.Answer? && !e.Wire?
    ensures SuccessesInOrder(Step(s, e))
  {
    hide Subsequence, Gather, Outbound.Line, SafeMode.Step;
    var line, successes := Gather(SUCCESS_ID, Outbound.Line(s.out)), Gather(SUCCEEDED_ID, s.executed);
    match e
    case Execute(ok) =>
      var x := Execution(s.stage.env.id, s.stage.env.request.value.cmd, ok);
      GatherOne(SUCCEEDED_ID, s.executed, x);
      assert line + [] == line && successes + [] == successes;
      SubsequenceSnoc(line, successes, x.id);
    case Forward(env) =>
      SendClaims(s, env);
      assert line + [] == line;
    case _ =>
  }

  lemma SuccessesStep(s: State, e: Event)
    requires SuccessesInOrder(s) && Enabled(s, e)
    ensures SuccessesInOrder(Step(s, e))
  {
    hide SuccessesInOrder, Step;
    match e
    case Refuse(_) => ReplyingKeepsSuccesses(s, e);
    case Answer(_) => ReplyingKeepsSuccesses(s, e);
    case Wire(step) => WireKeepsSuccesses(s, step);
    case _ => StageKeepsSuccesses(s, e);
  }

  // ---------- The agent object ----------

  ghost predicate InOrder(s: State) {
    ResponsesInOrder(s) && DispatchesInOrder(s) && SuccessesInOrder(s) && ExecutionsLogged(s)
  }

  lemma InOrderStep(s: State, e: Event)
    requires Enabled(s, e)
    ensures InOrder(s) ==> InOrder(Step(s, e))
  {
    hide Step, Enabled, ResponsesInOrder, DispatchesInOrder, SuccessesInOrder, ExecutionsLogged;
    if InOrder(s) {
      ResponsesStep(s, e);
      DispatchesStep(s, e);
      SuccessesStep(s, e);
      LoggedStep(s, e);
    }
  }

  /** The agent between steps of its goroutines; each method is what one of them does uninterrupted. */
  class Agent {
    var msgChan: seq<Envelope>
    var stage: Stage
    ghost var read: seq<Envelope>
    ghost var executed: seq<Execution>
    const tunnel: Outbound.TunnelClient<Envelope>
    const executor: SafeMode.Executor

    ghost function Snapshot(): State
      reads this, tunnel, executor
    {
      State(msgChan, stage, executor.Snapshot(), tunnel.Snapshot(), read, executed)
    }

    constructor ()
      ensures fresh(tunnel) && fresh(executor)
      ensures Snapshot() == INIT && InOrder(Snapshot())
    {
      msgChan, stage, read, executed := [], Idle, [], [];
      tunnel := new Outbound.TunnelClient();
      executor := new SafeMode.Executor();
      new;
      InitInOrder();
    }

    /**
     `readLoop` with a decoded envelope: never blocks. It drops it when 128 are waiting, and may also give
     it up when the client is closing.
     */
    method Deliver(env: Envelope, quits: bool)
      requires quits ==> tunnel.closed
      modifies this`msgChan, this`read
      ensures Snapshot() == Step(old(Snapshot()), Receive(env, quits))
      ensures msgChan == old(msgChan) + if |old(msgChan)| < 128 && !quits then [env] else []
      ensures read == old(read) + [env]
      ensures old(InOrder(Snapshot())) ==> InOrder(Snapshot())
    {
      InOrderStep(Snapshot(), Receive(env, quits));
      read := read + [env];
      if quits { return; }
      if |msgChan| < MSG_BUFFER { msgChan := msgChan + [env]; }
    }

    /** `dispatchLoop` takes the envelope that has waited longest. */
    method TakeMessage()
      requires Enabled(Snapshot(), Pick)
      modifies this`msgChan, this`stage
      ensures Snapshot() == Step(old(Snapshot()), Pick)
      ensures stage.Holding? && old(msgChan) == [stage.env] + msgChan
      ensures old(InOrder(Snapshot())) ==> InOrder(Snapshot())
    {
      InOrderStep(Snapshot(), Pick);
      stage := Holding(msgChan[0]);
      msgChan := msgChan[1..];
    }

    /** `handleEnvelope` with the envelope in hand, as the dispatcher's steps one after the other. */
    method HandleEnvelope(ok: bool, encodes: bool)
      requires stage.Holding? && SafeMode.InRange(executor.Snapshot())
      modifies this`stage, this`executed, tunnel, executor
      ensures Snapshot() == Handled(old(Snapshot()), ok, encodes)
      ensures old(InOrder(Snapshot())) ==> InOrder(Snapshot())
      ensures stage == Idle && tunnel.written == old(tunnel.written)
      ensures var env := old(stage).env;
              if env.kind != CommandRequest || env.request.None? then
                && executor.Snapshot() == old(executor.Snapshot()) && executed == old(executed)
                && tunnel.outChan == old(tunnel.outChan)
              else if !env.request.value.genuine then
                && executor.Snapshot() == old(executor.Snapshot()) && executed == old(executed)
                && tunnel.outChan == old(tunnel.outChan)
                   + (if encodes && |old(tunnel.outChan)| < 64 then [Envelope(CommandResponse, env.id, None, false)]
                      else [])
              else
                && executor.log == old(executor.log) + [SafeMode.Ran(env.request.value.cmd, ok)]
                && executed == old(executed) + [Execution(env.id, env.request.value.cmd, ok)]
                && tunnel.outChan == old(tunnel.outChan)
                   + if encodes && |old(tunnel.outChan)| < 64 then [Envelope(CommandResponse, env.id, None, ok)] else []
      ensures var env, known := old(stage).env, |old(executor.armings)|;
              if env.kind == CommandRequest && env.request.Some? && env.request.value.genuine
                 && ok && env.request.value.cmd.safeMode && env.request.value.cmd.ttl > 0
                 && |env.request.value.cmd.rollback| > 0
              then
                && executor.pendingAcks == old(executor.pendingAcks)[env.request.value.cmd.key := known]
                && |executor.armings| == known + 1
                && executor.armings[known] == SafeMode.Arming(env.request.value.cmd, SafeMode.Running, SafeMode.Pending)
              else executor.pendingAcks == old(executor.pendingAcks) && executor.armings == old(executor.armings)
    {
      HandledInOrder(Snapshot(), ok, encodes);
      HandledParts(Snapshot(), ok, encodes);
      hide InOrder, Handled, SafeMode.Step, Outbound.Step;
      var env := stage.env;
      stage := Idle;
      if env.kind != CommandRequest || env.request.None? { return; }
      if !env.request.value.genuine {
        if encodes {
          var sent := tunnel.SendEnvelope(ResponseTo(env, false));
        }
        return;
      }
      var response := executor.ExecuteWithSafeMode(env.request.value.cmd, ok);
      executed := executed + [Execution(env.id, env.request.value.cmd, response.success)];
      if !encodes { return; }
      var sent := tunnel.SendEnvelope(ResponseTo(env, response.success));
    }

    /** `metricForwardLoop` with an envelope it could encode. */
    method ForwardMetric(env: Envelope)
      requires env.kind == MetricPush
      modifies tunnel
      ensures Snapshot() == Step(old(Snapshot()), Forward(env))
      ensures tunnel.outChan == old(tunnel.outChan) + if |old(tunnel.outChan)| < 64 then [env] else []
      ensures old(InOrder(Snapshot())) ==> InOrder(Snapshot())
    {
      InOrderStep(Snapshot(), Forward(env));
      var sent := tunnel.SendEnvelope(env);
    }
  }

  /** The whole of `handleEnvelope`. */
  function Handled(s: State, ok: bool, encodes: bool): State
    requires s.stage.Holding? && SafeMode.InRange(s.safe)
  {
    if !Wellformed(s.stage.env) then Step(s, Ignore)
    else if !Genuine(s.stage.env) then Step(s, Refuse(encodes))
    else Step(Armed(s, ok), Answer(encodes))
  }

  /** Its effect, component by component. */
  lemma HandledParts(s: State, ok: bool, encodes: bool)
    requires s.stage.Holding? && SafeMode.InRange(s.safe)
    ensures var s', env := Handled(s, ok, encodes), s.stage.env;
            && s'.msgChan == s.msgChan && s'.stage == Idle && s'.read == s.read
            && s'.out == (if Wellformed(env) && encodes
                          then Outbound.Step(s.out, Outbound.Send(ResponseTo(env, Genuine(env) && ok))) else s.out)
            && s'.executed == s.executed + (if Genuine(env) then [Execution(env.id, env.request.value.cmd, ok)] else [])
            && s'.safe == if Genuine(env) then Executed(s.safe, env.request.value.cmd, ok) else s.safe
  {
    hide SafeMode.Step, Outbound.Step;
  }

  function Executed(safe: SafeMode.State, cmd: SafeMode.Command, ok: bool): SafeMode.State
    requires SafeMode.InRange(safe)
  {
    var ran := SafeMode.Step(safe, SafeMode.Run(cmd, ok));
    if ok && SafeMode.Arms(cmd) then
      SafeMode.Step(SafeMode.Step(ran, SafeMode.CreateTimer(|safe.waiting|)), SafeMode.Register(|safe.armings|))
    else ran
  }

  lemma HandledInOrder(s: State, ok: bool, encodes: bool)
    requires s.stage.Holding? && SafeMode.InRange(s.safe)
    ensures InOrder(s) ==> InOrder(Handled(s, ok, encodes))
  {
    hide InOrder;
    if !Wellformed(s.stage.env) {
      InOrderStep(s, Ignore);
    } else if !Genuine(s.stage.env) {
      InOrderStep(s, Refuse(encodes));
    } else {
      ArmedInOrder(s, ok);
      InOrderStep(Armed(s, ok), Answer(encodes));
    }
  }

  lemma ArmedInOrder(s: State, ok: bool)
    requires Enabled(s, Execute(ok))
    ensures InOrder(s) ==> InOrder(Armed(s, ok))
  {
    hide InOrder;
    InOrderStep(s, Execute(ok));
    if ok && SafeMode.Arms(s.stage.env.request.value.cmd) {
      var ran := Step(s, Execute(ok));
      InOrderStep(ran, Timer(SafeMode.CreateTimer(|s.safe.waiting|)));
      InOrderStep(Step(ran, Timer(SafeMode.CreateTimer(|s.safe.waiting|))), Timer(SafeMode.Register(|s.safe.armings|)));
    }
  }

  // ---------- Every interleaving ----------

  ghost predicate Valid(s: State, events: seq<Event>)
    decreases |events|
  {
    events == [] || (Enabled(s, events[0]) && Valid(Step(s, events[0]), events[1..]))
  }

  ghost function After(s: State, events: seq<Event>): State
    requires Valid(s, events)
    decreases |events|
  {
    if events == [] then s else After(Step(s, events[0]), events[1..])
  }

  lemma {:induction false} RunInOrder(s: State, events: seq<Event>)
    requires InOrder(s) && Valid(s, events)
    ensures InOrder(After(s, events))
    decreases |events|
  {
    if events != [] {
      hide Step, Enabled, InOrder;
      InOrderStep(s, events[0]);
      RunInOrder(Step(s, events[0]), events[1..]);
    }
  }

  lemma WrittenInOrder(s: State)
    requires ResponsesInOrder(s)
    ensures Subsequence(Gather(RESPONSE_ID, s.out.written), Gather(REQUEST_ID, s.read))
  {
    hide Subsequence, Gather, Owed;
    var later := Outbound.NewestHand(s.out) + s.out.queue;
    assert Outbound.Line(s.out) == s.out.written + later;
    GatherConcat(RESPONSE_ID, s.out.written, later);
    var written := Gather(RESPONSE_ID, s.out.written);
    var others := Gather(RESPONSE_ID, later) + Owed(s.stage) + Gather(REQUEST_ID, s.msgChan);
    assert ResponseLine(s) == written + others;
    SubsequencePrefix(written, others, Gather(REQUEST_ID, s.read));
  }

  lemma ExecutedInOrder(s: State)
    requires DispatchesInOrder(s)
    ensures Subsequence(Gather(EXECUTED, s.executed), Gather(VERIFIED, s.read))
  {
    hide Subsequence, Gather;
    var others := (if s.stage.Holding? then VERIFIED(s.stage.env) else []) + Gather(VERIFIED, s.msgChan);
    assert DispatchLine(s) == Gather(EXECUTED, s.executed) + others;
    SubsequencePrefix(Gather(EXECUTED, s.executed), others, Gather(VERIFIED, s.read));
  }

  /** A request whose signature verifies. */
  ghost predicate VerifiedAt(read: seq<Envelope>, r: nat, id: string, cmd: SafeMode.Command) {
    && r < |read| && read[r].kind == CommandRequest && read[r].request == Some(Request(cmd, true))
    && read[r].id == id
  }

  /**
   Over every interleaving, reconnections included, each response written to a socket answers a request
   of its own, with its id, and responses come in the order in which their requests were read.
   */
  lemma PipelineOrder(events: seq<Event>) returns (requestOf: seq<nat>)
    requires Valid(INIT, events)
    ensures var s := After(INIT, events);
            var written := s.out.written;
            && |requestOf| == |written|
            && (forall i :: 0 <= i < |written| && written[i].kind == CommandResponse ==>
                  && requestOf[i] < |s.read| && s.read[requestOf[i]].kind == CommandRequest
                  && s.read[requestOf[i]].id == written[i].id)
            && (forall i, j :: 0 <= i < j < |written| && written[i].kind == written[j].kind == CommandResponse ==>
                  requestOf[i] < requestOf[j])
  {
    InitInOrder();
    RunInOrder(INIT, events);
    hide Valid, After, DispatchesInOrder, SuccessesInOrder;
    requestOf := ResponsesMatch(After(INIT, events));
  }

  lemma ResponsesMatch(s: State) returns (m: seq<nat>)
    requires ResponsesInOrder(s)
    ensures |m| == |s.out.written|
    ensures forall i :: 0 <= i < |m| && s.out.written[i].kind == CommandResponse ==>
              && m[i] < |s.read| && s.read[m[i]].kind == CommandRequest
              && s.read[m[i]].id == s.out.written[i].id
    ensures forall i, j :: 0 <= i < j < |m| && s.out.written[i].kind == s.out.written[j].kind == CommandResponse ==>
              m[i] < m[j]
  {
    WrittenInOrder(s);
    hide Subsequence, Gather, ResponsesInOrder;
    m := MatchElements(RESPONSE_ID, s.out.written, REQUEST_ID, s.read);
  }

  /**
   Over every interleaving each execution is of a request of its own that was read and whose signature
   verified, with its id and command, in the order read; and the commands dispatched to the router are
   exactly the executions, in their order and with their results.
   */
  lemma ExecutionOrder(events: seq<Event>) returns (requestOf: seq<nat>, executionOf: seq<nat>, ranAt: seq<nat>)
    requires Valid(INIT, events)
    ensures var s := After(INIT, events);
            var log := s.safe.log;
            && |requestOf| == |s.executed|
            && (forall k :: 0 <= k < |s.executed| ==>
                  VerifiedAt(s.read, requestOf[k], s.executed[k].id, s.executed[k].cmd))
            && (forall k, l :: 0 <= k < l < |s.executed| ==> requestOf[k] < requestOf[l])
            && |executionOf| == |log| && |ranAt| == |s.executed|
            && (forall i :: 0 <= i < |log| && log[i].Ran? ==>
                  && executionOf[i] < |s.executed|
                  && log[i] == SafeMode.Ran(s.executed[executionOf[i]].cmd, s.executed[executionOf[i]].ok))
            && (forall i, j :: 0 <= i < j < |log| && log[i].Ran? && log[j].Ran? ==> executionOf[i] < executionOf[j])
            && (forall k :: 0 <= k < |s.executed| ==>
                  ranAt[k] < |log| && log[ranAt[k]].Ran? && executionOf[ranAt[k]] == k)
  {
    InitInOrder();
    RunInOrder(INIT, events);
    hide Valid, After, ResponsesInOrder, SuccessesInOrder, DispatchesInOrder, ExecutionsLogged, VerifiedAt;
    requestOf := ExecutionsMatch(After(INIT, events));
    executionOf, ranAt := DispatchesMatch(After(INIT, events));
  }

  lemma ExecutionsMatch(s: State) returns (m: seq<nat>)
    requires DispatchesInOrder(s)
    ensures |m| == |s.executed|
    ensures forall k :: 0 <= k < |m| ==> VerifiedAt(s.read, m[k], s.executed[k].id, s.executed[k].cmd)
    ensures forall k, l :: 0 <= k < l < |m| ==> m[k] < m[l]
  {
    ExecutedInOrder(s);
    hide Subsequence, Gather, DispatchesInOrder;
    m := MatchElements(EXECUTED, s.executed, VERIFIED, s.read);
    assert forall k :: 0 <= k < |s.executed| ==> |EXECUTED(s.executed[k])| == 1;
  }

  lemma DispatchesMatch(s: State) returns (m: seq<nat>, back: seq<nat>)
    requires ExecutionsLogged(s)
    ensures |m| == |s.safe.log| && |back| == |s.executed|
    ensures forall i :: 0 <= i < |m| && s.safe.log[i].Ran? ==>
              m[i] < |s.executed| && s.safe.log[i] == SafeMode.Ran(s.executed[m[i]].cmd, s.executed[m[i]].ok)
    ensures forall i, j :: 0 <= i < j < |m| && s.safe.log[i].Ran? && s.safe.log[j].Ran? ==> m[i] < m[j]
    ensures forall k :: 0 <= k < |back| ==> back[k] < |m| && s.safe.log[back[k]].Ran? && m[back[k]] == k
  {
    var log, executed := s.safe.log, s.executed;
    RunLength(executed);
    hide Gather;
    m := seq(|log|, i requires 0 <= i < |log| => Position(LOGGED, log, i));
    forall i | 0 <= i < |log| && log[i].Ran?
      ensures m[i] < |executed| && log[i] == SafeMode.Ran(executed[m[i]].cmd, executed[m[i]].ok)
    {
      GatherAt(LOGGED, log, i);
    }
    forall i, j | 0 <= i < j < |log| && log[i].Ran? && log[j].Ran? ensures m[i] < m[j] {
      PositionGrows(LOGGED, log, i, j);
    }
    back := [];
    while |back| < |executed|
      invariant |back| <= |executed|
      invariant forall k :: 0 <= k < |back| ==> back[k] < |m| && log[back[k]].Ran? && m[back[k]] == k
    {
      var i := GatherFrom(LOGGED, log, |back|);
      back := back + [i];
    }
  }

  lemma {:induction false} RunLength(executed: seq<Execution>)
    ensures |Gather(RUN, executed)| == |executed|
    ensures forall k :: 0 <= k < |executed| ==> Gather(RUN, executed)[k] == (executed[k].cmd, executed[k].ok)
  {
    if executed != [] {
      RunLength(executed[1..]);
    }
  }

  lemma InitInOrder()
    ensures InOrder(INIT)
  {
    assert Outbound.Line(INIT.out) == [];
  }

  // ---------- The components, inside the pipeline ----------

  ghost predicate ComponentsSound(s: State) {
    SafeMode.Sound(s.safe) && Outbound.Conserved(s.out)
  }

  lemma SendConserves(s: State, env: Envelope)
    requires Outbound.Conserved(s.out)
    ensures Outbound.Conserved(Sending(s, env).out)
  {
    Outbound.ConservedStep(s.out, Outbound.Send(env));
  }

  lemma ComponentsStep(s: State, e: Event)
    requires ComponentsSound(s) && Enabled(s, e)
    ensures ComponentsSound(Step(s, e))
  {
    hide SafeMode.Sound, SafeMode.Step, SafeMode.Enabled, Outbound.Conserved, Outbound.Step;
    match e
    case Execute(ok) => SafeMode.SoundStep(s.safe, SafeMode.Run(s.stage.env.request.value.cmd, ok));
    case Timer(step) => SafeMode.SoundStep(s.safe, step);
    case Refuse(_) => SendConserves(s, ResponseTo(s.stage.env, false));
    case Answer(_) => SendConserves(s, ResponseTo(s.stage.env, s.stage.ok));
    case Forward(env) => SendConserves(s, env);
    case Wire(step) => Outbound.ConservedStep(s.out, step);
    case _ =>
  }

  lemma {:induction false} ComponentsRun(s: State, events: seq<Event>)
    requires ComponentsSound(s) && Valid(s, events)
    ensures ComponentsSound(After(s, events))
    decreases |events|
  {
    if events != [] {
      hide Step, Enabled, ComponentsSound;
      ComponentsStep(s, events[0]);
      ComponentsRun(Step(s, events[0]), events[1..]);
    }
  }

  lemma InitComponentsSound()
    ensures ComponentsSound(INIT)
  {
    SafeMode.InitSound();
  }

  /**
   Over every interleaving, whatever reaches the router was asked for in a request that was read and
   whose signature verified: a command as it stands there, each in a request of its own, a rollback as
   the payload of one that was dispatched before with success, safe mode and a TTL; and no arming rolls
   back twice.
   */
  lemma EveryDispatchVerified(events: seq<Event>) returns (requestOf: seq<nat>)
    requires Valid(INIT, events)
    ensures var s := After(INIT, events);
            var log := s.safe.log;
            && |requestOf| == |log|
            && (forall i :: 0 <= i < |log| ==>
                  && requestOf[i] < |s.read| && s.read[requestOf[i]].kind == CommandRequest
                  && s.read[requestOf[i]].request.Some? && s.read[requestOf[i]].request.value.genuine
                  && var cmd := s.read[requestOf[i]].request.value.cmd;
                  && (log[i].Ran? ==> log[i].cmd == cmd)
                  && (log[i].Rollback? ==>
                        && log[i] == SafeMode.Rollback(log[i].arming, cmd.kind, cmd.rollback)
                        && cmd.safeMode && cmd.ttl > 0 && |cmd.rollback| > 0
                        && exists j :: 0 <= j < i && log[j] == SafeMode.Ran(cmd, true)))
            && (forall i, j :: 0 <= i < j < |log| && log[i].Ran? && log[j].Ran? ==> requestOf[i] < requestOf[j])
            && (forall i, j :: 0 <= i < j < |log| && log[i].Rollback? && log[j].Rollback? ==>
                  log[i].arming != log[j].arming)
  {
    InitComponentsSound();
    ComponentsRun(INIT, events);
    var requestFor, executionOf, _ := ExecutionOrder(events);
    hide Valid, After;
    var s := After(INIT, events);
    requestOf := DispatchRequests(s, requestFor, executionOf);
    forall i, j | 0 <= i < j < |s.safe.log| && s.safe.log[i].Rollback? && s.safe.log[j].Rollback?
      ensures s.safe.log[i].arming != s.safe.log[j].arming
    {
      SafeMode.RollbacksMeans(s.safe.log, s.safe.log[i].arming);
    }
  }

  lemma DispatchRequests(s: State, requestFor: seq<nat>, executionOf: seq<nat>) returns (requestOf: seq<nat>)
    requires SafeMode.LogAgrees(s.safe)
    requires |requestFor| == |s.executed| && |executionOf| == |s.safe.log|
    requires forall k :: 0 <= k < |s.executed| ==>
               VerifiedAt(s.read, requestFor[k], s.executed[k].id, s.executed[k].cmd)
    requires forall i :: 0 <= i < |s.safe.log| && s.safe.log[i].Ran? ==>
               executionOf[i] < |s.executed| && s.safe.log[i].cmd == s.executed[executionOf[i]].cmd
    ensures |requestOf| == |s.safe.log|
    ensures forall i :: 0 <= i < |s.safe.log| ==>
              && requestOf[i] < |s.read| && s.read[requestOf[i]].kind == CommandRequest
              && s.read[requestOf[i]].request.Some? && s.read[requestOf[i]].request.value.genuine
              && var cmd := s.read[requestOf[i]].request.value.cmd;
              && (s.safe.log[i].Ran? ==> s.safe.log[i].cmd == cmd && requestOf[i] == requestFor[executionOf[i]])
              && (s.safe.log[i].Rollback? ==>
                    && s.safe.log[i] == SafeMode.Rollback(s.safe.log[i].arming, cmd.kind, cmd.rollback)
                    && cmd.safeMode && cmd.ttl > 0 && |cmd.rollback| > 0
                    && exists j :: 0 <= j < i && s.safe.log[j] == SafeMode.Ran(cmd, true))
  {
    var log := s.safe.log;
    requestOf := [];
    while |requestOf| < |log|
      invariant |requestOf| <= |log|
      invariant forall i :: 0 <= i < |requestOf| ==>
                  && requestOf[i] < |s.read| && s.read[requestOf[i]].kind == CommandRequest
                  && s.read[requestOf[i]].request.Some? && s.read[requestOf[i]].request.value.genuine
                  && var cmd := s.read[requestOf[i]].request.value.cmd;
                  && (log[i].Ran? ==> log[i].cmd == cmd && requestOf[i] == requestFor[executionOf[i]])
                  && (log[i].Rollback? ==>
                        && log[i] == SafeMode.Rollback(log[i].arming, cmd.kind, cmd.rollback)
                        && cmd.safeMode && cmd.ttl > 0 && |cmd.rollback| > 0
                        && exists j :: 0 <= j < i && log[j] == SafeMode.Ran(cmd, true))
    {
      var i := |requestOf|;
      var r: nat;
      if log[i].Ran? {
        r := requestFor[executionOf[i]];
        assert VerifiedAt(s.read, r, s.executed[executionOf[i]].id, log[i].cmd);
      } else {
        SafeMode.JustifiedMeans(s.safe, i);
        var cmd := s.safe.armings[log[i].arming].cmd;
        var j :| 0 <= j < i && log[j] == SafeMode.Ran(cmd, true);
        r := requestFor[executionOf[j]];
        assert VerifiedAt(s.read, r, s.executed[executionOf[j]].id, cmd);
      }
      requestOf := requestOf + [r];
    }
  }

  /**
   Over every interleaving a response that says success answers an execution of its own that succeeded,
   with its id, in the order of the executions.
   */
  lemma SuccessIsTrue(events: seq<Event>) returns (executionOf: seq<nat>)
    requires Valid(INIT, events)
    ensures var s := After(INIT, events);
            var written := s.out.written;
            && |executionOf| == |written|
            && (forall i :: 0 <= i < |written| && written[i].kind == CommandResponse && written[i].success ==>
                  && executionOf[i] < |s.executed| && s.executed[executionOf[i]].ok
                  && s.executed[executionOf[i]].id == written[i].id)
            && (forall i, j :: 0 <= i < j < |written| && written[i].kind == written[j].kind == CommandResponse
                               && written[i].success && written[j].success
                  ==> executionOf[i] < executionOf[j])
  {
    InitInOrder();
    RunInOrder(INIT, events);
    hide Valid, After, DispatchesInOrder, ResponsesInOrder;
    executionOf := SuccessesMatch(After(INIT, events));
  }

  lemma SuccessesMatch(s: State) returns (m: seq<nat>)
    requires SuccessesInOrder(s)
    ensures var written := s.out.written;
            && |m| == |written|
            && (forall i :: 0 <= i < |written| && written[i].kind == CommandResponse && written[i].success ==>
                  m[i] < |s.executed| && s.executed[m[i]].ok && s.executed[m[i]].id == written[i].id)
            && (forall i, j :: 0 <= i < j < |written| && written[i].kind == written[j].kind == CommandResponse
                               && written[i].success && written[j].success
                  ==> m[i] < m[j])
  {
    WrittenSuccesses(s);
    hide Subsequence, Gather, SuccessesInOrder;
    m := MatchElements(SUCCESS_ID, s.out.written, SUCCEEDED_ID, s.executed);
  }

  lemma WrittenSuccesses(s: State)
    requires SuccessesInOrder(s)
    ensures Subsequence(Gather(SUCCESS_ID, s.out.written), Gather(SUCCEEDED_ID, s.executed))
  {
    hide Subsequence, Gather, Earned;
    var later := Outbound.NewestHand(s.out) + s.out.queue;
    assert Outbound.Line(s.out) == s.out.written + later;
    GatherConcat(SUCCESS_ID, s.out.written, later);
    var written, others := Gather(SUCCESS_ID, s.out.written), Gather(SUCCESS_ID, later) + Earned(s.stage);
    assert SuccessLine(s) == written + others;
    SubsequencePrefix(written, others, Gather(SUCCEEDED_ID, s.executed));
  }

  // ---------- One command, from the socket to the socket ----------

  /** `e` takes `s` to `next`. */
  ghost predicate Leads(s: State, e: Event, next: State) {
    Enabled(s, e) && Step(s, e) == next
  }

  lemma RunLeads(s: State, e: Event, next: State, events: seq<Event>)
    requires Leads(s, e, next) && Valid(next, events)
    ensures Valid(s, [e] + events) && After(s, [e] + events) == After(next, events)
  {
    hide Step, Enabled;
    assert ([e] + events)[1..] == events;
  }

  /** The agent connects, reads the request, handles it, and writes the answer. */
  function Round(env: Envelope, genuine: bool): seq<Event> {
    var handling := if genuine then [Execute(true)] + ([Answer(true)] + Sent()) else [Refuse(true)] + Sent();
    [Wire(Outbound.Dialled)] + ([Receive(env, false)] + ([Pick] + handling))
  }

  function Sent(): seq<Event> {
    [Wire(Outbound.Take(0))] + ([Wire(Outbound.Write(0))] + [])
  }

  datatype Place = Queued | InHand | Written

  /** The state with the answer at some place; `safe` is the executor's. */
  function Answered(env: Envelope, success: bool, place: Place, safe: SafeMode.State, executed: seq<Execution>): State {
    var answer := [Envelope(CommandResponse, env.id, None, success)];
    State([], Idle, safe,
          Outbound.State(if place == Queued then answer else [],
                         [Outbound.Loop(if place == InHand then answer else [], true)], true, answer, [],
                         if place == Written then answer else [], [], []),
          [env], executed)
  }

  function Reading(env: Envelope, stage: Stage, msgChan: seq<Envelope>, read: seq<Envelope>): State {
    var out := Outbound.State([], [Outbound.Loop([], true)], true, [], [], [], [], []);
    State(msgChan, stage, SafeMode.INIT, out, read, [])
  }

  lemma SentSteps(env: Envelope, success: bool, safe: SafeMode.State, executed: seq<Execution>)
    ensures var s := Answered(env, success, Queued, safe, executed);
            Valid(s, Sent()) && After(s, Sent()) == Answered(env, success, Written, safe, executed)
  {
    var s0 := Answered(env, success, Queued, safe, executed);
    var s1 := Answered(env, success, InHand, safe, executed);
    var s2 := Answered(env, success, Written, safe, executed);
    assert Leads(s0, Wire(Outbound.Take(0)), s1) && Leads(s1, Wire(Outbound.Write(0)), s2);
    assert Valid(s2, []) && After(s2, []) == s2;
    hide Leads, Valid, After;
    RunLeads(s1, Wire(Outbound.Write(0)), s2, []);
    RunLeads(s0, Wire(Outbound.Take(0)), s1, [Wire(Outbound.Write(0))] + []);
  }

  lemma ReadingSteps(env: Envelope)
    ensures Leads(INIT, Wire(Outbound.Dialled), Reading(env, Idle, [], []))
    ensures Leads(Reading(env, Idle, [], []), Receive(env, false), Reading(env, Idle, [env], [env]))
    ensures Leads(Reading(env, Idle, [env], [env]), Pick, Reading(env, Holding(env), [], [env]))
  {
  }

  /** The executor behind one successful command. */
  function AfterOne(cmd: SafeMode.Command): SafeMode.State {
    SafeMode.State(map[], [],
                   if cmd.safeMode && cmd.ttl > 0 && |cmd.rollback| > 0 then [cmd] else [],
                   [SafeMode.Ran(cmd, true)])
  }

  lemma HandlingSteps(id: string, cmd: SafeMode.Command)
    ensures var env := Envelope(CommandRequest, id, Some(Request(cmd, true)), false);
            var s := Reading(env, Holding(env), [], [env]);
            var ran := s.(stage := Answering(env, true), safe := AfterOne(cmd), executed := [Execution(id, cmd, true)]);
            && Leads(s, Execute(true), ran)
            && Leads(ran, Answer(true), Answered(env, true, Queued, AfterOne(cmd), [Execution(id, cmd, true)]))
    ensures var env := Envelope(CommandRequest, id, Some(Request(cmd, false)), false);
            Leads(Reading(env, Holding(env), [], [env]), Refuse(true), Answered(env, false, Queued, SafeMode.INIT, []))
  {
  }

  /**
   It does happen: a request that is read is answered on the socket under its id. With a signature that
   verifies it is dispatched and answered with success; with one that does not, nothing is dispatched
   and the answer is failure.
   */
  lemma RequestAnswered(id: string, cmd: SafeMode.Command, genuine: bool)
    ensures var env := Envelope(CommandRequest, id, Some(Request(cmd, genuine)), false);
            && Valid(INIT, Round(env, genuine))
            && var s := After(INIT, Round(env, genuine));
            && s.read == [env]
            && s.out.written == [Envelope(CommandResponse, id, None, genuine)]
            && s.safe.log == if genuine then [SafeMode.Ran(cmd, true)] else []
  {
    var env := Envelope(CommandRequest, id, Some(Request(cmd, genuine)), false);
    var held := Reading(env, Holding(env), [], [env]);
    ReadingSteps(env);
    HandlingSteps(id, cmd);
    var safe := if genuine then AfterOne(cmd) else SafeMode.INIT;
    var executed := if genuine then [Execution(id, cmd, true)] else [];
    SentSteps(env, genuine, safe, executed);
    hide Leads, Valid, After, Sent;
    var queued := Answered(env, genuine, Queued, safe, executed);
    if genuine {
      var ran := held.(stage := Answering(env, true), safe := safe, executed := executed);
      RunLeads(ran, Answer(true), queued, Sent());
      RunLeads(held, Execute(true), ran, [Answer(true)] + Sent());
    } else {
      RunLeads(held, Refuse(true), queued, Sent());
    }
    var handling := if genuine then [Execute(true)] + ([Answer(true)] + Sent()) else [Refuse(true)] + Sent();
    RunLeads(Reading(env, Idle, [env], [env]), Pick, held, handling);
    RunLeads(Reading(env, Idle, [], []), Receive(env, false), Reading(env, Idle, [env], [env]), [Pick] + handling);
    RunLeads(INIT, Wire(Outbound.Dialled), Reading(env, Idle, [], []), [Receive(env, false)] + ([Pick] + handling));
  }
}
