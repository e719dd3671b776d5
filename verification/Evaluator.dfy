/**
  The evaluator's control protocol as a product machine: `serve_client` of
  crates/evaluator-server/src/orchestrator.rs and `run_evaluation` of
  crates/evaluator-client/src/runner.rs, joined by two first-in first-out channels.

  A step receives a message, or sees the end of the stream, and performs the sends that follow up to
  the next receive. The step chooses what the client measures; the configuration says for which
  protocols the server's targets start.
 */
module Evaluator {
  import opened Stacks

  datatype ClientMessage =
    | Auth(token: string)
    | SelectProtocols(protocols: seq<string>)
    | Ready(protocol: string)
    | Result(protocol: string, metrics: Metrics)

  datatype ServerMessage =
    | AuthOk
    | AuthErr
    | TestConfig(protocol: string)
    | Start(protocol: string)
    | Next
    | Done
    | StackSummary(stacks: seq<StackResult>)

  datatype ServerPc =
    | AwaitAuth | AwaitSelect
    | Configure(i: nat) | AwaitReady(i: nat) | AwaitResult(i: nat)
    | Summarise | Ended | Panicked(i: nat)

  datatype ClientPc =
    | Connected | AwaitAuthReply | Loop
    | AwaitStart(protocol: string) | Measure(protocol: string)
    | Tail | Succeeded | Failed

  datatype ProtocolResult = ProtocolResult(protocol: string, metrics: Metrics)

  /** `starts` says for each index of the list whether the targets of that protocol can be started. */
  datatype Config = Config(
    token: string, defaults: seq<string>, stackNames: seq<string>, table: Table, known: set<string>,
    clientToken: string, selection: seq<string>, starts: nat -> bool)

  /** `unexpected` records that some party took the branch for a message it did not expect. */
  datatype State = State(
    server: ServerPc, protocols: seq<string>, results: seq<Metrics>,
    client: ClientPc, clientResults: seq<ProtocolResult>, summary: seq<ServerMessage>,
    toServer: seq<ClientMessage>, toClient: seq<ServerMessage>, unexpected: bool)

  function Init(c: Config): State {
    State(AwaitAuth, [], [], Connected, [], [], [], [], false)
  }

  /** Outcome of the packet-loss test; every packet sent is either answered or lost. */
  datatype LossTest = NoConnection | Ran(answered: nat, lost: nat)

  function PacketLoss(t: LossTest): (r: real)
    ensures r >= 0.0
    ensures r == 0.0 <==> t.Ran? && t.answered > 0 && t.lost == 0
  {
    match t
    case NoConnection => 100.0
    case Ran(answered, lost) =>
      if answered + lost == 0 then 100.0 else lost as real / (answered + lost) as real * 100.0
  }

  datatype Step =
    | ServerStep
    | ClientStep(latency: Latency, bandwidth: Bandwidth, loss: LossTest)

  predicate ServerOver(s: State) { s.server.Ended? || s.server.Panicked? }

  predicate ClientOver(s: State) { s.client.Succeeded? || s.client.Failed? }

  /** The party can move: it is not waiting on an empty, still open channel. */
  predicate ServerEnabled(s: State) {
    match s.server
    case AwaitAuth => s.toServer != [] || ClientOver(s)
    case AwaitSelect => s.toServer != [] || ClientOver(s)
    case AwaitReady(_) => s.toServer != [] || ClientOver(s)
    case AwaitResult(_) => s.toServer != [] || ClientOver(s)
    case Configure(_) => true
    case Summarise => true
    case Ended => false
    case Panicked(_) => false
  }

  predicate ClientEnabled(s: State) {
    match s.client
    case Connected => true
    case Measure(_) => true
    case Succeeded => false
    case Failed => false
    case _ => s.toClient != [] || ServerOver(s)
  }

  predicate Enabled(s: State, step: Step) {
    if step.ServerStep? then ServerEnabled(s) else ClientEnabled(s)
  }

  // ---- the server ----

  function Send(s: State, m: ServerMessage): State {
    s.(toClient := s.toClient + [m])
  }

  function ServerAuth(c: Config, s: State): State {
    if s.toServer == [] then s.(server := Ended)
    else
      var rest := s.(toServer := s.toServer[1..]);
      match s.toServer[0]
      case Auth(t) =>
        if t == c.token then Send(rest, AuthOk).(server := AwaitSelect)
        else Send(rest, AuthErr).(server := Ended)
      case _ => Send(rest, AuthErr).(server := Ended, unexpected := true)
  }

  function ServerSelect(c: Config, s: State): State {
    if s.toServer == [] then s.(server := Ended)
    else
      var rest := s.(toServer := s.toServer[1..]);
      match s.toServer[0]
      case SelectProtocols(ps) =>
        rest.(server := Configure(0), protocols := if ps == [] then c.defaults else ps)
      case _ => rest.(server := Ended, unexpected := true)
  }

  function ServerConfigure(c: Config, s: State, i: nat): State {
    if i >= |s.protocols| then s.(server := Summarise)
    else if !c.starts(i) then s.(server := Configure(i + 1))
    else if s.protocols[i] !in c.known then s.(server := Panicked(i))
    else Send(s, TestConfig(s.protocols[i])).(server := AwaitReady(i))
  }

  function ServerReady(s: State, i: nat): State
    requires i < |s.protocols|
  {
    if s.toServer == [] then s.(server := Summarise)
    else
      var rest := s.(toServer := s.toServer[1..]);
      match s.toServer[0]
      case Ready(_) => Send(rest, Start(s.protocols[i])).(server := AwaitResult(i))
      case _ => rest.(server := Configure(i + 1), unexpected := true)
  }

  function ServerResult(s: State, i: nat): State {
    if s.toServer == [] then s.(server := Summarise)
    else
      var rest := s.(toServer := s.toServer[1..], server := Configure(i + 1));
      var reply := if i + 1 < |s.protocols| then Next else Done;
      match s.toServer[0]
      case Result(_, m) => Send(rest, reply).(results := s.results + [m])
      case _ => Send(rest, reply).(unexpected := true)
  }

  function SummaryMessages(c: Config, s: State): seq<ServerMessage> {
    if c.stackNames == [] then [] else [StackSummary(Summary(c.table, c.stackNames, s.protocols, s.results))]
  }

  function ServerMove(c: Config, s: State): State {
    match s.server
    case AwaitAuth => ServerAuth(c, s)
    case AwaitSelect => ServerSelect(c, s)
    case Configure(i) => ServerConfigure(c, s, i)
    case AwaitReady(i) => if i < |s.protocols| then ServerReady(s, i) else s
    case AwaitResult(i) => ServerResult(s, i)
    case Summarise => s.(server := Ended, toClient := s.toClient + SummaryMessages(c, s))
    case Ended => s
    case Panicked(_) => s
  }

  // ---- the client ----

  function Reply(s: State, m: ClientMessage): State {
    s.(toServer := s.toServer + [m])
  }

  function ClientAuth(c: Config, s: State): State {
    if s.toClient == [] then s.(client := Failed)
    else
      var rest := s.(toClient := s.toClient[1..]);
      match s.toClient[0]
      case AuthOk => Reply(rest, SelectProtocols(c.selection)).(client := Loop)
      case AuthErr => rest.(client := Failed)
      case _ => rest.(client := Failed, unexpected := true)
  }

  function ClientLoop(s: State): State {
    if s.toClient == [] then s.(client := Failed)
    else
      var rest := s.(toClient := s.toClient[1..]);
      match s.toClient[0]
      case TestConfig(p) => Reply(rest, Ready(p)).(client := AwaitStart(p))
      case Next => rest
      case Done => rest.(client := Tail)
      case _ => rest.(client := Failed, unexpected := true)
  }

  function ClientAwaitStart(s: State, p: string): State {
    if s.toClient == [] then s.(client := Failed)
    else
      var rest := s.(toClient := s.toClient[1..]);
      match s.toClient[0]
      case Start(_) => rest.(client := Measure(p))
      case _ => rest.(client := Failed, unexpected := true)
  }

  function ClientMeasure(s: State, p: string, m: Metrics): State {
    Reply(s, Result(p, m)).(client := Loop, clientResults := s.clientResults + [ProtocolResult(p, m)])
  }

  /** After `Done` at most one more message is read; anything but a summary is ignored. */
  function ClientTail(s: State): State {
    if s.toClient == [] then s.(client := Succeeded)
    else s.(toClient := s.toClient[1..], client := Succeeded,
            summary := if s.toClient[0].StackSummary? then [s.toClient[0]] else [])
  }

  function ClientMove(c: Config, s: State, step: Step): State
    requires step.ClientStep?
  {
    match s.client
    case Connected => Reply(s, Auth(c.clientToken)).(client := AwaitAuthReply)
    case AwaitAuthReply => ClientAuth(c, s)
    case Loop => ClientLoop(s)
    case AwaitStart(p) => ClientAwaitStart(s, p)
    case Measure(p) => ClientMeasure(s, p, Metrics(step.latency, step.bandwidth, PacketLoss(step.loss)))
    case Tail => ClientTail(s)
    case Succeeded => s
    case Failed => s
  }

  function Move(c: Config, s: State, step: Step): State {
    if step.ServerStep? then ServerMove(c, s) else ClientMove(c, s, step)
  }

  /** A schedule of steps, each taken by a party that can move. */
  ghost predicate IsRun(c: Config, steps: seq<Step>) {
    steps == [] ||
    (var init := steps[..|steps| - 1];
     IsRun(c, init) && Enabled(After(c, init), steps[|steps| - 1]))
  }

  function After(c: Config, steps: seq<Step>): State {
    if steps == [] then Init(c) else Move(c, After(c, steps[..|steps| - 1]), steps[|steps| - 1])
  }

  // ---- termination, whatever the messages ----

  function Effective(c: Config): seq<string> {
    if c.selection == [] then c.defaults else c.selection
  }

  /** Upper bound on the server's remaining steps when it serves `n` protocols. */
  function ServerRank(n: int, pc: ServerPc): int {
    match pc
    case AwaitAuth => 3 * n + 4
    case AwaitSelect => 3 * n + 3
    case Configure(i) => 3 * (n - i) + 2
    case AwaitReady(i) => 3 * (n - i) + 1
    case AwaitResult(i) => 3 * (n - i)
    case Summarise => 1
    case Ended => 0
    case Panicked(_) => 0
  }

  function ClientRank(pc: ClientPc): nat {
    match pc
    case Connected => 2
    case Measure(_) => 2
    case Succeeded => 0
    case Failed => 0
    case _ => 1
  }

  function Rank(c: Config, s: State): int {
    3 * ServerRank(|Effective(c)|, s.server) + 2 * |s.toClient| + ClientRank(s.client)
  }

  // ---- the invariant ----

  /** Those of the first `k` protocols whose targets start. */
  function Tested(c: Config, k: nat): seq<string>
    requires k <= |Effective(c)|
  {
    Collected(c.starts, Effective(c)[..k])
  }

  lemma {:induction false} TestedNext(c: Config, k: nat)
    requires k < |Effective(c)|
    ensures Tested(c, k + 1) == Tested(c, k) + if c.starts(k) then [Effective(c)[k]] else []
  {
    assert Effective(c)[..k + 1][..k] == Effective(c)[..k];
  }

  /** The targets of the last protocol start, which is when the server says it is done. */
  predicate LastStarts(c: Config) {
    Effective(c) != [] && c.starts(|Effective(c)| - 1)
  }

  /** Every protocol whose targets start is known. */
  ghost predicate StartedKnown(c: Config) {
    forall i :: 0 <= i < |Effective(c)| && c.starts(i) ==> Effective(c)[i] in c.known
  }

  /** The server gets through a list without ever saying it is done, and then sends a summary all the same. */
  ghost predicate Misses(c: Config) {
    c.token == c.clientToken && !LastStarts(c) && c.stackNames != [] && StartedKnown(c)
  }

  /** Both sides hold the results of the first `k` protocols, as far as their targets start, in order. */
  ghost predicate Agreed(c: Config, s: State, k: nat) {
    && s.protocols == Effective(c) && k <= |s.protocols|
    && Paired(Tested(c, k), s.clientResults, s.results)
    && (forall j :: 0 <= j < k && c.starts(j) ==> s.protocols[j] in c.known)
  }

  ghost predicate Paired(names: seq<string>, clientResults: seq<ProtocolResult>, results: seq<Metrics>) {
    && |clientResults| == |results| == |names|
    && forall j :: 0 <= j < |names| ==> clientResults[j] == ProtocolResult(names[j], results[j]) && results[j].loss >= 0.0
  }

  ghost predicate Fresh(s: State) {
    s.results == [] && s.clientResults == []
  }

  ghost predicate AuthPhase(c: Config, s: State) {
    && Fresh(s) && s.toClient == []
    && ((s.client.Connected? && s.toServer == [])
        || (s.client.AwaitAuthReply? && s.toServer == [Auth(c.clientToken)]))
  }

  ghost predicate SelectPhase(c: Config, s: State) {
    && Fresh(s) && c.token == c.clientToken
    && ((s.client.AwaitAuthReply? && s.toClient == [AuthOk] && s.toServer == [])
        || (s.client.Loop? && s.toClient == [] && s.toServer == [SelectProtocols(c.selection)]))
  }

  /** What the client has still to read of the message that closed the last tested protocol. */
  ghost predicate Between(c: Config, s: State, i: nat) {
    && c.token == c.clientToken && Agreed(c, s, i) && s.toServer == []
    && if i == |s.protocols| && LastStarts(c) then (s.client.Loop? && s.toClient == [Done]) || (s.client.Tail? && s.toClient == [])
       else s.client.Loop? && (s.toClient == [Next] || s.toClient == [])
  }

  ghost predicate ReadyPhase(c: Config, s: State, i: nat) {
    && c.token == c.clientToken && Agreed(c, s, i) && i < |s.protocols| && c.starts(i) && s.protocols[i] in c.known
    && ((s.client.Loop? && s.toServer == []
         && (s.toClient == [TestConfig(s.protocols[i])] || s.toClient == [Next, TestConfig(s.protocols[i])]))
        || (s.client == AwaitStart(s.protocols[i]) && s.toClient == [] && s.toServer == [Ready(s.protocols[i])]))
  }

  ghost predicate MeasurePhase(c: Config, s: State, i: nat) {
    && c.token == c.clientToken && i < |s.protocols| && c.starts(i) && s.protocols[i] in c.known
    && ((Agreed(c, s, i) && s.client == AwaitStart(s.protocols[i])
         && s.toClient == [Start(s.protocols[i])] && s.toServer == [])
        || (Agreed(c, s, i) && s.client == Measure(s.protocols[i]) && s.toClient == [] && s.toServer == [])
        || (s.client.Loop? && s.toClient == [] && ResultSent(c, s, i)))
  }

  /** The client's last result is on its way to the server. */
  ghost predicate ResultSent(c: Config, s: State, i: nat) {
    && |s.toServer| == 1 && s.toServer[0].Result? && |s.clientResults| > 0
    && var last := |s.clientResults| - 1;
    && s.clientResults[last] == ProtocolResult(s.toServer[0].protocol, s.toServer[0].metrics)
    && i < |s.protocols| && s.toServer[0].protocol == s.protocols[i] && s.toServer[0].metrics.loss >= 0.0
    && Agreed(c, s.(clientResults := s.clientResults[..last]), i)
  }

  ghost predicate Refused(c: Config, s: State) {
    && c.token != c.clientToken && Fresh(s) && s.toServer == []
    && ((s.client.AwaitAuthReply? && s.toClient == [AuthErr]) || (s.client.Failed? && s.toClient == []))
  }

  ghost predicate Served(c: Config, s: State) {
    && c.token == c.clientToken && Agreed(c, s, |Effective(c)|) && s.toServer == []
    && var tail := SummaryMessages(c, s);
    if LastStarts(c) then
      || (s.client.Loop? && s.toClient == [Done] + tail)
      || (s.client.Tail? && s.toClient == tail)
      || (s.client.Succeeded? && s.toClient == [] && s.summary == tail)
    else
      || (s.client.Loop? && (s.toClient == [Next] + tail || s.toClient == tail))
      || (s.client.Failed? && s.toClient == [] && (tail != [] ==> s.unexpected))
  }

  ghost predicate Crashed(c: Config, s: State, i: nat) {
    && c.token == c.clientToken && Agreed(c, s, i) && s.toServer == []
    && i < |s.protocols| && c.starts(i) && s.protocols[i] !in c.known
    && ((s.client.Loop? && (s.toClient == [] || s.toClient == [Next])) || (s.client.Failed? && s.toClient == []))
  }

  ghost predicate Inv(c: Config, s: State) {
    && (s.unexpected ==> Misses(c))
    && (s.client.Succeeded? || s.summary == [])
    && match s.server
       case AwaitAuth => AuthPhase(c, s)
       case AwaitSelect => SelectPhase(c, s)
       case Configure(i) => i <= |Effective(c)| && Between(c, s, i)
       case AwaitReady(i) => ReadyPhase(c, s, i)
       case AwaitResult(i) => MeasurePhase(c, s, i)
       case Summarise => Between(c, s, |Effective(c)|)
       case Ended => Refused(c, s) || Served(c, s)
       case Panicked(i) => Crashed(c, s, i)
  }

  // ---- the server keeps it ----

  lemma {:induction false} AuthStep(c: Config, s: State)
    requires AuthPhase(c, s) && s.toServer != []
    ensures var t := ServerAuth(c, s);
            && t.unexpected == s.unexpected
            && ((t.server.AwaitSelect? && SelectPhase(c, t)) || (t.server.Ended? && Refused(c, t)))
  {
  }

  lemma {:induction false} SelectStep(c: Config, s: State)
    requires SelectPhase(c, s) && s.toServer != []
    ensures var t := ServerSelect(c, s);
            t.unexpected == s.unexpected && t.server == Configure(0) && Between(c, t, 0)
  {
  }

  lemma {:induction false} ConfigureStep(c: Config, s: State, i: nat)
    requires Between(c, s, i) && i < |s.protocols|
    ensures var t := ServerConfigure(c, s, i);
            && t.unexpected == s.unexpected
            && (|| (t.server == AwaitReady(i) && ReadyPhase(c, t, i))
                || (t.server == Panicked(i) && Crashed(c, t, i))
                || (t.server == Configure(i + 1) && i + 1 <= |Effective(c)| && Between(c, t, i + 1)))
  {
    TestedNext(c, i);
    assert Tested(c, i) + [] == Tested(c, i);
  }

  lemma {:induction false} ReadyStep(c: Config, s: State, i: nat)
    requires ReadyPhase(c, s, i) && s.toServer != []
    ensures var t := ServerReady(s, i);
            t.unexpected == s.unexpected && t.server == AwaitResult(i) && MeasurePhase(c, t, i)
  {
  }

  lemma {:induction false} ResultAgreed(c: Config, s: State, i: nat)
    requires ResultSent(c, s, i) && s.protocols[i] in c.known && c.starts(i)
    ensures Agreed(c, s.(results := s.results + [s.toServer[0].metrics]), i + 1)
  {
    TestedNext(c, i);
    PairedNext(Tested(c, i), s.clientResults, s.results, s.protocols[i], s.toServer[0].metrics);
  }

  lemma {:induction false} PairedNext(names: seq<string>, crs: seq<ProtocolResult>, results: seq<Metrics>, p: string, m: Metrics)
    requires |crs| > 0 && Paired(names, crs[..|crs| - 1], results) && crs[|crs| - 1] == ProtocolResult(p, m) && m.loss >= 0.0
    ensures Paired(names + [p], crs, results + [m])
  {
    forall j | 0 <= j < |names| ensures crs[j] == ProtocolResult(names[j], results[j]) {
      assert crs[..|crs| - 1][j] == crs[j];
    }
  }

  lemma {:induction false} ResultStep(c: Config, s: State, i: nat)
    requires MeasurePhase(c, s, i) && s.toServer != []
    ensures var t := ServerResult(s, i);
            && t.unexpected == s.unexpected && t.server == Configure(i + 1) && i + 1 <= |Effective(c)|
            && Between(c, t, i + 1)
  {
    ResultAgreed(c, s, i);
    var t := ServerResult(s, i);
    assert t.toServer == [];
  }

  lemma {:induction false} SummariseStep(c: Config, s: State)
    requires Between(c, s, |Effective(c)|)
    ensures Served(c, s.(server := Ended, toClient := s.toClient + SummaryMessages(c, s)))
  {
  }

  lemma {:induction false} ConfigureKeeps(c: Config, s: State)
    requires Inv(c, s) && s.server.Configure?
    ensures Inv(c, ServerMove(c, s))
  {
    if s.server.i < |s.protocols| {
      ConfigureStep(c, s, s.server.i);
    }
  }

  lemma {:induction false} ResultKeeps(c: Config, s: State)
    requires Inv(c, s) && s.server.AwaitResult? && ServerEnabled(s)
    ensures Inv(c, ServerMove(c, s))
  {
    ResultStep(c, s, s.server.i);
  }

  lemma {:induction false} ServerMoveKeeps(c: Config, s: State)
    requires Inv(c, s) && ServerEnabled(s)
    ensures Inv(c, ServerMove(c, s))
  {
    match s.server {
      case AwaitAuth => AuthStep(c, s);
      case AwaitSelect => SelectStep(c, s);
      case Configure(_) => ConfigureKeeps(c, s);
      case AwaitReady(i) => ReadyStep(c, s, i);
      case AwaitResult(_) => ResultKeeps(c, s);
      case Summarise => SummariseStep(c, s);
    }
  }

  // ---- the client keeps it ----

  lemma {:induction false} ClientInAuth(c: Config, s: State, step: Step)
    requires AuthPhase(c, s) && ClientEnabled(s) && step.ClientStep? && s.server.AwaitAuth?
    ensures var t := ClientMove(c, s, step);
            t.unexpected == s.unexpected && t.server == s.server && AuthPhase(c, t)
  {
  }

  lemma {:induction false} ClientInSelect(c: Config, s: State, step: Step)
    requires SelectPhase(c, s) && ClientEnabled(s) && step.ClientStep? && s.server.AwaitSelect?
    ensures var t := ClientMove(c, s, step);
            t.unexpected == s.unexpected && t.server == s.server && SelectPhase(c, t)
  {
  }

  lemma {:induction false} ClientBetween(c: Config, s: State, i: nat, step: Step)
    requires Between(c, s, i) && ClientEnabled(s) && step.ClientStep? && !ServerOver(s)
    ensures var t := ClientMove(c, s, step);
            t.unexpected == s.unexpected && t.server == s.server && Between(c, t, i)
  {
  }

  lemma {:induction false} ClientInReady(c: Config, s: State, i: nat, step: Step)
    requires ReadyPhase(c, s, i) && ClientEnabled(s) && step.ClientStep? && !ServerOver(s)
    ensures var t := ClientMove(c, s, step);
            t.unexpected == s.unexpected && t.server == s.server && ReadyPhase(c, t, i)
  {
    if |s.toClient| == 2 {
      assert s.toClient[1..] == [TestConfig(s.protocols[i])];
    }
  }

  lemma {:induction false} ClientInMeasure(c: Config, s: State, i: nat, step: Step)
    requires MeasurePhase(c, s, i) && ClientEnabled(s) && step.ClientStep? && !ServerOver(s)
    ensures var t := ClientMove(c, s, step);
            t.unexpected == s.unexpected && t.server == s.server && MeasurePhase(c, t, i)
  {
    if s.client.Measure? {
      var t := ClientMove(c, s, step);
      assert t.clientResults[..|t.clientResults| - 1] == s.clientResults;
      assert ResultSent(c, t, i);
    }
  }

  lemma {:induction false} ClientWhenRefused(c: Config, s: State, step: Step)
    requires Refused(c, s) && ClientEnabled(s) && step.ClientStep?
    ensures var t := ClientMove(c, s, step);
            t.unexpected == s.unexpected && t.server == s.server && Refused(c, t)
  {
  }

  lemma {:induction false} ClientWhenServed(c: Config, s: State, step: Step)
    requires Served(c, s) && ClientEnabled(s) && step.ClientStep? && s.summary == []
    ensures var t := ClientMove(c, s, step);
            && (t.unexpected ==> s.unexpected || Misses(c))
            && t.server == s.server && Served(c, t)
  {
    var tail := SummaryMessages(c, s);
    var t := ClientMove(c, s, step);
    assert SummaryMessages(c, t) == tail;
    if s.client.Loop? {
      assert ([Done] + tail)[1..] == tail && ([Next] + tail)[1..] == tail;
    }
  }

  lemma {:induction false} ClientWhenCrashed(c: Config, s: State, i: nat, step: Step)
    requires Crashed(c, s, i) && ClientEnabled(s) && step.ClientStep?
    ensures var t := ClientMove(c, s, step);
            t.unexpected == s.unexpected && t.server == s.server && Crashed(c, t, i)
  {
  }

  lemma {:induction false} ClientMoveWhenEnded(c: Config, s: State, step: Step)
    requires Inv(c, s) && ClientEnabled(s) && step.ClientStep? && ServerOver(s)
    ensures Inv(c, ClientMove(c, s, step))
  {
    if s.server.Panicked? {
      ClientWhenCrashed(c, s, s.server.i, step);
    } else if Refused(c, s) {
      ClientWhenRefused(c, s, step);
    } else {
      ClientWhenServed(c, s, step);
    }
  }

  lemma {:induction false} ClientMoveKeeps(c: Config, s: State, step: Step)
    requires Inv(c, s) && ClientEnabled(s) && step.ClientStep?
    ensures Inv(c, ClientMove(c, s, step))
  {
    match s.server {
      case AwaitAuth => ClientInAuth(c, s, step);
      case AwaitSelect => ClientInSelect(c, s, step);
      case Configure(i) => ClientBetween(c, s, i, step);
      case AwaitReady(i) => ClientInReady(c, s, i, step);
      case AwaitResult(i) => ClientInMeasure(c, s, i, step);
      case Summarise => ClientBetween(c, s, |Effective(c)|, step);
      case Ended => ClientMoveWhenEnded(c, s, step);
      case Panicked(_) => ClientMoveWhenEnded(c, s, step);
    }
  }

  // ---- every run ----

  lemma {:induction false} InvAlways(c: Config, steps: seq<Step>)
    requires IsRun(c, steps)
    ensures Inv(c, After(c, steps))
    decreases |steps|
  {
    if steps != [] {
      var init, last := steps[..|steps| - 1], steps[|steps| - 1];
      InvAlways(c, init);
      if last.ServerStep? {
        ServerMoveKeeps(c, After(c, init));
      } else {
        ClientMoveKeeps(c, After(c, init), last);
      }
    }
  }

  /** Facts that bound the run. */
  ghost predicate Bounded(c: Config, s: State) {
    && (forall m :: m in s.toServer && m.SelectProtocols? ==> m.protocols == c.selection)
    && match s.server
       case Configure(i) => s.protocols == Effective(c) && i <= |Effective(c)|
       case AwaitReady(i) => s.protocols == Effective(c) && i < |Effective(c)|
       case AwaitResult(i) => s.protocols == Effective(c) && i < |Effective(c)|
       case _ => true
  }

  lemma {:induction false} ServerBounded(c: Config, s: State)
    requires Bounded(c, s) && ServerEnabled(s)
    ensures Bounded(c, ServerMove(c, s))
  {
    var t := ServerMove(c, s);
    assert forall m :: m in t.toServer ==> m in s.toServer;
    if s.server.AwaitSelect? && s.toServer != [] {
      assert s.toServer[0] in s.toServer;
    }
  }

  lemma {:induction false} ServerRanks(c: Config, s: State)
    requires Bounded(c, s) && ServerEnabled(s)
    ensures Bounded(c, ServerMove(c, s)) && 0 <= Rank(c, ServerMove(c, s)) < Rank(c, s)
  {
    ServerBounded(c, s);
  }

  lemma {:induction false} ClientRanks(c: Config, s: State, step: Step)
    requires Bounded(c, s) && ClientEnabled(s) && step.ClientStep?
    ensures var t := ClientMove(c, s, step);
            Bounded(c, t) && 0 <= Rank(c, t) < Rank(c, s)
  {
    var t := ClientMove(c, s, step);
    assert t.server == s.server && t.protocols == s.protocols;
    assert forall m :: m in t.toServer ==> m in s.toServer || (m.SelectProtocols? ==> m.protocols == c.selection);
  }

  lemma {:induction false} RankFalls(c: Config, steps: seq<Step>)
    requires IsRun(c, steps)
    ensures Bounded(c, After(c, steps)) && 0 <= Rank(c, After(c, steps)) <= 9 * |Effective(c)| + 14 - |steps|
    decreases |steps|
  {
    if steps != [] {
      var init, last := steps[..|steps| - 1], steps[|steps| - 1];
      RankFalls(c, init);
      if last.ServerStep? {
        ServerRanks(c, After(c, init));
      } else {
        ClientRanks(c, After(c, init), last);
      }
    }
  }

  // ---- main results ----

  /** Every run ends: no schedule has more than 9n + 14 steps for n protocols. */
  lemma {:induction false} Terminates(c: Config, steps: seq<Step>)
    requires IsRun(c, steps)
    ensures |steps| <= 9 * |Effective(c)| + 14
  {
    RankFalls(c, steps);
  }

  /** The server's results are the client's, for the tested protocols in order, but for one in flight. */
  ghost predicate Consistent(c: Config, s: State) {
    && |s.results| <= |s.clientResults| <= |s.results| + 1
    && |s.clientResults| <= |Tested(c, |Effective(c)|)|
    && (forall j :: 0 <= j < |s.results| ==> s.clientResults[j].metrics == s.results[j])
    && (forall j :: 0 <= j < |s.clientResults| ==> s.clientResults[j].protocol == Tested(c, |Effective(c)|)[j])
  }

  lemma {:induction false} TestedPrefix(c: Config, k: nat, n: nat)
    requires k <= n <= |Effective(c)|
    ensures Tested(c, k) <= Tested(c, n)
    decreases n - k
  {
    if k < n {
      TestedPrefix(c, k, n - 1);
      TestedNext(c, n - 1);
    }
  }

  lemma {:induction false} AgreedConsistent(c: Config, s: State, k: nat)
    requires Agreed(c, s, k)
    ensures Consistent(c, s)
  {
    TestedPrefix(c, k, |Effective(c)|);
  }

  lemma {:induction false} InFlightConsistent(c: Config, s: State, i: nat)
    requires ResultSent(c, s, i) && c.starts(i)
    ensures Consistent(c, s)
  {
    TestedNext(c, i);
    PairedNext(Tested(c, i), s.clientResults, s.results, s.protocols[i], s.toServer[0].metrics);
    TestedPrefix(c, i + 1, |Effective(c)|);
  }

  lemma {:induction false} InvConsistent(c: Config, s: State)
    requires Inv(c, s)
    ensures Consistent(c, s)
  {
    match s.server {
      case AwaitAuth =>
      case AwaitSelect =>
      case Configure(i) => AgreedConsistent(c, s, i);
      case AwaitReady(i) => AgreedConsistent(c, s, i);
      case AwaitResult(i) => if ResultSent(c, s, i) { InFlightConsistent(c, s, i); } else { AgreedConsistent(c, s, i); }
      case Summarise => AgreedConsistent(c, s, |Effective(c)|);
      case Ended => if !Refused(c, s) { AgreedConsistent(c, s, |Effective(c)|); }
      case Panicked(i) => AgreedConsistent(c, s, i);
    }
  }

  /** At all times both sides' results agree in this sense. */
  lemma {:induction false} ResultsAgree(c: Config, steps: seq<Step>)
    requires IsRun(c, steps)
    ensures Consistent(c, After(c, steps))
  {
    InvAlways(c, steps);
    InvConsistent(c, After(c, steps));
  }

  /** The runs stop only when both parties have finished: nobody waits for ever. */
  lemma {:induction false} NeverStuck(c: Config, steps: seq<Step>)
    requires IsRun(c, steps)
    ensures var s := After(c, steps);
            ServerEnabled(s) || ClientEnabled(s) || (ServerOver(s) && ClientOver(s))
  {
    InvAlways(c, steps);
  }

  function Measurement(step: Step): Metrics
    requires step.ClientStep?
  {
    Metrics(step.latency, step.bandwidth, PacketLoss(step.loss))
  }

  /** The results the client has from index `k` on are those of the script. */
  ghost predicate Follows(script: nat -> Step, results: seq<ProtocolResult>, k: nat) {
    forall j :: k <= j < |results| ==> script(j).ClientStep? && results[j].metrics == Measurement(script(j))
  }

  lemma {:induction false} ResultsGrow(c: Config, s: State, step: Step)
    ensures var t := Move(c, s, step);
            || t.clientResults == s.clientResults
            || (step.ClientStep? && |t.clientResults| == |s.clientResults| + 1 && s.clientResults <= t.clientResults
                && t.clientResults[|s.clientResults|].metrics == Measurement(step))
  {
  }

  ghost predicate Finished(c: Config, steps: seq<Step>) {
    IsRun(c, steps) && !ServerEnabled(After(c, steps)) && !ClientEnabled(After(c, steps))
  }

  /**
    Every run can be continued until both parties have finished, whatever the client is going to
    measure: `script(j)` is the step that measures its j-th result.
   */
  lemma {:induction false} Finishes(c: Config, steps: seq<Step>, script: nat -> Step) returns (all: seq<Step>)
    requires IsRun(c, steps) && forall j :: script(j).ClientStep?
    ensures steps <= all && Finished(c, all) && After(c, steps).clientResults <= After(c, all).clientResults
    ensures Follows(script, After(c, all).clientResults, |After(c, steps).clientResults|)
    decreases 9 * |Effective(c)| + 14 - |steps|
  {
    all := steps;
    if !Finished(c, steps) {
      var more := Advance(c, steps, script);
      all := Finishes(c, more, script);
      FollowsFrom(script, After(c, steps).clientResults, After(c, more).clientResults, After(c, all).clientResults);
    }
  }

  lemma {:induction false} Advance(c: Config, steps: seq<Step>, script: nat -> Step) returns (more: seq<Step>)
    requires IsRun(c, steps) && !Finished(c, steps) && forall j :: script(j).ClientStep?
    ensures steps <= more && |steps| < |more| <= 9 * |Effective(c)| + 14 && IsRun(c, more)
    ensures Grows(script, After(c, steps).clientResults, After(c, more).clientResults)
  {
    var step := if ServerEnabled(After(c, steps)) then ServerStep else script(|After(c, steps).clientResults|);
    more := steps + [step];
    OneMore(c, steps, step);
    OneMoreGrows(c, steps, step, script);
  }

  /** Nothing new, or the next result of the script. */
  ghost predicate Grows(script: nat -> Step, a: seq<ProtocolResult>, b: seq<ProtocolResult>) {
    a == b || (a <= b && |b| == |a| + 1 && Follows(script, b, |a|))
  }

  lemma {:induction false} FollowsFrom(script: nat -> Step, a: seq<ProtocolResult>, b: seq<ProtocolResult>, all: seq<ProtocolResult>)
    requires b <= all && Follows(script, all, |b|)
    requires Grows(script, a, b)
    ensures a <= all && Follows(script, all, |a|)
  {
    assert forall j :: |a| <= j < |b| ==> all[j] == b[j];
  }

  lemma {:induction false} OneMore(c: Config, steps: seq<Step>, step: Step)
    requires IsRun(c, steps) && Enabled(After(c, steps), step)
    ensures IsRun(c, steps + [step]) && |steps| + 1 <= 9 * |Effective(c)| + 14
  {
    assert (steps + [step])[..|steps|] == steps;
    Terminates(c, steps + [step]);
  }

  lemma {:induction false} AfterOne(c: Config, steps: seq<Step>, step: Step, s: State)
    requires s == After(c, steps)
    ensures After(c, steps + [step]) == Move(c, s, step)
  {
    assert (steps + [step])[..|steps|] == steps;
  }

  lemma {:induction false} MoveGrows(c: Config, s: State, step: Step, script: nat -> Step, t: State)
    requires step.ServerStep? || (step.ClientStep? && step == script(|s.clientResults|))
    requires t == Move(c, s, step)
    ensures Grows(script, s.clientResults, t.clientResults)
  {
    ResultsGrow(c, s, step);
  }

  lemma {:induction false} OneMoreGrows(c: Config, steps: seq<Step>, step: Step, script: nat -> Step)
    requires step.ServerStep? || (step.ClientStep? && step == script(|After(c, steps).clientResults|))
    ensures Grows(script, After(c, steps).clientResults, After(c, steps + [step]).clientResults)
  {
    AfterOne(c, steps, step, After(c, steps));
    MoveGrows(c, After(c, steps), step, script, After(c, steps + [step]));
  }

  /** The token is right, the last target starts and every protocol whose targets start is known. */
  ghost predicate Servable(c: Config) {
    c.token == c.clientToken && LastStarts(c) && StartedKnown(c)
  }

  /**
    A finished evaluation has both parties over. It succeeds exactly when the configuration is
    servable; it then leaves both sides with the result of every tested protocol in order and the
    client with the stack summary, if stacks were requested. In particular it fails when the list is
    empty or the last target does not start, for then the server never says it is done.
   */
  lemma {:induction false} Outcome(c: Config, steps: seq<Step>)
    requires Finished(c, steps)
    ensures var s := After(c, steps);
            && ServerOver(s) && ClientOver(s)
            && (s.client.Succeeded? <==> Servable(c))
            && (s.client.Succeeded? ==>
                  && s.protocols == Effective(c) && s.summary == SummaryMessages(c, s)
                  && Paired(Collected(c.starts, Effective(c)), s.clientResults, s.results))
            && (c.token != c.clientToken ==> s.results == [] && s.clientResults == [])
  {
    NeverStuck(c, steps);
    InvAlways(c, steps);
    assert Effective(c)[..|Effective(c)|] == Effective(c);
  }

  /** A finished run contained an unexpected message exactly when the configuration misses. */
  lemma {:induction false} UnexpectedExactly(c: Config, steps: seq<Step>)
    requires Finished(c, steps)
    ensures After(c, steps).unexpected <==> Misses(c)
    ensures Misses(c) ==> After(c, steps).client.Failed?
  {
    NeverStuck(c, steps);
    InvAlways(c, steps);
  }

  /**
    Neither party ever receives a message it does not expect, in any run, if and only if the
    configuration does not miss.
   */
  lemma {:induction false} NothingUnexpected(c: Config)
    ensures (forall steps :: IsRun(c, steps) ==> !After(c, steps).unexpected) <==> !Misses(c)
  {
    if Misses(c) {
      var steps := Finishes(c, [], LossyAt(0));
      UnexpectedExactly(c, steps);
      assert IsRun(c, steps);
    } else {
      forall steps | IsRun(c, steps) ensures !After(c, steps).unexpected {
        InvAlways(c, steps);
      }
    }
  }

  /** A run with an unexpected message: the only target does not start and a stack was requested. */
  lemma {:induction false} LateSummary(c: Config, p: string, name: string) returns (steps: seq<Step>)
    requires c.token == c.clientToken && Effective(c) == [p] && !c.starts(0) && c.stackNames == [name]
    ensures Finished(c, steps) && After(c, steps).unexpected && After(c, steps).client.Failed?
    ensures After(c, steps).clientResults == []
  {
    steps := Finishes(c, [], LossyAt(0));
    UnexpectedExactly(c, steps);
    ResultsAgree(c, steps);
    assert [p][..0] == [] && [p][..1] == [p];
    assert Collected(c.starts, [p]) == [];
  }

  // ---- stack verdicts over runs ----

  /** The client was told PASS for the j-th stack exactly if it measured every constituent without loss. */
  ghost predicate ToldRight(c: Config, s: State, j: nat)
    requires j < |c.stackNames| && c.stackNames[j] in c.table
  {
    && |s.summary| == 1 && s.summary[0].StackSummary? && |s.summary[0].stacks| == |c.stackNames|
    && var told := s.summary[0].stacks[j];
    && told.name == c.stackNames[j]
    && (told.passed <==>
        forall p :: p in c.table[c.stackNames[j]] ==> Clean(Collected(c.starts, Effective(c)), s.results, p))
  }

  ghost predicate KnownStacks(c: Config) {
    forall n :: n in c.stackNames ==> n in c.table
  }

  lemma {:induction false} ToldIsVerdict(c: Config, steps: seq<Step>, j: nat)
    requires Finished(c, steps) && Servable(c) && KnownStacks(c) && j < |c.stackNames| && c.stackNames[j] in c.table
    ensures var s := After(c, steps);
            && Measured(Collected(c.starts, Effective(c)), s.results)
            && (ToldRight(c, s, j) <==>
                VerdictRight(Effective(c), Collected(c.starts, Effective(c)), s.results, c.table[c.stackNames[j]]))
  {
    Outcome(c, steps);
    SummaryEntries(c.table, c.stackNames, Effective(c), After(c, steps).results);
  }

  /** A client that loses packets only for its `bad`-th result. */
  function LossyAt(bad: nat): nat -> Step {
    j => ClientStep(Latency(0.0, 0.0, 0.0, 0.0, 0.0, 0.0), Bandwidth(0.0, 0.0), if j == bad then Ran(0, 1) else Ran(1, 0))
  }

  lemma {:induction false} WrongRun(c: Config, j: nat) returns (steps: seq<Step>)
    requires Servable(c) && KnownStacks(c) && j < |c.stackNames| && c.stackNames[j] in c.table
    requires !Aligned(Effective(c), Collected(c.starts, Effective(c)), c.table[c.stackNames[j]])
    ensures Finished(c, steps) && !ToldRight(c, After(c, steps), j)
  {
    var measured := Collected(c.starts, Effective(c));
    var bad := MisalignedIsWrong(Effective(c), measured, c.table[c.stackNames[j]]);
    steps := Finishes(c, [], LossyAt(bad));
    Outcome(c, steps);
    ToldIsVerdict(c, steps, j);
    assert OnlyLossAt(After(c, steps).results, bad);
  }

  /**
    The client is told the right verdict on a stack in every finished run if and only if the list and
    the tested protocols are aligned on it. This covers every list, chosen by either side, and every
    set of targets that fail to start.
   */
  lemma {:induction false} TrustedVerdicts(c: Config, j: nat)
    requires Servable(c) && KnownStacks(c) && j < |c.stackNames| && c.stackNames[j] in c.table
    ensures (forall steps :: Finished(c, steps) ==> ToldRight(c, After(c, steps), j)) <==>
            Aligned(Effective(c), Collected(c.starts, Effective(c)), c.table[c.stackNames[j]])
  {
    if Aligned(Effective(c), Collected(c.starts, Effective(c)), c.table[c.stackNames[j]]) {
      forall steps | Finished(c, steps) ensures ToldRight(c, After(c, steps), j) {
        ToldIsVerdict(c, steps, j);
        AlignedIsRight(Effective(c), Collected(c.starts, Effective(c)), After(c, steps).results, c.table[c.stackNames[j]]);
      }
    } else {
      var steps := WrongRun(c, j);
    }
  }

  /** Stack mode: the server's own list, resolved from the requested names, is used. */
  ghost predicate StackMode(c: Config, requested: seq<string>) {
    c.selection == [] && c.defaults == Resolved(c.table, requested) && c.stackNames == ValidNames(c.table, requested)
  }

  /**
    In stack mode the client is told the right verdict on a stack in every finished run if and only if
    no target fails to start at or before the index of any constituent; in particular when all start.
   */
  lemma {:induction false} StackVerdicts(c: Config, requested: seq<string>, j: nat)
    requires Servable(c) && StackMode(c, requested) && j < |c.stackNames|
    ensures c.stackNames[j] in c.table
    ensures (forall steps :: Finished(c, steps) ==> ToldRight(c, After(c, steps), j)) <==>
            StartedUpTo(c.starts, Effective(c), c.table[c.stackNames[j]])
    ensures AllStart(c.starts, |Effective(c)|) ==> StartedUpTo(c.starts, Effective(c), c.table[c.stackNames[j]])
  {
    ResolvedIsExact(c.table, requested);
    assert c.stackNames[j] in c.stackNames;
    var constituents := c.table[c.stackNames[j]];
    TrustedVerdicts(c, j);
    SkipVerdicts(c.starts, Effective(c), constituents);
    if AllStart(c.starts, |Effective(c)|) {
      forall p | p in constituents
        ensures p in Effective(c) && exists k :: 0 <= k < |Effective(c)| && Effective(c)[k] == p && AllStart(c.starts, k + 1)
      {
        assert p in Effective(c);
      }
    }
  }

  /** Two protocols, of which the first cannot be started and the second makes up the only stack. */
  ghost predicate SkipsFirst(c: Config, q: string, p: string, name: string) {
    && c.token == c.clientToken && Effective(c) == [q, p] && p in c.known
    && c.stackNames == [name] && c.table == map[name := [p]]
    && !c.starts(0) && c.starts(1)
  }

  /**
    A run with the wrong verdict: the first target does not start, the second protocol loses packets,
    the client succeeds and is told that the stack of the second passes.
   */
  lemma {:induction false} SkippedTargetPasses(c: Config, q: string, p: string, name: string) returns (steps: seq<Step>)
    requires p != q && SkipsFirst(c, q, p, name)
    ensures Finished(c, steps)
    ensures var s := After(c, steps);
            && s.client.Succeeded?
            && |s.clientResults| == 1 && s.clientResults[0].protocol == p && s.clientResults[0].metrics.loss > 0.0
            && s.summary == [StackSummary([StackResult(name, true, [p], [])])]
  {
    steps := Finishes(c, [], LossyAt(0));
    SkipsFirstServable(c, q, p, name);
    Outcome(c, steps);
    SecondTested(c, q, p);
    var s := After(c, steps);
    assert s.results == [s.results[0]];
    ShiftedPasses(name, q, p, s.results[0]);
  }

  lemma {:induction false} SkipsFirstServable(c: Config, q: string, p: string, name: string)
    requires SkipsFirst(c, q, p, name)
    ensures Servable(c)
  {
  }

  lemma {:induction false} SecondTested(c: Config, q: string, p: string)
    requires !c.starts(0) && c.starts(1)
    ensures Collected(c.starts, [q, p]) == [p]
  {
    assert [q, p][..1] == [q] && [q][..0] == [];
    assert Collected(c.starts, [q]) == [];
  }

  lemma {:induction false} ShiftedPasses(name: string, q: string, p: string, m: Metrics)
    requires p != q
    ensures Summary(map[name := [p]], [name], [q, p], [m]) == [StackResult(name, true, [p], [])]
  {
    PassMeansNoLoss([q, p], [m], [p]);
    assert [name][1..] == [];
    assert Summary(map[name := [p]], [], [q, p], [m]) == [];
  }

  // ---- the deployed tables ----

  const DEFAULT_PROTOCOLS := [
    "reality", "anytls", "tls", "raw", "ws", "ws+tls", "httpupgrade", "httpupgrade+tls", "grpc", "grpc+tls",
    "xhttp", "xhttp+tls", "quic", "kcp", "webtransport", "shadowtls", "vmess"]

  /** The protocols `build_proxy_config` can configure. */
  const KNOWN := {
    "reality", "anytls", "tls", "raw", "ws", "ws+tls", "httpupgrade", "httpupgrade+tls", "grpc", "grpc+tls",
    "xhttp", "xhttp+tls", "quic", "kcp", "webtransport", "shadowtls", "vmess"}

  /** The default protocols are known, and so are those of whatever stacks are requested. */
  lemma {:induction false} StackProtocolsKnown(requested: seq<string>)
    ensures forall p :: p in Resolved(STACKS, requested) ==> p in KNOWN
    ensures forall p :: p in DEFAULT_PROTOCOLS ==> p in KNOWN
  {
    ResolvedIsExact(STACKS, requested);
  }
}
