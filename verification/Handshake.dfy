/** The OPEN/ACK handshake of the reverse-agent tunnel: any number of streams between one gateway
    and one agent, whose accept loop bounds its handlers by a semaphore. Frames travel in order per
    stream; every read, write and dial may fail at any time. */
module Handshake {

  type StreamID = nat

  /** The gateway half: DialTarget on one stream. */
  datatype GatewayPhase = Opened | Awaiting | Connected | Failed

  /** The agent half: where the accept loop or the stream's handler stands. */
  datatype AgentPhase =
    | Unaccepted
    | Offered                                  // accepted, no token yet
    | HasToken                                 // semaphore slot taken
    | Counted                                  // wait group incremented, handler not started yet
    | Reading                                  // handler: waiting for the OPEN frame
    | Dialing(network: string, target: string)
    | DialOk(network: string, target: string)
    | DialFailed
    | Splicing
    | Closing                                  // handler function returned
    | Released                                 // semaphore slot given back, wait group not yet
    | Done
    | Refused

  datatype Open = Open(network: string, target: string)
  datatype Dial = NeverDialed | Dialed(network: string, target: string)

  datatype Stream = Stream(
    network: string, target: string, gateway: GatewayPhase, agent: AgentPhase,
    toAgent: seq<Open>, toGateway: seq<bool>, acks: nat, dial: Dial)

  datatype Loop = Accepting | Busy(s: StreamID) | Draining | Returned

  datatype State = State(streams: map<StreamID, Stream>, loop: Loop, tokens: nat, waiting: nat)

  /** What can happen on one stream. */
  datatype Event =
    | SendOpen(ok: bool)
    | RecvAck
    | RecvFails
    | Accept
    | TakeToken
    | Refuse(delivered: bool)
    | CountUp
    | Spawn
    | ReadOpen
    | ReadFails
    | DialReturns(ok: bool)
    | AckDial(written: bool, delivered: bool)
    | SpliceEnds
    | ReleaseToken
    | HandlerDone

  datatype Action = OpenStream(s: StreamID, network: string, target: string) | AcceptFails | Return
    | On(s: StreamID, event: Event)

  const INITIAL := State(map[], Accepting, 0, 0)

  /** An OPEN frame without a network asks for tcp. */
  function NetworkOf(network: string): string {
    if network == "" then "tcp" else network
  }

  predicate GatewayAt(st: State, s: StreamID, p: GatewayPhase) {
    s in st.streams && st.streams[s].gateway == p
  }

  predicate CanMove(x: Stream, e: Event) {
    match e
    case SendOpen(_) => x.gateway == Opened
    case RecvAck => x.gateway == Awaiting && x.toGateway != []
    case RecvFails => x.gateway == Awaiting
    case Accept => x.agent == Unaccepted
    case TakeToken => x.agent == Offered
    case Refuse(_) => x.agent == Offered
    case CountUp => x.agent == HasToken
    case Spawn => x.agent == Counted
    case ReadOpen => x.agent == Reading && x.toAgent != []
    case ReadFails => x.agent == Reading
    case DialReturns(_) => x.agent.Dialing?
    case AckDial(_, _) => x.agent.DialOk? || x.agent.DialFailed?
    case SpliceEnds => x.agent == Splicing
    case ReleaseToken => x.agent == Closing
    case HandlerDone => x.agent == Released
  }

  /** The stream after an event. */
  function Moved(x: Stream, e: Event): Stream
    requires CanMove(x, e)
  {
    match e
    case SendOpen(ok) =>
      if ok then x.(gateway := Awaiting, toAgent := x.toAgent + [Open(x.network, x.target)]) else x.(gateway := Failed)
    case RecvAck => x.(gateway := if x.toGateway[0] then Connected else Failed, toGateway := x.toGateway[1..])
    case RecvFails => x.(gateway := Failed)
    case Accept => x.(agent := Offered)
    case TakeToken => x.(agent := HasToken)
    case Refuse(delivered) => Acked(x, false, delivered).(agent := Refused)
    case CountUp => x.(agent := Counted)
    case Spawn => x.(agent := Reading)
    case ReadOpen =>
      x.(agent := Dialing(NetworkOf(x.toAgent[0].network), x.toAgent[0].target), toAgent := x.toAgent[1..])
    case ReadFails => x.(agent := Closing)
    case DialReturns(ok) =>
      if ok then x.(agent := DialOk(x.agent.network, x.agent.target), dial := Dialed(x.agent.network, x.agent.target))
      else x.(agent := DialFailed)
    case AckDial(written, delivered) =>
      Acked(x, x.agent.DialOk?, delivered).(agent := if x.agent.DialOk? && written then Splicing else Closing)
    case SpliceEnds => x.(agent := Closing)
    case ReleaseToken => x.(agent := Released)
    case HandlerDone => x.(agent := Done)
  }

  /** One ACK is written; whether it gets through is another matter. */
  function Acked(x: Stream, ok: bool, delivered: bool): Stream {
    x.(acks := x.acks + 1, toGateway := if delivered then x.toGateway + [ok] else x.toGateway)
  }

  predicate LoopEvent(e: Event) { e.TakeToken? || e.Refuse? || e.CountUp? || e.Spawn? }

  predicate Enabled(limit: nat, st: State, a: Action) {
    match a
    case OpenStream(s, _, _) => s !in st.streams
    case AcceptFails => st.loop == Accepting
    case Return => st.loop == Draining && st.waiting == 0
    case On(s, e) =>
      && s in st.streams && CanMove(st.streams[s], e)
      && (e.Accept? ==> st.loop == Accepting)
      && (LoopEvent(e) ==> st.loop == Busy(s))
      && (e.TakeToken? ==> st.tokens < limit)
      && (e.Refuse? ==> st.tokens >= limit)
      && (e.ReleaseToken? ==> st.tokens > 0)
      && (e.HandlerDone? ==> st.waiting > 0)
  }

  function Apply(limit: nat, st: State, a: Action): State
    requires Enabled(limit, st, a)
  {
    match a
    case OpenStream(s, network, target) =>
      st.(streams := st.streams[s := Stream(network, target, Opened, Unaccepted, [], [], 0, NeverDialed)])
    case AcceptFails => st.(loop := Draining)
    case Return => st.(loop := Returned)
    case On(s, e) =>
      State(
        st.streams[s := Moved(st.streams[s], e)],
        if e.Accept? then Busy(s) else if e.Refuse? || e.Spawn? then Accepting else st.loop,
        if e.TakeToken? then st.tokens + 1 else if e.ReleaseToken? then st.tokens - 1 else st.tokens,
        if e.CountUp? then st.waiting + 1 else if e.HandlerDone? then st.waiting - 1 else st.waiting)
  }

  // ---- The invariant ------------------------------------------------------------------------

  predicate BeforeAck(p: AgentPhase) {
    p.Unaccepted? || p.Offered? || p.HasToken? || p.Counted? || p.Reading? || p.Dialing? || p.DialOk? || p.DialFailed?
  }

  /** The dial made for a stream is the one its gateway asked for. */
  ghost predicate RequestOk(x: Stream) {
    && (x.gateway == Opened ==> x.toAgent == [])
    && (forall i | 0 <= i < |x.toAgent| :: x.toAgent[i] == Open(x.network, x.target))
    && (x.agent.Dialing? || x.agent.DialOk? ==> x.agent.network == NetworkOf(x.network) && x.agent.target == x.target)
    && (x.dial.Dialed? ==> x.dial == Dialed(NetworkOf(x.network), x.target))
  }

  /** At most one ACK, and a positive one only after a successful dial. */
  ghost predicate AcksOk(x: Stream) {
    && (x.agent.DialOk? ==> x.dial.Dialed?)
    && (forall i | 0 <= i < |x.toGateway| :: x.toGateway[i] ==> x.dial.Dialed?)
    && (x.gateway == Connected ==> x.dial.Dialed?)
    && x.acks <= 1 && (BeforeAck(x.agent) ==> x.acks == 0)
    && |x.toGateway| + (if x.gateway == Connected then 1 else 0) <= x.acks
  }

  /** What holds of every stream by itself. */
  ghost predicate StreamOk(x: Stream) { RequestOk(x) && AcksOk(x) }

  predicate InLoop(p: AgentPhase) { p.Offered? || p.HasToken? || p.Counted? }

  /** A started handler whose function has not given its slot back. */
  predicate Running(p: AgentPhase) {
    p.Reading? || p.Dialing? || p.DialOk? || p.DialFailed? || p.Splicing? || p.Closing?
  }

  predicate Slotted(p: AgentPhase) { p.HasToken? || p.Counted? || Running(p) }

  predicate Awaited(p: AgentPhase) { p.Counted? || Running(p) || p.Released? }

  function Having(st: State, p: AgentPhase -> bool): set<StreamID> {
    set s | s in st.streams && p(st.streams[s].agent)
  }

  ghost predicate CountsOk(limit: nat, st: State) {
    && st.tokens == |Having(st, Slotted)| && st.tokens <= limit
    && st.waiting == |Having(st, Awaited)|
    && (st.loop == Returned ==> st.waiting == 0)
  }

  ghost predicate LoopOk(st: State) {
    && (forall s | s in st.streams :: InLoop(st.streams[s].agent) <==> st.loop == Busy(s))
    && (st.loop.Busy? ==> st.loop.s in st.streams)
  }

  ghost predicate Inv(limit: nat, st: State) {
    (forall s | s in st.streams :: StreamOk(st.streams[s])) && LoopOk(st) && CountsOk(limit, st)
  }

  lemma SameButOne(a: set<StreamID>, b: set<StreamID>, s: StreamID)
    requires forall u | u != s :: u in a <==> u in b
    ensures |b| == |a| - (if s in a then 1 else 0) + (if s in b then 1 else 0)
  {
    assert a - {s} == b - {s};
    assert s !in a ==> a - {s} == a;
    assert s !in b ==> b - {s} == b;
  }

  lemma HavingAfter(st: State, st': State, s: StreamID, x: Stream, p: AgentPhase -> bool)
    requires st'.streams == st.streams[s := x]
    ensures |Having(st', p)| == |Having(st, p)| - (if s in Having(st, p) then 1 else 0) + (if p(x.agent) then 1 else 0)
  {
    forall u ensures u in Having(st', p) <==> if u == s then p(x.agent) else u in Having(st, p) {
    }
    SameButOne(Having(st, p), Having(st', p), s);
  }

  lemma MoveKeepsRequest(x: Stream, e: Event)
    requires StreamOk(x) && CanMove(x, e)
    ensures RequestOk(Moved(x, e))
  {
  }

  lemma MoveKeepsAcks(x: Stream, e: Event)
    requires StreamOk(x) && CanMove(x, e)
    ensures AcksOk(Moved(x, e))
  {
  }

  /** Which events take a slot, give one back, or pass through the accept loop. */
  lemma MoveCounts(x: Stream, e: Event)
    requires CanMove(x, e)
    ensures Slotted(Moved(x, e).agent) <==> (Slotted(x.agent) && !e.ReleaseToken?) || e.TakeToken?
    ensures e.TakeToken? ==> !Slotted(x.agent)
    ensures e.ReleaseToken? ==> Slotted(x.agent)
    ensures Awaited(Moved(x, e).agent) <==> (Awaited(x.agent) && !e.HandlerDone?) || e.CountUp?
    ensures e.CountUp? ==> !Awaited(x.agent)
    ensures e.HandlerDone? ==> Awaited(x.agent)
    ensures InLoop(Moved(x, e).agent) <==> (InLoop(x.agent) && !e.Refuse? && !e.Spawn?) || e.Accept?
    ensures LoopEvent(e) ==> InLoop(x.agent)
    ensures e.Accept? ==> !InLoop(x.agent)
  {
  }

  lemma EventKeepsCounts(limit: nat, st: State, s: StreamID, e: Event)
    requires Inv(limit, st) && Enabled(limit, st, On(s, e))
    ensures CountsOk(limit, Apply(limit, st, On(s, e)))
  {
    hide Moved;
    hide CanMove;
    hide StreamOk;
    hide LoopOk;
    var x := st.streams[s];
    MoveCounts(x, e);
    var st' := Apply(limit, st, On(s, e));
    HavingAfter(st, st', s, Moved(x, e), Slotted);
    HavingAfter(st, st', s, Moved(x, e), Awaited);
  }

  lemma EventKeepsLoop(limit: nat, st: State, s: StreamID, e: Event)
    requires Inv(limit, st) && Enabled(limit, st, On(s, e))
    ensures LoopOk(Apply(limit, st, On(s, e)))
  {
    hide Moved;
    hide CanMove;
    hide StreamOk;
    hide CountsOk;
    MoveCounts(st.streams[s], e);
  }

  lemma EventKeepsInv(limit: nat, st: State, s: StreamID, e: Event)
    requires Inv(limit, st) && Enabled(limit, st, On(s, e))
    ensures Inv(limit, Apply(limit, st, On(s, e)))
  {
    hide Moved;
    hide CanMove;
    EventKeepsCounts(limit, st, s, e);
    EventKeepsLoop(limit, st, s, e);
    MoveKeepsRequest(st.streams[s], e);
    MoveKeepsAcks(st.streams[s], e);
    hide RequestOk;
    hide AcksOk;
    hide CountsOk;
    hide LoopOk;
  }

  lemma OpenKeepsCounts(limit: nat, st: State, s: StreamID, network: string, target: string)
    requires CountsOk(limit, st) && s !in st.streams
    ensures CountsOk(limit, Apply(limit, st, OpenStream(s, network, target)))
  {
    hide Having;
    var st' := Apply(limit, st, OpenStream(s, network, target));
    HavingAfter(st, st', s, st'.streams[s], Slotted);
    HavingAfter(st, st', s, st'.streams[s], Awaited);
    NotHaving(st, s, Slotted);
    NotHaving(st, s, Awaited);
  }

  lemma NotHaving(st: State, s: StreamID, p: AgentPhase -> bool)
    requires s !in st.streams
    ensures s !in Having(st, p)
  {
  }

  lemma OpenKeepsInv(limit: nat, st: State, s: StreamID, network: string, target: string)
    requires Inv(limit, st) && s !in st.streams
    ensures Inv(limit, Apply(limit, st, OpenStream(s, network, target)))
  {
    var st' := Apply(limit, st, OpenStream(s, network, target));
    assert StreamOk(st'.streams[s]);
    hide StreamOk;
    OpenKeepsCounts(limit, st, s, network, target);
    hide CountsOk;
    assert LoopOk(st') by {
      assert st'.loop == st.loop && !InLoop(st'.streams[s].agent);
      assert st.loop != Busy(s);
    }
    hide LoopOk;
  }

  lemma StepKeepsInv(limit: nat, st: State, a: Action)
    requires Inv(limit, st) && Enabled(limit, st, a)
    ensures Inv(limit, Apply(limit, st, a))
  {
    hide StreamOk;
    match a {
      case On(s, e) => EventKeepsInv(limit, st, s, e);
      case OpenStream(s, network, target) => OpenKeepsInv(limit, st, s, network, target);
      case _ =>
        var st' := Apply(limit, st, a);
        assert Having(st', Slotted) == Having(st, Slotted) && Having(st', Awaited) == Having(st, Awaited);
    }
  }

  // ---- Runs ---------------------------------------------------------------------------------

  ghost predicate IsRun(limit: nat, states: seq<State>, actions: seq<Action>) {
    && |states| == |actions| + 1 && states[0] == INITIAL
    && forall i | 0 <= i < |actions| ::
         Enabled(limit, states[i], actions[i]) && states[i + 1] == Apply(limit, states[i], actions[i])
  }

  lemma {:induction false} RunKeepsInv(limit: nat, states: seq<State>, actions: seq<Action>, n: nat)
    requires IsRun(limit, states, actions) && n < |states|
    ensures Inv(limit, states[n])
  {
    if n > 0 {
      RunKeepsInv(limit, states, actions, n - 1);
      StepKeepsInv(limit, states[n - 1], actions[n - 1]);
    } else {
      assert Having(INITIAL, Slotted) == {} && Having(INITIAL, Awaited) == {};
    }
  }

  /** DialTarget hands out a connection only when the agent has dialled exactly the requested target,
      successfully, for that very stream; and then no control frame is left in the pipe. */
  lemma ConnectedMeansDialed(limit: nat, states: seq<State>, actions: seq<Action>, n: nat, s: StreamID)
    requires IsRun(limit, states, actions) && n < |states|
    requires GatewayAt(states[n], s, Connected)
    ensures var x := states[n].streams[s];
      && x.dial == Dialed(if x.network == "" then "tcp" else x.network, x.target) && x.toGateway == [] && x.acks == 1
      && exists k: nat :: k < n && actions[k] == OpenStream(s, x.network, x.target)
  {
    RunKeepsInv(limit, states, actions, n);
    var _ := WhenOpened(limit, states, actions, n, s);
  }

  lemma {:induction false} WhenOpened(limit: nat, states: seq<State>, actions: seq<Action>, n: nat, s: StreamID)
    returns (k: nat)
    requires IsRun(limit, states, actions) && n < |states| && s in states[n].streams
    ensures k < n && actions[k] == OpenStream(s, states[n].streams[s].network, states[n].streams[s].target)
  {
    k := n - 1;
    if s in states[n - 1].streams {
      k := WhenOpened(limit, states, actions, n - 1, s);
    }
  }

  /** A run that goes on by one event of a stream. */
  lemma Then(limit: nat, states: seq<State>, actions: seq<Action>, s: StreamID, e: Event)
    returns (states': seq<State>, actions': seq<Action>, last: State)
    requires IsRun(limit, states, actions) && Enabled(limit, states[|states| - 1], On(s, e))
    ensures IsRun(limit, states', actions')
    ensures last == states'[|states'| - 1] == Apply(limit, states[|states| - 1], On(s, e))
    ensures actions' == actions + [On(s, e)]
  {
    hide Apply;
    hide Enabled;
    last := Apply(limit, states[|states| - 1], On(s, e));
    states', actions' := states + [last], actions + [On(s, e)];
  }

  lemma Opening(limit: nat, states: seq<State>, actions: seq<Action>, s: StreamID, network: string, target: string)
    returns (states': seq<State>, actions': seq<Action>, last: State)
    requires IsRun(limit, states, actions) && s !in states[|states| - 1].streams
    ensures IsRun(limit, states', actions') && last == states'[|states'| - 1]
    ensures var st := states[|states| - 1];
      last == st.(streams := st.streams[s := Stream(network, target, Opened, Unaccepted, [], [], 0, NeverDialed)])
    ensures actions' == actions + [OpenStream(s, network, target)]
  {
    last := Apply(limit, states[|states| - 1], OpenStream(s, network, target));
    states', actions' := states + [last], actions + [OpenStream(s, network, target)];
  }

  /** The accept loop hands a stream whose OPEN frame is under way to a handler. */
  lemma HandedOver(limit: nat, states: seq<State>, actions: seq<Action>, s: StreamID, x: Stream)
    returns (states': seq<State>, actions': seq<Action>, last: State)
    requires IsRun(limit, states, actions) && x.agent == Unaccepted
    requires var st := states[|states| - 1];
      s in st.streams && st.streams[s] == x && st.loop == Accepting && st.tokens < limit
    ensures IsRun(limit, states', actions') && last == states'[|states'| - 1]
    ensures s in last.streams && last.streams[s] == x.(agent := Reading)
    ensures actions' == actions + [On(s, Accept), On(s, TakeToken), On(s, CountUp), On(s, Spawn)]
  {
    hide IsRun;
    states', actions', last := Then(limit, states, actions, s, Accept);
    assert last.streams[s] == x.(agent := Offered) && last.loop == Busy(s) && last.tokens < limit;
    states', actions', last := Then(limit, states', actions', s, TakeToken);
    assert last.streams[s] == x.(agent := HasToken) && last.loop == Busy(s);
    hide Apply;
    hide Enabled;
    states', actions', last := Spawned(limit, states', actions', s, x);
  }

  lemma Spawned(limit: nat, states: seq<State>, actions: seq<Action>, s: StreamID, x: Stream)
    returns (states': seq<State>, actions': seq<Action>, last: State)
    requires IsRun(limit, states, actions)
    requires var st := states[|states| - 1];
      s in st.streams && st.streams[s] == x.(agent := HasToken) && st.loop == Busy(s)
    ensures IsRun(limit, states', actions') && last == states'[|states'| - 1]
    ensures s in last.streams && last.streams[s] == x.(agent := Reading)
    ensures actions' == actions + [On(s, CountUp), On(s, Spawn)]
  {
    hide IsRun;
    states', actions', last := Then(limit, states, actions, s, CountUp);
    assert last.streams[s] == x.(agent := Counted) && last.loop == Busy(s);
    states', actions', last := Then(limit, states', actions', s, Spawn);
  }

  /** A handler that finds the OPEN frame dials, says so, and the gateway has its connection. */
  lemma Answered(limit: nat, states: seq<State>, actions: seq<Action>, s: StreamID, x: Stream)
    returns (states': seq<State>, actions': seq<Action>, last: State)
    requires IsRun(limit, states, actions)
    requires x == Stream(x.network, x.target, Awaiting, Reading, [Open(x.network, x.target)], [], 0, NeverDialed)
    requires var st := states[|states| - 1]; s in st.streams && st.streams[s] == x
    ensures IsRun(limit, states', actions') && last == states'[|states'| - 1] && GatewayAt(last, s, Connected)
    ensures last.streams[s].target == x.target && last.streams[s].network == x.network
    ensures actions' == actions
      + [On(s, ReadOpen), On(s, DialReturns(true)), On(s, AckDial(true, true)), On(s, RecvAck)]
  {
    hide IsRun;
    var network := NetworkOf(x.network);
    hide NetworkOf;
    states', actions', last := Then(limit, states, actions, s, ReadOpen);
    var y := x.(agent := Dialing(network, x.target), toAgent := []);
    assert last.streams[s] == y;
    states', actions', last := Then(limit, states', actions', s, DialReturns(true));
    y := y.(agent := DialOk(network, x.target), dial := Dialed(network, x.target));
    assert last.streams[s] == y;
    states', actions', last := Then(limit, states', actions', s, AckDial(true, true));
    assert last.streams[s] == y.(agent := Splicing, acks := 1, toGateway := [true]);
    states', actions', last := Then(limit, states', actions', s, RecvAck);
  }

  /** From every state in which the accept loop accepts and a slot is free, a new stream for any target can
      get its connection. */
  lemma ConnectionReachable(limit: nat, states: seq<State>, actions: seq<Action>, s: StreamID, network: string,
                            target: string)
    returns (states': seq<State>, actions': seq<Action>)
    requires IsRun(limit, states, actions)
    requires var st := states[|states| - 1]; s !in st.streams && st.loop == Accepting && st.tokens < limit
    ensures IsRun(limit, states', actions') && |actions| <= |actions'| && actions'[..|actions|] == actions
    ensures var last := states'[|states'| - 1];
      GatewayAt(last, s, Connected) && last.streams[s].target == target && last.streams[s].network == network
  {
    hide IsRun;
    var st: State;
    states', actions', st := Opening(limit, states, actions, s, network, target);
    states', actions', st := Then(limit, states', actions', s, SendOpen(true));
    var x := Stream(network, target, Awaiting, Unaccepted, [Open(network, target)], [], 0, NeverDialed);
    assert st.streams[s] == x && st.loop == Accepting && st.tokens < limit;
    hide Apply;
    hide Enabled;
    states', actions', st := HandedOver(limit, states', actions', s, x);
    states', actions', st := Answered(limit, states', actions', s, x.(agent := Reading));
  }

  /** The dial was made with what the gateway asked for when it opened the stream. */
  lemma {:induction false} RequestFixed(limit: nat, states: seq<State>, actions: seq<Action>, m: nat, n: nat,
                                        s: StreamID)
    requires IsRun(limit, states, actions) && m <= n < |states| && s in states[m].streams
    ensures s in states[n].streams
    ensures states[n].streams[s].network == states[m].streams[s].network
    ensures states[n].streams[s].target == states[m].streams[s].target
    ensures states[m].streams[s].acks <= states[n].streams[s].acks
  {
    if m < n {
      RequestFixed(limit, states, actions, m, n - 1, s);
    }
  }

  /** The agent writes at most one ACK per stream, whichever of its paths the stream takes. */
  lemma AtMostOneAck(limit: nat, states: seq<State>, actions: seq<Action>, n: nat, s: StreamID)
    requires IsRun(limit, states, actions) && n < |states| && s in states[n].streams
    ensures states[n].streams[s].acks <= 1
  {
    RunKeepsInv(limit, states, actions, n);
  }

  /** The accept loop holds a slot for a handler it is about to start. */
  ghost predicate Starting(st: State) {
    st.loop.Busy? && st.loop.s in st.streams && !st.streams[st.loop.s].agent.Offered?
  }

  lemma SlotsAreRunning(st: State)
    requires LoopOk(st)
    ensures |Having(st, Slotted)| == |Having(st, Running)| + if Starting(st) then 1 else 0
  {
    if Starting(st) {
      var s := st.loop.s;
      assert InLoop(st.streams[s].agent);
      assert Having(st, Slotted) == Having(st, Running) + {s};
    } else {
      forall s | s in st.streams ensures Slotted(st.streams[s].agent) <==> Running(st.streams[s].agent) {
        assert InLoop(st.streams[s].agent) <==> st.loop == Busy(s);
      }
      assert Having(st, Slotted) == Having(st, Running);
    }
  }

  /** Held semaphore slots are exactly the running handlers, plus the one the accept loop is about to
      start, and never exceed the limit. */
  lemma HandlersBounded(limit: nat, states: seq<State>, actions: seq<Action>, n: nat)
    requires IsRun(limit, states, actions) && n < |states|
    ensures var st := states[n];
      && st.tokens == |Having(st, Running)| + (if Starting(st) then 1 else 0)
      && |Having(st, Running)| <= st.tokens <= limit
  {
    hide StreamOk;
    hide LoopOk;
    hide Apply;
    RunKeepsInv(limit, states, actions, n);
    SlotsAreRunning(states[n]);
  }

  /** When the accept loop has returned, no handler is left and no slot is held. */
  lemma ReturnedMeansDrained(limit: nat, states: seq<State>, actions: seq<Action>, n: nat)
    requires IsRun(limit, states, actions) && n < |states| && states[n].loop == Returned
    ensures Having(states[n], Awaited) == {} && Having(states[n], Running) == {} && states[n].tokens == 0
  {
    RunKeepsInv(limit, states, actions, n);
    HandlersBounded(limit, states, actions, n);
    var st := states[n];
    assert Having(st, Running) <= Having(st, Awaited);
  }

  /** A stream is refused only while every slot is taken, and then it is told so. */
  lemma RefusedOnlyWhenFull(limit: nat, states: seq<State>, actions: seq<Action>, n: nat)
    requires IsRun(limit, states, actions) && n < |actions| && actions[n].On? && actions[n].event.Refuse?
    ensures |Having(states[n], Running)| == limit
  {
    HandlersBounded(limit, states, actions, n);
  }

  lemma SlotIsCounted(limit: nat, st: State, s: StreamID)
    requires CountsOk(limit, st) && s in st.streams
    ensures Slotted(st.streams[s].agent) ==> st.tokens > 0
    ensures Awaited(st.streams[s].agent) ==> st.waiting > 0
  {
    assert Slotted(st.streams[s].agent) ==> s in Having(st, Slotted);
    assert Awaited(st.streams[s].agent) ==> s in Having(st, Awaited);
  }

  lemma CanFinish(limit: nat, st: State, s: StreamID)
    requires CountsOk(limit, st) && s in st.streams
    ensures Enabled(limit, st, On(s, ReleaseToken)) <==> st.streams[s].agent == Closing
    ensures Enabled(limit, st, On(s, HandlerDone)) <==> st.streams[s].agent == Released
  {
    SlotIsCounted(limit, st, s);
    hide CountsOk;
  }

  /** A handler whose function has returned can always give its slot back and sign off. */
  lemma HandlersCanFinish(limit: nat, states: seq<State>, actions: seq<Action>, n: nat, s: StreamID)
    requires IsRun(limit, states, actions) && n < |states| && s in states[n].streams
    ensures Enabled(limit, states[n], On(s, ReleaseToken)) <==> states[n].streams[s].agent == Closing
    ensures Enabled(limit, states[n], On(s, HandlerDone)) <==> states[n].streams[s].agent == Released
  {
    hide Enabled;
    hide Apply;
    hide CountsOk;
    RunKeepsInv(limit, states, actions, n);
    CanFinish(limit, states[n], s);
  }
}
