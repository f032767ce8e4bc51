/** The connection handlers around the tunnel registry: each registers its tunnel, waits for the session
    to end, and unregisters by agent id. The registry steps are those of Registry.Registry. */
module TunnelHandlers {

  type AgentID = nat
  type HandlerID = nat

  datatype Phase =
    | Serving                     // waits for its session to end
    | Ended                       // has seen the end, about to unregister
    | Gone

  datatype Handler = Handler(agent: AgentID, phase: Phase)

  /** Which handler's tunnel is registered for an agent, and which tunnels have been closed. */
  datatype State = State(byAgent: map<AgentID, HandlerID>, handlers: map<HandlerID, Handler>, closed: set<HandlerID>)

  const INITIAL := State(map[], map[], {})

  datatype Action =
    | Connect(h: HandlerID, agent: AgentID)
    | SessionEnds(h: HandlerID)
    | Unregister(h: HandlerID)
    | Disconnect(agent: AgentID)

  predicate At(s: State, h: HandlerID, p: Phase) {
    h in s.handlers && s.handlers[h].phase == p
  }

  /** A session can end at any time, by itself or because its tunnel was closed. */
  predicate Enabled(s: State, a: Action) {
    match a
    case Connect(h, _) => h !in s.handlers
    case SessionEnds(h) => At(s, h, Serving)
    case Unregister(h) => At(s, h, Ended)
    case Disconnect(_) => true
  }

  function Moved(s: State, h: HandlerID, p: Phase): map<HandlerID, Handler>
    requires h in s.handlers
  {
    s.handlers[h := s.handlers[h].(phase := p)]
  }

  function Apply(s: State, a: Action): State
    requires Enabled(s, a)
  {
    match a
    case Connect(h, agent) =>
      State(s.byAgent[agent := h], s.handlers[h := Handler(agent, Serving)],
            if agent in s.byAgent then s.closed + {s.byAgent[agent]} else s.closed)
    case SessionEnds(h) => s.(handlers := Moved(s, h, Ended))
    case Unregister(h) =>
      State(s.byAgent - {s.handlers[h].agent}, Moved(s, h, Gone), s.closed + {h})
    case Disconnect(agent) =>
      s.(byAgent := s.byAgent - {agent},
         closed := if agent in s.byAgent then s.closed + {s.byAgent[agent]} else s.closed)
  }

  ghost predicate IsRun(states: seq<State>, actions: seq<Action>) {
    && |states| == |actions| + 1 && states[0] == INITIAL
    && forall i | 0 <= i < |actions| :: Enabled(states[i], actions[i]) && states[i + 1] == Apply(states[i], actions[i])
  }

  /** Every registered tunnel is its own agent's, and none has been closed by registry or handler. */
  ghost predicate Inv(s: State) {
    && (forall a | a in s.byAgent :: s.byAgent[a] in s.handlers && s.handlers[s.byAgent[a]].agent == a)
    && (forall a | a in s.byAgent :: s.byAgent[a] !in s.closed)
    && (forall h | h in s.closed :: h in s.handlers)
  }

  lemma {:induction false} RunKeepsInv(states: seq<State>, actions: seq<Action>, n: nat)
    requires IsRun(states, actions) && n < |states|
    ensures Inv(states[n])
  {
    if n > 0 {
      RunKeepsInv(states, actions, n - 1);
      StepKeepsInv(states[n - 1], actions[n - 1]);
    }
  }

  lemma StepKeepsInv(s: State, a: Action)
    requires Inv(s) && Enabled(s, a)
    ensures Inv(Apply(s, a))
  {
    if a.Unregister? {
      assert forall b | b in s.byAgent && b != s.handlers[a.h].agent :: s.byAgent[b] != a.h;
    }
  }

  /** A step that takes the agent's entry out: some handler of that agent unregisters, be it an old one,
      or an administrator disconnects the agent. */
  predicate Removes(s: State, a: Action, agent: AgentID) {
    || (a.Unregister? && a.h in s.handlers && s.handlers[a.h].agent == agent)
    || a == Disconnect(agent)
  }

  predicate Connects(a: Action, agent: AgentID) { a.Connect? && a.agent == agent }

  /** The newest tunnel of an agent is still registered exactly when, since it was registered, no handler
      of that agent has unregistered and the agent was not disconnected; and no older one ever is. */
  lemma {:induction false} NewestRegisteredExactly(states: seq<State>, actions: seq<Action>, k: nat, n: nat,
                                                   h: HandlerID, agent: AgentID)
    requires IsRun(states, actions) && k < n < |states| && actions[k] == Connect(h, agent)
    requires forall j | k < j < n :: !Connects(actions[j], agent)
    ensures agent in states[n].byAgent <==> forall j | k < j < n :: !Removes(states[j], actions[j], agent)
    ensures agent in states[n].byAgent ==> states[n].byAgent[agent] == h
    decreases n
  {
    if n > k + 1 {
      var s, a := states[n - 1], actions[n - 1];
      NewestRegisteredExactly(states, actions, k, n - 1, h, agent);
      assert !Connects(a, agent);
      assert agent in states[n].byAgent <==> agent in s.byAgent && !Removes(s, a, agent);
    }
  }

  /** A step that closes handler h's tunnel: it is registered and the agent connects anew or is
      disconnected, or the handler itself goes. */
  predicate Closes(s: State, a: Action, h: HandlerID, agent: AgentID) {
    || a == Unregister(h)
    || (agent in s.byAgent && s.byAgent[agent] == h && (Connects(a, agent) || a == Disconnect(agent)))
  }

  /** A tunnel has been closed exactly when such a step was taken since it connected; in particular a
      tunnel that has lost its registration in another way stays open. */
  lemma {:induction false} ClosedExactly(states: seq<State>, actions: seq<Action>, k: nat, n: nat, h: HandlerID,
                                         agent: AgentID)
    requires IsRun(states, actions) && k < n < |states| && actions[k] == Connect(h, agent)
    ensures h in states[n].closed <==> exists j :: k < j < n && Closes(states[j], actions[j], h, agent)
    decreases n
  {
    RunKeepsInv(states, actions, n - 1);
    var s, a := states[n - 1], actions[n - 1];
    if n == k + 1 {
      RunKeepsInv(states, actions, k);
      assert h !in states[k].closed && h !in states[k].byAgent.Values;
    } else {
      ClosedExactly(states, actions, k, n - 1, h, agent);
      AgentStays(states, actions, k, n - 1, h, agent);
      assert h in states[n].closed <==> h in s.closed || Closes(s, a, h, agent);
    }
  }

  lemma {:induction false} AgentStays(states: seq<State>, actions: seq<Action>, k: nat, n: nat, h: HandlerID,
                                      agent: AgentID)
    requires IsRun(states, actions) && k < n < |states| && actions[k] == Connect(h, agent)
    ensures h in states[n].handlers && states[n].handlers[h].agent == agent
    decreases n
  {
    if n > k + 1 {
      AgentStays(states, actions, k, n - 1, h, agent);
    }
  }

  /** A registered tunnel is its own agent's, and neither the registry nor its handler has closed it; its
      session may have ended by itself. */
  lemma RegisteredIsUnclosed(states: seq<State>, actions: seq<Action>, n: nat, agent: AgentID)
    requires IsRun(states, actions) && n < |states| && agent in states[n].byAgent
    ensures var s := states[n];
      var h := s.byAgent[agent];
      h in s.handlers && s.handlers[h].agent == agent && h !in s.closed
  {
    RunKeepsInv(states, actions, n);
  }

  /** An ordinary reconnect is enough to lose the new tunnel: registering it closes the old one, whose
      handler then unregisters the agent. The new tunnel stays open, but nothing finds it. */
  lemma ReconnectLosesTunnel(agent: AgentID) returns (states: seq<State>, actions: seq<Action>)
    ensures IsRun(states, actions) && forall j | 0 <= j < |actions| :: !actions[j].Disconnect?
    ensures var last := states[|states| - 1];
      At(last, 1, Serving) && last.handlers[1].agent == agent && 1 !in last.closed && agent !in last.byAgent
  {
    var s1 := Apply(INITIAL, Connect(0, agent));
    var s2 := Apply(s1, Connect(1, agent));
    var s3 := Apply(s2, SessionEnds(0));
    var s4 := Apply(s3, Unregister(0));
    states := [INITIAL, s1, s2, s3, s4];
    actions := [Connect(0, agent), Connect(1, agent), SessionEnds(0), Unregister(0)];
  }
}
