/** The two-way index of connected agents. */
module Registry {
  import opened Results

  const MAX_INT: nat := 0x7FFF_FFFF_FFFF_FFFF

  /** A connected agent: who it is, and the state of its session. */
  class Tunnel {
    const agentID: nat
    const domainID: nat
    var closed: bool
    var streams: nat

    constructor (agentID: nat, domainID: nat)
      ensures this.agentID == agentID && this.domainID == domainID && !closed && streams == 0
    {
      this.agentID, this.domainID := agentID, domainID;
      closed, streams := false, 0;
    }

    method Close()
      modifies this
      ensures closed && streams == old(streams)
    {
      closed := true;
    }
  }

  type Roster = map<nat, Tunnel>
  type Domains = map<nat, map<nat, Tunnel>>

  predicate Lists(byDomain: Domains, d: nat, a: nat) {
    d in byDomain && a in byDomain[d]
  }

  /** The two maps describe the same set of tunnels: domain d lists agent a exactly when a's
      registered tunnel belongs to d, and then it lists that tunnel. */
  ghost predicate Indexed(byAgent: Roster, byDomain: Domains) {
    && (forall a | a in byAgent :: byAgent[a].agentID == a)
    && (forall d, a :: Lists(byDomain, d, a) <==> a in byAgent && byAgent[a].domainID == d)
    && (forall d, a | Lists(byDomain, d, a) :: a in byAgent && byDomain[d][a] == byAgent[a])
  }

  /** Domains that list nobody. */
  function Deserted(byDomain: Domains): set<nat> {
    set d | d in byDomain && byDomain[d] == map[]
  }

  /** One agent taken out of one domain's set, which may be left empty. */
  function Dropped(byDomain: Domains, d: nat, a: nat): (r: Domains)
    ensures forall e, b :: Lists(r, e, b) <==> Lists(byDomain, e, b) && (e != d || b != a)
    ensures forall e, b | Lists(r, e, b) :: Lists(byDomain, e, b) && r[e][b] == byDomain[e][b]
    ensures Deserted(r) <= Deserted(byDomain) + {d}
  {
    if d in byDomain then byDomain[d := byDomain[d] - {a}] else byDomain
  }

  /** The same, and the domain goes when its set is empty. */
  function Pruned(byDomain: Domains, d: nat, a: nat): (r: Domains)
    ensures forall e, b :: Lists(r, e, b) <==> Lists(byDomain, e, b) && (e != d || b != a)
    ensures forall e, b | Lists(r, e, b) :: Lists(byDomain, e, b) && r[e][b] == byDomain[e][b]
    ensures Deserted(r) <= Deserted(byDomain)
  {
    var r := Dropped(byDomain, d, a);
    if d in r && r[d] == map[] then
      assert forall b :: !Lists(r, d, b);
      r - {d}
    else r
  }

  function Added(byDomain: Domains, t: Tunnel): (r: Domains)
    ensures forall e, b :: Lists(r, e, b) <==> Lists(byDomain, e, b) || (e == t.domainID && b == t.agentID)
    ensures forall e, b | Lists(r, e, b) ::
      if e == t.domainID && b == t.agentID then r[e][b] == t else Lists(byDomain, e, b) && r[e][b] == byDomain[e][b]
    ensures Deserted(r) <= Deserted(byDomain)
  {
    var members: map<nat, Tunnel> := if t.domainID in byDomain then byDomain[t.domainID] else map[];
    assert t.agentID in members[t.agentID := t];
    byDomain[t.domainID := members[t.agentID := t]]
  }

  /** The domains after a registration: the agent's previous tunnel, if another, leaves its domain. */
  function Registered(byAgent: Roster, byDomain: Domains, t: Tunnel): Domains {
    if t.agentID in byAgent && byAgent[t.agentID] != t
    then Added(Dropped(byDomain, byAgent[t.agentID].domainID, byAgent[t.agentID].agentID), t)
    else Added(byDomain, t)
  }

  lemma RegisteredIndexed(byAgent: Roster, byDomain: Domains, t: Tunnel)
    requires Indexed(byAgent, byDomain)
    ensures Indexed(byAgent[t.agentID := t], Registered(byAgent, byDomain, t))
    ensures Deserted(Registered(byAgent, byDomain, t)) <= Deserted(byDomain)
      + if t.agentID in byAgent then {byAgent[t.agentID].domainID} else {}
  {
    hide Deserted;
  }

  // ---- Domain sizes -------------------------------------------------------------------------

  /** The number of listed tunnels over all domains. */
  ghost function Listed(byDomain: Domains): nat {
    if byDomain == map[] then 0
    else
      var d :| d in byDomain;
      |byDomain[d]| + Listed(byDomain - {d})
  }

  lemma {:induction false} ListedIsCount(byAgent: Roster, byDomain: Domains)
    requires Indexed(byAgent, byDomain)
    ensures Listed(byDomain) == |byAgent|
    decreases |byDomain|
  {
    if byDomain == map[] {
      assert forall a | a in byAgent :: Lists(byDomain, byAgent[a].domainID, a);
      assert byAgent == map[];
    } else {
      var d :| d in byDomain && Listed(byDomain) == |byDomain[d]| + Listed(byDomain - {d});
      DomainOut(byAgent, byDomain, d);
      var rest := byAgent - byDomain[d].Keys;
      ListedIsCount(rest, byDomain - {d});
      assert rest.Keys == byAgent.Keys - byDomain[d].Keys;
      assert |byAgent.Keys| == |rest.Keys| + |byDomain[d].Keys|;
    }
  }

  lemma DomainOut(byAgent: Roster, byDomain: Domains, d: nat)
    requires Indexed(byAgent, byDomain) && d in byDomain
    ensures Indexed(byAgent - byDomain[d].Keys, byDomain - {d})
    ensures byDomain[d].Keys <= byAgent.Keys
  {
    forall a | a in byDomain[d] ensures a in byAgent {
      assert Lists(byDomain, d, a);
    }
    forall e, b ensures Lists(byDomain - {d}, e, b) <==> Lists(byDomain, e, b) && e != d {
    }
    forall b | b in byAgent ensures b in byDomain[d] <==> byAgent[b].domainID == d {
      assert Lists(byDomain, d, b) <==> byAgent[b].domainID == d;
    }
  }

  // ---- The registry -------------------------------------------------------------------------

  class Registry {
    var byAgent: Roster
    var byDomain: Domains

    ghost predicate Valid()
      reads this
    {
      Indexed(byAgent, byDomain)
    }

    constructor ()
      ensures Valid() && byAgent == map[]
    {
      byAgent, byDomain := map[], map[];
    }

    /** A reconnecting agent's previous tunnel is closed and replaced, also when it was registered
        under another domain. No other entry changes. */
    method Register(t: Tunnel)
      requires Valid()
      modifies this, byAgent.Values
      ensures Valid()
      ensures byAgent == old(byAgent)[t.agentID := t]
      ensures Deserted(byDomain) <= Deserted(old(byDomain))
        + if t.agentID in old(byAgent) then {old(byAgent)[t.agentID].domainID} else {}
      ensures forall x: Tunnel | x in old(byAgent).Values ::
        && x.streams == old(x.streams)
        && (x.closed <==> old(x.closed) || (t.agentID in old(byAgent) && x == old(byAgent)[t.agentID] && x != t))
    {
      RegisteredIndexed(byAgent, byDomain, t);
      hide Deserted;
      hide Indexed;
      hide Added;
      hide Dropped;
      if t.agentID in byAgent {
        var prev := byAgent[t.agentID];
        if prev != t {
          prev.Close();
          byDomain := Dropped(byDomain, prev.domainID, prev.agentID);
        }
      }
      byAgent := byAgent[t.agentID := t];
      byDomain := Added(byDomain, t);
    }

    /** Takes an agent out of both maps; an emptied domain goes with it. */
    method Remove(agentID: nat) returns (found: Option<Tunnel>)
      requires Valid()
      modifies this
      ensures Valid()
      ensures byAgent == old(byAgent) - {agentID}
      ensures found == if agentID in old(byAgent) then Some(old(byAgent)[agentID]) else None
      ensures Deserted(byDomain) <= Deserted(old(byDomain))
    {
      hide Deserted;
      if agentID !in byAgent {
        assert byAgent == byAgent - {agentID};
        return None;
      }
      var t := byAgent[agentID];
      byAgent := byAgent - {agentID};
      byDomain := Pruned(byDomain, t.domainID, agentID);
      return Some(t);
    }

    /** Without closing the tunnel. The argument is only an id: the entry removed may be a newer tunnel
        of the same agent than the one whose handler asks. */
    method Unregister(agentID: nat)
      requires Valid()
      modifies this
      ensures Valid() && byAgent == old(byAgent) - {agentID}
      ensures Deserted(byDomain) <= Deserted(old(byDomain))
    {
      var _ := Remove(agentID);
    }

    /** Removes an agent and closes its tunnel; reports whether there was one. */
    method Disconnect(agentID: nat) returns (ok: bool)
      requires Valid()
      modifies this, byAgent.Values
      ensures Valid() && byAgent == old(byAgent) - {agentID}
      ensures Deserted(byDomain) <= Deserted(old(byDomain))
      ensures ok <==> agentID in old(byAgent)
      ensures forall x: Tunnel | x in old(byAgent).Values ::
        && x.streams == old(x.streams)
        && (x.closed <==> old(x.closed) || (ok && x == old(byAgent)[agentID]))
    {
      var t := Remove(agentID);
      if t.Some? {
        t.value.Close();
      }
      return t.Some?;
    }

    method Count() returns (n: nat)
      requires Valid()
      ensures n == |byAgent| && n == Listed(byDomain)
    {
      ListedIsCount(byAgent, byDomain);
      n := |byAgent|;
    }

    /** Exactly the agents whose registered tunnel belongs to the domain. */
    method AgentsInDomain(domainID: nat) returns (out: set<nat>)
      requires Valid()
      ensures forall a :: a in out <==> a in byAgent && byAgent[a].domainID == domainID
    {
      out := if domainID in byDomain then byDomain[domainID].Keys else {};
      assert forall a :: a in out <==> Lists(byDomain, domainID, a);
    }

    ghost predicate Usable(t: Tunnel, domainID: nat)
      reads this, t
    {
      t in byAgent.Values && t.domainID == domainID && !t.closed && t.streams < MAX_INT
    }

    /** The open tunnel of the domain with the fewest streams, in whatever order the set is walked;
        nothing exactly when no open tunnel of the domain has a load below the largest int. */
    method Pick(domainID: nat) returns (best: Option<Tunnel>)
      requires Valid()
      ensures best.Some? ==> Usable(best.value, domainID)
      ensures forall t | t in byAgent.Values && Usable(t, domainID) :: best.Some? && best.value.streams <= t.streams
    {
      best := None;
      var bestLoad := MAX_INT;
      var members: map<nat, Tunnel> := if domainID in byDomain then byDomain[domainID] else map[];
      forall a | a in members ensures a in byAgent && members[a] == byAgent[a] && byAgent[a].domainID == domainID {
        assert Lists(byDomain, domainID, a);
      }
      var left := members.Keys;
      while left != {}
        invariant left <= members.Keys
        invariant forall a | a in members :: members[a] in byAgent.Values && members[a].domainID == domainID
        invariant best.None? ==> bestLoad == MAX_INT
        invariant best.Some? ==> Usable(best.value, domainID) && best.value.streams == bestLoad
        invariant forall a | a in members.Keys - left :: members[a].closed || members[a].streams >= bestLoad
        decreases left
      {
        var a :| a in left;
        left := left - {a};
        var t := members[a];
        if t.closed {
          continue;
        }
        if t.streams < bestLoad {
          best, bestLoad := Some(t), t.streams;
        }
      }
      forall t | t in byAgent.Values && Usable(t, domainID) ensures best.Some? && best.value.streams <= t.streams {
        var a :| a in byAgent && byAgent[a] == t;
        assert Lists(byDomain, domainID, a) && members[a] == t;
      }
    }
  }
}
