/** The enforcement flags of nodes and credentials behind a short-lived cache. */
module FlagCache {
  import opened Results

  datatype Biz =
    | AssetAccess | CredentialUse | CommandExec | SqlExec | FileTransfer | SessionExtend | SessionElevate
    | BreakGlass | VendorAccess | AuditView

  datatype NodeFlags = NodeFlags(connect: bool, fileXfer: bool)

  /** The flag columns of the two tables at one moment. */
  datatype Db = Db(nodes: map<nat, NodeFlags>, credentials: map<nat, bool>)

  /** Which tables are wired, how ids parse, and how long an entry lives. */
  datatype Config = Config(hasNodes: bool, hasCreds: bool, parseID: string -> Option<nat>, ttl: nat)

  datatype Key = Key(resourceType: string, id: string)
  datatype Flags = Flags(connect: bool, fileXfer: bool, credUse: bool)

  predicate Select(f: Flags, bt: Biz) {
    match bt
    case FileTransfer => f.fileXfer
    case AssetAccess => f.connect
    case CommandExec => f.connect
    case SessionExtend => f.connect
    case SessionElevate => f.connect
    case VendorAccess => f.connect
    case CredentialUse => false
    case _ => false
  }

  /** Node entries answer by business type, credential entries only the credential question. */
  predicate AnswerOf(key: Key, f: Flags, bt: Biz) {
    if key.resourceType == "node" then Select(f, bt) else f.credUse
  }

  /** Whether a query gets as far as the cache. */
  predicate Consults(key: Key, bt: Biz) {
    key.id != "" && (key.resourceType == "node" || (key.resourceType == "credential" && bt == CredentialUse))
  }

  /** The row a key names, if its table is wired and the row exists. */
  function Lookup(cfg: Config, db: Db, key: Key): Option<Flags> {
    match cfg.parseID(key.id)
    case None => None
    case Some(id) =>
      if id == 0 then None
      else if key.resourceType == "node" then
        if cfg.hasNodes && id in db.nodes then Some(Flags(db.nodes[id].connect, db.nodes[id].fileXfer, false)) else None
      else if key.resourceType == "credential" then
        if cfg.hasCreds && id in db.credentials then Some(Flags(false, false, db.credentials[id])) else None
      else None
  }

  /** What the answer would be without any cache: the flag that gates this business type on this
      resource, and false for everything the helper does not gate. */
  predicate Uncached(cfg: Config, db: Db, key: Key, bt: Biz) {
    if key.id == "" || cfg.parseID(key.id) == None || cfg.parseID(key.id) == Some(0) then false
    else
      var id := cfg.parseID(key.id).value;
      if key.resourceType == "node" then
        cfg.hasNodes && id in db.nodes &&
        (match bt
         case FileTransfer => db.nodes[id].fileXfer
         case AssetAccess => db.nodes[id].connect
         case CommandExec => db.nodes[id].connect
         case SessionExtend => db.nodes[id].connect
         case SessionElevate => db.nodes[id].connect
         case VendorAccess => db.nodes[id].connect
         case _ => false)
      else if key.resourceType == "credential" then
        bt == CredentialUse && cfg.hasCreds && id in db.credentials && db.credentials[id]
      else false
  }

  lemma LookupAnswers(cfg: Config, db: Db, key: Key, bt: Biz)
    requires Consults(key, bt)
    ensures Uncached(cfg, db, key, bt) ==
      match Lookup(cfg, db, key) case None => false case Some(f) => AnswerOf(key, f, bt)
  {
  }

  // ---- Concurrent queries -------------------------------------------------------------------

  type QueryID = nat

  /** Where the flags of an entry come from: the database version, and the times of the read and of
      the computation of the expiry. */
  datatype Origin = Origin(version: nat, readAt: int, stampedAt: int)
  datatype Entry = Entry(flags: Flags, expiresAt: int, origin: Origin, storedAt: int)

  datatype Evidence = Direct(version: nat, readAt: int) | FromEntry(entry: Entry, usedAt: int)

  datatype Phase =
    | Started
    | Loaded(entry: Entry)                          // has an entry, about to compare it with the clock
    | Expired                                       // found an entry past its time, about to delete it
    | Missed
    | Fetched(flags: Flags, version: nat, readAt: int)
    | Stamped(flags: Flags, expiresAt: int, origin: Origin)
    | Answered(value: bool, evidence: Evidence)
    | Failed

  datatype Query = Query(key: Key, bt: Biz, phase: Phase)

  /** `history[v]` was the database from `since[v]` on; the last one is the present. */
  datatype State = State(
    history: seq<Db>, since: seq<int>, now: int, cache: map<Key, Entry>, queries: map<QueryID, Query>)

  datatype Action =
    | Update(db: Db)
    | Tick(now: int)
    | Begin(q: QueryID, key: Key, bt: Biz)
    | Load(q: QueryID)
    | Check(q: QueryID)
    | Evict(q: QueryID)
    | Fetch(q: QueryID, ok: bool)
    | Stamp(q: QueryID)
    | Store(q: QueryID)

  predicate Enabled(s: State, a: Action) {
    match a
    case Update(_) => true
    case Tick(t) => s.now <= t
    case Begin(q, _, _) => q !in s.queries
    case Load(q) => q in s.queries && s.queries[q].phase.Started?
    case Check(q) => q in s.queries && s.queries[q].phase.Loaded?
    case Evict(q) => q in s.queries && s.queries[q].phase.Expired?
    case Fetch(q, _) => q in s.queries && s.queries[q].phase.Missed?
    case Stamp(q) => q in s.queries && s.queries[q].phase.Fetched?
    case Store(q) => q in s.queries && s.queries[q].phase.Stamped?
  }

  function At(s: State, q: QueryID, p: Phase): map<QueryID, Query>
    requires q in s.queries
  {
    s.queries[q := s.queries[q].(phase := p)]
  }

  function Present(s: State): Evidence { Direct(if |s.history| == 0 then 0 else |s.history| - 1, s.now) }

  function LoadPhase(s: State, query: Query): Phase {
    if !Consults(query.key, query.bt) then Answered(false, Present(s))
    else if query.key !in s.cache then Missed
    else Loaded(s.cache[query.key])
  }

  /** The clock is read after the entry. */
  function CheckPhase(s: State, query: Query): Phase
    requires query.phase.Loaded?
  {
    var e := query.phase.entry;
    if s.now > e.expiresAt then Expired else Answered(AnswerOf(query.key, e.flags, query.bt), FromEntry(e, s.now))
  }

  function FetchPhase(cfg: Config, s: State, query: Query, ok: bool): Phase
    requires |s.history| > 0
  {
    if !ok then Failed
    else match Lookup(cfg, s.history[|s.history| - 1], query.key)
      case None => Answered(false, Present(s))
      case Some(f) => Fetched(f, |s.history| - 1, s.now)
  }

  function StampPhase(cfg: Config, s: State, query: Query): Phase
    requires query.phase.Fetched?
  {
    var p := query.phase;
    Stamped(p.flags, s.now + cfg.ttl, Origin(p.version, p.readAt, s.now))
  }

  function StorePhase(query: Query): Phase
    requires query.phase.Stamped?
  {
    var p := query.phase;
    Answered(AnswerOf(query.key, p.flags, query.bt), Direct(p.origin.version, p.origin.readAt))
  }

  /** Where a query stands after one of its steps. */
  function NextPhase(cfg: Config, s: State, a: Action): Phase
    requires Enabled(s, a) && !a.Update? && !a.Tick? && !a.Begin? && |s.history| > 0
  {
    var query := s.queries[a.q];
    match a
    case Load(_) => LoadPhase(s, query)
    case Check(_) => CheckPhase(s, query)
    case Evict(_) => Missed
    case Fetch(_, ok) => FetchPhase(cfg, s, query, ok)
    case Stamp(_) => StampPhase(cfg, s, query)
    case Store(_) => StorePhase(query)
  }

  function NextCache(s: State, a: Action): map<Key, Entry>
    requires Enabled(s, a) && !a.Update? && !a.Tick? && !a.Begin?
  {
    var query := s.queries[a.q];
    var p := query.phase;
    if a.Evict? then s.cache - {query.key}
    else if a.Store? then s.cache[query.key := Entry(p.flags, p.expiresAt, p.origin, s.now)]
    else s.cache
  }

  function Apply(cfg: Config, s: State, a: Action): State
    requires Enabled(s, a) && |s.history| > 0
  {
    match a
    case Update(db) => s.(history := s.history + [db], since := s.since + [s.now])
    case Tick(t) => s.(now := t)
    case Begin(q, key, bt) => s.(queries := s.queries[q := Query(key, bt, Started)])
    case _ => s.(cache := NextCache(s, a), queries := At(s, a.q, NextPhase(cfg, s, a)))
  }

  /** Version v was the database at time t. */
  predicate WasCurrent(s: State, v: nat, t: int) {
    v < |s.history| == |s.since| && s.since[v] <= t && (v + 1 < |s.since| ==> t <= s.since[v + 1])
  }

  ghost predicate OriginOk(cfg: Config, s: State, key: Key, flags: Flags, o: Origin, expiresAt: int) {
    && WasCurrent(s, o.version, o.readAt)
    && Lookup(cfg, s.history[o.version], key) == Some(flags)
    && o.readAt <= o.stampedAt && expiresAt == o.stampedAt + cfg.ttl
  }

  ghost predicate EntryOk(cfg: Config, s: State, key: Key, e: Entry) {
    OriginOk(cfg, s, key, e.flags, e.origin, e.expiresAt) && e.origin.stampedAt <= e.storedAt <= s.now
  }

  /** The evidence behind an answer: the database as it was at the read, and an entry used at most
      one lifetime after its expiry was computed and hence after it was stored. */
  ghost predicate EvidenceOk(cfg: Config, s: State, key: Key, bt: Biz, value: bool, e: Evidence) {
    match e
    case Direct(v, t) => WasCurrent(s, v, t) && value == Uncached(cfg, s.history[v], key, bt)
    case FromEntry(entry, used) =>
      && EntryOk(cfg, s, key, entry)
      && value == Uncached(cfg, s.history[entry.origin.version], key, bt)
      && entry.storedAt <= used <= entry.origin.stampedAt + cfg.ttl
  }

  ghost predicate QueryOk(cfg: Config, s: State, query: Query) {
    match query.phase
    case Loaded(e) => Consults(query.key, query.bt) && EntryOk(cfg, s, query.key, e)
    case Fetched(f, v, t) =>
      && Consults(query.key, query.bt) && WasCurrent(s, v, t) && t <= s.now
      && Lookup(cfg, s.history[v], query.key) == Some(f)
    case Stamped(f, x, o) =>
      && Consults(query.key, query.bt) && OriginOk(cfg, s, query.key, f, o, x) && o.stampedAt <= s.now
    case Answered(value, e) => EvidenceOk(cfg, s, query.key, query.bt, value, e)
    case Started => true
    case Failed => true
    case _ => Consults(query.key, query.bt)
  }

  ghost predicate TimesOk(s: State) {
    && 0 < |s.history| == |s.since| && s.since[|s.since| - 1] <= s.now
  }

  ghost predicate Inv(cfg: Config, s: State) {
    && TimesOk(s)
    && (forall k | k in s.cache :: EntryOk(cfg, s, k, s.cache[k]))
    && (forall q | q in s.queries :: QueryOk(cfg, s, s.queries[q]))
  }

  /** Later history and later clocks do not change what was true. */
  predicate Later(s: State, s': State) {
    && s.history <= s'.history && s.since <= s'.since && s.now <= s'.now
    && |s.history| == |s.since| && |s'.history| == |s'.since|
    && forall v | |s.since| <= v < |s'.since| :: s.now <= s'.since[v]
  }

  lemma WasCurrentLater(s: State, s': State, v: nat, t: int)
    requires Later(s, s') && WasCurrent(s, v, t) && t <= s.now
    ensures WasCurrent(s', v, t) && s'.history[v] == s.history[v]
  {
    assert s.since[v] == s'.since[v];
    if v + 1 < |s.since| {
      assert s.since[v + 1] == s'.since[v + 1];
    }
  }

  lemma EntryLater(cfg: Config, s: State, s': State, key: Key, e: Entry)
    requires Later(s, s') && EntryOk(cfg, s, key, e)
    ensures EntryOk(cfg, s', key, e)
  {
    WasCurrentLater(s, s', e.origin.version, e.origin.readAt);
  }

  /** Direct evidence names a moment that is past. */
  ghost predicate Past(s: State, query: Query) {
    query.phase.Answered? && query.phase.evidence.Direct? ==> query.phase.evidence.readAt <= s.now
  }

  lemma QueryLater(cfg: Config, s: State, s': State, query: Query)
    requires Later(s, s') && QueryOk(cfg, s, query) && Past(s, query)
    ensures QueryOk(cfg, s', query) && Past(s', query)
  {
    match query.phase {
      case Loaded(e) => EntryLater(cfg, s, s', query.key, e);
      case Fetched(f, v, t) => WasCurrentLater(s, s', v, t);
      case Stamped(f, x, o) => WasCurrentLater(s, s', o.version, o.readAt);
      case Answered(value, e) =>
        match e {
          case Direct(v, t) => WasCurrentLater(s, s', v, t);
          case FromEntry(entry, used) => WasCurrentLater(s, s', entry.origin.version, entry.origin.readAt);
        }
      case _ =>
    }
  }

  ghost predicate AllPast(s: State) {
    forall q | q in s.queries :: Past(s, s.queries[q])
  }

  // One step of a query at a time: what it then holds is backed by a past read.

  lemma LoadOk(cfg: Config, s: State, query: Query)
    requires Inv(cfg, s)
    ensures var next := query.(phase := LoadPhase(s, query)); QueryOk(cfg, s, next) && Past(s, next)
  {
  }

  lemma CheckOk(cfg: Config, s: State, query: Query)
    requires TimesOk(s) && QueryOk(cfg, s, query) && query.phase.Loaded?
    ensures var next := query.(phase := CheckPhase(s, query)); QueryOk(cfg, s, next) && Past(s, next)
  {
    var e := query.phase.entry;
    LookupAnswers(cfg, s.history[e.origin.version], query.key, query.bt);
    hide Lookup;
    hide Uncached;
    hide AnswerOf;
  }

  lemma FetchOk(cfg: Config, s: State, query: Query, ok: bool)
    requires TimesOk(s) && Consults(query.key, query.bt)
    ensures var next := query.(phase := FetchPhase(cfg, s, query, ok)); QueryOk(cfg, s, next) && Past(s, next)
  {
    LookupAnswers(cfg, s.history[|s.history| - 1], query.key, query.bt);
    hide Lookup;
    hide Uncached;
    hide AnswerOf;
    hide Consults;
  }

  lemma StampOk(cfg: Config, s: State, query: Query)
    requires TimesOk(s) && QueryOk(cfg, s, query) && query.phase.Fetched?
    ensures var next := query.(phase := StampPhase(cfg, s, query)); QueryOk(cfg, s, next) && Past(s, next)
  {
    hide Lookup;
    hide Consults;
  }

  lemma StoreOk(cfg: Config, s: State, query: Query)
    requires TimesOk(s) && QueryOk(cfg, s, query) && query.phase.Stamped?
    ensures var next := query.(phase := StorePhase(query)); QueryOk(cfg, s, next) && Past(s, next)
    ensures var p := query.phase; EntryOk(cfg, s, query.key, Entry(p.flags, p.expiresAt, p.origin, s.now))
  {
    LookupAnswers(cfg, s.history[query.phase.origin.version], query.key, query.bt);
    hide Lookup;
    hide Uncached;
    hide AnswerOf;
    hide Consults;
  }

  /** What one step does to the query it moves. */
  lemma StepQuery(cfg: Config, s: State, a: Action)
    requires Inv(cfg, s) && Enabled(s, a) && !a.Update? && !a.Tick? && !a.Begin?
    ensures var next := s.queries[a.q].(phase := NextPhase(cfg, s, a)); QueryOk(cfg, s, next) && Past(s, next)
  {
    var query := s.queries[a.q];
    assert QueryOk(cfg, s, query) && TimesOk(s);
    hide LoadPhase;
    hide CheckPhase;
    hide FetchPhase;
    hide StampPhase;
    hide StorePhase;
    match a {
      case Load(_) => LoadOk(cfg, s, query);
      case Check(_) => CheckOk(cfg, s, query);
      case Evict(_) =>
      case Fetch(_, ok) => FetchOk(cfg, s, query, ok);
      case Stamp(_) => StampOk(cfg, s, query);
      case Store(_) => StoreOk(cfg, s, query);
    }
  }

  lemma StepLater(cfg: Config, s: State, a: Action)
    requires TimesOk(s) && Enabled(s, a)
    ensures Later(s, Apply(cfg, s, a)) && TimesOk(Apply(cfg, s, a))
  {
    hide NextPhase;
    hide NextCache;
  }

  lemma StepCache(cfg: Config, s: State, a: Action, k: Key)
    requires Inv(cfg, s) && Enabled(s, a) && k in Apply(cfg, s, a).cache
    ensures EntryOk(cfg, Apply(cfg, s, a), k, Apply(cfg, s, a).cache[k])
  {
    var s' := Apply(cfg, s, a);
    StepLater(cfg, s, a);
    hide NextPhase;
    if k in s.cache && s'.cache[k] == s.cache[k] {
      EntryLater(cfg, s, s', k, s.cache[k]);
    } else {
      assert a.Store? && QueryOk(cfg, s, s.queries[a.q]);
      StoreOk(cfg, s, s.queries[a.q]);
      EntryLater(cfg, s, s', k, s'.cache[k]);
    }
  }

  lemma StepOtherQuery(cfg: Config, s: State, a: Action, q: QueryID)
    requires Inv(cfg, s) && AllPast(s) && Enabled(s, a) && q in Apply(cfg, s, a).queries
    ensures QueryOk(cfg, Apply(cfg, s, a), Apply(cfg, s, a).queries[q])
    ensures Past(Apply(cfg, s, a), Apply(cfg, s, a).queries[q])
  {
    var s' := Apply(cfg, s, a);
    StepLater(cfg, s, a);
    if !a.Update? && !a.Tick? && a.q == q {
      if !a.Begin? {
        StepQuery(cfg, s, a);
        hide NextPhase;
        hide NextCache;
        QueryLater(cfg, s, s', s'.queries[q]);
      }
    } else {
      hide NextPhase;
      hide NextCache;
      QueryLater(cfg, s, s', s.queries[q]);
    }
  }

  lemma StepKeepsInv(cfg: Config, s: State, a: Action)
    requires Inv(cfg, s) && AllPast(s) && Enabled(s, a)
    ensures Inv(cfg, Apply(cfg, s, a)) && AllPast(Apply(cfg, s, a))
  {
    var s' := Apply(cfg, s, a);
    StepLater(cfg, s, a);
    hide Apply;
    hide TimesOk;
    hide EntryOk;
    hide QueryOk;
    hide Past;
    forall k | k in s'.cache ensures EntryOk(cfg, s', k, s'.cache[k]) {
      StepCache(cfg, s, a, k);
    }
    forall q | q in s'.queries ensures QueryOk(cfg, s', s'.queries[q]) && Past(s', s'.queries[q]) {
      StepOtherQuery(cfg, s, a, q);
    }
  }

  ghost predicate IsRun(cfg: Config, states: seq<State>, actions: seq<Action>) {
    && |states| == |actions| + 1
    && (exists db, t :: states[0] == State([db], [t], t, map[], map[]))
    && forall i | 0 <= i < |actions| :: Enabled(states[i], actions[i]) && |states[i].history| > 0
         && states[i + 1] == Apply(cfg, states[i], actions[i])
  }

  lemma {:induction false} RunKeepsInv(cfg: Config, states: seq<State>, actions: seq<Action>, n: nat)
    requires IsRun(cfg, states, actions) && n < |states|
    ensures Inv(cfg, states[n]) && AllPast(states[n])
  {
    if n > 0 {
      RunKeepsInv(cfg, states, actions, n - 1);
      StepKeepsInv(cfg, states[n - 1], actions[n - 1]);
    }
  }

  /** Under any interleaving of flag updates, clock advances and queries, an answer is the uncached
      answer on the flags as they were at the read behind it; and an answer from the cache comes at
      most one lifetime after its entry was stored. Since the key's own resource type decides what
      "uncached" means, node and credential entries never answer for each other. */
  lemma AnswersAreUncachedAnswers(cfg: Config, states: seq<State>, actions: seq<Action>, n: nat, q: QueryID)
    requires IsRun(cfg, states, actions) && n < |states|
    requires q in states[n].queries && states[n].queries[q].phase.Answered?
    ensures var s, query := states[n], states[n].queries[q];
      match query.phase.evidence
      case Direct(v, t) =>
        WasCurrent(s, v, t) && t <= s.now && query.phase.value == Uncached(cfg, s.history[v], query.key, query.bt)
      case FromEntry(e, used) =>
        && WasCurrent(s, e.origin.version, e.origin.readAt)
        && query.phase.value == Uncached(cfg, s.history[e.origin.version], query.key, query.bt)
        && e.origin.readAt <= e.storedAt <= used <= e.storedAt + cfg.ttl
  {
    RunKeepsInv(cfg, states, actions, n);
    assert QueryOk(cfg, states[n], states[n].queries[q]) && Past(states[n], states[n].queries[q]);
  }

  lemma Then(cfg: Config, states: seq<State>, actions: seq<Action>, a: Action)
    returns (states': seq<State>, actions': seq<Action>, last: State)
    requires IsRun(cfg, states, actions) && Enabled(states[|states| - 1], a) && |states[|states| - 1].history| > 0
    ensures IsRun(cfg, states', actions') && last == states'[|states'| - 1] == Apply(cfg, states[|states| - 1], a)
  {
    hide Apply;
    hide Enabled;
    last := Apply(cfg, states[|states| - 1], a);
    states', actions' := states + [last], actions + [a];
  }

  /** A first query stores its row at time 0. */
  lemma Remembering(cfg: Config, db: Db, key: Key, bt: Biz) returns (states: seq<State>, actions: seq<Action>)
    requires Consults(key, bt) && Lookup(cfg, db, key).Some?
    ensures IsRun(cfg, states, actions)
    ensures var s, e := states[|states| - 1], Entry(Lookup(cfg, db, key).value, cfg.ttl, Origin(0, 0, 0), 0);
      s.history == [db] && s.now == 0 && s.cache == map[key := e] && s.queries.Keys == {0}
  {
    hide IsRun;
    hide Lookup;
    hide AnswerOf;
    hide Consults;
    var s := State([db], [0], 0, map[], map[]);
    states, actions := [s], [];
    FirstState(cfg, db);
    states, actions, s := Then(cfg, states, actions, Begin(0, key, bt));
    states, actions, s := Then(cfg, states, actions, Load(0));
    assert s.queries[0] == Query(key, bt, Missed) && s.queries.Keys == {0} && s.history == [db];
    states, actions, s := Then(cfg, states, actions, Fetch(0, true));
    assert s.queries[0] == Query(key, bt, Fetched(Lookup(cfg, db, key).value, 0, 0)) && s.queries.Keys == {0};
    states, actions, s := Then(cfg, states, actions, Stamp(0));
    assert s.queries[0] == Query(key, bt, Stamped(Lookup(cfg, db, key).value, cfg.ttl, Origin(0, 0, 0)));
    assert s.queries.Keys == {0} && s.cache == map[] && s.now == 0;
    states, actions, s := Then(cfg, states, actions, Store(0));
  }

  /** The lifetime is no better than that: whatever flags change, a run answers by the old ones a whole
      lifetime after it stored them. */
  lemma StaleForALifetime(cfg: Config, before: Db, after: Db, key: Key, bt: Biz)
    returns (states: seq<State>, actions: seq<Action>)
    requires Consults(key, bt) && Lookup(cfg, before, key).Some?
    ensures IsRun(cfg, states, actions)
    ensures var s := states[|states| - 1];
      && s.history == [before, after] && 1 in s.queries && s.queries[1].key == key && s.queries[1].bt == bt
      && s.queries[1].phase.Answered? && s.queries[1].phase.value == Uncached(cfg, before, key, bt)
      && s.queries[1].phase.evidence.FromEntry?
      && s.queries[1].phase.evidence.usedAt == s.now == s.queries[1].phase.evidence.entry.storedAt + cfg.ttl
  {
    LookupAnswers(cfg, before, key, bt);
    hide IsRun;
    hide Lookup;
    hide Uncached;
    hide AnswerOf;
    hide Consults;
    states, actions := Remembering(cfg, before, key, bt);
    var s := states[|states| - 1];
    states, actions, s := Then(cfg, states, actions, Update(after));
    states, actions, s := Then(cfg, states, actions, Tick(cfg.ttl));
    states, actions, s := Then(cfg, states, actions, Begin(1, key, bt));
    states, actions, s := Then(cfg, states, actions, Load(1));
    assert s.queries[1] == Query(key, bt, Loaded(s.cache[key])) && s.history == [before, after];
    states, actions, s := Then(cfg, states, actions, Check(1));
  }

  lemma FirstState(cfg: Config, db: Db)
    ensures IsRun(cfg, [State([db], [0], 0, map[], map[])], [])
  {
  }

  // ---- One query at a time ------------------------------------------------------------------

  datatype CachedFlag = CachedFlag(flags: Flags, expiresAt: int)
  type Cache = map<Key, CachedFlag>

  predicate Unexpired(cache: Cache, key: Key, now: int) {
    key in cache && now <= cache[key].expiresAt
  }

  /** Whether the database is asked at all for a key. */
  predicate Queried(cfg: Config, key: Key) {
    && (key.resourceType == "node" ==> cfg.hasNodes) && (key.resourceType == "credential" ==> cfg.hasCreds)
    && cfg.parseID(key.id).Some? && cfg.parseID(key.id) != Some(0)
  }

  /** What a query answers and leaves in the cache. An unexpired entry answers; otherwise the database
      does, and an existing row is remembered. A database error is no answer and leaves nothing behind. */
  predicate QueryEffect(cfg: Config, before: Cache, key: Key, bt: Biz, now: int, db: Db, dbOk: bool, stampedAt: int,
                        r: Result<bool, ()>, after: Cache)
  {
    if !Consults(key, bt) then r == Ok(false) && after == before
    else if Unexpired(before, key, now) then r == Ok(AnswerOf(key, before[key].flags, bt)) && after == before
    else
      && r == (if !dbOk && Queried(cfg, key) then Err(()) else Ok(Uncached(cfg, db, key, bt)))
      && after == if r.Ok? && Lookup(cfg, db, key).Some?
                  then before[key := CachedFlag(Lookup(cfg, db, key).value, stampedAt + cfg.ttl)]
                  else before - {key}
  }

  /** The machine's cache without its history. */
  function Shown(cache: map<Key, Entry>): Cache {
    map k | k in cache :: CachedFlag(cache[k].flags, cache[k].expiresAt)
  }

  function StepIf(cfg: Config, s: State, a: Action): State
    requires |s.history| > 0
  {
    if Enabled(s, a) then Apply(cfg, s, a) else s
  }

  /** A query that no other step interrupts, up to its verdict on the cache. */
  function SoloLoad(cfg: Config, s: State, q: QueryID, key: Key, bt: Biz): State
    requires |s.history| > 0 && q !in s.queries
  {
    var begun := Apply(cfg, s, Begin(q, key, bt));
    StepIf(cfg, StepIf(cfg, Apply(cfg, begun, Load(q)), Check(q)), Evict(q))
  }

  /** The same query from there to its answer. */
  function SoloFetch(cfg: Config, s: State, q: QueryID, dbOk: bool): State
    requires |s.history| > 0
  {
    StepIf(cfg, StepIf(cfg, StepIf(cfg, s, Fetch(q, dbOk)), Stamp(q)), Store(q))
  }

  function Solo(cfg: Config, s: State, q: QueryID, key: Key, bt: Biz, dbOk: bool): State
    requires |s.history| > 0 && q !in s.queries
  {
    SoloFetch(cfg, SoloLoad(cfg, s, q, key, bt), q, dbOk || !Queried(cfg, key))
  }

  function ResultOf(p: Phase): Result<bool, ()> {
    if p.Answered? then Ok(p.value) else Err(())
  }

  lemma ShownUpdates(cache: map<Key, Entry>, key: Key, e: Entry)
    ensures Shown(cache - {key}) == Shown(cache) - {key}
    ensures Shown(cache[key := e]) == Shown(cache)[key := CachedFlag(e.flags, e.expiresAt)]
  {
  }

  lemma SoloLoadEffect(cfg: Config, s: State, q: QueryID, key: Key, bt: Biz)
    requires |s.history| > 0 && q !in s.queries
    ensures var s' := SoloLoad(cfg, s, q, key, bt);
      && s'.history == s.history && s'.now == s.now && q in s'.queries
      && s'.queries[q].key == key && s'.queries[q].bt == bt
      && var p := s'.queries[q].phase;
         if !Consults(key, bt) then p == Answered(false, Present(s)) && s'.cache == s.cache
         else if Unexpired(Shown(s.cache), key, s.now) then
           p.Answered? && p.value == AnswerOf(key, Shown(s.cache)[key].flags, bt) && s'.cache == s.cache
         else p == Missed && Shown(s'.cache) == Shown(s.cache) - {key}
  {
    hide Consults;
    hide AnswerOf;
    var loaded := Apply(cfg, Apply(cfg, s, Begin(q, key, bt)), Load(q));
    assert loaded.queries[q] == Query(key, bt, LoadPhase(s, Query(key, bt, Started)));
    var checked := StepIf(cfg, loaded, Check(q));
    assert loaded.queries[q].phase.Loaded? ==> checked.queries[q] == Query(key, bt, CheckPhase(s, loaded.queries[q]));
    if key in s.cache {
      ShownUpdates(s.cache, key, s.cache[key]);
    }
    hide Shown;
  }

  lemma SoloFetchEffect(cfg: Config, s: State, q: QueryID, dbOk: bool)
    requires |s.history| > 0 && q in s.queries && s.queries[q].phase == Missed
    ensures var s', db := SoloFetch(cfg, s, q, dbOk), s.history[|s.history| - 1];
      var key, bt := s.queries[q].key, s.queries[q].bt;
      && q in s'.queries
      && var r := ResultOf(s'.queries[q].phase);
         match Lookup(cfg, db, key)
         case None => r == (if dbOk then Ok(false) else Err(())) && s'.cache == s.cache
         case Some(f) =>
           if dbOk then r == Ok(AnswerOf(key, f, bt))
             && Shown(s'.cache) == Shown(s.cache)[key := CachedFlag(f, s.now + cfg.ttl)]
           else r == Err(()) && s'.cache == s.cache
  {
    hide Lookup;
    hide AnswerOf;
    var fetched := Apply(cfg, s, Fetch(q, dbOk));
    var query := s.queries[q];
    if dbOk && Lookup(cfg, s.history[|s.history| - 1], query.key).Some? {
      var stamped := Apply(cfg, fetched, Stamp(q));
      var stored := Apply(cfg, stamped, Store(q));
      ShownUpdates(s.cache, query.key, stored.cache[query.key]);
    }
    hide Shown;
  }

  /** Without interruption the machine's query does what the enforcer's method does. */
  lemma SoloQueryIsMethod(cfg: Config, s: State, q: QueryID, key: Key, bt: Biz, dbOk: bool)
    requires |s.history| > 0 && q !in s.queries
    ensures var s' := Solo(cfg, s, q, key, bt, dbOk);
      && q in s'.queries
      && QueryEffect(cfg, Shown(s.cache), key, bt, s.now, s.history[|s.history| - 1], dbOk, s.now,
                     ResultOf(s'.queries[q].phase), Shown(s'.cache))
  {
    hide Shown;
    hide SoloLoad;
    hide SoloFetch;
    hide Lookup;
    hide Uncached;
    hide Queried;
    hide AnswerOf;
    hide Consults;
    var db := s.history[|s.history| - 1];
    var loaded := SoloLoad(cfg, s, q, key, bt);
    var ok := dbOk || !Queried(cfg, key);
    SoloLoadEffect(cfg, s, q, key, bt);
    if loaded.queries[q].phase == Missed {
      LookupAnswers(cfg, db, key, bt);
      NotQueriedNoRow(cfg, db, key);
      SoloFetchEffect(cfg, loaded, q, ok);
    } else {
      AnsweredStays(cfg, loaded, q, ok);
    }
  }

  lemma AnsweredStays(cfg: Config, s: State, q: QueryID, ok: bool)
    requires |s.history| > 0 && q in s.queries && s.queries[q].phase.Answered?
    ensures SoloFetch(cfg, s, q, ok) == s
  {
  }

  lemma NotQueriedNoRow(cfg: Config, db: Db, key: Key)
    ensures !Queried(cfg, key) ==> Lookup(cfg, db, key) == None
  {
  }

  // ---- The enforcer object ------------------------------------------------------------------

  /** What asking for a node comes to: the unexpired entry answers, otherwise the node's row does and is
      remembered; file transfers by the one flag, connections by the other, and nothing else. */
  ghost predicate NodeAnswered(cfg: Config, id: string, bt: Biz, now: int, db: Db, dbOk: bool, stampedAt: int,
                               before: Cache, r: Result<bool, ()>, after: Cache)
  {
    var key, row := Key("node", id), cfg.parseID(id);
    var connects := bt in {AssetAccess, CommandExec, SessionExtend, SessionElevate, VendorAccess};
    if key in before && now <= before[key].expiresAt then
      var f := before[key].flags;
      after == before && r == Ok(if bt == FileTransfer then f.fileXfer else connects && f.connect)
    else if !cfg.hasNodes || row == None || row == Some(0) then
      after == before - {key} && r == Ok(false)
    else if !dbOk then
      after == before - {key} && r == Err(())
    else if row.value !in db.nodes then
      after == before - {key} && r == Ok(false)
    else
      var n := db.nodes[row.value];
      && after == before[key := CachedFlag(Flags(n.connect, n.fileXfer, false), stampedAt + cfg.ttl)]
      && r == Ok(if bt == FileTransfer then n.fileXfer else connects && n.connect)
  }

  /** The same for a credential, and only for its use. */
  ghost predicate CredentialAnswered(cfg: Config, id: string, bt: Biz, now: int, db: Db, dbOk: bool,
                                     stampedAt: int, before: Cache, r: Result<bool, ()>, after: Cache)
  {
    var key, row := Key("credential", id), cfg.parseID(id);
    if bt != CredentialUse then
      after == before && r == Ok(false)
    else if key in before && now <= before[key].expiresAt then
      after == before && r == Ok(before[key].flags.credUse)
    else if !cfg.hasCreds || row == None || row == Some(0) then
      after == before - {key} && r == Ok(false)
    else if !dbOk then
      after == before - {key} && r == Err(())
    else if row.value !in db.credentials then
      after == before - {key} && r == Ok(false)
    else
      && after == before[key := CachedFlag(Flags(false, false, db.credentials[row.value]), stampedAt + cfg.ttl)]
      && r == Ok(db.credentials[row.value])
  }

  lemma NodeQueried(cfg: Config, id: string, bt: Biz, now: int, db: Db, dbOk: bool, stampedAt: int, before: Cache,
                    r: Result<bool, ()>, after: Cache)
    requires id != "" && NodeAnswered(cfg, id, bt, now, db, dbOk, stampedAt, before, r, after)
    ensures QueryEffect(cfg, before, Key("node", id), bt, now, db, dbOk, stampedAt, r, after)
  {
  }

  lemma CredentialQueried(cfg: Config, id: string, bt: Biz, now: int, db: Db, dbOk: bool, stampedAt: int,
                          before: Cache, r: Result<bool, ()>, after: Cache)
    requires id != "" && CredentialAnswered(cfg, id, bt, now, db, dbOk, stampedAt, before, r, after)
    ensures QueryEffect(cfg, before, Key("credential", id), bt, now, db, dbOk, stampedAt, r, after)
  {
  }

  class RepoEnforcer {
    const cfg: Config
    var cache: Cache

    constructor (cfg: Config)
      ensures this.cfg == cfg && cache == map[]
    {
      this.cfg, cache := cfg, map[];
    }

    /** An entry is used up to and including its expiry time, and deleted when found later. */
    method LookupCached(key: Key, now: int) returns (r: Option<Flags>)
      modifies this
      ensures r == if Unexpired(old(cache), key, now) then Some(old(cache)[key].flags) else None
      ensures cache == if r.Some? then old(cache) else old(cache) - {key}
    {
      if key !in cache {
        assert cache == cache - {key};
        return None;
      }
      var cf := cache[key];
      if now > cf.expiresAt {
        cache := cache - {key};
        return None;
      }
      return Some(cf.flags);
    }

    method NodeFlag(id: string, bt: Biz, now: int, db: Db, dbOk: bool, stampedAt: int) returns (r: Result<bool, ()>)
      modifies this
      ensures NodeAnswered(cfg, id, bt, now, db, dbOk, stampedAt, old(cache), r, cache)
    {
      var key := Key("node", id);
      var cached := LookupCached(key, now);
      var cf: Flags;
      if cached.Some? {
        cf := cached.value;
      } else {
        if !cfg.hasNodes {
          return Ok(false);
        }
        var row := cfg.parseID(id);
        if row.None? || row.value == 0 {
          return Ok(false);
        }
        if !dbOk {
          return Err(());
        }
        if row.value !in db.nodes {
          return Ok(false);
        }
        var n := db.nodes[row.value];
        cf := Flags(n.connect, n.fileXfer, false);
        cache := cache[key := CachedFlag(cf, stampedAt + cfg.ttl)];
      }
      return Ok(Select(cf, bt));
    }

    method CredentialFlag(id: string, bt: Biz, now: int, db: Db, dbOk: bool, stampedAt: int)
      returns (r: Result<bool, ()>)
      modifies this
      ensures CredentialAnswered(cfg, id, bt, now, db, dbOk, stampedAt, old(cache), r, cache)
    {
      if bt != CredentialUse {
        return Ok(false);
      }
      var key := Key("credential", id);
      var cached := LookupCached(key, now);
      var cf: Flags;
      if cached.Some? {
        cf := cached.value;
      } else {
        if !cfg.hasCreds {
          return Ok(false);
        }
        var row := cfg.parseID(id);
        if row.None? || row.value == 0 {
          return Ok(false);
        }
        if !dbOk {
          return Err(());
        }
        if row.value !in db.credentials {
          return Ok(false);
        }
        cf := Flags(false, false, db.credentials[row.value]);
        cache := cache[key := CachedFlag(cf, stampedAt + cfg.ttl)];
      }
      return Ok(cf.credUse);
    }

    /** Nodes and credentials have flags; nothing else is enforced here, and no cache is looked at. */
    method IsEnforced(bt: Biz, key: Key, now: int, db: Db, dbOk: bool, stampedAt: int) returns (r: Result<bool, ()>)
      modifies this
      ensures key.id == "" || (key.resourceType != "node" && key.resourceType != "credential") ==>
        r == Ok(false) && cache == old(cache)
      ensures key.id != "" && key.resourceType == "node" ==>
        NodeAnswered(cfg, key.id, bt, now, db, dbOk, stampedAt, old(cache), r, cache)
      ensures key.id != "" && key.resourceType == "credential" ==>
        CredentialAnswered(cfg, key.id, bt, now, db, dbOk, stampedAt, old(cache), r, cache)
      ensures QueryEffect(cfg, old(cache), key, bt, now, db, dbOk, stampedAt, r, cache)
    {
      if key.id == "" {
        return Ok(false);
      }
      if key.resourceType == "node" {
        r := NodeFlag(key.id, bt, now, db, dbOk, stampedAt);
        NodeQueried(cfg, key.id, bt, now, db, dbOk, stampedAt, old(cache), r, cache);
        hide *;
        return;
      }
      if key.resourceType == "credential" {
        r := CredentialFlag(key.id, bt, now, db, dbOk, stampedAt);
        CredentialQueried(cfg, key.id, bt, now, db, dbOk, stampedAt, old(cache), r, cache);
        hide *;
        return;
      }
      return Ok(false);
    }
  }
}
