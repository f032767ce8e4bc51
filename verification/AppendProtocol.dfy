/** Any number of goroutines appending to the ledger of one process, as a machine that takes one
    atomic step at a time: enter the lock table, acquire the request's mutex, read the last row,
    insert, unlock, leave the lock table. Table steps are atomic because the source guards them
    with requestLocksMu. */
module AppendProtocol {
  import opened Bytes
  import opened HashChain
  import opened Ledger
  import opened RequestLocks

  type ThreadID = nat
  type LockID = nat

  datatype Phase =
    | Waiting                     // holds a reference, blocked on the mutex
    | Locked                      // holds the mutex
    | HasLast(prevHash: bytes)    // holds the mutex and has read the last row
    | Finishing                   // holds the mutex, about to run the release closure
    | Unlocked                    // mutex given back, reference not yet

  datatype Thread = Thread(req: bytes, lock: LockID, phase: Phase)

  datatype State = State(
    locks: LockMap<LockID>, nextLock: LockID, holder: map<LockID, ThreadID>,
    threads: map<ThreadID, Thread>, rows: seq<Event>)

  datatype Action =
    | Enter(t: ThreadID, req: bytes)
    | Acquire(t: ThreadID)
    | ReadLast(t: ThreadID)
    | ReadFails(t: ThreadID)
    | Insert(t: ThreadID, row: Event)
    | InsertFails(t: ThreadID)
    | Unlock(t: ThreadID)
    | Leave(t: ThreadID)

  const INITIAL := State(LockMap(map[], map[]), 0, map[], map[], [])

  predicate At(s: State, t: ThreadID, p: Phase) {
    t in s.threads && s.threads[t].phase == p
  }

  predicate Holds(p: Phase) { p.Locked? || p.HasLast? || p.Finishing? }

  /** A row as the append builds it: linked to the hash the thread has read, and hashed. */
  ghost predicate RowBuilt(sha: Hasher, th: Thread, row: Event) {
    && th.phase.HasLast?
    && row.requestID == th.req && row.prevHash == th.phase.prevHash && row.hash == sha(HashInput(row))
  }

  ghost predicate Enabled(sha: Hasher, s: State, a: Action) {
    match a
    case Enter(t, req) => t !in s.threads && req != [] && (req in s.locks.table ==> s.locks.table[req] in s.locks.ref)
    case Acquire(t) => At(s, t, Waiting) && s.threads[t].lock !in s.holder
    case ReadLast(t) => At(s, t, Locked)
    case ReadFails(t) => At(s, t, Locked)
    case Insert(t, row) => t in s.threads && RowBuilt(sha, s.threads[t], row)
    case InsertFails(t) => t in s.threads && s.threads[t].phase.HasLast?
    case Unlock(t) => At(s, t, Finishing)
    case Leave(t) =>
      At(s, t, Unlocked) && s.threads[t].lock in s.locks.ref && s.locks.ref[s.threads[t].lock] > 0
  }

  function Moved(s: State, t: ThreadID, p: Phase): map<ThreadID, Thread>
    requires t in s.threads
  {
    s.threads[t := s.threads[t].(phase := p)]
  }

  ghost function Apply(sha: Hasher, s: State, a: Action): State
    requires Enabled(sha, s, a)
  {
    match a
    case Enter(t, req) =>
      var locks := Entered(s.locks, req, s.nextLock);
      s.(locks := locks, nextLock := s.nextLock + 1, threads := s.threads[t := Thread(req, locks.table[req], Waiting)])
    case Acquire(t) =>
      s.(holder := s.holder[s.threads[t].lock := t], threads := Moved(s, t, Locked))
    case ReadLast(t) =>
      var req := s.threads[t].req;
      s.(threads := Moved(s, t, HasLast(Tip(sha, req, EventsOf(s.rows, req)))))
    case ReadFails(t) => s.(threads := Moved(s, t, Finishing))
    case Insert(t, row) => s.(rows := s.rows + [row], threads := Moved(s, t, Finishing))
    case InsertFails(t) => s.(threads := Moved(s, t, Finishing))
    case Unlock(t) =>
      s.(holder := s.holder - {s.threads[t].lock}, threads := Moved(s, t, Unlocked))
    case Leave(t) =>
      s.(locks := Left(s.locks, s.threads[t].req, s.threads[t].lock), threads := s.threads - {t})
  }

  // ---- The invariant ------------------------------------------------------------------------

  function Users(s: State, req: bytes): set<ThreadID> {
    set t | t in s.threads && s.threads[t].req == req
  }

  /** Every user of a request shares the one lock in the table, whose count is the number of users. */
  ghost predicate CountsRight(s: State) {
    && Consistent(s.locks)
    && (forall l | l in s.locks.ref :: l < s.nextLock)
    && (forall t | t in s.threads :: s.threads[t].req in s.locks.table)
    && (forall t | t in s.threads :: s.locks.table[s.threads[t].req] == s.threads[t].lock)
    && (forall r | r in s.locks.table :: s.locks.ref[s.locks.table[r]] == |Users(s, r)|)
  }

  /** The mutexes are held by exactly the threads that believe they hold them. */
  ghost predicate MutexesRight(s: State) {
    && (forall l | l in s.holder :: s.holder[l] in s.threads
          && s.threads[s.holder[l]].lock == l && Holds(s.threads[s.holder[l]].phase))
    && (forall t | t in s.threads && Holds(s.threads[t].phase) ::
          s.threads[t].lock in s.holder && s.holder[s.threads[t].lock] == t)
  }

  /** What a thread has read as last row is still the last row of its request. */
  ghost predicate ReadsFresh(sha: Hasher, s: State) {
    forall t | t in s.threads && s.threads[t].phase.HasLast? ::
      s.threads[t].phase.prevHash == Tip(sha, s.threads[t].req, EventsOf(s.rows, s.threads[t].req))
  }

  ghost predicate Inv(sha: Hasher, s: State) {
    CountsRight(s) && MutexesRight(s) && ReadsFresh(sha, s) && BuiltByAppends(sha, s.rows)
  }

  lemma UsersUnchanged(s: State, s': State, req: bytes)
    requires s'.threads.Keys == s.threads.Keys
    requires forall t | t in s.threads :: s'.threads[t].req == s.threads[t].req
    ensures Users(s', req) == Users(s, req)
  {
  }

  lemma PhaseMoveKeepsCounts(s: State, s': State, t: ThreadID, p: Phase)
    requires CountsRight(s) && t in s.threads
    requires s'.threads == Moved(s, t, p) && s'.locks == s.locks && s'.nextLock == s.nextLock
    ensures CountsRight(s')
  {
    forall r ensures Users(s', r) == Users(s, r) {
      UsersUnchanged(s, s', r);
    }
  }

  lemma EnterCounts(s: State, s': State, t: ThreadID, req: bytes, r: bytes)
    requires CountsRight(s) && t !in s.threads && (req in s.locks.table || s.nextLock !in s.locks.ref)
    requires s'.locks == Entered(s.locks, req, s.nextLock)
    requires s'.threads == s.threads[t := Thread(req, s'.locks.table[req], Waiting)]
    requires r in s'.locks.table
    ensures s'.locks.table[r] in s'.locks.ref && s'.locks.ref[s'.locks.table[r]] == |Users(s', r)|
  {
    if r == req {
      assert Users(s', r) == Users(s, r) + {t};
      if r in s.locks.table {
        assert s.locks.table[r] in s.locks.table.Values;
      } else {
        assert Users(s, r) == {};
      }
    } else {
      assert Users(s', r) == Users(s, r);
      assert s.locks.table[r] in s.locks.table.Values;
    }
  }

  lemma EnterKeepsCounts(s: State, s': State, t: ThreadID, req: bytes)
    requires CountsRight(s) && t !in s.threads
    requires s'.locks == Entered(s.locks, req, s.nextLock) && s'.nextLock == s.nextLock + 1
    requires s'.threads == s.threads[t := Thread(req, s'.locks.table[req], Waiting)]
    ensures CountsRight(s')
  {
    EnteredConsistent(s.locks, req, s.nextLock);
    forall r | r in s'.locks.table ensures s'.locks.ref[s'.locks.table[r]] == |Users(s', r)| {
      EnterCounts(s, s', t, req, r);
    }
  }

  lemma LeaveEmptiesWhenLast(s: State, s': State, t: ThreadID)
    requires CountsRight(s) && t in s.threads && s'.threads == s.threads - {t}
    ensures var req := s.threads[t].req;
      && Users(s', req) == Users(s, req) - {t}
      && (s.locks.ref[s.locks.table[req]] == 1 ==> Users(s', req) == {})
  {
    var req := s.threads[t].req;
    assert Users(s', req) == Users(s, req) - {t};
    if s.locks.ref[s.locks.table[req]] == 1 {
      assert |Users(s', req)| == 0;
    }
  }

  lemma LeaveKeepsCounts(sha: Hasher, s: State, t: ThreadID)
    requires CountsRight(s) && Enabled(sha, s, Leave(t))
    ensures CountsRight(Apply(sha, s, Leave(t)))
  {
    var s' := Apply(sha, s, Leave(t));
    var req := s.threads[t].req;
    LeftConsistent(s.locks, req);
    LeaveEmptiesWhenLast(s, s', t);
    forall u | u in s'.threads
      ensures s'.threads[u].req in s'.locks.table && s'.locks.table[s'.threads[u].req] == s'.threads[u].lock
    {
      assert s'.threads[u].req == req ==> u in Users(s', req);
    }
    forall r | r in s'.locks.table ensures s'.locks.ref[s'.locks.table[r]] == |Users(s', r)| {
      LeaveCounts(s, s', t, r);
    }
  }

  lemma LeaveCounts(s: State, s': State, t: ThreadID, r: bytes)
    requires CountsRight(s) && t in s.threads && s'.threads == s.threads - {t}
    requires s'.locks == Left(s.locks, s.threads[t].req, s.threads[t].lock)
    requires r in s'.locks.table && s'.locks.table[r] in s'.locks.ref
    ensures s'.locks.ref[s'.locks.table[r]] == |Users(s', r)|
  {
    var req := s.threads[t].req;
    if r == req {
      LeaveEmptiesWhenLast(s, s', t);
    } else {
      assert Users(s', r) == Users(s, r);
    }
  }

  lemma SharedLock(s: State, t: ThreadID, u: ThreadID)
    requires CountsRight(s) && t in s.threads && u in s.threads
    ensures s.threads[t].lock == s.threads[u].lock <==> s.threads[t].req == s.threads[u].req
  {
  }

  lemma InsertKeepsReads(sha: Hasher, s: State, t: ThreadID, row: Event)
    requires Inv(sha, s) && Enabled(sha, s, Insert(t, row))
    ensures ReadsFresh(sha, Apply(sha, s, Insert(t, row))) && BuiltByAppends(sha, s.rows + [row])
    ensures IsNext(sha, s.rows, row)
  {
    var s' := Apply(sha, s, Insert(t, row));
    AppendedRow(sha, s.rows, row);
    forall u | u in s'.threads && s'.threads[u].phase.HasLast?
      ensures s'.threads[u].req != row.requestID
    {
      SharedLock(s, t, u);
    }
  }

  lemma StepKeepsMutexes(sha: Hasher, s: State, a: Action)
    requires MutexesRight(s) && Enabled(sha, s, a)
    ensures MutexesRight(Apply(sha, s, a))
  {
  }

  lemma StepKeepsCounts(sha: Hasher, s: State, a: Action)
    requires CountsRight(s) && Enabled(sha, s, a)
    ensures CountsRight(Apply(sha, s, a))
  {
    var s' := Apply(sha, s, a);
    match a {
      case Enter(t, req) => EnterKeepsCounts(s, s', t, req);
      case Leave(t) => LeaveKeepsCounts(sha, s, t);
      case _ => PhaseMoveKeepsCounts(s, s', a.t, s'.threads[a.t].phase);
    }
  }

  lemma StepKeepsReads(sha: Hasher, s: State, a: Action)
    requires Inv(sha, s) && Enabled(sha, s, a)
    ensures ReadsFresh(sha, Apply(sha, s, a)) && BuiltByAppends(sha, Apply(sha, s, a).rows)
  {
    hide CountsRight;
    hide MutexesRight;
    hide BuiltByAppends;
    if a.Insert? {
      InsertKeepsReads(sha, s, a.t, a.row);
    } else {
      assert Apply(sha, s, a).rows == s.rows;
    }
  }

  lemma StepKeepsInv(sha: Hasher, s: State, a: Action)
    requires Inv(sha, s) && Enabled(sha, s, a)
    ensures Inv(sha, Apply(sha, s, a))
  {
    hide Apply;
    hide CountsRight;
    hide MutexesRight;
    hide ReadsFresh;
    hide BuiltByAppends;
    StepKeepsCounts(sha, s, a);
    StepKeepsMutexes(sha, s, a);
    StepKeepsReads(sha, s, a);
  }

  // ---- Runs ---------------------------------------------------------------------------------

  /** A run: states, and the actions between them, from the initial state. */
  ghost predicate IsRun(sha: Hasher, states: seq<State>, actions: seq<Action>) {
    && |states| == |actions| + 1 && states[0] == INITIAL
    && forall i | 0 <= i < |actions| ::
         Enabled(sha, states[i], actions[i]) && states[i + 1] == Apply(sha, states[i], actions[i])
  }

  lemma {:induction false} RunKeepsInv(sha: Hasher, states: seq<State>, actions: seq<Action>, n: nat)
    requires IsRun(sha, states, actions) && n < |states|
    ensures Inv(sha, states[n])
  {
    if n > 0 {
      RunKeepsInv(sha, states, actions, n - 1);
      StepKeepsInv(sha, states[n - 1], actions[n - 1]);
    }
  }

  /** In every state of every interleaving, the events of each request form one chain that verifies. */
  lemma EveryInterleavingChains(sha: Hasher, states: seq<State>, actions: seq<Action>, n: nat, req: bytes)
    requires IsRun(sha, states, actions) && n < |states|
    ensures ValidChain(sha, req, EventsOf(states[n].rows, req))
  {
    RunKeepsInv(sha, states, actions, n);
    AppendedChainsVerify(sha, states[n].rows);
  }

  /** Every insert links to the row that is the last one of its request at that very moment. */
  lemma InsertLinksToLast(sha: Hasher, states: seq<State>, actions: seq<Action>, n: nat)
    requires IsRun(sha, states, actions) && n < |actions| && actions[n].Insert?
    ensures var row := actions[n].row;
      && row.prevHash == Tip(sha, row.requestID, EventsOf(states[n].rows, row.requestID))
      && EventsOf(states[n + 1].rows, row.requestID) == EventsOf(states[n].rows, row.requestID) + [row]
  {
    RunKeepsInv(sha, states, actions, n);
    EventsOfExtended(states[n].rows, actions[n].row, actions[n].row.requestID);
  }

  /** The lock protocol: the count of a lock is its holders, waiters and releasers; the table has an
      entry exactly for requests with users; all users share the lock in the table; and at most
      one thread at a time is between acquiring and releasing it. */
  lemma LockProtocol(sha: Hasher, states: seq<State>, actions: seq<Action>, n: nat, req: bytes)
    requires IsRun(sha, states, actions) && n < |states|
    ensures var s := states[n];
      && (req in s.locks.table <==> Users(s, req) != {})
      && (req in s.locks.table ==>
            s.locks.table[req] in s.locks.ref && s.locks.ref[s.locks.table[req]] == |Users(s, req)|)
      && (forall t | t in Users(s, req) :: req in s.locks.table && s.threads[t].lock == s.locks.table[req])
      && (forall t, u | t in Users(s, req) && u in Users(s, req)
            && Holds(s.threads[t].phase) && Holds(s.threads[u].phase) :: t == u)
      && (s.threads == map[] ==> s.locks.table == map[] && s.holder == map[])
  {
    RunKeepsInv(sha, states, actions, n);
    var s := states[n];
    forall r | r in s.locks.table ensures Users(s, r) != {} {
      EntryHasUser(s, r);
    }
    if s.threads == map[] {
      assert forall r :: Users(s, r) == {};
    }
  }

  lemma EntryHasUser(s: State, r: bytes)
    requires CountsRight(s) && r in s.locks.table
    ensures Users(s, r) != {} && s.locks.table[r] in s.locks.ref
  {
    assert s.locks.table[r] in s.locks.table.Values;
    assert s.locks.ref[s.locks.table[r]] > 0;
  }

  ghost function RequestOf(s: State, a: Action): bytes {
    if a.Enter? then a.req else if a.t in s.threads then s.threads[a.t].req else []
  }

  /** What of a state belongs to one request: its chain, its users and its lock. */
  ghost predicate SameFor(s: State, s': State, req: bytes) {
    && EventsOf(s'.rows, req) == EventsOf(s.rows, req)
    && Users(s', req) == Users(s, req)
    && (forall t | t in Users(s, req) :: s'.threads[t] == s.threads[t])
    && SameLock(s, s', req)
  }

  ghost predicate SameLock(s: State, s': State, req: bytes) {
    && (req in s'.locks.table <==> req in s.locks.table)
    && (req in s.locks.table ==>
          var l := s.locks.table[req];
          && s'.locks.table[req] == l && l in s.locks.ref && l in s'.locks.ref && s'.locks.ref[l] == s.locks.ref[l]
          && (l in s'.holder <==> l in s.holder) && (l in s.holder ==> s'.holder[l] == s.holder[l]))
  }

  lemma StepKeepsOtherLock(sha: Hasher, s: State, a: Action, other: bytes)
    requires CountsRight(s) && Enabled(sha, s, a) && RequestOf(s, a) != other
    ensures SameLock(s, Apply(sha, s, a), other)
  {
    if other in s.locks.table {
      assert s.locks.table[other] in s.locks.table.Values;
    }
  }

  lemma StepKeepsOtherRows(sha: Hasher, s: State, a: Action, other: bytes)
    requires Enabled(sha, s, a) && RequestOf(s, a) != other
    ensures EventsOf(Apply(sha, s, a).rows, other) == EventsOf(s.rows, other)
  {
    if a.Insert? {
      EventsOfExtended(s.rows, a.row, other);
    }
  }

  lemma StepKeepsOtherThreads(sha: Hasher, s: State, a: Action, other: bytes)
    requires Enabled(sha, s, a) && RequestOf(s, a) != other
    ensures Users(Apply(sha, s, a), other) == Users(s, other)
    ensures forall t | t in Users(s, other) :: Apply(sha, s, a).threads[t] == s.threads[t]
  {
    var s' := Apply(sha, s, a);
    forall t ensures t in Users(s', other) <==> t in Users(s, other) {
    }
  }

  /** A step for one request leaves the chain, the lock, its count, its holder and the threads of
      every other request as they were. */
  lemma RequestsIndependent(sha: Hasher, states: seq<State>, actions: seq<Action>, n: nat, other: bytes)
    requires IsRun(sha, states, actions) && n < |actions|
    requires RequestOf(states[n], actions[n]) != other
    ensures SameFor(states[n], states[n + 1], other)
  {
    RunKeepsInv(sha, states, actions, n);
    StepKeepsOtherLock(sha, states[n], actions[n], other);
    StepKeepsOtherRows(sha, states[n], actions[n], other);
    StepKeepsOtherThreads(sha, states[n], actions[n], other);
  }

  /** While any append is in progress, some thread can take a step: no deadlock. */
  lemma NoDeadlock(sha: Hasher, states: seq<State>, actions: seq<Action>, n: nat) returns (a: Action)
    requires IsRun(sha, states, actions) && n < |states| && states[n].threads != map[]
    ensures !a.Enter? && Enabled(sha, states[n], a)
  {
    RunKeepsInv(sha, states, actions, n);
    var s := states[n];
    var t :| t in s.threads;
    if s.threads[t].phase.Waiting? && s.threads[t].lock in s.holder {
      t := s.holder[s.threads[t].lock];
    }
    match s.threads[t].phase {
      case Waiting => a := Acquire(t);
      case Locked => a := ReadLast(t);
      case HasLast(_) => a := InsertFails(t);
      case Finishing => a := Unlock(t);
      case Unlocked =>
        assert s.locks.table[s.threads[t].req] in s.locks.table.Values;
        a := Leave(t);
    }
  }

  /** Entering never blocks: a goroutine that is not in an append can always start one. */
  lemma EnterNeverBlocks(sha: Hasher, states: seq<State>, actions: seq<Action>, n: nat, t: ThreadID, req: bytes)
    requires IsRun(sha, states, actions) && n < |states| && req != []
    ensures Enabled(sha, states[n], Enter(t, req)) <==> t !in states[n].threads
  {
    RunKeepsInv(sha, states, actions, n);
    var s := states[n];
    if req in s.locks.table {
      EntryHasUser(s, req);
    }
  }
}
