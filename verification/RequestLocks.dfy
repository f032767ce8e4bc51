/** The table of reference-counted locks, one per request with appends in progress. */
module RequestLocks {
  import opened Bytes

  /** The table, and the reference count of each lock it holds. */
  datatype LockMap<!L(==)> = LockMap(table: map<bytes, L>, ref: map<L, nat>)

  ghost predicate Consistent<L>(m: LockMap<L>) {
    && m.ref.Keys == m.table.Values
    && (forall i, j | i in m.table && j in m.table && i != j :: m.table[i] != m.table[j])
    && (forall l | l in m.ref :: m.ref[l] > 0)
  }

  /** One more user of `id`; `unused` is the lock to create when the table has none. */
  function Entered<L(==)>(m: LockMap<L>, id: bytes, unused: L): LockMap<L>
    requires id in m.table ==> m.table[id] in m.ref
  {
    if id in m.table then m.(ref := m.ref[m.table[id] := m.ref[m.table[id]] + 1])
    else LockMap(m.table[id := unused], m.ref[unused := 1])
  }

  /** One user of the lock `l` fewer; the last one takes the entry of `id` away, whatever it holds. */
  function Left<L(==)>(m: LockMap<L>, id: bytes, l: L): LockMap<L>
    requires l in m.ref && m.ref[l] > 0
  {
    if m.ref[l] == 1 then LockMap(m.table - {id}, m.ref - {l}) else m.(ref := m.ref[l := m.ref[l] - 1])
  }

  lemma EnteredConsistent<L>(m: LockMap<L>, id: bytes, unused: L)
    requires Consistent(m) && (id in m.table || unused !in m.ref)
    ensures Consistent(Entered(m, id, unused))
  {
    var n := Entered(m, id, unused);
    if id !in m.table {
      forall l ensures l in n.table.Values <==> l in n.ref.Keys {
        if l in m.table.Values {
          var k :| k in m.table && m.table[k] == l;
          assert n.table[k] == l;
        }
        assert n.table[id] == unused;
      }
    }
  }

  lemma LeftConsistent<L>(m: LockMap<L>, id: bytes)
    requires Consistent(m) && id in m.table
    ensures Consistent(Left(m, id, m.table[id]))
  {
    var gone := m.table[id];
    var n := Left(m, id, gone);
    if m.ref[gone] == 1 {
      forall l ensures l in n.table.Values <==> l in n.ref.Keys {
        if l in m.table.Values && l != gone {
          var k :| k in m.table && m.table[k] == l;
          assert n.table[k] == l;
        }
      }
    }
  }

  class RequestLock {
    var ref: nat

    constructor ()
      ensures ref == 0
    {
      ref := 0;
    }
  }

  /** The two critical sections of lockRequest: the entry section takes a reference, and the one
      at the end of the release closure gives it back. */
  class LockTable {
    var requestLocks: map<bytes, RequestLock>

    ghost function View(): LockMap<RequestLock>
      reads this, requestLocks.Values
    {
      LockMap(requestLocks, map rl | rl in requestLocks.Values :: rl.ref)
    }

    constructor ()
      ensures View() == LockMap(map[], map[]) && Consistent(View())
    {
      requestLocks := map[];
    }

    method Enter(id: bytes) returns (rl: RequestLock)
      requires Consistent(View())
      modifies this, requestLocks.Values
      ensures Consistent(View())
      ensures View() == Entered(old(View()), id, rl)
      ensures requestLocks[id] == rl && (id !in old(requestLocks) ==> fresh(rl))
    {
      ghost var before := View();
      if id in requestLocks {
        rl := requestLocks[id];
        rl.ref := rl.ref + 1;
      } else {
        rl := new RequestLock();
        requestLocks := requestLocks[id := rl];
        rl.ref := rl.ref + 1;
      }
      EnteredConsistent(before, id, rl);
      assert View().ref == Entered(before, id, rl).ref by {
        assert View().ref.Keys == requestLocks.Values;
        assert requestLocks == Entered(before, id, rl).table;
      }
    }

    method Leave(id: bytes, rl: RequestLock)
      requires Consistent(View()) && id in requestLocks && requestLocks[id] == rl
      modifies this, rl
      ensures Consistent(View())
      ensures View() == Left(old(View()), id, rl)
    {
      ghost var before := View();
      assert before.ref[rl] > 0;
      rl.ref := rl.ref - 1;
      if rl.ref == 0 {
        requestLocks := requestLocks - {id};
      }
      LeftConsistent(before, id);
      assert View().ref == Left(before, id, rl).ref by {
        assert View().ref.Keys == requestLocks.Values;
        assert requestLocks == Left(before, id, rl).table;
      }
    }
  }
}
