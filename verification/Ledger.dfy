/** The append-only approval ledger over its event table. */
module Ledger {
  import opened Bytes
  import opened Results
  import opened HashChain
  import Seqs

  datatype LedgerError = RequestIDRequired | MarshalFailed | LastEventFailed | InsertFailed | ListFailed

  /** What the caller hands over as payload. `json` is the marshalled form of a structured value, or
      None when it cannot be marshalled. */
  datatype Payload = Absent | Text(text: bytes) | Structured(json: Option<bytes>)

  /** How the two store calls of one append turn out. */
  datatype StoreOutcome = StoreOutcome(lastOk: bool, insertOk: bool)

  datatype VerifyReport = VerifyReport(requestID: bytes, total: nat, ok: bool, firstBadEventID: nat, reason: string)

  /** The rows of one request in id order. */
  function EventsOf(rows: seq<Event>, requestID: bytes): seq<Event> {
    if rows == [] then []
    else
      var rest, e := EventsOf(rows[..|rows| - 1], requestID), rows[|rows| - 1];
      if e.requestID == requestID then rest + [e] else rest
  }

  lemma EventsOfExtended(rows: seq<Event>, e: Event, requestID: bytes)
    ensures EventsOf(rows + [e], requestID)
            == EventsOf(rows, requestID) + (if e.requestID == requestID then [e] else [])
  {
    assert (rows + [e])[..|rows|] == rows;
  }

  /** The events are the rows of the request at these places: all of them, each once and in the order of
      the table. */
  ghost predicate Picks(rows: seq<Event>, requestID: bytes, at: seq<nat>, es: seq<Event>) {
    && |at| == |es| && (forall k, m | 0 <= k < m < |at| :: at[k] < at[m])
    && (forall k | 0 <= k < |at| :: at[k] < |rows| && es[k] == rows[at[k]])
    && (forall i: nat | i < |rows| :: i in at <==> rows[i].requestID == requestID)
  }

  lemma {:induction false} EventsOfExactly(rows: seq<Event>, requestID: bytes) returns (at: seq<nat>)
    ensures Picks(rows, requestID, at, EventsOf(rows, requestID))
  {
    at := [];
    if rows != [] {
      var n := |rows| - 1;
      at := EventsOfExactly(rows[..n], requestID);
      Seqs.InitLast(rows);
      PickNext(rows[..n], rows[n], requestID, at, EventsOf(rows[..n], requestID));
      if rows[n].requestID == requestID {
        at := at + [n];
      }
    }
  }

  lemma PickNext(rows: seq<Event>, e: Event, requestID: bytes, at: seq<nat>, es: seq<Event>)
    requires Picks(rows, requestID, at, es)
    ensures e.requestID == requestID ==> Picks(rows + [e], requestID, at + [|rows|], es + [e])
    ensures e.requestID != requestID ==> Picks(rows + [e], requestID, at, es)
  {
    var all, next := rows + [e], at + [|rows|];
    assert forall k | 0 <= k < |at| :: at[k] in at && all[at[k]] == rows[at[k]];
    assert |rows| !in at;
    forall i: nat ensures i in next <==> i in at || i == |rows| {
      assert next[|at|] == |rows|;
    }
  }

  ghost predicate NoneOf(rows: seq<Event>, requestID: bytes) {
    forall i | 0 <= i < |rows| :: rows[i].requestID != requestID
  }

  ghost predicate IsLastOf(rows: seq<Event>, requestID: bytes, i: int) {
    && 0 <= i < |rows| && rows[i].requestID == requestID
    && forall j | i < j < |rows| :: rows[j].requestID != requestID
  }

  lemma PicksLast(rows: seq<Event>, requestID: bytes, at: seq<nat>, es: seq<Event>, i: int)
    requires Picks(rows, requestID, at, es) && IsLastOf(rows, requestID, i)
    ensures es != [] && es[|es| - 1] == rows[i]
  {
    var k :| 0 <= k < |at| && at[k] == i;
    var last := |at| - 1;
    assert at[k] <= at[last];
    assert at[last] in at && rows[at[last]].requestID == requestID;
  }

  lemma HeadIn(at: seq<nat>)
    requires at != []
    ensures at[0] in at
  {
  }

  lemma PicksNone(rows: seq<Event>, requestID: bytes, at: seq<nat>, es: seq<Event>)
    requires Picks(rows, requestID, at, es) && NoneOf(rows, requestID)
    ensures es == []
  {
    if at != [] {
      HeadIn(at);
    }
  }

  lemma LastRow(rows: seq<Event>, requestID: bytes, i: int)
    requires IsLastOf(rows, requestID, i)
    ensures EventsOf(rows, requestID) != []
    ensures EventsOf(rows, requestID)[|EventsOf(rows, requestID)| - 1] == rows[i]
  {
    hide EventsOf;
    hide Picks;
    var at := EventsOfExactly(rows, requestID);
    PicksLast(rows, requestID, at, EventsOf(rows, requestID), i);
  }

  lemma NoRow(rows: seq<Event>, requestID: bytes)
    requires NoneOf(rows, requestID)
    ensures EventsOf(rows, requestID) == []
  {
    hide EventsOf;
    hide Picks;
    var at := EventsOfExactly(rows, requestID);
    PicksNone(rows, requestID, at, EventsOf(rows, requestID));
  }

  /** The row after `rows` for a draft event: linked to the last row of the same request. */
  ghost predicate IsNext(sha: Hasher, rows: seq<Event>, e: Event) {
    && e.prevHash == Tip(sha, e.requestID, EventsOf(rows, e.requestID))
    && e.hash == sha(HashInput(e))
  }

  /** The event names the hash of the latest row of its request, or else the hash of the seed and the
      request id. */
  ghost predicate LinksBack(sha: Hasher, rows: seq<Event>, e: Event) {
    && (NoneOf(rows, e.requestID) ==> e.prevHash == sha(Ascii("approval.ledger.v1.genesis") + e.requestID))
    && (forall i | IsLastOf(rows, e.requestID, i) :: e.prevHash == rows[i].hash)
  }

  lemma NextLinksBack(sha: Hasher, rows: seq<Event>, e: Event)
    requires IsNext(sha, rows, e)
    ensures LinksBack(sha, rows, e)
  {
    hide EventsOf;
    hide NoneOf;
    if NoneOf(rows, e.requestID) {
      NoRow(rows, e.requestID);
    }
    forall i | IsLastOf(rows, e.requestID, i) ensures e.prevHash == rows[i].hash {
      LastRow(rows, e.requestID, i);
    }
  }

  ghost predicate AllChainsValid(sha: Hasher, rows: seq<Event>) {
    forall r: bytes :: ValidChain(sha, r, EventsOf(rows, r))
  }

  /** Inserting a properly linked row keeps every chain valid and leaves other requests alone. */
  lemma InsertKeepsChains(sha: Hasher, rows: seq<Event>, e: Event)
    requires AllChainsValid(sha, rows) && IsNext(sha, rows, e)
    ensures AllChainsValid(sha, rows + [e])
  {
    forall r: bytes ensures ValidChain(sha, r, EventsOf(rows + [e], r)) {
      EventsOfExtended(rows, e, r);
      assert ValidChain(sha, r, EventsOf(rows, r));
      if e.requestID == r {
        ExtendValid(sha, r, EventsOf(rows, r), e);
      }
    }
  }

  /** A table filled by appends alone. */
  ghost predicate BuiltByAppends(sha: Hasher, rows: seq<Event>) {
    forall n: nat | n < |rows| :: IsNext(sha, rows[..n], rows[n])
  }

  lemma BuiltPrefix(sha: Hasher, rows: seq<Event>, n: nat)
    requires BuiltByAppends(sha, rows) && n <= |rows|
    ensures BuiltByAppends(sha, rows[..n])
  {
    hide IsNext;
    forall k: nat | k < n ensures IsNext(sha, rows[..n][..k], rows[..n][k]) {
      Seqs.SliceOfTake(rows, n, 0, k);
      assert IsNext(sha, rows[..k], rows[k]);
    }
  }

  /** Every chain built only by appends verifies, for every request, after any number of appends. */
  lemma {:induction false} AppendedChainsVerify(sha: Hasher, rows: seq<Event>)
    requires BuiltByAppends(sha, rows)
    ensures AllChainsValid(sha, rows)
  {
    hide IsNext;
    hide EventsOf;
    hide ValidChain;
    if rows == [] {
      NoChains(sha);
    } else {
      var n := |rows| - 1;
      assert IsNext(sha, rows[..n], rows[n]);
      BuiltPrefix(sha, rows, n);
      hide BuiltByAppends;
      hide AllChainsValid;
      AppendedChainsVerify(sha, rows[..n]);
      InsertKeepsChains(sha, rows[..n], rows[n]);
      Seqs.InitLast(rows);
    }
  }

  lemma NoChains(sha: Hasher)
    ensures AllChainsValid(sha, [])
  {
  }

  lemma AppendedRow(sha: Hasher, rows: seq<Event>, e: Event)
    requires IsNext(sha, rows, e)
    ensures BuiltByAppends(sha, rows) ==> BuiltByAppends(sha, rows + [e])
    ensures forall other | other != e.requestID :: EventsOf(rows + [e], other) == EventsOf(rows, other)
  {
    var all := rows + [e];
    forall other | other != e.requestID ensures EventsOf(all, other) == EventsOf(rows, other) {
      EventsOfExtended(rows, e, other);
    }
    if BuiltByAppends(sha, rows) {
      forall n: nat | n < |all| ensures IsNext(sha, all[..n], all[n]) {
        assert all[..n] == rows[..n];
        if n == |rows| {
          assert rows[..n] == rows;
        } else {
          assert IsNext(sha, rows[..n], rows[n]);
        }
      }
    }
  }

  method BytesEq(a: bytes, b: bytes) returns (eq: bool)
    ensures eq <==> a == b
  {
    if |a| != |b| {
      return false;
    }
    for i := 0 to |a|
      invariant a[..i] == b[..i]
    {
      if a[i] != b[i] {
        return false;
      }
      assert a[..i + 1] == a[..i] + [a[i]] && b[..i + 1] == b[..i] + [b[i]];
    }
    assert a[..|a|] == a && b[..|b|] == b;
    return true;
  }

  class Ledger {
    const sha: Hasher
    var rows: seq<Event>
    var nextID: nat

    /** Rows lie in the order of their ids, which the store hands out increasingly. */
    ghost predicate Valid()
      reads this
    {
      && (forall i, j | 0 <= i < j < |rows| :: rows[i].id < rows[j].id)
      && (forall i | 0 <= i < |rows| :: rows[i].id < nextID)
    }

    constructor (sha: Hasher)
      ensures Valid() && rows == [] && this.sha == sha && BuiltByAppends(sha, rows)
    {
      this.sha := sha;
      rows, nextID := [], 1;
    }

    /** Appends one event; the errors appear in the order in which the call can fail. */
    method AppendForRequest(requestID: bytes, kind: bytes, actorID: uint64, actorName: bytes,
                            payload: Payload, now: int64, store: StoreOutcome)
      returns (r: Result<Event, LedgerError>)
      requires Valid()
      modifies this
      ensures Valid()
      ensures r.Err? ==> rows == old(rows)
      ensures r == Err(RequestIDRequired) <==> requestID == []
      ensures r == Err(MarshalFailed) <==> requestID != [] && payload == Structured(None)
      ensures r == Err(LastEventFailed) <==> requestID != [] && payload != Structured(None) && !store.lastOk
      ensures r.Ok? <==> requestID != [] && payload != Structured(None) && store.lastOk && store.insertOk
      ensures r.Ok? ==>
        && rows == old(rows) + [r.value]
        && IsNext(sha, old(rows), r.value) && LinksBack(sha, old(rows), r.value)
        && (forall e | e in old(rows) :: e.id < r.value.id)
        && r.value.kind == kind && r.value.requestID == requestID && r.value.createdAt == now
        && r.value.actorID == actorID && r.value.actorName == actorName
        && (payload.Absent? ==> r.value.payload == [])
        && (payload.Text? ==> r.value.payload == payload.text)
        && (payload.Structured? ==> payload.json.Some? && r.value.payload == payload.json.value)
      ensures old(BuiltByAppends(sha, rows)) ==> BuiltByAppends(sha, rows)
      ensures forall other | other != requestID :: EventsOf(rows, other) == old(EventsOf(rows, other))
    {
      hide EventsOf;
      hide LinksBack;
      hide BuiltByAppends;
      if requestID == [] {
        return Err(RequestIDRequired);
      }
      var payloadStr: bytes := [];
      match payload {
        case Absent =>
        case Text(t) => payloadStr := t;
        case Structured(j) =>
          if j.None? {
            return Err(MarshalFailed);
          }
          payloadStr := j.value;
      }
      if !store.lastOk {
        return Err(LastEventFailed);
      }
      var chain := EventsOf(rows, requestID);
      var prevHash: bytes;
      if chain == [] {
        prevHash := sha(GENESIS_SEED + requestID);
      } else {
        prevHash := chain[|chain| - 1].hash;
      }
      var input := CanonicalDigestInput(prevHash, kind, requestID, actorID, payloadStr, now);
      var ev := Event(nextID, requestID, kind, actorID, actorName, payloadStr, prevHash, sha(input), now);
      if !store.insertOk {
        return Err(InsertFailed);
      }
      AppendedRow(sha, rows, ev);
      NextLinksBack(sha, rows, ev);
      rows := rows + [ev];
      nextID := nextID + 1;
      return Ok(ev);
    }

    /** Replays the chain of one request. The table may hold anything, not only appended rows. */
    method VerifyChain(requestID: bytes, listOk: bool) returns (r: Result<VerifyReport, LedgerError>)
      ensures r.Err? <==> !listOk
      ensures listOk ==>
        var es := EventsOf(rows, requestID);
        && r.value.requestID == requestID && r.value.total == |es|
        && (r.value.ok <==> ValidChain(sha, requestID, es))
        && (r.value.ok ==> r.value.firstBadEventID == 0 && r.value.reason == "")
        && (!r.value.ok ==> exists n: nat | n < |es| ::
              && IsFirstBad(sha, requestID, es, n)
              && r.value.firstBadEventID == es[n].id
              && r.value.reason == if es[n].prevHash != Tip(sha, requestID, es[..n])
                                   then "prev_hash mismatch" else "hash mismatch")
    {
      if !listOk {
        return Err(ListFailed);
      }
      var events := EventsOf(rows, requestID);
      var expected := sha(GENESIS_SEED + requestID);
      for i := 0 to |events|
        invariant forall k | 0 <= k < i :: LinkOk(sha, requestID, events, k)
        invariant expected == Tip(sha, requestID, events[..i])
      {
        var ev := events[i];
        var linked := BytesEq(ev.prevHash, expected);
        if !linked {
          FirstBadByLinks(sha, requestID, events, i);
          return Ok(VerifyReport(requestID, |events|, false, ev.id, "prev_hash mismatch"));
        }
        var input := CanonicalDigestInput(ev.prevHash, ev.kind, ev.requestID, ev.actorID, ev.payload, ev.createdAt);
        var intact := BytesEq(sha(input), ev.hash);
        if !intact {
          FirstBadByLinks(sha, requestID, events, i);
          return Ok(VerifyReport(requestID, |events|, false, ev.id, "hash mismatch"));
        }
        expected := ev.hash;
      }
      return Ok(VerifyReport(requestID, |events|, true, 0, ""));
    }
  }
}
