/** What a replay reports after one row of the event table has been edited. The table is the list of
    its rows in the order of their ids, and the replay of a request sees that request's rows in this
    order; so an edit can take a row out of one chain, put it into another, or move it. */
module Tamper {
  import opened Bytes
  import opened HashChain
  import opened Ledger
  import Seqs

  predicate Ordered(rows: seq<Event>) {
    forall i, j | 0 <= i < j < |rows| :: rows[i].id < rows[j].id
  }

  /** The row with this content, put where its id belongs. */
  function Placed(rows: seq<Event>, e: Event): seq<Event> {
    if rows == [] || rows[|rows| - 1].id < e.id then rows + [e]
    else Placed(rows[..|rows| - 1], e) + [rows[|rows| - 1]]
  }

  /** How many rows come before that place. */
  function Place(rows: seq<Event>, e: Event): (p: nat)
    ensures p <= |rows|
  {
    if rows == [] || rows[|rows| - 1].id < e.id then |rows| else Place(rows[..|rows| - 1], e)
  }

  function Without(rows: seq<Event>, k: nat): seq<Event>
    requires k < |rows|
  {
    rows[..k] + rows[k + 1..]
  }

  /** The table after row k has become `e`. */
  function Edited(rows: seq<Event>, k: nat, e: Event): seq<Event>
    requires k < |rows|
  {
    Placed(Without(rows, k), e)
  }

  /** Ids are a primary key. */
  ghost predicate FreeID(rows: seq<Event>, k: nat, e: Event) {
    forall i | 0 <= i < |rows| && i != k :: rows[i].id != e.id
  }

  lemma {:induction false} PlacedAt(rows: seq<Event>, e: Event)
    ensures var p := Place(rows, e); Placed(rows, e) == rows[..p] + [e] + rows[p..]
  {
    if rows == [] || rows[|rows| - 1].id < e.id {
      assert rows[..|rows|] == rows && rows[|rows|..] == [];
    } else {
      var n := |rows| - 1;
      PlacedAt(rows[..n], e);
      var p := Place(rows, e);
      assert rows[..n][..p] == rows[..p] && rows[..n][p..] + [rows[n]] == rows[p..];
    }
  }

  lemma {:induction false} PlaceSplits(rows: seq<Event>, e: Event)
    requires Ordered(rows)
    ensures forall i | 0 <= i < Place(rows, e) :: rows[i].id < e.id
    ensures forall i | Place(rows, e) <= i < |rows| :: rows[i].id >= e.id
  {
    if rows != [] && rows[|rows| - 1].id >= e.id {
      PlaceSplits(rows[..|rows| - 1], e);
    }
  }

  lemma WithoutAt(rows: seq<Event>, k: nat)
    requires k < |rows|
    ensures forall i | 0 <= i < |rows| - 1 :: Without(rows, k)[i] == rows[if i < k then i else i + 1]
    ensures Ordered(rows) ==> Ordered(Without(rows, k))
  {
  }

  lemma WithoutSplits(rows: seq<Event>, k: nat, i: nat)
    requires i <= k < |rows|
    ensures Without(rows, k)[..i] == rows[..i] && Without(rows, k)[k..] == rows[k + 1..]
  {
  }

  lemma PutBack(rows: seq<Event>, k: nat, e: Event)
    requires k < |rows| && Place(Without(rows, k), e) == k
    ensures Edited(rows, k, e) == rows[k := e]
  {
    PlacedAt(Without(rows, k), e);
    WithoutSplits(rows, k, k);
    assert rows[..k] + [e] + rows[k + 1..] == rows[k := e];
  }

  lemma PlacedIndex(rows: seq<Event>, e: Event)
    ensures var p, list := Place(rows, e), Placed(rows, e);
      && |list| == |rows| + 1 && list[..p] == rows[..p] && list[p] == e
      && (forall i | 0 <= i < |list| :: list[i] == if i < p then rows[i] else if i == p then e else rows[i - 1])
  {
    PlacedAt(rows, e);
    hide Placed;
    hide Place;
    var p := Place(rows, e);
    var front := rows[..p] + [e];
    Seqs.TakeOfConcat(front, rows[p..], p);
    Seqs.TakeOfConcat(rows[..p], [e], p);
  }

  lemma PlacedOrdered(rows: seq<Event>, e: Event)
    requires Ordered(rows) && forall i | 0 <= i < |rows| :: rows[i].id != e.id
    ensures Ordered(Placed(rows, e))
  {
    PlacedIndex(rows, e);
    PlaceSplits(rows, e);
    hide Placed;
    hide Place;
  }

  lemma PlacedEncodable(rows: seq<Event>, e: Event)
    requires AllEncodable(rows) && Encodable(e)
    ensures AllEncodable(Placed(rows, e))
  {
    PlacedIndex(rows, e);
    hide Encodable;
    hide Placed;
    hide Place;
    var p, list := Place(rows, e), Placed(rows, e);
    forall i | 0 <= i < |list| ensures Encodable(list[i]) {
      assert i != p ==> Encodable(rows[if i < p then i else i - 1]);
    }
  }

  lemma {:induction false} PlacedContents(rows: seq<Event>, e: Event)
    ensures multiset(Placed(rows, e)) == multiset(rows) + multiset{e}
  {
    if rows != [] && rows[|rows| - 1].id >= e.id {
      PlacedContents(rows[..|rows| - 1], e);
      Seqs.InitLast(rows);
    }
  }

  /** The edited table holds exactly the other rows and the new one, again in the order of their ids. */
  lemma EditedIsTable(rows: seq<Event>, k: nat, e: Event)
    requires Ordered(rows) && k < |rows| && FreeID(rows, k, e)
    ensures Ordered(Edited(rows, k, e))
    ensures multiset(Edited(rows, k, e)) == multiset(rows) - multiset{rows[k]} + multiset{e}
  {
    hide Ordered;
    WithoutAt(rows, k);
    PlacedOrdered(Without(rows, k), e);
    PlacedContents(Without(rows, k), e);
    hide Placed;
    assert rows == rows[..k] + [rows[k]] + rows[k + 1..];
    assert multiset(rows) == multiset(rows[..k]) + multiset{rows[k]} + multiset(rows[k + 1..]);
  }

  // ---- What each request's replay is handed -------------------------------------------------

  lemma {:induction false} EventsOfConcat(a: seq<Event>, b: seq<Event>, r: bytes)
    ensures EventsOf(a + b, r) == EventsOf(a, r) + EventsOf(b, r)
    decreases |b|
  {
    if b == [] {
      Seqs.Empty(a);
    } else {
      var n := |b| - 1;
      EventsOfConcat(a, b[..n], r);
      EventsOfExtended(a + b[..n], b[n], r);
      Seqs.InitLast(b);
      Seqs.Assoc(a, b[..n], [b[n]]);
      EventsOfExtended(b[..n], b[n], r);
    }
  }

  /** The position of row k in the chain of its request. */
  function Position(rows: seq<Event>, k: nat, r: bytes): nat
    requires k < |rows|
  {
    |EventsOf(rows[..k], r)|
  }

  lemma ChainParts(rows: seq<Event>, k: nat, r: bytes)
    requires k < |rows|
    ensures var a, b := EventsOf(rows[..k], r), EventsOf(rows[k + 1..], r);
      && EventsOf(rows, r) == a + ((if rows[k].requestID == r then [rows[k]] else []) + b)
      && EventsOf(Without(rows, k), r) == a + b
  {
    var a, b := rows[..k], rows[k + 1..];
    Seqs.Around(rows, k);
    EventsOfConcat(a, [rows[k]] + b, r);
    EventsOfConcat([rows[k]], b, r);
    EventsOfConcat(a, b, r);
    EventsOfExtended([], rows[k], r);
    Seqs.Empty([rows[k]]);
    assert EventsOf([rows[k]], r) == if rows[k].requestID == r then [rows[k]] else [];
  }

  lemma TakenOut<T>(a: seq<T>, x: T, b: seq<T>)
    ensures var s := a + ([x] + b); |a| < |s| && s[|a|] == x && s[..|a|] == a && s[|a| + 1..] == b
  {
  }

  lemma ChainAround(rows: seq<Event>, k: nat, r: bytes)
    requires k < |rows|
    ensures var es, j := EventsOf(rows, r), Position(rows, k, r);
      if rows[k].requestID == r
      then j < |es| && es[j] == rows[k] && EventsOf(Without(rows, k), r) == Without(es, j)
      else EventsOf(Without(rows, k), r) == es
  {
    hide EventsOf;
    ChainParts(rows, k, r);
    var a, b := EventsOf(rows[..k], r), EventsOf(rows[k + 1..], r);
    if rows[k].requestID == r {
      TakenOut(a, rows[k], b);
    } else {
      Seqs.Empty(b);
    }
  }

  lemma {:induction false} EventsOfMembers(rows: seq<Event>, r: bytes, e: Event)
    requires e in EventsOf(rows, r)
    ensures e in rows && e.requestID == r
  {
    var n := |rows| - 1;
    if e in EventsOf(rows[..n], r) {
      EventsOfMembers(rows[..n], r, e);
    }
  }

  lemma {:induction false} EventsOfPlaced(rows: seq<Event>, e: Event, r: bytes)
    requires Ordered(rows)
    ensures EventsOf(Placed(rows, e), r)
         == if e.requestID == r then Placed(EventsOf(rows, r), e) else EventsOf(rows, r)
  {
    hide EventsOf;
    var es := EventsOf(rows, r);
    if rows == [] || rows[|rows| - 1].id < e.id {
      EventsOfExtended(rows, e, r);
      if es != [] {
        EventsOfMembers(rows, r, es[|es| - 1]);
      }
    } else {
      var n := |rows| - 1;
      EventsOfPlaced(rows[..n], e, r);
      EventsOfExtended(Placed(rows[..n], e), rows[n], r);
      EventsOfExtended(rows[..n], rows[n], r);
      Seqs.InitLast(rows);
      Seqs.InitOfSnoc(EventsOf(rows[..n], r), rows[n]);
      Seqs.Empty(EventsOf(rows[..n], r));
      Seqs.Empty(EventsOf(Placed(rows[..n], e), r));
    }
  }

  lemma EditedChain(rows: seq<Event>, k: nat, e: Event, r: bytes)
    requires Ordered(rows) && k < |rows|
    ensures EventsOf(Edited(rows, k, e), r)
         == if e.requestID == r then Placed(EventsOf(Without(rows, k), r), e) else EventsOf(Without(rows, k), r)
  {
    WithoutAt(rows, k);
    EventsOfPlaced(Without(rows, k), e, r);
  }

  // ---- Where the edit shows -----------------------------------------------------------------

  /** Whether the edit changes what a replay of the row looks at, or where it stands. */
  predicate Matters(rows: seq<Event>, k: nat, e: Event, r: bytes)
    requires k < |rows|
  {
    && (r == e.requestID || r == rows[k].requestID)
    && !(Hashed(e) == Hashed(rows[k]) && e.hash == rows[k].hash
         && Place(EventsOf(Without(rows, k), r), e) == Position(rows, k, r))
  }

  /** The index at which the replay of request r stops after the edit, or the length of its chain:
      - in the chain the row leaves, and when it moves back behind others, where it stood: there the
        next event follows a predecessor that is gone;
      - in the chain it joins, stays in or moves forward in, at the row itself when it does not fit where
        it stands, and otherwise at the event behind it. */
  ghost function Reported(sha: Hasher, rows: seq<Event>, k: nat, e: Event, r: bytes): nat
    requires k < |rows|
  {
    var rest, j := EventsOf(Without(rows, k), r), Position(rows, k, r);
    var i := Place(rest, e);
    if e.requestID != r || (rows[k].requestID == r && j < i) then j
    else if Linked(sha, r, rest[..i], e) then i + 1
    else i
  }

  /** Two of the strings hashed for a chain, before or after the edit, collide. */
  ghost predicate Clash(sha: Hasher, r: bytes, before: seq<Event>, after: seq<Event>) {
    || Collide(sha, r, before, r, before) || Collide(sha, r, after, r, after) || Collide(sha, r, before, r, after)
  }

  lemma LeftChain(sha: Hasher, r: bytes, es: seq<Event>, j: nat)
    requires ValidChain(sha, r, es) && AllEncodable(es) && j < |es|
    ensures IsFirstBad(sha, r, Without(es, j), j) || Clash(sha, r, es, Without(es, j))
  {
    var list := Without(es, j);
    assert list[..j] == es[..j] && (j < |list| ==> list[j] == es[j + 1]);
    SkippedBreaks(sha, r, es, list, j);
  }

  lemma PlacedFront(es: seq<Event>, e: Event)
    ensures var i, list := Place(es, e), Placed(es, e);
      && i < |list| && i <= |es| && list[..i] == es[..i] && list[i] == e
      && (i + 1 < |list| ==> i < |es| && list[i + 1] == es[i])
  {
    PlacedIndex(es, e);
    hide Place;
    hide Placed;
  }

  lemma JoinedChain(sha: Hasher, r: bytes, es: seq<Event>, e: Event)
    requires ValidChain(sha, r, es) && AllEncodable(es) && Encodable(e)
    ensures var i := Place(es, e);
      IsFirstBad(sha, r, Placed(es, e), if Linked(sha, r, es[..i], e) then i + 1 else i)
      || Clash(sha, r, es, Placed(es, e))
  {
    hide Place;
    hide Placed;
    hide ValidChain;
    hide Linked;
    hide AllEncodable;
    hide Encodable;
    hide Collide;
    hide IsFirstBad;
    PlacedFront(es, e);
    PlacedEncodable(es, e);
    IntrudedBreaks(sha, r, es, Placed(es, e), Place(es, e));
  }

  lemma MovedBack(sha: Hasher, r: bytes, es: seq<Event>, j: nat, e: Event)
    requires ValidChain(sha, r, es) && AllEncodable(es) && j < |es|
    requires j < Place(Without(es, j), e)
    ensures IsFirstBad(sha, r, Placed(Without(es, j), e), j) || Collide(sha, r, es, r, es)
  {
    var rest := Without(es, j);
    var i, list := Place(rest, e), Placed(rest, e);
    PlacedIndex(rest, e);
    WithoutAt(es, j);
    WithoutSplits(es, j, j);
    hide Place;
    hide Placed;
    hide Without;
    hide ValidChain;
    hide Encodable;
    Seqs.SliceOfTake(list, i, 0, j);
    Seqs.SliceOfTake(rest, i, 0, j);
    SkippedBreaks(sha, r, es, list, j);
  }

  lemma PlacedEarly(es: seq<Event>, j: nat, e: Event)
    requires j < |es| && Place(Without(es, j), e) < j
    ensures var rest := Without(es, j); var i := Place(rest, e); var list := Placed(rest, e);
      |list| == |es| && rest[..i] == es[..i] && list[..i] == es[..i] && list[i] == e && list[i + 1] == es[i]
  {
    var rest := Without(es, j);
    WithoutAt(es, j);
    WithoutSplits(es, j, Place(rest, e));
    PlacedIndex(rest, e);
    hide Place;
    hide Placed;
    hide Without;
  }

  lemma MovedForward(sha: Hasher, r: bytes, es: seq<Event>, j: nat, e: Event)
    requires ValidChain(sha, r, es) && AllEncodable(es) && Encodable(e) && j < |es|
    requires Place(Without(es, j), e) < j
    ensures var rest := Without(es, j); var i := Place(rest, e); var list := Placed(rest, e);
      IsFirstBad(sha, r, list, if Linked(sha, r, rest[..i], e) then i + 1 else i) || Collide(sha, r, list, r, list)
  {
    var rest := Without(es, j);
    var i, list := Place(rest, e), Placed(rest, e);
    assert AllEncodable(list) by {
      WithoutAt(es, j);
      PlacedEncodable(rest, e);
    }
    hide Place;
    hide Placed;
    hide Without;
    hide ValidChain;
    hide Linked;
    hide AllEncodable;
    hide Encodable;
    hide IsFirstBad;
    hide Collide;
    PlacedEarly(es, j, e);
    IntrudedBreaks(sha, r, es, list, i);
  }

  /** A row that changes within its chain: in place, forward, or backward. */
  lemma KeptChain(sha: Hasher, r: bytes, es: seq<Event>, j: nat, e: Event)
    requires ValidChain(sha, r, es) && AllEncodable(es) && Encodable(e) && j < |es|
    requires Place(Without(es, j), e) != j || Hashed(e) != Hashed(es[j]) || e.hash != es[j].hash
    ensures var rest := Without(es, j); var i := Place(rest, e); var list := Placed(rest, e);
      IsFirstBad(sha, r, list, if j < i then j else if Linked(sha, r, rest[..i], e) then i + 1 else i)
      || Clash(sha, r, es, list)
  {
    hide ValidChain;
    hide IsFirstBad;
    hide Collide;
    hide Linked;
    var i := Place(Without(es, j), e);
    if j < i {
      MovedBack(sha, r, es, j, e);
    } else if i < j {
      MovedForward(sha, r, es, j, e);
    } else {
      PutBack(es, j, e);
      WithoutSplits(es, j, j);
      ReplacedBreaks(sha, r, es, j, e);
    }
  }

  lemma ChainValid(sha: Hasher, rows: seq<Event>, r: bytes)
    requires AllChainsValid(sha, rows)
    ensures ValidChain(sha, r, EventsOf(rows, r))
  {
  }

  lemma ChainEncodable(rows: seq<Event>, r: bytes)
    requires AllEncodable(rows)
    ensures AllEncodable(EventsOf(rows, r))
  {
    forall i | 0 <= i < |EventsOf(rows, r)| ensures Encodable(EventsOf(rows, r)[i]) {
      EventsOfMembers(rows, r, EventsOf(rows, r)[i]);
    }
  }

  /** After any edit of any one row of a table whose chains verify, the replay of every request it
      matters to stops exactly at the reported index, unless two of the strings hashed for that
      request collide. */
  lemma TamperLocated(sha: Hasher, rows: seq<Event>, k: nat, e: Event, r: bytes)
    requires Ordered(rows) && AllChainsValid(sha, rows) && k < |rows|
    requires AllEncodable(rows) && Encodable(e) && Matters(rows, k, e, r)
    ensures var after := EventsOf(Edited(rows, k, e), r);
      IsFirstBad(sha, r, after, Reported(sha, rows, k, e, r)) || Clash(sha, r, EventsOf(rows, r), after)
  {
    hide EventsOf;
    hide Edited;
    hide Position;
    hide Collide;
    hide IsFirstBad;
    hide ValidChain;
    hide Place;
    hide Placed;
    hide Linked;
    hide AllEncodable;
    hide Encodable;
    hide AllChainsValid;
    hide Clash;
    hide Ordered;
    hide Without;
    var es, j := EventsOf(rows, r), Position(rows, k, r);
    ChainValid(sha, rows, r);
    ChainEncodable(rows, r);
    ChainAround(rows, k, r);
    EditedChain(rows, k, e, r);
    if e.requestID != r {
      LeftChain(sha, r, es, j);
    } else if rows[k].requestID != r {
      JoinedChain(sha, r, es, e);
    } else {
      KeptChain(sha, r, es, j, e);
    }
  }

  /** Every other request's chain still verifies; and so does the row's own when its hashed fields, its
      hash and its place in the chain stay: the actor's name is unprotected, and so is the id as
      long as it overtakes no row of the request. */
  lemma UnhashedEditUnseen(sha: Hasher, rows: seq<Event>, k: nat, e: Event, r: bytes)
    requires Ordered(rows) && AllChainsValid(sha, rows) && k < |rows| && !Matters(rows, k, e, r)
    ensures ValidChain(sha, r, EventsOf(Edited(rows, k, e), r))
  {
    var es, j := EventsOf(rows, r), Position(rows, k, r);
    assert ValidChain(sha, r, es);
    ChainAround(rows, k, r);
    EditedChain(rows, k, e, r);
    hide EventsOf;
    hide ValidChain;
    hide Ordered;
    if r == e.requestID || r == rows[k].requestID {
      assert e.requestID == rows[k].requestID by {
        assert Hashed(e).requestID == Hashed(rows[k]).requestID;
      }
      PutBack(es, j, e);
      UnhashedInPlace(sha, r, es, j, e);
    }
  }

  lemma UnlinkedElsewhere(sha: Hasher, r: bytes, es: seq<Event>, i: nat, j: nat)
    requires ValidChain(sha, r, es) && AllEncodable(es) && i < j < |es|
    requires Linked(sha, r, es[..i], es[j])
    ensures Collide(sha, r, es, r, es)
  {
    assert LinkOk(sha, r, es, i) && LinkOk(sha, r, es, j);
    NoFork(sha, r, es, i, j);
  }

  /** A new id that overtakes rows of the same request is seen although nothing hashed changes: at the
      earlier of the old place and the new one. */
  lemma OvertakingSeen(sha: Hasher, rows: seq<Event>, k: nat, e: Event)
    requires Ordered(rows) && AllChainsValid(sha, rows) && k < |rows|
    requires AllEncodable(rows)
    requires Hashed(e) == Hashed(rows[k]) && e.hash == rows[k].hash
    requires Place(EventsOf(Without(rows, k), e.requestID), e) != Position(rows, k, e.requestID)
    ensures var r := e.requestID;
      var i, j, after := Place(EventsOf(Without(rows, k), r), e), Position(rows, k, r), EventsOf(Edited(rows, k, e), r);
      IsFirstBad(sha, r, after, if i < j then i else j) || Clash(sha, r, EventsOf(rows, r), after)
  {
    var r := e.requestID;
    assert r == rows[k].requestID by {
      assert Hashed(e).requestID == Hashed(rows[k]).requestID;
    }
    assert Encodable(e) by {
      assert Hashed(e).prevHash == Hashed(rows[k]).prevHash && Hashed(e).kind == Hashed(rows[k]).kind
        && Hashed(e).payload == Hashed(rows[k]).payload;
    }
    var es, j := EventsOf(rows, r), Position(rows, k, r);
    assert ValidChain(sha, r, es);
    ChainEncodable(rows, r);
    ChainAround(rows, k, r);
    TamperLocated(sha, rows, k, e, r);
    var i := Place(Without(es, j), e);
    if i < j && Linked(sha, r, Without(es, j)[..i], e) {
      assert Without(es, j)[..i] == es[..i];
      UnlinkedElsewhere(sha, r, es, i, j);
    }
  }

  /** The old and the new content of the row collide. */
  predicate SameDigest(sha: Hasher, e: Event, f: Event) {
    HashInput(e) != HashInput(f) && sha(HashInput(e)) == sha(HashInput(f))
  }

  /** An edit that leaves the stored hash and the id alone is reported at the edited event, in whatever
      chain it then stands: its own, or the one its new request id puts it into. A chain it left is
      reported at the event that followed, and not at all if there was none. */
  lemma EditWithoutRehash(sha: Hasher, rows: seq<Event>, k: nat, e: Event)
    requires Ordered(rows) && AllChainsValid(sha, rows) && k < |rows|
    requires AllEncodable(rows) && Encodable(e)
    requires Hashed(e) != Hashed(rows[k]) && e.hash == rows[k].hash && e.id == rows[k].id
    ensures Edited(rows, k, e) == rows[k := e]
    ensures var r := e.requestID; var after := EventsOf(rows[k := e], r);
      || IsFirstBad(sha, r, after, Place(EventsOf(Without(rows, k), r), e))
      || Clash(sha, r, EventsOf(rows, r), after) || SameDigest(sha, e, rows[k])
    ensures e.requestID != rows[k].requestID ==>
      var r := rows[k].requestID; var after := EventsOf(rows[k := e], r);
      IsFirstBad(sha, r, after, Position(rows, k, r)) || Clash(sha, r, EventsOf(rows, r), after)
  {
    RowHashed(sha, rows, k);
    SamePlace(rows, k, e);
    if HashInput(e) == HashInput(rows[k]) {
      HashInputInjective(e, rows[k]);
    }
    hide EventsOf;
    hide IsFirstBad;
    hide Clash;
    var r := e.requestID;
    TamperLocated(sha, rows, k, e, r);
    if r == rows[k].requestID {
      SamePlaceInChain(rows, k, e);
    } else {
      TamperLocated(sha, rows, k, e, rows[k].requestID);
    }
  }

  lemma RowHashed(sha: Hasher, rows: seq<Event>, k: nat)
    requires AllChainsValid(sha, rows) && k < |rows|
    ensures rows[k].hash == sha(HashInput(rows[k]))
  {
    var r := rows[k].requestID;
    ChainAround(rows, k, r);
    assert ValidChain(sha, r, EventsOf(rows, r));
    assert LinkOk(sha, r, EventsOf(rows, r), Position(rows, k, r));
  }

  lemma PlaceBySplit(rows: seq<Event>, e: Event, p: nat)
    requires p <= |rows| && Ordered(rows)
    requires (forall i | 0 <= i < p :: rows[i].id < e.id) && (forall i | p <= i < |rows| :: rows[i].id >= e.id)
    ensures Place(rows, e) == p
  {
    PlaceSplits(rows, e);
    var q := Place(rows, e);
    var atP, atQ := if p < |rows| then rows[p].id else 0, if q < |rows| then rows[q].id else 0;
    assert p < |rows| ==> atP >= e.id;
    assert q < |rows| ==> atQ >= e.id;
  }

  lemma SamePlace(rows: seq<Event>, k: nat, e: Event)
    requires Ordered(rows) && k < |rows| && e.id == rows[k].id
    ensures Edited(rows, k, e) == rows[k := e]
  {
    WithoutAt(rows, k);
    PlaceBySplit(Without(rows, k), e, k);
    hide Ordered;
    PutBack(rows, k, e);
  }

  lemma SamePlaceInChain(rows: seq<Event>, k: nat, e: Event)
    requires Ordered(rows) && k < |rows| && e.id == rows[k].id && e.requestID == rows[k].requestID
    ensures Place(EventsOf(Without(rows, k), e.requestID), e) == Position(rows, k, e.requestID)
  {
    var r := e.requestID;
    ChainAround(rows, k, r);
    var es, j := EventsOf(rows, r), Position(rows, k, r);
    ChainOrdered(rows, r);
    WithoutAt(es, j);
    PlaceBySplit(Without(es, j), e, j);
  }

  lemma {:induction false} ChainOrdered(rows: seq<Event>, r: bytes)
    requires Ordered(rows)
    ensures Ordered(EventsOf(rows, r))
  {
    if rows != [] {
      var n := |rows| - 1;
      ChainOrdered(rows[..n], r);
      var es := EventsOf(rows[..n], r);
      forall i | 0 <= i < |es| ensures es[i].id < rows[n].id {
        EventsOfMembers(rows[..n], r, es[i]);
      }
    }
  }
}
