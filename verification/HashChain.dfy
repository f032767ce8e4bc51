/** The hashed form of an approval event and the per-request hash chain it forms.
    The hash function is a parameter throughout: nothing is assumed about it, and every claim
    that would need collision resistance names the two inputs that would have to collide. */
module HashChain {
  import opened Bytes
  import Seqs

  type Hasher = bytes -> bytes

  predicate IsAscii(s: string) {
    forall i | 0 <= i < |s| :: s[i] as int < 0x80
  }

  function Ascii(s: string): bytes
    requires IsAscii(s)
  {
    seq(|s|, i requires 0 <= i < |s| => s[i] as int)
  }

  const EVENT_TAG: bytes := Ascii("approval.event.v1")
  const GENESIS_SEED: bytes := Ascii("approval.ledger.v1.genesis")

  datatype Event = Event(
    id: nat, requestID: bytes, kind: bytes, actorID: uint64, actorName: bytes, payload: bytes,
    prevHash: bytes, hash: bytes, createdAt: int64)

  /** The part of an event that its hash covers; the row id and the actor name are outside it. */
  datatype HashedFields = HashedFields(
    prevHash: bytes, kind: bytes, requestID: bytes, actorID: uint64, payload: bytes, createdAt: int64)

  function Hashed(e: Event): HashedFields {
    HashedFields(e.prevHash, e.kind, e.requestID, e.actorID, e.payload, e.createdAt)
  }

  // ---- Length-prefixed encoding -------------------------------------------------------------

  /** One field behind its length, which is cut to 32 bits as the source does. */
  function LengthPrefixed(src: bytes): bytes {
    BigEndian(|src| % TWO_TO_32, 4) + src
  }

  /** Four bytes of length, the most significant first, and the field itself behind them. */
  lemma LengthPrefixedBytes(src: bytes)
    ensures var lp, n := LengthPrefixed(src), |src| % 0x1_0000_0000;
      lp == [n / 0x100_0000, n / 0x1_0000 % 0x100, n / 0x100 % 0x100, n % 0x100] + src
  {
    FourBigEndian(|src| % TWO_TO_32);
    hide BigEndian;
  }

  function EncodeFields(fields: seq<bytes>): bytes {
    if fields == [] then [] else LengthPrefixed(fields[0]) + EncodeFields(fields[1..])
  }

  lemma {:induction false} EncodeSnoc(fields: seq<bytes>, last: bytes)
    ensures EncodeFields(fields + [last]) == EncodeFields(fields) + LengthPrefixed(last)
  {
    hide LengthPrefixed;
    if fields == [] {
      Seqs.Empty([last]);
      Seqs.Empty(LengthPrefixed(last));
    } else {
      EncodeSnoc(fields[1..], last);
      Seqs.TailOfConcat(fields, [last]);
      Seqs.Assoc(LengthPrefixed(fields[0]), EncodeFields(fields[1..]), LengthPrefixed(last));
    }
  }

  ghost predicate AllShort(fields: seq<bytes>) {
    forall i | 0 <= i < |fields| :: |fields[i]| < TWO_TO_32
  }

  lemma LengthPrefixedSplits(a: bytes, restA: bytes, b: bytes, restB: bytes)
    requires |a| < TWO_TO_32 && |b| < TWO_TO_32
    requires LengthPrefixed(a) + restA == LengthPrefixed(b) + restB
    ensures a == b && restA == restB
  {
    hide BigEndian;
    hide Capacity;
    var x, y := LengthPrefixed(a) + restA, LengthPrefixed(b) + restB;
    assert x[..4] == BigEndian(|a|, 4) && y[..4] == BigEndian(|b|, 4);
    Capacities();
    BigEndianInjective(|a|, |b|, 4);
    assert x[4..4 + |a|] == a && y[4..4 + |b|] == b;
    assert x[4 + |a|..] == restA && y[4 + |b|..] == restB;
  }

  /** Two field lists of any lengths encode alike only if they are the same list. */
  lemma {:induction false} EncodeInjective(f: seq<bytes>, g: seq<bytes>)
    requires AllShort(f) && AllShort(g)
    requires EncodeFields(f) == EncodeFields(g)
    ensures f == g
  {
    if f != [] && g != [] {
      LengthPrefixedSplits(f[0], EncodeFields(f[1..]), g[0], EncodeFields(g[1..]));
      EncodeInjective(f[1..], g[1..]);
      assert f == [f[0]] + f[1..] && g == [g[0]] + g[1..];
    }
  }

  /** A signed nanosecond count reinterpreted as unsigned. */
  function AsUint64(n: int64): uint64 {
    if n < 0 then n + TWO_TO_64 else n
  }

  function DigestFields(h: HashedFields): seq<bytes> {
    [EVENT_TAG, h.prevHash, h.kind, h.requestID, BigEndian(h.actorID, 8), h.payload,
     BigEndian(AsUint64(h.createdAt), 8)]
  }

  function DigestInput(h: HashedFields): bytes {
    EncodeFields(DigestFields(h))
  }

  function HashInput(e: Event): bytes { DigestInput(Hashed(e)) }

  lemma EncodeNone()
    ensures EncodeFields([]) == []
  {
  }

  method AppendLP(dst: bytes, src: bytes) returns (buf: bytes)
    ensures buf == dst + LengthPrefixed(src)
  {
    var lp := BigEndian(|src| % TWO_TO_32, 4);
    buf := dst + lp;
    buf := buf + src;
  }

  lemma EncodePrefix(fields: seq<bytes>, k: nat)
    requires k < |fields|
    ensures EncodeFields(fields[..k + 1]) == EncodeFields(fields[..k]) + LengthPrefixed(fields[k])
  {
    EncodeSnoc(fields[..k], fields[k]);
    assert fields[..k] + [fields[k]] == fields[..k + 1];
  }

  /** The seven fields in their order, each behind its length; a negative time as its two's complement. */
  lemma DigestLayout(h: HashedFields)
    ensures DigestInput(h) == LengthPrefixed(EVENT_TAG) + LengthPrefixed(h.prevHash) + LengthPrefixed(h.kind)
                   + LengthPrefixed(h.requestID) + LengthPrefixed(BigEndian(h.actorID, 8)) + LengthPrefixed(h.payload)
                   + LengthPrefixed(BigEndian(h.createdAt % TWO_TO_64, 8))
  {
    hide EncodeFields;
    hide LengthPrefixed;
    hide BigEndian;
    var all := DigestFields(h);
    EncodeNone();
    EncodePrefix(all, 0);
    EncodePrefix(all, 1);
    EncodePrefix(all, 2);
    EncodePrefix(all, 3);
    EncodePrefix(all, 4);
    EncodePrefix(all, 5);
    EncodePrefix(all, 6);
    assert all[..0] == [] && all[..7] == all;
    Seqs.Empty(LengthPrefixed(EVENT_TAG));
    assert AsUint64(h.createdAt) == h.createdAt % TWO_TO_64;
  }

  /** What the hash of an event covers, byte by byte. */
  lemma HashInputLayout(e: Event)
    ensures HashInput(e) == LengthPrefixed(Ascii("approval.event.v1")) + LengthPrefixed(e.prevHash)
                   + LengthPrefixed(e.kind) + LengthPrefixed(e.requestID) + LengthPrefixed(BigEndian(e.actorID, 8))
                   + LengthPrefixed(e.payload)
                   + LengthPrefixed(BigEndian(e.createdAt % TWO_TO_64, 8))
  {
    DigestLayout(Hashed(e));
  }

  /** Builds the digest input field by field, as it is built both at append and at verify time. */
  method CanonicalDigestInput(prevHash: bytes, kind: bytes, requestID: bytes, actorID: uint64,
                              payload: bytes, createdAtUnixNano: int64) returns (buf: bytes)
    ensures buf == DigestInput(HashedFields(prevHash, kind, requestID, actorID, payload, createdAtUnixNano))
    ensures buf == LengthPrefixed(Ascii("approval.event.v1")) + LengthPrefixed(prevHash) + LengthPrefixed(kind)
                   + LengthPrefixed(requestID) + LengthPrefixed(BigEndian(actorID, 8)) + LengthPrefixed(payload)
                   + LengthPrefixed(BigEndian(createdAtUnixNano % TWO_TO_64, 8))
  {
    hide DigestInput;
    hide LengthPrefixed;
    hide BigEndian;
    buf := [];
    buf := AppendLP(buf, EVENT_TAG);
    buf := AppendLP(buf, prevHash);
    buf := AppendLP(buf, kind);
    buf := AppendLP(buf, requestID);
    var tmp := BigEndian(actorID, 8);
    buf := AppendLP(buf, tmp);
    buf := AppendLP(buf, payload);
    tmp := BigEndian(AsUint64(createdAtUnixNano), 8);
    buf := AppendLP(buf, tmp);
    Seqs.Empty(LengthPrefixed(EVENT_TAG));
    assert AsUint64(createdAtUnixNano) == createdAtUnixNano % TWO_TO_64;
    DigestLayout(HashedFields(prevHash, kind, requestID, actorID, payload, createdAtUnixNano));
  }

  /** Every variable-length field fits the 32-bit prefix. */
  ghost predicate Encodable(e: Event) {
    |e.prevHash| < TWO_TO_32 && |e.kind| < TWO_TO_32 && |e.requestID| < TWO_TO_32 && |e.payload| < TWO_TO_32
  }

  ghost predicate AllEncodable(es: seq<Event>) {
    forall i | 0 <= i < |es| :: Encodable(es[i])
  }

  lemma HashInputInjective(e: Event, f: Event)
    requires Encodable(e) && Encodable(f)
    requires HashInput(e) == HashInput(f)
    ensures Hashed(e) == Hashed(f)
  {
    var x, y := DigestFields(Hashed(e)), DigestFields(Hashed(f));
    EncodeInjective(x, y);
    assert x[1] == y[1] && x[2] == y[2] && x[3] == y[3] && x[4] == y[4] && x[5] == y[5] && x[6] == y[6];
    Capacities();
    BigEndianInjective(e.actorID, f.actorID, 8);
    BigEndianInjective(AsUint64(e.createdAt), AsUint64(f.createdAt), 8);
  }

  /** Without the length bound the encoding is ambiguous: a kind of exactly 2^32 bytes has the
      prefix of an empty one, so its content can pass for the fields that follow. */
  lemma OversizedFieldAliases(filler: bytes, e: Event) returns (long: Event, other: Event)
    requires |filler| == TWO_TO_32 - 20
    ensures long == e.(kind := long.kind) && |long.kind| == TWO_TO_32
    ensures other == e.(kind := [], requestID := [], payload := other.payload)
    ensures |other.payload| == TWO_TO_32 + |e.requestID| + |e.payload|
    ensures Hashed(long) != Hashed(other) && HashInput(long) == HashInput(other)
  {
    var actor, time := BigEndian(e.actorID, 8), BigEndian(AsUint64(e.createdAt), 8);
    var payload := filler + LengthPrefixed(e.requestID) + LengthPrefixed(actor) + LengthPrefixed(e.payload);
    var size := BigEndian(|payload| % TWO_TO_32, 4);
    var kind := LengthPrefixed([]) + LengthPrefixed(actor) + size + filler;
    long := e.(kind := kind);
    other := e.(kind := [], requestID := [], payload := payload);
    var tailLong := [kind, e.requestID, actor, e.payload, time];
    var tailOther := [[], [], actor, payload, time];
    TailsAlias(filler, e.requestID, actor, e.payload, time, size, kind, payload);
    TwoThenRest(EVENT_TAG, e.prevHash, tailLong);
    TwoThenRest(EVENT_TAG, e.prevHash, tailOther);
    assert DigestFields(Hashed(long)) == [EVENT_TAG, e.prevHash] + tailLong;
    assert DigestFields(Hashed(other)) == [EVENT_TAG, e.prevHash] + tailOther;
  }

  ghost predicate Within(e: Event, limit: nat) {
    |e.prevHash| <= limit && |e.kind| <= limit && |e.requestID| <= limit && |e.payload| <= limit
  }

  /** So the digest input determines the hashed fields of events with fields of at most so many bytes
      exactly when that many fit the 32-bit prefix. */
  lemma DigestInjectiveExactly(limit: nat)
    ensures (forall e, f | Within(e, limit) && Within(f, limit) && HashInput(e) == HashInput(f) ::
               Hashed(e) == Hashed(f))
       <==> limit < TWO_TO_32
  {
    hide HashInput;
    hide Hashed;
    if limit < TWO_TO_32 {
      forall e, f | Within(e, limit) && Within(f, limit) && HashInput(e) == HashInput(f)
        ensures Hashed(e) == Hashed(f) {
        HashInputInjective(e, f);
      }
    } else {
      var filler: bytes := seq(TWO_TO_32 - 20, _ => 0);
      var long, other := OversizedFieldAliases(filler, Event(0, [], [], 0, [], [], [], [], 0));
      assert Within(long, limit) && Within(other, limit);
    }
  }

  lemma TailsAlias(filler: bytes, req: bytes, actor: bytes, payload0: bytes, time: bytes, size: bytes, kind: bytes,
                   payload: bytes)
    requires payload == filler + LengthPrefixed(req) + LengthPrefixed(actor) + LengthPrefixed(payload0)
    requires size == BigEndian(|payload| % TWO_TO_32, 4)
    requires kind == LengthPrefixed([]) + LengthPrefixed(actor) + size + filler && |kind| == TWO_TO_32
    ensures EncodeFields([kind, req, actor, payload0, time]) == EncodeFields([[], [], actor, payload, time])
  {
    hide BigEndian;
    hide EncodeFields;
    var p := LengthPrefixed([]);
    FiveFields([kind, req, actor, payload0, time]);
    FiveFields([[], [], actor, payload, time]);
    assert LengthPrefixed(kind) == p + kind;
    assert LengthPrefixed(payload) == size + payload;
    Regroup(p, LengthPrefixed(actor), size, filler, LengthPrefixed(req), LengthPrefixed(actor),
            LengthPrefixed(payload0), LengthPrefixed(time));
  }

  lemma Regroup(p: bytes, a: bytes, s: bytes, f: bytes, x: bytes, y: bytes, z: bytes, t: bytes)
    ensures p + (p + a + s + f) + (x + (y + (z + t))) == p + (p + (a + (s + (f + x + y + z) + t)))
  {
    assert x + (y + (z + t)) == x + y + z + t;
    assert p + (p + a + s + f) == p + p + a + s + f;
    assert p + (p + (a + (s + (f + x + y + z) + t))) == p + p + a + s + (f + x + y + z) + t;
    assert p + p + a + s + f + (x + y + z + t) == p + p + a + s + (f + x + y + z) + t;
  }

  lemma TwoThenRest(a: bytes, b: bytes, rest: seq<bytes>)
    ensures EncodeFields([a, b] + rest) == LengthPrefixed(a) + (LengthPrefixed(b) + EncodeFields(rest))
  {
    assert ([a, b] + rest)[1..] == [b] + rest && ([b] + rest)[1..] == rest;
  }

  lemma FiveFields(f: seq<bytes>)
    requires |f| == 5
    ensures EncodeFields(f) == LengthPrefixed(f[0]) + (LengthPrefixed(f[1]) + (LengthPrefixed(f[2])
                               + (LengthPrefixed(f[3]) + LengthPrefixed(f[4]))))
  {
    TwoThenRest(f[0], f[1], f[2..]);
    TwoThenRest(f[2], f[3], f[4..]);
    assert f == [f[0], f[1]] + f[2..] && f[2..] == [f[2], f[3]] + f[4..];
    assert EncodeFields(f[4..]) == LengthPrefixed(f[4]) by { assert f[4..][1..] == []; }
  }

  // ---- Chains -------------------------------------------------------------------------------

  function GenesisInput(requestID: bytes): bytes { GENESIS_SEED + requestID }

  /** The hash that the next event of a chain has to name as its predecessor. */
  function Tip(sha: Hasher, requestID: bytes, es: seq<Event>): bytes {
    if es == [] then sha(GenesisInput(requestID)) else es[|es| - 1].hash
  }

  ghost predicate LinkOk(sha: Hasher, requestID: bytes, es: seq<Event>, i: nat)
    requires i < |es|
  {
    && es[i].prevHash == Tip(sha, requestID, es[..i])
    && es[i].hash == sha(HashInput(es[i]))
  }

  ghost predicate ValidChain(sha: Hasher, requestID: bytes, es: seq<Event>) {
    forall i | 0 <= i < |es| :: LinkOk(sha, requestID, es, i)
  }

  lemma LinkInPrefix(sha: Hasher, requestID: bytes, es: seq<Event>, n: nat, i: nat)
    requires i < n <= |es|
    ensures LinkOk(sha, requestID, es[..n], i) <==> LinkOk(sha, requestID, es, i)
  {
    assert es[..n][..i] == es[..i];
  }

  /** Dropping events off the end leaves a chain that still verifies: only someone who knows the
      tip can see that the tail is gone. */
  lemma PrefixValid(sha: Hasher, requestID: bytes, es: seq<Event>, n: nat)
    requires ValidChain(sha, requestID, es) && n <= |es|
    ensures ValidChain(sha, requestID, es[..n])
  {
    forall i | 0 <= i < n ensures LinkOk(sha, requestID, es[..n], i) {
      LinkInPrefix(sha, requestID, es, n, i);
    }
  }

  lemma ExtendValid(sha: Hasher, requestID: bytes, es: seq<Event>, e: Event)
    requires ValidChain(sha, requestID, es)
    requires e.prevHash == Tip(sha, requestID, es) && e.hash == sha(HashInput(e))
    ensures ValidChain(sha, requestID, es + [e])
  {
    var all := es + [e];
    assert all[..|es|] == es;
    forall i | 0 <= i < |es| ensures LinkOk(sha, requestID, all, i) {
      LinkInPrefix(sha, requestID, all, |es|, i);
    }
  }

  /** The n-th string hashed while a chain is checked: the genesis input, then one per event. */
  function InputAt(requestID: bytes, es: seq<Event>, n: nat): bytes
    requires n <= |es|
  {
    if n == 0 then GenesisInput(requestID) else HashInput(es[n - 1])
  }

  lemma TipIsHashed(sha: Hasher, requestID: bytes, es: seq<Event>)
    requires ValidChain(sha, requestID, es)
    ensures Tip(sha, requestID, es) == sha(InputAt(requestID, es, |es|))
  {
    if es != [] {
      assert LinkOk(sha, requestID, es, |es| - 1);
    }
  }

  /** A collision between one of the strings hashed for the first chain and one hashed for the second. */
  ghost predicate Collide(sha: Hasher, r1: bytes, es1: seq<Event>, r2: bytes, es2: seq<Event>) {
    exists i, j | 0 <= i <= |es1| && 0 <= j <= |es2| ::
      InputAt(r1, es1, i) != InputAt(r2, es2, j) && sha(InputAt(r1, es1, i)) == sha(InputAt(r2, es2, j))
  }

  lemma CollideExtends(sha: Hasher, r1: bytes, es1: seq<Event>, m: nat, r2: bytes, es2: seq<Event>, n: nat)
    requires m <= |es1| && n <= |es2|
    requires Collide(sha, r1, es1[..m], r2, es2[..n])
    ensures Collide(sha, r1, es1, r2, es2)
  {
    var i, j :| 0 <= i <= m && 0 <= j <= n
                && InputAt(r1, es1[..m], i) != InputAt(r2, es2[..n], j)
                && sha(InputAt(r1, es1[..m], i)) == sha(InputAt(r2, es2[..n], j));
    assert InputAt(r1, es1, i) == InputAt(r1, es1[..m], i) && InputAt(r2, es2, j) == InputAt(r2, es2[..n], j);
  }

  lemma GenesisInjective(r1: bytes, r2: bytes)
    ensures GenesisInput(r1) == GenesisInput(r2) <==> r1 == r2
  {
    assert r1 == GenesisInput(r1)[|GENESIS_SEED|..] && r2 == GenesisInput(r2)[|GENESIS_SEED|..];
  }

  lemma NoHistory(es1: seq<Event>, es2: seq<Event>)
    requires es1 == [] && es2 == []
    ensures SameHistory(es1, es2)
  {
  }

  lemma GenesisIsNoEvent(requestID: bytes, e: Event)
    ensures GenesisInput(requestID) != HashInput(e)
  {
    assert HashInput(e) == LengthPrefixed(EVENT_TAG) + EncodeFields(DigestFields(Hashed(e))[1..]);
    assert LengthPrefixed(EVENT_TAG)[0] == BigEndian(17, 4)[0] == 0 by {
      assert BigEndian(17, 4) == BigEndian(0, 3) + [17];
      assert BigEndian(0, 3) == BigEndian(0, 2) + [0] && BigEndian(0, 2) == BigEndian(0, 1) + [0];
      assert BigEndian(0, 1) == [] + [0];
    }
    assert HashInput(e)[0] == 0 && GenesisInput(requestID)[0] == 97;
  }

  ghost predicate SameHistory(es1: seq<Event>, es2: seq<Event>) {
    |es1| == |es2| &&
    forall i | 0 <= i < |es1| :: Hashed(es1[i]) == Hashed(es2[i]) && es1[i].hash == es2[i].hash
  }

  lemma HistoryExtends(es1: seq<Event>, es2: seq<Event>)
    requires es1 != [] && es2 != [] && SameHistory(es1[..|es1| - 1], es2[..|es2| - 1])
    requires Hashed(es1[|es1| - 1]) == Hashed(es2[|es2| - 1]) && es1[|es1| - 1].hash == es2[|es2| - 1].hash
    ensures SameHistory(es1, es2)
  {
    hide Hashed;
    var n := |es1| - 1;
    forall i | 0 <= i <= n ensures Hashed(es1[i]) == Hashed(es2[i]) && es1[i].hash == es2[i].hash {
      if i < n {
        assert es1[i] == es1[..n][i] && es2[i] == es2[..n][i];
      }
    }
  }

  /** Tamper evidence. Two chains that verify and end in the same hash belong to the same request
      and agree in length and in every hashed field of every event, unless two strings hashed
      along the way collide. */
  lemma {:induction false} SameTipSameHistory(sha: Hasher, r1: bytes, es1: seq<Event>, r2: bytes, es2: seq<Event>)
    requires AllEncodable(es1) && AllEncodable(es2)
    requires ValidChain(sha, r1, es1) && ValidChain(sha, r2, es2)
    requires Tip(sha, r1, es1) == Tip(sha, r2, es2)
    ensures (r1 == r2 && SameHistory(es1, es2)) || Collide(sha, r1, es1, r2, es2)
    decreases |es1|
  {
    hide HashInput;
    hide SameHistory;
    hide Encodable;
    var m, n := |es1|, |es2|;
    TipIsHashed(sha, r1, es1);
    TipIsHashed(sha, r2, es2);
    if InputAt(r1, es1, m) == InputAt(r2, es2, n) {
      if m == 0 && n == 0 {
        GenesisInjective(r1, r2);
        assert SameHistory(es1, es2) by {
          NoHistory(es1, es2);
        }
      } else if m == 0 {
        GenesisIsNoEvent(r1, es2[n - 1]);
      } else if n == 0 {
        GenesisIsNoEvent(r2, es1[m - 1]);
      } else {
        HashInputInjective(es1[m - 1], es2[n - 1]);
        assert LinkOk(sha, r1, es1, m - 1) && LinkOk(sha, r2, es2, n - 1);
        PrefixValid(sha, r1, es1, m - 1);
        PrefixValid(sha, r2, es2, n - 1);
        SameTipSameHistory(sha, r1, es1[..m - 1], r2, es2[..n - 1]);
        if Collide(sha, r1, es1[..m - 1], r2, es2[..n - 1]) {
          CollideExtends(sha, r1, es1, m - 1, r2, es2, n - 1);
        } else {
          HistoryExtends(es1, es2);
        }
      }
    }
  }

  /** A chain of at least one event cannot be moved to another request. */
  lemma ChainBoundToRequest(sha: Hasher, r1: bytes, r2: bytes, es: seq<Event>)
    requires es != [] && r1 != r2
    requires ValidChain(sha, r1, es) && ValidChain(sha, r2, es)
    ensures GenesisInput(r1) != GenesisInput(r2) && sha(GenesisInput(r1)) == sha(GenesisInput(r2))
  {
    assert LinkOk(sha, r1, es, 0) && LinkOk(sha, r2, es, 0);
    assert es[..0] == [];
    GenesisInjective(r1, r2);
  }

  /** A verified chain never forks: two events naming the same predecessor hash exhibit a collision. */
  lemma NoFork(sha: Hasher, r: bytes, es: seq<Event>, i: nat, j: nat)
    requires AllEncodable(es) && ValidChain(sha, r, es)
    requires i < j < |es| && es[i].prevHash == es[j].prevHash
    ensures Collide(sha, r, es, r, es)
  {
    assert LinkOk(sha, r, es, i) && LinkOk(sha, r, es, j);
    PrefixValid(sha, r, es, i);
    PrefixValid(sha, r, es, j);
    SameTipSameHistory(sha, r, es[..i], r, es[..j]);
    CollideExtends(sha, r, es, i, r, es, j);
  }

  // ---- Where a chain breaks -----------------------------------------------------------------

  /** The index of the earliest event whose prefix is not a valid chain, or the length. */
  ghost predicate IsFirstBad(sha: Hasher, requestID: bytes, es: seq<Event>, n: nat) {
    n <= |es| && ValidChain(sha, requestID, es[..n]) && (n < |es| ==> !ValidChain(sha, requestID, es[..n + 1]))
  }

  lemma FirstBadByLinks(sha: Hasher, requestID: bytes, es: seq<Event>, n: nat)
    requires n <= |es|
    requires forall i | 0 <= i < n :: LinkOk(sha, requestID, es, i)
    requires n < |es| ==> !LinkOk(sha, requestID, es, n)
    ensures IsFirstBad(sha, requestID, es, n)
  {
    forall i | 0 <= i < n ensures LinkOk(sha, requestID, es[..n], i) {
      LinkInPrefix(sha, requestID, es, n, i);
    }
    if n < |es| {
      LinkInPrefix(sha, requestID, es, n + 1, n);
    }
  }

  lemma ShorterPrefixValid(sha: Hasher, requestID: bytes, es: seq<Event>, n: nat, m: nat)
    requires m <= n <= |es| && ValidChain(sha, requestID, es[..n])
    ensures ValidChain(sha, requestID, es[..m])
  {
    PrefixValid(sha, requestID, es[..n], m);
    assert es[..n][..m] == es[..m];
  }

  lemma FirstBadUnique(sha: Hasher, requestID: bytes, es: seq<Event>, m: nat, n: nat)
    requires IsFirstBad(sha, requestID, es, m) && IsFirstBad(sha, requestID, es, n)
    ensures m == n
  {
    if m < n {
      ShorterPrefixValid(sha, requestID, es, n, m + 1);
    } else if n < m {
      ShorterPrefixValid(sha, requestID, es, m, n + 1);
    }
  }

  /** What an event must satisfy to stand behind these. */
  ghost predicate Linked(sha: Hasher, requestID: bytes, es: seq<Event>, e: Event) {
    e.prevHash == Tip(sha, requestID, es) && e.hash == sha(HashInput(e))
  }

  /** A list that follows a valid chain up to n stops being one at n exactly when its event there does
      not fit. */
  lemma BreaksAt(sha: Hasher, requestID: bytes, es: seq<Event>, list: seq<Event>, n: nat)
    requires ValidChain(sha, requestID, es) && n <= |es| && n <= |list| && list[..n] == es[..n]
    requires n < |list| ==> !Linked(sha, requestID, es[..n], list[n])
    ensures IsFirstBad(sha, requestID, list, n)
  {
    forall i | 0 <= i < n ensures LinkOk(sha, requestID, list, i) {
      assert LinkOk(sha, requestID, es, i);
      LinkInPrefix(sha, requestID, es, n, i);
      LinkInPrefix(sha, requestID, list, n, i);
    }
    FirstBadByLinks(sha, requestID, list, n);
  }

  /** Leaving an event out of a chain shows at the next one, if there is one. */
  lemma SkippedBreaks(sha: Hasher, requestID: bytes, es: seq<Event>, list: seq<Event>, j: nat)
    requires ValidChain(sha, requestID, es) && AllEncodable(es)
    requires j < |es| && j <= |list| && list[..j] == es[..j]
    requires j < |list| ==> j + 1 < |es| && list[j] == es[j + 1]
    ensures IsFirstBad(sha, requestID, list, j) || Collide(sha, requestID, es, requestID, es)
  {
    if j < |list| && Linked(sha, requestID, es[..j], list[j]) {
      assert LinkOk(sha, requestID, es, j) && LinkOk(sha, requestID, es, j + 1);
      assert es[..j + 1][j] == es[j];
      NoFork(sha, requestID, es, j, j + 1);
    } else {
      BreaksAt(sha, requestID, es, list, j);
    }
  }

  /** An event put in front of another shows where it stands when it does not fit there, and otherwise
      at the one behind it. */
  lemma IntrudedBreaks(sha: Hasher, requestID: bytes, es: seq<Event>, list: seq<Event>, i: nat)
    requires ValidChain(sha, requestID, es)
    requires AllEncodable(es) && AllEncodable(list)
    requires i <= |es| && i < |list| && list[..i] == es[..i]
    requires i + 1 < |list| ==> i < |es| && list[i + 1] == es[i]
    ensures IsFirstBad(sha, requestID, list, if Linked(sha, requestID, es[..i], list[i]) then i + 1 else i)
         || Collide(sha, requestID, list, requestID, list)
  {
    var before, e := es[..i], list[i];
    if Linked(sha, requestID, before, e) {
      var with := before + [e];
      PrefixValid(sha, requestID, es, i);
      ExtendValid(sha, requestID, before, e);
      assert list[..i + 1] == with;
      if i + 1 < |list| && Linked(sha, requestID, with, list[i + 1]) {
        assert LinkOk(sha, requestID, es, i);
        SameTipSameHistory(sha, requestID, before, requestID, with);
        CollideExtends(sha, requestID, list, i, requestID, list, i + 1);
      } else {
        assert with[..i + 1] == with;
        BreaksAt(sha, requestID, with, list, i + 1);
      }
    } else {
      BreaksAt(sha, requestID, es, list, i);
    }
  }

  /** An event whose hashed fields change where it stands shows there when it does not fit, and
      otherwise at the one behind it. */
  lemma ReplacedBreaks(sha: Hasher, requestID: bytes, es: seq<Event>, j: nat, e: Event)
    requires ValidChain(sha, requestID, es) && j < |es|
    requires Encodable(es[j]) && Encodable(e) && (Hashed(e) != Hashed(es[j]) || e.hash != es[j].hash)
    ensures IsFirstBad(sha, requestID, es[j := e], if Linked(sha, requestID, es[..j], e) then j + 1 else j)
         || Collide(sha, requestID, es, requestID, es[j := e])
  {
    var list := es[j := e];
    assert list[..j] == es[..j] && LinkOk(sha, requestID, es, j);
    if Linked(sha, requestID, es[..j], e) {
      var with := es[..j] + [e];
      PrefixValid(sha, requestID, es, j);
      ExtendValid(sha, requestID, es[..j], e);
      assert list[..j + 1] == with && with[..j + 1] == with;
      if j + 1 < |list| && Linked(sha, requestID, with, list[j + 1]) {
        assert LinkOk(sha, requestID, es, j + 1) && es[..j + 1][j] == es[j];
        assert e.hash == es[j].hash;
        if HashInput(e) == HashInput(es[j]) {
          HashInputInjective(e, es[j]);
        }
        assert InputAt(requestID, es, j + 1) != InputAt(requestID, list, j + 1);
      } else {
        BreaksAt(sha, requestID, with, list, j + 1);
      }
    } else {
      BreaksAt(sha, requestID, es, list, j);
    }
  }

  /** What is not hashed can change in place without any effect on the replay. */
  lemma UnhashedInPlace(sha: Hasher, requestID: bytes, es: seq<Event>, k: nat, e: Event)
    requires k < |es| && Hashed(e) == Hashed(es[k]) && e.hash == es[k].hash
    ensures ValidChain(sha, requestID, es[k := e]) <==> ValidChain(sha, requestID, es)
  {
    var edited := es[k := e];
    forall i | 0 <= i < |es| ensures LinkOk(sha, requestID, edited, i) <==> LinkOk(sha, requestID, es, i) {
      assert HashInput(edited[i]) == HashInput(es[i]) && edited[i].prevHash == es[i].prevHash;
      assert i > 0 ==> edited[..i][i - 1].hash == es[..i][i - 1].hash;
    }
  }
}
