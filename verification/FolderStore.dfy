/** The folder forest as it is stored: every folder belongs to an owner and carries the path of its
    ancestors, which creating, moving and deleting folders keep up to date within an owner's tree. */
module FolderStore {
  import opened Results
  import opened Strings
  import opened Decimals
  import Directory
  import Seqs

  /** `trail` is the list of ids that the stored path spells out. */
  datatype Owner = Owner(kind: string, id: nat)
  datatype Node = Node(owner: Owner, parent: Option<nat>, trail: seq<nat>)
  type Store = map<nat, Node>

  datatype MoveError = NotFound | IntoItself | NoSuchParent | AcrossOwners | IntoOwnSubtree

  // ---- The stored text ----------------------------------------------------------------------

  function PathText(trail: seq<nat>): string {
    if trail == [] then ""
    else if |trail| == 1 then Decimal(trail[0])
    else Decimal(trail[0]) + "/" + PathText(trail[1..])
  }

  lemma {:induction false} TextSnoc(trail: seq<nat>, id: nat)
    requires trail != []
    ensures PathText(trail + [id]) == PathText(trail) + "/" + Decimal(id)
  {
    if |trail| == 1 {
      assert (trail + [id])[1..] == [id];
    } else {
      TextSnoc(trail[1..], id);
      assert (trail + [id])[1..] == trail[1..] + [id];
    }
  }

  lemma NoSlash(n: nat)
    ensures '/' !in Decimal(n)
  {
    hide Decimal;
  }

  lemma {:induction false} SplitText(trail: seq<nat>)
    requires trail != []
    ensures Split(PathText(trail), '/') == seq(|trail|, i requires 0 <= i < |trail| => Decimal(trail[i]))
  {
    hide Decimal;
    NoSlash(trail[0]);
    if |trail| == 1 {
      SplitPlain(Decimal(trail[0]), '/');
    } else {
      var rest := trail[1..];
      SplitText(rest);
      assert PathText(trail) == Decimal(trail[0]) + ("/" + PathText(rest));
      SplitFirst(Decimal(trail[0]), '/', PathText(rest));
    }
  }

  lemma {:induction false} SplitPlain(s: string, sep: char)
    requires sep !in s
    ensures Split(s, sep) == [s]
  {
    if s != "" {
      SplitPlain(s[1..], sep);
      Seqs.HeadTail(s);
    }
  }

  lemma {:induction false} SplitFirst(s: string, sep: char, more: string)
    requires sep !in s
    ensures Split(s + ([sep] + more), sep) == [s] + Split(more, sep)
  {
    var t := s + ([sep] + more);
    if s == "" {
      assert t[1..] == more;
    } else {
      Seqs.TailOfConcat(s, [sep] + more);
      SplitFirst(s[1..], sep, more);
      Seqs.HeadTail(s);
      var rest := Split(t[1..], sep);
      assert rest[0] == s[1..] && rest[1..] == Split(more, sep);
    }
  }

  /** The directory reads the ids of the trail back from the text. */
  lemma TextIDs(parse: string -> Option<nat>, trail: seq<nat>)
    requires trail != [] && forall n: nat :: parse(Decimal(n)) == Some(n)
    ensures forall id :: id in Directory.PathIDs(parse, PathText(trail)) <==> id in trail
  {
    SplitText(trail);
    var segs := Split(PathText(trail), '/');
    forall id ensures id in Directory.PathIDs(parse, PathText(trail)) <==> id in trail {
      if id in trail {
        var i :| 0 <= i < |trail| && trail[i] == id;
        assert segs[i] == Decimal(id) && segs[i] in segs && segs[i] != "";
      }
      if id in Directory.PathIDs(parse, PathText(trail)) {
        var seg :| seg in segs && seg != "" && parse(seg).Some? && parse(seg).value == id;
        var i :| 0 <= i < |segs| && segs[i] == seg;
        assert seg == Decimal(trail[i]);
      }
    }
  }

  /** Moving is decided and done on the text: one path lies below another exactly when its trail goes on
      from the other's, and replacing the front of the text replaces the front of the trail. */
  lemma TextBelow(t: seq<nat>, u: seq<nat>)
    requires t != [] && u != []
    ensures PathText(t) == PathText(u) <==> t == u
    ensures HasPrefix(PathText(u), PathText(t) + "/") <==> t < u
    ensures t <= u ==> PathText(t) <= PathText(u)
    ensures t <= u ==> forall n: seq<nat> | n != [] ::
      PathText(n) + PathText(u)[|PathText(t)|..] == PathText(n + u[|t|..])
  {
    if t <= u {
      assert u == t + u[|t|..];
      BelowText(t, u[|t|..]);
    }
    if HasPrefix(PathText(u), PathText(t) + "/") {
      PrefixMeansBelow(t, u);
    }
    if PathText(t) == PathText(u) {
      TextInjective(t, u);
    }
  }

  lemma TextInjective(t: seq<nat>, u: seq<nat>)
    requires t != [] && u != [] && PathText(t) == PathText(u)
    ensures t == u
  {
    SplitText(t);
    SplitText(u);
    var segs := Split(PathText(t), '/');
    hide PathText;
    hide Split;
    hide Decimal;
    assert |t| == |segs| == |u|;
    forall i | 0 <= i < |t| ensures t[i] == u[i] {
      assert segs[i] == Decimal(t[i]) && segs[i] == Decimal(u[i]);
      DecimalInjective(t[i], u[i]);
    }
  }

  lemma BelowText(t: seq<nat>, more: seq<nat>)
    requires t != []
    ensures PathText(t + more) == PathText(t) + Rest(more)
    ensures forall n: seq<nat> | n != [] :: PathText(n + more) == PathText(n) + Rest(more)
    ensures more != [] ==> HasPrefix(PathText(t + more), PathText(t) + "/")
  {
    hide PathText;
    forall n: seq<nat> | n != [] ensures PathText(n + more) == PathText(n) + Rest(more) {
      AppendRest(n, more);
    }
    if more != [] {
      var text := PathText(t) + "/";
      Seqs.Assoc(PathText(t), "/", PathText(more));
      Seqs.TakeOfConcat(text, PathText(more), |text|);
    }
  }

  /** The text of what follows a non-empty trail. */
  function Rest(more: seq<nat>): string {
    if more == [] then "" else "/" + PathText(more)
  }

  lemma {:induction false} AppendRest(n: seq<nat>, more: seq<nat>)
    requires n != []
    ensures PathText(n + more) == PathText(n) + Rest(more)
  {
    if more == [] {
      Seqs.Empty(n);
      Seqs.Empty(PathText(n));
    } else if |n| == 1 {
      Seqs.TailOfConcat(n, more);
      assert n[1..] + more == more;
      Seqs.Assoc(Decimal(n[0]), "/", PathText(more));
    } else {
      AppendRest(n[1..], more);
      Seqs.TailOfConcat(n, more);
      Seqs.Assoc(Decimal(n[0]) + "/", PathText(n[1..]), Rest(more));
    }
  }

  lemma TextCons(u: seq<nat>)
    requires u != []
    ensures PathText(u) == if |u| == 1 then Decimal(u[0]) else Decimal(u[0]) + "/" + PathText(u[1..])
  {
  }

  lemma BeforeSlash(text: string, front: string) returns (tail: string)
    requires HasPrefix(text, front + "/")
    ensures text == front + "/" + tail && '/' in text
  {
    tail := text[|front| + 1..];
    assert text == text[..|front + "/"|] + tail;
    assert text[|front|] == '/';
  }

  lemma {:induction false} PrefixMeansBelow(t: seq<nat>, u: seq<nat>)
    requires t != [] && u != [] && HasPrefix(PathText(u), PathText(t) + "/")
    ensures t < u
  {
    hide Decimal;
    hide PathText;
    var tail := BeforeSlash(PathText(u), PathText(t));
    TextCons(t);
    TextCons(u);
    NoSlash(t[0]);
    NoSlash(u[0]);
    assert |u| > 1;
    var first, uMore := Decimal(t[0]), PathText(u[1..]);
    if |t| == 1 {
      CutFirst(first, tail, Decimal(u[0]), uMore, '/');
      DecimalInjective(t[0], u[0]);
    } else {
      var front := PathText(t[1..]) + "/";
      Seqs.Assoc(first + "/", PathText(t[1..]), "/");
      Seqs.Assoc(first + "/", front, tail);
      CutFirst(first, front + tail, Decimal(u[0]), uMore, '/');
      DecimalInjective(t[0], u[0]);
      Seqs.TakeOfConcat(front, tail, |front|);
      PrefixMeansBelow(t[1..], u[1..]);
      Seqs.HeadTail(t);
      Seqs.HeadTail(u);
    }
  }

  // ---- Creating, moving and deleting ---------------------------------------------------------

  /** Every folder's trail is its parent's with its own id behind, or that id alone. */
  predicate Linked(store: Store) {
    forall id | id in store :: store[id].trail == TrailFor(store, id, store[id].parent)
  }

  function TrailFor(store: Store, id: nat, parent: Option<nat>): seq<nat> {
    if parent.Some? && parent.value != id && parent.value in store then store[parent.value].trail + [id] else [id]
  }

  /** The parent is looked up by its id alone, whoever owns it. */
  function Create(store: Store, id: nat, owner: Owner, parent: Option<nat>): Store {
    store[id := Node(owner, parent, TrailFor(store, id, parent))]
  }

  /** The new id is nobody's parent yet. Parents are not checked, so it might be. */
  predicate Unreferenced(store: Store, id: nat) {
    forall f | f in store :: store[f].parent != Some(id)
  }

  /** Creating a folder keeps the paths right exactly when no folder already names it as its parent. */
  lemma CreateKeepsLinked(store: Store, id: nat, owner: Owner, parent: Option<nat>)
    requires Linked(store) && id !in store
    ensures Linked(Create(store, id, owner, parent)) <==> Unreferenced(store, id)
  {
    var after := Create(store, id, owner, parent);
    if f :| f in store && store[f].parent == Some(id) {
      assert store[f].trail == [f] && after[f] == store[f];
      assert TrailFor(after, f, Some(id)) == after[id].trail + [f];
      assert |after[id].trail| >= 1;
    } else {
      forall f | f in after ensures after[f].trail == TrailFor(after, f, after[f].parent) {
      }
    }
  }

  predicate Below(store: Store, id: nat, d: nat)
    requires id in store && d in store
  {
    store[id].trail <= store[d].trail
  }

  /** What a move rewrites and a deletion removes: the owner's own folders at and below this one. */
  predicate InSubtree(store: Store, id: nat, d: nat)
    requires id in store && d in store
  {
    store[d].owner == store[id].owner && Below(store, id, d)
  }

  /** A folder's path and those of its subtree change their front. */
  function Rewritten(store: Store, id: nat, parent: Option<nat>, trail: seq<nat>): Store
    requires id in store
  {
    map d | d in store ::
      if d == id then store[d].(parent := parent, trail := trail)
      else if InSubtree(store, id, d) then store[d].(trail := trail + store[d].trail[|store[id].trail|..])
      else store[d]
  }

  function Move(store: Store, id: nat, newParent: Option<nat>): Result<Store, MoveError> {
    if id !in store then Err(NotFound)
    else if newParent == Some(id) then Err(IntoItself)
    else if newParent.Some? && newParent.value !in store then Err(NoSuchParent)
    else if newParent.Some? && store[newParent.value].owner != store[id].owner then Err(AcrossOwners)
    else if newParent.Some? && Below(store, id, newParent.value) then Err(IntoOwnSubtree)
    else
      var trail := TrailFor(store, id, newParent);
      if trail == store[id].trail && newParent == store[id].parent then Ok(store)
      else Ok(Rewritten(store, id, newParent, trail))
  }

  /** Deleting takes the whole subtree along; a folder that is not there is no error. */
  function Delete(store: Store, id: nat): Store {
    if id !in store then store else map d | d in store && !InSubtree(store, id, d) :: store[d]
  }

  function Purge(store: Store, owner: Owner): Store {
    map d | d in store && store[d].owner != owner :: store[d]
  }

  lemma TrailEndsInId(store: Store, id: nat)
    requires Linked(store) && id in store
    ensures store[id].trail != [] && store[id].trail[|store[id].trail| - 1] == id
  {
  }

  /** Whether a folder lies below another is decided at its parent. */
  lemma BelowByParent(store: Store, id: nat, d: nat)
    requires Linked(store) && id in store && d in store && d != id
    ensures var p := store[d].parent;
      Below(store, id, d) <==> p.Some? && p.value != d && p.value in store && Below(store, id, p.value)
  {
    TrailEndsInId(store, id);
    var top, t, p := store[id].trail, store[d].trail, store[d].parent;
    if p.Some? && p.value != d && p.value in store {
      var u := store[p.value].trail;
      assert t == u + [d];
      if top <= t {
        assert |top| < |t| || top == t;
        assert |top| < |t|;
        assert u[..|top|] == t[..|top|];
      }
      if top <= u {
        assert t[..|top|] == u[..|top|];
      }
    } else {
      assert t == [d];
      assert top <= t ==> top == [d];
    }
  }

  /** A folder of another owner lies below this one. */
  ghost predicate HoldsForeign(store: Store, id: nat)
    requires id in store
  {
    exists d :: d in store && Below(store, id, d) && store[d].owner != store[id].owner
  }

  /** Above a foreign folder in a subtree there is one whose parent is the owner's. */
  lemma {:induction false} ForeignEdge(store: Store, id: nat, d: nat) returns (e: nat, p: nat)
    requires Linked(store) && id in store && d in store
    requires Below(store, id, d) && store[d].owner != store[id].owner
    ensures e in store && store[e].owner != store[id].owner && store[e].parent == Some(p) && p != e
    ensures p in store && InSubtree(store, id, p) && store[e].trail == store[p].trail + [e]
    decreases |store[d].trail|
  {
    BelowByParent(store, id, d);
    p := store[d].parent.value;
    if store[p].owner == store[id].owner {
      e := d;
    } else {
      assert store[d].trail == store[p].trail + [d];
      e, p := ForeignEdge(store, id, p);
    }
  }

  /** Moving a folder to another path keeps all paths right exactly when nothing of another owner lies
      below it. */
  lemma MoveKeepsLinked(store: Store, id: nat, newParent: Option<nat>)
    requires Linked(store) && Move(store, id, newParent).Ok?
    ensures Linked(Move(store, id, newParent).value)
       <==> TrailFor(store, id, newParent) == store[id].trail || !HoldsForeign(store, id)
  {
    var trail, after := TrailFor(store, id, newParent), Move(store, id, newParent).value;
    if trail != store[id].trail && HoldsForeign(store, id) {
      var d :| d in store && Below(store, id, d) && store[d].owner != store[id].owner;
      MoveMisses(store, id, newParent, trail, d);
    } else if after != store {
      forall d | d in after ensures after[d].trail == TrailFor(after, d, after[d].parent) {
        if d != id {
          OtherKept(store, id, newParent, trail, d);
        } else {
          NewParentKept(store, id, newParent, trail);
        }
      }
    }
  }

  lemma NewParentKept(store: Store, id: nat, newParent: Option<nat>, trail: seq<nat>)
    requires Linked(store) && Move(store, id, newParent).Ok? && trail == TrailFor(store, id, newParent)
    ensures TrailFor(Rewritten(store, id, newParent, trail), id, newParent) == trail
  {
  }

  lemma OtherKept(store: Store, id: nat, newParent: Option<nat>, trail: seq<nat>, d: nat)
    requires Linked(store) && id in store && d in store && d != id
    requires trail == store[id].trail || !HoldsForeign(store, id)
    ensures var after := Rewritten(store, id, newParent, trail);
      after[d].trail == TrailFor(after, d, after[d].parent)
  {
    var after, p := Rewritten(store, id, newParent, trail), store[d].parent;
    FrontReplaced(store, id, newParent, trail, d);
    if p.Some? && p.value != d && p.value in store {
      BelowByParent(store, id, d);
      FrontReplaced(store, id, newParent, trail, p.value);
      var n, u := |store[id].trail|, store[p.value].trail;
      assert store[d].trail == u + [d];
      if Below(store, id, p.value) {
        assert (u + [d])[n..] == u[n..] + [d];
        Seqs.Assoc(trail, u[n..], [d]);
      }
    } else {
      BelowByParent(store, id, d);
    }
  }

  /** Unless something foreign is missed, every path below has its front replaced. */
  lemma FrontReplaced(store: Store, id: nat, newParent: Option<nat>, trail: seq<nat>, d: nat)
    requires Linked(store) && id in store && d in store
    requires trail == store[id].trail || !HoldsForeign(store, id)
    ensures Rewritten(store, id, newParent, trail)[d].trail
         == if Below(store, id, d) then trail + store[d].trail[|store[id].trail|..] else store[d].trail
  {
    hide Linked;
    hide TrailFor;
    var top, t := store[id].trail, store[d].trail;
    if Below(store, id, d) {
      assert t == top + t[|top|..];
      if d == id {
        assert t[|top|..] == [];
        Seqs.Empty(trail);
      } else {
        hide Below;
        assert store[d].owner != store[id].owner ==> HoldsForeign(store, id);
      }
    }
  }

  lemma FrontSame(t: seq<nat>, t': seq<nat>, u: seq<nat>)
    requires t <= u && t' + u[|t|..] == u
    ensures t == t'
  {
    assert |t| == |t'| && t' == u[..|t'|];
  }

  lemma SnocInjective(t: seq<nat>, u: seq<nat>, e: nat)
    ensures t + [e] == u + [e] <==> t == u
  {
    Seqs.InitOfSnoc(t, e);
    Seqs.InitOfSnoc(u, e);
  }

  lemma MoveMisses(store: Store, id: nat, newParent: Option<nat>, trail: seq<nat>, d: nat)
    requires Linked(store) && Move(store, id, newParent).Ok?
    requires trail == TrailFor(store, id, newParent) != store[id].trail
    requires d in store && Below(store, id, d) && store[d].owner != store[id].owner
    ensures !Linked(Move(store, id, newParent).value)
  {
    var e, p := ForeignEdge(store, id, d);
    var after, n, u := Rewritten(store, id, newParent, trail), |store[id].trail|, store[p].trail;
    assert after[e] == store[e];
    assert after[p].trail == trail + u[n..] by {
      assert p == id ==> u[n..] == [] && trail + [] == trail;
    }
    if after[p].trail == u {
      FrontSame(store[id].trail, trail, u);
    }
    assert TrailFor(after, e, Some(p)) == after[p].trail + [e];
    SnocInjective(after[p].trail, u, e);
  }

  /** Deleting a folder keeps the paths of the others right exactly when nothing of another owner lies
      below it. */
  lemma DeleteKeepsLinked(store: Store, id: nat)
    requires Linked(store) && id in store
    ensures Linked(Delete(store, id)) <==> !HoldsForeign(store, id)
  {
    var after := Delete(store, id);
    if d :| d in store && Below(store, id, d) && store[d].owner != store[id].owner {
      var e, p := ForeignEdge(store, id, d);
      TrailEndsInId(store, p);
      assert e in after && p !in after && after[e] == store[e];
      assert TrailFor(after, e, Some(p)) == [e];
      assert |after[e].trail| > 1;
    } else {
      forall d | d in after ensures after[d].trail == TrailFor(after, d, after[d].parent) {
        if d != id {
          BelowByParent(store, id, d);
        }
      }
    }
  }

  // ---- Every folder in its owner's own tree --------------------------------------------------

  /** No folder lies under another owner's. */
  predicate AtHome(store: Store) {
    forall d | d in store :: HomeUnder(store, store[d].owner, store[d].parent)
  }

  predicate HomeUnder(store: Store, owner: Owner, parent: Option<nat>) {
    parent.Some? && parent.value in store ==> store[parent.value].owner == owner
  }

  lemma {:induction false} NothingForeignBelow(store: Store, id: nat, d: nat)
    requires Linked(store) && AtHome(store) && id in store && d in store && Below(store, id, d)
    ensures store[d].owner == store[id].owner
    decreases |store[d].trail|
  {
    if d != id {
      BelowByParent(store, id, d);
      var p := store[d].parent.value;
      assert HomeUnder(store, store[d].owner, store[d].parent);
      assert store[d].trail == store[p].trail + [d];
      NothingForeignBelow(store, id, p);
    }
  }

  lemma NoneForeign(store: Store, id: nat)
    requires Linked(store) && AtHome(store) && id in store
    ensures !HoldsForeign(store, id)
  {
    if d :| d in store && Below(store, id, d) && store[d].owner != store[id].owner {
      NothingForeignBelow(store, id, d);
    }
  }

  /** The paths survive the deletion of any folder exactly when no folder lies under another owner's. */
  lemma DeletionsSafeExactly(store: Store)
    requires Linked(store)
    ensures (forall id | id in store :: Linked(Delete(store, id))) <==> AtHome(store)
  {
    if AtHome(store) {
      forall id | id in store ensures Linked(Delete(store, id)) {
        NoneForeign(store, id);
        DeleteKeepsLinked(store, id);
      }
    } else {
      var d :| d in store && !HomeUnder(store, store[d].owner, store[d].parent);
      var p := store[d].parent.value;
      assert store[d].trail == store[p].trail + [d];
      assert Below(store, p, d) && HoldsForeign(store, p);
      DeleteKeepsLinked(store, p);
    }
  }

  // ---- Histories ----------------------------------------------------------------------------

  datatype Op =
    | Creating(id: nat, owner: Owner, parent: Option<nat>)
    | Moving(id: nat, newParent: Option<nat>)
    | Deleting(id: nat)
    | Purging(owner: Owner)

  /** A refused move changes nothing. */
  function Done(store: Store, op: Op): Store {
    match op
    case Creating(id, owner, parent) => Create(store, id, owner, parent)
    case Moving(id, newParent) => var r := Move(store, id, newParent); if r.Ok? then r.value else store
    case Deleting(id) => Delete(store, id)
    case Purging(owner) => Purge(store, owner)
  }

  function After(ops: seq<Op>): Store {
    if ops == [] then map[] else Done(After(ops[..|ops| - 1]), ops[|ops| - 1])
  }

  /** Ids are new when they are handed out and not named as a parent before, and folders are created
      under their owner's own. */
  predicate Welcome(store: Store, op: Op) {
    op.Creating? ==> op.id !in store && Unreferenced(store, op.id) && HomeUnder(store, op.owner, op.parent)
  }

  predicate AllWelcome(ops: seq<Op>) {
    forall n | 0 <= n < |ops| :: Welcome(After(ops[..n]), ops[n])
  }

  lemma MoveStaysHome(store: Store, id: nat, newParent: Option<nat>)
    requires Linked(store) && AtHome(store) && Move(store, id, newParent).Ok?
    ensures Linked(Move(store, id, newParent).value) && AtHome(Move(store, id, newParent).value)
  {
    NoneForeign(store, id);
    MoveKeepsLinked(store, id, newParent);
    OwnersKept(store, id, newParent);
  }

  lemma OwnersKept(store: Store, id: nat, newParent: Option<nat>)
    requires AtHome(store) && Move(store, id, newParent).Ok?
    ensures AtHome(Move(store, id, newParent).value)
  {
    hide Below;
    hide TrailFor;
    var after := Move(store, id, newParent).value;
    forall d | d in after ensures HomeUnder(after, after[d].owner, after[d].parent) {
      assert HomeUnder(store, store[d].owner, store[d].parent);
    }
  }

  lemma DeleteStaysHome(store: Store, id: nat)
    requires Linked(store) && AtHome(store)
    ensures Linked(Delete(store, id)) && AtHome(Delete(store, id))
  {
    if id in store {
      DeletionsSafeExactly(store);
    }
    var after := Delete(store, id);
    forall d | d in after ensures HomeUnder(after, after[d].owner, after[d].parent) {
      assert HomeUnder(store, store[d].owner, store[d].parent);
    }
  }

  lemma PurgeStaysHome(store: Store, owner: Owner)
    requires Linked(store) && AtHome(store)
    ensures Linked(Purge(store, owner)) && AtHome(Purge(store, owner))
  {
    var after := Purge(store, owner);
    forall d | d in after
      ensures HomeUnder(after, after[d].owner, after[d].parent) && after[d].trail == TrailFor(after, d, after[d].parent)
    {
      assert HomeUnder(store, store[d].owner, store[d].parent);
    }
  }

  lemma CreateStaysHome(store: Store, id: nat, owner: Owner, parent: Option<nat>)
    requires Linked(store) && AtHome(store) && Welcome(store, Creating(id, owner, parent))
    ensures Linked(Create(store, id, owner, parent)) && AtHome(Create(store, id, owner, parent))
  {
    CreateKeepsLinked(store, id, owner, parent);
    var after := Create(store, id, owner, parent);
    forall d | d in after ensures HomeUnder(after, after[d].owner, after[d].parent) {
      assert d != id ==> HomeUnder(store, store[d].owner, store[d].parent);
    }
  }

  lemma {:induction false} HistoryLinked(ops: seq<Op>)
    requires AllWelcome(ops)
    ensures Linked(After(ops)) && AtHome(After(ops))
  {
    if ops != [] {
      var n := |ops| - 1;
      var before := After(ops[..n]);
      forall m | 0 <= m < n ensures Welcome(After(ops[..n][..m]), ops[..n][m]) {
        assert ops[..n][..m] == ops[..m] && Welcome(After(ops[..m]), ops[m]);
      }
      HistoryLinked(ops[..n]);
      assert Welcome(before, ops[n]);
      hide Linked;
      hide AtHome;
      hide Welcome;
      match ops[n] {
        case Creating(id, owner, parent) => CreateStaysHome(before, id, owner, parent);
        case Moving(id, newParent) =>
          if Move(before, id, newParent).Ok? {
            MoveStaysHome(before, id, newParent);
          }
        case Deleting(id) => DeleteStaysHome(before, id);
        case Purging(owner) => PurgeStaysHome(before, owner);
      }
    }
  }

  /** A folder created under another owner's keeps the path it got when that one is moved. */
  lemma ForeignPathGoesStale(a: Owner, b: Owner)
    requires a != b
    ensures var s := After([Creating(1, a, None), Creating(2, b, Some(1)), Creating(3, a, None), Moving(1, Some(3))]);
      && {1, 2, 3} <= s.Keys && s[3].trail == [3] && s[1].trail == [3, 1]
      && s[2] == Node(b, Some(1), [1, 2])
  {
    var o1, o2, o3, o4 := Creating(1, a, None), Creating(2, b, Some(1)), Creating(3, a, None), Moving(1, Some(3));
    var n1, n2, n3 := Node(a, None, [1]), Node(b, Some(1), [1, 2]), Node(a, None, [3]);
    var s1: Store, s2: Store, s3: Store := map[1 := n1], map[1 := n1, 2 := n2], map[1 := n1, 2 := n2, 3 := n3];
    assert [] + [o1] == [o1] && [o1] + [o2] == [o1, o2] && [o1, o2] + [o3] == [o1, o2, o3];
    assert [o1, o2, o3] + [o4] == [o1, o2, o3, o4];
    AfterSnoc([], o1);
    AfterSnoc([o1], o2);
    AfterSnoc([o1, o2], o3);
    AfterSnoc([o1, o2, o3], o4);
    assert Create(map[], 1, a, None) == s1;
    assert [1] + [2] == [1, 2] && Create(s1, 2, b, Some(1)) == s2;
    assert Create(s2, 3, a, None) == s3;
    hide After;
    MovedAway(s3, a, b);
  }

  lemma MovedAway(s: Store, a: Owner, b: Owner)
    requires a != b && s == map[1 := Node(a, None, [1]), 2 := Node(b, Some(1), [1, 2]), 3 := Node(a, None, [3])]
    ensures Move(s, 1, Some(3)) == Ok(map[1 := Node(a, Some(3), [3, 1]), 2 := s[2], 3 := s[3]])
  {
    assert s[1].trail[0] == 1 && s[3].trail[0] == 3 && !Below(s, 1, 3);
    assert TrailFor(s, 1, Some(3)) == [3] + [1] == [3, 1];
    assert !InSubtree(s, 1, 2) && !InSubtree(s, 1, 3);
    var after := Rewritten(s, 1, Some(3), [3, 1]);
    assert Move(s, 1, Some(3)) == Ok(after);
    assert after == map[1 := Node(a, Some(3), [3, 1]), 2 := s[2], 3 := s[3]];
  }

  lemma AfterSnoc(ops: seq<Op>, op: Op)
    ensures After(ops + [op]) == Done(After(ops), op)
  {
    Seqs.InitOfSnoc(ops, op);
  }

  // ---- What the directory relies on ---------------------------------------------------------

  /** The list of all stored folders of some owners, as the directory is handed it. */
  ghost predicate Listing(store: Store, owners: set<Owner>, folders: seq<Directory.Folder>) {
    && (forall f | f in folders :: f.id in store && store[f.id].owner in owners && f == Row(store, f.id))
    && (forall id | id in store && store[id].owner in owners :: Row(store, id) in folders)
  }

  function Row(store: Store, id: nat): Directory.Folder
    requires id in store
  {
    Directory.Folder(id, store[id].parent, PathText(store[id].trail))
  }

  /** Whose tree an operation is about, if anyone's. */
  predicate Concerns(store: Store, op: Op, owner: Owner) {
    match op
    case Creating(_, mine, _) => mine == owner
    case Moving(id, _) => id in store && store[id].owner == owner
    case Deleting(id) => id in store && store[id].owner == owner
    case Purging(mine) => mine == owner
  }

  /** What is done to one owner's tree leaves the folders of all others as they are. */
  lemma OthersUntouched(store: Store, op: Op, owners: set<Owner>, folders: seq<Directory.Folder>)
    requires (op.Creating? ==> op.id !in store) && forall o | o in owners :: !Concerns(store, op, o)
    ensures Listing(Done(store, op), owners, folders) <==> Listing(store, owners, folders)
  {
    var after := Done(store, op);
    forall id ensures id in after && after[id].owner in owners <==> id in store && store[id].owner in owners {
    }
    forall id | id in store && store[id].owner in owners ensures Row(after, id) == Row(store, id) {
    }
    hide Done;
    hide Concerns;
    hide PathText;
    SameListing(store, after, owners, folders);
  }

  lemma SameListing(store: Store, after: Store, owners: set<Owner>, folders: seq<Directory.Folder>)
    requires forall id :: id in after && after[id].owner in owners <==> id in store && store[id].owner in owners
    requires forall id | id in store && store[id].owner in owners :: id in after && Row(after, id) == Row(store, id)
    ensures Listing(after, owners, folders) <==> Listing(store, owners, folders)
  {
    hide Row;
  }

  /** Purging leaves an owner no folder. */
  lemma PurgeEmpties(store: Store, owner: Owner, folders: seq<Directory.Folder>)
    ensures Listing(Purge(store, owner), {owner}, folders) <==> folders == []
  {
    if folders != [] {
      assert folders[0] in folders;
    }
  }

  lemma {:induction false} TrailIsReached(store: Store, owners: set<Owner>, folders: seq<Directory.Folder>,
                                          f: Directory.Folder, g: Directory.Folder)
    requires Linked(store) && AtHome(store) && Listing(store, owners, folders)
    requires f in folders && g in folders && g.id in store[f.id].trail
    ensures Directory.AncestorOrSelf(folders, g, f)
    decreases |store[f.id].trail|
  {
    if g.id == f.id {
      Directory.SelfReached(folders, f);
    } else {
      var p := store[f.id].parent.value;
      assert HomeUnder(store, store[f.id].owner, store[f.id].parent);
      var parent := Row(store, p);
      TrailIsReached(store, owners, folders, parent, g);
      var steps: nat :| Directory.Reaches(folders, parent, g, steps);
      assert Directory.Reaches(folders, f, g, steps + 1);
    }
  }

  lemma ParentInTrail(store: Store, id: nat, p: nat)
    requires Linked(store) && id in store && p in store && store[id].parent == Some(p)
    ensures forall n | n in store[p].trail :: n in store[id].trail
  {
  }

  lemma {:induction false} ReachedIsInTrail(store: Store, owners: set<Owner>, folders: seq<Directory.Folder>,
                                            f: Directory.Folder, g: Directory.Folder, steps: nat)
    requires Linked(store) && Listing(store, owners, folders)
    requires f in folders && Directory.Reaches(folders, f, g, steps)
    ensures g.id in store[f.id].trail
    decreases steps
  {
    hide PathText;
    if steps == 0 {
      TrailEndsInId(store, f.id);
    } else {
      hide Linked;
      var p :| p in folders && f.parentID == Some(p.id) && Directory.Reaches(folders, p, g, steps - 1);
      ReachedIsInTrail(store, owners, folders, p, g, steps - 1);
      ParentInTrail(store, f.id, p.id);
    }
  }

  /** After any history in which folders are created under their owner's own, moved, deleted and purged,
      the stored paths of any owners' folders list exactly the ancestors: what the directory takes for
      granted. */
  lemma PathsAreRight(parse: string -> Option<nat>, ops: seq<Op>, owners: set<Owner>, folders: seq<Directory.Folder>)
    requires AllWelcome(ops) && Listing(After(ops), owners, folders)
    requires forall n: nat :: parse(Decimal(n)) == Some(n)
    ensures Directory.PathsListAncestors(parse, folders)
  {
    HistoryLinked(ops);
    var store := After(ops);
    hide After;
    hide AtHome;
    forall f, g | f in folders && g in folders
      ensures g.id in Directory.PathIDs(parse, f.path) <==> Directory.AncestorOrSelf(folders, g, f)
    {
      TrailEndsInId(store, f.id);
      TextIDs(parse, store[f.id].trail);
      if g.id in store[f.id].trail {
        TrailIsReached(store, owners, folders, f, g);
      }
      if Directory.AncestorOrSelf(folders, g, f) {
        var steps: nat :| Directory.Reaches(folders, f, g, steps);
        ReachedIsInTrail(store, owners, folders, f, g, steps);
      }
    }
  }
}
