/** The pruned folder forest a user sees. */
module Directory {
  import opened Results
  import opened Strings

  datatype Folder = Folder(id: nat, parentID: Option<nat>, path: string)
  datatype Item = Item(folderID: nat, nodeID: nat)

  /** The ids a path names: its segments between slashes that parse; others are skipped. */
  function PathIDs(parse: string -> Option<nat>, path: string): set<nat> {
    set seg | seg in Split(path, '/') && seg != "" && parse(seg).Some? :: parse(seg).value
  }

  predicate Visible(it: Item, all: bool, connectable: set<nat>) {
    all || it.nodeID in connectable
  }

  /** The folder directly holds an item the user can connect to. */
  ghost predicate HasVisible(items: seq<Item>, all: bool, connectable: set<nat>, id: nat) {
    exists i :: 0 <= i < |items| && items[i].folderID == id && Visible(items[i], all, connectable)
  }

  function VisibleItems(items: seq<Item>, all: bool, connectable: set<nat>): seq<Item> {
    if items == [] then []
    else VisibleItems(items[..|items| - 1], all, connectable)
         + if Visible(items[|items| - 1], all, connectable) then [items[|items| - 1]] else []
  }

  function KeptFolders(folders: seq<Folder>, keep: set<nat>): seq<Folder> {
    if folders == [] then []
    else KeptFolders(folders[..|folders| - 1], keep)
         + if folders[|folders| - 1].id in keep then [folders[|folders| - 1]] else []
  }

  /** The second list holds the elements of the first at these places, in order. */
  ghost predicate Selects<T>(xs: seq<T>, at: seq<nat>, ys: seq<T>) {
    && |at| == |ys| && (forall k, m | 0 <= k < m < |at| :: at[k] < at[m])
    && (forall k | 0 <= k < |at| :: at[k] < |xs| && ys[k] == xs[at[k]])
  }

  lemma SelectNext<T>(xs: seq<T>, at: seq<nat>, ys: seq<T>, x: T)
    requires Selects(xs, at, ys)
    ensures Selects(xs + [x], at, ys) && Selects(xs + [x], at + [|xs|], ys + [x])
  {
  }

  /** The items shown are those the user can connect to, each once and in their order. */
  lemma {:induction false} VisibleItemsExactly(items: seq<Item>, all: bool, connectable: set<nat>)
    returns (at: seq<nat>)
    ensures Selects(items, at, VisibleItems(items, all, connectable))
    ensures forall i: nat | i < |items| :: i in at <==> all || items[i].nodeID in connectable
  {
    at := [];
    if items != [] {
      var n := |items| - 1;
      at := VisibleItemsExactly(items[..n], all, connectable);
      SelectNext(items[..n], at, VisibleItems(items[..n], all, connectable), items[n]);
      assert items == items[..n] + [items[n]];
      if all || items[n].nodeID in connectable {
        at := at + [n];
      }
    }
  }

  /** And so the folders with a kept id. */
  lemma {:induction false} KeptFoldersExactly(folders: seq<Folder>, keep: set<nat>) returns (at: seq<nat>)
    ensures Selects(folders, at, KeptFolders(folders, keep))
    ensures forall i: nat | i < |folders| :: i in at <==> folders[i].id in keep
  {
    at := [];
    if folders != [] {
      var n := |folders| - 1;
      at := KeptFoldersExactly(folders[..n], keep);
      SelectNext(folders[..n], at, KeptFolders(folders[..n], keep), folders[n]);
      assert folders == folders[..n] + [folders[n]];
      if folders[n].id in keep {
        at := at + [n];
      }
    }
  }

  lemma {:induction false} KeptMembers(folders: seq<Folder>, keep: set<nat>, f: Folder)
    ensures f in KeptFolders(folders, keep) <==> f in folders && f.id in keep
  {
    if folders != [] {
      var n := |folders| - 1;
      KeptMembers(folders[..n], keep, f);
      assert folders == folders[..n] + [folders[n]];
    }
  }

  // ---- The forest ---------------------------------------------------------------------------

  /** g is reached from f by following parent links through the given folders, f itself included. */
  ghost predicate Reaches(folders: seq<Folder>, f: Folder, g: Folder, steps: nat)
    decreases steps
  {
    if steps == 0 then f == g
    else exists p :: p in folders && f.parentID == Some(p.id) && Reaches(folders, p, g, steps - 1)
  }

  ghost predicate AncestorOrSelf(folders: seq<Folder>, g: Folder, f: Folder) {
    exists steps: nat :: Reaches(folders, f, g, steps)
  }

  /** Paths are materialised ancestor lists: among the given folders, a path names exactly the
      folder's ancestors and itself. */
  ghost predicate PathsListAncestors(parse: string -> Option<nat>, folders: seq<Folder>) {
    && (forall f, g | f in folders && g in folders ::
          g.id in PathIDs(parse, f.path) <==> AncestorOrSelf(folders, g, f))
  }

  /** The ids named on the path of some folder that directly holds a visible item. */
  ghost predicate Marks(parse: string -> Option<nat>, folders: seq<Folder>, items: seq<Item>, all: bool,
                        connectable: set<nat>, keep: set<nat>)
  {
    forall id :: id in keep <==>
      exists f :: f in folders && HasVisible(items, all, connectable, f.id) && id in PathIDs(parse, f.path)
  }

  /** An ancestor-or-self of some folder that directly holds a visible item. */
  ghost predicate LeadsToVisible(folders: seq<Folder>, items: seq<Item>, all: bool, connectable: set<nat>, g: Folder) {
    exists f :: f in folders && HasVisible(items, all, connectable, f.id) && AncestorOrSelf(folders, g, f)
  }

  lemma {:induction false} ReachesOneMore(folders: seq<Folder>, f: Folder, g: Folder, p: Folder, steps: nat)
    requires Reaches(folders, f, g, steps) && p in folders && g.parentID == Some(p.id)
    ensures Reaches(folders, f, p, steps + 1)
    decreases steps
  {
    if steps == 0 {
      assert Reaches(folders, p, p, 0);
    } else {
      var q :| q in folders && f.parentID == Some(q.id) && Reaches(folders, q, g, steps - 1);
      ReachesOneMore(folders, q, g, p, steps - 1);
    }
  }

  lemma SelfReached(folders: seq<Folder>, f: Folder)
    ensures AncestorOrSelf(folders, f, f)
  {
    assert Reaches(folders, f, f, 0);
  }

  // ---- The loops ----------------------------------------------------------------------------

  /** The visible items, and the folders that directly hold one. */
  method CollectVisible(items: seq<Item>, all: bool, connectable: set<nat>)
    returns (visItems: seq<Item>, folderHasVisible: set<nat>)
    ensures visItems == VisibleItems(items, all, connectable)
    ensures forall id :: id in folderHasVisible <==> HasVisible(items, all, connectable, id)
  {
    visItems, folderHasVisible := [], {};
    for i := 0 to |items|
      invariant visItems == VisibleItems(items[..i], all, connectable)
      invariant forall id :: id in folderHasVisible <==> HasVisible(items[..i], all, connectable, id)
    {
      var it := items[i];
      assert items[..i + 1] == items[..i] + [it];
      HasVisibleSnoc(items[..i], it, all, connectable);
      if !all && it.nodeID !in connectable {
        continue;
      }
      visItems := visItems + [it];
      folderHasVisible := folderHasVisible + {it.folderID};
    }
    assert items[..|items|] == items;
  }

  /** The ids along one path. */
  method MarkPath(parse: string -> Option<nat>, path: string, before: set<nat>) returns (keep: set<nat>)
    ensures keep == before + PathIDs(parse, path)
  {
    keep := before;
    var segs := Split(path, '/');
    for j := 0 to |segs|
      invariant keep == before + set seg | seg in segs[..j] && seg != "" && parse(seg).Some? :: parse(seg).value
    {
      var seg := segs[j];
      assert segs[..j + 1] == segs[..j] + [seg];
      if seg != "" && parse(seg).Some? {
        keep := keep + {parse(seg).value};
      }
    }
    assert segs[..|segs|] == segs;
  }

  lemma MarksSnoc(parse: string -> Option<nat>, folders: seq<Folder>, f: Folder, items: seq<Item>, all: bool,
                  connectable: set<nat>, keep: set<nat>)
    requires Marks(parse, folders, items, all, connectable, keep)
    ensures Marks(parse, folders + [f], items, all, connectable,
                  if HasVisible(items, all, connectable, f.id) then keep + PathIDs(parse, f.path) else keep)
  {
    hide HasVisible;
    hide PathIDs;
    assert forall g :: g in folders + [f] <==> g in folders || g == f;
  }

  /** Three loops: collect the visible items and their folders, mark every folder named on the path
      of such a folder, and keep the marked folders in order. */
  method MyDirectory(parse: string -> Option<nat>, folders: seq<Folder>, items: seq<Item>, all: bool,
                     connectable: set<nat>)
    returns (visFolders: seq<Folder>, visItems: seq<Item>)
    ensures visItems == VisibleItems(items, all, connectable)
    ensures exists keep: set<nat> ::
      Marks(parse, folders, items, all, connectable, keep) && visFolders == KeptFolders(folders, keep)
    ensures PathsListAncestors(parse, folders) ==> Shows(folders, items, all, connectable, visFolders)
  {
    var folderHasVisible: set<nat>;
    visItems, folderHasVisible := CollectVisible(items, all, connectable);
    var keep: set<nat> := {};
    for i := 0 to |folders|
      invariant Marks(parse, folders[..i], items, all, connectable, keep)
    {
      assert folders[..i + 1] == folders[..i] + [folders[i]];
      MarksSnoc(parse, folders[..i], folders[i], items, all, connectable, keep);
      if folders[i].id in folderHasVisible {
        keep := MarkPath(parse, folders[i].path, keep);
      }
    }
    assert folders[..|folders|] == folders;
    visFolders := [];
    for i := 0 to |folders|
      invariant visFolders == KeptFolders(folders[..i], keep)
    {
      assert folders[..i + 1] == folders[..i] + [folders[i]];
      if folders[i].id in keep {
        visFolders := visFolders + [folders[i]];
      }
    }
    assert folders[..|folders|] == folders;
    if PathsListAncestors(parse, folders) {
      MarkedIsShown(parse, folders, items, all, connectable, keep);
    }
  }

  /** Marking by paths is marking by ancestry. */
  lemma MarkedIsShown(parse: string -> Option<nat>, folders: seq<Folder>, items: seq<Item>, all: bool,
                      connectable: set<nat>, keep: set<nat>)
    requires PathsListAncestors(parse, folders) && Marks(parse, folders, items, all, connectable, keep)
    ensures Shows(folders, items, all, connectable, KeptFolders(folders, keep))
  {
    hide HasVisible;
    hide PathIDs;
    hide AncestorOrSelf;
    forall g ensures g in KeptFolders(folders, keep)
       <==> g in folders && LeadsToVisible(folders, items, all, connectable, g) {
      KeptMembers(folders, keep, g);
    }
  }

  lemma HasVisibleSnoc(items: seq<Item>, it: Item, all: bool, connectable: set<nat>)
    ensures forall id ::
      HasVisible(items + [it], all, connectable, id)
      <==> HasVisible(items, all, connectable, id) || (it.folderID == id && Visible(it, all, connectable))
  {
    var more := items + [it];
    forall id ensures HasVisible(more, all, connectable, id)
      <==> HasVisible(items, all, connectable, id) || (it.folderID == id && Visible(it, all, connectable))
    {
      if HasVisible(items, all, connectable, id) {
        var i :| 0 <= i < |items| && items[i].folderID == id && Visible(items[i], all, connectable);
        assert more[i] == items[i];
      }
      assert more[|items|] == it;
    }
  }

  // ---- What the user is shown ---------------------------------------------------------------

  /** A set of shown folders that is exactly the folders leading to something visible. */
  ghost predicate Shows(folders: seq<Folder>, items: seq<Item>, all: bool, connectable: set<nat>, shown: seq<Folder>) {
    forall g :: g in shown <==> g in folders && LeadsToVisible(folders, items, all, connectable, g)
  }

  /** The parent of a shown folder is shown. */
  lemma ShownClosedUnderParent(folders: seq<Folder>, items: seq<Item>, all: bool, connectable: set<nat>,
                               shown: seq<Folder>, g: Folder, p: Folder)
    requires Shows(folders, items, all, connectable, shown)
    requires g in shown && p in folders && g.parentID == Some(p.id)
    ensures p in shown
  {
    var f :| f in folders && HasVisible(items, all, connectable, f.id) && AncestorOrSelf(folders, g, f);
    var steps: nat :| Reaches(folders, f, g, steps);
    ReachesOneMore(folders, f, g, p, steps);
    assert AncestorOrSelf(folders, p, f);
  }

  /** The folder of every visible item is shown, if it is among the folders. */
  lemma VisibleItemHasFolder(folders: seq<Folder>, items: seq<Item>, all: bool, connectable: set<nat>,
                             shown: seq<Folder>, i: nat, f: Folder)
    requires Shows(folders, items, all, connectable, shown)
    requires i < |items| && Visible(items[i], all, connectable) && f in folders && f.id == items[i].folderID
    ensures f in shown
  {
    SelfReached(folders, f);
  }

  /** No branch is empty: below every shown folder lies a shown folder that directly holds a visible item. */
  lemma NoEmptyBranch(folders: seq<Folder>, items: seq<Item>, all: bool, connectable: set<nat>,
                      shown: seq<Folder>, g: Folder) returns (f: Folder)
    requires Shows(folders, items, all, connectable, shown) && g in shown
    ensures f in shown && AncestorOrSelf(folders, g, f) && HasVisible(items, all, connectable, f.id)
  {
    f :| f in folders && HasVisible(items, all, connectable, f.id) && AncestorOrSelf(folders, g, f);
    SelfReached(folders, f);
  }

  /** Nothing beyond the grant: every item shown can be connected to, and comes from the input. */
  lemma {:induction false} OnlyVisibleItems(items: seq<Item>, all: bool, connectable: set<nat>, it: Item)
    ensures it in VisibleItems(items, all, connectable) <==> it in items && Visible(it, all, connectable)
  {
    if items != [] {
      var n := |items| - 1;
      OnlyVisibleItems(items[..n], all, connectable, it);
      assert items == items[..n] + [items[n]];
    }
  }
}
