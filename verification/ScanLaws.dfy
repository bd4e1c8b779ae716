/** What a scan decides does not depend on the order in which directories are listed. */
module ScanLaws {
  import opened Listing
  import opened Sorting
  import opened Text
  import opened Wrappers
  import opened ScanScope
  import opened TreeScan

  lemma SplitLast(names: seq<string>)
    requires names != []
    ensures names == names[..|names| - 1] + [names[|names| - 1]]
  {
  }

  /** Listing names in another order yields the same effects. */
  lemma {:induction false} ListAnyOrder(m: Mode, b: Layout, at: Path, name: Path, dir: Node, xs: seq<string>,
                                        ys: seq<string>, depth: nat)
    requires dir.Dir? && multiset(xs) == multiset(ys)
    ensures multiset(ListOps(m, b, at, name, dir, xs, depth)) == multiset(ListOps(m, b, at, name, dir, ys, depth))
    decreases |xs|
  {
    hide ListOps, NamedOps;
    if xs == [] {
      assert |ys| == |multiset(ys)| == 0;
    } else {
      var i := |xs| - 1;
      InMultiset(xs, i);
      var k := Find(ys, xs[i]);
      WithoutMultiset(xs, i);
      WithoutMultiset(ys, k);
      ListAnyOrder(m, b, at, name, dir, Without(xs, i), Without(ys, k), depth);
      ListWithout(m, b, at, name, dir, xs, i, depth);
      ListWithout(m, b, at, name, dir, ys, k, depth);
    }
  }

  ghost function NamedOps(m: Mode, b: Layout, at: Path, name: Path, dir: Node, child: string, depth: nat): seq<Op>
    requires dir.Dir?
  {
    if child in dir.children then NodeOps(m, b, at, name + [child], dir.children[child], depth) else []
  }

  lemma {:induction false} ListWithout(m: Mode, b: Layout, at: Path, name: Path, dir: Node, ys: seq<string>, k: nat,
                                       depth: nat)
    requires dir.Dir? && k < |ys|
    ensures multiset(ListOps(m, b, at, name, dir, ys, depth))
         == multiset(ListOps(m, b, at, name, dir, Without(ys, k), depth))
           + multiset(NamedOps(m, b, at, name, dir, ys[k], depth))
    decreases |ys|
  {
    hide ListOps, NamedOps;
    var last := |ys| - 1;
    ListStep(m, b, at, name, dir, ys, depth);
    if k == last {
      assert Without(ys, k) == ys[..last];
    } else {
      ListWithout(m, b, at, name, dir, ys[..last], k, depth);
      ListStep(m, b, at, name, dir, Without(ys, k), depth);
      assert Without(ys, k)[..last - 1] == Without(ys[..last], k);
    }
  }

  lemma ListStep(m: Mode, b: Layout, at: Path, name: Path, dir: Node, ys: seq<string>, depth: nat)
    requires dir.Dir? && ys != []
    ensures ListOps(m, b, at, name, dir, ys, depth)
         == ListOps(m, b, at, name, dir, ys[..|ys| - 1], depth) + NamedOps(m, b, at, name, dir, ys[|ys| - 1], depth)
  {
    hide NodeOps;
  }

  /** The same scan with another enumeration order. */
  function Reordered(m: Mode, order: (Path, set<string>) -> seq<string>): Mode {
    m.(order := order)
  }

  lemma {:induction false} ListReordered(m: Mode, n: Mode, b: Layout, at: Path, name: Path, dir: Node,
                                         names: seq<string>, depth: nat)
    requires n == Reordered(m, n.order) && Enumerates(m) && Enumerates(n) && dir.Dir?
    ensures multiset(ListOps(m, b, at, name, dir, names, depth)) == multiset(ListOps(n, b, at, name, dir, names, depth))
    decreases dir, 0, |names|
  {
    if names != [] {
      var last := names[|names| - 1];
      ListReordered(m, n, b, at, name, dir, names[..|names| - 1], depth);
      if last in dir.children {
        NodeReordered(m, n, b, at, name + [last], dir.children[last], depth);
      }
    }
  }

  lemma {:induction false} DirReordered(m: Mode, n: Mode, b: Layout, at: Path, name: Path, dir: Node, depth: nat)
    requires n == Reordered(m, n.order) && Enumerates(m) && Enumerates(n)
    ensures multiset(DirOps(m, b, at, name, dir, depth)) == multiset(DirOps(n, b, at, name, dir, depth))
    decreases dir, 1
  {
    if dir.Dir? {
      var xs, ys := m.order(at + name, dir.children.Keys), n.order(at + name, dir.children.Keys);
      ListReordered(m, n, b, at, name, dir, xs, depth);
      ListAnyOrder(n, b, at, name, dir, xs, ys, depth);
    }
  }

  lemma {:induction false} StrayReordered(m: Mode, n: Mode, path: Path, node: Node)
    requires n == Reordered(m, n.order) && Enumerates(m) && Enumerates(n)
    ensures multiset(StrayOps(m, path, node)) == multiset(StrayOps(n, path, node))
    decreases node, 1
  {
    if node.Dir? {
      StrayDirReordered(m, n, path, node);
    }
  }

  lemma {:induction false} StrayDirReordered(m: Mode, n: Mode, path: Path, dir: Node)
    requires n == Reordered(m, n.order) && Enumerates(m) && Enumerates(n) && dir.Dir?
    ensures multiset(StrayDirOps(m, path, dir)) == multiset(StrayDirOps(n, path, dir))
    decreases dir, 0
  {
    var p := map x | x in dir.children :: StrayOps(m, path + [x], dir.children[x]);
    var q := map x | x in dir.children :: StrayOps(n, path + [x], dir.children[x]);
    forall x | x in dir.children
      ensures multiset(p[x]) == multiset(q[x])
    {
      StrayReordered(m, n, path + [x], dir.children[x]);
    }
    ConcatSame(m.order(path, dir.children.Keys), n.order(path, dir.children.Keys), p, q);
  }

  lemma InventoryReordered(m: Mode, n: Mode, b: Layout, at: Path, root: Node, depth: nat)
    requires n == Reordered(m, n.order) && Enumerates(m) && Enumerates(n)
    ensures multiset(InventoryOps(m, b, at, root, depth)) == multiset(InventoryOps(n, b, at, root, depth))
  {
    var p, q := StrayParts(m, b, at, root), StrayParts(n, b, at, root);
    hide StrayDirOps;
    forall v | v in OtherVersions(b, root)
      ensures multiset(p[v]) == multiset(q[v])
    {
      StrayDirReordered(m, n, at + ["Versions", v], VersionsOf(root)[v]);
    }
    var path, names := at + ["Versions"], OtherVersions(b, root);
    ConcatSame(m.order(path, names), n.order(path, names), p, q);
  }

  lemma LayoutReordered(m: Mode, n: Mode, b: Layout, at: Path, root: Node)
    requires n == Reordered(m, n.order) && Enumerates(m) && Enumerates(n)
    ensures multiset(LayoutOps(m, b, at, root)) == multiset(LayoutOps(n, b, at, root))
  {
    if b.Versioned() {
      SameRoot(m, n, b, root);
      hide FrameworkRootOk;
      EnterReordered(m, n, at, if root.Dir? then root.children.Keys else {});
      EnterReordered(m, n, at + ["Versions"], VersionsOf(root).Keys);
      hide EnterOps;
    }
  }

  lemma SameRoot(m: Mode, n: Mode, b: Layout, root: Node)
    requires n.validPath == m.validPath && b.Versioned()
    ensures FrameworkRootOk(m, b, root) == FrameworkRootOk(n, b, root)
    ensures FrameworkRootOk(m, b, root) ==> root.Dir?
  {
    forall versions, x, node
      ensures ListedOk(m, b, versions, x, node) == ListedOk(n, b, versions, x, node)
    {
    }
    hide ListedOk;
  }

  lemma EnterReordered(m: Mode, n: Mode, at: Path, keys: set<string>)
    requires n == Reordered(m, n.order) && Enumerates(m) && Enumerates(n)
    ensures multiset(EnterOps(m, at, keys)) == multiset(EnterOps(n, at, keys))
  {
    ConcatAnyOrder(m.order(at, keys), n.order(at, keys), EntryParts(at, keys));
  }

  lemma {:induction false} WalkReordered(m: Mode, n: Mode, b: Layout, at: Path, root: Node, depth: nat)
    requires n == Reordered(m, n.order) && Enumerates(m) && Enumerates(n)
    ensures multiset(WalkOps(m, b, at, root, depth)) == multiset(WalkOps(n, b, at, root, depth))
    decreases root, 2
  {
    if !b.Versioned() {
      DirReordered(m, n, b, at, [], root, depth);
    } else if b.base[1] in VersionsOf(root) {
      DirReordered(m, n, b, at, b.base, VersionsOf(root)[b.base[1]], depth);
    }
  }

  lemma {:induction false} TreeReordered(m: Mode, n: Mode, b: Layout, at: Path, root: Node, depth: nat)
    requires n == Reordered(m, n.order) && Enumerates(m) && Enumerates(n)
    ensures multiset(TreeOps(m, b, at, root, depth)) == multiset(TreeOps(n, b, at, root, depth))
    decreases root, 3
  {
    LayoutReordered(m, n, b, at, root);
    WalkReordered(m, n, b, at, root, depth);
    InventoryReordered(m, n, b, at, root, depth);
    hide LayoutOps, WalkOps, InventoryOps, TargetOps;
  }

  lemma {:induction false} BundleReordered(m: Mode, n: Mode, b: Layout, at: Path, root: Node, depth: nat)
    requires n == Reordered(m, n.order) && Enumerates(m) && Enumerates(n)
    ensures multiset(BundleOps(m, b, at, root, depth)) == multiset(BundleOps(n, b, at, root, depth))
    decreases root, 4
  {
    TreeReordered(m, n, b, at, root, depth);
    LayoutReordered(m, n, b, at, root);
    hide TreeOps, LayoutOps;
  }

  lemma {:induction false} AlternateReordered(m: Mode, n: Mode, b: Layout, at: Path, node: Node, depth: nat)
    requires n == Reordered(m, n.order) && Enumerates(m) && Enumerates(n)
    ensures multiset(AlternateOps(m, b, at, node, depth)) == multiset(AlternateOps(n, b, at, node, depth))
    decreases node, 5
  {
    var p, q := AlternateParts(m, b, at, node, depth), AlternateParts(n, b, at, node, depth);
    hide BundleOps;
    forall v | v in OtherVersions(b, node)
      ensures multiset(p[v]) == multiset(q[v])
    {
      assert p[v] == AlternateOf(m, b, at, node, depth, v) && q[v] == AlternateOf(n, b, at, node, depth, v);
      if v in b.others {
        BundleReordered(m, n, b.As(v), at, node, depth);
      }
    }
    var path, names := at + ["Versions"], OtherVersions(b, node);
    ConcatSame(m.order(path, names), n.order(path, names), p, q);
  }

  lemma {:induction false} ChildReordered(m: Mode, n: Mode, at: Path, node: Node, depth: nat)
    requires n == Reordered(m, n.order) && Enumerates(m) && Enumerates(n)
    ensures multiset(ChildOps(m, at, node, depth)) == multiset(ChildOps(n, at, node, depth))
    decreases node, 6
  {
    if node.Dir? && node.layout.Some? {
      BundleReordered(m, n, node.layout.value, at, node, depth);
      AlternateReordered(m, n, node.layout.value, at, node, depth);
      hide BundleOps, AlternateOps;
    }
  }

  /** The effects of one entry, after it is entered. */
  ghost function RoleOps(m: Mode, b: Layout, at: Path, name: Path, node: Node, depth: nat): seq<Op>
    requires name != []
  {
    match RoleOf(m, b, name, node)
    case Refused => [Refuse]
    case Passed => []
    case Folder => DirOps(m, b, at, name, node, depth)
    case StaleSignature => [RegularFile(at + name, node.inode)]
    case AttributeFile => [SealFile(at + name, Exempted)]
    case ChildBundle => ChildOps(m, at + name, node, depth + 1)
    case Member(nested) =>
      if node.Link? then LinkOps(m, b, at, name, node)
      else if node.File? then FileOps(m, b, at, name, node, nested)
      else [Refuse]
  }

  lemma NodeShape(m: Mode, b: Layout, at: Path, name: Path, node: Node, depth: nat)
    requires name != []
    ensures NodeOps(m, b, at, name, node, depth) == [Entry(at + name)] + RoleOps(m, b, at, name, node, depth)
  {
    hide RoleOf, LinkOps, FileOps, DirOps, ChildOps;
  }

  lemma {:induction false} NodeReordered(m: Mode, n: Mode, b: Layout, at: Path, name: Path, node: Node, depth: nat)
    requires n == Reordered(m, n.order) && Enumerates(m) && Enumerates(n) && name != []
    ensures multiset(NodeOps(m, b, at, name, node, depth)) == multiset(NodeOps(n, b, at, name, node, depth))
    decreases node, 8
  {
    RoleReordered(m, n, b, at, name, node, depth);
    NodeShape(m, b, at, name, node, depth);
    NodeShape(n, b, at, name, node, depth);
    hide NodeOps, RoleOps;
  }

  lemma {:induction false} RoleReordered(m: Mode, n: Mode, b: Layout, at: Path, name: Path, node: Node, depth: nat)
    requires n == Reordered(m, n.order) && Enumerates(m) && Enumerates(n) && name != []
    ensures multiset(RoleOps(m, b, at, name, node, depth)) == multiset(RoleOps(n, b, at, name, node, depth))
    decreases node, 7
  {
    SameMembers(m, n, b, at, name, node);
    hide DirOps, ChildOps, RoleOf, LinkOps, FileOps, Enumerates, Reordered;
    match RoleOf(m, b, name, node)
    case Folder =>
      DirReordered(m, n, b, at, name, node, depth);
    case ChildBundle =>
      ChildReordered(m, n, at + name, node, depth + 1);
    case _ =>
      assert RoleOps(m, b, at, name, node, depth) == RoleOps(n, b, at, name, node, depth);
  }

  lemma SameMembers(m: Mode, n: Mode, b: Layout, at: Path, name: Path, node: Node)
    requires n == Reordered(m, n.order) && name != []
    ensures RoleOf(m, b, name, node) == RoleOf(n, b, name, node)
    ensures node.Link? ==> LinkOps(m, b, at, name, node) == LinkOps(n, b, at, name, node)
    ensures node.File? ==> forall nested ::
      FileOps(m, b, at, name, node, nested) == FileOps(n, b, at, name, node, nested)
  {
  }

  /** The seal is one of what `n` holds. */
  ghost predicate Tells(m: Mode, seal: Seal, n: Node) {
    match seal
    case Hashed(hash, _) => n.File? && hash == m.hash2(n.content)
    case Linked(target, _) => n.Link? && target == n.target
    case Code(content) => n.File? && content == n.content
    case Bundle => n.Dir?
    case Exempted => n.File?
  }

  ghost predicate TrueOf(m: Mode, op: Op, n: Node) {
    match op
    case WriteTarget(_, inode) => n.inode == inode
    case RegularFile(_, inode) => n.inode == inode
    case SealFile(_, seal) => Tells(m, seal, n)
    case _ => true
  }

  predicate NamesFile(op: Op) {
    op.WriteTarget? || op.RegularFile? || op.SealFile?
  }

  /** What is registered or sealed is what the tree holds at that path, at `at` or below it. */
  ghost predicate Truthful(m: Mode, ops: seq<Op>, at: Path, node: Node) {
    forall op <- ops | NamesFile(op) ::
      at <= op.path && Lookup(node, op.path[|at|..]).Some? && TrueOf(m, op, Lookup(node, op.path[|at|..]).value)
  }

  lemma TruthfulUp(m: Mode, ops: seq<Op>, at: Path, x: string, dir: Node)
    requires dir.Dir? && x in dir.children && Truthful(m, ops, at + [x], dir.children[x])
    ensures Truthful(m, ops, at, dir)
  {
    forall op <- ops | NamesFile(op)
      ensures at <= op.path && Lookup(dir, op.path[|at|..]).Some? && TrueOf(m, op, Lookup(dir, op.path[|at|..]).value)
    {
      var rest := op.path[|at|..];
      assert rest[0] == x && rest[1..] == op.path[|at| + 1..];
    }
  }

  lemma SelfPath(at: Path, name: Path)
    ensures at <= at + name && (at + name)[|at|..] == name
  {
  }

  lemma {:induction false} ListTruthful(m: Mode, b: Layout, at: Path, name: Path, dir: Node, names: seq<string>,
                                        depth: nat)
    requires dir.Dir?
    ensures Truthful(m, ListOps(m, b, at, name, dir, names, depth), at + name, dir)
    decreases dir, 0, |names|
  {
    if names != [] {
      var last := names[|names| - 1];
      ListTruthful(m, b, at, name, dir, names[..|names| - 1], depth);
      if last in dir.children {
        NodeTruthful(m, b, at, name + [last], dir.children[last], depth);
        assert at + (name + [last]) == at + name + [last];
        TruthfulUp(m, NodeOps(m, b, at, name + [last], dir.children[last], depth), at + name, last, dir);
      }
    }
  }

  lemma ConcatTruthful(m: Mode, names: seq<string>, parts: map<string, seq<Op>>, at: Path, node: Node)
    requires forall x | x in parts :: Truthful(m, parts[x], at, node)
    ensures Truthful(m, Concat(names, parts), at, node)
  {
    hide Lookup, TrueOf;
    forall op <- Concat(names, parts) | NamesFile(op)
      ensures at <= op.path && Lookup(node, op.path[|at|..]).Some? && TrueOf(m, op, Lookup(node, op.path[|at|..]).value)
    {
      var x := InConcat(names, parts, op);
      assert Truthful(m, parts[x], at, node);
    }
  }

  lemma {:induction false} StrayTruthful(m: Mode, path: Path, node: Node)
    ensures Truthful(m, StrayOps(m, path, node), path, node)
    decreases node, 1
  {
    SelfPath(path, []);
    LookupSelf(node);
    assert path[|path|..] == [];
    if node.Dir? {
      StrayDirTruthful(m, path, node);
    }
    hide Lookup, StrayDirOps;
  }

  lemma {:induction false} StrayDirTruthful(m: Mode, path: Path, dir: Node)
    requires dir.Dir?
    ensures Truthful(m, StrayDirOps(m, path, dir), path, dir)
    decreases dir, 0
  {
    hide Truthful;
    var parts := map x | x in dir.children :: StrayOps(m, path + [x], dir.children[x]);
    forall x | x in dir.children
      ensures Truthful(m, parts[x], path, dir)
    {
      StrayTruthful(m, path + [x], dir.children[x]);
      TruthfulUp(m, StrayOps(m, path + [x], dir.children[x]), path, x, dir);
    }
    ConcatTruthful(m, m.order(path, dir.children.Keys), parts, path, dir);
  }

  /** What is true of a version is true of the framework. */
  lemma TruthfulVersion(m: Mode, ops: seq<Op>, at: Path, v: string, root: Node)
    requires v in VersionsOf(root) && Truthful(m, ops, at + ["Versions", v], VersionsOf(root)[v])
    ensures Truthful(m, ops, at, root)
  {
    hide Truthful;
    assert at + ["Versions", v] == at + ["Versions"] + [v];
    TruthfulUp(m, ops, at + ["Versions"], v, root.children["Versions"]);
    TruthfulUp(m, ops, at, "Versions", root);
  }

  lemma InventoryTruthful(m: Mode, b: Layout, at: Path, root: Node, depth: nat)
    ensures Truthful(m, InventoryOps(m, b, at, root, depth), at, root)
  {
    hide Truthful, StrayDirOps;
    PlainTruthful(m, at, root);
    var parts := StrayParts(m, b, at, root);
    forall v | v in parts
      ensures Truthful(m, parts[v], at, root)
    {
      StrayDirTruthful(m, at + ["Versions", v], VersionsOf(root)[v]);
      TruthfulVersion(m, StrayDirOps(m, at + ["Versions", v], VersionsOf(root)[v]), at, v, root);
      TruthfulAppend(m, [AddVersion], StrayDirOps(m, at + ["Versions", v], VersionsOf(root)[v]), at, root);
    }
    ConcatTruthful(m, m.order(at + ["Versions"], OtherVersions(b, root)), parts, at, root);
  }

  lemma NamelessTruthful(m: Mode, ops: seq<Op>, at: Path, node: Node)
    requires forall op <- ops :: !NamesFile(op)
    ensures Truthful(m, ops, at, node)
  {
  }

  lemma Enters(m: Mode, at: Path, keys: set<string>)
    ensures forall op <- EnterOps(m, at, keys) :: op.Entry?
  {
    forall op <- EnterOps(m, at, keys)
      ensures op.Entry?
    {
      var x := InConcat(m.order(at, keys), EntryParts(at, keys), op);
    }
  }

  /** The root of a framework is only checked and entered. */
  lemma LayoutEnters(m: Mode, b: Layout, at: Path, root: Node)
    ensures forall op <- LayoutOps(m, b, at, root) :: op.Entry? || op.Refuse?
  {
    if b.Versioned() {
      SameRoot(m, m, b, root);
      Enters(m, at, if root.Dir? then root.children.Keys else {});
      Enters(m, at + ["Versions"], VersionsOf(root).Keys);
    }
    hide FrameworkRootOk, EnterOps;
  }

  lemma {:induction false} WalkTruthful(m: Mode, b: Layout, at: Path, root: Node, depth: nat)
    ensures Truthful(m, WalkOps(m, b, at, root, depth), at, root)
    decreases root, 2
  {
    hide DirOps, Truthful;
    PlainTruthful(m, at, root);
    if !b.Versioned() {
      assert at + [] == at;
      DirTruthful(m, b, at, [], root, depth);
    } else if b.base[1] in VersionsOf(root) {
      var v, dir := b.base[1], VersionsOf(root)[b.base[1]];
      DirTruthful(m, b, at, b.base, dir, depth);
      assert b.base == ["Versions", v];
      TruthfulVersion(m, DirOps(m, b, at, b.base, dir, depth), at, v, root);
    }
  }

  lemma TargetsTruthful(m: Mode, at: Path, name: Path, root: Node)
    ensures Truthful(m, TargetOps(at, name, root), at, root)
  {
    SelfPath(at, name);
    hide Lookup;
  }

  lemma {:induction false} TreeTruthful(m: Mode, b: Layout, at: Path, root: Node, depth: nat)
    ensures Truthful(m, TreeOps(m, b, at, root, depth), at, root)
    decreases root, 3
  {
    LayoutEnters(m, b, at, root);
    NamelessTruthful(m, LayoutOps(m, b, at, root), at, root);
    TargetsTruthful(m, at, b.executable, root);
    TargetsTruthful(m, at, b.Resources(), root);
    WalkTruthful(m, b, at, root, depth);
    InventoryTruthful(m, b, at, root, depth);
    hide Truthful, LayoutOps, TargetOps, WalkOps, InventoryOps, Layout.Resources;
    var layout, targets := LayoutOps(m, b, at, root),
      TargetOps(at, b.executable, root) + TargetOps(at, b.Resources(), root);
    var walk := WalkOps(m, b, at, root, depth);
    TruthfulAppend(m, TargetOps(at, b.executable, root), TargetOps(at, b.Resources(), root), at, root);
    TruthfulAppend(m, layout, targets, at, root);
    TruthfulAppend(m, layout + targets, walk, at, root);
    TruthfulAppend(m, layout + targets + walk, InventoryOps(m, b, at, root, depth), at, root);
  }

  lemma {:induction false} BundleTruthful(m: Mode, b: Layout, at: Path, root: Node, depth: nat)
    ensures Truthful(m, BundleOps(m, b, at, root, depth), at, root)
    decreases root, 4
  {
    TreeTruthful(m, b, at, root, depth);
    LayoutEnters(m, b, at, root);
    hide TreeOps, LayoutOps, Lookup;
  }

  lemma {:induction false} AlternateTruthful(m: Mode, b: Layout, at: Path, node: Node, depth: nat)
    ensures Truthful(m, AlternateOps(m, b, at, node, depth), at, node)
    decreases node, 5
  {
    hide Truthful, BundleOps;
    PlainTruthful(m, at, node);
    var parts := AlternateParts(m, b, at, node, depth);
    forall v | v in parts
      ensures Truthful(m, parts[v], at, node)
    {
      assert parts[v] == AlternateOf(m, b, at, node, depth, v);
      PlainTruthful(m, at, node);
      if v in b.others {
        BundleTruthful(m, b.As(v), at, node, depth);
        TruthfulAppend(m, [AddVersion], BundleOps(m, b.As(v), at, node, depth), at, node);
      } else {
        TruthfulAppend(m, [AddVersion], [Refuse], at, node);
      }
    }
    ConcatTruthful(m, m.order(at + ["Versions"], OtherVersions(b, node)), parts, at, node);
  }

  lemma {:induction false} NodeTruthful(m: Mode, b: Layout, at: Path, name: Path, node: Node, depth: nat)
    requires name != []
    ensures Truthful(m, NodeOps(m, b, at, name, node, depth), at + name, node)
    decreases node, 8
  {
    RoleTruthful(m, b, at, name, node, depth);
    NodeShape(m, b, at, name, node, depth);
    hide NodeOps, RoleOps, Truthful;
    PlainTruthful(m, at + name, node);
    TruthfulAppend(m, [Entry(at + name)], RoleOps(m, b, at, name, node, depth), at + name, node);
  }

  lemma {:induction false} RoleTruthful(m: Mode, b: Layout, at: Path, name: Path, node: Node, depth: nat)
    requires name != []
    ensures Truthful(m, RoleOps(m, b, at, name, node, depth), at + name, node)
    decreases node, 7
  {
    LeafTruthful(m, b, at, name, node);
    hide NodeOps, RoleOf, DirOps, ChildOps, LinkOps, FileOps, Truthful, Lookup;
    PlainTruthful(m, at + name, node);
    match RoleOf(m, b, name, node)
    case Folder =>
      DirTruthful(m, b, at, name, node, depth);
    case ChildBundle =>
      ChildTruthful(m, at + name, node, depth + 1);
    case _ =>
  }

  lemma PlainTruthful(m: Mode, path: Path, node: Node)
    ensures Truthful(m, [Entry(path)], path, node) && Truthful(m, [Refuse], path, node) && Truthful(m, [], path, node)
    ensures Truthful(m, [AddVersion], path, node) && Truthful(m, [RegularFile(path, node.inode)], path, node)
    ensures node.File? ==> Truthful(m, [SealFile(path, Exempted)], path, node)
  {
    hide Lookup;
    assert path[|path|..] == [] && Lookup(node, []) == Some(node) by {
      SelfPath(path, []);
      LookupSelf(node);
    }
  }

  lemma LookupSelf(node: Node)
    ensures Lookup(node, []) == Some(node)
  {
  }

  lemma {:induction false} DirTruthful(m: Mode, b: Layout, at: Path, name: Path, dir: Node, depth: nat)
    ensures Truthful(m, DirOps(m, b, at, name, dir, depth), at + name, dir)
    decreases dir, 1
  {
    hide ListOps, Lookup;
    if dir.Dir? {
      ListTruthful(m, b, at, name, dir, m.order(at + name, dir.children.Keys), depth);
    }
  }

  lemma TruthfulAppend(m: Mode, xs: seq<Op>, ys: seq<Op>, at: Path, node: Node)
    requires Truthful(m, xs, at, node) && Truthful(m, ys, at, node)
    ensures Truthful(m, xs + ys, at, node)
  {
  }

  lemma LeafTruthful(m: Mode, b: Layout, at: Path, name: Path, node: Node)
    requires name != []
    ensures node.Link? ==> Truthful(m, LinkOps(m, b, at, name, node), at + name, node)
    ensures node.File? ==> forall nested :: Truthful(m, FileOps(m, b, at, name, node, nested), at + name, node)
  {
    hide Included, Optional, LinkOk, Lower, FileOps;
    SelfPath(at + name, []);
    assert at + name + [] == at + name;
    if node.File? {
      forall nested
        ensures Truthful(m, FileOps(m, b, at, name, node, nested), at + name, node)
      {
        FileTruthful(m, b, at, name, node, nested);
      }
    }
  }

  lemma FileTruthful(m: Mode, b: Layout, at: Path, name: Path, node: Node, nested: bool)
    requires node.File?
    ensures Truthful(m, FileOps(m, b, at, name, node, nested), at + name, node)
  {
    hide Included, Optional, Truthful, SealOps, Layout.Rel, Layout.Resources;
    var path := at + name;
    var target := if nested && name != b.executable then [WriteTarget(path, node.inode)] else [];
    var sealed := SealOps(m, path, b.Rel(name), node, nested);
    SealsTell(m, path, b.Rel(name), node, nested);
    var ops := [RegularFile(path, node.inode)] + target;
    assert FileOps(m, b, at, name, node, nested) in {ops, ops + sealed} by {
      assert ops + [] == ops;
    }
    OwnPath(m, ops, path, node);
    OwnPath(m, ops + sealed, path, node);
  }

  lemma SealsTell(m: Mode, path: Path, rel: Path, node: Node, nested: bool)
    requires node.File?
    ensures forall op <- SealOps(m, path, rel, node, nested) | NamesFile(op) :: op.path == path && TrueOf(m, op, node)
  {
    hide Included, Optional;
  }

  lemma OwnPath(m: Mode, ops: seq<Op>, at: Path, node: Node)
    requires forall op <- ops | NamesFile(op) :: op.path == at && TrueOf(m, op, node)
    ensures Truthful(m, ops, at, node)
  {
    SelfPath(at, []);
    assert at[|at|..] == [];
  }

  lemma {:induction false} ChildTruthful(m: Mode, at: Path, node: Node, depth: nat)
    ensures Truthful(m, ChildOps(m, at, node, depth), at, node)
    decreases node, 6
  {
    if node.Dir? && node.layout.Some? {
      BundleTruthful(m, node.layout.value, at, node, depth);
      AlternateTruthful(m, node.layout.value, at, node, depth);
      SelfPath(at, []);
      LookupSelf(node);
      assert at[|at|..] == [];
    }
    hide BundleOps, AlternateOps, Lookup;
  }

  predicate IsSeal(op: Op) {
    op.SealFile? || op.SealLegacy?
  }

  /** Seals lie at `at` or below it, and no path is sealed twice. */
  ghost predicate SealsApart(ops: seq<Op>, at: Path) {
    && (forall op <- ops | IsSeal(op) :: at <= op.path)
    && (forall i, j | 0 <= i < j < |ops| :: !SameSeal(ops[i], ops[j]))
  }

  predicate SameSeal(a: Op, b: Op) {
    (a.SealFile? && b.SealFile? && a.path == b.path) || (a.SealLegacy? && b.SealLegacy? && a.path == b.path)
  }

  /** Seals strictly below `at`. */
  ghost predicate SealsBelow(ops: seq<Op>, at: Path) {
    SealsApart(ops, at) && forall op <- ops | IsSeal(op) :: at < op.path
  }

  lemma ApartAppend(xs: seq<Op>, ys: seq<Op>, at: Path)
    requires SealsApart(xs, at) && SealsApart(ys, at)
    requires forall x <- xs, y <- ys :: !SameSeal(x, y)
    ensures SealsApart(xs + ys, at)
  {
    var zs := xs + ys;
    forall i, j | 0 <= i < j < |zs|
      ensures !SameSeal(zs[i], zs[j])
    {
      if i < |xs| <= j {
        assert zs[i] in xs && zs[j] in ys;
      }
    }
  }

  /** Seals under different names of one directory are apart. */
  lemma SiblingsApart(xs: seq<Op>, ys: seq<Op>, at: Path, names: seq<string>, last: string)
    requires SealsBelow(xs, at) && SealsApart(ys, at + [last]) && last !in names
    requires SealsUnder(xs, at, names)
    ensures SealsBelow(xs + ys, at)
    ensures SealsUnder(xs + ys, at, names + [last])
  {
    forall y <- ys | IsSeal(y)
      ensures at < y.path && y.path[|at|] == last
    {
      assert (at + [last])[|at|] == last && at + [last] <= y.path;
    }
    ApartAppend(xs, ys, at);
  }

  lemma {:induction false} ListSeals(m: Mode, b: Layout, at: Path, name: Path, dir: Node, names: seq<string>,
                                     depth: nat)
    requires dir.Dir? && Enumerates(m) && Distinct(names)
    ensures SealsBelow(ListOps(m, b, at, name, dir, names, depth), at + name)
    ensures SealsUnder(ListOps(m, b, at, name, dir, names, depth), at + name, names)
    decreases dir, 0, |names|
  {
    hide NodeOps, SealsBelow, SealsApart, SealsUnder;
    if names == [] {
      NoSeals(at + name);
    } else {
      var front, last := names[..|names| - 1], names[|names| - 1];
      var earlier := ListOps(m, b, at, name, dir, front, depth);
      FrontDistinct(names);
      ListSeals(m, b, at, name, dir, front, depth);
      assert names == front + [last];
      if last in dir.children {
        NodeSeals(m, b, at, name + [last], dir.children[last], depth);
        assert at + (name + [last]) == at + name + [last];
        SiblingsApart(earlier, NodeOps(m, b, at, name + [last], dir.children[last], depth), at + name, front, last);
      } else {
        assert ListOps(m, b, at, name, dir, names, depth) == earlier;
        MoreNames(earlier, at + name, front, last);
      }
    }
  }

  lemma NoSeals(at: Path)
    ensures SealsBelow([], at) && SealsUnder([], at, [])
  {
  }

  lemma FrontDistinct(names: seq<string>)
    requires Distinct(names) && names != []
    ensures Distinct(names[..|names| - 1]) && names[|names| - 1] !in names[..|names| - 1]
  {
  }

  lemma MoreNames(ops: seq<Op>, at: Path, names: seq<string>, last: string)
    requires SealsUnder(ops, at, names)
    ensures SealsUnder(ops, at, names + [last])
  {
  }

  /** Seals under one of these names of the directory. */
  ghost predicate SealsUnder(ops: seq<Op>, at: Path, names: seq<string>) {
    forall op <- ops | IsSeal(op) :: |op.path| > |at| && op.path[|at|] in names
  }

  lemma ListedOnce(m: Mode, path: Path, keys: set<string>)
    requires Enumerates(m)
    ensures Distinct(m.order(path, keys))
  {
    CountsDistinct(m.order(path, keys));
  }

  /** Nothing is sealed, and no nested code is counted. */
  ghost predicate Unsealed(ops: seq<Op>) {
    forall op <- ops :: !IsSeal(op) && !op.AddChild?
  }

  /** Effects that seal nothing keep the seals of others apart. */
  lemma UnsealedAround(xs: seq<Op>, ys: seq<Op>, zs: seq<Op>, at: Path)
    requires Unsealed(xs) && SealsBelow(ys, at) && Unsealed(zs)
    ensures SealsBelow(xs + ys + zs, at)
  {
    UnsealedApart(xs, at);
    UnsealedApart(zs, at);
    ApartAppend(xs, ys, at);
    ApartAppend(xs + ys, zs, at);
  }

  lemma UnsealedApart(ops: seq<Op>, at: Path)
    requires Unsealed(ops)
    ensures SealsBelow(ops, at)
  {
    assert forall i | 0 <= i < |ops| :: ops[i] in ops;
  }

  lemma ConcatUnsealed(names: seq<string>, parts: map<string, seq<Op>>)
    requires forall x | x in parts :: Unsealed(parts[x])
    ensures Unsealed(Concat(names, parts))
  {
    forall op <- Concat(names, parts)
      ensures !IsSeal(op) && !op.AddChild?
    {
      var x := InConcat(names, parts, op);
    }
  }

  lemma {:induction false} StrayUnsealed(m: Mode, path: Path, node: Node)
    ensures Unsealed(StrayOps(m, path, node))
    decreases node, 1
  {
    if node.Dir? {
      StrayDirUnsealed(m, path, node);
    }
  }

  lemma {:induction false} StrayDirUnsealed(m: Mode, path: Path, dir: Node)
    requires dir.Dir?
    ensures Unsealed(StrayDirOps(m, path, dir))
    decreases dir, 0
  {
    var parts := map x | x in dir.children :: StrayOps(m, path + [x], dir.children[x]);
    forall x | x in parts
      ensures Unsealed(parts[x])
    {
      StrayUnsealed(m, path + [x], dir.children[x]);
    }
    ConcatUnsealed(m.order(path, dir.children.Keys), parts);
  }

  /** Versions that are not selected are not sealed. */
  lemma InventoryUnsealed(m: Mode, b: Layout, at: Path, root: Node, depth: nat)
    ensures Unsealed(InventoryOps(m, b, at, root, depth))
  {
    var parts := StrayParts(m, b, at, root);
    hide StrayDirOps;
    forall v | v in parts
      ensures Unsealed(parts[v])
    {
      StrayDirUnsealed(m, at + ["Versions", v], VersionsOf(root)[v]);
    }
    ConcatUnsealed(m.order(at + ["Versions"], OtherVersions(b, root)), parts);
  }

  lemma {:induction false} WalkSeals(m: Mode, b: Layout, at: Path, root: Node, depth: nat)
    requires Enumerates(m)
    ensures SealsBelow(WalkOps(m, b, at, root, depth), at + b.Start())
    decreases root, 2
  {
    UnsealedApart([Refuse], at + b.Start());
    if !b.Versioned() {
      DirSeals(m, b, at, [], root, depth);
    } else if b.base[1] in VersionsOf(root) {
      DirSeals(m, b, at, b.base, VersionsOf(root)[b.base[1]], depth);
    }
    hide DirOps, SealsBelow;
  }

  lemma {:induction false} DirSeals(m: Mode, b: Layout, at: Path, name: Path, dir: Node, depth: nat)
    requires Enumerates(m)
    ensures SealsBelow(DirOps(m, b, at, name, dir, depth), at + name)
    decreases dir, 1
  {
    hide ListOps, SealsBelow;
    UnsealedApart([], at + name);
    if dir.Dir? {
      ListedOnce(m, at + name, dir.children.Keys);
      ListSeals(m, b, at, name, dir, m.order(at + name, dir.children.Keys), depth);
    }
  }

  lemma {:induction false} TreeSeals(m: Mode, b: Layout, at: Path, root: Node, depth: nat)
    requires Enumerates(m)
    ensures SealsBelow(TreeOps(m, b, at, root, depth), at + b.Start())
    decreases root, 3
  {
    WalkSeals(m, b, at, root, depth);
    FrontUnsealed(m, b, at, root);
    InventoryUnsealed(m, b, at, root, depth);
    hide LayoutOps, TargetOps, WalkOps, InventoryOps, SealsBelow, Layout.Resources;
    var front := LayoutOps(m, b, at, root) + (TargetOps(at, b.executable, root) + TargetOps(at, b.Resources(), root));
    UnsealedAround(front, WalkOps(m, b, at, root, depth), InventoryOps(m, b, at, root, depth), at + b.Start());
  }

  lemma FrontUnsealed(m: Mode, b: Layout, at: Path, root: Node)
    ensures Unsealed(LayoutOps(m, b, at, root)
                     + (TargetOps(at, b.executable, root) + TargetOps(at, b.Resources(), root)))
  {
    LayoutEnters(m, b, at, root);
    hide LayoutOps, Lookup, Layout.Resources;
  }

  lemma LayoutUnsealed(m: Mode, b: Layout, at: Path, root: Node)
    ensures Unsealed(LayoutOps(m, b, at, root))
  {
    LayoutEnters(m, b, at, root);
    hide LayoutOps;
  }

  lemma FurtherUp(ops: seq<Op>, at: Path, rest: Path)
    requires SealsBelow(ops, at + rest)
    ensures SealsBelow(ops, at)
  {
  }

  lemma {:induction false} BundleSeals(m: Mode, b: Layout, at: Path, root: Node, depth: nat)
    requires Enumerates(m)
    ensures SealsBelow(BundleOps(m, b, at, root, depth), at + b.Start())
    decreases root, 4
  {
    hide LayoutOps, TreeOps, SealsBelow, Layout.Start;
    TreeSeals(m, b, at, root, depth);
    LayoutUnsealed(m, b, at, root);
    UnsealedApart(LayoutOps(m, b, at, root), at + b.Start());
    var middle := if m.recurse then TreeOps(m, b, at, root, depth) else LayoutOps(m, b, at, root);
    UnsealedAround([AddBytes(b.infoSize)], middle, CodeOps(m, b), at + b.Start());
  }

  lemma {:induction false} AlternateSeals(m: Mode, b: Layout, at: Path, node: Node, depth: nat)
    requires Enumerates(m)
    ensures SealsBelow(AlternateOps(m, b, at, node, depth), at + ["Versions"])
    ensures forall op <- AlternateOps(m, b, at, node, depth) | IsSeal(op) ::
      |op.path| > |at| + 1 && op.path[|at| + 1] in OtherVersions(b, node)
    decreases node, 5
  {
    var path, others, parts := at + ["Versions"], OtherVersions(b, node), AlternateParts(m, b, at, node, depth);
    hide BundleOps, SealsBelow;
    UnsealedApart([], path);
    if m.verifyVersions {
      var names := m.order(path, others);
      forall v | v in parts
        ensures SealsBelow(parts[v], path + [v])
      {
        AlternateSealsOne(m, b, at, node, depth, v);
      }
      ListedOnce(m, path, others);
      ConcatSeals(names, parts, path);
      assert forall v <- names :: v in multiset(names);
      assert forall v <- names :: v in others;
      hide AlternateParts;
    }
  }

  lemma {:induction false} AlternateSealsOne(m: Mode, b: Layout, at: Path, node: Node, depth: nat, v: string)
    requires Enumerates(m) && v in OtherVersions(b, node)
    ensures SealsBelow(AlternateParts(m, b, at, node, depth)[v], at + ["Versions"] + [v])
    decreases node, 5, 0
  {
    var path := at + ["Versions"] + [v];
    hide BundleOps, SealsBelow;
    UnsealedApart([AddVersion] + [Refuse], path);
    if v in b.others {
      assert at + b.As(v).Start() == path;
      BundleSeals(m, b.As(v), at, node, depth);
      UnsealedAround([AddVersion], BundleOps(m, b.As(v), at, node, depth), [], path);
      assert [AddVersion] + BundleOps(m, b.As(v), at, node, depth) + []
          == [AddVersion] + BundleOps(m, b.As(v), at, node, depth);
    }
  }

  lemma {:induction false} ConcatSeals(names: seq<string>, parts: map<string, seq<Op>>, at: Path)
    requires Distinct(names) && forall x | x in parts :: SealsBelow(parts[x], at + [x])
    ensures SealsBelow(Concat(names, parts), at) && SealsUnder(Concat(names, parts), at, names)
    decreases |names|
  {
    hide SealsApart, SealsUnder;
    if names == [] {
      NoSeals(at);
    } else {
      var front, last := names[..|names| - 1], names[|names| - 1];
      FrontDistinct(names);
      ConcatSeals(front, parts, at);
      assert names == front + [last];
      UnsealedApart([], at + [last]);
      SiblingsApart(Concat(front, parts), PartOf(last, parts), at, front, last);
    }
  }

  lemma {:induction false} NodeSeals(m: Mode, b: Layout, at: Path, name: Path, node: Node, depth: nat)
    requires name != [] && Enumerates(m)
    ensures SealsApart(NodeOps(m, b, at, name, node, depth), at + name)
    decreases node, 7
  {
    hide NodeOps, RoleOps, RoleOf, ChildOps, DirOps, SealsApart;
    NodeShape(m, b, at, name, node, depth);
    var role, ops := RoleOf(m, b, name, node), RoleOps(m, b, at, name, node, depth);
    if role.Folder? {
      FolderOps(m, b, at, name, node, depth);
      DirSeals(m, b, at, name, node, depth);
      BelowIsApart(ops, at + name);
      EntryFirst(at + name, ops);
    } else if role.ChildBundle? {
      FolderOps(m, b, at, name, node, depth);
      ChildSeals(m, at + name, node, depth + 1);
      EntryFirst(at + name, ops);
    } else {
      EntrySeals(m, b, at, name, node, depth);
    }
  }

  lemma FolderOps(m: Mode, b: Layout, at: Path, name: Path, node: Node, depth: nat)
    requires name != []
    ensures RoleOf(m, b, name, node).Folder? ==>
      RoleOps(m, b, at, name, node, depth) == DirOps(m, b, at, name, node, depth)
    ensures RoleOf(m, b, name, node).ChildBundle? ==>
      RoleOps(m, b, at, name, node, depth) == ChildOps(m, at + name, node, depth + 1)
  {
    hide RoleOf, DirOps, ChildOps;
  }

  lemma BelowIsApart(ops: seq<Op>, at: Path)
    requires SealsBelow(ops, at)
    ensures SealsApart(ops, at)
  {
  }

  lemma EntrySeals(m: Mode, b: Layout, at: Path, name: Path, node: Node, depth: nat)
    requires name != [] && !RoleOf(m, b, name, node).Folder? && !RoleOf(m, b, name, node).ChildBundle?
    ensures SealsApart([Entry(at + name)] + RoleOps(m, b, at, name, node, depth), at + name)
  {
    hide RoleOf, ChildOps, DirOps, LinkOps, FileOps, SealsApart;
    LeafSeals(m, b, at, name, node);
    PlainApart(at + name, node.inode);
  }

  lemma PlainApart(at: Path, inode: nat)
    ensures SealsApart([Entry(at)] + [], at) && SealsApart([Entry(at)] + [Refuse], at)
    ensures SealsApart([Entry(at)] + [RegularFile(at, inode)], at)
    ensures SealsApart([Entry(at)] + [SealFile(at, Exempted)], at)
  {
  }

  /** Effects that seal nothing may come before. */
  lemma PlainFirst(xs: seq<Op>, ys: seq<Op>, at: Path)
    requires SealsApart(ys, at) && forall x <- xs :: !IsSeal(x)
    ensures SealsApart(xs + ys, at)
  {
    assert SealsApart(xs, at) by {
      assert forall i | 0 <= i < |xs| :: xs[i] in xs;
    }
    ApartAppend(xs, ys, at);
  }

  lemma SealOpsApart(m: Mode, path: Path, rel: Path, node: Node, nested: bool)
    requires node.File?
    ensures SealsApart(SealOps(m, path, rel, node, nested), path)
  {
    hide Included, Optional;
    var legacy := if Included(rel, true) then [SealLegacy(path, Hashed(m.hash1(node.content), Optional(rel, true)))]
      else [];
    var files := if Included(rel, false) then [SealFile(path, Hashed(m.hash2(node.content), Optional(rel, false)))]
      else [];
    ApartAppend(legacy, files, path);
    PlainFirst([AddBytes(node.size)], legacy + files, path);
    assert [AddBytes(node.size)] + legacy + files == [AddBytes(node.size)] + (legacy + files);
  }

  lemma LeafSeals(m: Mode, b: Layout, at: Path, name: Path, node: Node)
    requires name != []
    ensures node.Link? ==> SealsApart([Entry(at + name)] + LinkOps(m, b, at, name, node), at + name)
    ensures node.File? ==> forall nested ::
      SealsApart([Entry(at + name)] + FileOps(m, b, at, name, node, nested), at + name)
  {
    hide LinkOps, FileOps, SealsApart;
    if node.Link? {
      LinkSeals(m, b, at, name, node);
    }
    if node.File? {
      forall nested
        ensures SealsApart([Entry(at + name)] + FileOps(m, b, at, name, node, nested), at + name)
      {
        FileSeals(m, b, at, name, node, nested);
      }
    }
  }

  lemma LinkSeals(m: Mode, b: Layout, at: Path, name: Path, node: Node)
    requires name != [] && node.Link?
    ensures SealsApart([Entry(at + name)] + LinkOps(m, b, at, name, node), at + name)
  {
    hide Included, Optional, LinkOk, Lower, Layout.Rel;
  }

  lemma FileSeals(m: Mode, b: Layout, at: Path, name: Path, node: Node, nested: bool)
    requires name != [] && node.File?
    ensures SealsApart([Entry(at + name)] + FileOps(m, b, at, name, node, nested), at + name)
  {
    hide SealsApart, SealOps, Layout.Rel, Layout.Resources;
    var path, rel := at + name, b.Rel(name);
    var sealed := if BoundBySignature(b, name) then [] else SealOps(m, path, rel, node, nested);
    var target := if nested && name != b.executable then [WriteTarget(path, node.inode)] else [];
    var front := [Entry(path), RegularFile(path, node.inode)] + target;
    SealOpsApart(m, path, rel, node, nested);
    NothingApart(path);
    PlainFirst(front, sealed, path);
    assert [Entry(path)] + FileOps(m, b, at, name, node, nested) == front + sealed;
  }

  lemma NothingApart(at: Path)
    ensures SealsApart([], at)
  {
  }

  lemma EntryFirst(at: Path, ops: seq<Op>)
    requires SealsApart(ops, at)
    ensures SealsApart([Entry(at)] + ops, at)
  {
    ApartAppend([Entry(at)], ops, at);
  }

  lemma {:induction false} ChildSeals(m: Mode, at: Path, node: Node, depth: nat)
    requires Enumerates(m)
    ensures SealsApart(ChildOps(m, at, node, depth), at)
    decreases node, 6
  {
    if depth <= MAX_DEPTH && node.Dir? && node.layout.Some? {
      var b := node.layout.value;
      VersionsApart(m, b, at, node, depth);
      hide BundleOps, AlternateOps;
      var ops := BundleOps(m, b, at, node, depth) + AlternateOps(m, b, at, node, depth);
      ApartAppend(ops, [SealFile(at, Bundle)], at);
      ApartAppend([AddChild], ops + [SealFile(at, Bundle)], at);
    }
  }

  /** The seals of a bundle and those of its other versions. */
  lemma {:induction false} VersionsApart(m: Mode, b: Layout, at: Path, node: Node, depth: nat)
    requires Enumerates(m)
    ensures SealsBelow(BundleOps(m, b, at, node, depth) + AlternateOps(m, b, at, node, depth), at)
    decreases node, 6, 0
  {
    BundleSeals(m, b, at, node, depth);
    AlternateSeals(m, b, at, node, depth);
    hide BundleOps, AlternateOps, VersionsOf;
    var main, others := BundleOps(m, b, at, node, depth), AlternateOps(m, b, at, node, depth);
    FurtherUp(main, at, b.Start());
    FurtherUp(others, at, ["Versions"]);
    forall x <- main, y <- others | IsSeal(x) && IsSeal(y)
      ensures x.path != y.path
    {
      assert x.path[|at| + 1] == (at + b.Start())[|at| + 1] == b.base[1];
    }
    ApartAppend(main, others, at);
  }

  /** Whatever a scan does, its effects agree about every path they name. */
  lemma EffectsConsistent(m: Mode, b: Layout, root: Node)
    requires Enumerates(m)
    ensures Consistent(TreeOps(m, b, [], root, 0))
  {
    TreeTruthful(m, b, [], root, 0);
    TreeSeals(m, b, [], root, 0);
    hide TreeOps, Lookup;
    var ops := TreeOps(m, b, [], root, 0);
    forall i, j | 0 <= i < j < |ops|
      ensures !Conflict(ops[i], ops[j])
    {
      assert ops[i] in ops && ops[j] in ops;
      assert !SameSeal(ops[i], ops[j]);
    }
  }

  /**
   * Signing lists directories as the filesystem does, verification in sorted order: both reach the
   * same verdict, and on success note down the same seals.
   */
  lemma ScanAnyOrder(m: Mode, n: Mode, b: Layout, root: Node)
    requires n == Reordered(m, n.order) && Enumerates(m) && Enumerates(n)
    ensures Run(m.validPath, START, TreeOps(m, b, [], root, 0)) == Run(n.validPath, START, TreeOps(n, b, [], root, 0))
  {
    EffectsConsistent(m, b, root);
    TreeReordered(m, n, b, [], root, 0);
    RunAnyOrder(m.validPath, TreeOps(m, b, [], root, 0), TreeOps(n, b, [], root, 0));
  }

  lemma Listed(m: Mode, b: Layout, at: Path, name: Path, dir: Node, names: seq<string>, x: string, depth: nat, op: Op)
    requires dir.Dir? && x in names && x in dir.children && op in NodeOps(m, b, at, name + [x], dir.children[x], depth)
    ensures op in ListOps(m, b, at, name, dir, names, depth)
  {
    hide NodeOps;
    if x != names[|names| - 1] {
      SplitLast(names);
      Listed(m, b, at, name, dir, names[..|names| - 1], x, depth, op);
    }
  }

  lemma DirContains(m: Mode, b: Layout, at: Path, name: Path, dir: Node, x: string, depth: nat, op: Op)
    requires Enumerates(m) && dir.Dir? && x in dir.children
      && op in NodeOps(m, b, at, name + [x], dir.children[x], depth)
    ensures op in DirOps(m, b, at, name, dir, depth)
  {
    var names := m.order(at + name, dir.children.Keys);
    assert x in multiset(names);
    Listed(m, b, at, name, dir, names, x, depth, op);
  }

  /**
   * What a versioned framework holds outside the selected version: links that stand for entries of the
   * current version, plain metadata files, and the contents of its other versions.
   */
  ghost predicate Unselected(b: Layout, name: Path, n: Node)
    requires name != []
  {
    && b.Versioned() && !(b.base <= name)
    && if |name| == 1 then RootAlias(b, name[0], n) || (name[0] in [".DS_Store", "module.map"] && n.File? && !n.runs)
       else if |name| > 2 then name[0] == "Versions" && name[1] != b.base[1]
       else name[0] == "Versions" && if name[1] == "Current" then n.Link? && Undotted(n.target) == b.current
                                     else name[1] == ".DS_Store" && n.File? && !n.runs
  }

  /** The files that no envelope of this bundle seals, by explicit rule. */
  ghost predicate Exempt(b: Layout, name: Path, n: Node)
    requires name != []
  {
    var rel := b.Rel(name);
    || (name == [".DS_Store"] && n.File?)
    || name == b.executable || rel == ["Info.plist"]
    || (|rel| > 1 && rel[0] == "_CodeSignature")
    || (Carrier(name, n) && !(b.base <= name))
    || Unselected(b, name, n)
    || !Included(rel, false)
  }

  /** A seal of the path itself, or a sealed child bundle around it. */
  ghost predicate SealedIn(ops: seq<Op>, at: Path, name: Path) {
    || (exists seal :: SealFile(at + name, seal) in ops)
    || (exists k :: 0 < k < |name| && SealFile(at + name[..k], Bundle) in ops)
  }

  lemma LeafSealed(m: Mode, b: Layout, at: Path, name: Path, node: Node, depth: nat)
    requires name != [] && (node.File? || node.Link?)
    requires Refuse !in NodeOps(m, b, at, name, node, depth)
    ensures SealedIn(NodeOps(m, b, at, name, node, depth), at, name) || Exempt(b, name, node)
  {
    hide Lower, Included, Optional, LinkOk, Unselected, NestedInside, NestedContainer, FrameworkResource;
    var ops, rel := NodeOps(m, b, at, name, node, depth), b.Rel(name);
    var role := RoleOf(m, b, name, node);
    assert role.Refused? ==> Refuse in ops;
    if role.AttributeFile? {
      assert SealFile(at + name, Exempted) in ops;
    } else if role.Member? && node.Link? && Included(rel, false) {
      assert Refuse in LinkOps(m, b, at, name, node) ==> Refuse in ops;
      assert SealFile(at + name, Linked(node.target, Optional(rel, false))) in ops;
    } else if role.Member? && node.File? && !Exempt(b, name, node) {
      FileSealed(m, b, at, name, node, role.nested, ops);
    }
  }

  lemma FileSealed(m: Mode, b: Layout, at: Path, name: Path, node: Node, nested: bool, ops: seq<Op>)
    requires name != [] && node.File? && !Exempt(b, name, node)
    requires name != b.Resources()
    requires forall op <- FileOps(m, b, at, name, node, nested) :: op in ops
    requires Refuse !in ops
    ensures SealedIn(ops, at, name)
  {
    hide Included, Optional;
    var rel := b.Rel(name);
    var inner := SealOps(m, at + name, rel, node, nested);
    assert forall op <- inner :: op in FileOps(m, b, at, name, node, nested);
    if nested {
      assert SealFile(at + name, Code(node.content)) in inner;
    } else {
      assert SealFile(at + name, Hashed(m.hash2(node.content), Optional(rel, false))) in inner;
    }
  }

  /** Following a path down from `name`: it ends sealed, inside a sealed child, or exempt. */
  lemma {:induction false} PathSealed(m: Mode, b: Layout, at: Path, name: Path, node: Node, rest: Path, depth: nat)
    requires Enumerates(m) && name != [] && Lookup(node, rest).Some?
    requires Lookup(node, rest).value.File? || Lookup(node, rest).value.Link?
    requires Refuse !in NodeOps(m, b, at, name, node, depth)
    ensures SealedIn(NodeOps(m, b, at, name, node, depth), at, name + rest)
      || Exempt(b, name + rest, Lookup(node, rest).value)
    decreases |rest|
  {
    hide RoleOf, NodeOps, Exempt, SealedIn;
    if rest == [] {
      assert name + rest == name;
      LeafSealed(m, b, at, name, node, depth);
    } else {
      var x, child := rest[0], node.children[rest[0]];
      DirectoryRole(m, b, at, name, node, depth);
      if RoleOf(m, b, name, node).ChildBundle? {
        InsideChild(m, b, at, name, node, rest, depth);
      } else {
        var ops, inner := NodeOps(m, b, at, name, node, depth), NodeOps(m, b, at, name + [x], child, depth);
        FolderContains(m, b, at, name, node, x, depth);
        assert Refuse !in inner;
        PathSealed(m, b, at, name + [x], child, rest[1..], depth);
        assert name + [x] + rest[1..] == name + rest;
        if SealedIn(inner, at, name + rest) {
          MoreSealed(inner, ops, at, name + rest);
        }
      }
    }
  }

  lemma InsideChild(m: Mode, b: Layout, at: Path, name: Path, node: Node, rest: Path, depth: nat)
    requires name != [] && rest != [] && RoleOf(m, b, name, node).ChildBundle?
    requires Refuse !in NodeOps(m, b, at, name, node, depth)
    ensures SealedIn(NodeOps(m, b, at, name, node, depth), at, name + rest)
  {
    hide RoleOf, ChildOps;
    ChildIsSealed(m, at + name, node, depth + 1);
    assert (name + rest)[..|name|] == name;
    assert SealFile(at + (name + rest)[..|name|], Bundle) in NodeOps(m, b, at, name, node, depth);
  }

  lemma FolderContains(m: Mode, b: Layout, at: Path, name: Path, node: Node, x: string, depth: nat)
    requires Enumerates(m) && name != [] && node.Dir? && x in node.children && RoleOf(m, b, name, node).Folder?
    ensures forall op <- NodeOps(m, b, at, name + [x], node.children[x], depth) ::
      op in NodeOps(m, b, at, name, node, depth)
  {
    hide RoleOf, DirOps;
    assert NodeOps(m, b, at, name, node, depth) == [Entry(at + name)] + DirOps(m, b, at, name, node, depth);
    forall op <- NodeOps(m, b, at, name + [x], node.children[x], depth)
      ensures op in NodeOps(m, b, at, name, node, depth)
    {
      hide NodeOps;
      DirContains(m, b, at, name, node, x, depth, op);
    }
  }

  lemma MoreSealed(xs: seq<Op>, ys: seq<Op>, at: Path, name: Path)
    requires SealedIn(xs, at, name) && forall op <- xs :: op in ys
    ensures SealedIn(ys, at, name)
  {
    if seal :| SealFile(at + name, seal) in xs {
      assert SealFile(at + name, seal) in ys;
    } else {
      var k :| 0 < k < |name| && SealFile(at + name[..k], Bundle) in xs;
      assert SealFile(at + name[..k], Bundle) in ys;
    }
  }

  lemma DirectoryRole(m: Mode, b: Layout, at: Path, name: Path, node: Node, depth: nat)
    requires name != [] && node.Dir?
    ensures RoleOf(m, b, name, node).Folder? || RoleOf(m, b, name, node).ChildBundle?
      || Refuse in NodeOps(m, b, at, name, node, depth)
  {
    hide Lower, LowerPath, DirOps, ChildOps;
    var role := RoleOf(m, b, name, node);
    assert !role.Passed? && !role.StaleSignature?;
    hide RoleOf;
    if !role.Folder? && !role.ChildBundle? {
      assert NodeOps(m, b, at, name, node, depth) == [Entry(at + name)] + [Refuse];
    }
  }

  lemma ChildIsSealed(m: Mode, at: Path, node: Node, depth: nat)
    requires Refuse !in ChildOps(m, at, node, depth)
    ensures SealFile(at, Bundle) in ChildOps(m, at, node, depth)
  {
    hide BundleOps;
  }

  lemma AcceptedHasNoRefusal(valid: Path -> bool, ops: seq<Op>)
    requires Consistent(ops) && Run(valid, START, ops).Some?
    ensures Refuse !in ops
  {
    RunIsAcceptable(valid, ops);
    forall op <- ops
      ensures op != Refuse
    {
      var i :| 0 <= i < |ops| && ops[i] == op;
      assert Admissible(valid, ops[i]);
    }
  }

  /**
   * Sealing is complete: after a successful scan every file and link of the bundle is sealed, lies
   * inside a sealed child bundle, or is exempt by an explicit rule.
   */
  lemma SealingComplete(m: Mode, b: Layout, root: Node, name: Path)
    requires Enumerates(m) && Run(m.validPath, START, TreeOps(m, b, [], root, 0)).Some?
    requires name != [] && Lookup(root, name).Some?
    requires Lookup(root, name).value.File? || Lookup(root, name).value.Link?
    ensures var files2 := Run(m.validPath, START, TreeOps(m, b, [], root, 0)).value.files2;
      || name in files2
      || (exists k :: 0 < k < |name| && name[..k] in files2 && files2[name[..k]] == Bundle)
      || Exempt(b, name, Lookup(root, name).value)
  {
    var ops := TreeOps(m, b, [], root, 0);
    hide Lookup, Exempt, Describes, Run, Acceptable, Consistent, TreeOps, SealedIn;
    EffectsConsistent(m, b, root);
    AcceptedHasNoRefusal(m.validPath, ops);
    RunIsAcceptable(m.validPath, ops);
    TreeSealed(m, b, root, name);
    if SealedIn(ops, [], name) {
      SealsAreNoted(Run(m.validPath, START, ops).value, ops, name);
    }
  }

  /** Where the walk begins. */
  function Walked(b: Layout, root: Node): Option<Node> {
    if !b.Versioned() then Some(root)
    else if b.base[1] in VersionsOf(root) then Some(VersionsOf(root)[b.base[1]])
    else None
  }

  lemma TreeSealed(m: Mode, b: Layout, root: Node, name: Path)
    requires Enumerates(m) && Refuse !in TreeOps(m, b, [], root, 0)
    requires name != [] && Lookup(root, name).Some?
    requires Lookup(root, name).value.File? || Lookup(root, name).value.Link?
    ensures SealedIn(TreeOps(m, b, [], root, 0), [], name) || Exempt(b, name, Lookup(root, name).value)
  {
    RootAccepted(m, b, [], root, 0);
    hide TreeOps, Lookup, SealedIn, FrameworkRootOk;
    if b.Versioned() && !(b.base < name) {
      OutsideSelected(m, b, root, name);
      hide Unselected, Included, Carrier;
    } else {
      hide Exempt;
      BelowStartSealed(m, b, root, name);
    }
  }

  lemma BelowStartSealed(m: Mode, b: Layout, root: Node, name: Path)
    requires Enumerates(m) && Refuse !in TreeOps(m, b, [], root, 0) && (b.Versioned() ==> b.base < name)
    requires name != [] && Lookup(root, name).Some?
    requires Lookup(root, name).value.File? || Lookup(root, name).value.Link?
    ensures SealedIn(TreeOps(m, b, [], root, 0), [], name) || Exempt(b, name, Lookup(root, name).value)
  {
    LookupStart(b, root, name);
    hide TreeOps, WalkOps, NodeOps, Lookup, Exempt, SealedIn, Walked, Layout.Start, Layout.Versioned, Enumerates;
    var n := |b.Start()|;
    var dir, x := Walked(b, root).value, name[n];
    var inner := NodeOps(m, b, [], b.Start() + [x], dir.children[x], 0);
    WalkContains(m, b, [], root, x, 0);
    Rejoined(b.Start(), name);
    assert Refuse !in inner;
    PathSealed(m, b, [], b.Start() + [x], dir.children[x], name[n + 1..], 0);
    if SealedIn(inner, [], name) {
      MoreSealed(inner, TreeOps(m, b, [], root, 0), [], name);
    }
  }

  lemma Rejoined(start: Path, name: Path)
    requires start < name
    ensures start + [name[|start|]] + name[|start| + 1..] == name
  {
  }

  lemma RootAccepted(m: Mode, b: Layout, at: Path, root: Node, depth: nat)
    requires Refuse !in TreeOps(m, b, at, root, depth)
    ensures b.Versioned() ==> FrameworkRootOk(m, b, root)
    ensures Refuse !in WalkOps(m, b, at, root, depth)
  {
    hide FrameworkRootOk, WalkOps, InventoryOps, TargetOps, EnterOps;
    assert forall op <- LayoutOps(m, b, at, root) :: op in TreeOps(m, b, at, root, depth);
  }

  lemma OutsideSelected(m: Mode, b: Layout, root: Node, name: Path)
    requires b.Versioned() && FrameworkRootOk(m, b, root) && !(b.base < name)
    requires name != [] && Lookup(root, name).Some?
    requires Lookup(root, name).value.File? || Lookup(root, name).value.Link?
    ensures Unselected(b, name, Lookup(root, name).value)
  {
    var top := root.children[name[0]];
    assert ListedOk(m, b, false, name[0], top);
    if |name| == 1 {
      assert Lookup(top, name[1..]) == Some(top);
    } else {
      var inner := top.children[name[1]];
      assert Lookup(inner, name[1..][1..]) == Lookup(root, name);
      assert ListedOk(m, b, true, name[1], inner);
      if |name| == 2 {
        assert Lookup(inner, []) == Some(inner);
      }
    }
  }

  /** A path below the start is looked up from there. */
  lemma LookupStart(b: Layout, root: Node, name: Path)
    requires name != [] && Lookup(root, name).Some? && (b.Versioned() ==> b.base < name)
    ensures Walked(b, root).Some? && Walked(b, root).value.Dir? && b.Start() < name
    ensures var dir, n := Walked(b, root).value, |b.Start()|;
      name[n] in dir.children && Lookup(dir.children[name[n]], name[n + 1..]) == Lookup(root, name)
  {
    if b.Versioned() {
      assert name[0] == b.base[0] && name[1] == b.base[1];
      var top := root.children[name[0]];
      assert name[1..][0] == name[1] && name[1..][1..] == name[2..] && name[2..][1..] == name[3..];
      assert Lookup(top.children[name[1]], name[2..]) == Lookup(top, name[1..]) == Lookup(root, name);
    }
  }

  lemma WalkContains(m: Mode, b: Layout, at: Path, root: Node, x: string, depth: nat)
    requires Enumerates(m) && Walked(b, root).Some?
    requires Walked(b, root).value.Dir? && x in Walked(b, root).value.children
    ensures forall op <- NodeOps(m, b, at, b.Start() + [x], Walked(b, root).value.children[x], depth) ::
      op in WalkOps(m, b, at, root, depth) && op in TreeOps(m, b, at, root, depth)
  {
    hide NodeOps, DirOps, TargetOps, LayoutOps, InventoryOps, VersionsOf;
    forall op <- NodeOps(m, b, at, b.Start() + [x], Walked(b, root).value.children[x], depth)
      ensures op in WalkOps(m, b, at, root, depth)
    {
      DirContains(m, b, at, b.Start(), Walked(b, root).value, x, depth, op);
    }
    hide WalkOps;
  }

  lemma SealsAreNoted(s: State, ops: seq<Op>, name: Path)
    requires Describes(s, ops) && SealedIn(ops, [], name)
    ensures name in s.files2 || exists k :: 0 < k < |name| && name[..k] in s.files2 && s.files2[name[..k]] == Bundle
  {
    hide Seen, Sum;
    if seal :| SealFile([] + name, seal) in ops {
      assert [] + name == name && FILE_SEALS(name, seal) in ops;
    } else {
      var k :| 0 < k < |name| && SealFile([] + name[..k], Bundle) in ops;
      assert [] + name[..k] == name[..k] && FILE_SEALS(name[..k], Bundle) in ops;
    }
  }

  /** Two nodes no seal can tell apart. */
  ghost predicate SameSealed(a: Node, b: Node) {
    || (a.File? && b.File? && a.content == b.content)
    || (a.Link? && b.Link? && a.target == b.target)
    || (a.Dir? && b.Dir?)
  }

  /** With a hash that never collides, equal envelopes mean equal content at every sealed path. */
  lemma EqualSealsEqualContent(m: Mode, b: Layout, left: Node, right: Node, path: Path)
    requires Enumerates(m) && forall x, y :: m.hash2(x) == m.hash2(y) ==> x == y
    requires Run(m.validPath, START, TreeOps(m, b, [], left, 0)).Some?
    requires Run(m.validPath, START, TreeOps(m, b, [], right, 0)).Some?
    requires Run(m.validPath, START, TreeOps(m, b, [], left, 0)).value.files2
          == Run(m.validPath, START, TreeOps(m, b, [], right, 0)).value.files2
    requires path in Run(m.validPath, START, TreeOps(m, b, [], left, 0)).value.files2
    ensures Lookup(left, path).Some? && Lookup(right, path).Some?
    ensures Run(m.validPath, START, TreeOps(m, b, [], left, 0)).value.files2[path].Exempted?
         || SameSealed(Lookup(left, path).value, Lookup(right, path).value)
  {
    var seal := Run(m.validPath, START, TreeOps(m, b, [], left, 0)).value.files2[path];
    hide Run, TreeOps, Lookup;
    SealIsTrue(m, b, left, path, seal);
    SealIsTrue(m, b, right, path, seal);
  }

  lemma SealIsTrue(m: Mode, b: Layout, root: Node, path: Path, seal: Seal)
    requires Enumerates(m) && Run(m.validPath, START, TreeOps(m, b, [], root, 0)).Some?
    requires var files2 := Run(m.validPath, START, TreeOps(m, b, [], root, 0)).value.files2;
      path in files2 && files2[path] == seal
    ensures Lookup(root, path).Some? && Tells(m, seal, Lookup(root, path).value)
  {
    hide TreeOps, Run, Lookup, Tells;
    var ops := TreeOps(m, b, [], root, 0);
    EffectsConsistent(m, b, root);
    RunIsAcceptable(m.validPath, ops);
    TreeTruthful(m, b, [], root, 0);
    assert FILE_SEALS(path, seal) in ops;
    assert path[0..] == path;
    assert NamesFile(SealFile(path, seal));
  }
}
