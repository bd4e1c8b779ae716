/** Exactly which seals a scan leaves to the bundle itself, told from the tree without the walk. */
module OwnSeals {
  import opened Text
  import opened Wrappers
  import opened ScanScope
  import opened TreeScan
  import ScanEnvelope
  import ScanLaws

  /** The seal that the entry `node` at `name` gets, if any. */
  ghost function SealOf(m: Mode, b: Layout, name: Path, node: Node): Option<Seal>
    requires name != []
  {
    var rel := b.Rel(name);
    match RoleOf(m, b, name, node)
    case AttributeFile => Some(Exempted)
    case ChildBundle => Some(Bundle)
    case Member(nested) =>
      if node.Link? then
        if Included(rel, false) then Some(Linked(node.target, Optional(rel, false))) else None
      else if !node.File? || BoundBySignature(b, name) then
        None
      else if nested then
        if Included(rel, true) || Included(rel, false) then Some(Code(node.content)) else None
      else
        if Included(rel, false) then Some(Hashed(m.hash2(node.content), Optional(rel, false))) else None
    case _ => None
  }

  ghost predicate FolderAt(m: Mode, b: Layout, tree: Node, name: Path)
    requires name != []
  {
    Lookup(tree, name).Some? && RoleOf(m, b, name, Lookup(tree, name).value).Folder?
  }

  /** The walk gets to `name`: everything above it is an ordinary folder. */
  ghost predicate Reached(m: Mode, b: Layout, tree: Node, name: Path) {
    && b.Start() < name && Lookup(tree, name).Some?
    && forall k | |b.Start()| < k < |name| :: FolderAt(m, b, tree, name[..k])
  }

  lemma ReachedThere(m: Mode, b: Layout, tree: Node, name: Path)
    requires Reached(m, b, tree, name)
    ensures Lookup(tree, name).Some? && b.Start() < name
  {
  }

  lemma {:induction false} FromList(m: Mode, b: Layout, at: Path, name: Path, dir: Node, names: seq<string>,
                                    depth: nat, op: Op) returns (x: string)
    requires dir.Dir? && op in ListOps(m, b, at, name, dir, names, depth)
    ensures x in names && x in dir.children && op in NodeOps(m, b, at, name + [x], dir.children[x], depth)
  {
    hide NodeOps;
    x := names[|names| - 1];
    if op in ListOps(m, b, at, name, dir, names[..|names| - 1], depth) {
      x := FromList(m, b, at, name, dir, names[..|names| - 1], depth, op);
    }
  }

  /** A seal below a directory comes from the entry its path goes through. */
  lemma FromChild(m: Mode, b: Layout, at: Path, name: Path, dir: Node, depth: nat, op: Op)
    requires Enumerates(m) && op.SealFile? && op in DirOps(m, b, at, name, dir, depth)
    ensures dir.Dir? && |op.path| > |at + name| && op.path[|at + name|] in dir.children
    ensures var x := op.path[|at + name|]; op in NodeOps(m, b, at, name + [x], dir.children[x], depth)
  {
    var names := m.order(at + name, dir.children.Keys);
    var x := FromList(m, b, at, name, dir, names, depth, op);
    ScanLaws.NodeSeals(m, b, at, name + [x], dir.children[x], depth);
    hide NodeOps, ListOps, DirOps;
    assert ScanLaws.IsSeal(op) && at + (name + [x]) <= op.path;
    assert (at + (name + [x]))[|at + name|] == x;
  }

  /** One entry that is not a folder seals nothing but itself, and that as `SealOf` says. */
  lemma EntrySeal(m: Mode, b: Layout, at: Path, name: Path, node: Node, depth: nat, seal: Seal)
    requires name != [] && Refuse !in NodeOps(m, b, at, name, node, depth)
    requires !RoleOf(m, b, name, node).Folder? && !RoleOf(m, b, name, node).ChildBundle?
    ensures SealFile(at + name, seal) in NodeOps(m, b, at, name, node, depth) <==>
      SealOf(m, b, name, node) == Some(seal)
    ensures forall op <- NodeOps(m, b, at, name, node, depth) | op.SealFile? :: op.path == at + name
  {
    hide RoleOf, NodeOps, SealOf, ScanLaws.RoleOps;
    ScanLaws.NodeShape(m, b, at, name, node, depth);
    var rest := ScanLaws.RoleOps(m, b, at, name, node, depth);
    assert forall op <- rest :: op in NodeOps(m, b, at, name, node, depth);
    RoleSeal(m, b, at, name, node, depth, seal);
  }

  lemma RoleSeal(m: Mode, b: Layout, at: Path, name: Path, node: Node, depth: nat, seal: Seal)
    requires name != [] && Refuse !in ScanLaws.RoleOps(m, b, at, name, node, depth)
    requires !RoleOf(m, b, name, node).Folder? && !RoleOf(m, b, name, node).ChildBundle?
    ensures var ops := ScanLaws.RoleOps(m, b, at, name, node, depth);
      && (SealFile(at + name, seal) in ops <==> SealOf(m, b, name, node) == Some(seal))
      && forall op <- ops | op.SealFile? :: op.path == at + name
  {
    hide RoleOf, Included, Optional, LinkOps, FileOps, DirOps, ChildOps;
    var role := RoleOf(m, b, name, node);
    if role.Member? && node.Link? {
      LinkSeal(m, b, at, name, node, seal);
      hide SealOf;
    } else if role.Member? && node.File? {
      FileSeal(m, b, at, name, node, role.nested, seal);
      hide SealOf;
    }
  }

  lemma LinkSeal(m: Mode, b: Layout, at: Path, name: Path, node: Node, seal: Seal)
    requires name != [] && node.Link? && RoleOf(m, b, name, node).Member?
    requires Refuse !in LinkOps(m, b, at, name, node)
    ensures SealFile(at + name, seal) in LinkOps(m, b, at, name, node) <==> SealOf(m, b, name, node) == Some(seal)
    ensures forall op <- LinkOps(m, b, at, name, node) | op.SealFile? :: op.path == at + name
  {
    hide RoleOf, Included, Optional, Lower, LinkOk, Layout.Rel;
  }

  lemma FileSeal(m: Mode, b: Layout, at: Path, name: Path, node: Node, nested: bool, seal: Seal)
    requires name != [] && node.File? && RoleOf(m, b, name, node) == Member(nested)
    requires Refuse !in FileOps(m, b, at, name, node, nested)
    ensures SealFile(at + name, seal) in FileOps(m, b, at, name, node, nested)
       <==> SealOf(m, b, name, node) == Some(seal)
    ensures forall op <- FileOps(m, b, at, name, node, nested) | op.SealFile? :: op.path == at + name
  {
    hide RoleOf, Included, Optional, Layout.Rel, Layout.Resources;
    var sealed := SealOps(m, at + name, b.Rel(name), node, nested);
    assert !BoundBySignature(b, name) ==> forall op <- sealed :: op in FileOps(m, b, at, name, node, nested);
    ContentSeal(m, at + name, b.Rel(name), node, nested, seal);
    hide SealOps;
  }

  lemma ContentSeal(m: Mode, path: Path, rel: Path, node: Node, nested: bool, seal: Seal)
    requires node.File?
    ensures Refuse in SealOps(m, path, rel, node, nested) ||
      (SealFile(path, seal) in SealOps(m, path, rel, node, nested) <==>
        if nested then (Included(rel, true) || Included(rel, false)) && seal == Code(node.content)
        else Included(rel, false) && seal == Hashed(m.hash2(node.content), Optional(rel, false)))
    ensures forall op <- SealOps(m, path, rel, node, nested) | op.SealFile? :: op.path == path
  {
    hide Included, Optional;
  }

  lemma BundleSeal(m: Mode, b: Layout, name: Path, node: Node)
    requires name != [] && RoleOf(m, b, name, node).ChildBundle?
    ensures SealOf(m, b, name, node) == Some(Bundle)
  {
    hide RoleOf;
  }

  /** Of a child bundle, only the seal of the whole is not inside it. */
  lemma ChildSeal(m: Mode, b: Layout, at: Path, name: Path, node: Node, rest: Path, depth: nat, seal: Seal,
                  all: seq<Op>)
    requires Enumerates(m) && name != [] && RoleOf(m, b, name, node).ChildBundle?
    requires Refuse !in all && !ScanEnvelope.Inside(all, at, at + name + rest)
    requires SealFile(at + name + rest, seal) in NodeOps(m, b, at, name, node, depth)
    requires forall op <- NodeOps(m, b, at, name, node, depth) :: op in all
    ensures rest == [] && seal == Bundle
  {
    hide RoleOf, ChildOps, ScanEnvelope.Inside;
    var path, ops := at + name, ChildOps(m, at + name, node, depth + 1);
    assert NodeOps(m, b, at, name, node, depth) == [Entry(path)] + ops;
    assert Refuse !in ops;
    ScanLaws.ChildIsSealed(m, path, node, depth + 1);
    if rest != [] {
      ScanEnvelope.WithinSealed(all, at, path, path + rest);
    }
    ScanLaws.ChildSeals(m, path, node, depth + 1);
    assert path + rest == path;
    OneSeal(ops, path, SealFile(path, seal), SealFile(path, Bundle));
  }

  lemma OneSeal(ops: seq<Op>, at: Path, x: Op, y: Op)
    requires ScanLaws.SealsApart(ops, at) && x in ops && y in ops && ScanLaws.SameSeal(x, y)
    ensures x == y
  {
    var i :| 0 <= i < |ops| && ops[i] == x;
    var j :| 0 <= j < |ops| && ops[j] == y;
    assert ScanLaws.SameSeal(ops[i], ops[j]) && ScanLaws.SameSeal(ops[j], ops[i]);
  }

  ghost predicate Among(ops: seq<Op>, all: seq<Op>) {
    forall op <- ops :: op in all
  }

  lemma AmongChain(xs: seq<Op>, ys: seq<Op>, zs: seq<Op>)
    requires Among(xs, ys) && Among(ys, zs)
    ensures Among(xs, zs)
  {
  }

  /** From `name` on, everything above the end of `rest` is an ordinary folder. */
  ghost predicate FoldersTo(m: Mode, b: Layout, name: Path, node: Node, rest: Path)
    requires name != []
  {
    forall k | 0 <= k < |rest| ::
      Lookup(node, rest[..k]).Some? && RoleOf(m, b, name + rest[..k], Lookup(node, rest[..k]).value).Folder?
  }

  lemma FoldersStep(m: Mode, b: Layout, name: Path, node: Node, rest: Path)
    requires name != [] && rest != [] && node.Dir? && rest[0] in node.children
    ensures FoldersTo(m, b, name, node, rest) <==>
      RoleOf(m, b, name, node).Folder? && FoldersTo(m, b, name + [rest[0]], node.children[rest[0]], rest[1..])
  {
    hide RoleOf;
    var x, child, tail := rest[0], node.children[rest[0]], rest[1..];
    assert rest[..0] == [] && name + rest[..0] == name && Lookup(node, rest[..0]) == Some(node);
    forall k | 0 < k < |rest|
      ensures Lookup(node, rest[..k]) == Lookup(child, tail[..k - 1]) && name + rest[..k] == name + [x] + tail[..k - 1]
    {
      assert rest[..k][0] == x && rest[..k][1..] == tail[..k - 1];
    }
    forall k | 0 <= k < |tail|
      ensures Lookup(child, tail[..k]) == Lookup(node, rest[..k + 1]) && name + [x] + tail[..k] == name + rest[..k + 1]
    {
      assert tail[..k + 1 - 1] == tail[..k];
    }
    hide Lookup;
  }

  /** Following an own seal down from `name`: folders all the way, and then the entry it is of. */
  lemma {:induction false} Descend(m: Mode, b: Layout, at: Path, name: Path, node: Node, rest: Path, depth: nat,
                                   seal: Seal, all: seq<Op>)
    requires Enumerates(m) && name != [] && Refuse !in all && !ScanEnvelope.Inside(all, at, at + name + rest)
    requires SealFile(at + name + rest, seal) in NodeOps(m, b, at, name, node, depth)
    requires Among(NodeOps(m, b, at, name, node, depth), all)
    ensures Lookup(node, rest).Some? && SealOf(m, b, name + rest, Lookup(node, rest).value) == Some(seal)
    ensures FoldersTo(m, b, name, node, rest)
    decreases |rest|
  {
    hide RoleOf, SealOf, NodeOps, ScanEnvelope.Inside, Enumerates, Among, Lookup, FoldersTo;
    if RoleOf(m, b, name, node).Folder? {
      ThroughFolder(m, b, at, name, node, rest, depth, seal);
      var next, child := name + [rest[0]], node.children[rest[0]];
      Rejoin(at, name, rest);
      FoldersStep(m, b, name, node, rest);
      LookupNext(node, rest);
      AmongChain(NodeOps(m, b, at, next, child, depth), NodeOps(m, b, at, name, node, depth), all);
      Descend(m, b, at, next, child, rest[1..], depth, seal, all);
    } else {
      DescentEnds(m, b, at, name, node, rest, depth, seal, all);
      ScanLaws.LookupSelf(node);
      assert name + [] == name;
      NoFolders(m, b, name, node);
    }
  }

  lemma Rejoin(at: Path, name: Path, rest: Path)
    requires rest != []
    ensures name + [rest[0]] + rest[1..] == name + rest && at + (name + [rest[0]]) + rest[1..] == at + name + rest
  {
  }

  lemma LookupNext(node: Node, rest: Path)
    requires rest != [] && node.Dir? && rest[0] in node.children
    ensures Lookup(node, rest) == Lookup(node.children[rest[0]], rest[1..])
  {
  }

  lemma NoFolders(m: Mode, b: Layout, name: Path, node: Node)
    requires name != []
    ensures FoldersTo(m, b, name, node, [])
  {
  }

  lemma DescentEnds(m: Mode, b: Layout, at: Path, name: Path, node: Node, rest: Path, depth: nat, seal: Seal,
                    all: seq<Op>)
    requires Enumerates(m) && name != [] && !RoleOf(m, b, name, node).Folder?
    requires Refuse !in all && !ScanEnvelope.Inside(all, at, at + name + rest)
    requires SealFile(at + name + rest, seal) in NodeOps(m, b, at, name, node, depth)
    requires Among(NodeOps(m, b, at, name, node, depth), all)
    ensures rest == [] && SealOf(m, b, name, node) == Some(seal)
  {
    hide RoleOf, SealOf, NodeOps, ScanEnvelope.Inside, Enumerates;
    if RoleOf(m, b, name, node).ChildBundle? {
      ChildSeal(m, b, at, name, node, rest, depth, seal, all);
      BundleSeal(m, b, name, node);
    } else {
      EntrySeal(m, b, at, name, node, depth, seal);
      assert |at + name + rest| == |at + name| + |rest|;
    }
  }

  lemma ThroughFolder(m: Mode, b: Layout, at: Path, name: Path, node: Node, rest: Path, depth: nat, seal: Seal)
    requires Enumerates(m) && name != [] && RoleOf(m, b, name, node).Folder?
    requires SealFile(at + name + rest, seal) in NodeOps(m, b, at, name, node, depth)
    ensures rest != [] && node.Dir? && rest[0] in node.children
    ensures SealFile(at + name + rest, seal) in NodeOps(m, b, at, name + [rest[0]], node.children[rest[0]], depth)
    ensures Among(NodeOps(m, b, at, name + [rest[0]], node.children[rest[0]], depth),
                  NodeOps(m, b, at, name, node, depth))
  {
    hide RoleOf, DirOps;
    var op := SealFile(at + name + rest, seal);
    assert NodeOps(m, b, at, name, node, depth) == [Entry(at + name)] + DirOps(m, b, at, name, node, depth);
    hide NodeOps;
    FromChild(m, b, at, name, node, depth, op);
    assert op.path[|at + name|] == rest[0];
    ScanLaws.FolderContains(m, b, at, name, node, rest[0], depth);
  }

  /** What the walk reaches is among its effects. */
  lemma {:induction false} Ascend(m: Mode, b: Layout, at: Path, name: Path, node: Node, rest: Path, depth: nat)
    requires Enumerates(m) && name != [] && Lookup(node, rest).Some? && FoldersTo(m, b, name, node, rest)
    ensures forall op <- NodeOps(m, b, at, name + rest, Lookup(node, rest).value, depth) ::
      op in NodeOps(m, b, at, name, node, depth)
    decreases |rest|
  {
    hide RoleOf, NodeOps, FoldersTo;
    assert name + [] == name;
    if rest != [] {
      var x := rest[0];
      FoldersStep(m, b, name, node, rest);
      Ascend(m, b, at, name + [x], node.children[x], rest[1..], depth);
      assert name + [x] + rest[1..] == name + rest;
      ScanLaws.FolderContains(m, b, at, name, node, x, depth);
    }
  }

  /** Being reached, seen from the first entry below the start. */
  lemma ReachedFromTop(m: Mode, b: Layout, tree: Node, name: Path)
    requires b.Start() < name && ScanLaws.Walked(b, tree).Some? && ScanLaws.Walked(b, tree).value.Dir?
    requires name[|b.Start()|] in ScanLaws.Walked(b, tree).value.children
    ensures var n := |b.Start()|;
      var top := ScanLaws.Walked(b, tree).value.children[name[n]];
      && Lookup(tree, name) == Lookup(top, name[n + 1..])
      && (Reached(m, b, tree, name) <==> Lookup(tree, name).Some? && FoldersTo(m, b, name[..n + 1], top, name[n + 1..]))
  {
    hide RoleOf, Lookup;
    var n, rest := |b.Start()|, name[|b.Start()| + 1..];
    var top := ScanLaws.Walked(b, tree).value.children[name[n]];
    forall k | 0 <= k <= |rest|
      ensures Lookup(tree, name[..n + 1 + k]) == Lookup(top, rest[..k])
        && name[..n + 1] + rest[..k] == name[..n + 1 + k]
    {
      LookupTop(b, tree, name[..n + 1 + k]);
      assert name[..n + 1 + k][n + 1..] == rest[..k];
    }
    assert name[..n + 1 + |rest|] == name && rest[..|rest|] == rest;
    forall k | n < k < |name|
      ensures FolderAt(m, b, tree, name[..k]) == (Lookup(top, rest[..k - n - 1]).Some?
        && RoleOf(m, b, name[..n + 1] + rest[..k - n - 1], Lookup(top, rest[..k - n - 1]).value).Folder?)
    {
      assert n + 1 + (k - n - 1) == k;
    }
    if FoldersTo(m, b, name[..n + 1], top, rest) && Lookup(tree, name).Some? {
      assert Reached(m, b, tree, name);
    }
    if Reached(m, b, tree, name) {
      forall k | 0 <= k < |rest|
        ensures Lookup(top, rest[..k]).Some?
          && RoleOf(m, b, name[..n + 1] + rest[..k], Lookup(top, rest[..k]).value).Folder?
      {
        assert FolderAt(m, b, tree, name[..n + 1 + k]) && n + 1 + k - n - 1 == k;
      }
    }
  }

  lemma LookupTop(b: Layout, tree: Node, name: Path)
    requires b.Start() < name && ScanLaws.Walked(b, tree).Some? && ScanLaws.Walked(b, tree).value.Dir?
    requires name[|b.Start()|] in ScanLaws.Walked(b, tree).value.children
    ensures Lookup(tree, name)
         == Lookup(ScanLaws.Walked(b, tree).value.children[name[|b.Start()|]], name[|b.Start()| + 1..])
  {
    if b.Versioned() {
      assert name[0] == b.base[0] && name[1] == b.base[1];
      assert name[1..][0] == name[1] && name[1..][1..] == name[2..] && name[2..][1..] == name[3..];
      assert Lookup(tree, name) == Lookup(tree.children[name[0]], name[1..])
        == Lookup(ScanLaws.Walked(b, tree).value, name[2..]);
    }
  }

  /**
   * The seals that an accepted scan leaves to the bundle itself are exactly those of the entries the
   * walk reaches, each as its place and its content demand. So for every bundle it scans, at any depth.
   */
  lemma OwnExactly(m: Mode, b: Layout, at: Path, tree: Node, depth: nat, name: Path, seal: Seal)
    requires Enumerates(m) && Refuse !in TreeOps(m, b, at, tree, depth)
    ensures var ops := TreeOps(m, b, at, tree, depth);
      SealFile(at + name, seal) in ops && !ScanEnvelope.Inside(ops, at, at + name) <==>
        Reached(m, b, tree, name) && SealOf(m, b, name, Lookup(tree, name).value) == Some(seal)
  {
    hide TreeOps, SealOf, ScanEnvelope.Inside, Lookup;
    var ops := TreeOps(m, b, at, tree, depth);
    if SealFile(at + name, seal) in ops && !ScanEnvelope.Inside(ops, at, at + name) {
      OwnIsReached(m, b, at, tree, depth, name, seal);
    }
    if Reached(m, b, tree, name) && SealOf(m, b, name, Lookup(tree, name).value) == Some(seal) {
      ReachedIsSealed(m, b, at, tree, depth, name, seal);
      ReachedIsOwn(m, b, at, tree, depth, name);
    }
  }

  /** What is sealed was walked. */
  lemma SealIsWalked(m: Mode, b: Layout, at: Path, tree: Node, depth: nat, op: Op)
    requires Enumerates(m) && op.SealFile? && op in TreeOps(m, b, at, tree, depth)
    ensures ScanLaws.Walked(b, tree).Some? && op in DirOps(m, b, at, b.Start(), ScanLaws.Walked(b, tree).value, depth)
    ensures at + b.Start() < op.path
  {
    ScanLaws.FrontUnsealed(m, b, at, tree);
    ScanLaws.InventoryUnsealed(m, b, at, tree, depth);
    ScanLaws.WalkSeals(m, b, at, tree, depth);
    hide LayoutOps, TargetOps, InventoryOps, DirOps, Layout.Resources, VersionsOf;
    assert op in WalkOps(m, b, at, tree, depth) && ScanLaws.IsSeal(op);
    hide TreeOps, ScanLaws.SealsApart;
  }

  lemma OwnIsReached(m: Mode, b: Layout, at: Path, tree: Node, depth: nat, name: Path, seal: Seal)
    requires Enumerates(m) && Refuse !in TreeOps(m, b, at, tree, depth)
    requires SealFile(at + name, seal) in TreeOps(m, b, at, tree, depth)
    requires !ScanEnvelope.Inside(TreeOps(m, b, at, tree, depth), at, at + name)
    ensures Reached(m, b, tree, name) && SealOf(m, b, name, Lookup(tree, name).value) == Some(seal)
  {
    hide TreeOps, NodeOps, DirOps, SealOf, ScanEnvelope.Inside, Reached, ScanLaws.Walked, FoldersTo, Layout.Start;
    hide Lookup, Enumerates;
    var n := |b.Start()|;
    SealIsWalked(m, b, at, tree, depth, SealFile(at + name, seal));
    StartFirst(at, b.Start(), name);
    var dir := ScanLaws.Walked(b, tree).value;
    FromChild(m, b, at, b.Start(), dir, depth, SealFile(at + name, seal));
    ScanLaws.WalkContains(m, b, at, tree, name[n], depth);
    assert b.Start() + [name[n]] == name[..n + 1] && at + name[..n + 1] + name[n + 1..] == at + name;
    Descend(m, b, at, name[..n + 1], dir.children[name[n]], name[n + 1..], depth, seal, TreeOps(m, b, at, tree, depth));
    assert name[..n + 1] + name[n + 1..] == name;
    ReachedFromTop(m, b, tree, name);
  }

  lemma StartFirst(at: Path, start: Path, name: Path)
    requires at + start < at + name
    ensures start < name && (at + name)[|at + start|] == name[|start|]
  {
    assert name[..|start|] == (at + name)[..|at + start|][|at|..] == start;
  }

  /** The effects of an entry that the walk reaches are among those of the scan. */
  lemma ReachedIsWalked(m: Mode, b: Layout, at: Path, tree: Node, depth: nat, name: Path)
    requires Enumerates(m) && Refuse !in TreeOps(m, b, at, tree, depth) && Reached(m, b, tree, name)
    ensures forall op <- NodeOps(m, b, at, name, Lookup(tree, name).value, depth) ::
      op in TreeOps(m, b, at, tree, depth)
  {
    hide TreeOps, NodeOps, ScanLaws.Walked, FoldersTo, Layout.Start, Lookup, Enumerates;
    var n := |b.Start()|;
    ScanLaws.RootAccepted(m, b, at, tree, depth);
    StartWalked(b, tree, name);
    ReachedFromTop(m, b, tree, name);
    var dir := ScanLaws.Walked(b, tree).value;
    ScanLaws.WalkContains(m, b, at, tree, name[n], depth);
    assert b.Start() + [name[n]] == name[..n + 1] && name[..n + 1] + name[n + 1..] == name;
    Ascend(m, b, at, name[..n + 1], dir.children[name[n]], name[n + 1..], depth);
  }

  lemma ReachedIsSealed(m: Mode, b: Layout, at: Path, tree: Node, depth: nat, name: Path, seal: Seal)
    requires Enumerates(m) && Refuse !in TreeOps(m, b, at, tree, depth)
    requires Reached(m, b, tree, name) && SealOf(m, b, name, Lookup(tree, name).value) == Some(seal)
    ensures SealFile(at + name, seal) in TreeOps(m, b, at, tree, depth)
  {
    ReachedIsWalked(m, b, at, tree, depth, name);
    hide TreeOps, NodeOps, SealOf, Layout.Start, Lookup, Enumerates;
    SealedThere(m, b, at, name, Lookup(tree, name).value, depth, seal);
  }

  lemma StartWalked(b: Layout, tree: Node, name: Path)
    requires b.Start() < name && Lookup(tree, name).Some?
    ensures ScanLaws.Walked(b, tree).Some? && ScanLaws.Walked(b, tree).value.Dir?
    ensures name[|b.Start()|] in ScanLaws.Walked(b, tree).value.children
  {
    ScanLaws.LookupStart(b, tree, name);
  }

  lemma SealedThere(m: Mode, b: Layout, at: Path, name: Path, node: Node, depth: nat, seal: Seal)
    requires name != [] && SealOf(m, b, name, node) == Some(seal) && Refuse !in NodeOps(m, b, at, name, node, depth)
    ensures SealFile(at + name, seal) in NodeOps(m, b, at, name, node, depth)
  {
    if RoleOf(m, b, name, node).ChildBundle? {
      hide RoleOf, ChildOps;
      assert Refuse !in ChildOps(m, at + name, node, depth + 1);
      ScanLaws.ChildIsSealed(m, at + name, node, depth + 1);
    } else {
      assert !RoleOf(m, b, name, node).Folder?;
      hide RoleOf, NodeOps, SealOf;
      EntrySeal(m, b, at, name, node, depth, seal);
    }
  }

  /** Nothing the walk reaches lies inside a child bundle. */
  lemma ReachedIsOwn(m: Mode, b: Layout, at: Path, tree: Node, depth: nat, name: Path)
    requires Enumerates(m) && Refuse !in TreeOps(m, b, at, tree, depth) && Reached(m, b, tree, name)
    ensures !ScanEnvelope.Inside(TreeOps(m, b, at, tree, depth), at, at + name)
  {
    hide TreeOps, Lookup, RoleOf, SealOf, Layout.Start, Enumerates, ScanEnvelope.Inside;
    var ops := TreeOps(m, b, at, tree, depth);
    if ScanEnvelope.Inside(ops, at, at + name) {
      var j := Outermost(ops, at, name);
      SealIsWalked(m, b, at, tree, depth, SealFile(at + name[..j], Bundle));
      StartFirst(at, b.Start(), name[..j]);
      OwnIsReached(m, b, at, tree, depth, name[..j], Bundle);
      assert FolderAt(m, b, tree, name[..j]);
      FolderUnsealed(m, b, name[..j], Lookup(tree, name[..j]).value);
    }
  }

  lemma FolderUnsealed(m: Mode, b: Layout, name: Path, node: Node)
    requires name != [] && RoleOf(m, b, name, node).Folder?
    ensures SealOf(m, b, name, node) == None
  {
    hide RoleOf;
  }

  /** Of the sealed children around a path, the outermost lies in no other. */
  lemma {:induction false} Outermost(ops: seq<Op>, at: Path, name: Path) returns (j: nat)
    requires ScanEnvelope.Inside(ops, at, at + name)
    ensures 0 < j < |name| && SealFile(at + name[..j], Bundle) in ops
    ensures !ScanEnvelope.Inside(ops, at, at + name[..j])
    decreases |name|
  {
    var path := at + name;
    var k :| |at| < k < |path| && SealFile(path[..k], Bundle) in ops;
    j := k - |at|;
    assert path[..k] == at + name[..j];
    if ScanEnvelope.Inside(ops, at, at + name[..j]) {
      var i := Outermost(ops, at, name[..j]);
      assert name[..j][..i] == name[..i];
      j := i;
    }
  }
}
