/** Which seals a scan leaves to the bundle itself, as its own envelope and its own plan take them up. */
module ScanEnvelope {
  import opened Text
  import opened Wrappers
  import opened ScanScope
  import opened TreeScan
  import ScanLaws

  /**
   * A seal of the bundle `b` itself: named and marked as its envelope rules say, and not of its own code
   * or envelope.
   */
  ghost predicate OwnSeal(m: Mode, b: Layout, name: Path, seal: Seal) {
    var rel := b.Rel(name);
    && b.base <= name && |b.base| < |name| && (name == b.executable ==> seal.Exempted?) && name != b.Resources()
    && match seal {
      case Hashed(hash, optional) =>
        Included(rel, false) && optional == Optional(rel, false) && exists c :: hash == m.hash2(c)
      case Linked(target, optional) => Included(rel, false) && optional == Optional(rel, false) && target != ""
      case Code(_) | Exempted => true
      case Bundle => rel !in [["MacOS"], ["Resources"], ["_CodeSignature"]]
    }
  }

  /** The path lies inside a child bundle that is sealed as a whole. */
  ghost predicate Inside(ops: seq<Op>, at: Path, path: Path) {
    exists k :: |at| < k < |path| && SealFile(path[..k], Bundle) in ops
  }

  ghost predicate ProperOp(m: Mode, b: Layout, at: Path, ops: seq<Op>, op: Op) {
    op.SealFile? ==> at <= op.path && (Inside(ops, at, op.path) || OwnSeal(m, b, op.path[|at|..], op.seal))
  }

  ghost predicate Proper(m: Mode, b: Layout, at: Path, ops: seq<Op>) {
    forall op <- ops :: ProperOp(m, b, at, ops, op)
  }

  lemma ProperAppend(m: Mode, b: Layout, at: Path, xs: seq<Op>, ys: seq<Op>)
    requires Proper(m, b, at, xs) && Proper(m, b, at, ys)
    ensures Proper(m, b, at, xs + ys)
  {
    hide OwnSeal;
    forall op <- xs + ys
      ensures ProperOp(m, b, at, xs + ys, op)
    {
      ProperInMore(m, b, at, if op in xs then xs else ys, xs + ys, op);
    }
  }

  lemma ProperInMore(m: Mode, b: Layout, at: Path, ops: seq<Op>, more: seq<Op>, op: Op)
    requires Proper(m, b, at, ops) && op in ops && forall x <- ops :: x in more
    ensures ProperOp(m, b, at, more, op)
  {
    hide OwnSeal;
    assert ProperOp(m, b, at, ops, op);
    if op.SealFile? && Inside(ops, at, op.path) {
      var k :| |at| < k < |op.path| && SealFile(op.path[..k], Bundle) in ops;
      assert SealFile(op.path[..k], Bundle) in more;
    }
  }

  lemma UnsealedProper(m: Mode, b: Layout, at: Path, ops: seq<Op>)
    requires forall op <- ops :: !op.SealFile?
    ensures Proper(m, b, at, ops)
  {
  }

  lemma OwnProper(m: Mode, b: Layout, at: Path, name: Path, ops: seq<Op>)
    requires forall op <- ops | op.SealFile? :: op.path == at + name && OwnSeal(m, b, name, op.seal)
    ensures Proper(m, b, at, ops)
  {
    hide OwnSeal;
    assert (at + name)[|at|..] == name;
  }

  /** Where entries that are sealed may lie. */
  lemma SealedRole(m: Mode, b: Layout, name: Path, node: Node)
    requires name != [] && (RoleOf(m, b, name, node).Member? || RoleOf(m, b, name, node).ChildBundle?
                           || RoleOf(m, b, name, node).AttributeFile?)
    ensures b.base <= name && |b.base| < |name| && b.Rel(name) !in [["MacOS"], ["Resources"], ["_CodeSignature"]]
    ensures RoleOf(m, b, name, node).ChildBundle? || node.Link? ==> name != b.executable
    ensures RoleOf(m, b, name, node).ChildBundle? || node.Link? || RoleOf(m, b, name, node).AttributeFile? ==>
      name != b.Resources()
  {
    assert "CodeResources"[..2][0] == 'C' && "._"[0] == '.';
    assert name == b.Resources() ==> name[|name| - 1] == "CodeResources";
    hide Lower, LowerPath, NestedInside, NestedContainer, BundleSuffix, FrameworkResource;
  }

  lemma LinkProper(m: Mode, b: Layout, at: Path, name: Path, node: Node)
    requires name != [] && node.Link? && RoleOf(m, b, name, node).Member?
    ensures Proper(m, b, at, LinkOps(m, b, at, name, node))
  {
    SealedRole(m, b, name, node);
    hide RoleOf, Included, Optional, Lower, Layout.Rel, Layout.Resources;
    OwnProper(m, b, at, name, LinkOps(m, b, at, name, node));
  }

  lemma FileProper(m: Mode, b: Layout, at: Path, name: Path, node: Node)
    requires name != [] && node.File? && RoleOf(m, b, name, node).Member?
    ensures Proper(m, b, at, FileOps(m, b, at, name, node, RoleOf(m, b, name, node).nested))
  {
    SealedRole(m, b, name, node);
    var nested := RoleOf(m, b, name, node).nested;
    hide RoleOf, Included, Optional, Lower, Layout.Rel, Layout.Resources;
    var rel := b.Rel(name);
    var sealed := if BoundBySignature(b, name) then [] else SealOps(m, at + name, rel, node, nested);
    forall op <- sealed | op.SealFile?
      ensures op.path == at + name && OwnSeal(m, b, name, op.seal)
    {
    }
    var target := if nested && name != b.executable then [WriteTarget(at + name, node.inode)] else [];
    var front := [RegularFile(at + name, node.inode)] + target;
    hide SealOps, OwnSeal;
    OwnProper(m, b, at, name, sealed);
    UnsealedProper(m, b, at, front);
    ProperAppend(m, b, at, front, sealed);
    assert FileOps(m, b, at, name, node, nested) == front + sealed;
  }

  /** A sealed child: whatever lies below it is inside. */
  lemma ChildProper(m: Mode, b: Layout, at: Path, name: Path, node: Node, depth: nat)
    requires Enumerates(m) && name != [] && RoleOf(m, b, name, node).ChildBundle?
    ensures Refuse in ChildOps(m, at + name, node, depth) || Proper(m, b, at, ChildOps(m, at + name, node, depth))
  {
    SealedRole(m, b, name, node);
    assert OwnSeal(m, b, name, Bundle);
    hide RoleOf, OwnSeal, BundleOps, AlternateOps, Proper;
    var path := at + name;
    if depth <= MAX_DEPTH && node.Dir? && node.layout.Some? {
      var inner := BundleOps(m, node.layout.value, path, node, depth)
        + AlternateOps(m, node.layout.value, path, node, depth);
      ScanLaws.VersionsApart(m, node.layout.value, path, node, depth);
      BelowSealed(m, b, at, name, inner);
      assert ChildOps(m, path, node, depth) == [AddChild] + inner + [SealFile(path, Bundle)];
    }
  }

  lemma BelowSealed(m: Mode, b: Layout, at: Path, name: Path, inner: seq<Op>)
    requires name != [] && OwnSeal(m, b, name, Bundle) && ScanLaws.SealsBelow(inner, at + name)
    ensures Proper(m, b, at, [AddChild] + inner + [SealFile(at + name, Bundle)])
  {
    hide OwnSeal, ScanLaws.SealsApart;
    var path := at + name;
    var ops := [AddChild] + inner + [SealFile(path, Bundle)];
    assert path[|at|..] == name && SealFile(path, Bundle) in ops;
    forall op <- ops
      ensures ProperOp(m, b, at, ops, op)
    {
      if op in inner && op.SealFile? {
        assert ScanLaws.IsSeal(op) && path < op.path;
        assert op.path[..|path|] == path;
      }
    }
  }

  lemma {:induction false} NodeProper(m: Mode, b: Layout, at: Path, name: Path, node: Node, depth: nat)
    requires Enumerates(m) && name != [] && Refuse !in NodeOps(m, b, at, name, node, depth)
    ensures Proper(m, b, at, NodeOps(m, b, at, name, node, depth))
    decreases node, 7
  {
    hide Proper, RoleOf, LinkOps, FileOps, DirOps, ChildOps;
    var ops, role := NodeOps(m, b, at, name, node, depth), RoleOf(m, b, name, node);
    EntryUnsealed(m, b, at, at + name, node.inode);
    var tail := ops[1..];
    assert ops == [Entry(at + name)] + tail && forall op <- tail :: op in ops;
    match role
    case Refused =>
      assert false;
    case Passed =>
      assert ops == [Entry(at + name)];
    case Folder =>
      DirProper(m, b, at, name, node, depth);
      ProperAppend(m, b, at, [Entry(at + name)], tail);
    case StaleSignature =>
      ProperAppend(m, b, at, [Entry(at + name)], tail);
    case AttributeFile =>
      SealedRole(m, b, name, node);
      assert tail == [SealFile(at + name, Exempted)];
      CarrierProper(m, b, at, name);
      ProperAppend(m, b, at, [Entry(at + name)], tail);
    case ChildBundle =>
      assert tail == ChildOps(m, at + name, node, depth + 1);
      ChildProper(m, b, at, name, node, depth + 1);
      ProperAppend(m, b, at, [Entry(at + name)], tail);
    case Member(nested) =>
      if node.Link? {
        LinkProper(m, b, at, name, node);
        ProperAppend(m, b, at, [Entry(at + name)], tail);
      } else if node.File? {
        FileProper(m, b, at, name, node);
        ProperAppend(m, b, at, [Entry(at + name)], tail);
      } else {
        assert false;
      }
  }

  lemma CarrierProper(m: Mode, b: Layout, at: Path, name: Path)
    requires b.base <= name && |b.base| < |name| && name != b.Resources()
    ensures Proper(m, b, at, [SealFile(at + name, Exempted)])
  {
    OwnProper(m, b, at, name, [SealFile(at + name, Exempted)]);
  }

  lemma EntryUnsealed(m: Mode, b: Layout, at: Path, path: Path, inode: nat)
    ensures Proper(m, b, at, [Entry(path)]) && Proper(m, b, at, [RegularFile(path, inode)]) && Proper(m, b, at, [])
  {
    hide OwnSeal;
  }

  lemma {:induction false} DirProper(m: Mode, b: Layout, at: Path, name: Path, dir: Node, depth: nat)
    requires Enumerates(m) && Refuse !in DirOps(m, b, at, name, dir, depth)
    ensures Proper(m, b, at, DirOps(m, b, at, name, dir, depth))
    decreases dir, 1
  {
    hide Proper, ListOps;
    if dir.Dir? {
      ListProper(m, b, at, name, dir, m.order(at + name, dir.children.Keys), depth);
    } else {
      EntryUnsealed(m, b, at, at, 0);
    }
  }

  lemma {:induction false} ListProper(m: Mode, b: Layout, at: Path, name: Path, dir: Node, names: seq<string>,
                                      depth: nat)
    requires Enumerates(m) && dir.Dir? && Refuse !in ListOps(m, b, at, name, dir, names, depth)
    ensures Proper(m, b, at, ListOps(m, b, at, name, dir, names, depth))
    decreases dir, 0, |names|
  {
    hide Proper, NodeOps;
    EntryUnsealed(m, b, at, at, 0);
    if names != [] {
      var front, last := names[..|names| - 1], names[|names| - 1];
      var earlier := ListOps(m, b, at, name, dir, front, depth);
      var later := if last in dir.children then NodeOps(m, b, at, name + [last], dir.children[last], depth) else [];
      ListProper(m, b, at, name, dir, front, depth);
      if last in dir.children {
        NodeProper(m, b, at, name + [last], dir.children[last], depth);
      }
      hide ListOps;
      ProperAppend(m, b, at, earlier, later);
    }
  }

  lemma {:induction false} WalkProper(m: Mode, b: Layout, at: Path, tree: Node, depth: nat)
    requires Enumerates(m) && Refuse !in WalkOps(m, b, at, tree, depth)
    ensures Proper(m, b, at, WalkOps(m, b, at, tree, depth))
    decreases tree, 2
  {
    hide Proper, DirOps;
    if !b.Versioned() {
      DirProper(m, b, at, [], tree, depth);
    } else if b.base[1] in VersionsOf(tree) {
      DirProper(m, b, at, b.base, VersionsOf(tree)[b.base[1]], depth);
    }
  }

  /** Every seal of one tree scan is the bundle's own, or lies inside a sealed child. */
  lemma TreeProper(m: Mode, b: Layout, at: Path, tree: Node, depth: nat)
    requires Enumerates(m) && Refuse !in TreeOps(m, b, at, tree, depth)
    ensures Proper(m, b, at, TreeOps(m, b, at, tree, depth))
  {
    ScanLaws.FrontUnsealed(m, b, at, tree);
    ScanLaws.InventoryUnsealed(m, b, at, tree, depth);
    hide Proper, LayoutOps, TargetOps, WalkOps, InventoryOps, Layout.Resources;
    var front := LayoutOps(m, b, at, tree) + (TargetOps(at, b.executable, tree) + TargetOps(at, b.Resources(), tree));
    var walk, rest := WalkOps(m, b, at, tree, depth), InventoryOps(m, b, at, tree, depth);
    assert forall op <- walk :: op in front + walk + rest;
    WalkProper(m, b, at, tree, depth);
    UnsealedProper(m, b, at, front);
    UnsealedProper(m, b, at, rest);
    ProperAppend(m, b, at, front, walk);
    ProperAppend(m, b, at, front + walk, rest);
  }

  /** Where loading a bundle puts its executable: in its MacOS directory, or beside its resources. */
  predicate Placed(b: Layout) {
    && b.base <= b.executable
    && (|b.executable| == |b.base| + 1 || (|b.executable| == |b.base| + 2 && b.executable[|b.base|] == "MacOS"))
  }

  lemma NotInside(m: Mode, b: Layout, at: Path, ops: seq<Op>, name: Path)
    requires Proper(m, b, at, ops) && b.base <= name
    requires |name| == |b.base| + 1
      || (|name| == |b.base| + 2 && name[|b.base|] in {"MacOS", "Resources", "_CodeSignature"})
    ensures !Inside(ops, at, at + name)
  {
    hide OwnSeal;
    var path := at + name;
    if k :| |at| < k < |path| && SealFile(path[..k], Bundle) in ops {
      ShortestOwn(m, b, at, ops, path[..k]);
      var j :| |at| < j <= k && SealFile(path[..k][..j], Bundle) in ops
        && OwnSeal(m, b, path[..k][..j][|at|..], Bundle);
      assert path[..k][..j][|at|..] == name[..j - |at|];
      OwnBelowBase(m, b, name, j - |at|);
    }
  }

  /** A child bundle of the scan's own lies below the base, and not at one of its three directories. */
  lemma OwnBelowBase(m: Mode, b: Layout, name: Path, n: nat)
    requires n < |name| && b.base <= name && OwnSeal(m, b, name[..n], Bundle)
    ensures |b.base| < n && (n == |b.base| + 1 ==> name[|b.base|] !in {"MacOS", "Resources", "_CodeSignature"})
  {
    if n == |b.base| + 1 {
      assert b.Rel(name[..n]) == [name[|b.base|]];
    }
  }

  /** A sealed bundle lies at, or below, one that is the scan's own. */
  lemma {:induction false} ShortestOwn(m: Mode, b: Layout, at: Path, ops: seq<Op>, path: Path)
    requires Proper(m, b, at, ops) && SealFile(path, Bundle) in ops && |at| < |path|
    ensures exists j ::
      |at| < j <= |path| && SealFile(path[..j], Bundle) in ops && OwnSeal(m, b, path[..j][|at|..], Bundle)
    decreases |path|
  {
    hide OwnSeal;
    assert ProperOp(m, b, at, ops, SealFile(path, Bundle));
    assert path[..|path|] == path;
    if Inside(ops, at, path) {
      var k :| |at| < k < |path| && SealFile(path[..k], Bundle) in ops;
      ShortestOwn(m, b, at, ops, path[..k]);
      var j :| |at| < j <= k && SealFile(path[..k][..j], Bundle) in ops
        && OwnSeal(m, b, path[..k][..j][|at|..], Bundle);
      assert path[..k][..j] == path[..j];
    }
  }

  /**
   * No scan of a bundle seals the bundle's own executable or envelope, so no nested code it plans to
   * sign is written where these are. Only an attribute file of the executable's name is exempted.
   */
  lemma MainIsNotSealed(m: Mode, b: Layout, at: Path, tree: Node, depth: nat, seal: Seal)
    requires Enumerates(m) && Placed(b) && Refuse !in TreeOps(m, b, at, tree, depth)
    ensures SealFile(at + b.executable, seal) in TreeOps(m, b, at, tree, depth) ==> seal.Exempted?
    ensures SealFile(at + b.Resources(), seal) !in TreeOps(m, b, at, tree, depth)
  {
    TreeProper(m, b, at, tree, depth);
    hide TreeOps;
    var ops := TreeOps(m, b, at, tree, depth);
    forall name | name == b.executable || name == b.Resources()
      ensures SealFile(at + name, seal) in ops ==> name == b.executable && seal.Exempted?
    {
      NotInside(m, b, at, ops, name);
      assert (at + name)[|at|..] == name;
      assert SealFile(at + name, seal) in ops ==> ProperOp(m, b, at, ops, SealFile(at + name, seal));
    }
  }

  /** The child bundles a scan leaves to the bundle itself are different directories, none within another. */
  lemma ChildrenApart(m: Mode, b: Layout, at: Path, tree: Node, depth: nat, i: nat, j: nat)
    requires Enumerates(m)
    requires var ops := TreeOps(m, b, at, tree, depth);
      && i < j < |ops| && ops[i].SealFile? && ops[j].SealFile? && ops[i].seal.Bundle? && ops[j].seal.Bundle?
      && !Inside(ops, at, ops[i].path) && !Inside(ops, at, ops[j].path)
    ensures var ops := TreeOps(m, b, at, tree, depth);
      !(ops[i].path <= ops[j].path) && !(ops[j].path <= ops[i].path)
  {
    ScanLaws.TreeSeals(m, b, at, tree, depth);
    hide TreeOps, Inside, Layout.Start;
    ScanLaws.FurtherUp(TreeOps(m, b, at, tree, depth), at, b.Start());
    var ops := TreeOps(m, b, at, tree, depth);
    var p, q := ops[i].path, ops[j].path;
    assert ops[i] in ops && ops[j] in ops && ScanLaws.IsSeal(ops[i]) && ScanLaws.IsSeal(ops[j]);
    assert !ScanLaws.SameSeal(ops[i], ops[j]);
    if p < q {
      WithinSealed(ops, at, p, q);
    }
    if q < p {
      WithinSealed(ops, at, q, p);
    }
  }

  lemma WithinSealed(ops: seq<Op>, at: Path, p: Path, q: Path)
    requires SealFile(p, Bundle) in ops && at < p < q
    ensures Inside(ops, at, q)
  {
    assert q[..|p|] == p;
  }
}
