/** What an accepted scan guards against: writes that reach another member, colliding names, uncounted work. */
module ScanSafety {
  import opened Listing
  import opened Sorting
  import opened Text
  import opened Wrappers
  import opened ScanScope
  import opened TreeScan
  import ScanLaws

  /** A sealed path was entered, a sealed file registered, and what signing writes registered as a write target. */
  ghost predicate BackedBy(m: Mode, root: Node, ops: seq<Op>, op: Op) {
    op.SealFile? ==>
      && Entry(op.path) in ops
      && (op.seal.Hashed? || op.seal.Code? ==> exists i :: RegularFile(op.path, i) in ops)
      && (op.seal.Code? ==> exists i :: WriteTarget(op.path, i) in ops)
      && (op.seal.Bundle? ==> Rooted(m, root, ops, op.path))
  }

  /** The directory of a sealed bundle, with its executable and envelope registered as write targets. */
  ghost predicate Rooted(m: Mode, root: Node, ops: seq<Op>, at: Path) {
    && Lookup(root, at).Some? && Lookup(root, at).value.Dir? && Lookup(root, at).value.layout.Some?
    && (m.recurse ==> TargetsIn(ops, at, Lookup(root, at).value.layout.value, Lookup(root, at).value))
    && (m.recurse ==> InventoryIn(m, ops, at, Lookup(root, at).value.layout.value, Lookup(root, at).value))
  }

  /** The versions that are not selected were gone through, unless they are scanned themselves. */
  ghost predicate InventoryIn(m: Mode, ops: seq<Op>, at: Path, b: Layout, tree: Node) {
    !m.verifyVersions ==> forall op <- InventoryOps(m, b, at, tree, 1) :: op in ops
  }

  ghost predicate TargetsIn(ops: seq<Op>, at: Path, b: Layout, tree: Node) {
    && (forall op <- TargetOps(at, b.executable, tree) :: op in ops)
    && (forall op <- TargetOps(at, b.Resources(), tree) :: op in ops)
  }

  ghost predicate Backed(m: Mode, root: Node, ops: seq<Op>) {
    forall op <- ops :: BackedBy(m, root, ops, op)
  }

  function NestedSeal(op: Op): int {
    if op.SealFile? && (op.seal.Code? || op.seal.Bundle?) then 1 else 0
  }

  /** The bytes a seal stands for: those of the file, or of the link's target. */
  function SealedBytes(root: Node, op: Op): int {
    if !op.SealFile? || op.seal.Exempted? then 0 else
    match Lookup(root, op.path)
    case Some(File(_, size, _, _, _)) => size
    case Some(Link(_, target, _)) => |target|
    case _ => 0
  }

  function BytesOf(root: Node): Op -> int {
    op => SealedBytes(root, op)
  }

  function VersionWeight(op: Op): int {
    if op.AddVersion? then 1 else 0
  }

  /** Every sealed byte has been counted, and every nested object and other version exactly once. */
  ghost predicate Balanced(root: Node, ops: seq<Op>) {
    && Sum(ByteWeight, ops) >= Sum(BytesOf(root), ops)
    && Sum(ChildWeight, ops) == Sum(NestedSeal, ops) + Sum(VersionWeight, ops)
  }

  ghost predicate Sane(m: Mode, root: Node, ops: seq<Op>) {
    Backed(m, root, ops) && Balanced(root, ops)
  }

  predicate CleanOp(op: Op) {
    !op.Refuse? && (op.AddBytes? ==> op.n >= 0)
  }

  ghost predicate Clean(ops: seq<Op>) {
    forall op <- ops :: CleanOp(op)
  }

  lemma CleanParts(a: seq<Op>, b: seq<Op>)
    requires Clean(a + b)
    ensures Clean(a) && Clean(b)
  {
    assert forall op <- a :: op in a + b;
    assert forall op <- b :: op in a + b;
  }

  lemma NoRefusal(ops: seq<Op>, i: nat)
    requires Clean(ops) && i < |ops|
    ensures ops[i] != Refuse
  {
    assert ops[i] in ops;
  }

  lemma BalancedAppend(root: Node, a: seq<Op>, b: seq<Op>)
    requires Balanced(root, a) && Balanced(root, b)
    ensures Balanced(root, a + b)
  {
    hide Sum;
    SumConcat(ByteWeight, a, b);
    SumConcat(BytesOf(root), a, b);
    SumConcat(ChildWeight, a, b);
    SumConcat(NestedSeal, a, b);
    SumConcat(VersionWeight, a, b);
  }

  lemma BackedInMore(m: Mode, root: Node, ops: seq<Op>, more: seq<Op>, op: Op)
    requires Backed(m, root, ops) && op in ops && forall x <- ops :: x in more
    ensures BackedBy(m, root, more, op)
  {
    hide Lookup, TargetOps, InventoryOps;
    assert BackedBy(m, root, ops, op);
  }

  lemma SaneAppend(m: Mode, root: Node, a: seq<Op>, b: seq<Op>)
    requires Sane(m, root, a) && Sane(m, root, b)
    ensures Sane(m, root, a + b)
  {
    hide Balanced;
    BalancedAppend(root, a, b);
    forall op <- a + b
      ensures BackedBy(m, root, a + b, op)
    {
      BackedInMore(m, root, if op in a then a else b, a + b, op);
    }
  }

  /** Effects that seal nothing and count no child. */
  predicate Plain(op: Op) {
    !op.SealFile? && !op.AddChild? && CleanOp(op)
  }

  lemma {:induction false} PlainSane(m: Mode, root: Node, ops: seq<Op>)
    requires forall i | 0 <= i < |ops| :: Plain(ops[i])
    ensures Sane(m, root, ops)
  {
    if ops != [] {
      assert Plain(ops[0]);
      PlainSane(m, root, ops[1..]);
      assert ops == [ops[0]] + ops[1..];
    }
    assert forall op <- ops :: Plain(op);
  }

  lemma SumOne(weight: Op -> int, op: Op)
    ensures Sum(weight, [op]) == weight(op)
  {
    assert [op][1..] == [];
  }

  /** A seal with the count of its bytes or children before it. */
  lemma PairBalanced(root: Node, ops: seq<Op>, a: Op, b: Op)
    requires Balanced(root, ops)
    requires ByteWeight(a) + ByteWeight(b) >= SealedBytes(root, a) + SealedBytes(root, b)
    requires ChildWeight(a) + ChildWeight(b) == NestedSeal(a) + NestedSeal(b) + VersionWeight(a) + VersionWeight(b)
    ensures Balanced(root, [a] + ops + [b])
  {
    hide Sum, SealedBytes;
    forall weight | weight in {ByteWeight, BytesOf(root), ChildWeight, NestedSeal, VersionWeight}
      ensures Sum(weight, [a] + ops + [b]) == weight(a) + Sum(weight, ops) + weight(b)
    {
      SumConcat(weight, [a] + ops, [b]);
      SumConcat(weight, [a], ops);
      SumOne(weight, a);
      SumOne(weight, b);
    }
  }

  lemma SumThree(weight: Op -> int, a: Op, b: Op, c: Op)
    ensures Sum(weight, [a, b, c]) == weight(a) + weight(b) + weight(c)
  {
    SumOne(weight, c);
    assert [a, b, c][1..] == [b, c] && [b, c][1..] == [c];
    assert Sum(weight, [b, c]) == weight(b) + Sum(weight, [c]);
  }

  lemma LinkSane(m: Mode, b: Layout, at: Path, name: Path, node: Node, root: Node)
    requires name != [] && node.Link? && Lookup(root, at + name) == Some(node)
    requires Clean([Entry(at + name)] + LinkOps(m, b, at, name, node))
    ensures Sane(m, root, [Entry(at + name)] + LinkOps(m, b, at, name, node))
  {
    hide Included, Optional, LinkOk, Lower, Lookup, Layout.Rel, Sum;
    var path, inner := at + name, LinkOps(m, b, at, name, node);
    PlainSane(m, root, [Entry(path)]);
    if inner == [AddBytes(|node.target|)] + [] {
      PlainSane(m, root, [Entry(path)] + inner);
    } else if inner != [Refuse] {
      var seal := SealFile(path, Linked(node.target, Optional(b.Rel(name), false)));
      PlainSane(m, root, []);
      PairBalanced(root, [], AddBytes(|node.target|), seal);
      assert inner == [AddBytes(|node.target|)] + [] + [seal];
      BalancedAppend(root, [Entry(path)], inner);
    } else {
      NoRefusal([Entry(path)] + inner, 1);
    }
  }

  /** The seals of one file, with its bytes counted, and with a child counted when it is code. */
  lemma SealsBalanced(m: Mode, path: Path, rel: Path, node: Node, nested: bool, root: Node)
    requires node.File? && Lookup(root, path) == Some(node) && Clean(SealOps(m, path, rel, node, nested))
    ensures Balanced(root, SealOps(m, path, rel, node, nested))
  {
    hide Included, Optional, Lookup, Sum;
    var ops := SealOps(m, path, rel, node, nested);
    PlainSane(m, root, []);
    if nested && ops != [] {
      var code := SealFile(path, Code(node.content));
      assert ops == [AddChild] + if m.isCode(node.content) then [AddBytes(node.size), code] else [Refuse];
      if m.isCode(node.content) {
        assert ops == [AddChild, AddBytes(node.size), code];
        forall weight | weight in {ByteWeight, BytesOf(root), ChildWeight, NestedSeal, VersionWeight}
          ensures Sum(weight, ops) == weight(AddChild) + weight(AddBytes(node.size)) + weight(code)
        {
          SumThree(weight, AddChild, AddBytes(node.size), code);
        }
      } else {
        assert ops[1] == Refuse;
        NoRefusal(ops, 1);
      }
    } else if ops != [] {
      var legacy := if Included(rel, true) then [SealLegacy(path, Hashed(m.hash1(node.content), Optional(rel, true)))]
        else [];
      PlainSane(m, root, legacy);
      if Included(rel, false) {
        var seal := SealFile(path, Hashed(m.hash2(node.content), Optional(rel, false)));
        PairBalanced(root, legacy, AddBytes(node.size), seal);
        assert ops == [AddBytes(node.size)] + legacy + [seal];
      } else {
        PlainSane(m, root, [AddBytes(node.size)] + legacy);
        assert ops == [AddBytes(node.size)] + legacy;
      }
    }
  }

  lemma FileSane(m: Mode, b: Layout, at: Path, name: Path, node: Node, nested: bool, root: Node)
    requires name != [] && node.File? && Lookup(root, at + name) == Some(node)
    requires Clean([Entry(at + name)] + FileOps(m, b, at, name, node, nested))
    ensures Sane(m, root, [Entry(at + name)] + FileOps(m, b, at, name, node, nested))
  {
    hide SealOps, Lookup, Sum, Layout.Rel, Layout.Resources, Balanced;
    var path, rel := at + name, b.Rel(name);
    var target := if nested && name != b.executable then [WriteTarget(path, node.inode)] else [];
    var front, sealed := [Entry(path), RegularFile(path, node.inode)] + target, SealOps(m, path, rel, node, nested);
    var ops := [Entry(path)] + FileOps(m, b, at, name, node, nested);
    PlainSane(m, root, front);
    if BoundBySignature(b, name) {
      assert ops == front + [] == front;
    } else {
      assert ops == front + sealed;
      CleanParts(front, sealed);
      SealsBalanced(m, path, rel, node, nested, root);
      BalancedAppend(root, front, sealed);
      SealedPaths(m, path, rel, node, nested);
      assert Entry(path) in ops && RegularFile(path, node.inode) in ops
        && (nested ==> WriteTarget(path, node.inode) in ops) by {
        assert front[0] in ops && front[1] in ops;
        assert nested ==> front[2] in ops;
      }
      forall op <- ops
        ensures BackedBy(m, root, ops, op)
      {
        assert op in front || op in sealed;
      }
    }
  }

  lemma SealedPaths(m: Mode, path: Path, rel: Path, node: Node, nested: bool)
    requires node.File?
    ensures forall op <- SealOps(m, path, rel, node, nested) | op.SealFile? ::
      op.path == path && !op.seal.Bundle? && (op.seal.Code? ==> nested)
  {
    hide Included, Optional;
  }

  lemma {:induction false} LookupStep(root: Node, at: Path, x: string, dir: Node)
    requires Lookup(root, at) == Some(dir) && dir.Dir? && x in dir.children
    ensures Lookup(root, at + [x]) == Some(dir.children[x])
    decreases |at|
  {
    if at == [] {
      assert Lookup(dir.children[x], []) == Some(dir.children[x]);
      assert ([] + [x])[1..] == [];
    } else {
      assert (at + [x])[1..] == at[1..] + [x];
      LookupStep(root.children[at[0]], at[1..], x, dir);
    }
  }

  lemma {:induction false} ListSane(m: Mode, b: Layout, at: Path, name: Path, dir: Node, names: seq<string>,
                                    depth: nat, root: Node)
    requires dir.Dir? && Lookup(root, at + name) == Some(dir) && Clean(ListOps(m, b, at, name, dir, names, depth))
    ensures Sane(m, root, ListOps(m, b, at, name, dir, names, depth))
    decreases dir, 0, |names|
  {
    hide Sane, Lookup, CleanOp;
    if names == [] {
      PlainSane(m, root, []);
    } else {
      var front, last := names[..|names| - 1], names[|names| - 1];
      var earlier := ListOps(m, b, at, name, dir, front, depth);
      var later := if last in dir.children then NodeOps(m, b, at, name + [last], dir.children[last], depth) else [];
      CleanParts(earlier, later);
      ListSane(m, b, at, name, dir, front, depth, root);
      if last in dir.children {
        LookupStep(root, at + name, last, dir);
        assert at + (name + [last]) == at + name + [last];
        NodeSane(m, b, at, name + [last], dir.children[last], depth, root);
      } else {
        PlainSane(m, root, []);
      }
      hide NodeOps, Clean;
      SaneAppend(m, root, earlier, later);
    }
  }

  lemma {:induction false} DirSane(m: Mode, b: Layout, at: Path, name: Path, dir: Node, depth: nat, root: Node)
    requires Lookup(root, at + name) == Some(dir) && Clean(DirOps(m, b, at, name, dir, depth))
    ensures Sane(m, root, DirOps(m, b, at, name, dir, depth))
    decreases dir, 1
  {
    hide Sane, ListOps, Lookup;
    if dir.Dir? {
      ListSane(m, b, at, name, dir, m.order(at + name, dir.children.Keys), depth, root);
    } else {
      PlainSane(m, root, []);
    }
  }

  lemma {:induction false} WalkSane(m: Mode, b: Layout, at: Path, tree: Node, depth: nat, root: Node)
    requires Lookup(root, at) == Some(tree) && Clean(WalkOps(m, b, at, tree, depth))
    ensures Sane(m, root, WalkOps(m, b, at, tree, depth))
    decreases tree, 2
  {
    hide Sane, DirOps, Lookup, CleanOp;
    assert at + [] == at;
    if !b.Versioned() {
      DirSane(m, b, at, [], tree, depth, root);
    } else if b.base[1] in VersionsOf(tree) {
      VersionAt(root, at, tree, b.base[1]);
      assert b.base == ["Versions", b.base[1]];
      DirSane(m, b, at, b.base, VersionsOf(tree)[b.base[1]], depth, root);
    } else {
      NoRefusal(WalkOps(m, b, at, tree, depth), 0);
    }
  }

  lemma VersionAt(root: Node, at: Path, tree: Node, v: string)
    requires Lookup(root, at) == Some(tree) && v in VersionsOf(tree)
    ensures Lookup(root, at + ["Versions", v]) == Some(VersionsOf(tree)[v])
  {
    hide Lookup;
    LookupStep(root, at, "Versions", tree);
    LookupStep(root, at + ["Versions"], v, tree.children["Versions"]);
    assert at + ["Versions"] + [v] == at + ["Versions", v];
  }

  lemma UnsealedSane(m: Mode, root: Node, ops: seq<Op>)
    requires ScanLaws.Unsealed(ops) && Clean(ops)
    ensures Sane(m, root, ops)
  {
    forall i | 0 <= i < |ops|
      ensures Plain(ops[i])
    {
      assert ops[i] in ops;
    }
    PlainSane(m, root, ops);
  }

  lemma {:induction false} TreeSane(m: Mode, b: Layout, at: Path, tree: Node, depth: nat, root: Node)
    requires Lookup(root, at) == Some(tree) && Clean(TreeOps(m, b, at, tree, depth))
    ensures Sane(m, root, TreeOps(m, b, at, tree, depth))
    decreases tree, 3
  {
    ScanLaws.LayoutEnters(m, b, at, tree);
    ScanLaws.InventoryUnsealed(m, b, at, tree, depth);
    hide Sane, LayoutOps, WalkOps, InventoryOps, Lookup, Clean, Layout.Resources;
    var targets := TargetOps(at, b.executable, tree) + TargetOps(at, b.Resources(), tree);
    var front, walk := LayoutOps(m, b, at, tree) + targets, WalkOps(m, b, at, tree, depth);
    var rest := InventoryOps(m, b, at, tree, depth);
    CleanParts(front + walk, rest);
    CleanParts(front, walk);
    UnsealedSane(m, root, front);
    WalkSane(m, b, at, tree, depth, root);
    UnsealedSane(m, root, rest);
    SaneAppend(m, root, front, walk);
    SaneAppend(m, root, front + walk, rest);
  }

  lemma {:induction false} BundleSane(m: Mode, b: Layout, at: Path, tree: Node, depth: nat, root: Node)
    requires Lookup(root, at) == Some(tree) && Clean(BundleOps(m, b, at, tree, depth))
    ensures Sane(m, root, BundleOps(m, b, at, tree, depth))
    decreases tree, 4
  {
    ScanLaws.LayoutEnters(m, b, at, tree);
    hide Sane, TreeOps, LayoutOps, Lookup, Clean;
    var info, middle := [AddBytes(b.infoSize)], if m.recurse then TreeOps(m, b, at, tree, depth)
      else LayoutOps(m, b, at, tree);
    var tail := CodeOps(m, b);
    assert BundleOps(m, b, at, tree, depth) == info + (middle + tail);
    CleanParts(info, middle + tail);
    CleanParts(middle, tail);
    CleanIsPlain(m, root, info);
    CleanIsPlain(m, root, tail);
    if m.recurse {
      TreeSane(m, b, at, tree, depth, root);
    } else {
      UnsealedSane(m, root, middle);
    }
    SaneAppend(m, root, middle, tail);
    SaneAppend(m, root, info, middle + tail);
  }

  lemma {:induction false} AlternateSane(m: Mode, b: Layout, at: Path, tree: Node, depth: nat, root: Node)
    requires Lookup(root, at) == Some(tree) && Clean(AlternateOps(m, b, at, tree, depth))
    ensures Sane(m, root, AlternateOps(m, b, at, tree, depth))
    decreases tree, 5, 1
  {
    hide Sane, Lookup, Clean, BundleOps;
    PlainSane(m, root, []);
    if m.verifyVersions {
      var names, parts := m.order(at + ["Versions"], OtherVersions(b, tree)), AlternateParts(m, b, at, tree, depth);
      forall v | v in parts && Clean(parts[v])
        ensures Sane(m, root, parts[v])
      {
        VersionSane(m, b, at, tree, depth, root, v);
      }
      ConcatSane(m, root, names, parts);
    }
  }

  lemma {:induction false} VersionSane(m: Mode, b: Layout, at: Path, tree: Node, depth: nat, root: Node, v: string)
    requires Lookup(root, at) == Some(tree) && v in OtherVersions(b, tree)
    requires Clean(AlternateParts(m, b, at, tree, depth)[v])
    ensures Sane(m, root, AlternateParts(m, b, at, tree, depth)[v])
    decreases tree, 5, 0
  {
    var part := AlternateParts(m, b, at, tree, depth)[v];
    hide Sane, Lookup, BundleOps;
    if v in b.others {
      CleanParts([AddVersion], BundleOps(m, b.As(v), at, tree, depth));
      BundleSane(m, b.As(v), at, tree, depth, root);
      PlainSane(m, root, [AddVersion]);
      SaneAppend(m, root, [AddVersion], BundleOps(m, b.As(v), at, tree, depth));
    } else {
      NoRefusal(part, 1);
    }
  }

  lemma {:induction false} ConcatSane(m: Mode, root: Node, names: seq<string>, parts: map<string, seq<Op>>)
    requires forall x | x in parts && Clean(parts[x]) :: Sane(m, root, parts[x])
    requires Clean(Concat(names, parts))
    ensures Sane(m, root, Concat(names, parts))
    decreases |names|
  {
    hide Sane, Clean;
    PlainSane(m, root, []);
    if names != [] {
      var front, last := Concat(names[..|names| - 1], parts), PartOf(names[|names| - 1], parts);
      CleanParts(front, last);
      ConcatSane(m, root, names[..|names| - 1], parts);
      SaneAppend(m, root, front, last);
    }
  }

  lemma CleanIsPlain(m: Mode, root: Node, ops: seq<Op>)
    requires Clean(ops) && forall op <- ops :: op.AddBytes? || op.Refuse?
    ensures Sane(m, root, ops)
  {
    forall i | 0 <= i < |ops|
      ensures Plain(ops[i])
    {
      assert ops[i] in ops;
    }
    PlainSane(m, root, ops);
  }

  lemma {:induction false} ChildSane(m: Mode, at: Path, node: Node, depth: nat, root: Node)
    requires Lookup(root, at) == Some(node) && Clean([Entry(at)] + ChildOps(m, at, node, depth))
    ensures Sane(m, root, [Entry(at)] + ChildOps(m, at, node, depth))
    decreases node, 6
  {
    hide Lookup, BundleOps, AlternateOps, Sum;
    var ops := [Entry(at)] + ChildOps(m, at, node, depth);
    if depth > MAX_DEPTH {
      NoRefusal(ops, 1);
    } else if node.Dir? && node.layout.Some? {
      var b, seal := node.layout.value, SealFile(at, Bundle);
      var main, others := BundleOps(m, b, at, node, depth), AlternateOps(m, b, at, node, depth);
      assert ops == [Entry(at), AddChild] + (main + others) + [seal];
      CleanParts([Entry(at), AddChild] + (main + others), [seal]);
      CleanParts([Entry(at), AddChild], main + others);
      CleanParts(main, others);
      BundleSane(m, b, at, node, depth, root);
      AlternateSane(m, b, at, node, depth, root);
      SaneAppend(m, root, main, others);
      if m.recurse {
        TargetsFirst(m, b, at, node, depth);
      }
      Sealing(m, root, at, node, main + others);
    } else {
      NoRefusal(ops, 2);
    }
  }

  lemma TargetsFirst(m: Mode, b: Layout, at: Path, tree: Node, depth: nat)
    requires m.recurse
    ensures TargetsIn(TreeOps(m, b, at, tree, depth), at, b, tree)
    ensures TargetsIn(BundleOps(m, b, at, tree, depth), at, b, tree)
    ensures InventoryIn(m, TreeOps(m, b, at, tree, depth), at, b, tree)
    ensures InventoryIn(m, BundleOps(m, b, at, tree, depth), at, b, tree)
  {
    assert !m.verifyVersions ==> InventoryOps(m, b, at, tree, depth) == InventoryOps(m, b, at, tree, 1);
    hide TargetOps, LayoutOps, WalkOps, InventoryOps, Layout.Resources;
    assert TargetsIn(TreeOps(m, b, at, tree, depth), at, b, tree);
    assert InventoryIn(m, TreeOps(m, b, at, tree, depth), at, b, tree);
    hide TreeOps;
  }

  /** A child bundle is counted, scanned, and sealed. */
  lemma Sealing(m: Mode, root: Node, at: Path, node: Node, inner: seq<Op>)
    requires Lookup(root, at) == Some(node) && node.Dir? && node.layout.Some? && Sane(m, root, inner)
    requires m.recurse ==> TargetsIn(inner, at, node.layout.value, node)
    requires m.recurse ==> InventoryIn(m, inner, at, node.layout.value, node)
    ensures Sane(m, root, [Entry(at), AddChild] + inner + [SealFile(at, Bundle)])
  {
    hide Lookup, Sum;
    var seal := SealFile(at, Bundle);
    var middle := [AddChild] + inner + [seal];
    var ops := [Entry(at)] + middle;
    PairBalanced(root, inner, AddChild, seal);
    PlainSane(m, root, [Entry(at)]);
    BalancedAppend(root, [Entry(at)], middle);
    assert ops == [Entry(at), AddChild] + inner + [seal];
    hide InventoryOps;
    assert m.recurse ==> TargetsIn(ops, at, node.layout.value, node);
    assert m.recurse ==> InventoryIn(m, ops, at, node.layout.value, node);
    hide TargetsIn, InventoryIn;
    forall op <- ops
      ensures BackedBy(m, root, ops, op)
    {
      assert Entry(at) in ops;
      if op in inner {
        BackedInMore(m, root, inner, ops, op);
      }
    }
  }

  lemma {:induction false} NodeSane(m: Mode, b: Layout, at: Path, name: Path, node: Node, depth: nat, root: Node)
    requires name != [] && Lookup(root, at + name) == Some(node) && Clean(NodeOps(m, b, at, name, node, depth))
    ensures Sane(m, root, NodeOps(m, b, at, name, node, depth))
    decreases node, 7
  {
    hide RoleOf, Sane, Lookup, LinkOps, FileOps, DirOps, ChildOps, CleanOp;
    var ops, path := NodeOps(m, b, at, name, node, depth), at + name;
    match RoleOf(m, b, name, node)
    case Refused =>
      NoRefusal(ops, 1);
    case Passed =>
      assert ops == [Entry(path)];
      EntrySane(m, root, path);
    case Folder =>
      EntrySane(m, root, path);
      CleanParts([Entry(path)], DirOps(m, b, at, name, node, depth));
      DirSane(m, b, at, name, node, depth, root);
      SaneAppend(m, root, [Entry(path)], DirOps(m, b, at, name, node, depth));
    case StaleSignature =>
      StaleSane(m, root, path, node.inode);
      assert ops == [Entry(path), RegularFile(path, node.inode)];
    case AttributeFile =>
      CarrierSane(m, root, path);
      assert ops == [Entry(path), SealFile(path, Exempted)];
    case ChildBundle =>
      ChildSane(m, path, node, depth + 1, root);
    case Member(nested) =>
      if node.Link? {
        LinkSane(m, b, at, name, node, root);
      } else if node.File? {
        FileSane(m, b, at, name, node, nested, root);
      } else {
        NoRefusal(ops, 1);
      }
  }

  lemma EntrySane(m: Mode, root: Node, path: Path)
    ensures Sane(m, root, [Entry(path)])
  {
    PlainSane(m, root, [Entry(path)]);
  }

  lemma CarrierSane(m: Mode, root: Node, path: Path)
    ensures Sane(m, root, [Entry(path), SealFile(path, Exempted)])
  {
    hide Lookup, Rooted;
    PlainSane(m, root, []);
    PairBalanced(root, [], Entry(path), SealFile(path, Exempted));
    assert [Entry(path)] + [] + [SealFile(path, Exempted)] == [Entry(path), SealFile(path, Exempted)];
  }

  lemma StaleSane(m: Mode, root: Node, path: Path, inode: nat)
    ensures Sane(m, root, [Entry(path), RegularFile(path, inode)])
  {
    PlainSane(m, root, [Entry(path), RegularFile(path, inode)]);
  }

  /** The effects of an accepted scan, with what its laws rest on. */
  lemma AcceptedScan(m: Mode, b: Layout, root: Node)
    requires Enumerates(m) && Run(m.validPath, START, TreeOps(m, b, [], root, 0)).Some?
    ensures var ops := TreeOps(m, b, [], root, 0);
      && Sane(m, root, ops) && Acceptable(m.validPath, ops) && Describes(Run(m.validPath, START, ops).value, ops)
      && ScanLaws.Truthful(m, ops, [], root) && ScanLaws.SealsApart(ops, [])
  {
    hide Describes, Run, Sane, Acceptable, Consistent, Lookup, Clean, ScanLaws.Truthful;
    hide ScanLaws.SealsApart, Layout.Start;
    var ops := TreeOps(m, b, [], root, 0);
    ScanLaws.EffectsConsistent(m, b, root);
    RunIsAcceptable(m.validPath, ops);
    ScanLaws.TreeTruthful(m, b, [], root, 0);
    ScanLaws.TreeSeals(m, b, [], root, 0);
    hide TreeOps;
    ScanLaws.FurtherUp(ops, [], b.Start());
    AcceptableIsClean(m.validPath, ops);
    RootItself(root);
    TreeSane(m, b, [], root, 0, root);
  }

  lemma RootItself(root: Node)
    ensures Lookup(root, []) == Some(root)
  {
  }

  lemma AcceptableIsClean(valid: Path -> bool, ops: seq<Op>)
    requires Acceptable(valid, ops)
    ensures Clean(ops)
  {
    hide Sum, Clash;
    forall op <- ops
      ensures CleanOp(op)
    {
      var i :| 0 <= i < |ops| && ops[i] == op;
      assert Admissible(valid, ops[i]);
    }
  }

  /** A file that signing may write: code of its own, or the executable or envelope of a bundle of the tree. */
  ghost predicate Written(b: Layout, root: Node, files2: map<Path, Seal>, p: Path) {
    || p == b.executable || p == b.Resources()
    || (p in files2 && files2[p].Code?)
    || exists at :: at in files2 && files2[at].Bundle? && WrittenIn(root, at, p)
  }

  ghost predicate WrittenIn(root: Node, at: Path, p: Path) {
    && Lookup(root, at).Some? && Lookup(root, at).value.Dir? && Lookup(root, at).value.layout.Some?
    && var child := Lookup(root, at).value.layout.value;
    (p == at + child.executable || p == at + child.Resources())
  }

  /**
   * Writing a signature never changes another member of the bundle: after a successful scan, no file
   * that signing may write shares its inode with a sealed file elsewhere in the tree.
   */
  lemma WritesStayApart(m: Mode, b: Layout, root: Node, p: Path, q: Path)
    requires Enumerates(m) && m.recurse && Run(m.validPath, START, TreeOps(m, b, [], root, 0)).Some?
    requires var files2 := Run(m.validPath, START, TreeOps(m, b, [], root, 0)).value.files2;
      && Written(b, root, files2, p) && Lookup(root, p).Some?
      && q in files2 && (files2[q].Hashed? || files2[q].Code?) && p != q
    ensures Lookup(root, q).Some? && Lookup(root, p).value.inode != Lookup(root, q).value.inode
  {
    AcceptedScan(m, b, root);
    var ops, files2 := TreeOps(m, b, [], root, 0), Run(m.validPath, START, TreeOps(m, b, [], root, 0)).value.files2;
    TargetsFirst(m, b, [], root, 0);
    hide TreeOps, Run, Acceptable, Balanced, Lookup, Seen, Sum;
    WrittenIsTarget(m, b, root, ops, files2, p);
    assert SealFile(q, files2[q]) in ops && BackedBy(m, root, ops, SealFile(q, files2[q])) by {
      assert FILE_SEALS(q, files2[q]) in ops;
    }
    var j :| RegularFile(q, j) in ops;
    TargetsAndFilesApart(m, root, ops, p, Lookup(root, p).value.inode, q, j);
  }

  lemma WrittenIsTarget(m: Mode, b: Layout, root: Node, ops: seq<Op>, files2: map<Path, Seal>, p: Path)
    requires m.recurse && TargetsIn(ops, [], b, root) && Backed(m, root, ops) && Holds(files2, ops, FILE_SEALS)
    requires ScanLaws.Truthful(m, ops, [], root) && Written(b, root, files2, p) && Lookup(root, p).Some?
    ensures WriteTarget(p, Lookup(root, p).value.inode) in ops
  {
    hide Layout.Resources, Lookup, WrittenIn, Backed, ScanLaws.Truthful, Holds, TargetsIn;
    if p in files2 && files2[p].Code? {
      CodeIsTarget(m, root, ops, files2, p);
    } else if p == b.executable || p == b.Resources() {
      OwnIsTarget(ops, b, root, p);
    } else {
      var at :| at in files2 && files2[at].Bundle? && WrittenIn(root, at, p);
      ChildIsTarget(m, root, ops, files2, at, p);
    }
  }

  lemma OwnIsTarget(ops: seq<Op>, b: Layout, root: Node, p: Path)
    requires TargetsIn(ops, [], b, root) && (p == b.executable || p == b.Resources()) && Lookup(root, p).Some?
    ensures WriteTarget(p, Lookup(root, p).value.inode) in ops
  {
    hide Layout.Resources, Lookup;
    assert [] + p == p;
    assert WriteTarget([] + p, Lookup(root, p).value.inode) in TargetOps([], p, root);
  }

  lemma CodeIsTarget(m: Mode, root: Node, ops: seq<Op>, files2: map<Path, Seal>, p: Path)
    requires Backed(m, root, ops) && Holds(files2, ops, FILE_SEALS) && ScanLaws.Truthful(m, ops, [], root)
    requires p in files2 && files2[p].Code?
    ensures Lookup(root, p).Some? && WriteTarget(p, Lookup(root, p).value.inode) in ops
  {
    hide Lookup, Rooted;
    assert FILE_SEALS(p, files2[p]) in ops && BackedBy(m, root, ops, SealFile(p, files2[p]));
    var i :| WriteTarget(p, i) in ops;
    assert ScanLaws.NamesFile(WriteTarget(p, i)) && p[0..] == p;
  }

  lemma ChildIsTarget(m: Mode, root: Node, ops: seq<Op>, files2: map<Path, Seal>, at: Path, p: Path)
    requires m.recurse && Backed(m, root, ops) && Holds(files2, ops, FILE_SEALS)
    requires at in files2 && files2[at].Bundle? && WrittenIn(root, at, p) && Lookup(root, p).Some?
    ensures WriteTarget(p, Lookup(root, p).value.inode) in ops
  {
    hide Layout.Resources, Lookup;
    assert FILE_SEALS(at, files2[at]) in ops && BackedBy(m, root, ops, SealFile(at, files2[at]));
    var tree := Lookup(root, at).value;
    var name := if p == at + tree.layout.value.executable then tree.layout.value.executable
      else tree.layout.value.Resources();
    LookupAppend(root, at, name);
    assert WriteTarget(at + name, Lookup(tree, name).value.inode) in TargetOps(at, name, tree);
  }

  lemma {:induction false} LookupAppend(root: Node, at: Path, name: Path)
    requires Lookup(root, at).Some?
    ensures Lookup(root, at + name) == Lookup(Lookup(root, at).value, name)
    decreases |at|
  {
    if at == [] {
      assert at + name == name;
    } else {
      assert (at + name)[1..] == at[1..] + name;
      LookupAppend(root.children[at[0]], at[1..], name);
    }
  }

  lemma TargetsAndFilesApart(m: Mode, root: Node, ops: seq<Op>, p: Path, i: nat, q: Path, j: nat)
    requires Acceptable(m.validPath, ops) && ScanLaws.Truthful(m, ops, [], root)
    requires WriteTarget(p, i) in ops && RegularFile(q, j) in ops && p != q
    ensures Lookup(root, q).Some? && Lookup(root, q).value.inode == j && i != j
  {
    hide Lookup;
    assert q[0..] == q && ScanLaws.NamesFile(RegularFile(q, j));
    var x :| 0 <= x < |ops| && ops[x] == WriteTarget(p, i);
    var y :| 0 <= y < |ops| && ops[y] == RegularFile(q, j);
    assert if x < y then !Clash(ops[x], ops[y]) else !Clash(ops[y], ops[x]);
  }

  /** A regular file of a version of the framework at `at` that signing has not selected. */
  ghost predicate Stray(b: Layout, root: Node, files2: map<Path, Seal>, at: Path, v: string, rest: Path) {
    && Lookup(root, at).Some? && rest != []
    && (at == [] || (at in files2 && files2[at].Bundle? && Lookup(root, at).value.Dir?
                     && Lookup(root, at).value.layout.Some?))
    && var layout := if at == [] then b else Lookup(root, at).value.layout.value;
    && !layout.alternate && v in OtherVersions(layout, Lookup(root, at).value)
    && var found := Lookup(VersionsOf(Lookup(root, at).value)[v], rest);
    found.Some? && found.value.File?
  }

  /**
   * Nor does it change a version that was not selected, of the framework itself or of one nested in
   * it: no file that signing may write shares its inode with a file there.
   */
  lemma VersionsStayApart(m: Mode, b: Layout, root: Node, p: Path, at: Path, v: string, rest: Path)
    requires Enumerates(m) && m.recurse && !m.verifyVersions
    requires Run(m.validPath, START, TreeOps(m, b, [], root, 0)).Some?
    requires var files2 := Run(m.validPath, START, TreeOps(m, b, [], root, 0)).value.files2;
      && Written(b, root, files2, p) && Lookup(root, p).Some? && p != at + ["Versions", v] + rest
      && Stray(b, root, files2, at, v, rest)
    ensures var q := at + ["Versions", v] + rest;
      Lookup(root, q).Some? && Lookup(root, p).value.inode != Lookup(root, q).value.inode
  {
    AcceptedScan(m, b, root);
    TargetsFirst(m, b, [], root, 0);
    hide TreeOps, Run, Acceptable, Backed, Balanced, Lookup, Seen, Sum, Stray, Written, Holds, TargetsIn, InventoryIn;
    hide ScanLaws.Truthful, ScanLaws.SealsApart;
    var ops, files2 := TreeOps(m, b, [], root, 0), Run(m.validPath, START, TreeOps(m, b, [], root, 0)).value.files2;
    WrittenIsTarget(m, b, root, ops, files2, p);
    var j := StrayIsRegistered(m, b, root, ops, files2, at, v, rest);
    TargetsAndFilesApart(m, root, ops, p, Lookup(root, p).value.inode, at + ["Versions", v] + rest, j);
  }

  lemma StrayIsRegistered(m: Mode, b: Layout, root: Node, ops: seq<Op>, files2: map<Path, Seal>, at: Path, v: string,
                          rest: Path) returns (j: nat)
    requires Enumerates(m) && m.recurse && !m.verifyVersions && Stray(b, root, files2, at, v, rest)
    requires Backed(m, root, ops) && Holds(files2, ops, FILE_SEALS) && InventoryIn(m, ops, [], b, root)
    ensures RegularFile(at + ["Versions", v] + rest, j) in ops
  {
    hide Lookup, InventoryOps, TargetsIn, VersionsOf;
    var tree := Lookup(root, at).value;
    var layout := if at == [] then b else tree.layout.value;
    RootItself(root);
    if at != [] {
      assert FILE_SEALS(at, files2[at]) in ops && BackedBy(m, root, ops, SealFile(at, files2[at]));
    }
    VersionRegistered(m, layout, at, tree, v, rest);
    j := Lookup(VersionsOf(tree)[v], rest).value.inode;
    assert InventoryIn(m, ops, at, layout, tree);
  }

  lemma VersionRegistered(m: Mode, b: Layout, at: Path, tree: Node, v: string, rest: Path)
    requires Enumerates(m) && !m.verifyVersions && !b.alternate && v in OtherVersions(b, tree) && rest != []
    requires Lookup(VersionsOf(tree)[v], rest).Some? && Lookup(VersionsOf(tree)[v], rest).value.File?
    ensures RegularFile(at + ["Versions", v] + rest, Lookup(VersionsOf(tree)[v], rest).value.inode)
         in InventoryOps(m, b, at, tree, 1)
  {
    hide StrayDirOps, Lookup;
    var names := m.order(at + ["Versions"], OtherVersions(b, tree));
    assert v in multiset(names);
    StrayDirRegistered(m, at + ["Versions", v], VersionsOf(tree)[v], rest);
    ConcatContains(names, StrayParts(m, b, at, tree), v);
  }

  lemma {:induction false} StrayDirRegistered(m: Mode, path: Path, dir: Node, rest: Path)
    requires Enumerates(m) && dir.Dir? && rest != []
    requires Lookup(dir, rest).Some? && Lookup(dir, rest).value.File?
    ensures RegularFile(path + rest, Lookup(dir, rest).value.inode) in StrayDirOps(m, path, dir)
    decreases |rest|
  {
    var x, child := rest[0], dir.children[rest[0]];
    var names := m.order(path, dir.children.Keys);
    var parts := map y | y in dir.children :: StrayOps(m, path + [y], dir.children[y]);
    assert x in multiset(names);
    assert path + [x] + rest[1..] == path + rest;
    if rest[1..] == [] {
      assert Lookup(child, []) == Some(child) && path + rest == path + [x];
      assert RegularFile(path + [x], child.inode) in parts[x];
    } else {
      StrayDirRegistered(m, path + [x], child, rest[1..]);
      assert RegularFile(path + rest, Lookup(dir, rest).value.inode) in parts[x];
    }
    hide StrayOps, Lookup;
    ConcatContains(names, parts, x);
  }

  /** No two sealed paths differ in letter case alone, so a case-folding filesystem keeps them apart. */
  lemma NamesStayApart(m: Mode, b: Layout, root: Node, p: Path, q: Path)
    requires Enumerates(m) && Run(m.validPath, START, TreeOps(m, b, [], root, 0)).Some?
    requires var files2 := Run(m.validPath, START, TreeOps(m, b, [], root, 0)).value.files2;
      p in files2 && q in files2 && p != q
    ensures LowerPath(p) != LowerPath(q)
  {
    AcceptedScan(m, b, root);
    hide *;
    var ops := TreeOps(m, b, [], root, 0);
    SealedIsEntered(m, root, ops, Run(m.validPath, START, ops).value, p);
    SealedIsEntered(m, root, ops, Run(m.validPath, START, ops).value, q);
    EntriesApart(m.validPath, ops, p, q);
  }

  lemma SealedIsEntered(m: Mode, root: Node, ops: seq<Op>, s: State, p: Path)
    requires Sane(m, root, ops) && Describes(s, ops) && p in s.files2
    ensures Entry(p) in ops
  {
    hide Balanced, Seen, Lookup, Rooted, Sum;
    assert FILE_SEALS(p, s.files2[p]) in ops && BackedBy(m, root, ops, SealFile(p, s.files2[p]));
  }

  lemma EntriesApart(valid: Path -> bool, ops: seq<Op>, p: Path, q: Path)
    requires Acceptable(valid, ops) && Entry(p) in ops && Entry(q) in ops && p != q
    ensures LowerPath(p) != LowerPath(q)
  {
    hide LowerPath, Sum;
    var x :| 0 <= x < |ops| && ops[x] == Entry(p);
    var y :| 0 <= y < |ops| && ops[y] == Entry(q);
    assert if x < y then !Clash(ops[x], ops[y]) else !Clash(ops[y], ops[x]);
  }

  ghost predicate NestedKind(seal: Seal) {
    seal.Code? || seal.Bundle?
  }

  /** The paths that the first effects seal as nested code or bundles. */
  ghost function NestedPaths(ops: seq<Op>): set<Path> {
    set op | op in ops && op.SealFile? && NestedKind(op.seal) :: op.path
  }

  lemma {:induction false} NestedPathsCount(ops: seq<Op>)
    requires ScanLaws.SealsApart(ops, [])
    ensures |NestedPaths(ops)| == Sum(NestedSeal, ops)
  {
    if ops != [] {
      var front, last := ops[..|ops| - 1], ops[|ops| - 1];
      assert ops == front + [last];
      SealsApartPrefix(front, last);
      NestedPathsCount(front);
      SumAppend(NestedSeal, front, last);
      NestedPathsNext(front, last);
    }
  }

  lemma SealsApartPrefix(front: seq<Op>, last: Op)
    requires ScanLaws.SealsApart(front + [last], [])
    ensures ScanLaws.SealsApart(front, []) && forall op <- front :: !ScanLaws.SameSeal(op, last)
  {
    hide ScanLaws.SameSeal;
    var ops := front + [last];
    assert forall i | 0 <= i < |front| :: ops[i] == front[i];
    assert forall op <- front :: op in ops;
    forall op <- front
      ensures !ScanLaws.SameSeal(op, last)
    {
      var i :| 0 <= i < |front| && front[i] == op;
      assert !ScanLaws.SameSeal(ops[i], ops[|front|]);
    }
  }

  lemma NestedPathsNext(front: seq<Op>, last: Op)
    requires forall op <- front :: !ScanLaws.SameSeal(op, last)
    ensures |NestedPaths(front + [last])| == |NestedPaths(front)| + NestedSeal(last)
  {
    if NestedSeal(last) == 1 {
      assert NestedPaths(front + [last]) == NestedPaths(front) + {last.path};
      assert last.path !in NestedPaths(front);
    } else {
      assert NestedPaths(front + [last]) == NestedPaths(front);
    }
  }

  /**
   * The budgets are what they stand for: the nested count is the number of nested code objects and
   * bundles sealed and of versions not selected, at most 64, and the byte count covers every sealed
   * byte without overflow.
   */
  lemma WorkIsCounted(m: Mode, b: Layout, root: Node)
    requires Enumerates(m) && Run(m.validPath, START, TreeOps(m, b, [], root, 0)).Some?
    ensures var ops := TreeOps(m, b, [], root, 0);
      var s := Run(m.validPath, START, ops).value;
      && s.nested == |set p | p in s.files2 && NestedKind(s.files2[p])| + Sum(VersionWeight, ops)
      && s.nested <= MAX_NESTED && Sum(BytesOf(root), ops) <= s.bytes <= MAX_INT64
  {
    AcceptedScan(m, b, root);
    hide *;
    var ops := TreeOps(m, b, [], root, 0);
    CountsAgree(m, root, ops, Run(m.validPath, START, ops).value);
  }

  lemma CountsAgree(m: Mode, root: Node, ops: seq<Op>, s: State)
    requires Sane(m, root, ops) && Acceptable(m.validPath, ops) && Describes(s, ops) && ScanLaws.SealsApart(ops, [])
    ensures s.nested == |set p | p in s.files2 && NestedKind(s.files2[p])| + Sum(VersionWeight, ops)
    ensures s.nested <= MAX_NESTED && Sum(BytesOf(root), ops) <= s.bytes <= MAX_INT64
  {
    hide Backed, Seen, Sum, Clash, Admissible, ScanLaws.SealsApart, NestedPaths;
    NestedPathsCount(ops);
    NestedPathsNoted(s.files2, ops);
  }

  lemma NestedPathsNoted(files2: map<Path, Seal>, ops: seq<Op>)
    requires Holds(files2, ops, FILE_SEALS)
    ensures (set p | p in files2 && NestedKind(files2[p])) == NestedPaths(ops)
  {
    assert forall p | p in files2 :: FILE_SEALS(p, files2[p]) in ops;
    assert forall op <- ops | op.SealFile? :: FILE_SEALS(op.path, op.seal) in ops;
  }
}
