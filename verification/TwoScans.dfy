/** Two accepted scans, in whatever modes, of trees that look alike along a path seal that path alike. */
module TwoScans {
  import opened Text
  import opened Wrappers
  import opened ScanScope
  import opened TreeScan
  import opened OwnSeals
  import ScanLaws

  /** Loading the bundle before and after signing finds the same places; sizes may differ. */
  predicate SamePlaces(b: Layout, d: Layout) {
    b.base == d.base && b.executable == d.executable && b.infoPath == d.infoPath && b.framework == d.framework
  }

  predicate SameKind(x: Node, y: Node) {
    x.Dir? == y.Dir? && x.File? == y.File? && x.Link? == y.Link?
  }

  predicate KindKept(x: Node, y: Node, name: Path) {
    Lookup(x, name).Some? && Lookup(y, name).Some? && SameKind(Lookup(x, name).value, Lookup(y, name).value)
  }

  /** Modes decide which entries are refused, and whether attribute files are spared, but nothing else. */
  lemma RolesAgree(s: Mode, v: Mode, b: Layout, d: Layout, name: Path, x: Node, y: Node)
    requires name != [] && SamePlaces(b, d) && SameKind(x, y)
    requires !RoleOf(s, b, name, x).Refused? && !RoleOf(v, d, name, y).Refused?
    requires !RoleOf(s, b, name, x).AttributeFile? && !RoleOf(v, d, name, y).AttributeFile?
    ensures RoleOf(s, b, name, x) == RoleOf(v, d, name, y)
  {
    hide Lower, LowerPath, Carrier, NestedInside, NestedContainer, FrameworkResource, BundleSuffix;
  }

  lemma FolderIsDir(m: Mode, b: Layout, name: Path, node: Node)
    requires name != [] && (RoleOf(m, b, name, node).Folder? || RoleOf(m, b, name, node).ChildBundle?)
    ensures node.Dir?
  {
    hide Lower, LowerPath, NestedInside, NestedContainer, FrameworkResource, BundleSuffix;
  }

  lemma DirIsNoCarrier(m: Mode, b: Layout, name: Path, node: Node)
    requires name != [] && RoleOf(m, b, name, node).AttributeFile?
    ensures node.File?
  {
    hide Lower, LowerPath, NestedInside, NestedContainer, FrameworkResource, BundleSuffix;
  }

  /** An accepted scan refuses nothing that it reaches. */
  lemma ReachedIsAllowed(m: Mode, b: Layout, tree: Node, name: Path)
    requires Enumerates(m) && Refuse !in TreeOps(m, b, [], tree, 0) && Reached(m, b, tree, name)
    ensures !RoleOf(m, b, name, Lookup(tree, name).value).Refused?
  {
    ReachedIsWalked(m, b, [], tree, 0, name);
    hide TreeOps, RoleOf, Reached, Lookup;
    RefusedIsRefuse(m, b, name, Lookup(tree, name).value);
    hide NodeOps;
  }

  lemma RefusedIsRefuse(m: Mode, b: Layout, name: Path, node: Node)
    requires name != []
    ensures RoleOf(m, b, name, node).Refused? ==> Refuse in NodeOps(m, b, [], name, node, 0)
  {
    hide RoleOf;
  }

  /** The walk of the second scan follows that of the first. */
  lemma {:induction false} FollowsTo(s: Mode, v: Mode, b: Layout, d: Layout, x: Node, y: Node, name: Path, n: nat)
    requires SamePlaces(b, d) && Enumerates(v) && Refuse !in TreeOps(v, d, [], y, 0)
    requires Reached(s, b, x, name) && |b.Start()| < n <= |name|
    requires forall k | |b.Start()| < k <= |name| :: KindKept(x, y, name[..k])
    requires Enumerates(s) && Refuse !in TreeOps(s, b, [], x, 0)
    ensures Reached(v, d, y, name[..n])
    decreases n
  {
    hide TreeOps, RoleOf, Lookup, Enumerates;
    assert KindKept(x, y, name[..n]);
    forall k | |d.Start()| < k < n
      ensures FolderAt(v, d, y, name[..n][..k])
    {
      assert name[..n][..k] == name[..k] && KindKept(x, y, name[..k]) && FolderAt(s, b, x, name[..k]);
      FollowsTo(s, v, b, d, x, y, name, k);
      ReachedIsAllowed(v, d, y, name[..k]);
      FolderFollows(s, v, b, d, x, y, name[..k]);
    }
  }

  lemma FolderFollows(s: Mode, v: Mode, b: Layout, d: Layout, x: Node, y: Node, name: Path)
    requires name != [] && SamePlaces(b, d) && KindKept(x, y, name) && FolderAt(s, b, x, name)
    requires !RoleOf(v, d, name, Lookup(y, name).value).Refused?
    ensures FolderAt(v, d, y, name)
  {
    hide RoleOf, Lookup;
    var p, q := Lookup(x, name).value, Lookup(y, name).value;
    FolderIsDir(s, b, name, p);
    if RoleOf(v, d, name, q).AttributeFile? {
      DirIsNoCarrier(v, d, name, q);
    }
    RolesAgree(s, v, b, d, name, p, q);
  }

  /** The seal of the same kind that `node` gets in place of `seal`. */
  ghost predicate Renewed(hash2: Content -> seq<int>, seal: Seal, node: Node, later: Seal) {
    match seal
    case Hashed(_, optional) => node.File? && later == Hashed(hash2(node.content), optional)
    case Linked(_, optional) => node.Link? && later == Linked(node.target, optional)
    case Code(_) => node.File? && later == Code(node.content)
    case Bundle => later == Bundle
    case Exempted => true
  }

  /** A path the first scan seals is sealed by the second, in the same way, or spared as an attribute file. */
  lemma SealFollows(s: Mode, v: Mode, b: Layout, d: Layout, x: Node, y: Node, name: Path)
    requires SamePlaces(b, d) && Enumerates(s) && Enumerates(v)
    requires Refuse !in TreeOps(s, b, [], x, 0) && Refuse !in TreeOps(v, d, [], y, 0)
    requires Reached(s, b, x, name) && SealOf(s, b, name, Lookup(x, name).value).Some?
    requires !SealOf(s, b, name, Lookup(x, name).value).value.Exempted?
    requires forall k | |b.Start()| < k <= |name| :: KindKept(x, y, name[..k])
    ensures Reached(v, d, y, name)
    ensures var seal, later := SealOf(s, b, name, Lookup(x, name).value), SealOf(v, d, name, Lookup(y, name).value);
      later.Some? && (later.value.Exempted? || Renewed(v.hash2, seal.value, Lookup(y, name).value, later.value))
  {
    hide TreeOps, RoleOf, SealOf, Lookup, Enumerates;
    assert name[..|name|] == name;
    FollowsTo(s, v, b, d, x, y, name, |name|);
    ReachedIsAllowed(v, d, y, name);
    SealRenewed(s, v, b, d, name, Lookup(x, name).value, Lookup(y, name).value);
  }

  lemma SealRenewed(s: Mode, v: Mode, b: Layout, d: Layout, name: Path, x: Node, y: Node)
    requires name != [] && SamePlaces(b, d) && SameKind(x, y)
    requires !RoleOf(v, d, name, y).Refused?
    requires SealOf(s, b, name, x).Some? && !SealOf(s, b, name, x).value.Exempted?
    ensures SealOf(v, d, name, y).Some?
    ensures var later := SealOf(v, d, name, y).value;
      later.Exempted? || Renewed(v.hash2, SealOf(s, b, name, x).value, y, later)
  {
    hide RoleOf, Included, Optional;
    if !RoleOf(v, d, name, y).AttributeFile? {
      RolesAgree(s, v, b, d, name, x, y);
    }
  }
}
