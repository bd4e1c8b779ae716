/** What an accepted scan makes of every entry, told by its place and its bytes. */
module PlaceSeals {
  import opened Text
  import opened Wrappers
  import opened ScanScope
  import opened TreeScan
  import opened Places
  import OwnSeals
  import ScanEnvelope

  /** A resource, by its place: one of the fixed files, or below the folders of resources. */
  predicate HashedPlace(m: Mode, b: Layout, rel: Path, node: Node)
    requires rel != []
  {
    && Judged(m, b, rel, node)
    && if Fixed(b, rel) then b.base + rel != b.executable
      && rel !in {["Info.plist"], ["_CodeSignature", "CodeResources"]}
       else |rel| > 1 && ResourcePlace(b, rel)
  }

  /** Nested code, by its place: below a folder of code, or beside the fixed files. */
  predicate CodePlace(m: Mode, b: Layout, rel: Path, node: Node)
    requires rel != []
  {
    Judged(m, b, rel, node) && !Fixed(b, rel) && !CodeFolder(rel) && (InCodeFolder(rel) || |rel| == 1)
  }

  /** The seal that the entry at `rel` gets. */
  ghost predicate Fits(m: Mode, b: Layout, rel: Path, node: Node, seal: Seal)
    requires rel != []
  {
    match seal
    case Exempted =>
      && m.verifyResources && AttributeCarrier(rel, node)
      && !Spine(rel) && !FinderFile(b.base + rel, node) && !Stray(m, rel, node)
    case Bundle => node.Dir? && CodePlace(m, b, rel, node) && |rel| > 1 && NamesBundle(rel[|rel| - 1])
    case Code(content) =>
      && node.File? && CodePlace(m, b, rel, node) && content == node.content
      && (Included(rel, true) || Included(rel, false))
    case Linked(target, optional) =>
      && node.Link? && (CodePlace(m, b, rel, node) || (HashedPlace(m, b, rel, node) && !Fixed(b, rel)))
      && Included(rel, false) && target == node.target && optional == Optional(rel, false)
    case Hashed(hash, optional) =>
      && node.File? && HashedPlace(m, b, rel, node)
      && Included(rel, false) && hash == m.hash2(node.content) && optional == Optional(rel, false)
  }

  lemma SealFits(m: Mode, b: Layout, rel: Path, node: Node, seal: Seal)
    requires rel != []
    ensures OwnSeals.SealOf(m, b, b.base + rel, node) == Some(seal) <==> Fits(m, b, rel, node, seal)
  {
    RoleByPlace(m, b, rel, node);
    PlacesApart(m, b, rel, node);
    BundleNames(rel[|rel| - 1]);
    hide RoleOf, NamesBundle, BundleSuffix, LowerPath, AttributeCarrier, Included, Optional, Layout.Rel,
      Layout.Resources;
  }

  lemma DirRole(m: Mode, b: Layout, at: Path, name: Path, node: Node, depth: nat)
    requires name != [] && node.Dir? && Refuse !in NodeOps(m, b, at, name, node, depth)
    ensures RoleOf(m, b, name, node).Folder? || OwnSeals.SealOf(m, b, name, node) == Some(Bundle)
  {
    assert RoleOf(m, b, name, node).Folder? || RoleOf(m, b, name, node).ChildBundle? by {
      hide LowerPath, NestedInside, NestedContainer, BundleSuffix, DirOps, ChildOps, Layout.Rel, Layout.Resources;
    }
    hide RoleOf, NodeOps;
  }

  /** The walk of an accepted scan gets everywhere but into sealed children. */
  lemma {:induction false} AllReached(m: Mode, b: Layout, at: Path, tree: Node, depth: nat, name: Path)
    requires Enumerates(m) && Refuse !in TreeOps(m, b, at, tree, depth)
    requires b.Start() < name && Lookup(tree, name).Some?
    requires !ScanEnvelope.Inside(TreeOps(m, b, at, tree, depth), at, at + name)
    ensures OwnSeals.Reached(m, b, tree, name)
    decreases |name|
  {
    hide TreeOps, RoleOf, OwnSeals.SealOf, NodeOps, Layout.Start, Enumerates;
    var p := name[..|name| - 1];
    assert name == p + [name[|name| - 1]];
    if |b.Start()| < |p| {
      var ops := TreeOps(m, b, at, tree, depth);
      Parent(tree, p, name[|name| - 1]);
      assert !ScanEnvelope.Inside(ops, at, at + p) by {
        assert at + p <= at + name && forall k | 0 <= k < |at + p| :: (at + p)[..k] == (at + name)[..k];
      }
      AllReached(m, b, at, tree, depth, p);
      OwnSeals.ReachedIsWalked(m, b, at, tree, depth, p);
      DirRole(m, b, at, p, Lookup(tree, p).value, depth);
      assert SealFile((at + name)[..|at + p|], Bundle) in ops ==> ScanEnvelope.Inside(ops, at, at + name);
      assert (at + name)[..|at + p|] == at + p;
      if !RoleOf(m, b, p, Lookup(tree, p).value).Folder? {
        OwnSeals.ReachedIsSealed(m, b, at, tree, depth, p, Bundle);
      }
      forall k | |b.Start()| < k < |name|
        ensures OwnSeals.FolderAt(m, b, tree, name[..k])
      {
        if k < |p| {
          assert name[..k] == p[..k];
        } else {
          assert name[..k] == p;
        }
      }
    } else {
      assert |name| == |b.Start()| + 1;
    }
  }

  lemma {:induction false} Parent(tree: Node, p: Path, x: string)
    requires Lookup(tree, p + [x]).Some?
    ensures Lookup(tree, p).Some? && Lookup(tree, p).value.Dir?
    decreases |p|
  {
    var name := p + [x];
    if p != [] {
      assert name[0] == p[0] && name[1..] == p[1..] + [x];
      Parent(tree.children[p[0]], p[1..], x);
    }
  }

  /**
   * The seals that an accepted scan leaves to a bundle, by place and content alone: each entry below the
   * base and in no sealed child is sealed exactly as `Fits` says.
   */
  lemma SealedByPlace(m: Mode, b: Layout, at: Path, tree: Node, depth: nat, rel: Path, seal: Seal)
    requires Enumerates(m) && Refuse !in TreeOps(m, b, at, tree, depth)
    requires rel != []
    requires !ScanEnvelope.Inside(TreeOps(m, b, at, tree, depth), at, at + (b.base + rel))
    ensures SealFile(at + (b.base + rel), seal) in TreeOps(m, b, at, tree, depth) <==>
      Lookup(tree, b.base + rel).Some? && Fits(m, b, rel, Lookup(tree, b.base + rel).value, seal)
  {
    var name := b.base + rel;
    assert b.Start() < name;
    hide TreeOps, OwnSeals.SealOf, Fits, ScanEnvelope.Inside, OwnSeals.Reached, Layout.Start;
    OwnSeals.OwnExactly(m, b, at, tree, depth, name, seal);
    if Lookup(tree, name).Some? {
      AllReached(m, b, at, tree, depth, name);
      SealFits(m, b, rel, Lookup(tree, name).value, seal);
    } else if OwnSeals.Reached(m, b, tree, name) {
      OwnSeals.ReachedThere(m, b, tree, name);
    }
  }

  /** The seals of a resource, in the envelopes that include it. */
  ghost function ResourceWork(m: Mode, path: Path, rel: Path, node: Node): seq<Op>
    requires node.File?
  {
    (if Included(rel, true) || Included(rel, false) then [AddBytes(node.size)] else [])
    + (if Included(rel, true) then [SealLegacy(path, Hashed(m.hash1(node.content), Optional(rel, true)))] else [])
    + (if Included(rel, false) then [SealFile(path, Hashed(m.hash2(node.content), Optional(rel, false)))] else [])
  }

  /** Nested code is a write target; unless the envelopes leave it out, it must be code, and counts as a child. */
  ghost function CodeWork(m: Mode, path: Path, rel: Path, node: Node): seq<Op>
    requires node.File?
  {
    [WriteTarget(path, node.inode)]
    + if !Included(rel, true) && !Included(rel, false) then []
      else if !m.isCode(node.content) then [AddChild, Refuse]
      else [AddChild, AddBytes(node.size), SealFile(path, Code(node.content))]
  }

  ghost function LinkWork(m: Mode, path: Path, rel: Path, node: Node): seq<Op>
    requires node.Link? && rel != []
  {
    if Lower(rel[|rel| - 1]) == ".ds_store" || !LinkOk(m, rel, node) then [Refuse]
    else if Included(rel, false) then
      [AddBytes(|node.target|), SealFile(path, Linked(node.target, Optional(rel, false)))]
    else [AddBytes(|node.target|)]
  }

  /** Everything the scan does about an entry below the base that is no directory. */
  ghost function EntryWork(m: Mode, b: Layout, path: Path, rel: Path, node: Node): seq<Op>
    requires rel != [] && !node.Dir?
  {
    if !Judged(m, b, rel, node) then
      if FinderFile(b.base + rel, node) && !Spine(rel) then []
      else if Tolerated(m, rel, node) && node.Link? then []
      else if Tolerated(m, rel, node) && node.File? then [RegularFile(path, node.inode)]
      else if Spine(rel) || Stray(m, rel, node) then [Refuse]
      else [SealFile(path, Exempted)]
    else if node.File? && (Fixed(b, rel) || HashedPlace(m, b, rel, node)) then
      [RegularFile(path, node.inode)] + if HashedPlace(m, b, rel, node) then ResourceWork(m, path, rel, node) else []
    else if node.File? && CodePlace(m, b, rel, node) then
      [RegularFile(path, node.inode)] + CodeWork(m, path, rel, node)
    else if node.Link? && !Fixed(b, rel) && (CodePlace(m, b, rel, node) || HashedPlace(m, b, rel, node)) then
      LinkWork(m, path, rel, node)
    else
      [Refuse]
  }

  lemma CodeEffects(m: Mode, b: Layout, at: Path, rel: Path, node: Node)
    requires rel != [] && node.File? && !Fixed(b, rel)
    ensures FileOps(m, b, at, b.base + rel, node, true)
      == [RegularFile(at + (b.base + rel), node.inode)] + CodeWork(m, at + (b.base + rel), rel, node)
  {
    PlacesApart(m, b, rel, node);
    hide Included, Optional, Layout.Rel, Layout.Resources;
  }

  lemma ResourceEffects(m: Mode, b: Layout, at: Path, rel: Path, node: Node)
    requires rel != [] && node.File?
    ensures var path, bound := at + (b.base + rel),
        b.base + rel == b.executable || rel in {["Info.plist"], ["_CodeSignature", "CodeResources"]};
      FileOps(m, b, at, b.base + rel, node, false)
      == [RegularFile(path, node.inode)] + if bound then [] else ResourceWork(m, path, rel, node)
  {
    PlacesApart(m, b, rel, node);
    hide Included, Optional, Layout.Rel, Layout.Resources;
  }

  lemma LinkEffects(m: Mode, b: Layout, at: Path, rel: Path, node: Node)
    requires rel != [] && node.Link?
    ensures LinkOps(m, b, at, b.base + rel, node) == LinkWork(m, at + (b.base + rel), rel, node)
  {
    PlacesApart(m, b, rel, node);
    assert (b.base + rel)[|b.base + rel| - 1] == rel[|rel| - 1];
    hide Included, Optional, Layout.Rel, Layout.Resources, LinkOk, Lower;
  }

  /** Every effect of such an entry, and that it is refused at any other place. */
  lemma EntryByPlace(m: Mode, b: Layout, at: Path, rel: Path, node: Node, depth: nat)
    requires rel != [] && !node.Dir?
    ensures NodeOps(m, b, at, b.base + rel, node, depth)
      == [Entry(at + (b.base + rel))] + EntryWork(m, b, at + (b.base + rel), rel, node)
  {
    hide RoleOf, NamesBundle, BundleSuffix, LowerPath, AttributeCarrier, Included, Optional, Layout.Rel,
      Layout.Resources;
    hide LinkOps, FileOps, CodeWork, LinkWork, ResourceWork, CodeFolder, InCodeFolder, DirOps, ChildOps;
    ResourceSpread(b, rel);
    if Judged(m, b, rel, node) {
      RoleIfPlain(m, b, rel, node);
      if node.Link? {
        LinkEffects(m, b, at, rel, node);
      } else if node.File? && CodePlace(m, b, rel, node) {
        CodeEffects(m, b, at, rel, node);
      } else if node.File? {
        ResourceEffects(m, b, at, rel, node);
      }
    } else {
      RoleIfNotPlain(m, b, rel, node);
    }
  }

  lemma ResourceSpread(b: Layout, rel: Path)
    ensures ResourcePlace(b, rel) ==> !CodeFolder(rel) && !InCodeFolder(rel)
  {
  }
}
