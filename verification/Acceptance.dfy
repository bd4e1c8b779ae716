/** Exactly which trees a scan accepts, but for its budgets and its registries. */
module Acceptance {
  import opened Listing
  import opened Text
  import opened Wrappers
  import opened ScanScope
  import opened TreeScan
  import opened Places
  import opened PlaceSeals
  import OwnSeals
  import ScanLaws

  predicate FolderPlace(m: Mode, b: Layout, rel: Path, node: Node)
    requires rel != []
  {
    || Spine(rel) || Tolerated(m, rel, node)
    || (Judged(m, b, rel, node) && !Fixed(b, rel)
        && (ResourcePlace(b, rel) || CodeFolder(rel) || (InCodeFolder(rel) && '.' !in rel[|rel| - 1])))
  }

  predicate BundlePlace(m: Mode, b: Layout, rel: Path, node: Node)
    requires rel != []
  {
    CodePlace(m, b, rel, node) && |rel| > 1 && NamesBundle(rel[|rel| - 1])
  }

  /** An entry is as its place demands; a child bundle is accepted as a whole. */
  ghost predicate EntryFine(m: Mode, b: Layout, at: Path, name: Path, node: Node, depth: nat)
    requires name != []
  {
    if b.base < name then
      var rel := name[|b.base|..];
      if node.Dir? then
        FolderPlace(m, b, rel, node)
          || (BundlePlace(m, b, rel, node) && Refuse !in ChildOps(m, at + name, node, depth + 1))
      else
        Refuse !in EntryWork(m, b, at + name, rel, node)
    else if name == b.base || Spine(name) then
      node.Dir?
    else
      FinderFile(name, node) || AttributeCarrier(name, node)
  }

  lemma FineExactly(m: Mode, b: Layout, at: Path, name: Path, node: Node, depth: nat)
    requires name != []
    ensures EntryFine(m, b, at, name, node, depth) <==>
      RoleOf(m, b, name, node).Folder? || Refuse !in NodeOps(m, b, at, name, node, depth)
  {
    if b.base < name {
      var rel := name[|b.base|..];
      assert b.base + rel == name;
      RoleByPlace(m, b, rel, node);
      PlacesApart(m, b, rel, node);
      hide RoleOf, EntryWork, DirOps, ChildOps, CodeFolder, InCodeFolder, ResourcePlace, NamesBundle, Stray, Judged,
        Spine;
      if !node.Dir? {
        EntryByPlace(m, b, at, rel, node, depth);
      }
    } else {
      RoleOutside(m, b, name, node);
      hide RoleOf, DirOps, ChildOps, Spine, AttributeCarrier, FinderFile;
    }
  }

  lemma {:induction false} RefusedInList(m: Mode, b: Layout, at: Path, name: Path, dir: Node, names: seq<string>,
                                         depth: nat) returns (x: string)
    requires dir.Dir? && Refuse in ListOps(m, b, at, name, dir, names, depth)
    ensures x in names && x in dir.children && Refuse in NodeOps(m, b, at, name + [x], dir.children[x], depth)
  {
    hide NodeOps;
    x := names[|names| - 1];
    if Refuse in ListOps(m, b, at, name, dir, names[..|names| - 1], depth) {
      x := RefusedInList(m, b, at, name, dir, names[..|names| - 1], depth);
    }
  }

  /** A refusal below an entry is that of an entry the walk gets to. */
  lemma {:induction false} RefusedBelow(m: Mode, b: Layout, at: Path, name: Path, node: Node, depth: nat)
    returns (rest: Path)
    requires name != [] && Refuse in NodeOps(m, b, at, name, node, depth)
    ensures Lookup(node, rest).Some? && OwnSeals.FoldersTo(m, b, name, node, rest)
    ensures !EntryFine(m, b, at, name + rest, Lookup(node, rest).value, depth)
    decreases node
  {
    hide RoleOf, EntryFine, NodeOps, OwnSeals.FoldersTo;
    FineExactly(m, b, at, name, node, depth);
    rest := [];
    assert name + [] == name;
    if RoleOf(m, b, name, node).Folder? {
      FolderWork(m, b, at, name, node, depth);
      var x := RefusedInList(m, b, at, name, node, m.order(at + name, node.children.Keys), depth);
      rest := RefusedBelow(m, b, at, name + [x], node.children[x], depth);
      assert name + [x] + rest == name + ([x] + rest) && ([x] + rest)[1..] == rest;
      OwnSeals.FoldersStep(m, b, name, node, [x] + rest);
      rest := [x] + rest;
    } else {
      OwnSeals.NoFolders(m, b, name, node);
    }
  }

  lemma FolderWork(m: Mode, b: Layout, at: Path, name: Path, node: Node, depth: nat)
    requires name != [] && RoleOf(m, b, name, node).Folder?
    ensures NodeOps(m, b, at, name, node, depth) == [Entry(at + name)] + DirOps(m, b, at, name, node, depth)
    ensures DirOps(m, b, at, name, node, depth)
      == if node.Dir? then ListOps(m, b, at, name, node, m.order(at + name, node.children.Keys), depth) else []
  {
    hide RoleOf;
  }

  ghost predicate AllFine(m: Mode, b: Layout, at: Path, tree: Node, depth: nat) {
    forall name | OwnSeals.Reached(m, b, tree, name) :: EntryFine(m, b, at, name, Lookup(tree, name).value, depth)
  }

  lemma WalkRefused(m: Mode, b: Layout, at: Path, tree: Node, depth: nat)
    requires b.Versioned() ==> FrameworkRootOk(m, b, tree)
    requires Refuse in WalkOps(m, b, at, tree, depth)
    ensures !AllFine(m, b, at, tree, depth)
  {
    var dir := WalkedDir(m, b, tree);
    assert WalkOps(m, b, at, tree, depth) == DirOps(m, b, at, b.Start(), dir, depth);
    hide WalkOps, FrameworkRootOk, Layout.Start, Layout.Versioned, RoleOf, EntryFine, OwnSeals.Reached,
      OwnSeals.FoldersTo;
    hide ScanLaws.Walked, Lookup;
    var x := RefusedInList(m, b, at, b.Start(), dir, m.order(at + b.Start(), dir.children.Keys), depth);
    var top, node := b.Start() + [x], dir.children[x];
    var rest := RefusedBelow(m, b, at, top, node, depth);
    var name := top + rest;
    assert name[..|b.Start()| + 1] == top && name[|b.Start()| + 1..] == rest && name[|b.Start()|] == x;
    OwnSeals.ReachedFromTop(m, b, tree, name);
    assert OwnSeals.Reached(m, b, tree, name) && !EntryFine(m, b, at, name, Lookup(tree, name).value, depth);
  }

  lemma WalkedDir(m: Mode, b: Layout, tree: Node) returns (dir: Node)
    requires b.Versioned() ==> FrameworkRootOk(m, b, tree)
    ensures ScanLaws.Walked(b, tree) == Some(dir) && (b.Versioned() ==> dir.Dir?)
  {
    dir := if b.Versioned() then VersionsOf(tree)[b.base[1]] else tree;
  }

  /** No member of another version is anything but a directory, a file or a link. */
  ghost predicate StrayFine(node: Node) {
    forall rest | Lookup(node, rest).Some? :: !Lookup(node, rest).value.Other?
  }

  lemma {:induction false} StrayExactly(m: Mode, path: Path, node: Node)
    requires Enumerates(m)
    ensures Refuse !in StrayOps(m, path, node) <==> StrayFine(node)
    decreases node, 1
  {
    ScanLaws.LookupSelf(node);
    if node.Dir? {
      StrayDirExactly(m, path, node);
    }
  }

  lemma {:induction false} StrayDirExactly(m: Mode, path: Path, dir: Node)
    requires Enumerates(m) && dir.Dir?
    ensures Refuse !in StrayDirOps(m, path, dir) <==> StrayFine(dir)
    decreases dir, 0
  {
    var names := m.order(path, dir.children.Keys);
    var parts := map x | x in dir.children :: StrayOps(m, path + [x], dir.children[x]);
    assert forall x :: x in names <==> x in dir.children by {
      assert multiset(names) == multiset(dir.children.Keys);
      assert forall x :: x in names <==> x in multiset(names);
    }
    if Refuse in Concat(names, parts) {
      var x := InConcat(names, parts, Refuse);
      StrayExactly(m, path + [x], dir.children[x]);
      var rest :| Lookup(dir.children[x], rest).Some? && Lookup(dir.children[x], rest).value.Other?;
      assert ([x] + rest)[1..] == rest;
      assert Lookup(dir, [x] + rest) == Lookup(dir.children[x], rest);
    } else {
      forall rest | Lookup(dir, rest).Some?
        ensures !Lookup(dir, rest).value.Other?
      {
        if rest != [] {
          ConcatContains(names, parts, rest[0]);
          StrayExactly(m, path + [rest[0]], dir.children[rest[0]]);
        }
      }
    }
  }

  /** The versions that are gone through without being scanned hold nothing strange. */
  ghost predicate OthersFine(m: Mode, b: Layout, tree: Node, depth: nat) {
    Inventories(m, b, depth) ==> forall v | v in OtherVersions(b, tree) :: StrayFine(VersionsOf(tree)[v])
  }

  lemma InventoryExactly(m: Mode, b: Layout, at: Path, tree: Node, depth: nat)
    requires Enumerates(m)
    ensures Refuse !in InventoryOps(m, b, at, tree, depth) <==> OthersFine(m, b, tree, depth)
  {
    hide StrayFine, StrayDirOps;
    if Inventories(m, b, depth) {
      var others, parts := OtherVersions(b, tree), StrayParts(m, b, at, tree);
      var names := m.order(at + ["Versions"], others);
      assert forall x :: x in names <==> x in others by {
        assert multiset(names) == multiset(others);
        assert forall x :: x in names <==> x in multiset(names);
      }
      forall v | v in others
        ensures Refuse !in parts[v] <==> StrayFine(VersionsOf(tree)[v])
      {
        StrayDirExactly(m, at + ["Versions", v], VersionsOf(tree)[v]);
      }
      if Refuse in Concat(names, parts) {
        var v := InConcat(names, parts, Refuse);
      } else {
        forall v | v in others
          ensures Refuse !in parts[v]
        {
          ConcatContains(names, parts, v);
        }
      }
    }
  }

  /**
   * The scan of a tree refuses nothing exactly when its root is as a framework's should be, every entry
   * that it gets to is as its place demands, and the other versions hold nothing strange.
   */
  lemma AcceptedExactly(m: Mode, b: Layout, at: Path, tree: Node, depth: nat)
    requires Enumerates(m)
    ensures Refuse !in TreeOps(m, b, at, tree, depth) <==>
      && (b.Versioned() ==> FrameworkRootOk(m, b, tree))
      && AllFine(m, b, at, tree, depth) && OthersFine(m, b, tree, depth)
  {
    InventoryExactly(m, b, at, tree, depth);
    LayoutExactly(m, b, at, tree);
    hide LayoutOps, InventoryOps, WalkOps, FrameworkRootOk, OthersFine, AllFine, Layout.Versioned;
    if Refuse !in TreeOps(m, b, at, tree, depth) {
      ReachedAreFine(m, b, at, tree, depth);
    } else if Refuse in WalkOps(m, b, at, tree, depth) && (b.Versioned() ==> FrameworkRootOk(m, b, tree)) {
      WalkRefused(m, b, at, tree, depth);
    }
  }

  lemma LayoutExactly(m: Mode, b: Layout, at: Path, tree: Node)
    ensures Refuse !in LayoutOps(m, b, at, tree) <==> (b.Versioned() ==> FrameworkRootOk(m, b, tree))
    ensures Refuse !in TargetOps(at, b.executable, tree) && Refuse !in TargetOps(at, b.Resources(), tree)
  {
    hide FrameworkRootOk, EnterOps;
    if b.Versioned() && tree.Dir? {
      ScanLaws.Enters(m, at, tree.children.Keys);
      ScanLaws.Enters(m, at + ["Versions"], VersionsOf(tree).Keys);
    }
    if b.Versioned() {
      ScanLaws.SameRoot(m, m, b, tree);
    }
  }

  lemma ReachedAreFine(m: Mode, b: Layout, at: Path, tree: Node, depth: nat)
    requires Enumerates(m) && Refuse !in TreeOps(m, b, at, tree, depth)
    ensures AllFine(m, b, at, tree, depth)
  {
    hide TreeOps, EntryFine, NodeOps, RoleOf;
    forall name | OwnSeals.Reached(m, b, tree, name)
      ensures EntryFine(m, b, at, name, Lookup(tree, name).value, depth)
    {
      OwnSeals.ReachedIsWalked(m, b, at, tree, depth, name);
      FineExactly(m, b, at, name, Lookup(tree, name).value, depth);
    }
  }

  /** A version of a framework, as a nested bundle is scanned once more. */
  ghost predicate VersionFine(m: Mode, b: Layout, at: Path, node: Node, depth: nat, v: string) {
    v in b.others && Refuse !in BundleOps(m, b.As(v), at, node, depth)
  }

  /** A child bundle: at most eight levels down, with a layout, an executable and a tree that are accepted. */
  lemma ChildExactly(m: Mode, at: Path, node: Node, depth: nat)
    requires Enumerates(m)
    ensures Refuse !in ChildOps(m, at, node, depth) <==>
      && depth <= 8 && node.Dir? && node.layout.Some?
      && Refuse !in BundleOps(m, node.layout.value, at, node, depth)
      && (m.verifyVersions ==> forall v | v in OtherVersions(node.layout.value, node) ::
            VersionFine(m, node.layout.value, at, node, depth, v))
  {
    hide BundleOps, OtherVersions;
    if node.Dir? && node.layout.Some? {
      AlternatesExactly(m, node.layout.value, at, node, depth);
    }
    hide AlternateOps, VersionFine;
  }

  lemma AlternatesExactly(m: Mode, b: Layout, at: Path, node: Node, depth: nat)
    requires Enumerates(m)
    ensures Refuse !in AlternateOps(m, b, at, node, depth) <==>
      (m.verifyVersions ==> forall v | v in OtherVersions(b, node) :: VersionFine(m, b, at, node, depth, v))
  {
    hide BundleOps, OtherVersions;
    var others, parts := OtherVersions(b, node), AlternateParts(m, b, at, node, depth);
    var names := m.order(at + ["Versions"], others);
    assert forall x :: x in names <==> x in others by {
      assert multiset(names) == multiset(others);
      assert forall x :: x in names <==> x in multiset(names);
    }
    forall v | v in others
      ensures Refuse !in parts[v] <==> VersionFine(m, b, at, node, depth, v)
    {
      assert parts[v] == AlternateOf(m, b, at, node, depth, v);
    }
    if Refuse in Concat(names, parts) {
      var v := InConcat(names, parts, Refuse);
    } else {
      forall v | v in others
        ensures VersionFine(m, b, at, node, depth, v)
      {
        ConcatContains(names, parts, v);
      }
    }
  }

  /** A bundle that is scanned: it has an executable, and its tree, or else its root, is accepted. */
  lemma BundleExactly(m: Mode, b: Layout, at: Path, root: Node, depth: nat)
    ensures Refuse !in BundleOps(m, b, at, root, depth) <==>
      && b.codeSize.Some?
      && if m.recurse then Refuse !in TreeOps(m, b, at, root, depth)
         else b.Versioned() ==> FrameworkRootOk(m, b, root)
  {
    hide TreeOps, FrameworkRootOk;
    LayoutExactly(m, b, at, root);
    hide LayoutOps;
  }
}
