/** What an entry is by the place where it lies, told by paths alone, one rule for each kind of entry. */
module Places {
  import opened Text
  import opened ScanScope
  import opened TreeScan

  const CODE_FOLDERS := {"MacOS", "Helpers", "Frameworks", "SharedFrameworks", "PlugIns", "Plug-ins", "XPCServices"}
  const LIBRARY_FOLDERS := {"Automator", "Spotlight", "LoginItems"}
  const SUFFIXES := {".app", ".bundle", ".plugin", ".xpc", ".appex", ".framework"}

  /** The folders of nested code, and the one above three of them. */
  predicate CodeFolder(rel: Path) {
    || (|rel| == 1 && (rel[0] in CODE_FOLDERS || rel[0] == "Library"))
    || (|rel| == 2 && rel[0] == "Library" && rel[1] in LIBRARY_FOLDERS)
  }

  predicate InCodeFolder(rel: Path) {
    || (|rel| >= 2 && rel[0] in CODE_FOLDERS)
    || (|rel| >= 3 && rel[0] == "Library" && rel[1] in LIBRARY_FOLDERS)
  }

  /** Where in the list of roots the folder of `rel` stands. */
  function RootIndex(rel: Path): nat
    requires rel != []
  {
    match rel[0]
    case "MacOS" => 0
    case "Helpers" => 1
    case "Frameworks" => 2
    case "SharedFrameworks" => 3
    case "PlugIns" => 4
    case "Plug-ins" => 5
    case "XPCServices" => 6
    case _ => if |rel| == 1 || rel[1] == "Automator" then 7 else if rel[1] == "Spotlight" then 8 else 9
  }

  lemma CodeFolders(rel: Path)
    ensures NestedContainer(rel) <==> CodeFolder(rel)
    ensures NestedInside(rel) <==> InCodeFolder(rel)
  {
    if CodeFolder(rel) {
      assert rel <= NESTED_ROOTS[RootIndex(rel)];
    }
    if InCodeFolder(rel) {
      assert NESTED_ROOTS[RootIndex(rel)] < rel;
    }
  }

  predicate EndsIn(name: string, suffix: string) {
    |name| >= |suffix| && name[|name| - |suffix|..] == suffix
  }

  /** A name with the suffix of a bundle, in any case. */
  predicate NamesBundle(name: string) {
    exists suffix <- SUFFIXES :: EndsIn(Lower(name), suffix)
  }

  /** The extension begins at the last dot. */
  lemma {:induction false} FromLastDot(name: string, k: nat)
    requires k < |name| && name[k] == '.' && '.' !in name[k + 1..]
    ensures Extension(name) == name[k..]
  {
    var last := |name| - 1;
    if k < last {
      var front := name[..last];
      assert front[k + 1..] == name[k + 1..][..last - k - 1] && name[last] == name[k + 1..][last - k - 1];
      FromLastDot(front, k);
      assert name[k..] == front[k..] + [name[last]];
    }
  }

  lemma {:induction false} LastDot(name: string) returns (k: nat)
    requires Extension(name) != ""
    ensures k < |name| && name[k] == '.' && '.' !in name[k + 1..] && Extension(name) == name[k..]
  {
    k := |name| - 1;
    if name[k] != '.' {
      var last := k;
      k := LastDot(name[..last]);
      assert name[k + 1..] == name[..last][k + 1..] + [name[last]];
      FromLastDot(name, k);
    }
  }

  lemma SuffixFound(name: string, suffix: string)
    requires suffix in SUFFIXES
    ensures Lower(Extension(name)) == suffix <==> EndsIn(Lower(name), suffix)
  {
    if EndsIn(Lower(name), suffix) {
      EndFound(name, suffix);
    }
    if Lower(Extension(name)) == suffix {
      var k := LastDot(name);
      assert Lower(name[k..]) == Lower(name)[k..];
    }
  }

  lemma EndFound(name: string, suffix: string)
    requires suffix in SUFFIXES && EndsIn(Lower(name), suffix)
    ensures Lower(Extension(name)) == suffix
  {
    hide Extension;
    assert suffix[0] == '.' && '.' !in suffix[1..];
    var low, k := Lower(name), |name| - |suffix|;
    forall i | k <= i < |name|
      ensures LowerChar(name[i]) == suffix[i - k]
    {
      assert low[k..][i - k] == low[i];
    }
    forall i | k < i < |name|
      ensures name[i] != '.'
    {
      assert suffix[1..][i - k - 1] == suffix[i - k];
    }
    FromLastDot(name, k);
    assert Lower(name[k..]) == suffix;
  }

  lemma BundleNames(name: string)
    ensures BundleSuffix(name) <==> NamesBundle(name)
    ensures BundleSuffix(name) ==> '.' in name
  {
    hide Lower, Extension;
    forall suffix | suffix in SUFFIXES
      ensures Lower(Extension(name)) == suffix <==> EndsIn(Lower(name), suffix)
    {
      SuffixFound(name, suffix);
    }
    if BundleSuffix(name) {
      DotInside(name);
    }
  }

  lemma DotInside(name: string)
    requires Lower(Extension(name)) != ""
    ensures '.' in name
  {
    var k := LastDot(name);
  }

  /** The places whose entry is checked for its kind and then left to the walk. */
  predicate Spine(rel: Path) {
    rel in [["MacOS"], ["Resources"], ["_CodeSignature"]]
  }

  /** The files that a bundle has at most once, at a place of their own. */
  predicate Fixed(b: Layout, rel: Path) {
    || b.base + rel in {b.executable, b.infoPath}
    || rel in {["Info.plist"], ["PkgInfo"], ["version.plist"], ["embedded.provisionprofile"],
               ["_CodeSignature", "CodeResources"]}
  }

  /** The places of ordinary resources, and in a framework of its interface. */
  predicate ResourcePlace(b: Layout, rel: Path) {
    || (|rel| > 1 && rel[0] == "Resources")
    || (b.framework && rel != [] && rel[0] in {"Headers", "PrivateHeaders", "Modules"})
  }

  /** An entry of the signature directory that is not the envelope. */
  predicate Stray(m: Mode, rel: Path, node: Node) {
    |rel| > 1 && rel[0] == "_CodeSignature" && (rel != ["_CodeSignature", "CodeResources"] || (m.cleanup && node.Dir?))
  }

  /** Removing signatures puts up with it, unless it is the envelope in other letters. */
  predicate Tolerated(m: Mode, rel: Path, node: Node) {
    && m.cleanup && Stray(m, rel, node)
    && (rel == ["_CodeSignature", "CodeResources"] || LowerPath(rel) != LowerPath(["_CodeSignature", "CodeResources"]))
  }

  predicate FinderFile(name: Path, node: Node) {
    name == [".DS_Store"] && node.File?
  }

  /** A file named after its companion, whose attributes it holds. */
  predicate AttributeCarrier(rel: Path, node: Node)
    requires rel != []
  {
    var last := rel[|rel| - 1];
    node.File? && node.carrier && |last| > 2 && last[0] == '.' && last[1] == '_'
  }

  /** Nothing but its place decides about the entry. */
  predicate Judged(m: Mode, b: Layout, rel: Path, node: Node)
    requires rel != []
  {
    && !Spine(rel) && !FinderFile(b.base + rel, node) && !Stray(m, rel, node)
    && !(m.verifyResources && AttributeCarrier(rel, node))
  }

  lemma PlacesApart(m: Mode, b: Layout, rel: Path, node: Node)
    requires rel != []
    ensures b.Rel(b.base + rel) == rel && b.base + rel != b.base
    ensures b.base + rel == b.Resources() <==> rel == ["_CodeSignature", "CodeResources"]
    ensures Carrier(b.base + rel, node) <==> AttributeCarrier(rel, node)
    ensures ResourcePlace(b, rel) ==> !CodeFolder(rel) && !InCodeFolder(rel)
    ensures ResourcePlace(b, rel) <==>
      (|rel| > 1 && rel[0] == "Resources") || (b.framework && FrameworkResource(rel))
  {
    var name, last := b.base + rel, rel[|rel| - 1];
    assert name[|b.base|..] == rel && name[|name| - 1] == last;
    assert |last| >= 2 ==> last[..2] == [last[0], last[1]];
    assert b.base + rel == b.base + ["_CodeSignature", "CodeResources"] ==>
      rel == (b.base + ["_CodeSignature", "CodeResources"])[|b.base|..];
  }

  /** An entry that only its place decides about. */
  lemma RoleIfPlain(m: Mode, b: Layout, rel: Path, node: Node)
    requires rel != [] && Judged(m, b, rel, node)
    ensures RoleOf(m, b, b.base + rel, node) ==
      if Fixed(b, rel) then (if node.Dir? || node.Link? then Refused else Member(false))
      else if ResourcePlace(b, rel) then (if node.Dir? then Folder else Member(|rel| == 1))
      else if CodeFolder(rel) then (if node.Dir? then Folder else Refused)
      else if !node.Dir? then (if InCodeFolder(rel) || |rel| == 1 then Member(true) else Refused)
      else if !InCodeFolder(rel) then Refused
      else if '.' !in rel[|rel| - 1] then Folder
      else if NamesBundle(rel[|rel| - 1]) then ChildBundle
      else Refused
  {
    PlacesApart(m, b, rel, node);
    CodeFolders(rel);
    BundleNames(rel[|rel| - 1]);
    hide NestedContainer, NestedInside, BundleSuffix, NamesBundle, CodeFolder, InCodeFolder, LowerPath, Layout.Rel;
    hide Layout.Resources, Carrier, AttributeCarrier;
  }

  lemma RoleIfNotPlain(m: Mode, b: Layout, rel: Path, node: Node)
    requires rel != [] && !Judged(m, b, rel, node)
    ensures RoleOf(m, b, b.base + rel, node) ==
      if Spine(rel) then (if node.Dir? then Folder else Refused)
      else if FinderFile(b.base + rel, node) then Passed
      else if Stray(m, rel, node) then
        (if !Tolerated(m, rel, node) then Refused else if node.Dir? then Folder else if node.Link? then Passed
         else if node.File? then StaleSignature else Refused)
      else AttributeFile
  {
    PlacesApart(m, b, rel, node);
    hide NestedContainer, NestedInside, BundleSuffix, NamesBundle, CodeFolder, InCodeFolder, LowerPath, Layout.Rel;
    hide Layout.Resources, Carrier, AttributeCarrier, Fixed, ResourcePlace;
  }

  /** What becomes of every entry below the base: one condition for each role. */
  lemma RoleByPlace(m: Mode, b: Layout, rel: Path, node: Node)
    requires rel != []
    ensures var role, last := RoleOf(m, b, b.base + rel, node), rel[|rel| - 1];
      var plain := Judged(m, b, rel, node) && !Fixed(b, rel);
      && (role.Folder? <==>
            && node.Dir?
            && (|| Spine(rel) || Tolerated(m, rel, node)
                || (plain && (ResourcePlace(b, rel) || CodeFolder(rel) || (InCodeFolder(rel) && '.' !in last)))))
      && (role.ChildBundle? <==> node.Dir? && plain && InCodeFolder(rel) && !CodeFolder(rel) && NamesBundle(last))
      && (role == Member(true) <==> !node.Dir? && plain && !CodeFolder(rel) && (InCodeFolder(rel) || |rel| == 1))
      && (role == Member(false) <==>
            && !node.Dir?
            && if Fixed(b, rel) then Judged(m, b, rel, node) && !node.Link?
               else plain && |rel| > 1 && ResourcePlace(b, rel))
      && (role.Passed? <==> !Spine(rel) && (FinderFile(b.base + rel, node) || (Tolerated(m, rel, node) && node.Link?)))
      && (role.StaleSignature? <==> Tolerated(m, rel, node) && node.File?)
      && (role.AttributeFile? <==>
            && m.verifyResources && AttributeCarrier(rel, node)
            && !Spine(rel) && !FinderFile(b.base + rel, node) && !Stray(m, rel, node))
  {
    hide RoleOf, NamesBundle, CodeFolder, InCodeFolder, LowerPath, Fixed, ResourcePlace, AttributeCarrier, BundleSuffix;
    hide Layout.Rel, Layout.Resources, Carrier, FrameworkResource;
    PlacesApart(m, b, rel, node);
    BundleNames(rel[|rel| - 1]);
    if Judged(m, b, rel, node) {
      RoleIfPlain(m, b, rel, node);
    } else {
      RoleIfNotPlain(m, b, rel, node);
    }
  }

  /** And outside it: the base itself, the spine of its root, and files that do not matter. */
  lemma RoleOutside(m: Mode, b: Layout, name: Path, node: Node)
    requires name != [] && !(b.base < name)
    ensures RoleOf(m, b, name, node) ==
      if name == b.base || Spine(name) then (if node.Dir? then Folder else Refused)
      else if FinderFile(name, node) || AttributeCarrier(name, node) then Passed
      else Refused
  {
  }
}
