/** Walking a bundle tree: which entries are refused, which are sealed, which descend into a child. */
module TreeScan {
  import opened Listing
  import opened Text
  import opened Wrappers
  import opened ScanScope
  import ResourcePolicy
  import LinkContainment

  type Content = seq<int>

  const MAX_DEPTH := 8

  /**
   * A member of the tree. A file may be marked as a program, and may be a carrier: the filesystem keeps
   * attributes in files, and the file's companion has some.
   */
  datatype Node =
    | Dir(inode: nat, children: map<string, Node>, layout: Option<Layout>)
    | File(inode: nat, size: int, content: Content, runs: bool, carrier: bool)
    | Link(inode: nat, target: string, resolves: bool)
    | Other(inode: nat)

  /** What loading another version of a framework yields. */
  datatype Version = Version(infoSize: int, codeSize: Option<int>, envelopeSize: int)

  /**
   * What loading the bundle at a directory yields; paths are relative to that directory. A versioned
   * framework has its base at one of its versions, names the current one, and may be scanned again
   * as each of its other versions.
   */
  datatype Layout = Layout(
    base: Path, executable: Path, infoPath: Path, framework: bool, infoSize: int, codeSize: Option<int>,
    envelopeSize: int, current: string, stem: string, alternate: bool, others: map<string, Version>)
  {
    function Resources(): Path {
      base + ["_CodeSignature", "CodeResources"]
    }

    /** The name as envelopes spell it, without the resource base. */
    function Rel(name: Path): Path {
      if base <= name && |base| < |name| then name[|base|..] else name
    }

    predicate Versioned() {
      |base| == 2 && base[0] == "Versions"
    }

    /** Where the walk of the tree begins. */
    function Start(): Path {
      if Versioned() then base else []
    }

    /** The same framework as one of its other versions. */
    function As(version: string): Layout
      requires version in others
    {
      var at, v := ["Versions", version], others[version];
      Layout(at, at + [stem], at + ["Resources", "Info.plist"], true, v.infoSize, v.codeSize, v.envelopeSize,
             current, stem, true, others)
    }
  }

  /** How the scan is run, and the order in which directories list their names. */
  datatype Mode = Mode(
    order: (Path, set<string>) -> seq<string>, validPath: Path -> bool, validPart: string -> bool,
    cleanup: bool, verifyLinks: bool, verifyVersions: bool, verifyResources: bool, recurse: bool,
    hash1: Content -> seq<int>, hash2: Content -> seq<int>, isCode: Content -> bool)

  ghost predicate Enumerates(m: Mode) {
    forall p, s :: multiset(m.order(p, s)) == multiset(s)
  }

  const NESTED_ROOTS: seq<Path> :=
    [["MacOS"], ["Helpers"], ["Frameworks"], ["SharedFrameworks"], ["PlugIns"], ["Plug-ins"], ["XPCServices"],
     ["Library", "Automator"], ["Library", "Spotlight"], ["Library", "LoginItems"]]

  predicate NestedContainer(rel: Path) {
    rel != [] && exists i :: 0 <= i < |NESTED_ROOTS| && rel <= NESTED_ROOTS[i]
  }

  predicate NestedInside(rel: Path) {
    exists i :: 0 <= i < |NESTED_ROOTS| && NESTED_ROOTS[i] < rel
  }

  predicate FrameworkResource(rel: Path) {
    rel != [] && rel[0] in ["Headers", "PrivateHeaders", "Modules"]
  }

  function Extension(name: string): string {
    if name == "" then "" else if name[|name| - 1] == '.' then "." else
    var rest := Extension(name[..|name| - 1]);
    if rest == "" then "" else rest + [name[|name| - 1]]
  }

  predicate BundleSuffix(name: string) {
    Lower(Extension(name)) in [".app", ".bundle", ".plugin", ".xpc", ".appex", ".framework"]
  }

  function Join(p: Path): string {
    if p == [] then "" else if |p| == 1 then p[0] else Join(p[..|p| - 1]) + "/" + p[|p| - 1]
  }

  /** What the scan makes of one entry before looking at its bytes. */
  datatype Role =
    | Refused
    | Passed             // allowed, and not sealed
    | Folder             // an ordinary directory to walk into
    | StaleSignature     // an old signature file: registered, never sealed
    | AttributeFile      // exempt from verification
    | ChildBundle
    | Member(nested: bool)

  /** A file that holds the attributes of its companion. */
  predicate Carrier(name: Path, node: Node)
    requires name != []
  {
    var last := name[|name| - 1];
    node.File? && node.carrier && |last| >= 3 && last[..2] == "._"
  }

  const FIXED_FILES: seq<Path> := [["Info.plist"], ["PkgInfo"], ["version.plist"], ["embedded.provisionprofile"]]

  function RoleOf(m: Mode, b: Layout, name: Path, node: Node): Role
    requires name != []
  {
    var rel := b.Rel(name);
    if name == b.base || rel in [["MacOS"], ["Resources"], ["_CodeSignature"]] then
      if node.Dir? then Folder else Refused
    else if name == [".DS_Store"] && node.File? then
      Passed
    else if !(b.base <= name) then
      if Carrier(name, node) then Passed else Refused
    else if |rel| > 1 && rel[0] == "_CodeSignature" && (name != b.Resources() || (m.cleanup && node.Dir?)) then
      if name != b.Resources() && LowerPath(rel) == LowerPath(["_CodeSignature", "CodeResources"]) then Refused
      else if !m.cleanup then Refused
      else if node.Dir? then Folder
      else if node.Link? then Passed
      else if node.File? then StaleSignature
      else Refused
    else if m.verifyResources && Carrier(name, node) then
      AttributeFile
    else
      var nested := NestedInside(rel) || (|rel| == 1 && !node.Dir?);
      if name == b.executable || name == b.infoPath || rel in FIXED_FILES || name == b.Resources() then
        if node.Dir? || node.Link? then Refused else Member(false)
      else if (|rel| > 1 && rel[0] == "Resources") || (b.framework && FrameworkResource(rel)) then
        if node.Dir? then Folder else Member(nested)
      else if NestedContainer(rel) then
        if node.Dir? then Folder else Refused
      else if nested then
        if !node.Dir? then Member(true)
        else if '.' !in name[|name| - 1] then Folder
        else if BundleSuffix(name[|name| - 1]) then ChildBundle
        else Refused
      else
        Refused
  }

  ghost function Included(rel: Path, legacy: bool): bool {
    ResourcePolicy.Policy(Join(rel), legacy).included
  }

  ghost function Optional(rel: Path, legacy: bool): bool {
    ResourcePolicy.Policy(Join(rel), legacy).optional
  }

  predicate LinkOk(m: Mode, rel: Path, node: Node)
    requires node.Link? && rel != []
  {
    LinkContainment.TargetOk(rel[..|rel| - 1], node.target, m.verifyLinks, m.validPart, node.resolves)
  }

  ghost function LinkOps(m: Mode, b: Layout, at: Path, name: Path, node: Node): seq<Op>
    requires node.Link? && name != []
  {
    var rel := b.Rel(name);
    if Lower(name[|name| - 1]) == ".ds_store" || !LinkOk(m, rel, node) then
      [Refuse]
    else
      [AddBytes(|node.target|)] + if Included(rel, false)
        then [SealFile(at + name, Linked(node.target, Optional(rel, false)))] else []
  }

  /** The bundle's executable, property list and envelope are bound by the signature itself. */
  predicate BoundBySignature(b: Layout, name: Path) {
    name == b.executable || b.Rel(name) == ["Info.plist"] || name == b.Resources()
  }

  ghost function FileOps(m: Mode, b: Layout, at: Path, name: Path, node: Node, nested: bool): seq<Op>
    requires node.File?
  {
    var rel := b.Rel(name);
    [RegularFile(at + name, node.inode)]
    + (if nested && name != b.executable then [WriteTarget(at + name, node.inode)] else [])
    + (if BoundBySignature(b, name) then [] else SealOps(m, at + name, rel, node, nested))
  }

  ghost function SealOps(m: Mode, path: Path, rel: Path, node: Node, nested: bool): seq<Op>
    requires node.File?
  {
    if !Included(rel, true) && !Included(rel, false) then
      []
    else if nested then
      [AddChild] + if m.isCode(node.content) then [AddBytes(node.size), SealFile(path, Code(node.content))]
        else [Refuse]
    else
      [AddBytes(node.size)]
      + (if Included(rel, true) then [SealLegacy(path, Hashed(m.hash1(node.content), Optional(rel, true)))] else [])
      + (if Included(rel, false) then [SealFile(path, Hashed(m.hash2(node.content), Optional(rel, false)))] else [])
  }

  function Lookup(node: Node, path: Path): Option<Node> {
    if path == [] then Some(node)
    else if node.Dir? && path[0] in node.children then Lookup(node.children[path[0]], path[1..])
    else None
  }

  function TargetOps(at: Path, name: Path, root: Node): seq<Op> {
    match Lookup(root, name)
    case Some(n) => [WriteTarget(at + name, n.inode)]
    case None => []
  }

  /** A link's target without the one leading `./` that frameworks may spell. */
  function Undotted(target: string): string {
    if |target| >= 2 && target[..2] == "./" then target[2..] else target
  }

  /** A link at the root of a framework that stands for the same entry of the current version. */
  predicate RootAlias(b: Layout, x: string, node: Node) {
    node.Link? && Undotted(node.target) in ["Versions/Current/" + x, "Versions/" + b.current + "/" + x]
  }

  predicate RootEntryOk(m: Mode, b: Layout, x: string, node: Node) {
    && m.validPath([x]) && x !in ["Contents", "Support Files"]
    && if x == "Versions" then node.Dir?
       else if x in [".DS_Store", "module.map"] && node.File? then !node.runs
       else RootAlias(b, x, node)
  }

  predicate VersionEntryOk(m: Mode, b: Layout, x: string, node: Node) {
    && m.validPath(["Versions", x])
    && if IsVersion(x, node) then true
       else if x == ".DS_Store" && node.File? then !node.runs
       else x == "Current" && node.Link? && Undotted(node.target) == b.current
  }

  /** The directory that holds the versions of a framework. */
  function VersionsOf(root: Node): map<string, Node> {
    if root.Dir? && "Versions" in root.children && root.children["Versions"].Dir?
    then root.children["Versions"].children else map[]
  }

  function AllVersions(root: Node): set<string> {
    set v | v in VersionsOf(root) && IsVersion(v, VersionsOf(root)[v])
  }

  predicate IsVersion(x: string, node: Node) {
    x != "Current" && node.Dir?
  }

  /** One directory of a framework's root: few enough entries, each as it should be, none missing. */
  predicate ListingOk(m: Mode, b: Layout, versions: bool, children: map<string, Node>, required: set<string>) {
    && |children.Keys| <= MAX_ENTRIES && required <= children.Keys
    && forall x | x in children :: ListedOk(m, b, versions, x, children[x])
  }

  predicate ListedOk(m: Mode, b: Layout, versions: bool, x: string, node: Node) {
    if versions then VersionEntryOk(m, b, x, node) else RootEntryOk(m, b, x, node)
  }

  /** The root of a versioned framework: its versions, and links to the entries of the current one. */
  predicate FrameworkRootOk(m: Mode, b: Layout, root: Node)
    requires b.Versioned()
  {
    && root.Dir? && ListingOk(m, b, false, root.children, {"Versions", "Resources", b.stem})
    && ListingOk(m, b, true, VersionsOf(root), {"Current", b.current, b.base[1]})
    && b.base[1] in AllVersions(root) && |AllVersions(root)| <= MAX_NESTED
  }

  /** The versions that this scan has not selected. */
  function OtherVersions(b: Layout, root: Node): set<string> {
    if b.Versioned() then AllVersions(root) - {b.base[1]} else {}
  }

  function EntryParts(at: Path, keys: set<string>): map<string, seq<Op>> {
    map x | x in keys :: [Entry(at + [x])]
  }

  function EnterOps(m: Mode, at: Path, keys: set<string>): seq<Op> {
    Concat(m.order(at, keys), EntryParts(at, keys))
  }

  /** Checks the root of a framework, and enters what it lists; an alternate version finds that done. */
  function LayoutOps(m: Mode, b: Layout, at: Path, root: Node): seq<Op> {
    if !b.Versioned() then
      []
    else if !FrameworkRootOk(m, b, root) then
      [Refuse]
    else if b.alternate then
      []
    else
      EnterOps(m, at, root.children.Keys) + EnterOps(m, at + ["Versions"], VersionsOf(root).Keys)
  }

  /** What is done with a member of a version that is not selected: entered, registered and counted. */
  function StrayOps(m: Mode, path: Path, node: Node): seq<Op>
    decreases node, 1
  {
    [Entry(path)] +
    match node {
      case Dir(_, _, _) => StrayDirOps(m, path, node)
      case Link(_, _, _) => []
      case File(inode, size, _, _, _) => [RegularFile(path, inode), AddBytes(size)]
      case Other(_) => [Refuse]
    }
  }

  function StrayDirOps(m: Mode, path: Path, dir: Node): seq<Op>
    requires dir.Dir?
    decreases dir, 0
  {
    Concat(m.order(path, dir.children.Keys), map x | x in dir.children :: StrayOps(m, path + [x], dir.children[x]))
  }

  function StrayParts(m: Mode, b: Layout, at: Path, root: Node): map<string, seq<Op>> {
    map v | v in OtherVersions(b, root) :: StrayPart(m, at, root, v)
  }

  function StrayPart(m: Mode, at: Path, root: Node, v: string): seq<Op>
    requires v in VersionsOf(root) && VersionsOf(root)[v].Dir?
  {
    [AddVersion] + StrayDirOps(m, at + ["Versions", v], VersionsOf(root)[v])
  }

  predicate Inventories(m: Mode, b: Layout, depth: nat) {
    !b.alternate && (!m.verifyVersions || depth == 0)
  }

  function InventoryOps(m: Mode, b: Layout, at: Path, root: Node, depth: nat): seq<Op> {
    if Inventories(m, b, depth) then
      Concat(m.order(at + ["Versions"], OtherVersions(b, root)), StrayParts(m, b, at, root))
    else
      []
  }

  /** All effects of scanning the bundle `b` at `root`, whose paths begin with `at`. */
  ghost function BundleOps(m: Mode, b: Layout, at: Path, root: Node, depth: nat): seq<Op>
    decreases root, 4
  {
    [AddBytes(b.infoSize)]
    + (if m.recurse then TreeOps(m, b, at, root, depth) else LayoutOps(m, b, at, root))
    + CodeOps(m, b)
  }

  function CodeOps(m: Mode, b: Layout): seq<Op> {
    (if b.codeSize.Some? then [AddBytes(b.codeSize.value)] else [Refuse])
    + if m.recurse && !m.cleanup then [AddBytes(b.envelopeSize)] else []
  }

  /** The scan of one tree: its root, its write targets, every entry to walk, and other versions. */
  ghost function TreeOps(m: Mode, b: Layout, at: Path, root: Node, depth: nat): seq<Op>
    decreases root, 3
  {
    LayoutOps(m, b, at, root)
    + (TargetOps(at, b.executable, root) + TargetOps(at, b.Resources(), root))
    + WalkOps(m, b, at, root, depth)
    + InventoryOps(m, b, at, root, depth)
  }

  ghost function WalkOps(m: Mode, b: Layout, at: Path, root: Node, depth: nat): seq<Op>
    decreases root, 2
  {
    if !b.Versioned() then DirOps(m, b, at, [], root, depth)
    else if b.base[1] in VersionsOf(root) then DirOps(m, b, at, b.base, VersionsOf(root)[b.base[1]], depth)
    else [Refuse]
  }

  ghost function DirOps(m: Mode, b: Layout, at: Path, name: Path, dir: Node, depth: nat): seq<Op>
    decreases dir, 1
  {
    if dir.Dir? then
      var names := m.order(at + name, dir.children.Keys);
      ListOps(m, b, at, name, dir, names, depth)
    else
      []
  }

  ghost function ListOps(m: Mode, b: Layout, at: Path, name: Path, dir: Node, names: seq<string>, depth: nat): seq<Op>
    requires dir.Dir?
    decreases dir, 0, |names|
  {
    if names == [] then
      []
    else
      var last := names[|names| - 1];
      ListOps(m, b, at, name, dir, names[..|names| - 1], depth)
      + if last in dir.children then NodeOps(m, b, at, name + [last], dir.children[last], depth) else []
  }

  ghost function NodeOps(m: Mode, b: Layout, at: Path, name: Path, node: Node, depth: nat): seq<Op>
    requires name != []
    decreases node, 7
  {
    [Entry(at + name)] +
    match RoleOf(m, b, name, node) {
      case Refused => [Refuse]
      case Passed => []
      case Folder => DirOps(m, b, at, name, node, depth)
      case StaleSignature => [RegularFile(at + name, node.inode)]
      case AttributeFile => [SealFile(at + name, Exempted)]
      case ChildBundle => ChildOps(m, at + name, node, depth + 1)
      case Member(nested) =>
        if node.Link? then LinkOps(m, b, at, name, node)
        else if node.File? then FileOps(m, b, at, name, node, nested)
        else [Refuse]
    }
  }

  ghost function ChildOps(m: Mode, at: Path, node: Node, depth: nat): seq<Op>
    decreases node, 6
  {
    if depth > MAX_DEPTH then
      [Refuse]
    else
      [AddChild] +
      if node.Dir? && node.layout.Some? then
        var b := node.layout.value;
        BundleOps(m, b, at, node, depth) + AlternateOps(m, b, at, node, depth) + [SealFile(at, Bundle)]
      else
        [Refuse]
  }

  /** Verification scans a nested framework once more for each version that is not selected. */
  ghost function AlternateOps(m: Mode, b: Layout, at: Path, node: Node, depth: nat): seq<Op>
    decreases node, 5, 2
  {
    if m.verifyVersions then
      Concat(m.order(at + ["Versions"], OtherVersions(b, node)), AlternateParts(m, b, at, node, depth))
    else
      []
  }

  ghost function AlternateParts(m: Mode, b: Layout, at: Path, node: Node, depth: nat): map<string, seq<Op>>
    decreases node, 5, 1
  {
    map v | v in OtherVersions(b, node) :: AlternateOf(m, b, at, node, depth, v)
  }

  ghost function AlternateOf(m: Mode, b: Layout, at: Path, node: Node, depth: nat, v: string): seq<Op>
    decreases node, 5, 0
  {
    [AddVersion] + if v in b.others then BundleOps(m, b.As(v), at, node, depth) else [Refuse]
  }
}
