/** The bundle tree that a scan hands to the planner, and that it is one the planner may rely on. */
module ScannedBundle {
  import opened ByteStrings
  import opened Text
  import opened Wrappers
  import opened ScanScope
  import opened TreeScan
  import opened OwnSeals
  import opened Spelling
  import opened EnvelopeLaws
  import BundleSigning
  import BundleWriter
  import Plan = SigningPlan
  import PlanLaws
  import ScanEnvelope
  import ScanLaws
  import ScanSafety

  /** What else loading and scanning record: an identity for every bundle, and contents as the planner sees them. */
  datatype Loading = Loading(
    id: Path -> nat, code: Content -> Plan.Code, resource: Seal -> Bytes, legacy: Path -> map<Plan.Name, Bytes>,
    identifier: Path -> Plan.Name, info: Path -> Bytes, preflightFailed: Path -> bool, signingFailed: Path -> bool,
    failedHelpers: Path -> set<Plan.Name>)

  ghost predicate Identifies(l: Loading) {
    forall p, q :: l.id(p) == l.id(q) ==> p == q
  }

  /** A loaded bundle: its executable in its place, with a name a bundle may hold, and there when it was read. */
  ghost predicate LoadedAt(b: Layout, node: Node) {
    && ScanEnvelope.Placed(b) && Plain(b.executable) && Plain(b.Resources())
    && (b.codeSize.Some? ==> Lookup(node, b.executable).Some? && Lookup(node, b.executable).value.File?)
  }

  ghost predicate AllLoaded(tree: Node) {
    forall p | Lookup(tree, p).Some? && Lookup(tree, p).value.Dir? && Lookup(tree, p).value.layout.Some? ::
      LoadedAt(Lookup(tree, p).value.layout.value, Lookup(tree, p).value)
  }

  /** The entries the walk of one bundle reaches and seals, by the names its envelope has for them. */
  ghost predicate OwnEntry(m: Mode, b: Layout, tree: Node, rel: Path) {
    && rel != [] && Reached(m, b, tree, b.base + rel)
    && SealOf(m, b, b.base + rel, Lookup(tree, b.base + rel).value).Some?
  }

  ghost function Rels(m: Mode, b: Layout, at: Path, tree: Node, files2: map<Path, Seal>): set<Path> {
    set p | p in files2 && at + b.base <= p && OwnEntry(m, b, tree, p[|at + b.base|..]) :: p[|at + b.base|..]
  }

  ghost function Names(m: Mode, b: Layout, at: Path, tree: Node, files2: map<Path, Seal>): set<Plan.Name> {
    set r | r in Rels(m, b, at, tree, files2) :: Spell(r)
  }

  ghost function Named(m: Mode, b: Layout, at: Path, tree: Node, files2: map<Path, Seal>, n: Plan.Name): (r: Path)
    requires n in Names(m, b, at, tree, files2)
    ensures r in Rels(m, b, at, tree, files2) && Spell(r) == n
  {
    var r :| r in Rels(m, b, at, tree, files2) && Spell(r) == n;
    r
  }

  function CodeAt(l: Loading, tree: Node, name: Path): Plan.Code {
    match Lookup(tree, name)
    case Some(File(_, _, content, _, _)) => l.code(content)
    case _ => []
  }

  /** The bundle at `at`, with everything nested in it, as the scan leaves it to the planner. */
  ghost function Build(l: Loading, m: Mode, b: Layout, at: Path, tree: Node, depth: nat, files2: map<Path,
                       Seal>): Plan.Bundle
    requires depth <= MAX_DEPTH
    decreases MAX_DEPTH - depth
  {
    Plan.Bundle(
      l.id(at), Prefix(b.base), Spell(b.executable), Spell(b.Resources()), l.identifier(at), l.info(at),
      CodeAt(l, tree, b.executable), l.legacy(at),
      map n | n in Names(m, b, at, tree, files2) :: BuildEntry(l, m, b, at, tree, depth, files2, n),
      l.preflightFailed(at), l.signingFailed(at), l.failedHelpers(at))
  }

  ghost function BuildEntry(l: Loading, m: Mode, b: Layout, at: Path, tree: Node, depth: nat, files2: map<Path, Seal>,
                            n: Plan.Name): Plan.Entry
    requires depth <= MAX_DEPTH && n in Names(m, b, at, tree, files2)
    decreases MAX_DEPTH - depth, 0
  {
    var name := b.base + Named(m, b, at, tree, files2, n);
    var node := Lookup(tree, name).value;
    match SealOf(m, b, name, node).value
    case Code(content) => Plan.Helper(l.code(content))
    case Bundle =>
      if depth < MAX_DEPTH && node.Dir? && node.layout.Some?
      then Plan.App(Build(l, m, node.layout.value, at + name, node, depth + 1, files2))
      else Plan.Resource([])
    case seal => Plan.Resource(l.resource(seal))
  }

  /** Identities of the tree built at `at` are those of paths at or below it. */
  ghost predicate IdsBelow(l: Loading, at: Path, ids: set<nat>) {
    forall i <- ids :: exists q :: at <= q && l.id(q) == i
  }

  lemma BundleIsChild(m: Mode, b: Layout, name: Path, node: Node)
    requires name != [] && SealOf(m, b, name, node) == Some(Bundle)
    ensures RoleOf(m, b, name, node).ChildBundle?
  {
    hide RoleOf;
  }

  /** A child bundle that an accepted scan seals was scanned itself. */
  lemma ChildScanned(m: Mode, b: Layout, at: Path, tree: Node, depth: nat, name: Path)
    requires Enumerates(m) && m.recurse && Refuse !in TreeOps(m, b, at, tree, depth)
    requires Reached(m, b, tree, name) && SealOf(m, b, name, Lookup(tree, name).value) == Some(Bundle)
    ensures var node := Lookup(tree, name).value;
      && depth < MAX_DEPTH && node.Dir? && node.layout.Some? && node.layout.value.codeSize.Some?
      && Refuse !in TreeOps(m, node.layout.value, at + name, node, depth + 1)
      && forall op <- TreeOps(m, node.layout.value, at + name, node, depth + 1) :: op in TreeOps(m, b, at, tree, depth)
  {
    var node := Lookup(tree, name).value;
    ReachedIsWalked(m, b, at, tree, depth, name);
    BundleIsChild(m, b, name, node);
    hide TreeOps, RoleOf, SealOf, Reached, AlternateOps, Lookup;
    var ops := NodeOps(m, b, at, name, node, depth);
    assert forall op <- ChildOps(m, at + name, node, depth + 1) :: op in ops;
  }

  lemma LoadedBelow(tree: Node, name: Path)
    requires AllLoaded(tree) && Lookup(tree, name).Some?
    ensures AllLoaded(Lookup(tree, name).value)
    ensures var node := Lookup(tree, name).value; node.Dir? && node.layout.Some? ==> LoadedAt(node.layout.value, node)
  {
    hide Lookup, LoadedAt;
    var node := Lookup(tree, name).value;
    forall p | Lookup(node, p).Some? && Lookup(node, p).value.Dir? && Lookup(node, p).value.layout.Some?
      ensures LoadedAt(Lookup(node, p).value.layout.value, Lookup(node, p).value)
    {
      ScanSafety.LookupAppend(tree, name, p);
      assert Lookup(tree, name + p).Some?;
    }
  }

  /** The planner's bundle at every level of an accepted scan. */
  ghost predicate Scannable(m: Mode, b: Layout, at: Path, tree: Node, depth: nat) {
    && Enumerates(m) && m.recurse && !m.verifyResources && Refuse !in TreeOps(m, b, at, tree, depth)
      && depth <= MAX_DEPTH
    && b.codeSize.Some? && LoadedAt(b, tree) && AllLoaded(tree)
  }

  lemma ScannableIs(m: Mode, b: Layout, at: Path, tree: Node, depth: nat)
    requires Scannable(m, b, at, tree, depth)
    ensures depth <= MAX_DEPTH && LoadedAt(b, tree)
  {
    hide TreeOps, LoadedAt, AllLoaded;
  }

  lemma ChildScannable(m: Mode, b: Layout, at: Path, tree: Node, depth: nat, name: Path)
    requires Scannable(m, b, at, tree, depth)
    requires Reached(m, b, tree, name) && SealOf(m, b, name, Lookup(tree, name).value) == Some(Bundle)
    ensures var node := Lookup(tree, name).value;
      depth < MAX_DEPTH && node.Dir? && node.layout.Some? && Scannable(m, node.layout.value, at + name, node, depth + 1)
  {
    hide TreeOps, Reached, SealOf, LoadedAt, AllLoaded, Lookup;
    ChildScanned(m, b, at, tree, depth, name);
    assert Lookup(tree, name).Some? by { ReachedThere(m, b, tree, name); }
    LoadedBelow(tree, name);
  }

  /** What one entry of the planner's bundle is made of. */
  ghost predicate EntryOf(l: Loading, m: Mode, b: Layout, at: Path, tree: Node, depth: nat, files2: map<Path, Seal>,
                          n: Plan.Name, e: Plan.Entry)
    requires depth <= MAX_DEPTH && n in Names(m, b, at, tree, files2)
  {
    var name := b.base + Named(m, b, at, tree, files2, n);
    && OwnEntry(m, b, tree, Named(m, b, at, tree, files2, n))
    && var node := Lookup(tree, name).value;
    match SealOf(m, b, name, node).value
    case Code(content) => e == Plan.Helper(l.code(content)) && node.File? && content == node.content
    case Bundle => depth < MAX_DEPTH && node.Dir? && node.layout.Some?
                   && e == Plan.App(Build(l, m, node.layout.value, at + name, node, depth + 1, files2))
    case seal => e == Plan.Resource(l.resource(seal))
  }

  lemma BuiltFields(l: Loading, m: Mode, b: Layout, at: Path, tree: Node, depth: nat, files2: map<Path, Seal>)
    requires depth <= MAX_DEPTH
    ensures var built := Build(l, m, b, at, tree, depth, files2);
      && built.id == l.id(at) && built.base == Prefix(b.base) && built.executable == Spell(b.executable)
      && built.resources == Spell(b.Resources()) && built.code == CodeAt(l, tree, b.executable)
      && built.files2.Keys == Names(m, b, at, tree, files2)
      && forall n | n in Names(m, b, at, tree, files2) ::
           built.files2[n] == BuildEntry(l, m, b, at, tree, depth, files2, n)
  {
    hide BuildEntry, Names;
  }

  lemma NamedIsOwn(m: Mode, b: Layout, at: Path, tree: Node, files2: map<Path, Seal>, n: Plan.Name)
    requires n in Names(m, b, at, tree, files2)
    ensures OwnEntry(m, b, tree, Named(m, b, at, tree, files2, n))
  {
    hide OwnEntry;
    assert Named(m, b, at, tree, files2, n) in Rels(m, b, at, tree, files2);
  }

  lemma EntryBuilt(l: Loading, m: Mode, b: Layout, at: Path, tree: Node, depth: nat, files2: map<Path, Seal>,
                   n: Plan.Name)
    requires Scannable(m, b, at, tree, depth) && n in Names(m, b, at, tree, files2)
    ensures n in Build(l, m, b, at, tree, depth, files2).files2
    ensures EntryOf(l, m, b, at, tree, depth, files2, n, Build(l, m, b, at, tree, depth, files2).files2[n])
  {
    hide Scannable, Build, Names, Named, Reached, Lookup, SealOf;
    ScannableIs(m, b, at, tree, depth);
    var rel := Named(m, b, at, tree, files2, n);
    var name := b.base + rel;
    NamedIsOwn(m, b, at, tree, files2, n);
    ReachedThere(m, b, tree, name);
    BuiltFields(l, m, b, at, tree, depth, files2);
    var node := Lookup(tree, name).value;
    if SealOf(m, b, name, node) == Some(Bundle) {
      ChildScannable(m, b, at, tree, depth, name);
    } else if SealOf(m, b, name, node).value.Code? {
      CodeIsFile(m, b, name, node);
    }
  }

  lemma CodeIsFile(m: Mode, b: Layout, name: Path, node: Node)
    requires name != [] && SealOf(m, b, name, node).Some? && SealOf(m, b, name, node).value.Code?
    ensures node.File? && SealOf(m, b, name, node).value.hash == node.content && !BoundBySignature(b, name)
  {
    hide RoleOf, Included, Optional;
  }

  /** Where a nested bundle was built. */
  lemma AppBuilt(l: Loading, m: Mode, b: Layout, at: Path, tree: Node, depth: nat, files2: map<Path, Seal>,
                 n: Plan.Name)
    returns (name: Path)
    requires Scannable(m, b, at, tree, depth) && n in Build(l, m, b, at, tree, depth, files2).files2
    requires Build(l, m, b, at, tree, depth, files2).files2[n].App?
    ensures n in Names(m, b, at, tree, files2) && name == b.base + Named(m, b, at, tree, files2, n)
    ensures Reached(m, b, tree, name) && SealOf(m, b, name, Lookup(tree, name).value) == Some(Bundle)
    ensures var node := Lookup(tree, name).value;
      && depth < MAX_DEPTH && node.Dir? && node.layout.Some?
      && Scannable(m, node.layout.value, at + name, node, depth + 1)
      && Build(l, m, b, at, tree, depth, files2).files2[n].bundle
         == Build(l, m, node.layout.value, at + name, node, depth + 1, files2)
  {
    hide Scannable, Build, BuildEntry, Names, Named, Reached, Lookup, SealOf;
    ScannableIs(m, b, at, tree, depth);
    BuiltFields(l, m, b, at, tree, depth, files2);
    EntryBuilt(l, m, b, at, tree, depth, files2, n);
    name := b.base + Named(m, b, at, tree, files2, n);
    ChildScannable(m, b, at, tree, depth, name);
  }

  lemma {:induction false} IdsAreBelow(l: Loading, m: Mode, b: Layout, at: Path, tree: Node, depth: nat,
                                       files2: map<Path, Seal>)
    requires Scannable(m, b, at, tree, depth)
    ensures IdsBelow(l, at, PlanLaws.Ids(Build(l, m, b, at, tree, depth, files2)))
    decreases MAX_DEPTH - depth
  {
    var built := Build(l, m, b, at, tree, depth, files2);
    BuiltFields(l, m, b, at, tree, depth, files2);
    hide Scannable, Build, BuildEntry, Names, SealOf, Lookup, Named, Reached, IdsBelow;
    forall n | n in built.files2 && built.files2[n].App?
      ensures IdsBelow(l, at, PlanLaws.Ids(built.files2[n].bundle))
    {
      var name := AppBuilt(l, m, b, at, tree, depth, files2, n);
      var node := Lookup(tree, name).value;
      IdsAreBelow(l, m, node.layout.value, at + name, node, depth + 1, files2);
      FurtherBelow(l, at, name, PlanLaws.Ids(built.files2[n].bundle));
    }
    IdsJoin(l, at, built);
  }

  lemma FurtherBelow(l: Loading, at: Path, name: Path, ids: set<nat>)
    requires IdsBelow(l, at + name, ids)
    ensures IdsBelow(l, at, ids)
  {
    forall i <- ids
      ensures exists q :: at <= q && l.id(q) == i
    {
      var q :| at + name <= q && l.id(q) == i;
      assert at <= q;
    }
  }

  lemma IdsJoin(l: Loading, at: Path, b: Plan.Bundle)
    requires b.id == l.id(at)
    requires forall n | n in b.files2 && b.files2[n].App? :: IdsBelow(l, at, PlanLaws.Ids(b.files2[n].bundle))
    ensures IdsBelow(l, at, PlanLaws.Ids(b))
  {
    assert at <= at;
    forall i <- PlanLaws.Ids(b)
      ensures exists q :: at <= q && l.id(q) == i
    {
      if i != b.id {
        var n :| n in b.files2 && b.files2[n].App? && i in PlanLaws.Ids(b.files2[n].bundle);
      }
    }
  }

  /** Two sealed entries of one bundle are never one inside the other. */
  lemma OwnApart(m: Mode, b: Layout, tree: Node, p: Path, q: Path)
    requires Reached(m, b, tree, p) && SealOf(m, b, p, Lookup(tree, p).value).Some? && Reached(m, b, tree, q)
    ensures !(p < q)
  {
    hide SealOf, Lookup, RoleOf;
    if p < q {
      assert q[..|p|] == p && FolderAt(m, b, tree, q[..|p|]);
      FolderUnsealed(m, b, p, Lookup(tree, p).value);
    }
  }

  lemma SharedBelow(p: Path, q: Path, r: Path)
    requires p <= r && q <= r
    ensures p <= q || q <= p
  {
    assert p == r[..|p|] && q == r[..|q|];
    if |p| <= |q| {
      assert q[..|p|] == p;
    } else {
      assert p[..|q|] == q;
    }
  }

  lemma AppIds(l: Loading, m: Mode, b: Layout, at: Path, tree: Node, depth: nat, files2: map<Path, Seal>, n: Plan.Name)
    returns (name: Path)
    requires Scannable(m, b, at, tree, depth) && n in Build(l, m, b, at, tree, depth, files2).files2
    requires Build(l, m, b, at, tree, depth, files2).files2[n].App?
    ensures Reached(m, b, tree, name) && SealOf(m, b, name, Lookup(tree, name).value).Some?
    ensures b.base <= name && n == Spell(name[|b.base|..])
    ensures IdsBelow(l, at + name, PlanLaws.Ids(Build(l, m, b, at, tree, depth, files2).files2[n].bundle))
  {
    hide Scannable, Build, BuildEntry, Names, SealOf, Lookup, Reached, IdsBelow;
    name := AppBuilt(l, m, b, at, tree, depth, files2, n);
    assert n == Spell(Named(m, b, at, tree, files2, n));
    hide Named;
    ReachedThere(m, b, tree, name);
    var node := Lookup(tree, name).value;
    IdsAreBelow(l, m, node.layout.value, at + name, node, depth + 1, files2);
  }

  lemma AppsApart(l: Loading, m: Mode, b: Layout, at: Path, tree: Node, depth: nat, files2: map<Path, Seal>,
                  x: Plan.Name, y: Plan.Name)
    requires Identifies(l) && Scannable(m, b, at, tree, depth) && x != y
    requires var built := Build(l, m, b, at, tree, depth, files2);
      x in built.files2 && y in built.files2 && built.files2[x].App? && built.files2[y].App?
    ensures var built := Build(l, m, b, at, tree, depth, files2);
      PlanLaws.Ids(built.files2[x].bundle) !! PlanLaws.Ids(built.files2[y].bundle)
  {
    var built := Build(l, m, b, at, tree, depth, files2);
    hide Scannable, Build, SealOf, Lookup, Reached, IdsBelow, PlanLaws.Ids, Spell;
    var p := AppIds(l, m, b, at, tree, depth, files2, x);
    var q := AppIds(l, m, b, at, tree, depth, files2, y);
    assert p != q;
    OwnApart(m, b, tree, p, q);
    OwnApart(m, b, tree, q, p);
    AfterPrefix(at, p, q);
    AfterPrefix(at, q, p);
    assert !(p <= q) && !(q <= p);
    IdsDisjoint(l, at + p, at + q, PlanLaws.Ids(built.files2[x].bundle), PlanLaws.Ids(built.files2[y].bundle));
  }

  lemma IdsDisjoint(l: Loading, p: Path, q: Path, s: set<nat>, t: set<nat>)
    requires Identifies(l) && IdsBelow(l, p, s) && IdsBelow(l, q, t) && !(p <= q) && !(q <= p)
    ensures s !! t
  {
    forall i | i in s
      ensures i !in t
    {
      var u :| p <= u && l.id(u) == i;
      if w :| q <= w && l.id(w) == i {
        SharedBelow(p, q, u);
      }
    }
  }

  lemma AfterPrefix(at: Path, p: Path, q: Path)
    ensures at + p <= at + q ==> p <= q
  {
    if at + p <= at + q {
      assert q[..|p|] == (at + q)[..|at + p|][|at|..] == p;
    }
  }

  lemma MainApart(b: Layout, node: Node)
    requires LoadedAt(b, node)
    ensures Spell(b.executable) != Spell(b.Resources())
  {
    hide Spell, Plain;
    assert b.Resources()[|b.base|] == "_CodeSignature" != "MacOS";
    assert b.executable != b.Resources();
    if Spell(b.executable) == Spell(b.Resources()) {
      SpelledOnce(b.executable, b.Resources());
    }
  }

  /** Nested code is never spelled like its bundle's own executable or envelope. */
  lemma HelperApart(l: Loading, m: Mode, b: Layout, at: Path, tree: Node, depth: nat, files2: map<Path, Seal>,
                    n: Plan.Name)
    requires Scannable(m, b, at, tree, depth) && (forall p <- files2 :: Plain(p))
    requires n in Names(m, b, at, tree, files2)
    requires Build(l, m, b, at, tree, depth, files2).files2[n].Helper?
    ensures Prefix(b.base) + n != Spell(b.executable) && Prefix(b.base) + n != Spell(b.Resources())
  {
    EntryBuilt(l, m, b, at, tree, depth, files2, n);
    var rel := Named(m, b, at, tree, files2, n);
    var name := b.base + rel;
    var node := Lookup(tree, name).value;
    assert LoadedAt(b, tree);
    hide Scannable, Build, SealOf, Lookup, Reached, Spell, Plain;
    if SealOf(m, b, name, node).value.Code? {
      CodeIsFile(m, b, name, node);
    }
    PlainName(m, b, at, tree, files2, n);
    SpelledBelow(b.base, rel);
    if Spell(name) == Spell(b.executable) {
      SpelledOnce(name, b.executable);
    }
    if Spell(name) == Spell(b.Resources()) {
      SpelledOnce(name, b.Resources());
    }
  }

  lemma PlainName(m: Mode, b: Layout, at: Path, tree: Node, files2: map<Path, Seal>, n: Plan.Name)
    requires n in Names(m, b, at, tree, files2) && forall p <- files2 :: Plain(p)
    ensures Plain(b.base + Named(m, b, at, tree, files2, n)) && Plain(Named(m, b, at, tree, files2, n))
  {
    hide Reached, SealOf, Lookup, PlainPart;
    var rel := Named(m, b, at, tree, files2, n);
    var p :| p in files2 && at + b.base <= p && OwnEntry(m, b, tree, p[|at + b.base|..]) && p[|at + b.base|..] == rel;
    assert p == at + (b.base + rel);
    assert forall i | 0 <= i < |b.base + rel| :: (b.base + rel)[i] == p[|at| + i];
    assert forall i | 0 <= i < |rel| :: rel[i] == p[|at + b.base| + i];
  }

  /** What the planner takes for granted of a scanned tree: distinct bundles, and no file in two roles. */
  lemma {:induction false} BuiltIsWellFormed(l: Loading, m: Mode, b: Layout, at: Path, tree: Node, depth: nat,
                                             files2: map<Path, Seal>)
    requires Identifies(l) && Scannable(m, b, at, tree, depth) && forall p <- files2 :: Plain(p)
    ensures PlanLaws.WellFormed(Build(l, m, b, at, tree, depth, files2))
    decreases MAX_DEPTH - depth, 1
  {
    hide Scannable, Build, BuildEntry, Names, PlanLaws.Ids, Spell, Identifies, Plain, LoadedAt;
    ScannableIs(m, b, at, tree, depth);
    var built := Build(l, m, b, at, tree, depth, files2);
    BuiltFields(l, m, b, at, tree, depth, files2);
    MainApart(b, tree);
    forall n | n in built.files2 && built.files2[n].Helper?
      ensures built.base + n != built.executable && built.base + n != built.resources
    {
      HelperApart(l, m, b, at, tree, depth, files2, n);
    }
    forall n | n in built.files2 && built.files2[n].App?
      ensures PlanLaws.WellFormed(built.files2[n].bundle) && built.id !in PlanLaws.Ids(built.files2[n].bundle)
    {
      AppIsWellFormed(l, m, b, at, tree, depth, files2, n);
    }
    forall x, y | x in built.files2 && y in built.files2 && x != y && built.files2[x].App? && built.files2[y].App?
      ensures PlanLaws.Ids(built.files2[x].bundle) !! PlanLaws.Ids(built.files2[y].bundle)
    {
      AppsApart(l, m, b, at, tree, depth, files2, x, y);
    }
  }

  lemma {:induction false} AppIsWellFormed(l: Loading, m: Mode, b: Layout, at: Path, tree: Node, depth: nat,
                                           files2: map<Path, Seal>, n: Plan.Name)
    requires Identifies(l) && Scannable(m, b, at, tree, depth) && forall p <- files2 :: Plain(p)
    requires n in Build(l, m, b, at, tree, depth, files2).files2
    requires Build(l, m, b, at, tree, depth, files2).files2[n].App?
    ensures PlanLaws.WellFormed(Build(l, m, b, at, tree, depth, files2).files2[n].bundle)
    ensures l.id(at) !in PlanLaws.Ids(Build(l, m, b, at, tree, depth, files2).files2[n].bundle)
    decreases MAX_DEPTH - depth, 0
  {
    var child := Build(l, m, b, at, tree, depth, files2).files2[n].bundle;
    hide Scannable, Build, Names, Named, SealOf, Lookup, IdsBelow, PlanLaws.Ids, PlanLaws.WellFormed, Identifies, Plain;
    var name := AppBuilt(l, m, b, at, tree, depth, files2, n);
    ReachedThere(m, b, tree, name);
    var node := Lookup(tree, name).value;
    BuiltIsWellFormed(l, m, node.layout.value, at + name, node, depth + 1, files2);
    IdsAreBelow(l, m, node.layout.value, at + name, node, depth + 1, files2);
    NotOfChild(l, at, name, PlanLaws.Ids(child));
  }

  lemma NotOfChild(l: Loading, at: Path, name: Path, ids: set<nat>)
    requires Identifies(l) && name != [] && IdsBelow(l, at + name, ids)
    ensures l.id(at) !in ids
  {
    forall i <- ids
      ensures i != l.id(at)
    {
      var q :| at + name <= q && l.id(q) == i;
      assert q != at;
    }
  }

  lemma BaseIsUnsealed(m: Mode, b: Layout, node: Node)
    requires b.base != []
    ensures SealOf(m, b, b.base, node).None?
  {
    hide Lower, LowerPath, NestedInside, NestedContainer, FrameworkResource, BundleSuffix, Included, Optional;
  }

  /** At every level, the planner's entries are exactly the seals that the scan of that level leaves it. */
  lemma EntriesAreOwn(m: Mode, b: Layout, at: Path, tree: Node, depth: nat, files2: map<Path, Seal>, rel: Path)
    requires Scannable(m, b, at, tree, depth)
    requires forall op <- TreeOps(m, b, at, tree, depth) | op.SealFile? :: op.path in files2
    ensures rel in Rels(m, b, at, tree, files2) <==>
      exists seal :: SealFile(at + (b.base + rel), seal) in TreeOps(m, b, at, tree, depth)
                  && !ScanEnvelope.Inside(TreeOps(m, b, at, tree, depth), at, at + (b.base + rel))
  {
    hide TreeOps, SealOf, Lookup, ScanEnvelope.Inside, Reached;
    var ops, name := TreeOps(m, b, at, tree, depth), b.base + rel;
    assert (at + name)[|at + b.base|..] == rel && at + b.base <= at + name;
    if rel in Rels(m, b, at, tree, files2) {
      assert OwnEntry(m, b, tree, rel);
      ReachedThere(m, b, tree, name);
      var seal := SealOf(m, b, name, Lookup(tree, name).value).value;
      OwnExactly(m, b, at, tree, depth, name, seal);
      assert SealFile(at + name, seal) in ops;
    }
    if seal :| SealFile(at + name, seal) in ops && !ScanEnvelope.Inside(ops, at, at + name) {
      OwnExactly(m, b, at, tree, depth, name, seal);
      ReachedThere(m, b, tree, name);
      if rel == [] {
        assert name == b.base;
        BaseIsUnsealed(m, b, Lookup(tree, name).value);
      }
      assert OwnEntry(m, b, tree, rel) && at + name in files2;
    }
  }

  /** The disk before signing: every file of the tree is where its bundle and its name say. */
  ghost predicate StoredAt(l: Loading, files: BundleWriter.Files, root: Node, at: Path, name: Path) {
    var found := Lookup(root, at + name);
    Plain(name) && found.Some? && found.value.File? ==>
      && (l.id(at), Spell(name)) in files
      && files[(l.id(at), Spell(name))] == Plan.MachO(l.code(found.value.content))
  }

  ghost predicate Stored(l: Loading, files: BundleWriter.Files, root: Node) {
    forall at, name :: StoredAt(l, files, root, at, name)
  }

  /** The executable of one bundle and the nested code of its own are on disk as they were read. */
  ghost predicate Here(files: BundleWriter.Files, d: Plan.Bundle) {
    && (d.id, d.executable) in files
    && forall n | n in Plan.NestedNames(d) :: NestedHere(files, d, n)
  }

  ghost predicate NestedHere(files: BundleWriter.Files, d: Plan.Bundle, n: Plan.Name)
    requires n in Plan.NestedNames(d)
  {
    && Plan.NestedTarget(d, n) in files
    && files[Plan.NestedTarget(d, n)] == Plan.MachO(Plan.OriginalCode(d.files2[n]))
  }

  lemma MainHere(l: Loading, files: BundleWriter.Files, root: Node, b: Layout, at: Path, tree: Node)
    requires Lookup(root, at) == Some(tree) && Stored(l, files, root) && LoadedAt(b, tree) && b.codeSize.Some?
    ensures (l.id(at), Spell(b.executable)) in files
    ensures files[(l.id(at), Spell(b.executable))] == Plan.MachO(CodeAt(l, tree, b.executable))
  {
    hide Spell, Lookup, Plain;
    assert StoredAt(l, files, root, at, b.executable);
    ScanSafety.LookupAppend(root, at, b.executable);
  }

  lemma EntryHere(l: Loading, m: Mode, b: Layout, at: Path, tree: Node, depth: nat, files2: map<Path, Seal>,
                  root: Node, files: BundleWriter.Files, n: Plan.Name)
    requires Scannable(m, b, at, tree, depth) && (forall p <- files2 :: Plain(p))
    requires Lookup(root, at) == Some(tree) && Stored(l, files, root)
    requires n in Plan.NestedNames(Build(l, m, b, at, tree, depth, files2))
    ensures NestedHere(files, Build(l, m, b, at, tree, depth, files2), n)
  {
    hide Scannable, Named, Spell, Build, BuildEntry, Names, Lookup, SealOf, Stored, Plain;
    ScannableIs(m, b, at, tree, depth);
    var built := Build(l, m, b, at, tree, depth, files2);
    BuiltFields(l, m, b, at, tree, depth, files2);
    if built.files2[n].App? {
      AppHere(l, m, b, at, tree, depth, files2, root, files, n);
    } else {
      HelperHere(l, m, b, at, tree, depth, files2, root, files, n);
    }
  }

  lemma AppHere(l: Loading, m: Mode, b: Layout, at: Path, tree: Node, depth: nat, files2: map<Path, Seal>,
                root: Node, files: BundleWriter.Files, n: Plan.Name)
    requires Scannable(m, b, at, tree, depth)
    requires Lookup(root, at) == Some(tree) && Stored(l, files, root)
    requires n in Build(l, m, b, at, tree, depth, files2).files2
    requires Build(l, m, b, at, tree, depth, files2).files2[n].App?
    ensures var child := Build(l, m, b, at, tree, depth, files2).files2[n].bundle;
      (child.id, child.executable) in files && files[(child.id, child.executable)] == Plan.MachO(child.code)
  {
    hide SealOf, Named, Spell, Build, BuildEntry, Names, Stored, TreeOps, Lookup, LoadedAt, AllLoaded;
    var inner := AppBuilt(l, m, b, at, tree, depth, files2, n);
    ReachedThere(m, b, tree, inner);
    var node := Lookup(tree, inner).value;
    ScanSafety.LookupAppend(root, at, inner);
    BuiltFields(l, m, node.layout.value, at + inner, node, depth + 1, files2);
    MainHere(l, files, root, node.layout.value, at + inner, node);
  }

  lemma HelperHere(l: Loading, m: Mode, b: Layout, at: Path, tree: Node, depth: nat, files2: map<Path, Seal>,
                   root: Node, files: BundleWriter.Files, n: Plan.Name)
    requires Scannable(m, b, at, tree, depth) && (forall p <- files2 :: Plain(p))
    requires Lookup(root, at) == Some(tree) && Stored(l, files, root) && n in Names(m, b, at, tree, files2)
    requires Build(l, m, b, at, tree, depth, files2).files2[n].Helper?
    ensures (l.id(at), Prefix(b.base) + n) in files
    ensures files[(l.id(at), Prefix(b.base) + n)]
         == Plan.MachO(Build(l, m, b, at, tree, depth, files2).files2[n].code)
  {
    hide Scannable, Build, Names, Named, Spell, SealOf, Lookup, Reached, Plain;
    EntryBuilt(l, m, b, at, tree, depth, files2, n);
    var rel := Named(m, b, at, tree, files2, n);
    var name := b.base + rel;
    PlainName(m, b, at, tree, files2, n);
    SpelledBelow(b.base, rel);
    ReachedThere(m, b, tree, name);
    ScanSafety.LookupAppend(root, at, name);
    assert StoredAt(l, files, root, at, name);
  }

  ghost predicate TreeHere(files: BundleWriter.Files, b: Plan.Bundle) {
    forall d <- PlanLaws.Tree(b) :: Here(files, d)
  }

  lemma TreeJoin(files: BundleWriter.Files, b: Plan.Bundle)
    requires Here(files, b)
    requires forall n | n in b.files2 && b.files2[n].App? :: TreeHere(files, b.files2[n].bundle)
    ensures TreeHere(files, b)
  {
    hide Here;
    forall d <- PlanLaws.Tree(b)
      ensures Here(files, d)
    {
      if d != b {
        var n :| n in b.files2 && b.files2[n].App? && d in PlanLaws.Tree(b.files2[n].bundle);
        assert TreeHere(files, b.files2[n].bundle);
      }
    }
  }

  /** What signing takes for granted of the disk: every nested object holds the code that was read. */
  lemma {:induction false} BuiltOnDisk(l: Loading, m: Mode, b: Layout, at: Path, tree: Node, depth: nat,
                                       files2: map<Path, Seal>, root: Node, files: BundleWriter.Files)
    requires Scannable(m, b, at, tree, depth) && forall p <- files2 :: Plain(p)
    requires Lookup(root, at) == Some(tree) && Stored(l, files, root)
    ensures TreeHere(files, Build(l, m, b, at, tree, depth, files2))
    decreases MAX_DEPTH - depth, 1
  {
    var built := Build(l, m, b, at, tree, depth, files2);
    BuiltFields(l, m, b, at, tree, depth, files2);
    MainHere(l, files, root, b, at, tree);
    hide Scannable, Build, BuildEntry, Names, Spell, Stored, Lookup, Plain, NestedHere, TreeHere;
    forall n | n in Plan.NestedNames(built)
      ensures NestedHere(files, built, n)
    {
      EntryHere(l, m, b, at, tree, depth, files2, root, files, n);
    }
    forall n | n in built.files2 && built.files2[n].App?
      ensures TreeHere(files, built.files2[n].bundle)
    {
      AppOnDisk(l, m, b, at, tree, depth, files2, root, files, n);
    }
    TreeJoin(files, built);
  }

  lemma {:induction false} AppOnDisk(l: Loading, m: Mode, b: Layout, at: Path, tree: Node, depth: nat,
                                     files2: map<Path, Seal>, root: Node, files: BundleWriter.Files, n: Plan.Name)
    requires Scannable(m, b, at, tree, depth) && forall p <- files2 :: Plain(p)
    requires Lookup(root, at) == Some(tree) && Stored(l, files, root)
    requires n in Build(l, m, b, at, tree, depth, files2).files2
    requires Build(l, m, b, at, tree, depth, files2).files2[n].App?
    ensures TreeHere(files, Build(l, m, b, at, tree, depth, files2).files2[n].bundle)
    decreases MAX_DEPTH - depth, 0
  {
    hide Scannable, Build, Names, Named, SealOf, Stored, Lookup, Plain, TreeHere;
    var name := AppBuilt(l, m, b, at, tree, depth, files2, n);
    ReachedThere(m, b, tree, name);
    ScanSafety.LookupAppend(root, at, name);
    var node := Lookup(tree, name).value;
    BuiltOnDisk(l, m, node.layout.value, at + name, node, depth + 1, files2, root, files);
  }

  lemma HereIsOnDisk(files: BundleWriter.Files, b: Plan.Bundle)
    requires TreeHere(files, b)
    ensures BundleSigning.OnDisk(files, b)
  {
    hide PlanLaws.Tree;
    forall d, n | d in PlanLaws.Tree(b) && n in Plan.NestedNames(d)
      ensures Plan.NestedTarget(d, n) in files
      ensures files[Plan.NestedTarget(d, n)] == Plan.MachO(Plan.OriginalCode(d.files2[n]))
    {
      assert Here(files, d) && NestedHere(files, d, n);
    }
  }

  lemma SealedIsPlain(m: Mode, b: Layout, root: Node, p: Path)
    requires Accepted(m, b, root) && p in Files2(m, b, root) && forall q | m.validPath(q) :: Plain(q)
    ensures Plain(p)
  {
    ScanSafety.AcceptedScan(m, b, root);
    hide *;
    var ops := TreeOps(m, b, [], root, 0);
    assert Files2(m, b, root) == Run(m.validPath, START, ops).value.files2 by { FilesAre(m, b, root); }
    ScanSafety.SealedIsEntered(m, root, ops, Run(m.validPath, START, ops).value, p);
    EnteredIsValid(m.validPath, ops, p);
  }

  lemma FilesAre(m: Mode, b: Layout, root: Node)
    requires Accepted(m, b, root)
    ensures Run(m.validPath, START, TreeOps(m, b, [], root, 0)).Some?
    ensures Files2(m, b, root) == Run(m.validPath, START, TreeOps(m, b, [], root, 0)).value.files2
  {
  }

  lemma EnteredIsValid(valid: Path -> bool, ops: seq<Op>, p: Path)
    requires Acceptable(valid, ops) && Entry(p) in ops
    ensures valid(p)
  {
    hide Clash;
    var i :| 0 <= i < |ops| && ops[i] == Entry(p);
    assert Admissible(valid, ops[i]);
  }

  /**
   * A scan that signing accepts hands the planner a tree that satisfies all it takes for granted, on a
   * disk that holds what the scan has read.
   */
  lemma ScanFitsPlanner(l: Loading, m: Mode, b: Layout, root: Node, files: BundleWriter.Files)
    requires Accepted(m, b, root) && m.recurse && !m.verifyResources && Identifies(l) && Stored(l, files, root)
    requires (forall p | m.validPath(p) :: Plain(p)) && b.codeSize.Some? && LoadedAt(b, root) && AllLoaded(root)
    ensures PlanLaws.WellFormed(Build(l, m, b, [], root, 0, Files2(m, b, root)))
    ensures BundleSigning.OnDisk(files, Build(l, m, b, [], root, 0, Files2(m, b, root)))
  {
    AcceptedAllows(m, b, root);
    var files2 := Files2(m, b, root);
    hide Accepted, Files2, TreeOps, Plain, LoadedAt, AllLoaded, Build, Stored, Identifies, Lookup;
    forall p | p in files2
      ensures Plain(p)
    {
      SealedIsPlain(m, b, root, p);
    }
    ScanSafety.RootItself(root);
    BuiltIsWellFormed(l, m, b, [], root, 0, files2);
    BuiltOnDisk(l, m, b, [], root, 0, files2, root, files);
    HereIsOnDisk(files, Build(l, m, b, [], root, 0, files2));
  }
}
