/** The recursive walk that scans a bundle tree, against the list of effects it stands for. */
module TreeWalk {
  import opened Listing
  import opened Text
  import opened Wrappers
  import opened ScanScope
  import opened TreeScan
  import ScanLaws
  import ResourcePolicy
  import LinkContainment

  /** The two resource rule lists, as compiled from an unordered dictionary. */
  datatype Rules = Rules(legacy: seq<ResourcePolicy.Rule>, current: seq<ResourcePolicy.Rule>)

  ghost predicate Compiled(rules: Rules) {
    && multiset(rules.legacy) == multiset(ResourcePolicy.BundleRules(true))
    && multiset(rules.current) == multiset(ResourcePolicy.BundleRules(false))
  }

  ghost predicate Ready(scope: BundleScan, rules: Rules, m: Mode) {
    && scope.valid == m.validPath && Enumerates(m) && Compiled(rules)
    && forall p | m.validPath(p) :: LinkContainment.NamesOnly(p)
  }

  /** The walk performed `ops`, or no scan that performs them here succeeds. */
  twostate predicate Scanned(scope: BundleScan, ops: seq<Op>, ok: bool)
    reads scope
  {
    && (ok ==> scope.Valid() && scope.trace == old(scope.trace) + ops)
    && (!ok ==> scope.Doomed(old(scope.trace) + ops))
  }

  lemma ReadyMeans(scope: BundleScan, rules: Rules, m: Mode)
    requires Ready(scope, rules, m)
    ensures scope.valid == m.validPath && Compiled(rules) && Enumerates(m)
    ensures forall p | m.validPath(p) :: LinkContainment.NamesOnly(p)
  {
  }

  method Decide(rules: Rules, legacy: bool, rel: Path) returns (included: bool, optional: bool)
    requires Compiled(rules)
    ensures included == Included(rel, legacy) && optional == Optional(rel, legacy)
  {
    included, optional := ResourcePolicy.DecidePolicy(if legacy then rules.legacy
      else rules.current, legacy, Join(rel));
  }

  method SealContent(scope: BundleScan, rules: Rules, m: Mode, path: Path, rel: Path, node: Node, nested: bool)
    returns (ok: bool)
    requires Ready(scope, rules, m) && scope.Valid() && node.File?
    modifies scope
    ensures Scanned(scope, SealOps(m, path, rel, node, nested), ok)
  {
    hide Ready, Compiled, Enumerates, Included, Optional, BundleScan.Valid, BundleScan.Doomed;
    ReadyMeans(scope, rules, m);
    ghost var start, ops := scope.trace, SealOps(m, path, rel, node, nested);
    var include1, optional1 := Decide(rules, true, rel);
    var include2, optional2 := Decide(rules, false, rel);
    if !include1 && !include2 {
      return true;
    }
    if nested {
      ok := scope.CountChild(AddChild);
      if ok && m.isCode(node.content) {
        ok := scope.CountBytes(node.size);
        if ok {
          scope.Note(false, path, Code(node.content));
          assert scope.trace == start + ops;
          return true;
        }
        scope.DoomedOnwards(start + [AddChild] + [AddBytes(node.size)], start + ops);
      } else if ok {
        scope.Refused();
        assert start + ops == start + [AddChild] + [Refuse];
      } else {
        scope.DoomedOnwards(start + [AddChild], start + ops);
      }
      return false;
    }
    ok := scope.CountBytes(node.size);
    if !ok {
      scope.DoomedOnwards(start + [AddBytes(node.size)], start + ops);
      return false;
    }
    if include1 {
      scope.Note(true, path, Hashed(m.hash1(node.content), optional1));
    }
    if include2 {
      scope.Note(false, path, Hashed(m.hash2(node.content), optional2));
    }
    assert scope.trace == start + ops;
  }

  method ScanFile(scope: BundleScan, rules: Rules, m: Mode, b: Layout, at: Path, name: Path, node: Node, nested: bool)
    returns (ok: bool)
    requires Ready(scope, rules, m) && scope.Valid() && node.File?
    modifies scope
    ensures Scanned(scope, FileOps(m, b, at, name, node, nested), ok)
  {
    hide Ready, Compiled, Enumerates, Included, Optional, BundleScan.Valid, BundleScan.Doomed, SealOps, Layout.Rel;
    ghost var start, ops := scope.trace, FileOps(m, b, at, name, node, nested);
    ok := scope.RegisterRegular(at + name, node.inode);
    if !ok {
      scope.DoomedOnwards(start + [RegularFile(at + name, node.inode)], start + ops);
      return;
    }
    if nested && name != b.executable {
      ghost var before := scope.trace;
      ok := scope.RegisterTarget(at + name, node.inode);
      if !ok {
        scope.DoomedOnwards(before + [WriteTarget(at + name, node.inode)], start + ops);
        return;
      }
    }
    if BoundBySignature(b, name) {
      assert scope.trace == start + ops;
      return true;
    }
    ghost var before := scope.trace;
    ok := SealContent(scope, rules, m, at + name, b.Rel(name), node, nested);
    assert before + SealOps(m, at + name, b.Rel(name), node, nested) == start + ops;
  }

  method ScanLink(scope: BundleScan, rules: Rules, m: Mode, b: Layout, at: Path, name: Path, node: Node)
    returns (ok: bool)
    requires Ready(scope, rules, m) && scope.Valid() && node.Link? && name != [] && m.validPath(at + name)
    modifies scope
    ensures Scanned(scope, LinkOps(m, b, at, name, node), ok)
  {
    hide Ready, Compiled, Enumerates, Included, Optional, BundleScan.Valid, BundleScan.Doomed, Layout.Rel,
      LinkContainment.TargetOk, LinkContainment.NamesOnly;
    ReadyMeans(scope, rules, m);
    InnerNames(b, at, name);
    ghost var start, ops := scope.trace, LinkOps(m, b, at, name, node);
    var rel := b.Rel(name);
    if Lower(name[|name| - 1]) == ".ds_store" {
      scope.Refused();
      return false;
    }
    ok := LinkContainment.ResourceLink(rel[..|rel| - 1], node.target, m.verifyLinks, m.validPart, node.resolves);
    if !ok {
      scope.Refused();
      return false;
    }
    ok := scope.CountBytes(|node.target|);
    if !ok {
      scope.DoomedOnwards(start + [AddBytes(|node.target|)], start + ops);
      return false;
    }
    var included, optional := Decide(rules, false, rel);
    if included {
      scope.Note(false, at + name, Linked(node.target, optional));
    }
    assert scope.trace == start + ops;
  }

  lemma InnerNames(b: Layout, at: Path, name: Path)
    requires name != [] && LinkContainment.NamesOnly(at + name)
    ensures b.Rel(name) != [] && LinkContainment.NamesOnly(b.Rel(name)[..|b.Rel(name)| - 1])
  {
    var skip := |at + name| - |b.Rel(name)|;
    assert forall i | 0 <= i < |b.Rel(name)| :: b.Rel(name)[i] == (at + name)[skip + i];
  }

  method ScanNode(scope: BundleScan, rules: Rules, m: Mode, b: Layout, at: Path, name: Path, node: Node, depth: nat)
    returns (ok: bool)
    requires Ready(scope, rules, m) && scope.Valid() && name != []
    modifies scope
    ensures Scanned(scope, NodeOps(m, b, at, name, node, depth), ok)
    decreases node, 7
  {
    hide Ready, Compiled, Enumerates, Included, Optional, BundleScan.Valid, BundleScan.Doomed, RoleOf, LinkOps,
      FileOps, DirOps, ChildOps;
    ReadyMeans(scope, rules, m);
    ghost var start, ops := scope.trace, NodeOps(m, b, at, name, node, depth);
    ok := scope.EnterPath(at + name);
    if !ok {
      scope.DoomedOnwards(start + [Entry(at + name)], start + ops);
      return;
    }
    ghost var before := scope.trace;
    match RoleOf(m, b, name, node)
    case Refused =>
      scope.Refused();
      assert before + [Refuse] == start + ops;
      ok := false;
    case Passed =>
    case Folder =>
      ok := ScanDirectory(scope, rules, m, b, at, name, node, depth);
      assert before + DirOps(m, b, at, name, node, depth) == start + ops;
    case StaleSignature =>
      ok := scope.RegisterRegular(at + name, node.inode);
      assert before + [RegularFile(at + name, node.inode)] == start + ops;
    case AttributeFile =>
      scope.Note(false, at + name, Exempted);
      assert before + [SealFile(at + name, Exempted)] == start + ops;
      ok := true;
    case ChildBundle =>
      ok := ScanChild(scope, rules, m, at + name, node, depth + 1);
      assert before + ChildOps(m, at + name, node, depth + 1) == start + ops;
    case Member(nested) =>
      if node.Link? {
        ok := ScanLink(scope, rules, m, b, at, name, node);
        assert before + LinkOps(m, b, at, name, node) == start + ops;
      } else if node.File? {
        ok := ScanFile(scope, rules, m, b, at, name, node, nested);
        assert before + FileOps(m, b, at, name, node, nested) == start + ops;
      } else {
        scope.Refused();
        assert before + [Refuse] == start + ops;
        ok := false;
      }
  }

  method ScanDirectory(scope: BundleScan, rules: Rules, m: Mode, b: Layout, at: Path, name: Path, dir: Node,
                       depth: nat) returns (ok: bool)
    requires Ready(scope, rules, m) && scope.Valid()
    modifies scope
    ensures Scanned(scope, DirOps(m, b, at, name, dir, depth), ok)
    decreases dir, 1
  {
    hide Ready, Compiled, Enumerates, BundleScan.Valid, BundleScan.Doomed, ListOps, NodeOps;
    if !dir.Dir? {
      return true;
    }
    ReadyMeans(scope, rules, m);
    var names := m.order(at + name, dir.children.Keys);
    ListsChildren(m, at + name, dir);
    NoneListed(m, b, at, name, dir, names, depth);
    ghost var start := scope.trace;
    for i := 0 to |names|
      invariant scope.Valid() && scope.trace == start + ListOps(m, b, at, name, dir, names[..i], depth)
    {
      assert names[i] in names;
      var child := dir.children[names[i]];
      ghost var before, step := scope.trace, NodeOps(m, b, at, name + [names[i]], child, depth);
      ListNext(m, b, at, name, dir, names, i, depth);
      ok := ScanNode(scope, rules, m, b, at, name + [names[i]], child, depth);
      assert before + step == start + ListOps(m, b, at, name, dir, names[..i + 1], depth);
      if !ok {
        ListGrows(m, b, at, name, dir, names, i + 1, depth);
        scope.DoomedOnwards(before + step, start + ListOps(m, b, at, name, dir, names, depth));
        return false;
      }
    }
    assert names[..|names|] == names;
    ok := true;
  }

  lemma NoneListed(m: Mode, b: Layout, at: Path, name: Path, dir: Node, names: seq<string>, depth: nat)
    requires dir.Dir?
    ensures ListOps(m, b, at, name, dir, names[..0], depth) == []
  {
  }

  lemma ListNext(m: Mode, b: Layout, at: Path, name: Path, dir: Node, names: seq<string>, i: nat, depth: nat)
    requires dir.Dir? && i < |names| && names[i] in dir.children
    ensures ListOps(m, b, at, name, dir, names[..i + 1], depth)
         == ListOps(m, b, at, name, dir, names[..i], depth)
           + NodeOps(m, b, at, name + [names[i]], dir.children[names[i]], depth)
  {
    hide NodeOps;
    assert names[..i + 1][..i] == names[..i];
  }

  lemma ListsChildren(m: Mode, path: Path, dir: Node)
    requires Enumerates(m) && dir.Dir?
    ensures forall x <- m.order(path, dir.children.Keys) :: x in dir.children
  {
    forall x <- m.order(path, dir.children.Keys)
      ensures x in dir.children
    {
      assert x in multiset(m.order(path, dir.children.Keys));
    }
  }

  lemma {:induction false} ListGrows(m: Mode, b: Layout, at: Path, name: Path, dir: Node, names: seq<string>, i: nat,
                                     depth: nat)
    requires dir.Dir? && i <= |names|
    ensures ListOps(m, b, at, name, dir, names[..i], depth) <= ListOps(m, b, at, name, dir, names, depth)
    decreases |names|
  {
    hide NodeOps;
    if i == |names| {
      assert names[..i] == names;
    } else {
      assert names[..|names| - 1][..i] == names[..i];
      ListGrows(m, b, at, name, dir, names[..|names| - 1], i, depth);
    }
  }

  method ScanChild(scope: BundleScan, rules: Rules, m: Mode, at: Path, node: Node, depth: nat) returns (ok: bool)
    requires Ready(scope, rules, m) && scope.Valid()
    modifies scope
    ensures Scanned(scope, ChildOps(m, at, node, depth), ok)
    decreases node, 6
  {
    hide Ready, Compiled, Enumerates, BundleScan.Valid, BundleScan.Doomed, BundleOps, AlternateOps;
    ghost var start, ops := scope.trace, ChildOps(m, at, node, depth);
    if depth > MAX_DEPTH {
      scope.Refused();
      return false;
    }
    ok := scope.CountChild(AddChild);
    if !ok {
      scope.DoomedOnwards(start + [AddChild], start + ops);
      return;
    }
    ghost var before := scope.trace;
    if !node.Dir? || node.layout.None? {
      scope.Refused();
      assert before + [Refuse] == start + ops;
      return false;
    }
    var b := node.layout.value;
    ok := Snapshot(scope, rules, m, b, at, node, depth);
    if !ok {
      scope.DoomedOnwards(before + BundleOps(m, b, at, node, depth), start + ops);
      return;
    }
    before := scope.trace;
    ok := ScanAlternates(scope, rules, m, b, at, node, depth);
    if !ok {
      scope.DoomedOnwards(before + AlternateOps(m, b, at, node, depth), start + ops);
      return;
    }
    scope.Note(false, at, Bundle);
    assert scope.trace == start + ops;
  }

  /** Verification looks into every version of a nested framework. */
  method ScanAlternates(scope: BundleScan, rules: Rules, m: Mode, b: Layout, at: Path, node: Node, depth: nat)
    returns (ok: bool)
    requires Ready(scope, rules, m) && scope.Valid()
    modifies scope
    ensures Scanned(scope, AlternateOps(m, b, at, node, depth), ok)
    decreases node, 5, 1
  {
    hide Ready, Compiled, Enumerates, BundleScan.Valid, BundleScan.Doomed, Concat, AlternateParts;
    if !m.verifyVersions {
      return true;
    }
    ReadyMeans(scope, rules, m);
    var versions := OtherVersions(b, node);
    var names := m.order(at + ["Versions"], versions);
    ListsOnly(m, at + ["Versions"], versions);
    ghost var start, parts := scope.trace, AlternateParts(m, b, at, node, depth);
    AlternateNames(m, b, at, node, depth);
    ConcatNone(names, parts);
    for i := 0 to |names|
      invariant scope.Valid() && scope.trace == start + Concat(names[..i], parts)
    {
      assert names[i] in names;
      ConcatStep(start, names, i, parts);
      ghost var before := scope.trace;
      ok := ScanVersion(scope, rules, m, b, at, node, depth, names[i]);
      if !ok {
        scope.DoomedOnwards(before + parts[names[i]], start + Concat(names, parts));
        return;
      }
    }
    assert names[..|names|] == names;
    ok := true;
  }

  lemma AlternateNames(m: Mode, b: Layout, at: Path, node: Node, depth: nat)
    ensures AlternateParts(m, b, at, node, depth).Keys == OtherVersions(b, node)
    ensures forall v <- OtherVersions(b, node) ::
      AlternateParts(m, b, at, node, depth)[v] == AlternateOf(m, b, at, node, depth, v)
  {
    hide AlternateOf;
  }

  method ScanVersion(scope: BundleScan, rules: Rules, m: Mode, b: Layout, at: Path, node: Node, depth: nat, v: string)
    returns (ok: bool)
    requires Ready(scope, rules, m) && scope.Valid() && v in OtherVersions(b, node)
    modifies scope
    ensures Scanned(scope, AlternateOf(m, b, at, node, depth, v), ok)
    decreases node, 5, 0
  {
    hide Ready, Compiled, Enumerates, BundleScan.Valid, BundleScan.Doomed, BundleOps, OtherVersions, Layout.As;
    ghost var start, ops := scope.trace, AlternateOf(m, b, at, node, depth, v);
    ok := scope.CountChild(AddVersion);
    if !ok {
      scope.DoomedOnwards(start + [AddVersion], start + ops);
    } else if v in b.others {
      ok := Snapshot(scope, rules, m, b.As(v), at, node, depth);
      assert start + [AddVersion] + BundleOps(m, b.As(v), at, node, depth) == start + ops;
    } else {
      scope.Refused();
      assert start + [AddVersion] + [Refuse] == start + ops;
      ok := false;
    }
  }

  lemma ConcatStep(start: seq<Op>, names: seq<string>, i: nat, parts: map<string, seq<Op>>)
    requires i < |names| && names[i] in parts
    ensures start + Concat(names[..i], parts) + parts[names[i]] == start + Concat(names[..i + 1], parts)
    ensures start + Concat(names[..i], parts) + parts[names[i]] <= start + Concat(names, parts)
  {
    ConcatNext(names, i, parts);
    ConcatGrows(names, i + 1, parts);
  }

  lemma ConcatNone(names: seq<string>, parts: map<string, seq<Op>>)
    ensures Concat(names[..0], parts) == []
  {
  }

  lemma ListsOnly(m: Mode, path: Path, keys: set<string>)
    requires Enumerates(m)
    ensures forall x <- m.order(path, keys) :: x in keys
    ensures forall x <- keys :: x in m.order(path, keys)
  {
    assert forall x :: x in m.order(path, keys) <==> x in multiset(m.order(path, keys));
  }

  method Snapshot(scope: BundleScan, rules: Rules, m: Mode, b: Layout, at: Path, root: Node, depth: nat)
    returns (ok: bool)
    requires Ready(scope, rules, m) && scope.Valid()
    modifies scope
    ensures Scanned(scope, BundleOps(m, b, at, root, depth), ok)
    decreases root, 4
  {
    hide Ready, Compiled, Enumerates, Included, Optional, BundleScan.Valid, BundleScan.Doomed, TreeOps, LayoutOps;
    ghost var start, ops := scope.trace, BundleOps(m, b, at, root, depth);
    ok := scope.CountBytes(b.infoSize);
    if !ok {
      scope.DoomedOnwards(start + [AddBytes(b.infoSize)], start + ops);
      return;
    }
    ghost var before := scope.trace;
    if m.recurse {
      ok := ScanTree(scope, rules, m, b, at, root, depth);
    } else {
      ok := EnterLayout(scope, rules, m, b, at, root);
    }
    if !ok {
      scope.DoomedOnwards(
        before + if m.recurse then TreeOps(m, b, at, root, depth) else LayoutOps(m, b, at, root), start + ops);
      return;
    }
    before := scope.trace;
    ok := CountCode(scope, m, b);
    assert before + CodeOps(m, b) == start + ops;
  }

  /** The executable of a child bundle, and its envelope where that is read. */
  method CountCode(scope: BundleScan, m: Mode, b: Layout) returns (ok: bool)
    requires scope.Valid()
    modifies scope
    ensures Scanned(scope, CodeOps(m, b), ok)
  {
    hide BundleScan.Valid, BundleScan.Doomed;
    ghost var start, ops := scope.trace, CodeOps(m, b);
    if b.codeSize.None? {
      scope.Refused();
      scope.DoomedOnwards(start + [Refuse], start + ops);
      return false;
    }
    ok := scope.CountBytes(b.codeSize.value);
    if !ok {
      scope.DoomedOnwards(start + [AddBytes(b.codeSize.value)], start + ops);
      return;
    }
    if m.recurse && !m.cleanup {
      ok := scope.CountBytes(b.envelopeSize);
      assert start + [AddBytes(b.codeSize.value)] + [AddBytes(b.envelopeSize)] == start + ops;
    } else {
      assert scope.trace == start + ops;
    }
  }

  /** Whether the root of a framework holds its versions, and else only links that name the current one. */
  method ValidateRoot(m: Mode, b: Layout, at: Path, root: Node) returns (ok: bool)
    requires Enumerates(m) && b.Versioned()
    ensures ok <==> FrameworkRootOk(m, b, root)
  {
    hide ListedOk, Enumerates;
    if !root.Dir? {
      return false;
    }
    var versions;
    ok, versions := ValidateListing(m, b, at, false, root.children, {"Versions", "Resources", b.stem});
    if !ok {
      return;
    }
    VersionsListed(m, b, root);
    ok, versions := ValidateListing(
      m, b, at + ["Versions"], true, root.children["Versions"].children, {"Current", b.current, b.base[1]});
    ok := ok && |versions| <= MAX_NESTED && b.base[1] in versions;
  }

  lemma VersionsListed(m: Mode, b: Layout, root: Node)
    requires root.Dir? && ListingOk(m, b, false, root.children, {"Versions", "Resources", b.stem})
    ensures "Versions" in root.children && root.children["Versions"].Dir?
  {
    assert ListedOk(m, b, false, "Versions", root.children["Versions"]);
  }

  /** One directory of the root: every entry is checked, and what is required is ticked off. */
  method ValidateListing(m: Mode, b: Layout, path: Path, inner: bool, children: map<string, Node>,
                         required: set<string>)
    returns (ok: bool, versions: set<string>)
    requires Enumerates(m)
    ensures ok <==> ListingOk(m, b, inner, children, required)
    ensures ok ==> versions == set v | v in children && IsVersion(v, children[v])
  {
    hide ListedOk, IsVersion, Enumerates, Before, VersionsBefore;
    versions := {};
    if |children.Keys| > MAX_ENTRIES {
      return false, {};
    }
    var missing := required;
    var names := m.order(path, children.Keys);
    ListsOnly(m, path, children.Keys);
    NamedBefore(names, children, 0);
    for i := 0 to |names|
      invariant forall j | 0 <= j < i :: ListedOk(m, b, inner, names[j], children[names[j]])
      invariant missing == required - Before(names, i)
      invariant versions == VersionsBefore(children, names, i)
    {
      var x := names[i];
      assert x in names;
      NamedBefore(names, children, i);
      if !ListedOk(m, b, inner, x, children[x]) {
        return false, {};
      }
      missing := missing - {x};
      if IsVersion(x, children[x]) {
        versions := versions + {x};
      }
    }
    AllBefore(names, children);
    ok := missing == {};
  }

  ghost function Before(names: seq<string>, n: nat): set<string>
    requires n <= |names|
  {
    set x | x in names[..n]
  }

  ghost function VersionsBefore(children: map<string, Node>, names: seq<string>, n: nat): set<string>
    requires n <= |names| && forall x <- names :: x in children
  {
    set v | v in Before(names, n) && IsVersion(v, children[v])
  }

  lemma NamedBefore(names: seq<string>, children: map<string, Node>, i: nat)
    requires i <= |names| && forall x <- names :: x in children
    ensures Before(names, 0) == {} && VersionsBefore(children, names, 0) == {}
    ensures i < |names| ==>
      && Before(names, i + 1) == Before(names, i) + {names[i]}
      && VersionsBefore(children, names, i + 1)
        == VersionsBefore(children, names, i) + if IsVersion(names[i], children[names[i]]) then {names[i]} else {}
  {
    hide IsVersion;
    if i < |names| {
      assert names[..i + 1] == names[..i] + [names[i]];
    }
  }

  lemma AllBefore(names: seq<string>, children: map<string, Node>)
    requires forall x :: x in names <==> x in children
    ensures Before(names, |names|) == children.Keys
    ensures VersionsBefore(children, names, |names|) == set v | v in children && IsVersion(v, children[v])
  {
    hide IsVersion;
    assert names[..|names|] == names;
  }

  method EnterAll(scope: BundleScan, rules: Rules, m: Mode, at: Path, keys: set<string>) returns (ok: bool)
    requires Ready(scope, rules, m) && scope.Valid()
    modifies scope
    ensures Scanned(scope, EnterOps(m, at, keys), ok)
  {
    hide Ready, Compiled, Enumerates, BundleScan.Valid, BundleScan.Doomed, Concat, EntryParts;
    ReadyMeans(scope, rules, m);
    var names := m.order(at, keys);
    ListsOnly(m, at, keys);
    ghost var start, parts := scope.trace, EntryParts(at, keys);
    EntriesOf(at, keys);
    ConcatNone(names, parts);
    for i := 0 to |names|
      invariant scope.Valid() && scope.trace == start + Concat(names[..i], parts)
    {
      assert names[i] in names;
      ConcatStep(start, names, i, parts);
      ghost var before := scope.trace;
      ok := scope.EnterPath(at + [names[i]]);
      if !ok {
        scope.DoomedOnwards(before + parts[names[i]], start + Concat(names, parts));
        return;
      }
    }
    assert names[..|names|] == names;
    ok := true;
  }

  lemma EntriesOf(at: Path, keys: set<string>)
    ensures EntryParts(at, keys).Keys == keys && forall x <- keys :: EntryParts(at, keys)[x] == [Entry(at + [x])]
  {
  }

  lemma LayoutEntered(m: Mode, b: Layout, at: Path, root: Node)
    requires b.Versioned() && FrameworkRootOk(m, b, root) && !b.alternate
    ensures "Versions" in root.children && root.children["Versions"].Dir?
    ensures LayoutOps(m, b, at, root) == EnterOps(m, at, root.children.Keys)
                                         + EnterOps(m, at + ["Versions"], root.children["Versions"].children.Keys)
  {
    hide EnterOps, ListedOk;
    VersionsListed(m, b, root);
  }

  /** Checks the root of a versioned framework, and enters its members once. */
  method EnterLayout(scope: BundleScan, rules: Rules, m: Mode, b: Layout, at: Path, root: Node) returns (ok: bool)
    requires Ready(scope, rules, m) && scope.Valid()
    modifies scope
    ensures Scanned(scope, LayoutOps(m, b, at, root), ok)
  {
    hide Ready, Compiled, Enumerates, BundleScan.Valid, BundleScan.Doomed, EnterOps, ListingOk;
    if !b.Versioned() {
      return true;
    }
    ReadyMeans(scope, rules, m);
    ok := ValidateRoot(m, b, at, root);
    if !ok {
      scope.Refused();
      return;
    }
    if b.alternate {
      return true;
    }
    LayoutEntered(m, b, at, root);
    hide FrameworkRootOk, LayoutOps;
    ghost var start, ops := scope.trace, LayoutOps(m, b, at, root);
    var top, inner := root.children.Keys, root.children["Versions"].children.Keys;
    ok := EnterAll(scope, rules, m, at, top);
    if !ok {
      scope.DoomedOnwards(start + EnterOps(m, at, top), start + ops);
      return;
    }
    ok := EnterAll(scope, rules, m, at + ["Versions"], inner);
    assert start + EnterOps(m, at, top) + EnterOps(m, at + ["Versions"], inner) == start + ops;
  }

  method StrayNode(scope: BundleScan, rules: Rules, m: Mode, path: Path, node: Node) returns (ok: bool)
    requires Ready(scope, rules, m) && scope.Valid()
    modifies scope
    ensures Scanned(scope, StrayOps(m, path, node), ok)
    decreases node, 1
  {
    hide Ready, Compiled, Enumerates, BundleScan.Valid, BundleScan.Doomed, StrayDirOps;
    ghost var start, ops := scope.trace, StrayOps(m, path, node);
    ok := scope.EnterPath(path);
    if !ok {
      scope.DoomedOnwards(start + [Entry(path)], start + ops);
      return;
    }
    ghost var before := scope.trace;
    match node
    case Dir(_, _, _) =>
      ok := StrayDirectory(scope, rules, m, path, node);
      assert before + StrayDirOps(m, path, node) == start + ops;
    case Link(_, _, _) =>
      assert before == start + ops;
    case File(inode, size, _, _, _) =>
      ok := scope.RegisterRegular(path, inode);
      if !ok {
        scope.DoomedOnwards(before + [RegularFile(path, inode)], start + ops);
        return;
      }
      ghost var registered := scope.trace;
      ok := scope.CountBytes(size);
      assert registered + [AddBytes(size)] == start + ops;
    case Other(_) =>
      scope.Refused();
      assert before + [Refuse] == start + ops;
      ok := false;
  }

  method StrayDirectory(scope: BundleScan, rules: Rules, m: Mode, path: Path, dir: Node) returns (ok: bool)
    requires Ready(scope, rules, m) && scope.Valid() && dir.Dir?
    modifies scope
    ensures Scanned(scope, StrayDirOps(m, path, dir), ok)
    decreases dir, 0
  {
    hide Ready, Compiled, Enumerates, BundleScan.Valid, BundleScan.Doomed, StrayOps;
    ReadyMeans(scope, rules, m);
    var names := m.order(path, dir.children.Keys);
    ListsOnly(m, path, dir.children.Keys);
    ghost var start := scope.trace;
    ghost var parts := map x | x in dir.children :: StrayOps(m, path + [x], dir.children[x]);
    for i := 0 to |names|
      invariant scope.Valid() && scope.trace == start + Concat(names[..i], parts)
    {
      assert names[i] in names;
      ghost var before := scope.trace;
      ConcatStep(start, names, i, parts);
      ok := StrayNode(scope, rules, m, path + [names[i]], dir.children[names[i]]);
      if !ok {
        scope.DoomedOnwards(before + parts[names[i]], start + Concat(names, parts));
        return;
      }
    }
    assert names[..|names|] == names;
    ok := true;
  }

  /** Versions that are not selected are neither signed nor inspected, but no write may reach them. */
  method InventoryOtherVersions(scope: BundleScan, rules: Rules, m: Mode, b: Layout, at: Path, root: Node, depth: nat)
    returns (ok: bool)
    requires Ready(scope, rules, m) && scope.Valid()
    modifies scope
    ensures Scanned(scope, InventoryOps(m, b, at, root, depth), ok)
  {
    hide Ready, Compiled, Enumerates, BundleScan.Valid, BundleScan.Doomed, StrayParts, Concat;
    if b.alternate || (m.verifyVersions && depth != 0) {
      return true;
    }
    ReadyMeans(scope, rules, m);
    var versions := OtherVersions(b, root);
    var names := m.order(at + ["Versions"], versions);
    ListsOnly(m, at + ["Versions"], versions);
    ghost var start, parts := scope.trace, StrayParts(m, b, at, root);
    StrayNames(m, b, at, root);
    ConcatNone(names, parts);
    for i := 0 to |names|
      invariant scope.Valid() && scope.trace == start + Concat(names[..i], parts)
    {
      assert names[i] in names;
      ConcatStep(start, names, i, parts);
      ghost var before := scope.trace;
      ok := InventoryVersion(scope, rules, m, b, at, root, names[i]);
      if !ok {
        scope.DoomedOnwards(before + parts[names[i]], start + Concat(names, parts));
        return;
      }
    }
    assert names[..|names|] == names;
    ok := true;
  }

  lemma StrayNames(m: Mode, b: Layout, at: Path, root: Node)
    ensures StrayParts(m, b, at, root).Keys == OtherVersions(b, root)
    ensures forall v <- OtherVersions(b, root) :: StrayParts(m, b, at, root)[v] == StrayPart(m, at, root, v)
  {
    hide StrayPart;
  }

  method InventoryVersion(scope: BundleScan, rules: Rules, m: Mode, b: Layout, at: Path, root: Node, v: string)
    returns (ok: bool)
    requires Ready(scope, rules, m) && scope.Valid() && v in OtherVersions(b, root)
    modifies scope
    ensures Scanned(scope, StrayPart(m, at, root, v), ok)
  {
    hide Ready, Compiled, Enumerates, BundleScan.Valid, BundleScan.Doomed, StrayDirOps;
    var path, dir := at + ["Versions", v], VersionsOf(root)[v];
    ghost var start, ops := scope.trace, StrayPart(m, at, root, v);
    ok := scope.CountChild(AddVersion);
    if ok {
      ok := StrayDirectory(scope, rules, m, path, dir);
      assert start + [AddVersion] + StrayDirOps(m, path, dir) == start + ops;
    } else {
      scope.DoomedOnwards(start + [AddVersion], start + ops);
    }
  }

  /** Registers the files that signing will write. */
  method RegisterTargets(scope: BundleScan, rules: Rules, m: Mode, b: Layout, at: Path, root: Node) returns (ok: bool)
    requires Ready(scope, rules, m) && scope.Valid()
    modifies scope
    ensures Scanned(scope, TargetOps(at, b.executable, root) + TargetOps(at, b.Resources(), root), ok)
  {
    hide Ready, Compiled, Enumerates, BundleScan.Valid, BundleScan.Doomed, Lookup;
    ghost var start, ops := scope.trace, TargetOps(at, b.executable, root) + TargetOps(at, b.Resources(), root);
    var targets := [b.executable, b.Resources()];
    ghost var done: seq<Op> := [];
    for i := 0 to 2
      invariant scope.Valid() && scope.trace == start + done
      invariant done
        == (if i > 0 then TargetOps(at, targets[0], root) else [])
          + (if i > 1 then TargetOps(at, targets[1], root) else [])
    {
      var found := Lookup(root, targets[i]);
      if found.Some? {
        ok := scope.RegisterTarget(at + targets[i], found.value.inode);
        if !ok {
          scope.DoomedOnwards(start + done + TargetOps(at, targets[i], root), start + ops);
          return;
        }
      }
      done := done + TargetOps(at, targets[i], root);
    }
    ok := true;
  }

  method WalkTree(scope: BundleScan, rules: Rules, m: Mode, b: Layout, at: Path, root: Node, depth: nat)
    returns (ok: bool)
    requires Ready(scope, rules, m) && scope.Valid()
    modifies scope
    ensures Scanned(scope, WalkOps(m, b, at, root, depth), ok)
    decreases root, 2
  {
    hide Ready, Compiled, Enumerates, BundleScan.Valid, BundleScan.Doomed, DirOps;
    if !b.Versioned() {
      ok := ScanDirectory(scope, rules, m, b, at, [], root, depth);
    } else if b.base[1] in VersionsOf(root) {
      ok := ScanDirectory(scope, rules, m, b, at, b.base, VersionsOf(root)[b.base[1]], depth);
    } else {
      scope.Refused();
      ok := false;
    }
  }

  /** Checks the root, registers the files that signing will write, walks the tree, and counts other versions. */
  method ScanTree(scope: BundleScan, rules: Rules, m: Mode, b: Layout, at: Path, root: Node, depth: nat)
    returns (ok: bool)
    requires Ready(scope, rules, m) && scope.Valid()
    modifies scope
    ensures Scanned(scope, TreeOps(m, b, at, root, depth), ok)
    decreases root, 3
  {
    hide Ready, Compiled, Enumerates, BundleScan.Valid, BundleScan.Doomed;
    hide LayoutOps, TargetOps, WalkOps, InventoryOps, Layout.Resources;
    ghost var start, ops := scope.trace, TreeOps(m, b, at, root, depth);
    ghost var targets := TargetOps(at, b.executable, root) + TargetOps(at, b.Resources(), root);
    ok := EnterLayout(scope, rules, m, b, at, root);
    if !ok {
      scope.DoomedOnwards(start + LayoutOps(m, b, at, root), start + ops);
      return;
    }
    ghost var before := scope.trace;
    ok := RegisterTargets(scope, rules, m, b, at, root);
    if !ok {
      scope.DoomedOnwards(before + targets, start + ops);
      return;
    }
    before := scope.trace;
    ok := WalkTree(scope, rules, m, b, at, root, depth);
    if !ok {
      scope.DoomedOnwards(before + WalkOps(m, b, at, root, depth), start + ops);
      return;
    }
    before := scope.trace;
    ok := InventoryOtherVersions(scope, rules, m, b, at, root, depth);
    assert before + InventoryOps(m, b, at, root, depth) == start + ops;
  }

  /** The seals a finished scan hands to the signer or the verifier. */
  ghost function Sealed(m: Mode, b: Layout, root: Node): Option<(map<Path, Seal>, map<Path, Seal>)> {
    match Run(m.validPath, START, TreeOps(m, b, [], root, 0))
    case None => None
    case Some(s) => Some((s.files, s.files2))
  }

  lemma SealedAnyOrder(m: Mode, order: (Path, set<string>) -> seq<string>, b: Layout, root: Node)
    requires Enumerates(m) && Enumerates(ScanLaws.Reordered(m, order))
    ensures Sealed(ScanLaws.Reordered(m, order), b, root) == Sealed(m, b, root)
  {
    hide Enumerates, TreeOps, Run;
    ScanLaws.ScanAnyOrder(m, ScanLaws.Reordered(m, order), b, root);
  }

  /**
   * Scanning a bundle: whatever order the directories are listed in, now or on a later walk, the
   * verdict and the seals are these; and on success every file and link is sealed, lies in a sealed
   * child bundle, or is exempt by an explicit rule.
   */
  method Scan(m: Mode, rules: Rules, b: Layout, root: Node)
    returns (ok: bool, files: map<Path, Seal>, files2: map<Path, Seal>)
    requires Enumerates(m) && Compiled(rules) && forall p | m.validPath(p) :: LinkContainment.NamesOnly(p)
    ensures forall order | Enumerates(ScanLaws.Reordered(m, order)) ::
      Sealed(ScanLaws.Reordered(m, order), b, root) == if ok then Some((files, files2)) else None
    ensures ok ==> forall name | Member(root, name) :: Covered(b, files2, root, name)
  {
    hide Compiled, Enumerates, TreeOps, Member, Covered, ScanLaws.Reordered;
    var scope := new BundleScan(m.validPath);
    ok := ScanTree(scope, rules, m, b, [], root, 0);
    files, files2 := scope.files, scope.files2;
    assert [] + TreeOps(m, b, [], root, 0) == TreeOps(m, b, [], root, 0);
    forall order | Enumerates(ScanLaws.Reordered(m, order))
      ensures Sealed(ScanLaws.Reordered(m, order), b, root) == if ok then Some((files, files2)) else None
    {
      SealedAnyOrder(m, order, b, root);
    }
    if ok {
      forall name | Member(root, name)
        ensures Covered(b, files2, root, name)
      {
        MemberCovered(m, b, root, name);
      }
    }
  }

  /** A file or link somewhere below the root. */
  predicate Member(root: Node, name: Path) {
    name != [] && Lookup(root, name).Some? && (Lookup(root, name).value.File? || Lookup(root, name).value.Link?)
  }

  ghost predicate Covered(b: Layout, files2: map<Path, Seal>, root: Node, name: Path)
    requires Member(root, name)
  {
    || name in files2
    || (exists k :: 0 < k < |name| && name[..k] in files2 && files2[name[..k]] == Bundle)
    || ScanLaws.Exempt(b, name, Lookup(root, name).value)
  }

  lemma MemberCovered(m: Mode, b: Layout, root: Node, name: Path)
    requires Enumerates(m) && Member(root, name) && Run(m.validPath, START, TreeOps(m, b, [], root, 0)).Some?
    ensures Covered(b, Run(m.validPath, START, TreeOps(m, b, [], root, 0)).value.files2, root, name)
  {
    hide TreeOps, Run;
    ScanLaws.SealingComplete(m, b, root, name);
  }
}
