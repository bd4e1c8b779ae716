/** Signing a bundle and verifying it later: what was signed verifies, whatever signing wrote. */
module SignThenVerify {
  import opened Text
  import opened Wrappers
  import opened ScanScope
  import opened TreeScan
  import opened OwnSeals
  import opened TwoScans
  import opened ResourceVerification
  import opened EnvelopeLaws
  import ScanEnvelope
  import ScanSafety
  import ScanLaws
  import TreeWalk

  /** A path that the bundle's own envelope does not look at: inside a child bundle, or of its signature. */
  ghost predicate Hidden(b: Layout, files2: map<Path, Seal>, p: Path) {
    InChild(files2, p) || b.base + ["_CodeSignature"] <= p
  }

  /** The file has the inode of one that signing writes. */
  ghost predicate Rewritten(b: Layout, before: Node, files2: map<Path, Seal>, x: Node) {
    exists w :: ScanSafety.Written(b, before, files2, w)
             && Lookup(before, w).Some? && Lookup(before, w).value.inode == x.inode
  }

  ghost predicate EntryKept(b: Layout, before: Node, files2: map<Path, Seal>, after: Node, p: Path) {
    && Lookup(before, p).Some? == Lookup(after, p).Some?
    && (Lookup(before, p).Some? ==>
          var x, y := Lookup(before, p).value, Lookup(after, p).value;
          && SameKind(x, y) && (x.Link? ==> y.target == x.target)
          && (x.File? ==> y.content == x.content || Rewritten(b, before, files2, x)))
  }

  /**
   * What signing may do to the tree: anything inside sealed children and to the signature directory, and
   * elsewhere new content for the files it writes and, through hard links, for any other name they have.
   */
  ghost predicate WroteOnly(b: Layout, before: Node, files2: map<Path, Seal>, after: Node) {
    forall p :: Hidden(b, files2, p) || EntryKept(b, before, files2, after, p)
  }

  /** A bundle signed in mode `s`, and found again in mode `v` with nothing changed but by signing. */
  ghost predicate SignedAndFound(s: Mode, v: Mode, b: Layout, d: Layout, before: Node, after: Node) {
    && Accepted(s, b, before) && Accepted(v, d, after) && SamePlaces(b, d)
    && s.hash2 == v.hash2 && s.recurse && !s.verifyResources
    && WroteOnly(b, before, Files2(s, b, before), after)
  }

  lemma FoundParts(s: Mode, v: Mode, b: Layout, d: Layout, before: Node, after: Node)
    requires SignedAndFound(s, v, b, d, before, after)
    ensures Accepted(s, b, before) && Accepted(v, d, after) && SamePlaces(b, d)
    ensures s.hash2 == v.hash2 && s.recurse && !s.verifyResources && WroteOnly(b, before, Files2(s, b, before), after)
  {
    hide Accepted, Files2, SamePlaces, WroteOnly;
  }

  lemma InSignatureDirectory(m: Mode, b: Layout, name: Path, node: Node)
    requires name != [] && b.base + ["_CodeSignature"] <= name
    ensures SealOf(m, b, name, node).None?
  {
    var n := |b.base|;
    assert (b.base + ["_CodeSignature"])[n] == "_CodeSignature" == name[n];
    assert b.Rel(name) == name[n..] && name[n..][0] == "_CodeSignature";
    assert "CodeResources"[..2][0] == 'C' && "._"[0] == '.';
    if name == b.Resources() {
      assert name[|name| - 1] == "CodeResources";
    } else if |name| == n + 1 {
      assert name[n..] == ["_CodeSignature"];
    }
    hide Lower, LowerPath, NestedInside, NestedContainer, FrameworkResource, BundleSuffix, Included, Optional;
  }

  lemma DeeperInChild(files2: map<Path, Seal>, name: Path, k: nat)
    requires k <= |name| && InChild(files2, name[..k])
    ensures InChild(files2, name)
  {
    var j :| 0 < j < k && name[..k][..j] in files2 && files2[name[..k][..j]].Bundle?;
    assert name[..k][..j] == name[..j];
  }

  /** What is its own was never hidden. */
  lemma OwnInSight(m: Mode, b: Layout, tree: Node, rel: Path, k: nat)
    requires Accepted(m, b, tree) && rel in Own(b, Files2(m, b, tree)) && k <= |b.base + rel|
    ensures !Hidden(b, Files2(m, b, tree), (b.base + rel)[..k])
  {
    var files2, name := Files2(m, b, tree), b.base + rel;
    OwnByReach(m, b, tree, rel, Own(b, files2)[rel]);
    OwnMeans(b, files2, rel);
    hide Own, Files2, Accepted, SealOf, Reached, InChild;
    if InChild(files2, name[..k]) {
      DeeperInChild(files2, name, k);
    }
    if b.base + ["_CodeSignature"] <= name[..k] {
      assert b.base + ["_CodeSignature"] <= name;
      InSignatureDirectory(m, b, name, Lookup(tree, name).value);
    }
  }

  /** A file sealed by its hash is none that signing writes, under this name or any other. */
  lemma HashedIsNotRewritten(m: Mode, b: Layout, tree: Node, rel: Path)
    requires Accepted(m, b, tree) && m.recurse && rel in Own(b, Files2(m, b, tree))
    requires Own(b, Files2(m, b, tree))[rel].Hashed? && Lookup(tree, b.base + rel).Some?
    ensures !Rewritten(b, tree, Files2(m, b, tree), Lookup(tree, b.base + rel).value)
  {
    var files2, name := Files2(m, b, tree), b.base + rel;
    OwnByReach(m, b, tree, rel, Own(b, files2)[rel]);
    OwnMeans(b, files2, rel);
    hide TreeOps, Run, Lookup, SealOf, Own, Reached;
    NotBound(m, b, name, Lookup(tree, name).value);
    if w :| ScanSafety.Written(b, tree, files2, w)
            && Lookup(tree, w).Some? && Lookup(tree, w).value.inode == Lookup(tree, name).value.inode {
      if w == name {
        RootIsUnsealed(m, b, tree);
        NotInOwnChild(b, tree, files2, name);
      } else {
        ScanSafety.WritesStayApart(m, b, tree, w, name);
      }
    }
  }

  lemma NotBound(m: Mode, b: Layout, name: Path, node: Node)
    requires name != [] && SealOf(m, b, name, node).Some? && SealOf(m, b, name, node).value.Hashed?
    ensures name != b.executable && name != b.Resources()
  {
    hide RoleOf, Included, Optional, Layout.Rel;
  }

  lemma NotInOwnChild(b: Layout, tree: Node, files2: map<Path, Seal>, name: Path)
    requires ScanSafety.Written(b, tree, files2, name) && name in files2 && files2[name].Hashed?
    requires name != b.executable && name != b.Resources() && [] !in files2
    ensures InChild(files2, name)
  {
    hide Lookup, Layout.Resources;
    var at :| at in files2 && files2[at].Bundle? && ScanSafety.WrittenIn(tree, at, name);
    if at != name {
      assert name[..|at|] == at;
    }
  }

  lemma RootIsUnsealed(m: Mode, b: Layout, tree: Node)
    requires Accepted(m, b, tree)
    ensures [] !in Files2(m, b, tree)
  {
    AcceptedProper(m, b, tree);
    hide TreeOps, Run, ScanEnvelope.Proper;
    var files2 := Files2(m, b, tree);
    if [] in files2 {
      assert FILE_SEALS([], files2[[]]) in TreeOps(m, b, [], tree, 0);
      SealIsWalked(m, b, [], tree, 0, SealFile([], files2[[]]));
    }
  }

  /** The later seal stands for the same as the earlier one, which it equals unless it is of nested code. */
  ghost predicate Kept(seal: Seal, later: Seal) {
    if IsNested(seal) then later.Code? == seal.Code? && later.Bundle? == seal.Bundle? else later == seal
  }

  lemma KindsKept(b: Layout, before: Node, files2: map<Path, Seal>, after: Node, name: Path)
    requires WroteOnly(b, before, files2, after)
    requires Lookup(before, name).Some? || Lookup(after, name).Some?
    requires !Hidden(b, files2, name)
    ensures KindKept(before, after, name)
  {
    hide Hidden, Rewritten, Lookup;
    assert EntryKept(b, before, files2, after, name);
  }

  /** Everything signing sealed is there when it is verified, and its seal still fits. */
  lemma SealsStay(s: Mode, v: Mode, b: Layout, d: Layout, before: Node, after: Node, rel: Path)
    requires SignedAndFound(s, v, b, d, before, after) && rel in Own(b, Files2(s, b, before))
    ensures var signed, found := Own(b, Files2(s, b, before)), Own(d, Files2(v, d, after));
      !signed[rel].Exempted? && rel in found && (found[rel].Exempted? || Kept(signed[rel], found[rel]))
  {
    var files2, name := Files2(s, b, before), b.base + rel;
    var seal := Own(b, files2)[rel];
    OwnByReach(s, b, before, rel, seal);
    AcceptedAllows(s, b, before);
    AcceptedAllows(v, d, after);
    SigningSparesNone(s, b, before, rel);
    hide Own, Files2, Accepted, SealOf, Lookup, Hidden, KindKept, EntryKept, WroteOnly, TreeOps, Enumerates;
    forall k | |b.Start()| < k <= |name|
      ensures KindKept(before, after, name[..k])
    {
      OwnInSight(s, b, before, rel, k);
      ReachedUpTo(s, b, before, name, k);
      KindsKept(b, before, files2, after, name[..k]);
    }
    SealFollows(s, v, b, d, before, after, name);
    var later := SealOf(v, d, name, Lookup(after, name).value).value;
    OwnByReach(v, d, after, rel, later);
    if !later.Exempted? {
      ContentKept(s, v, b, d, before, after, rel, later);
    }
  }

  lemma ReachedUpTo(m: Mode, b: Layout, tree: Node, name: Path, k: nat)
    requires Reached(m, b, tree, name) && |b.Start()| < k <= |name|
    ensures Lookup(tree, name[..k]).Some?
  {
    hide Lookup;
    assert k == |name| ==> name[..k] == name;
    assert k < |name| ==> FolderAt(m, b, tree, name[..k]);
  }

  lemma ContentKept(s: Mode, v: Mode, b: Layout, d: Layout, before: Node, after: Node, rel: Path, later: Seal)
    requires SignedAndFound(s, v, b, d, before, after) && rel in Own(b, Files2(s, b, before))
    requires Lookup(before, b.base + rel).Some? && Lookup(after, b.base + rel).Some?
    requires Renewed(v.hash2, Own(b, Files2(s, b, before))[rel], Lookup(after, b.base + rel).value, later)
    requires !Own(b, Files2(s, b, before))[rel].Exempted?
    ensures Kept(Own(b, Files2(s, b, before))[rel], later)
  {
    hide Own, Files2, Accepted, Hidden, Rewritten, Lookup, ScanLaws.Tells, Renewed, Kept, SignedAndFound;
    FoundParts(s, v, b, d, before, after);
    var name, seal := b.base + rel, Own(b, Files2(s, b, before))[rel];
    OwnTells(s, b, before, rel);
    OwnInSight(s, b, before, rel, |name|);
    assert name[..|name|] == name;
    assert EntryKept(b, before, Files2(s, b, before), after, name);
    if seal.Hashed? {
      HashedIsNotRewritten(s, b, before, rel);
    }
    RenewedIsKept(s, v, seal, later, Lookup(before, name).value, Lookup(after, name).value);
  }

  lemma RenewedIsKept(s: Mode, v: Mode, seal: Seal, later: Seal, x: Node, y: Node)
    requires s.hash2 == v.hash2 && !seal.Exempted? && ScanLaws.Tells(s, seal, x) && Renewed(v.hash2, seal, y, later)
    requires (seal.Linked? && x.Link? && y.Link? ==> y.target == x.target)
    requires (seal.Hashed? && x.File? && y.File? ==> y.content == x.content)
    ensures Kept(seal, later)
  {
  }

  /** The outermost sealed child around a path is the bundle's own. */
  lemma OutermostIsOwn(m: Mode, b: Layout, tree: Node, name: Path, k: nat) returns (rel: Path)
    requires Accepted(m, b, tree) && k <= |name| && InChild(Files2(m, b, tree), name[..k])
    ensures rel in Own(b, Files2(m, b, tree)) && b.base + rel < name[..k] && b.Start() < b.base + rel
  {
    hide Accepted, Files2, Own, TreeOps, Run, InChild, ScanEnvelope.Proper, ScanEnvelope.Inside;
    hide ScanEnvelope.OwnSeal, Enumerates, Holds;
    var files2, ops := Files2(m, b, tree), TreeOps(m, b, [], tree, 0);
    AcceptedProper(m, b, tree);
    AcceptedAllows(m, b, tree);
    var i := OutermostChild(files2, ops, name, k);
    OwnStartsBelow(m, b, tree, name[..i]);
    OwnIsProper(m, b, ops, files2, name[..i]);
    BelowBase(m, b, name[..i], files2[name[..i]]);
    rel := name[..i][|b.base|..];
    assert b.base + rel == name[..i];
    OwnMeans(b, files2, rel);
  }

  lemma OwnStartsBelow(m: Mode, b: Layout, tree: Node, name: Path)
    requires Enumerates(m) && SealFile(name, Bundle) in TreeOps(m, b, [], tree, 0)
    ensures b.Start() < name
  {
    hide TreeOps, Enumerates;
    SealIsWalked(m, b, [], tree, 0, SealFile(name, Bundle));
    assert [] + b.Start() == b.Start();
  }

  lemma OutermostChild(files2: map<Path, Seal>, ops: seq<Op>, name: Path, k: nat) returns (i: nat)
    requires Holds(files2, ops, FILE_SEALS) && k <= |name| && InChild(files2, name[..k])
    ensures i < k && name[..i] < name[..k] && SealFile(name[..i], Bundle) in ops && name[..i] in files2
    ensures !ScanEnvelope.Inside(ops, [], name[..i]) && !InChild(files2, name[..i])
  {
    OutsideIsOutside(ops, files2, name[..k]);
    assert [] + name[..k] == name[..k];
    i := Outermost(ops, [], name[..k]);
    assert name[..k][..i] == name[..i] && [] + name[..i] == name[..i];
    assert FILE_SEALS(name[..i], Bundle) in ops;
    OutsideIsOutside(ops, files2, name[..i]);
  }

  lemma BelowBase(m: Mode, b: Layout, name: Path, seal: Seal)
    requires ScanEnvelope.OwnSeal(m, b, name, seal)
    ensures b.base <= name
  {
    hide Included, Optional, Layout.Rel;
  }

  /** What is found as the bundle's own was not hidden when it was signed. */
  lemma FoundInSight(s: Mode, v: Mode, b: Layout, d: Layout, before: Node, after: Node, rel: Path, k: nat)
    requires SignedAndFound(s, v, b, d, before, after)
    requires rel in Own(d, Files2(v, d, after)) && k <= |d.base + rel|
    ensures !Hidden(b, Files2(s, b, before), (d.base + rel)[..k])
  {
    hide Own, Files2, Accepted, SealOf, Lookup, SignedAndFound, InChild, Reached, WroteOnly;
    FoundParts(s, v, b, d, before, after);
    var files2, name := Files2(s, b, before), d.base + rel;
    OwnByReach(v, d, after, rel, Own(d, Files2(v, d, after))[rel]);
    ReachedThere(v, d, after, name);
    if b.base + ["_CodeSignature"] <= name[..k] {
      assert d.base + ["_CodeSignature"] <= name;
      InSignatureDirectory(v, d, name, Lookup(after, name).value);
    }
    if InChild(files2, name[..k]) {
      OwnChildOnly(s, v, b, d, before, after, name, k);
    }
  }

  lemma OwnChildOnly(s: Mode, v: Mode, b: Layout, d: Layout, before: Node, after: Node, name: Path, k: nat)
    requires SignedAndFound(s, v, b, d, before, after) && k <= |name|
    requires InChild(Files2(s, b, before), name[..k])
    ensures !Reached(v, d, after, name)
  {
    hide Own, Files2, Accepted, SealOf, Lookup, SignedAndFound, InChild, Reached, WroteOnly;
    FoundParts(s, v, b, d, before, after);
    var inner := OutermostIsOwn(s, b, before, name, k);
    SealsStay(s, v, b, d, before, after, inner);
    OwnByReach(v, d, after, inner, Own(d, Files2(v, d, after))[inner]);
    var n := |b.base + inner|;
    assert name[..n] == b.base + inner;
    if Reached(v, d, after, name) {
      SealedIsNoFolder(v, d, after, name, n);
    }
  }

  lemma SealedIsNoFolder(m: Mode, b: Layout, tree: Node, name: Path, n: nat)
    requires |b.Start()| < n < |name| && Reached(m, b, tree, name[..n])
    requires SealOf(m, b, name[..n], Lookup(tree, name[..n]).value).Some?
    ensures !Reached(m, b, tree, name)
  {
    hide SealOf, Lookup;
    if FolderAt(m, b, tree, name[..n]) {
      FolderUnsealed(m, b, name[..n], Lookup(tree, name[..n]).value);
    }
  }

  /** Nothing is found that signing did not seal, except attribute files. */
  lemma NothingIsAdded(s: Mode, v: Mode, b: Layout, d: Layout, before: Node, after: Node, rel: Path)
    requires SignedAndFound(s, v, b, d, before, after)
    requires rel in Own(d, Files2(v, d, after)) && !Own(d, Files2(v, d, after))[rel].Exempted?
    ensures rel in Own(b, Files2(s, b, before))
  {
    var files2, name := Files2(s, b, before), d.base + rel;
    var seal := Own(d, Files2(v, d, after))[rel];
    OwnByReach(v, d, after, rel, seal);
    AcceptedAllows(s, b, before);
    AcceptedAllows(v, d, after);
    hide Own, Files2, Accepted, SealOf, Lookup, Hidden, KindKept, EntryKept, WroteOnly, TreeOps, Enumerates;
    forall k | |d.Start()| < k <= |name|
      ensures KindKept(after, before, name[..k])
    {
      FoundInSight(s, v, b, d, before, after, rel, k);
      ReachedUpTo(v, d, after, name, k);
      KindsKept(b, before, files2, after, name[..k]);
      KindsMeet(before, after, name[..k]);
    }
    SealFollows(v, s, d, b, after, before, name);
    OwnByReach(s, b, before, rel, SealOf(s, b, name, Lookup(before, name).value).value);
  }

  lemma KindsMeet(x: Node, y: Node, name: Path)
    requires KindKept(x, y, name)
    ensures KindKept(y, x, name)
  {
  }

  /** The checks that are made of what is found, beside comparing it. */
  ghost predicate ChecksPass(c: Checks, requirement: Seal -> string, signed: Actual, found: Actual) {
    forall n | n in found ::
      c.live(n) && c.valid(n) && (found[n].Exempted? || FoundPasses(c, requirement, signed, n, found[n]))
  }

  ghost predicate FoundPasses(c: Checks, requirement: Seal -> string, signed: Actual, n: Path, seal: Seal) {
    && n in signed && c.attached(n).Pass?
    && (IsNested(seal) ==> c.nested(n, requirement(signed[n]), seal).Pass?)
    && (seal.Linked? ==> c.link(n, seal.target).Pass?)
  }

  /** Of a bundle that was only signed since, every name passes when the checks about it do. */
  lemma NamePasses(c: Checks, requirement: Seal -> string, signed: Actual, found: Actual, n: Path)
    requires n in signed || n in found
    requires n in signed ==> Policed(n, signed[n]) && n in found && (found[n].Exempted? || Kept(signed[n], found[n]))
    requires n in found && !found[n].Exempted? ==> n in signed
    ensures Passes(c, Sealed(requirement, signed), found, n) <==>
      c.live(n) && c.valid(n) && (found[n].Exempted? || FoundPasses(c, requirement, signed, n, found[n]))
  {
    VerifiesExactly(c, requirement, signed, found, n);
    hide Passes, Policed, Sealed;
  }

  /**
   * Sign, then verify: whatever modes and listing orders the two scans use, the envelope made by signing
   * verifies against what signing left exactly when the nested code, links and attached data pass their
   * own checks. The comparison of resources never fails.
   */
  lemma SignedVerifies(c: Checks, s: Mode, v: Mode, b: Layout, d: Layout, before: Node, after: Node,
                       requirement: Seal -> string)
    requires SignedAndFound(s, v, b, d, before, after) && forall x :: |s.hash2(x)| == MAX_HASH
    ensures var signed, found := Own(b, Files2(s, b, before)), Own(d, Files2(v, d, after));
      Verifies(c, Sealed(requirement, signed), found) <==> ChecksPass(c, requirement, signed, found)
  {
    hide SignedAndFound, Own, Files2, Accepted, WroteOnly, Policed, Kept, Passes, FoundPasses, EntryOf;
    FoundParts(s, v, b, d, before, after);
    var signed, found := Own(b, Files2(s, b, before)), Own(d, Files2(v, d, after));
    forall n | n in signed || n in found
      ensures n in found
      ensures Passes(c, Sealed(requirement, signed), found, n) <==>
        c.live(n) && c.valid(n) && (found[n].Exempted? || FoundPasses(c, requirement, signed, n, found[n]))
    {
      if n in signed {
        SealsStay(s, v, b, d, before, after, n);
        OwnIsPoliced(s, b, before, n);
      } else if !found[n].Exempted? {
        NothingIsAdded(s, v, b, d, before, after, n);
      }
      NamePasses(c, requirement, signed, found, n);
    }
    assert Sealed(requirement, signed).Keys == signed.Keys;
  }

  /** A tree that nobody touched: only scanned to be signed, and scanned again to be verified. */
  lemma UntouchedIsFound(s: Mode, v: Mode, b: Layout, root: Node)
    requires Accepted(s, b, root) && Accepted(v, b, root) && s.hash2 == v.hash2 && s.recurse && !s.verifyResources
    ensures SignedAndFound(s, v, b, b, root, root)
  {
    hide Accepted, Files2, Hidden, Lookup, Rewritten;
    forall p
      ensures EntryKept(b, root, Files2(s, b, root), root, p)
    {
    }
  }

  /** The envelope of a scan that signs verifies against the same tree scanned to be verified. */
  lemma EnvelopeVerifies(c: Checks, s: Mode, v: Mode, b: Layout, root: Node, requirement: Seal -> string)
    requires Accepted(s, b, root) && Accepted(v, b, root) && s.hash2 == v.hash2 && s.recurse && !s.verifyResources
    requires forall x :: |s.hash2(x)| == MAX_HASH
    ensures var signed, found := Own(b, Files2(s, b, root)), Own(b, Files2(v, b, root));
      Verifies(c, Sealed(requirement, signed), found) <==> ChecksPass(c, requirement, signed, found)
  {
    UntouchedIsFound(s, v, b, root);
    SignedVerifies(c, s, v, b, b, root, root, requirement);
  }

  lemma KeptAlike(s: Mode, v: Mode, x: Seal, y: Seal, node: Node)
    requires Kept(x, y) && ScanLaws.Tells(s, x, node) && ScanLaws.Tells(v, y, node)
    ensures x == y
  {
  }

  /** One scan to sign and one to verify leave the bundle the same seals of its own, attribute files apart. */
  lemma ModesSealAlike(s: Mode, v: Mode, b: Layout, root: Node, rel: Path)
    requires Accepted(s, b, root) && Accepted(v, b, root) && s.hash2 == v.hash2 && s.recurse && !s.verifyResources
    ensures var signed, found := Own(b, Files2(s, b, root)), Own(b, Files2(v, b, root));
      Exempt(found, rel) || ((rel in signed <==> rel in found) && (rel in signed ==> signed[rel] == found[rel]))
  {
    hide Own, Files2, Accepted, SignedAndFound, Lookup, Kept, ScanLaws.Tells;
    var signed, found := Own(b, Files2(s, b, root)), Own(b, Files2(v, b, root));
    UntouchedIsFound(s, v, b, root);
    if rel in signed {
      SealsStay(s, v, b, b, root, root, rel);
      if !Exempt(found, rel) {
        OwnTells(s, b, root, rel);
        OwnTells(v, b, root, rel);
        KeptAlike(s, v, signed[rel], found[rel], Lookup(root, b.base + rel).value);
      }
    } else if rel in found && !Exempt(found, rel) {
      NothingIsAdded(s, v, b, b, root, root, rel);
    }
  }

  /** Verifying the envelope that signing made against what a later scan finds. */
  method VerifySigned(c: Checks, rules: TreeWalk.Rules, files: Envelope, actual: Actual, ghost s: Mode, ghost v: Mode,
                      ghost b: Layout, ghost d: Layout, ghost before: Node, ghost after: Node,
                      ghost requirement: Seal -> string)
    returns (r: Result<nat, Rejection>)
    requires TreeWalk.Compiled(rules) && Spells(c)
    requires SignedAndFound(s, v, b, d, before, after) && forall x :: |s.hash2(x)| == MAX_HASH
    requires files == Sealed(requirement, Own(b, Files2(s, b, before))) && actual == Own(d, Files2(v, d, after))
    ensures r.Ok? <==> ChecksPass(c, requirement, Own(b, Files2(s, b, before)), actual)
    ensures r.Ok? ==> r.value == |files|
  {
    hide SignedAndFound, Own, Files2, Accepted, Verifies, ChecksPass, TreeWalk.Compiled;
    r := VerifyResources(c, rules, true, files, actual);
    SignedVerifies(c, s, v, b, d, before, after, requirement);
  }
}
