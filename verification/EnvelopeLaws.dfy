/** What a verified envelope says about a bundle. */
module EnvelopeLaws {
  import opened ByteStrings
  import opened Text
  import opened Wrappers
  import opened ScanScope
  import opened TreeScan
  import opened ResourceVerification
  import opened OwnSeals
  import ScanEnvelope
  import ScanLaws
  import ScanSafety

  /** Sealed as a whole with a child bundle around it. */
  ghost predicate InChild(files2: map<Path, Seal>, name: Path) {
    exists k :: 0 < k < |name| && name[..k] in files2 && files2[name[..k]].Bundle?
  }

  ghost function Names(b: Layout, files2: map<Path, Seal>): set<Path> {
    set name | name in files2 && b.base <= name && !InChild(files2, name) :: name[|b.base|..]
  }

  /** The seals a scan leaves to the bundle itself, named as its envelope names them. */
  ghost function Own(b: Layout, files2: map<Path, Seal>): Actual {
    map rel | rel in Names(b, files2) && b.base + rel in files2 :: files2[b.base + rel]
  }

  lemma OwnMeans(b: Layout, files2: map<Path, Seal>, rel: Path)
    ensures rel in Own(b, files2) <==> b.base + rel in files2 && !InChild(files2, b.base + rel)
    ensures rel in Own(b, files2) ==> Own(b, files2)[rel] == files2[b.base + rel]
  {
    hide InChild;
    assert (b.base + rel)[|b.base|..] == rel;
    if rel in Names(b, files2) {
      var name :| name in files2 && b.base <= name && !InChild(files2, name) && name[|b.base|..] == rel;
      assert name == b.base + rel;
    }
  }

  /** The entry that signing writes for a seal; nested code is bound by a requirement. */
  function EntryOf(requirement: Seal -> string, seal: Seal): Entry {
    match seal
    case Hashed(hash, optional) => Hash(hash, optional, true)
    case Linked(target, optional) => Symlink(target, optional, true)
    case Code(_) => Nested(true, requirement(seal))
    case Bundle => Nested(true, requirement(seal))
    case Exempted => Unknown
  }

  ghost function Sealed(requirement: Seal -> string, actual: Actual): Envelope {
    map n | n in actual :: EntryOf(requirement, actual[n])
  }

  /** A seal as the resource policy wants it. */
  ghost predicate Policed(name: Path, seal: Seal) {
    match seal
    case Hashed(hash, optional) => Included(name, false) && optional == Optional(name, false) && |hash| == MAX_HASH
    case Linked(target, optional) => Included(name, false) && optional == Optional(name, false) && target != ""
    case Exempted => false
    case _ => true
  }

  predicate IsNested(seal: Seal) {
    seal.Code? || seal.Bundle?
  }

  /**
   * What verification allows between the sealed and the present: equal resources, nested code that meets
   * its requirement.
   */
  ghost predicate Matches(c: Checks, requirement: Seal -> string, name: Path, before: Seal, after: Seal) {
    if IsNested(before) then
      IsNested(after) && c.nested(name, requirement(before), after).Pass?
    else
      after == before && (before.Linked? ==> c.link(name, before.target).Pass?)
  }

  ghost predicate MayBeAbsent(seal: Seal) {
    (seal.Hashed? || seal.Linked?) && seal.optional
  }

  ghost predicate Undisturbed(c: Checks, actual: Actual, name: Path) {
    c.live(name) && c.valid(name) && (name in actual && !actual[name].Exempted? ==> c.attached(name).Pass?)
  }

  /**
   * An envelope verifies against what is found exactly when nothing was added, everything present
   * matches its seal, and whatever is missing was optional. Attribute files are spared.
   */
  lemma VerifiesExactly(c: Checks, requirement: Seal -> string, before: Actual, after: Actual, n: Path)
    requires n in before ==> Policed(n, before[n])
    requires n in before || n in after
    ensures Passes(c, Sealed(requirement, before), after, n) <==>
      Undisturbed(c, after, n) && (Exempt(after, n) || (n in before &&
        if n in after then Matches(c, requirement, n, before[n], after[n]) else MayBeAbsent(before[n])))
  {
    hide Included, Optional;
  }

  ghost predicate Accepted(m: Mode, b: Layout, root: Node) {
    Enumerates(m) && Run(m.validPath, START, TreeOps(m, b, [], root, 0)).Some?
  }

  ghost function Files2(m: Mode, b: Layout, root: Node): map<Path, Seal>
    requires Accepted(m, b, root)
  {
    Run(m.validPath, START, TreeOps(m, b, [], root, 0)).value.files2
  }

  /** Every seal a scan leaves to the bundle is one the policy wants. */
  lemma OwnIsPoliced(m: Mode, b: Layout, root: Node, rel: Path)
    requires Accepted(m, b, root) && rel in Own(b, Files2(m, b, root)) && forall x :: |m.hash2(x)| == MAX_HASH
    ensures rel != [] && (Own(b, Files2(m, b, root))[rel].Exempted? || Policed(rel, Own(b, Files2(m, b, root))[rel]))
  {
    hide *;
    OwnMeans(b, Files2(m, b, root), rel);
    AcceptedProper(m, b, root);
    OwnIsProper(m, b, TreeOps(m, b, [], root, 0), Files2(m, b, root), b.base + rel);
    OwnSealPoliced(m, b, rel, Files2(m, b, root)[b.base + rel]);
  }

  lemma AcceptedProper(m: Mode, b: Layout, root: Node)
    requires Accepted(m, b, root)
    ensures ScanScope.Holds(Files2(m, b, root), TreeOps(m, b, [], root, 0), FILE_SEALS)
    ensures ScanEnvelope.Proper(m, b, [], TreeOps(m, b, [], root, 0))
  {
    hide TreeOps, Run, Describes, Acceptable, ScanSafety.Sane, ScanEnvelope.Proper, ScanLaws.Truthful,
      ScanLaws.SealsApart;
    var ops := TreeOps(m, b, [], root, 0);
    ScanSafety.AcceptedScan(m, b, root);
    DescribedSeals(Run(m.validPath, START, ops).value, ops);
    NoRefusal(m, ops);
    ScanEnvelope.TreeProper(m, b, [], root, 0);
  }

  lemma OwnSealPoliced(m: Mode, b: Layout, rel: Path, seal: Seal)
    requires ScanEnvelope.OwnSeal(m, b, b.base + rel, seal) && forall x :: |m.hash2(x)| == MAX_HASH
    ensures rel != [] && (seal.Exempted? || Policed(rel, seal))
  {
    hide Included, Optional;
    assert b.Rel(b.base + rel) == rel;
  }

  lemma DescribedSeals(s: State, ops: seq<Op>)
    requires Describes(s, ops)
    ensures ScanScope.Holds(s.files2, ops, FILE_SEALS)
  {
    hide Seen;
  }

  lemma OwnIsProper(m: Mode, b: Layout, ops: seq<Op>, files2: map<Path, Seal>, name: Path)
    requires ScanScope.Holds(files2, ops, FILE_SEALS) && ScanEnvelope.Proper(m, b, [], ops)
    requires name in files2 && !InChild(files2, name)
    ensures ScanEnvelope.OwnSeal(m, b, name, files2[name])
  {
    hide ScanEnvelope.OwnSeal;
    assert FILE_SEALS(name, files2[name]) in ops;
    assert ScanEnvelope.ProperOp(m, b, [], ops, SealFile(name, files2[name]));
    assert name[0..] == name;
    hide InChild, ScanEnvelope.Inside;
    if ScanEnvelope.Inside(ops, [], name) {
      InsideIsInChild(ops, files2, name);
    }
  }

  lemma InsideIsInChild(ops: seq<Op>, files2: map<Path, Seal>, name: Path)
    requires ScanScope.Holds(files2, ops, FILE_SEALS) && ScanEnvelope.Inside(ops, [], name)
    ensures InChild(files2, name)
  {
    var k :| 0 < k < |name| && SealFile(name[..k], Bundle) in ops;
    assert FILE_SEALS(name[..k], Bundle) in ops;
  }

  lemma NoRefusal(m: Mode, ops: seq<Op>)
    requires Acceptable(m.validPath, ops)
    ensures Refuse !in ops
  {
    forall op <- ops
      ensures op != Refuse
    {
      var i :| 0 <= i < |ops| && ops[i] == op;
      assert Admissible(m.validPath, ops[i]);
    }
  }

  /** The bundle's own seals, told from the tree: exactly those of the entries the walk reaches. */
  lemma OwnByReach(m: Mode, b: Layout, root: Node, rel: Path, seal: Seal)
    requires Accepted(m, b, root)
    ensures var own, name := Own(b, Files2(m, b, root)), b.base + rel;
      rel in own && own[rel] == seal <==>
        Reached(m, b, root, name) && SealOf(m, b, name, Lookup(root, name).value) == Some(seal)
  {
    AcceptedProper(m, b, root);
    AcceptedAllows(m, b, root);
    hide TreeOps, Run, Reached, SealOf, Lookup, ScanEnvelope.Proper;
    var ops, files2, name := TreeOps(m, b, [], root, 0), Files2(m, b, root), b.base + rel;
    hide Files2, Own, Accepted;
    OwnMeans(b, files2, rel);
    OwnExactly(m, b, [], root, 0, name, seal);
    assert [] + name == name;
    assert FILE_SEALS(name, seal) == SealFile(name, seal);
    OutsideIsOutside(ops, files2, name);
    if name in files2 {
      assert FILE_SEALS(name, files2[name]) in ops;
    }
  }

  lemma AcceptedAllows(m: Mode, b: Layout, root: Node)
    requires Accepted(m, b, root)
    ensures Enumerates(m) && Refuse !in TreeOps(m, b, [], root, 0)
  {
    hide TreeOps, Run, Acceptable, Consistent;
    ScanLaws.EffectsConsistent(m, b, root);
    ScanLaws.AcceptedHasNoRefusal(m.validPath, TreeOps(m, b, [], root, 0));
  }

  lemma OutsideIsOutside(ops: seq<Op>, files2: map<Path, Seal>, name: Path)
    requires ScanScope.Holds(files2, ops, FILE_SEALS)
    ensures InChild(files2, name) <==> ScanEnvelope.Inside(ops, [], name)
  {
    if ScanEnvelope.Inside(ops, [], name) {
      InsideIsInChild(ops, files2, name);
    }
    if InChild(files2, name) {
      var k :| 0 < k < |name| && name[..k] in files2 && files2[name[..k]].Bundle?;
      assert FILE_SEALS(name[..k], files2[name[..k]]) in ops;
    }
  }

  /** Only a scan that verifies resources spares attribute files. */
  lemma SigningSparesNone(m: Mode, b: Layout, root: Node, rel: Path)
    requires Accepted(m, b, root) && !m.verifyResources && rel in Own(b, Files2(m, b, root))
    ensures !Own(b, Files2(m, b, root))[rel].Exempted?
  {
    hide Accepted, Own, Files2;
    OwnByReach(m, b, root, rel, Own(b, Files2(m, b, root))[rel]);
    NoExemption(m, b, b.base + rel, Lookup(root, b.base + rel).value);
  }

  lemma NoExemption(m: Mode, b: Layout, name: Path, node: Node)
    requires name != [] && !m.verifyResources
    ensures SealOf(m, b, name, node) != Some(Exempted)
  {
    hide Lower, LowerPath, NestedInside, NestedContainer, FrameworkResource, BundleSuffix, Included, Optional;
  }

  /**
   * A verified envelope binds the tree, whatever modes the bundle was signed and is verified in: with an
   * injective hash, nothing sealed of the bundle itself has been added, changed, or taken away unless it
   * was optional. Attribute files alone are spared.
   */
  lemma EnvelopeBindsTree(c: Checks, s: Mode, v: Mode, b: Layout, d: Layout, signed: Node, found: Node,
                          requirement: Seal -> string, n: Path)
    requires Accepted(s, b, signed) && Accepted(v, d, found) && s.hash2 == v.hash2 && !s.verifyResources
    requires (forall x :: |s.hash2(x)| == MAX_HASH) && forall x, y :: s.hash2(x) == s.hash2(y) ==> x == y
    requires var before, after := Own(b, Files2(s, b, signed)), Own(d, Files2(v, d, found));
      (n in before || n in after) && Verifies(c, Sealed(requirement, before), after)
    ensures var before, after := Own(b, Files2(s, b, signed)), Own(d, Files2(v, d, found));
      || Exempt(after, n)
      || (&& n in before
          && (n !in after ==> MayBeAbsent(before[n]))
          && (n in after && IsNested(before[n]) ==>
                IsNested(after[n]) && c.nested(n, requirement(before[n]), after[n]).Pass?)
          && (n in after && !IsNested(before[n]) ==>
                && Lookup(signed, b.base + n).Some? && Lookup(found, d.base + n).Some?
                && ScanLaws.SameSealed(Lookup(signed, b.base + n).value, Lookup(found, d.base + n).value)))
  {
    hide Own, Passes, Policed, Included, Optional, Accepted, Files2;
    var before, after := Own(b, Files2(s, b, signed)), Own(d, Files2(v, d, found));
    assert Passes(c, Sealed(requirement, before), after, n);
    if n in before {
      OwnIsPoliced(s, b, signed, n);
      SigningSparesNone(s, b, signed, n);
    }
    VerifiesExactly(c, requirement, before, after, n);
    if !Exempt(after, n) && n in after && !IsNested(before[n]) {
      OwnTells(s, b, signed, n);
      OwnTells(v, d, found, n);
      hide Lookup;
      SameTold(s, v, before[n], Lookup(signed, b.base + n).value, Lookup(found, d.base + n).value);
    }
  }

  lemma OwnTells(m: Mode, b: Layout, root: Node, rel: Path)
    requires Accepted(m, b, root) && rel in Own(b, Files2(m, b, root))
    ensures Lookup(root, b.base + rel).Some?
    ensures ScanLaws.Tells(m, Own(b, Files2(m, b, root))[rel], Lookup(root, b.base + rel).value)
  {
    hide TreeOps, Run, Lookup, InChild, ScanLaws.Tells;
    OwnMeans(b, Files2(m, b, root), rel);
    ScanLaws.SealIsTrue(m, b, root, b.base + rel, Own(b, Files2(m, b, root))[rel]);
  }

  lemma SameTold(s: Mode, v: Mode, seal: Seal, x: Node, y: Node)
    requires s.hash2 == v.hash2 && forall p, q :: s.hash2(p) == s.hash2(q) ==> p == q
    requires !IsNested(seal) && !seal.Exempted? && ScanLaws.Tells(s, seal, x) && ScanLaws.Tells(v, seal, y)
    ensures ScanLaws.SameSealed(x, y)
  {
  }
}
