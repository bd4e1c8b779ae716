/** A framework with two versions, scanned to be signed: the scan accepts it. */
module FrameworkExample {
  import opened Listing
  import opened Sorting
  import opened Text
  import opened Wrappers
  import opened ScanScope
  import opened TreeScan
  import ScanLaws

  const PROGRAM := File(1, 10, [1], true, false)
  const OLD_PROGRAM := File(2, 20, [2], true, false)
  const VERSION_A := Dir(3, map["Foo" := PROGRAM], None)
  const VERSION_B := Dir(4, map["Foo" := OLD_PROGRAM], None)
  const VERSIONS := Dir(5, map["A" := VERSION_A, "B" := VERSION_B, "Current" := Link(6, "A", true)], None)
  const ROOT := Dir(7, map[
    "Versions" := VERSIONS,
    "Resources" := Link(8, "Versions/Current/Resources", true),
    "Foo" := Link(9, "./Versions/A/Foo", true)], None)

  const FRAMEWORK := Layout(["Versions", "A"], ["Versions", "A", "Foo"], ["Versions", "A", "Resources", "Info.plist"],
                            true, 5, Some(10), 0, "A", "Foo", false, map[])

  const TOP := ["Foo", "Resources", "Versions"]
  const INNER := ["A", "B", "Current"]

  ghost function Listed(s: set<string>): (r: seq<string>)
    ensures multiset(r) == multiset(s)
  {
    if s == {} then [] else
    var x :| x in s;
    assert s == (s - {x}) + {x};
    [x] + Listed(s - {x})
  }

  /** The listing of the example's directories, and any listing of others. */
  ghost function Ordered(s: set<string>): (r: seq<string>)
    ensures multiset(r) == multiset(s)
  {
    if s == {"Foo", "Resources", "Versions"} then TOP else if s == {"A", "B", "Current"} then INNER else Listed(s)
  }

  ghost function Signing(): Mode {
    Mode((p: Path, s: set<string>) => Ordered(s), (p: Path) => true, (x: string) => true,
         true, false, false, false, true, (c: Content) => c, (c: Content) => c, (c: Content) => true)
  }

  lemma Single(x: string)
    ensures Ordered({x}) == [x]
  {
    var r := Ordered({x});
    assert |r| == |multiset(r)| == |multiset({x})| == 1;
    assert r[0] in multiset(r);
  }

  lemma Aliases()
    ensures RootAlias(FRAMEWORK, "Foo", ROOT.children["Foo"])
    ensures RootAlias(FRAMEWORK, "Resources", ROOT.children["Resources"])
  {
    assert "./Versions/A/Foo"[..2] == "./" && "./Versions/A/Foo"[2..] == "Versions/A/Foo";
    assert "Versions/" + "A" + "/" + "Foo" == "Versions/A/Foo";
    assert "Versions/Current/Resources"[0] == 'V' && "./"[0] == '.';
    assert "Versions/Current/" + "Resources" == "Versions/Current/Resources";
  }

  lemma TopListed()
    ensures ROOT.children.Keys == {"Foo", "Resources", "Versions"}
    ensures ListingOk(Signing(), FRAMEWORK, false, ROOT.children, {"Versions", "Resources", "Foo"})
  {
    hide Ordered, Listed, Undotted, RootAlias;
    Aliases();
    assert ROOT.children.Keys == {"Foo", "Resources", "Versions"};
    forall x | x in ROOT.children
      ensures ListedOk(Signing(), FRAMEWORK, false, x, ROOT.children[x])
    {
      assert x == "Versions" || x == "Resources" || x == "Foo";
    }
  }

  lemma InnerListed()
    ensures VersionsOf(ROOT) == VERSIONS.children && VERSIONS.children.Keys == {"A", "B", "Current"}
    ensures ListingOk(Signing(), FRAMEWORK, true, VERSIONS.children, {"Current", "A", "A"})
    ensures AllVersions(ROOT) == {"A", "B"}
  {
    hide Ordered, Listed;
    assert VERSIONS.children.Keys == {"A", "B", "Current"};
    assert VersionsOf(ROOT) == VERSIONS.children;
    forall x | x in VERSIONS.children
      ensures ListedOk(Signing(), FRAMEWORK, true, x, VERSIONS.children[x])
      ensures IsVersion(x, VERSIONS.children[x]) <==> x == "A" || x == "B"
    {
      assert x == "A" || x == "B" || x == "Current";
    }
  }

  lemma RootOk()
    ensures FRAMEWORK.Versioned() && FrameworkRootOk(Signing(), FRAMEWORK, ROOT)
    ensures OtherVersions(FRAMEWORK, ROOT) == {"B"}
  {
    hide Signing, ListedOk, VersionsOf;
    TopListed();
    InnerListed();
    assert |{"A", "B"}| == 2;
  }

  lemma ConcatThree(parts: map<string, seq<Op>>, x: string, y: string, z: string)
    ensures Concat([x, y, z], parts) == PartOf(x, parts) + PartOf(y, parts) + PartOf(z, parts)
  {
    hide PartOf;
    ConcatLast([x, y], z, parts);
    ConcatLast([x], y, parts);
    ConcatLast([], x, parts);
    assert [x, y] + [z] == [x, y, z] && [x] + [y] == [x, y] && [] + [x] == [x];
  }

  lemma ConcatOne(parts: map<string, seq<Op>>, x: string)
    ensures Concat([x], parts) == PartOf(x, parts)
  {
    assert [x][..0] == [];
  }

  const MAIN := ["Versions", "A", "Foo"]
  const OTHER := ["Versions", "B", "Foo"]

  lemma EntersThree(at: Path, x: string, y: string, z: string)
    requires Ordered({x, y, z}) == [x, y, z]
    ensures EnterOps(Signing(), at, {x, y, z}) == [Entry(at + [x]), Entry(at + [y]), Entry(at + [z])]
  {
    ConcatThree(EntryParts(at, {x, y, z}), x, y, z);
    hide Ordered, Concat;
  }

  lemma Orders()
    ensures Ordered({"Foo", "Resources", "Versions"}) == TOP && Ordered({"A", "B", "Current"}) == INNER
  {
    hide Listed;
    assert "A" !in {"Foo", "Resources", "Versions"};
  }

  lemma Entered()
    ensures LayoutOps(Signing(), FRAMEWORK, [], ROOT) == ENTRIES
  {
    hide Signing, Ordered, Listed, FrameworkRootOk, ListingOk, EnterOps, VersionsOf;
    RootOk();
    TopListed();
    InnerListed();
    TopEntered();
    InnerEntered();
    assert ENTRIES == ENTRIES[..3] + ENTRIES[3..];
    assert [] + ["Versions"] == ["Versions"];
  }

  lemma TopEntered()
    ensures EnterOps(Signing(), [], {"Foo", "Resources", "Versions"}) == ENTRIES[..3]
  {
    hide Signing, Ordered, EnterOps;
    Orders();
    EntersThree([], "Foo", "Resources", "Versions");
    assert [] + ["Foo"] == ["Foo"] && [] + ["Resources"] == ["Resources"] && [] + ["Versions"] == ["Versions"];
  }

  lemma InnerEntered()
    ensures EnterOps(Signing(), ["Versions"], {"A", "B", "Current"}) == ENTRIES[3..]
  {
    hide Signing, Ordered, EnterOps;
    Orders();
    EntersThree(["Versions"], "A", "B", "Current");
    assert ["Versions"] + ["A"] == ["Versions", "A"] && ["Versions"] + ["B"] == ["Versions", "B"];
    assert ["Versions"] + ["Current"] == ["Versions", "Current"];
  }

  const ENTRIES :=
    [Entry(["Foo"]), Entry(["Resources"]), Entry(["Versions"]),
     Entry(["Versions", "A"]), Entry(["Versions", "B"]), Entry(["Versions", "Current"])]

  const REST :=
    [WriteTarget(MAIN, 1), Entry(MAIN), RegularFile(MAIN, 1),
     AddVersion, Entry(OTHER), RegularFile(OTHER, 2), AddBytes(20)]

  lemma Walked()
    ensures WalkOps(Signing(), FRAMEWORK, [], ROOT, 0) == [Entry(MAIN), RegularFile(MAIN, 1)]
  {
    InnerListed();
    Single("Foo");
    MainNode();
    hide ListingOk, NodeOps, Ordered, VersionsOf;
    assert VERSION_A.children.Keys == {"Foo"};
    assert ["Foo"][..0] == [];
    assert [] + FRAMEWORK.base == FRAMEWORK.base && FRAMEWORK.base + ["Foo"] == MAIN;
    assert ListOps(Signing(), FRAMEWORK, [], FRAMEWORK.base, VERSION_A, [], 0) == [];
    assert ListOps(Signing(), FRAMEWORK, [], FRAMEWORK.base, VERSION_A, ["Foo"], 0)
        == NodeOps(Signing(), FRAMEWORK, [], MAIN, PROGRAM, 0);
  }

  lemma MainNode()
    ensures NodeOps(Signing(), FRAMEWORK, [], MAIN, PROGRAM, 0) == [Entry(MAIN), RegularFile(MAIN, 1)]
  {
    hide Ordered, Listed, SealOps, LowerPath, Lower, NestedInside, NestedContainer, FrameworkResource;
    assert MAIN[2..] == ["Foo"] && FRAMEWORK.Rel(MAIN) == ["Foo"] && [] + MAIN == MAIN;
    assert RoleOf(Signing(), FRAMEWORK, MAIN, PROGRAM) == Member(false);
    hide RoleOf;
  }

  lemma OtherGoneThrough()
    ensures StrayDirOps(Signing(), ["Versions", "B"], VERSION_B) == [Entry(OTHER), RegularFile(OTHER, 2), AddBytes(20)]
  {
    hide Ordered, PartOf, Concat;
    Single("Foo");
    var path := ["Versions", "B"];
    var inner := map x | x in VERSION_B.children :: StrayOps(Signing(), path + [x], VERSION_B.children[x]);
    assert VERSION_B.children.Keys == {"Foo"} && path + ["Foo"] == OTHER;
    ConcatOne(inner, "Foo");
    PartIs(inner, "Foo");
    assert inner["Foo"] == StrayOps(Signing(), OTHER, OLD_PROGRAM);
  }

  lemma PartIs(parts: map<string, seq<Op>>, x: string)
    requires x in parts
    ensures PartOf(x, parts) == parts[x]
  {
  }

  lemma Inventoried()
    ensures InventoryOps(Signing(), FRAMEWORK, [], ROOT, 0)
         == [AddVersion, Entry(OTHER), RegularFile(OTHER, 2), AddBytes(20)]
  {
    hide FrameworkRootOk, ListingOk, VersionsOf, OtherVersions, AllVersions, Ordered, StrayDirOps, PartOf, Concat;
    RootOk();
    InnerListed();
    Single("B");
    OtherGoneThrough();
    assert [] + ["Versions"] == ["Versions"] && [] + ["Versions", "B"] == ["Versions", "B"];
    var parts := StrayParts(Signing(), FRAMEWORK, [], ROOT);
    ConcatOne(parts, "B");
    PartIs(parts, "B");
    assert parts["B"] == [AddVersion] + StrayDirOps(Signing(), ["Versions", "B"], VERSION_B);
  }

  lemma Targeted()
    ensures TargetOps([], FRAMEWORK.executable, ROOT) + TargetOps([], FRAMEWORK.Resources(), ROOT)
         == [WriteTarget(MAIN, 1)]
  {
    assert [] + MAIN == MAIN && MAIN[1..] == ["A", "Foo"] && MAIN[1..][1..] == ["Foo"] && MAIN[1..][1..][1..] == [];
    assert Lookup(VERSION_A, ["Foo"]) == Some(PROGRAM);
    assert Lookup(VERSIONS, ["A", "Foo"]) == Some(PROGRAM);
    var r := FRAMEWORK.Resources();
    assert r == ["Versions", "A", "_CodeSignature", "CodeResources"];
    assert r[1..] == ["A", "_CodeSignature", "CodeResources"] && r[1..][1..] == ["_CodeSignature", "CodeResources"];
    assert Lookup(VERSION_A, r[1..][1..]) == None;
    assert Lookup(VERSIONS, r[1..]) == None;
  }

  lemma Effects()
    ensures TreeOps(Signing(), FRAMEWORK, [], ROOT, 0) == ENTRIES + REST
  {
    hide LayoutOps, TargetOps, WalkOps, InventoryOps, Signing;
    Entered();
    Targeted();
    Walked();
    Inventoried();
  }

  /** A number that paths differing in letter case alone have in common. */
  function Rank(p: Path): int {
    if p == [] || p[0] == "" || (|p| > 1 && p[1] == "") then 0 else
    var part := if |p| > 1 then p[1] else p[0];
    |p| * 10000 + |part| * 1000 + LowerChar(part[0]) as int
  }

  lemma RankLowers(p: Path, q: Path)
    requires LowerPath(p) == LowerPath(q)
    ensures Rank(p) == Rank(q)
  {
    var l := LowerPath(p);
    assert |l| == |p| == |q|;
    assert forall i | 0 <= i < |p| :: l[i] == Lower(p[i]) == Lower(q[i]);
    assert forall i | 0 <= i < |p| :: |l[i]| == |p[i]| == |q[i]|;
    if p != [] && p[0] != "" {
      assert l[0][0] == LowerChar(p[0][0]) == LowerChar(q[0][0]);
    }
    if |p| > 1 && p[1] != "" {
      assert l[1][0] == LowerChar(p[1][0]) == LowerChar(q[1][0]);
    }
  }

  /** The effects by their places: entries have different ranks, and only one file is ever written. */
  lemma NoClashes(i: nat, j: nat)
    requires i < j < 13
    ensures !Clash((ENTRIES + REST)[i], (ENTRIES + REST)[j])
  {
    var ops := ENTRIES + REST;
    hide LowerPath;
    if ops[i].Entry? && ops[j].Entry? {
      Ranks();
      assert Rank(ops[i].path) != Rank(ops[j].path);
      if LowerPath(ops[i].path) == LowerPath(ops[j].path) {
        RankLowers(ops[i].path, ops[j].path);
      }
    }
  }

  lemma Ranks()
    ensures Rank(["Foo"]) == 13102 && Rank(["Resources"]) == 19114 && Rank(["Versions"]) == 18118
    ensures Rank(["Versions", "A"]) == 21097 && Rank(["Versions", "B"]) == 21098
    ensures Rank(["Versions", "Current"]) == 27099 && Rank(MAIN) == 31097 && Rank(OTHER) == 31098
  {
  }

  lemma {:induction false} SumBounded(weight: Op -> int, ops: seq<Op>, n: int)
    requires forall op <- ops :: weight(op) <= n
    ensures Sum(weight, ops) <= n * |ops|
  {
    if ops != [] {
      SumBounded(weight, ops[1..], n);
    }
  }

  lemma Enumerated()
    ensures Enumerates(Signing())
  {
    hide Ordered;
  }

  lemma Harmless()
    ensures forall i | 0 <= i < 13 :: Admissible(Signing().validPath, (ENTRIES + REST)[i])
    ensures forall op <- ENTRIES + REST :: EntryWeight(op) <= 1 && ChildWeight(op) <= 1 && ByteWeight(op) <= 20
  {
    hide Ordered;
  }

  /** The framework is accepted; its executable is registered for writing, its other version gone through. */
  lemma FrameworkAccepted()
    ensures Enumerates(Signing()) && Run(Signing().validPath, START, TreeOps(Signing(), FRAMEWORK, [], ROOT, 0)).Some?
  {
    hide Signing, Ordered, Run, Clash, Sum, LowerPath, Admissible, TreeOps, Consistent;
    hide EntryWeight, ChildWeight, ByteWeight;
    var m, ops := Signing(), ENTRIES + REST;
    Enumerated();
    Effects();
    ScanLaws.EffectsConsistent(m, FRAMEWORK, ROOT);
    RunIsAcceptable(m.validPath, ops);
    Harmless();
    forall i, j | 0 <= i < j < |ops|
      ensures !Clash(ops[i], ops[j])
    {
      NoClashes(i, j);
    }
    SumBounded(EntryWeight, ops, 1);
    SumBounded(ChildWeight, ops, 1);
    SumBounded(ByteWeight, ops, 20);
  }
}
