/** Verifying the resource envelope of a bundle against what a scan of the bundle finds. */
module ResourceVerification {
  import opened ByteStrings
  import opened Sorting
  import opened Wrappers
  import opened ScanScope
  import opened TreeScan
  import TreeWalk

  const MAX_HASH := 32

  /** A decoded `files2` entry; `exact` says that it has no field beyond those its kind is written with. */
  datatype Entry =
    | Nested(wellFormed: bool, requirement: string)
    | Symlink(target: string, optional: bool, exact: bool)
    | Hash(hash: seq<int>, optional: bool, exact: bool)
    | Unknown

  /** A local finding is collected; a fatal one ends verification at once. */
  datatype Finding = Pass | Added | Modified | Missing | Attached | Fatal

  /** Checks that are not part of this model, the order of names, and whether the caller still waits. */
  datatype Checks = Checks(
    nested: (Path, string, Seal) -> Finding, link: (Path, string) -> Finding, attached: Path -> Finding,
    valid: Path -> bool, live: Path -> bool, spell: Path -> Bytes)

  type Envelope = map<Path, Entry>
  type Actual = map<Path, Seal>

  ghost predicate Spells(c: Checks) {
    forall p, q :: c.spell(p) == c.spell(q) ==> p == q
  }

  ghost function EntryFinding(c: Checks, name: Path, e: Entry, actual: Option<Seal>): Finding {
    match e
    case Nested(wellFormed, requirement) =>
      if !wellFormed then Fatal
      else if actual.None? then Missing
      else if actual.value.Code? || actual.value.Bundle? then c.nested(name, requirement, actual.value)
      else Modified
    case Symlink(target, optional, exact) =>
      if !Included(name, false) || target == "" || !exact || optional != Optional(name, false) then Fatal
      else if actual.Some? then (if actual.value == Linked(target, optional) then c.link(name, target) else Modified)
      else if optional then Pass else Missing
    case Hash(hash, optional, exact) =>
      if !Included(name, false) || |hash| != MAX_HASH || !exact || optional != Optional(name, false) then Fatal
      else if actual.Some? then (if actual.value == Hashed(hash, optional) then Pass else Modified)
      else if optional then Pass else Missing
    case Unknown => Fatal
  }

  function At<X>(m: map<Path, X>, name: Path): Option<X> {
    if name in m then Some(m[name]) else None
  }

  /** A file of attributes, which is not compared with anything. */
  predicate Exempt(actual: Actual, name: Path) {
    name in actual && actual[name].Exempted?
  }

  ghost function SealFinding(c: Checks, files: Envelope, actual: Actual, name: Path): Finding {
    if Exempt(actual, name) then Pass
    else if name in files then EntryFinding(c, name, files[name], At(actual, name))
    else Added
  }

  function DataFinding(c: Checks, actual: Actual, name: Path): Finding {
    if name in actual && !Exempt(actual, name) then c.attached(name) else Pass
  }

  /** Verification does not get past this name. */
  ghost predicate Stops(c: Checks, files: Envelope, actual: Actual, name: Path) {
    !c.live(name) || !c.valid(name) || DataFinding(c, actual, name).Fatal? || SealFinding(c, files, actual, name).Fatal?
  }

  ghost predicate Passes(c: Checks, files: Envelope, actual: Actual, name: Path) {
    c.live(name) && c.valid(name) && DataFinding(c, actual, name).Pass? && SealFinding(c, files, actual, name).Pass?
  }

  /** Nothing present or sealed is found wanting. */
  ghost predicate Verifies(c: Checks, files: Envelope, actual: Actual) {
    forall n | n in files || n in actual :: Passes(c, files, actual, n)
  }

  ghost predicate Reported(c: Checks, files: Envelope, actual: Actual, name: Path, finding: Finding) {
    !finding.Pass? && (DataFinding(c, actual, name) == finding || SealFinding(c, files, actual, name) == finding)
  }

  type Report = set<(Path, Finding)>

  datatype Rejection = Profile | Broken(at: Path) | Failed(report: Report)

  predicate Before(c: Checks, p: Path, q: Path) {
    AtMost(c.spell(p), c.spell(q))
  }

  function PathOrder(c: Checks): (Path, Path) -> bool {
    (p, q) => Before(c, p, q)
  }

  /** Present names before missing ones, each in the order of their spelling. */
  ghost predicate Earlier(c: Checks, actual: Actual, p: Path, q: Path) {
    if (p in actual) == (q in actual) then Before(c, p, q) && p != q else p in actual
  }

  method SortedNames(c: Checks, names: set<Path>) returns (sorted: seq<Path>)
    ensures multiset(sorted) == multiset(names)
    ensures SortedBy(PathOrder(c), sorted)
  {
    sorted := [];
    var left := names;
    while left != {}
      invariant left <= names && multiset(sorted) + multiset(left) == multiset(names)
    {
      var n :| n in left;
      assert left == (left - {n}) + {n};
      sorted, left := sorted + [n], left - {n};
    }
    OrderIsTotal(c);
    SortIsSorted(PathOrder(c), sorted);
    sorted := Sort(PathOrder(c), sorted);
  }

  lemma OrderIsTotal(c: Checks)
    ensures TotalPreorder(PathOrder(c))
  {
    AtMostIsTotalOrder();
    hide AtMost;
    forall x, y, z | Before(c, x, y) && Before(c, y, z)
      ensures Before(c, x, z)
    {
      assert AtMost(c.spell(x), c.spell(y)) && AtMost(c.spell(y), c.spell(z));
    }
    forall x, y
      ensures Before(c, x, y) || Before(c, y, x)
    {
      assert AtMost(c.spell(x), c.spell(y)) || AtMost(c.spell(y), c.spell(x));
    }
  }

  /** One sealed name, with the policy decided by rules in whatever order they were compiled. */
  method VerifyEntry(c: Checks, rules: TreeWalk.Rules, name: Path, e: Entry, actual: Option<Seal>)
    returns (finding: Finding)
    requires TreeWalk.Compiled(rules)
    ensures finding == EntryFinding(c, name, e, actual)
  {
    hide TreeWalk.Compiled, Included, Optional;
    var included, optional := TreeWalk.Decide(rules, false, name);
    match e
    case Nested(wellFormed, requirement) =>
      if !wellFormed {
        return Fatal;
      }
      if actual.None? {
        return Missing;
      }
      if actual.value.Code? || actual.value.Bundle? {
        return c.nested(name, requirement, actual.value);
      }
      finding := Modified;
    case Symlink(target, marked, exact) =>
      if !included || target == "" || !exact || marked != optional {
        return Fatal;
      }
      if actual.None? {
        return if optional then Pass else Missing;
      }
      if actual.value != Linked(target, optional) {
        return Modified;
      }
      finding := c.link(name, target);
    case Hash(hash, marked, exact) =>
      if !included || |hash| != MAX_HASH || !exact || marked != optional {
        return Fatal;
      }
      if actual.None? {
        return if optional then Pass else Missing;
      }
      finding := if actual.value == Hashed(hash, optional) then Pass else Modified;
    case Unknown =>
      finding := Fatal;
  }

  /** Every local finding about the names. */
  ghost predicate Reports(c: Checks, files: Envelope, actual: Actual, names: seq<Path>, report: Report) {
    forall n, f :: (n, f) in report <==> n in names && Reported(c, files, actual, n, f)
  }

  lemma NothingReported(c: Checks, files: Envelope, actual: Actual)
    ensures Reports(c, files, actual, [], {})
  {
  }

  lemma ReportsNext(c: Checks, files: Envelope, actual: Actual, names: seq<Path>, name: Path, report: Report)
    requires Reports(c, files, actual, names, report)
    ensures var data, finding := DataFinding(c, actual, name), SealFinding(c, files, actual, name);
      Reports(c, files, actual, names + [name],
        report + (if data.Pass? then {} else {(name, data)}) + if finding.Pass? then {} else {(name, finding)})
  {
    hide DataFinding, SealFinding;
  }

  /** The names still in order; local findings are collected, a fatal one ends the pass. */
  method CheckNames(c: Checks, rules: TreeWalk.Rules, files: Envelope, actual: Actual, names: seq<Path>)
    returns (broken: Option<nat>, report: Report)
    requires TreeWalk.Compiled(rules)
    ensures broken.None? ==>
      (forall n <- names :: !Stops(c, files, actual, n)) && Reports(c, files, actual, names, report)
    ensures broken.Some? ==> broken.value < |names| && Stops(c, files, actual, names[broken.value])
    ensures broken.Some? ==> forall i | 0 <= i < broken.value :: !Stops(c, files, actual, names[i])
  {
    hide TreeWalk.Compiled, EntryFinding, Reports;
    report := {};
    NothingReported(c, files, actual);
    for i := 0 to |names|
      invariant forall j | 0 <= j < i :: !Stops(c, files, actual, names[j])
      invariant Reports(c, files, actual, names[..i], report)
      invariant names[..0] == []
    {
      var name := names[i];
      if !c.live(name) || !c.valid(name) {
        return Some(i), report;
      }
      assert names[..i + 1] == names[..i] + [name];
      ReportsNext(c, files, actual, names[..i], name, report);
      if Exempt(actual, name) {
        continue;
      }
      var data := if name in actual then c.attached(name) else Pass;
      if data.Fatal? {
        return Some(i), report;
      }
      var finding := Added;
      if name in files {
        finding := VerifyEntry(c, rules, name, files[name], At(actual, name));
      }
      if finding.Fatal? {
        return Some(i), report;
      }
      report := report + (if data.Pass? then {} else {(name, data)}) + if finding.Pass? then {} else {(name, finding)};
    }
    assert names[..|names|] == names;
    broken := None;
  }

  /**
   * Verifies an envelope. The answer depends on the entries alone: all local findings, or the first
   * name in order that cannot be judged.
   */
  method VerifyResources(c: Checks, rules: TreeWalk.Rules, profile: bool, files: Envelope, actual: Actual)
    returns (r: Result<nat, Rejection>)
    requires TreeWalk.Compiled(rules) && Spells(c)
    ensures r == Err(Profile) <==> !profile
    ensures r.Ok? <==> profile && Verifies(c, files, actual)
    ensures r.Ok? ==> r.value == |files|
    ensures r.Err? && r.error.Broken? ==> FirstStop(c, files, actual, r.error.at)
    ensures r.Err? && r.error.Failed? ==> forall n | n in files || n in actual :: !Stops(c, files, actual, n)
    ensures r.Err? && r.error.Failed? ==>
      forall n, f :: (n, f) in r.error.report <==> (n in files || n in actual) && Reported(c, files, actual, n, f)
  {
    hide TreeWalk.Compiled, SealFinding, DataFinding, Before;
    if !profile {
      return Err(Profile);
    }
    var present := SortedNames(c, actual.Keys);
    var absent := SortedNames(c, files.Keys - actual.Keys);
    var names := present + absent;
    NamesCover(files.Keys, actual.Keys, present, absent);
    var broken, report := CheckNames(c, rules, files, actual, names);
    if broken.Some? {
      StopsFirst(c, files, actual, present, absent, broken.value);
      return Err(Broken(names[broken.value]));
    }
    if report != {} {
      var x :| x in report;
      assert Reported(c, files, actual, x.0, x.1);
      return Err(Failed(report));
    }
    forall n | n in files || n in actual
      ensures Passes(c, files, actual, n)
    {
      assert n in names && !Stops(c, files, actual, n);
      assert (n, DataFinding(c, actual, n)) !in report && (n, SealFinding(c, files, actual, n)) !in report;
    }
    r := Ok(|files|);
  }

  /** No name that is judged earlier stops verification. */
  ghost predicate FirstStop(c: Checks, files: Envelope, actual: Actual, at: Path) {
    && (at in files || at in actual) && Stops(c, files, actual, at)
    && forall n | (n in files || n in actual) && Earlier(c, actual, n, at) :: !Stops(c, files, actual, n)
  }

  lemma NamesCover(files: set<Path>, actual: set<Path>, present: seq<Path>, absent: seq<Path>)
    requires multiset(present) == multiset(actual) && multiset(absent) == multiset(files - actual)
    ensures forall n :: n in present <==> n in actual
    ensures forall n :: n in absent <==> n in files && n !in actual
  {
    assert forall n :: n in present <==> n in multiset(present);
    assert forall n :: n in absent <==> n in multiset(absent);
  }

  lemma StopsFirst(c: Checks, files: Envelope, actual: Actual, present: seq<Path>, absent: seq<Path>, i: nat)
    requires Spells(c) && i < |present + absent|
    requires multiset(present) == multiset(actual.Keys) && multiset(absent) == multiset(files.Keys - actual.Keys)
    requires SortedBy(PathOrder(c), present) && SortedBy(PathOrder(c), absent)
    requires Stops(c, files, actual, (present + absent)[i]) && forall j | 0 <= j < i ::
      !Stops(c, files, actual, (present + absent)[j])
    ensures FirstStop(c, files, actual, (present + absent)[i])
  {
    hide Stops, Before;
    NamesCover(files.Keys, actual.Keys, present, absent);
    var names, at := present + absent, (present + absent)[i];
    forall n | (n in files || n in actual) && Earlier(c, actual, n, at)
      ensures !Stops(c, files, actual, n)
    {
      var k := if n in actual then IndexOf(present, n) else |present| + IndexOf(absent, n);
      assert names[k] == n;
      if k > i {
        if k < |present| {
          InOrder(c, present, i, k);
          Antisymmetric(c, at, n);
        } else if |present| <= i {
          InOrder(c, absent, i - |present|, k - |present|);
          Antisymmetric(c, at, n);
        }
      }
    }
  }

  lemma InOrder(c: Checks, names: seq<Path>, i: nat, k: nat)
    requires SortedBy(PathOrder(c), names) && i < k < |names|
    ensures Before(c, names[i], names[k])
  {
    assert PathOrder(c)(names[i], names[k]);
  }

  ghost function IndexOf(names: seq<Path>, n: Path): (k: nat)
    requires n in names
    ensures k < |names| && names[k] == n
  {
    var k :| 0 <= k < |names| && names[k] == n;
    k
  }

  lemma Antisymmetric(c: Checks, p: Path, q: Path)
    requires Spells(c) && Before(c, p, q) && Before(c, q, p)
    ensures p == q
  {
    LessTotal(c.spell(p), c.spell(q));
  }

  /** An entry that can be judged at all: written as its kind is, and marked as the policy wants it. */
  ghost predicate Judgeable(name: Path, e: Entry) {
    match e
    case Nested(wellFormed, _) => wellFormed
    case Symlink(target, optional, exact) => exact && target != "" && AsPolicy(name, optional)
    case Hash(hash, optional, exact) => exact && |hash| == 32 && AsPolicy(name, optional)
    case Unknown => false
  }

  ghost predicate AsPolicy(name: Path, optional: bool) {
    Included(name, false) && optional == Optional(name, false)
  }

  /** What may be missing. */
  predicate MayBeMissing(e: Entry) {
    !e.Nested? && !e.Unknown? && e.optional
  }

  /** What is present is what was sealed; nested code and links are then looked at more closely. */
  predicate SameThing(e: Entry, seal: Seal) {
    match e
    case Nested(_, _) => seal.Code? || seal.Bundle?
    case Symlink(target, optional, _) => seal == Linked(target, optional)
    case Hash(hash, optional, _) => seal == Hashed(hash, optional)
    case Unknown => false
  }

  function CloserLook(c: Checks, name: Path, e: Entry, seal: Seal): Finding {
    match e
    case Nested(_, requirement) => c.nested(name, requirement, seal)
    case Symlink(target, _, _) => c.link(name, target)
    case _ => Pass
  }

  /** When a sealed or present name is found added, fatal, missing or modified, and when it depends on a closer look. */
  lemma FindingExactly(c: Checks, files: Envelope, actual: Actual, name: Path)
    requires name in files || name in actual
    ensures var finding := SealFinding(c, files, actual, name);
      && (Exempt(actual, name) ==> finding == Pass)
      && (!Exempt(actual, name) && name !in files ==> finding == Added)
      && (!Exempt(actual, name) && name in files ==>
            var e := files[name];
            && (!Judgeable(name, e) ==> finding == Fatal)
            && (Judgeable(name, e) && name !in actual ==> finding == if MayBeMissing(e) then Pass else Missing)
            && (Judgeable(name, e) && name in actual && !SameThing(e, actual[name]) ==> finding == Modified)
            && (Judgeable(name, e) && name in actual && SameThing(e, actual[name]) ==>
                  finding == CloserLook(c, name, e, actual[name])))
  {
    hide Included, Optional;
  }
}
