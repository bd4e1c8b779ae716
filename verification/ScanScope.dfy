/** The shared scope of a bundle scan: budgets, the path registry and the hard-link registry. */
module ScanScope {
  import opened Sorting
  import opened Text
  import opened Wrappers

  type Path = seq<string>

  const MAX_ENTRIES := 10000
  const MAX_NESTED := 64
  const MAX_INT64 := 0x7fff_ffff_ffff_ffff

  /** What the scan notes down: resource hashes, link targets, nested code. */
  datatype Seal =
    | Hashed(hash: seq<int>, optional: bool)
    | Linked(target: string, optional: bool)
    | Code(hash: seq<int>)
    | Bundle
    | Exempted

  /** One effect of the scan on its scope, in the order the scan performs them. */
  datatype Op =
    | Entry(path: Path)
    | AddBytes(n: int)
    | AddChild
    | AddVersion
    | WriteTarget(path: Path, inode: nat)
    | RegularFile(path: Path, inode: nat)
    | SealLegacy(path: Path, seal: Seal)
    | SealFile(path: Path, seal: Seal)
    | Refuse

  datatype State = State(
    entries: nat, nested: nat, bytes: int, seen: set<Path>, regular: map<Path, nat>, writable: map<Path, nat>,
    files: map<Path, Seal>, files2: map<Path, Seal>)

  const START := State(0, 0, 0, {}, map[], map[], map[], map[])

  function LowerPath(p: Path): Path {
    seq(|p|, i requires 0 <= i < |p| => Lower(p[i]))
  }

  /** Another path registered with the same file. */
  ghost predicate Aliased(registry: map<Path, nat>, path: Path, inode: nat) {
    exists p :: p in registry && p != path && registry[p] == inode
  }

  ghost function Step(valid: Path -> bool, s: State, op: Op): Option<State> {
    match op
    case Entry(path) =>
      if s.entries + 1 > MAX_ENTRIES || !valid(path) || LowerPath(path) in s.seen then None
      else Some(s.(entries := s.entries + 1, seen := s.seen + {LowerPath(path)}))
    case AddBytes(n) =>
      if n < 0 || s.bytes > MAX_INT64 - n then None else Some(s.(bytes := s.bytes + n))
    case AddChild | AddVersion =>
      if s.nested + 1 > MAX_NESTED then None else Some(s.(nested := s.nested + 1))
    case WriteTarget(path, inode) =>
      if Aliased(s.regular, path, inode) then None else Some(s.(writable := s.writable[path := inode]))
    case RegularFile(path, inode) =>
      if Aliased(s.writable, path, inode) then None else Some(s.(regular := s.regular[path := inode]))
    case SealLegacy(path, seal) => Some(s.(files := s.files[path := seal]))
    case SealFile(path, seal) => Some(s.(files2 := s.files2[path := seal]))
    case Refuse => None
  }

  ghost function Run(valid: Path -> bool, s: State, ops: seq<Op>): Option<State> {
    if ops == [] then
      Some(s)
    else
      match Run(valid, s, ops[..|ops| - 1])
      case None => None
      case Some(t) => Step(valid, t, ops[|ops| - 1])
  }

  lemma {:induction false} RunAppend(valid: Path -> bool, s: State, a: seq<Op>, b: seq<Op>)
    ensures Run(valid, s, a + b) == match Run(valid, s, a) case None => None case Some(t) => Run(valid, t, b)
  {
    if b == [] {
      assert a + b == a;
    } else {
      assert (a + b)[..|a + b| - 1] == a + b[..|b| - 1];
      RunAppend(valid, s, a, b[..|b| - 1]);
    }
  }

  lemma RunOneMore(valid: Path -> bool, s: State, trace: seq<Op>, op: Op)
    ensures Run(valid, s, trace + [op])
      == match Run(valid, s, trace) case None => None case Some(t) => Step(valid, t, op)
  {
    assert (trace + [op])[..|trace|] == trace;
  }

  /** The scope object that all bundles of one scan share. */
  class BundleScan {
    const valid: Path -> bool
    var entries: nat
    var nested: nat
    var bytes: int
    var seen: set<Path>
    var regular: map<Path, nat>
    var writable: map<Path, nat>
    var files: map<Path, Seal>
    var files2: map<Path, Seal>
    ghost var trace: seq<Op>

    constructor (valid: Path -> bool)
      ensures this.valid == valid && View() == START && trace == [] && Valid()
    {
      this.valid := valid;
      entries, nested, bytes, seen := 0, 0, 0, {};
      regular, writable, files, files2 := map[], map[], map[], map[];
      trace := [];
    }

    ghost function View(): State
      reads this
    {
      State(entries, nested, bytes, seen, regular, writable, files, files2)
    }

    /** The scope holds what its effects so far make of an empty one. */
    ghost predicate Valid()
      reads this
    {
      Run(valid, START, trace) == Some(View())
    }

    /** No scan that begins with these effects succeeds. */
    ghost predicate Doomed(ops: seq<Op>) {
      Run(valid, START, ops).None?
    }

    lemma DoomedOnwards(front: seq<Op>, ops: seq<Op>)
      requires Doomed(front) && front <= ops
      ensures Doomed(ops)
    {
      RunAppend(valid, START, front, ops[|front|..]);
      assert ops == front + ops[|front|..];
    }

    /** One effect was attempted: it happened, or it cannot happen here. */
    twostate predicate Took(op: Op, ok: bool)
      reads this
    {
      && (ok ==> Valid() && trace == old(trace) + [op])
      && (!ok ==> Doomed(old(trace) + [op]))
    }

    method EnterPath(path: Path) returns (ok: bool)
      requires Valid()
      modifies this
      ensures Took(Entry(path), ok) && (ok ==> valid(path))
    {
      RunOneMore(valid, START, trace, Entry(path));
      entries := entries + 1;
      if entries > MAX_ENTRIES {
        return false;
      }
      if !valid(path) {
        return false;
      }
      var lower := LowerPath(path);
      if lower in seen {
        return false;
      }
      seen := seen + {lower};
      trace := trace + [Entry(path)];
      ok := true;
    }

    method CountBytes(n: int) returns (ok: bool)
      requires Valid()
      modifies this
      ensures Took(AddBytes(n), ok)
    {
      RunOneMore(valid, START, trace, AddBytes(n));
      if n < 0 || bytes > MAX_INT64 - n {
        return false;
      }
      bytes := bytes + n;
      trace := trace + [AddBytes(n)];
      ok := true;
    }

    /** Counts nested code, or a version that is not selected. */
    method CountChild(ghost op: Op) returns (ok: bool)
      requires Valid() && (op.AddChild? || op.AddVersion?)
      modifies this
      ensures Took(op, ok)
    {
      RunOneMore(valid, START, trace, op);
      nested := nested + 1;
      if nested > MAX_NESTED {
        return false;
      }
      trace := trace + [op];
      ok := true;
    }

    method RegisterTarget(path: Path, inode: nat) returns (ok: bool)
      requires Valid()
      modifies this
      ensures Took(WriteTarget(path, inode), ok)
    {
      RunOneMore(valid, START, trace, WriteTarget(path, inode));
      var aliased := FindAlias(regular, path, inode);
      if aliased {
        return false;
      }
      writable := writable[path := inode];
      trace := trace + [WriteTarget(path, inode)];
      ok := true;
    }

    method RegisterRegular(path: Path, inode: nat) returns (ok: bool)
      requires Valid()
      modifies this
      ensures Took(RegularFile(path, inode), ok)
    {
      RunOneMore(valid, START, trace, RegularFile(path, inode));
      var aliased := FindAlias(writable, path, inode);
      if aliased {
        return false;
      }
      regular := regular[path := inode];
      trace := trace + [RegularFile(path, inode)];
      ok := true;
    }

    method Note(legacy: bool, path: Path, seal: Seal)
      requires Valid()
      modifies this
      ensures Took(if legacy then SealLegacy(path, seal) else SealFile(path, seal), true)
    {
      ghost var op := if legacy then SealLegacy(path, seal) else SealFile(path, seal);
      RunOneMore(valid, START, trace, op);
      ghost var before := View();
      hide Run;
      if legacy {
        files := files[path := seal];
      } else {
        files2 := files2[path := seal];
      }
      trace := trace + [op];
      assert Some(View()) == Step(valid, before, op);
    }

    /** Giving up: the entry at hand is refused. */
    lemma Refused()
      requires Valid()
      ensures Doomed(trace + [Refuse])
    {
      RunOneMore(valid, START, trace, Refuse);
    }
  }

  method FindAlias(registry: map<Path, nat>, path: Path, inode: nat) returns (found: bool)
    ensures found <==> Aliased(registry, path, inode)
  {
    var left := registry.Keys;
    while left != {}
      invariant left <= registry.Keys
      invariant forall p | p in registry && p !in left :: p == path || registry[p] != inode
    {
      var p :| p in left;
      if p != path && registry[p] == inode {
        return true;
      }
      left := left - {p};
    }
    found := false;
  }

  /** An effect that no scope would take. */
  predicate Admissible(valid: Path -> bool, op: Op) {
    match op
    case Entry(path) => valid(path)
    case AddBytes(n) => n >= 0
    case Refuse => false
    case _ => true
  }

  /** Two effects of one scan that rule each other out, whichever comes first. */
  predicate Clash(a: Op, b: Op) {
    match (a, b)
    case (Entry(p), Entry(q)) => LowerPath(p) == LowerPath(q)
    case (WriteTarget(p, i), RegularFile(q, j)) => p != q && i == j
    case (RegularFile(p, i), WriteTarget(q, j)) => p != q && i == j
    case _ => false
  }

  function EntryWeight(op: Op): int {
    if op.Entry? then 1 else 0
  }

  function ChildWeight(op: Op): int {
    if op.AddChild? || op.AddVersion? then 1 else 0
  }

  function ByteWeight(op: Op): int {
    if op.AddBytes? then op.n else 0
  }

  /** What a scan accepts, without saying in which order it looks. */
  ghost predicate Acceptable(valid: Path -> bool, ops: seq<Op>) {
    && (forall i | 0 <= i < |ops| :: Admissible(valid, ops[i]))
    && (forall i, j | 0 <= i < j < |ops| :: !Clash(ops[i], ops[j]))
    && Sum(EntryWeight, ops) <= MAX_ENTRIES
    && Sum(ChildWeight, ops) <= MAX_NESTED
    && Sum(ByteWeight, ops) <= MAX_INT64
  }

  /** Effects that name one path twice agree about it. */
  ghost predicate Consistent(ops: seq<Op>) {
    forall i, j | 0 <= i < j < |ops| :: !Conflict(ops[i], ops[j])
  }

  predicate Conflict(a: Op, b: Op) {
    match (a, b)
    case (WriteTarget(p, i), WriteTarget(q, j)) => p == q && i != j
    case (RegularFile(p, i), RegularFile(q, j)) => p == q && i != j
    case (SealLegacy(p, x), SealLegacy(q, y)) => p == q && x != y
    case (SealFile(p, x), SealFile(q, y)) => p == q && x != y
    case _ => false
  }

  /** The map holds exactly what the effects built by `make` put there. */
  ghost predicate Holds<X(!new)>(m: map<Path, X>, ops: seq<Op>, make: (Path, X) -> Op) {
    && (forall p, x | make(p, x) in ops :: p in m && m[p] == x)
    && (forall p | p in m :: make(p, m[p]) in ops)
  }

  const TARGETS := (p: Path, i: nat) => WriteTarget(p, i)
  const REGULARS := (p: Path, i: nat) => RegularFile(p, i)
  const LEGACY_SEALS := (p: Path, x: Seal) => SealLegacy(p, x)
  const FILE_SEALS := (p: Path, x: Seal) => SealFile(p, x)

  ghost predicate Seen(seen: set<Path>, ops: seq<Op>) {
    && (forall p | Entry(p) in ops :: LowerPath(p) in seen)
    && (forall q | q in seen :: exists p :: Entry(p) in ops && LowerPath(p) == q)
  }

  /** The state after a successful scan, told by its effects alone. */
  ghost predicate Describes(s: State, ops: seq<Op>) {
    && s.entries == Sum(EntryWeight, ops) && s.nested == Sum(ChildWeight, ops) && s.bytes == Sum(ByteWeight, ops)
    && Seen(s.seen, ops)
    && Holds(s.writable, ops, TARGETS) && Holds(s.regular, ops, REGULARS)
    && Holds(s.files, ops, LEGACY_SEALS) && Holds(s.files2, ops, FILE_SEALS)
  }

  lemma HoldsSame<X(!new)>(m: map<Path, X>, ops: seq<Op>, op: Op, make: (Path, X) -> Op)
    requires Holds(m, ops, make) && forall p, x :: make(p, x) != op
    ensures Holds(m, ops + [op], make)
  {
  }

  lemma HoldsAdd<X(!new)>(m: map<Path, X>, ops: seq<Op>, path: Path, x: X, make: (Path, X) -> Op)
    requires Holds(m, ops, make)
    requires forall p, q, y, z :: make(p, y) == make(q, z) ==> p == q && y == z
    requires forall y :: make(path, y) in ops ==> y == x
    ensures Holds(m[path := x], ops + [make(path, x)], make)
  {
  }

  lemma SeenAdd(seen: set<Path>, ops: seq<Op>, op: Op)
    requires Seen(seen, ops)
    ensures op.Entry? ==> Seen(seen + {LowerPath(op.path)}, ops + [op])
    ensures !op.Entry? ==> Seen(seen, ops + [op])
  {
    forall q | q in seen
      ensures exists p :: Entry(p) in ops + [op] && LowerPath(p) == q
    {
      var p :| Entry(p) in ops && LowerPath(p) == q;
      assert Entry(p) in ops + [op];
    }
    if op.Entry? {
      assert Entry(op.path) in ops + [op];
    }
  }

  lemma NoConflict(ops: seq<Op>, op: Op, other: Op)
    requires Consistent(ops + [op]) && other in ops
    ensures !Conflict(other, op)
  {
    var i :| 0 <= i < |ops| && ops[i] == other;
    assert (ops + [op])[i] == other && (ops + [op])[|ops|] == op;
  }

  lemma DescribesNext(valid: Path -> bool, s: State, ops: seq<Op>, op: Op)
    requires Describes(s, ops) && Consistent(ops + [op]) && Step(valid, s, op).Some?
    ensures Describes(Step(valid, s, op).value, ops + [op])
  {
    SumAppend(EntryWeight, ops, op);
    SumAppend(ChildWeight, ops, op);
    SumAppend(ByteWeight, ops, op);
    SeenAdd(s.seen, ops, op);
    NoneConflicts(ops, op);
    TargetsNext(s.writable, ops, op);
    RegularsNext(s.regular, ops, op);
    LegacyNext(s.files, ops, op);
    FilesNext(s.files2, ops, op);
    hide Seen, Holds, Consistent, Aliased, Conflict, Sum;
  }

  lemma NoneConflicts(ops: seq<Op>, op: Op)
    requires Consistent(ops + [op])
    ensures forall other <- ops :: !Conflict(other, op)
  {
    hide Conflict;
    forall other <- ops
      ensures !Conflict(other, op)
    {
      NoConflict(ops, op, other);
    }
  }

  lemma TargetsNext(writable: map<Path, nat>, ops: seq<Op>, op: Op)
    requires Holds(writable, ops, TARGETS) && forall other <- ops :: !Conflict(other, op)
    ensures Holds(if op.WriteTarget? then writable[op.path := op.inode] else writable, ops + [op], TARGETS)
  {
    hide Holds;
    if op.WriteTarget? {
      HoldsAdd(writable, ops, op.path, op.inode, TARGETS);
    } else {
      HoldsSame(writable, ops, op, TARGETS);
    }
  }

  lemma RegularsNext(regular: map<Path, nat>, ops: seq<Op>, op: Op)
    requires Holds(regular, ops, REGULARS) && forall other <- ops :: !Conflict(other, op)
    ensures Holds(if op.RegularFile? then regular[op.path := op.inode] else regular, ops + [op], REGULARS)
  {
    hide Holds;
    if op.RegularFile? {
      HoldsAdd(regular, ops, op.path, op.inode, REGULARS);
    } else {
      HoldsSame(regular, ops, op, REGULARS);
    }
  }

  lemma LegacyNext(files: map<Path, Seal>, ops: seq<Op>, op: Op)
    requires Holds(files, ops, LEGACY_SEALS) && forall other <- ops :: !Conflict(other, op)
    ensures Holds(if op.SealLegacy? then files[op.path := op.seal] else files, ops + [op], LEGACY_SEALS)
  {
    hide Holds;
    if op.SealLegacy? {
      HoldsAdd(files, ops, op.path, op.seal, LEGACY_SEALS);
    } else {
      HoldsSame(files, ops, op, LEGACY_SEALS);
    }
  }

  lemma FilesNext(files2: map<Path, Seal>, ops: seq<Op>, op: Op)
    requires Holds(files2, ops, FILE_SEALS) && forall other <- ops :: !Conflict(other, op)
    ensures Holds(if op.SealFile? then files2[op.path := op.seal] else files2, ops + [op], FILE_SEALS)
  {
    hide Holds;
    if op.SealFile? {
      HoldsAdd(files2, ops, op.path, op.seal, FILE_SEALS);
    } else {
      HoldsSame(files2, ops, op, FILE_SEALS);
    }
  }

  /** A registry refuses an effect exactly when some earlier effect clashes with it. */
  lemma StepIsClash(valid: Path -> bool, s: State, ops: seq<Op>, op: Op)
    requires Describes(s, ops)
    ensures Step(valid, s, op).Some? <==>
      && Admissible(valid, op) && (forall other <- ops :: !Clash(other, op))
      && (op.Entry? ==> s.entries + 1 <= MAX_ENTRIES) && (op.AddChild? || op.AddVersion? ==> s.nested + 1 <= MAX_NESTED)
      && (op.AddBytes? ==> s.bytes + op.n <= MAX_INT64)
  {
    match op {
      case WriteTarget(path, inode) =>
        TargetClash(s.regular, ops, path, inode);
      case RegularFile(path, inode) =>
        RegularClash(s.writable, ops, path, inode);
      case Entry(path) =>
        if LowerPath(path) in s.seen {
          var p :| Entry(p) in ops && LowerPath(p) == LowerPath(path);
          assert Clash(Entry(p), op);
        }
      case _ =>
    }
  }

  lemma TargetClash(regular: map<Path, nat>, ops: seq<Op>, path: Path, inode: nat)
    requires Holds(regular, ops, REGULARS)
    ensures Aliased(regular, path, inode) <==> exists other <- ops :: Clash(other, WriteTarget(path, inode))
  {
    if Aliased(regular, path, inode) {
      var p :| p in regular && p != path && regular[p] == inode;
      assert REGULARS(p, inode) in ops;
      assert Clash(RegularFile(p, inode), WriteTarget(path, inode));
    }
    forall other <- ops | Clash(other, WriteTarget(path, inode))
      ensures Aliased(regular, path, inode)
    {
      assert REGULARS(other.path, other.inode) in ops;
    }
  }

  lemma RegularClash(writable: map<Path, nat>, ops: seq<Op>, path: Path, inode: nat)
    requires Holds(writable, ops, TARGETS)
    ensures Aliased(writable, path, inode) <==> exists other <- ops :: Clash(other, RegularFile(path, inode))
  {
    if Aliased(writable, path, inode) {
      var p :| p in writable && p != path && writable[p] == inode;
      assert TARGETS(p, inode) in ops;
      assert Clash(WriteTarget(p, inode), RegularFile(path, inode));
    }
    forall other <- ops | Clash(other, RegularFile(path, inode))
      ensures Aliased(writable, path, inode)
    {
      assert TARGETS(other.path, other.inode) in ops;
    }
  }

  lemma AcceptableNext(valid: Path -> bool, ops: seq<Op>, op: Op)
    requires Acceptable(valid, ops)
    ensures Acceptable(valid, ops + [op]) <==>
      && Admissible(valid, op) && (forall other <- ops :: !Clash(other, op))
      && (op.Entry? ==> Sum(EntryWeight, ops) + 1 <= MAX_ENTRIES)
        && (op.AddChild? || op.AddVersion? ==> Sum(ChildWeight, ops) + 1 <= MAX_NESTED)
      && (op.AddBytes? ==> Sum(ByteWeight, ops) + op.n <= MAX_INT64)
  {
    SumAppend(EntryWeight, ops, op);
    SumAppend(ChildWeight, ops, op);
    SumAppend(ByteWeight, ops, op);
    hide Clash, Admissible;
    var longer := ops + [op];
    if forall other <- ops :: !Clash(other, op) {
      forall i, j | 0 <= i < j < |longer|
        ensures !Clash(longer[i], longer[j])
      {
        assert longer[i] in ops;
      }
    }
    if Acceptable(valid, longer) {
      assert longer[|ops|] == op;
      forall other <- ops
        ensures !Clash(other, op)
      {
        var i :| 0 <= i < |ops| && ops[i] == other;
        assert !Clash(longer[i], longer[|ops|]);
      }
    }
  }

  lemma AcceptablePrefix(valid: Path -> bool, ops: seq<Op>, op: Op)
    requires Acceptable(valid, ops + [op])
    ensures Acceptable(valid, ops)
  {
    SumAppend(EntryWeight, ops, op);
    SumAppend(ChildWeight, ops, op);
    SumAppend(ByteWeight, ops, op);
    var longer := ops + [op];
    assert forall i | 0 <= i < |ops| :: longer[i] == ops[i];
    assert longer[|ops|] == op && Admissible(valid, longer[|ops|]);
  }

  lemma ConsistentPrefix(ops: seq<Op>, op: Op)
    requires Consistent(ops + [op])
    ensures Consistent(ops)
  {
    var longer := ops + [op];
    assert forall i | 0 <= i < |ops| :: longer[i] == ops[i];
  }

  /** The incremental checks accept exactly what is acceptable, and note down exactly what was seen. */
  lemma {:induction false} RunIsAcceptable(valid: Path -> bool, ops: seq<Op>)
    requires Consistent(ops)
    ensures Run(valid, START, ops).Some? <==> Acceptable(valid, ops)
    ensures Run(valid, START, ops).Some? ==> Describes(Run(valid, START, ops).value, ops)
    decreases |ops|
  {
    if ops != [] {
      var front, op := ops[..|ops| - 1], ops[|ops| - 1];
      assert ops == front + [op];
      ConsistentPrefix(front, op);
      RunIsAcceptable(valid, front);
      var before := Run(valid, START, front);
      if before.Some? {
        StepIsClash(valid, before.value, front, op);
        AcceptableNext(valid, front, op);
        if Step(valid, before.value, op).Some? {
          DescribesNext(valid, before.value, front, op);
        }
      } else if Acceptable(valid, ops) {
        AcceptablePrefix(valid, front, op);
      }
    }
  }

  lemma SameOps(a: seq<Op>, b: seq<Op>)
    requires multiset(a) == multiset(b)
    ensures forall op :: op in a <==> op in b
  {
    assert forall op :: op in a <==> op in multiset(a);
    assert forall op :: op in b <==> op in multiset(b);
  }

  lemma ClashSymmetric(a: Op, b: Op)
    ensures Clash(a, b) == Clash(b, a) && Conflict(a, b) == Conflict(b, a)
  {
  }

  lemma AcceptableAnyOrder(valid: Path -> bool, a: seq<Op>, b: seq<Op>)
    requires multiset(a) == multiset(b) && Acceptable(valid, a)
    ensures Acceptable(valid, b)
  {
    SumAnyOrder(EntryWeight, a, b);
    SumAnyOrder(ChildWeight, a, b);
    SumAnyOrder(ByteWeight, a, b);
    SameOps(a, b);
    hide Clash, Admissible;
    forall i | 0 <= i < |b|
      ensures Admissible(valid, b[i])
    {
      assert b[i] in a;
    }
    forall i, j | 0 <= i < j < |b|
      ensures !Clash(b[i], b[j])
    {
      var m, n := TwoPlaces(b, a, i, j);
      ClashSymmetric(a[m], a[n]);
      assert m < n || n < m;
    }
  }

  lemma ConsistentAnyOrder(a: seq<Op>, b: seq<Op>)
    requires multiset(a) == multiset(b) && Consistent(a)
    ensures Consistent(b)
  {
    hide Conflict;
    forall i, j | 0 <= i < j < |b|
      ensures !Conflict(b[i], b[j])
    {
      var m, n := TwoPlaces(b, a, i, j);
      ClashSymmetric(a[m], a[n]);
      assert m < n || n < m;
    }
  }

  lemma HoldsOnce<X(!new)>(m: map<Path, X>, n: map<Path, X>, a: seq<Op>, b: seq<Op>, make: (Path, X) -> Op)
    requires Holds(m, a, make) && Holds(n, b, make) && forall op :: op in a <==> op in b
    ensures m == n
  {
    assert forall p | p in m :: make(p, m[p]) in b && p in n && n[p] == m[p];
    assert forall p | p in n :: make(p, n[p]) in a && p in m;
  }

  lemma SeenOnce(s: set<Path>, t: set<Path>, a: seq<Op>, b: seq<Op>)
    requires Seen(s, a) && Seen(t, b) && forall op :: op in a <==> op in b
    ensures s == t
  {
    assert forall p :: Entry(p) in a <==> Entry(p) in b;
  }

  /** The same effects in another order: the same verdict, and the same notes. */
  lemma RunAnyOrder(valid: Path -> bool, a: seq<Op>, b: seq<Op>)
    requires multiset(a) == multiset(b) && Consistent(a)
    ensures Run(valid, START, a) == Run(valid, START, b)
  {
    ConsistentAnyOrder(a, b);
    RunIsAcceptable(valid, a);
    RunIsAcceptable(valid, b);
    if Acceptable(valid, a) {
      AcceptableAnyOrder(valid, a, b);
      var s, t := Run(valid, START, a).value, Run(valid, START, b).value;
      SumAnyOrder(EntryWeight, a, b);
      SumAnyOrder(ChildWeight, a, b);
      SumAnyOrder(ByteWeight, a, b);
      SameOps(a, b);
      SeenOnce(s.seen, t.seen, a, b);
      HoldsOnce(s.writable, t.writable, a, b, TARGETS);
      HoldsOnce(s.regular, t.regular, a, b, REGULARS);
      HoldsOnce(s.files, t.files, a, b, LEGACY_SEALS);
      HoldsOnce(s.files2, t.files2, a, b, FILE_SEALS);
    } else if Acceptable(valid, b) {
      AcceptableAnyOrder(valid, b, a);
    }
  }
}
