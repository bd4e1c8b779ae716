/**
 * The signing plan of a bundle tree: which files to write, children first, and the resource
 * envelope that seals every nested object by the bytes it will hold.
 *
 * Signing, sealing and Mach-O inspection are parameters, collected in a `Toolkit`.
 */
module SigningPlan {
  import opened ByteStrings
  import opened Sorting
  import opened Wrappers

  type Name = Bytes
  type Code = Bytes

  const MAX_ENVELOPE := 8388608

  datatype Seal = Seal(cdhash: Bytes, requirement: Bytes)

  /** A `files2` entry: a resource seal from the scan, or nested code waiting for its seal. */
  datatype Entry =
    | Resource(seal: Bytes)
    | Nested(nested: Seal)
    | Helper(code: Code)
    | App(bundle: Bundle)

  /** One scanned bundle. `id` stands for the pointer, which the executor uses as a map key. */
  datatype Bundle = Bundle(
    id: nat, base: Name, executable: Name, resources: Name, identifier: Name, info: Bytes,
    code: Code, files: map<Name, Bytes>, files2: map<Name, Entry>,
    preflightFailed: bool, signingFailed: bool, failedHelpers: set<Name>)

  datatype Envelope = Envelope(files: map<Name, Bytes>, files2: map<Name, Entry>)

  datatype Options = Options(deep: bool, force: bool, dryRun: bool, identifier: Name, adhoc: bool)

  datatype Request = Request(options: Options, info: Bytes, envelope: Option<Envelope>)

  datatype Toolkit = Toolkit(
    /** Whether every architecture carries a complete signature; None when inspection fails. */
    inspect: Code -> Option<bool>,
    identifier: (Code, Name, bool) -> Option<Name>,
    sign: (Code, Request) -> Option<Code>,
    seal: Code -> Option<Seal>,
    size: Envelope -> nat,
    hasSignature: Code -> bool,
    /** Whether the caller has cancelled by the time that nested name of that bundle is reached. */
    cancelled: (nat, Name) -> bool)

  datatype File = MachO(code: Code) | ResourceFile(envelope: Envelope) | Damaged

  /** A planned write. The payload decides its kind. */
  datatype Write = Write(bundle: Bundle, name: Name, file: File)

  type Target = (nat, Name)

  function TargetOf(w: Write): Target {
    (w.bundle.id, w.name)
  }

  predicate IsNested(e: Entry) {
    e.Helper? || e.App?
  }

  function OriginalCode(e: Entry): Code
    requires IsNested(e)
  {
    if e.Helper? then e.code else e.bundle.code
  }

  /** Where the code behind a nested entry lives. */
  function NestedTarget(b: Bundle, name: Name): Target
    requires name in b.files2 && IsNested(b.files2[name])
  {
    match b.files2[name]
    case Helper(_) => (b.id, b.base + name)
    case App(child) => (child.id, child.executable)
  }

  ghost function NestedNames(b: Bundle): set<Name> {
    set n | n in b.files2 && IsNested(b.files2[n])
  }

  ghost predicate AllNested(b: Bundle, names: seq<Name>) {
    forall k :: 0 <= k < |names| ==> names[k] in NestedNames(b)
  }

  ghost function SetToSeq(s: set<Name>): (r: seq<Name>)
    ensures multiset(r) == multiset(s)
  {
    if s == {} then [] else
    var x :| x in s;
    assert s == (s - {x}) + {x};
    [x] + SetToSeq(s - {x})
  }

  ghost function SortedNames(b: Bundle): (r: seq<Name>)
    ensures multiset(r) == multiset(NestedNames(b))
    ensures AllNested(b, r) && Distinct(r)
  {
    var r := Sort(AtMost, SetToSeq(NestedNames(b)));
    NamesDistinct(NestedNames(b), r);
    r
  }

  /** The loop over nested names: still going, or stopped by an error other than a metadata one. */
  datatype NestedState =
    | Going(writes: seq<Write>, files2: map<Name, Entry>, metadata: bool)
    | Halted(writes: seq<Write>)

  datatype Plan =
    | Signed(out: Code, writes: seq<Write>)
    | MetadataFailed(writes: seq<Write>)
    | Failed(writes: seq<Write>)

  function MainWrites(b: Bundle, envelope: Envelope, out: Code): seq<Write> {
    [Write(b, b.resources, ResourceFile(envelope)), Write(b, b.executable, MachO(out))]
  }

  /** Seals the nested code at `name`; a dry run seals the bytes already on disk. */
  function SealName(t: Toolkit, opts: Options, st: NestedState, name: Name, original: Code, data: Code,
                    staged: seq<Write>): NestedState
    requires st.Going?
  {
    match t.seal(if opts.dryRun then original else data)
    case Some(seal) => Going(st.writes + staged, st.files2[name := Nested(seal)], st.metadata)
    case None => Halted(if opts.dryRun then st.writes + staged else [])
  }

  function SignHelper(t: Toolkit, b: Bundle, opts: Options, name: Name, code: Code): Option<Code> {
    var identifier := if opts.identifier != [] then Some(opts.identifier) else t.identifier(code, name, opts.adhoc);
    match identifier
    case None => None
    case Some(id) => t.sign(code, Request(opts.(identifier := id, force := true), [], None))
  }

  ghost function StepName(t: Toolkit, b: Bundle, opts: Options, st: NestedState, name: Name): NestedState
    requires name in NestedNames(b)
    decreases b, 0, 0
  {
    if st.Halted? then
      st
    else if t.cancelled(b.id, name) then
      Halted([])
    else if b.base + name in b.failedHelpers then
      st.(metadata := true)
    else
      var original := OriginalCode(b.files2[name]);
      if !opts.deep then
        SealName(t, opts, st, name, original, original, [])
      else
        match t.inspect(original)
        case None => Halted([])
        case Some(signed) =>
          if signed && !opts.force then
            SealName(t, opts, st, name, original, original, [])
          else
            match b.files2[name] {
              case Helper(code) =>
                match SignHelper(t, b, opts, name, code) {
                  case None => Halted([])
                  case Some(out) => SealName(t, opts, st, name, original, out, [Write(b, b.base + name, MachO(out))])
                }
              case App(child) =>
                match PlanBundle(t, child, opts, true) {
                  case MetadataFailed(staged) => Going(st.writes + staged, st.files2, true)
                  case Failed(staged) => Halted(if !opts.dryRun || staged == [] then [] else st.writes + staged)
                  case Signed(out, staged) => SealName(t, opts, st, name, original, out, staged)
                }
            }
  }

  ghost function PlanNested(t: Toolkit, b: Bundle, opts: Options, names: seq<Name>, n: nat): NestedState
    requires n <= |names| && AllNested(b, names)
    decreases b, 1, n
  {
    if n == 0 then
      Going([], b.files2, false)
    else
      StepName(t, b, opts, PlanNested(t, b, opts, names, n - 1), names[n - 1])
  }

  ghost function PlanBundle(t: Toolkit, b: Bundle, opts: Options, forceMain: bool): Plan
    decreases b, 2, 0
  {
    if b.preflightFailed then
      MetadataFailed([])
    else
      var names := SortedNames(b);
      match PlanNested(t, b, opts, names, |names|)
      case Halted(writes) => Failed(writes)
      case Going(writes, files2, metadata) =>
        if metadata || b.signingFailed then
          MetadataFailed(writes)
        else
          var envelope := Envelope(b.files, files2);
          if t.size(envelope) > MAX_ENVELOPE then
            Failed([])
          else
            match SignMain(t, b, opts, forceMain, envelope)
            case None => Failed([])
            case Some(out) => Signed(out, writes + MainWrites(b, envelope, out))
  }

  function SignMain(t: Toolkit, b: Bundle, opts: Options, forceMain: bool, envelope: Envelope): Option<Code> {
    var identifier := if opts.identifier == [] then b.identifier else opts.identifier;
    t.sign(b.code, Request(opts.(identifier := identifier, force := forceMain), b.info, Some(envelope)))
  }

  method CollectNames(b: Bundle) returns (names: seq<Name>)
    ensures names == SortedNames(b)
  {
    names := [];
    var left := set n | n in b.files2 && IsNested(b.files2[n]);
    while left != {}
      invariant left <= NestedNames(b)
      invariant multiset(names) + multiset(left) == multiset(NestedNames(b))
    {
      var n :| n in left;
      assert left == (left - {n}) + {n};
      names, left := names + [n], left - {n};
    }
    SortedNamesUnique(b, names);
    names := Sort(AtMost, names);
  }

  /** Plans the nested code of one bundle; `st.files2` is its `files2` map, rewritten entry by entry. */
  method PrepareNested(t: Toolkit, b: Bundle, opts: Options) returns (st: NestedState)
    ensures st == PlanNested(t, b, opts, SortedNames(b), |SortedNames(b)|)
    decreases b, 1
  {
    hide StepName, SortedNames, Pending, OnlyChanged, Distinct;
    var names := CollectNames(b);
    NamesDistinct(NestedNames(b), names);
    AllPending(b, names);
    st := Going([], b.files2, false);
    var i := 0;
    while i < |names| && st.Going?
      invariant i <= |names|
      invariant st == PlanNested(t, b, opts, names, i)
      invariant st.Going? ==> Pending(b, names, i, st.files2)
    {
      PendingAt(b, names, i, st.files2);
      var next := PrepareName(t, b, opts, st, names[i]);
      if next.Going? {
        PendingStep(b, names, i, st.files2, next.files2);
      }
      st, i := next, i + 1;
    }
    if st.Halted? {
      HaltedStays(t, b, opts, names, i, |names|);
    }
  }

  /** Entries not reached yet still hold what the scan put there. */
  ghost predicate Pending(b: Bundle, names: seq<Name>, i: nat, files2: map<Name, Entry>) {
    forall k :: i <= k < |names| ==>
      names[k] in b.files2 && names[k] in files2 && files2[names[k]] == b.files2[names[k]]
  }

  ghost predicate OnlyChanged(name: Name, before: map<Name, Entry>, after: map<Name, Entry>) {
    && after.Keys == before.Keys
    && forall k | k in before && k != name :: after[k] == before[k]
  }

  lemma AllPending(b: Bundle, names: seq<Name>)
    requires AllNested(b, names)
    ensures Pending(b, names, 0, b.files2)
  {
  }

  lemma PendingAt(b: Bundle, names: seq<Name>, i: nat, files2: map<Name, Entry>)
    requires i < |names| && Pending(b, names, i, files2)
    ensures names[i] in files2 && names[i] in b.files2 && files2[names[i]] == b.files2[names[i]]
  {
  }

  lemma PendingStep(b: Bundle, names: seq<Name>, i: nat, before: map<Name, Entry>, after: map<Name, Entry>)
    requires i < |names| && Distinct(names) && Pending(b, names, i, before)
    requires OnlyChanged(names[i], before, after)
    ensures Pending(b, names, i + 1, after)
  {
  }

  method PrepareName(t: Toolkit, b: Bundle, opts: Options, st: NestedState, name: Name) returns (next: NestedState)
    requires name in NestedNames(b)
    requires st.Going? && name in st.files2 && st.files2[name] == b.files2[name]
    ensures next == StepName(t, b, opts, st, name)
    ensures next.Going? ==> OnlyChanged(name, st.files2, next.files2)
    decreases b, 0
  {
    if t.cancelled(b.id, name) {
      return Halted([]);
    }
    if b.base + name in b.failedHelpers {
      return st.(metadata := true);
    }
    var original := OriginalCode(st.files2[name]);
    var data, staged := original, [];
    if opts.deep {
      var signed := t.inspect(original);
      if signed.None? {
        return Halted([]);
      }
      if !signed.value || opts.force {
        match st.files2[name] {
          case Helper(code) =>
            var out := SignHelper(t, b, opts, name, code);
            if out.None? {
              return Halted([]);
            }
            data, staged := out.value, [Write(b, b.base + name, MachO(out.value))];
          case App(child) =>
            var plan := PlanSignature(t, child, opts, true);
            if plan.MetadataFailed? {
              return Going(st.writes + plan.writes, st.files2, true);
            }
            if plan.Failed? {
              return Halted(if !opts.dryRun || plan.writes == [] then [] else st.writes + plan.writes);
            }
            data, staged := plan.out, plan.writes;
        }
      }
    }
    next := SealName(t, opts, st, name, original, data, staged);
  }

  /** Plans one bundle and everything nested in it. Nothing is written yet. */
  method PlanSignature(t: Toolkit, b: Bundle, opts: Options, forceMain: bool) returns (plan: Plan)
    ensures plan == PlanBundle(t, b, opts, forceMain)
    decreases b, 2
  {
    if b.preflightFailed {
      return MetadataFailed([]);
    }
    var st := PrepareNested(t, b, opts);
    if st.Halted? {
      return Failed(st.writes);
    }
    if st.metadata || b.signingFailed {
      return MetadataFailed(st.writes);
    }
    var envelope := Envelope(b.files, st.files2);
    if t.size(envelope) > MAX_ENVELOPE {
      return Failed([]);
    }
    var out := SignMain(t, b, opts, forceMain, envelope);
    if out.None? {
      return Failed([]);
    }
    plan := Signed(out.value, st.writes + MainWrites(b, envelope, out.value));
  }

  /** Go's map iteration order does not matter: sorting the names always gives the same list. */
  lemma SortedNamesUnique(b: Bundle, names: seq<Name>)
    requires multiset(names) == multiset(NestedNames(b))
    ensures Sort(AtMost, names) == SortedNames(b)
  {
    AtMostIsTotalOrder();
    SortIsSorted(AtMost, names);
    SortIsSorted(AtMost, SetToSeq(NestedNames(b)));
    SortedUnique(AtMost, Sort(AtMost, names), SortedNames(b));
  }

  lemma NamesDistinct(s: set<Name>, names: seq<Name>)
    requires multiset(names) == multiset(s)
    ensures Distinct(names)
    ensures forall n <- names :: n in s
    ensures forall n :: n in s ==> n in names
  {
    forall n | n in names
      ensures n in s
    {
      assert n in multiset(names);
    }
    forall n | n in s
      ensures n in names
    {
      assert n in multiset(names);
    }
    CountsDistinct(names);
  }

  lemma HaltedStays(t: Toolkit, b: Bundle, opts: Options, names: seq<Name>, i: nat, n: nat)
    requires i <= n <= |names| && AllNested(b, names)
    requires PlanNested(t, b, opts, names, i).Halted?
    ensures PlanNested(t, b, opts, names, n) == PlanNested(t, b, opts, names, i)
  {
  }
}
