/**
 * What a plan does, told by the bundle tree alone: every object has a fate that no order of planning
 * changes, and the fates decide which plan there is and which files it writes.
 */
module PlanMeaning {
  import opened ByteStrings
  import opened Sorting
  import opened Wrappers
  import opened SigningPlan
  import opened PlanLaws

  /** `Sound` code is what the object will hold; `Marred` ends as a metadata failure, `Fatal` as any other. */
  datatype Fate = Sound(code: Code) | Marred | Fatal

  /** Deep signing renews nested code that carries no complete signature, and by force all of it. */
  predicate Renewed(t: Toolkit, opts: Options, code: Code) {
    opts.deep && t.inspect(code).Some? && (opts.force || !t.inspect(code).value)
  }

  function FateOf(out: Option<Code>): Fate {
    if out.Some? then Sound(out.value) else Fatal
  }

  /** A helper is signed by force, without property list and envelope, under a name of its own. */
  function HelperFate(t: Toolkit, opts: Options, name: Name, code: Code): Fate {
    var identifier := if opts.identifier == [] then t.identifier(code, name, opts.adhoc) else Some(opts.identifier);
    if identifier.None? then Fatal
    else FateOf(t.sign(code, Request(opts.(identifier := identifier.value, force := true), [], None)))
  }

  /** An executable is signed over its bundle's property list and the envelope beside it. */
  function MainFate(t: Toolkit, b: Bundle, opts: Options, force: bool, envelope: Envelope): Fate {
    var identifier := if opts.identifier == [] then b.identifier else opts.identifier;
    FateOf(t.sign(b.code, Request(opts.(identifier := identifier, force := force), b.info, Some(envelope))))
  }

  /** Before it is sealed. */
  ghost function Made(t: Toolkit, b: Bundle, opts: Options, name: Name): Fate
    requires name in NestedNames(b)
    decreases b, 0
  {
    var original := OriginalCode(b.files2[name]);
    if opts.deep && t.inspect(original).None? then Fatal
    else if !Renewed(t, opts, original) then Sound(original)
    else if b.files2[name].Helper? then HelperFate(t, opts, name, original)
    else BundleFate(t, b.files2[name].bundle, opts, true)
  }

  /** The seal of a nested object is taken of what it will hold; in a dry run, of what it holds. */
  ghost function SealOfNested(t: Toolkit, b: Bundle, opts: Options, name: Name): Option<Seal>
    requires name in NestedNames(b)
    decreases b, 1
  {
    var made := Made(t, b, opts, name);
    if made.Sound? then t.seal(if opts.dryRun then OriginalCode(b.files2[name]) else made.code) else None
  }

  ghost function NestedFate(t: Toolkit, b: Bundle, opts: Options, name: Name): Fate
    requires name in NestedNames(b)
    decreases b, 2
  {
    if t.cancelled(b.id, name) then Fatal
    else if b.base + name in b.failedHelpers then Marred
    else
      var made := Made(t, b, opts, name);
      if made.Sound? && SealOfNested(t, b, opts, name).None? then Fatal else made
  }

  /** The envelope seals all nested code at once, and keeps every other entry. */
  ghost function SealedEnvelope(t: Toolkit, b: Bundle, opts: Options): Envelope
    decreases b, 3
  {
    Envelope(b.files, map n | n in b.files2 ::
      if IsNested(b.files2[n]) && SealOfNested(t, b, opts, n).Some? then Nested(SealOfNested(t, b, opts, n).value)
      else b.files2[n])
  }

  ghost predicate SomeNested(t: Toolkit, b: Bundle, opts: Options, marred: bool)
    decreases b, 3
  {
    exists n :: n in NestedNames(b)
      && if marred then NestedFate(t, b, opts, n).Marred? else NestedFate(t, b, opts, n).Fatal?
  }

  /** The fate of a bundle, outermost first: its inspection, its nested code, its metadata, itself. */
  ghost function BundleFate(t: Toolkit, b: Bundle, opts: Options, force: bool): Fate
    decreases b, 4
  {
    if b.preflightFailed then Marred
    else if SomeNested(t, b, opts, false) then Fatal
    else if b.signingFailed || SomeNested(t, b, opts, true) then Marred
    else if t.size(SealedEnvelope(t, b, opts)) > MAX_ENVELOPE then Fatal
    else MainFate(t, b, opts, force, SealedEnvelope(t, b, opts))
  }

  /** The writes of one nested object. */
  ghost predicate Serves(t: Toolkit, b: Bundle, opts: Options, name: Name, x: Write)
    requires name in NestedNames(b)
    decreases b, 5
  {
    && !t.cancelled(b.id, name) && b.base + name !in b.failedHelpers
    && Renewed(t, opts, OriginalCode(b.files2[name]))
    && match b.files2[name]
       case App(child) => Planned(t, child, opts, true, x)
       case Helper(code) =>
         HelperFate(t, opts, name, code).Sound?
         && x == Write(b, b.base + name, MachO(HelperFate(t, opts, name, code).code))
  }

  /** The writes of a bundle: those of its nested code and, if it can be signed itself, its own two. */
  ghost predicate Planned(t: Toolkit, b: Bundle, opts: Options, force: bool, x: Write)
    decreases b, 6
  {
    var fate := BundleFate(t, b, opts, force);
    || (!b.preflightFailed && exists n :: n in NestedNames(b) && Serves(t, b, opts, n, x))
    || (fate.Sound? && x == Write(b, b.resources, ResourceFile(SealedEnvelope(t, b, opts))))
    || (fate.Sound? && x == Write(b, b.executable, MachO(fate.code)))
  }

  /** What the fatal object `name` leaves to a dry run: its own writes if only its seal is missing. */
  ghost predicate OfFatal(t: Toolkit, b: Bundle, opts: Options, name: Name, x: Write)
    requires name in NestedNames(b)
    decreases b, 6
  {
    if Made(t, b, opts, name).Sound? then
      Serves(t, b, opts, name, x)
    else
      && b.files2[name].App? && Renewed(t, opts, b.files2[name].bundle.code)
      && Retained(t, b.files2[name].bundle, opts, x)
  }

  /** A dry run keeps what it has reached when a seal is missing, here or in a child that keeps something. */
  ghost predicate Retains(t: Toolkit, b: Bundle, opts: Options, name: Name)
    requires name in NestedNames(b)
    decreases b, 7
  {
    && !t.cancelled(b.id, name)
    && (|| Made(t, b, opts, name).Sound?
        || (b.files2[name].App? && Renewed(t, opts, b.files2[name].bundle.code)
            && RetainsAny(t, b.files2[name].bundle, opts)))
  }

  ghost predicate RetainsAny(t: Toolkit, b: Bundle, opts: Options)
    decreases b, 9
  {
    exists x :: Retained(t, b, opts, x)
  }

  ghost predicate FirstFatal(t: Toolkit, b: Bundle, opts: Options, name: Name)
    requires name in NestedNames(b)
    decreases b, 3
  {
    && NestedFate(t, b, opts, name).Fatal?
    && forall k | k in NestedNames(b) && Less(k, name) :: !NestedFate(t, b, opts, k).Fatal?
  }

  ghost predicate KeptAt(t: Toolkit, b: Bundle, opts: Options, name: Name, x: Write)
    requires name in NestedNames(b)
    decreases b, 7
  {
    OfFatal(t, b, opts, name, x) || exists k :: k in NestedNames(b) && Less(k, name) && Serves(t, b, opts, k, x)
  }

  /** The writes of a dry run that fails: those of the names before the first fatal one, and what that leaves. */
  ghost predicate Retained(t: Toolkit, b: Bundle, opts: Options, x: Write)
    decreases b, 8
  {
    && opts.dryRun && !b.preflightFailed
    && exists h ::
      h in NestedNames(b) && FirstFatal(t, b, opts, h) && Retains(t, b, opts, h) && KeptAt(t, b, opts, h, x)
  }

  /** The plan agrees with the fate of its bundle. */
  ghost predicate Fits(t: Toolkit, b: Bundle, opts: Options, force: bool, plan: Plan) {
    && (plan.Signed? ==> BundleFate(t, b, opts, force) == Sound(plan.out))
    && (plan.MetadataFailed? <==> BundleFate(t, b, opts, force).Marred?)
    && (plan.Failed? <==> BundleFate(t, b, opts, force).Fatal?)
    && (forall x :: x in plan.writes <==>
      if plan.Failed? then Retained(t, b, opts, x) else Planned(t, b, opts, force, x))
  }

  ghost predicate SomeSoFar(t: Toolkit, b: Bundle, opts: Options, names: seq<Name>, n: nat, marred: bool)
    requires n <= |names| && AllNested(b, names)
  {
    exists k: nat :: k < n
      && if marred then NestedFate(t, b, opts, names[k]).Marred? else NestedFate(t, b, opts, names[k]).Fatal?
  }

  ghost predicate ServedSoFar(t: Toolkit, b: Bundle, opts: Options, names: seq<Name>, n: nat, x: Write)
    requires n <= |names| && AllNested(b, names)
  {
    exists k: nat :: k < n && Serves(t, b, opts, names[k], x)
  }

  ghost predicate SealsSoFar(t: Toolkit, b: Bundle, opts: Options, names: seq<Name>, n: nat, files2: map<Name, Entry>)
    requires n <= |names| && AllNested(b, names)
  {
    && files2.Keys == b.files2.Keys
    && (forall m | m in b.files2 && m !in names[..n] :: files2[m] == b.files2[m])
    && forall k: nat | k < n && NestedFate(t, b, opts, names[k]).Sound? ::
      SealOfNested(t, b, opts, names[k]).Some?
      && files2[names[k]] == Nested(SealOfNested(t, b, opts, names[k]).value)
  }

  ghost predicate HaltsAt(t: Toolkit, b: Bundle, opts: Options, names: seq<Name>, h: nat, writes: seq<Write>)
    requires h < |names| && AllNested(b, names)
  {
    && NestedFate(t, b, opts, names[h]).Fatal? && !SomeSoFar(t, b, opts, names, h, false)
    && (forall x | x in writes :: ServedSoFar(t, b, opts, names, h, x) || OfFatal(t, b, opts, names[h], x))
    && (writes != [] ==> opts.dryRun && Retains(t, b, opts, names[h]))
    && (opts.dryRun && Retains(t, b, opts, names[h]) ==>
          forall x | ServedSoFar(t, b, opts, names, h, x) || OfFatal(t, b, opts, names[h], x) :: x in writes)
  }

  ghost predicate FitsSoFar(t: Toolkit, b: Bundle, opts: Options, names: seq<Name>, n: nat, st: NestedState)
    requires n <= |names| && AllNested(b, names)
  {
    match st
    case Going(writes, files2, metadata) =>
      && !SomeSoFar(t, b, opts, names, n, false)
      && (metadata <==> SomeSoFar(t, b, opts, names, n, true)) && SealsSoFar(t, b, opts, names, n, files2)
      && forall x :: x in writes <==> ServedSoFar(t, b, opts, names, n, x)
    case Halted(writes) =>
      exists h: nat :: h < n && HaltsAt(t, b, opts, names, h, writes)
  }

  /** What one name adds. */
  ghost predicate StepFits(t: Toolkit, b: Bundle, opts: Options, name: Name, st: NestedState, next: NestedState)
    requires name in NestedNames(b) && st.Going?
  {
    var fate := NestedFate(t, b, opts, name);
    match next
    case Going(writes, files2, metadata) =>
      && !fate.Fatal? && (metadata <==> st.metadata || fate.Marred?)
      && (fate.Sound? ==> SealOfNested(t, b, opts, name).Some?)
      && files2 == (if fate.Sound? then st.files2[name := Nested(SealOfNested(t, b, opts, name).value)] else st.files2)
      && forall x :: x in writes <==> x in st.writes || Serves(t, b, opts, name, x)
    case Halted(writes) =>
      && fate.Fatal?
      && (forall x | x in writes :: x in st.writes || OfFatal(t, b, opts, name, x))
      && (writes != [] ==> opts.dryRun && Retains(t, b, opts, name))
      && (opts.dryRun && Retains(t, b, opts, name) ==>
            forall x | x in st.writes || OfFatal(t, b, opts, name, x) :: x in writes)
  }

  lemma HelperRetains(t: Toolkit, b: Bundle, opts: Options, name: Name)
    requires name in NestedNames(b) && b.files2[name].Helper?
    ensures forall x :: OfFatal(t, b, opts, name, x) <==> Made(t, b, opts, name).Sound? && Serves(t, b, opts, name, x)
    ensures Retains(t, b, opts, name) <==> !t.cancelled(b.id, name) && Made(t, b, opts, name).Sound?
  {
    hide Serves;
  }

  lemma HelperStep(t: Toolkit, b: Bundle, opts: Options, name: Name, st: NestedState)
    requires name in NestedNames(b) && st.Going? && b.files2[name].Helper?
    ensures StepFits(t, b, opts, name, st, StepName(t, b, opts, st, name))
  {
    HelperRetains(t, b, opts, name);
    hide BundleFate, Planned, PlanBundle, Retains, OfFatal;
    var made, seal, next := Made(t, b, opts, name), SealOfNested(t, b, opts, name), StepName(t, b, opts, st, name);
    assert next.Halted? <==> NestedFate(t, b, opts, name).Fatal?;
  }

  lemma AppRetains(t: Toolkit, b: Bundle, opts: Options, name: Name)
    requires name in NestedNames(b) && b.files2[name].App?
    ensures var child, made := b.files2[name].bundle, Made(t, b, opts, name);
      && (forall x :: OfFatal(t, b, opts, name, x) <==>
        if made.Sound? then Serves(t, b, opts, name, x)
        else Renewed(t, opts, child.code) && Retained(t, child, opts, x))
      && (Retains(t, b, opts, name) <==>
        !t.cancelled(b.id, name) && (made.Sound? || (Renewed(t, opts, child.code) && RetainsAny(t, child, opts))))
  {
    hide Serves, Retained;
  }

  lemma AppStep(t: Toolkit, b: Bundle, opts: Options, name: Name, st: NestedState)
    requires name in NestedNames(b) && st.Going? && b.files2[name].App?
    requires Fits(t, b.files2[name].bundle, opts, true, PlanBundle(t, b.files2[name].bundle, opts, true))
    ensures StepFits(t, b, opts, name, st, StepName(t, b, opts, st, name))
  {
    hide BundleFate, Planned, PlanBundle, Retained, Retains, OfFatal;
    AppRetains(t, b, opts, name);
    var child := b.files2[name].bundle;
    var made, seal, next := Made(t, b, opts, name), SealOfNested(t, b, opts, name), StepName(t, b, opts, st, name);
    var plan := PlanBundle(t, child, opts, true);
    assert plan.Failed? ==> (plan.writes != [] <==> RetainsAny(t, child, opts)) by {
      assert plan.writes != [] ==> plan.writes[0] in plan.writes;
    }
    hide Fits, RetainsAny;
  }

  lemma StepExtends(t: Toolkit, b: Bundle, opts: Options, names: seq<Name>, n: nat, st: NestedState, next: NestedState)
    requires n < |names| && AllNested(b, names) && Distinct(names)
    requires st.Going? && FitsSoFar(t, b, opts, names, n, st) && StepFits(t, b, opts, names[n], st, next)
    ensures FitsSoFar(t, b, opts, names, n + 1, next)
  {
    hide Serves, NestedFate, SealOfNested, Retains, OfFatal;
    if next.Halted? {
      assert HaltsAt(t, b, opts, names, n, next.writes);
    } else {
      SealsExtend(t, b, opts, names, n, st.files2, next.files2);
      hide SealsSoFar;
      forall marred
        ensures SomeSoFar(t, b, opts, names, n + 1, marred) ==
          (SomeSoFar(t, b, opts, names, n, marred)
            || if marred then NestedFate(t, b, opts, names[n]).Marred? else NestedFate(t, b, opts, names[n]).Fatal?)
      {
      }
      forall x
        ensures ServedSoFar(t, b, opts, names, n + 1, x)
          <==> ServedSoFar(t, b, opts, names, n, x) || Serves(t, b, opts, names[n], x)
      {
      }
    }
  }

  lemma SealsExtend(t: Toolkit, b: Bundle, opts: Options, names: seq<Name>, n: nat, files2: map<Name, Entry>,
                    next: map<Name, Entry>)
    requires n < |names| && AllNested(b, names) && Distinct(names) && SealsSoFar(t, b, opts, names, n, files2)
    requires var name := names[n];
      if NestedFate(t, b, opts, name).Sound? then
        SealOfNested(t, b, opts, name).Some? && next == files2[name := Nested(SealOfNested(t, b, opts, name).value)]
      else
        next == files2
    ensures SealsSoFar(t, b, opts, names, n + 1, next)
  {
    hide NestedFate, SealOfNested;
    assert names[..n + 1] == names[..n] + [names[n]];
  }

  lemma {:induction false} NestedFits(t: Toolkit, b: Bundle, opts: Options, names: seq<Name>, n: nat)
    requires n <= |names| && AllNested(b, names) && Distinct(names)
    ensures FitsSoFar(t, b, opts, names, n, PlanNested(t, b, opts, names, n))
    decreases b, 0, n
  {
    hide StepName, StepFits, FitsSoFar, Fits, Serves, PlanBundle, Distinct;
    if n == 0 {
      NothingFits(t, b, opts, names);
    } else {
      NestedFits(t, b, opts, names, n - 1);
      var st, name := PlanNested(t, b, opts, names, n - 1), names[n - 1];
      NameAt(b, names, n - 1);
      if st.Going? {
        if b.files2[name].App? {
          PlanFits(t, b.files2[name].bundle, opts, true);
          AppStep(t, b, opts, name, st);
        } else {
          HelperStep(t, b, opts, name, st);
        }
        StepExtends(t, b, opts, names, n - 1, st, StepName(t, b, opts, st, name));
      } else {
        HaltedStays(t, b, opts, names, n - 1, n);
        HaltedFits(t, b, opts, names, n - 1, st);
      }
    }
  }

  lemma NothingFits(t: Toolkit, b: Bundle, opts: Options, names: seq<Name>)
    requires AllNested(b, names)
    ensures FitsSoFar(t, b, opts, names, 0, Going([], b.files2, false))
  {
    hide Serves, NestedFate, SealOfNested;
  }

  lemma HaltedFits(t: Toolkit, b: Bundle, opts: Options, names: seq<Name>, n: nat, st: NestedState)
    requires n < |names| && AllNested(b, names) && st.Halted? && FitsSoFar(t, b, opts, names, n, st)
    ensures FitsSoFar(t, b, opts, names, n + 1, st)
  {
    hide HaltsAt;
  }

  lemma AllNames(t: Toolkit, b: Bundle, opts: Options, names: seq<Name>)
    requires AllNested(b, names) && forall n :: n in NestedNames(b) ==> n in names
    ensures forall marred :: SomeSoFar(t, b, opts, names, |names|, marred) == SomeNested(t, b, opts, marred)
    ensures forall x ::
      ServedSoFar(t, b, opts, names, |names|, x) == exists n :: n in NestedNames(b) && Serves(t, b, opts, n, x)
  {
    hide NestedFate, Serves;
    forall marred
      ensures SomeSoFar(t, b, opts, names, |names|, marred) == SomeNested(t, b, opts, marred)
    {
      if SomeNested(t, b, opts, marred) {
        var n :| n in NestedNames(b)
          && if marred then NestedFate(t, b, opts, n).Marred? else NestedFate(t, b, opts, n).Fatal?;
        var k: nat :| k < |names| && names[k] == n;
      }
    }
    forall x | exists n :: n in NestedNames(b) && Serves(t, b, opts, n, x)
      ensures ServedSoFar(t, b, opts, names, |names|, x)
    {
      var n :| n in NestedNames(b) && Serves(t, b, opts, n, x);
      var k: nat :| k < |names| && names[k] == n;
    }
  }

  lemma AllSealed(t: Toolkit, b: Bundle, opts: Options, names: seq<Name>, files2: map<Name, Entry>)
    requires AllNested(b, names) && forall n :: n in NestedNames(b) ==> n in names
    requires SealsSoFar(t, b, opts, names, |names|, files2)
    requires !SomeNested(t, b, opts, false) && !SomeNested(t, b, opts, true)
    ensures Envelope(b.files, files2) == SealedEnvelope(t, b, opts)
  {
    hide NestedFate, SealOfNested;
    assert names[..|names|] == names;
    forall n | n in b.files2
      ensures files2[n] == SealedEnvelope(t, b, opts).files2[n]
    {
      if n in NestedNames(b) {
        var k: nat :| k < |names| && names[k] == n;
        assert !NestedFate(t, b, opts, n).Marred? && !NestedFate(t, b, opts, n).Fatal?;
      }
    }
  }

  /** The position in the sorted list is the place in the order of names. */
  lemma NamesInOrder(b: Bundle, i: nat, j: nat)
    requires i < |SortedNames(b)| && j < |SortedNames(b)|
    ensures Less(SortedNames(b)[i], SortedNames(b)[j]) <==> i < j
  {
    var names := SortedNames(b);
    AtMostIsTotalOrder();
    SortIsSorted(AtMost, SetToSeq(NestedNames(b)));
    assert i < j ==> AtMost(names[i], names[j]);
    assert j < i ==> AtMost(names[j], names[i]);
    LessTotal(names[i], names[j]);
    LessIrreflexive(names[i]);
  }

  lemma FirstIsFirst(t: Toolkit, b: Bundle, opts: Options, h: nat)
    requires h < |SortedNames(b)|
    ensures NestedFate(t, b, opts, SortedNames(b)[h]).Fatal? && !SomeSoFar(t, b, opts, SortedNames(b), h, false)
      <==> FirstFatal(t, b, opts, SortedNames(b)[h])
    ensures forall x :: ServedSoFar(t, b, opts, SortedNames(b), h, x) <==>
      exists k :: k in NestedNames(b) && Less(k, SortedNames(b)[h]) && Serves(t, b, opts, k, x)
  {
    hide NestedFate, Serves, SortedNames, NestedNames, Less;
    var names := SortedNames(b);
    NamesDistinct(NestedNames(b), names);
    forall k | k in NestedNames(b) && Less(k, names[h])
      ensures exists i: nat :: i < h && names[i] == k
    {
      var i: nat :| i < |names| && names[i] == k;
      NamesInOrder(b, i, h);
    }
    forall i: nat | i < h
      ensures names[i] in NestedNames(b) && Less(names[i], names[h])
    {
      NamesInOrder(b, i, h);
    }
  }

  lemma HaltedRetained(t: Toolkit, b: Bundle, opts: Options, h: nat, writes: seq<Write>)
    requires !b.preflightFailed && h < |SortedNames(b)| && HaltsAt(t, b, opts, SortedNames(b), h, writes)
    ensures SomeNested(t, b, opts, false) && forall x :: x in writes <==> Retained(t, b, opts, x)
  {
    hide NestedFate, Serves, SortedNames, Less, OfFatal, Retains;
    var names := SortedNames(b);
    FirstIsFirst(t, b, opts, h);
    NamesDistinct(NestedNames(b), names);
    forall g | g in NestedNames(b) && FirstFatal(t, b, opts, g)
      ensures g == names[h]
    {
      LessTotal(g, names[h]);
    }
    forall x
      ensures x in writes <==> Retained(t, b, opts, x)
    {
      assert ServedSoFar(t, b, opts, names, h, x) || OfFatal(t, b, opts, names[h], x)
        <==> KeptAt(t, b, opts, names[h], x);
    }
  }

  lemma NothingRetained(t: Toolkit, b: Bundle, opts: Options)
    requires !SomeNested(t, b, opts, false)
    ensures forall x :: !Retained(t, b, opts, x)
  {
    hide NestedFate, KeptAt, Retains;
  }

  /** Which plan a bundle has and exactly which files it writes, for trees, toolkits and options of any kind. */
  lemma {:induction false} PlanFits(t: Toolkit, b: Bundle, opts: Options, force: bool)
    ensures Fits(t, b, opts, force, PlanBundle(t, b, opts, force))
    decreases b, 1, 0
  {
    hide PlanNested, SomeNested, SomeSoFar, ServedSoFar, SealsSoFar, Serves, SealedEnvelope, SortedNames, HaltsAt,
      Retained, NestedNames;
    if !b.preflightFailed {
      var names := SortedNames(b);
      var st := PlanNested(t, b, opts, names, |names|);
      NestedFits(t, b, opts, names, |names|);
      NamesDistinct(NestedNames(b), names);
      AllNames(t, b, opts, names);
      if st.Halted? {
        var h: nat :| h < |names| && HaltsAt(t, b, opts, names, h, st.writes);
        HaltedRetained(t, b, opts, h, st.writes);
      } else {
        NothingRetained(t, b, opts);
        if !SomeNested(t, b, opts, true) {
          AllSealed(t, b, opts, names, st.files2);
        }
      }
    }
  }

  /** `force` governs the outermost executable; nested ones that are renewed are signed by force. */
  function ForceFor(top: nat, force: bool, d: Bundle): bool {
    d.id != top || force
  }

  /** What a write puts there: a sealed envelope, an executable signed over it, or a signed helper. */
  ghost predicate Requested(t: Toolkit, opts: Options, top: nat, force: bool, x: Write) {
    var d := x.bundle;
    match x.file
    case ResourceFile(envelope) => x.name == d.resources && envelope == SealedEnvelope(t, d, opts)
    case Damaged => false
    case MachO(code) =>
      if x.name == d.executable then
        MainFate(t, d, opts, ForceFor(top, force, d), SealedEnvelope(t, d, opts)) == Sound(code)
      else
        exists n :: n in d.files2 && x.name == d.base + n && HelperMade(t, opts, d, n, code)
  }

  ghost predicate HelperMade(t: Toolkit, opts: Options, d: Bundle, n: Name, code: Code)
    requires n in d.files2
  {
    && d.files2[n].Helper? && Renewed(t, opts, d.files2[n].code)
    && HelperFate(t, opts, n, d.files2[n].code) == Sound(code)
  }

  /** Every planned write is of that kind, for the bundle it belongs to. */
  lemma {:induction false} PlannedIsRequested(t: Toolkit, b: Bundle, opts: Options, force: bool, top: nat, x: Write)
    requires WellFormed(b) && Planned(t, b, opts, force, x) && (b.id == top || (force && top !in Ids(b)))
    ensures Requested(t, opts, top, force, x) && x.bundle.id in Ids(b)
    decreases b
  {
    hide Requested, Serves, SealedEnvelope, BundleFate;
    SelfId(b);
    OwnIsRequested(t, b, opts, force, top, x);
    if n :| n in NestedNames(b) && Serves(t, b, opts, n, x) {
      if b.files2[n].App? {
        var child := b.files2[n].bundle;
        ChildIds(b, n);
        ServedByChild(t, b, opts, n, x);
        PlannedIsRequested(t, child, opts, true, top, x);
        ForceBelow(t, opts, top, force, x);
      } else {
        HelperIsRequested(t, b, opts, force, top, n, x);
      }
    }
  }

  lemma ServedByChild(t: Toolkit, b: Bundle, opts: Options, n: Name, x: Write)
    requires n in NestedNames(b) && b.files2[n].App? && Serves(t, b, opts, n, x)
    ensures Planned(t, b.files2[n].bundle, opts, true, x)
  {
    hide Planned;
  }

  /** Below the outermost bundle, `force` makes no difference. */
  lemma ForceBelow(t: Toolkit, opts: Options, top: nat, force: bool, x: Write)
    requires Requested(t, opts, top, true, x) && (x.bundle.id != top || force)
    ensures Requested(t, opts, top, force, x)
  {
    hide SealedEnvelope, MainFate, HelperMade;
  }

  lemma OwnIsRequested(t: Toolkit, b: Bundle, opts: Options, force: bool, top: nat, x: Write)
    requires WellFormed(b) && (b.id == top || force)
    ensures BundleFate(t, b, opts, force).Sound? ==>
      && Requested(t, opts, top, force, Write(b, b.resources, ResourceFile(SealedEnvelope(t, b, opts))))
      && Requested(t, opts, top, force, Write(b, b.executable, MachO(BundleFate(t, b, opts, force).code)))
  {
    hide SealedEnvelope, MainFate, SomeNested, HelperMade, WellFormed;
  }

  lemma HelperIsRequested(t: Toolkit, b: Bundle, opts: Options, force: bool, top: nat, n: Name, x: Write)
    requires WellFormed(b) && n in NestedNames(b) && b.files2[n].Helper? && Serves(t, b, opts, n, x)
    ensures Requested(t, opts, top, force, x) && x.bundle == b
  {
    hide SealedEnvelope, MainFate, HelperFate, Planned;
    assert x.name != b.executable;
    assert HelperMade(t, opts, b, n, x.file.code);
  }

  /** What a failing dry run keeps belongs to the plan it would have made. */
  lemma {:induction false} RetainedIsPlanned(t: Toolkit, b: Bundle, opts: Options, force: bool, x: Write)
    requires Retained(t, b, opts, x)
    ensures Planned(t, b, opts, force, x)
    decreases b
  {
    hide BundleFate;
    var h :| h in NestedNames(b) && FirstFatal(t, b, opts, h) && Retains(t, b, opts, h) && KeptAt(t, b, opts, h, x);
    if OfFatal(t, b, opts, h, x) && !Made(t, b, opts, h).Sound? {
      RetainedIsPlanned(t, b.files2[h].bundle, opts, true, x);
      assert NestedFate(t, b, opts, h).Fatal?;
    }
  }
}
