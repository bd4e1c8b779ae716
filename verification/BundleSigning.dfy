/** Signing a bundle tree from plan to disk, and what holds on disk wherever a run stops. */
module BundleSigning {
  import opened ByteStrings
  import opened Wrappers
  import opened SigningPlan
  import opened PlanLaws
  import opened BundleWriter
  import opened CommitLaws
  import opened ApplyLaws
  import opened PlanMeaning

  datatype Outcome = Finished | AlreadySigned | PlanError | Abandoned | WriteError

  /** Before signing, every nested object holds the code the scan read. */
  ghost predicate OnDisk(files: Files, b: Bundle) {
    && (forall d | d in Tree(b) :: (d.id, d.executable) in files)
    && (forall d, n | d in Tree(b) && n in NestedNames(d) ::
          NestedTarget(d, n) in files && files[NestedTarget(d, n)] == MachO(OriginalCode(d.files2[n])))
  }

  /** The nested object `n` of `b` holds exactly the code that the seal `e` was taken of. */
  ghost predicate SealMatches(t: Toolkit, files: Files, b: Bundle, n: Name, e: Entry)
    requires n in NestedNames(b)
  {
    && e.Nested? && NestedTarget(b, n) in files && files[NestedTarget(b, n)].MachO?
    && t.seal(files[NestedTarget(b, n)].code) == Some(e.nested)
  }

  /**
   * `b` is fully signed on disk: its executable is its own code, signed under the bundle's identifier over
   * its property list and the envelope that is on disk beside it, and that envelope seals every nested
   * object by the bytes it holds now.
   */
  ghost predicate SignedOnDisk(t: Toolkit, opts: Options, force: bool, files: Files, b: Bundle) {
    && (b.id, b.resources) in files && files[(b.id, b.resources)].ResourceFile?
    && (b.id, b.executable) in files && files[(b.id, b.executable)].MachO?
    && var envelope := files[(b.id, b.resources)].envelope;
    && var identifier := if opts.identifier == [] then b.identifier else opts.identifier;
    && t.sign(b.code, Request(opts.(identifier := identifier, force := force), b.info, Some(envelope)))
       == Some(files[(b.id, b.executable)].code)
    && envelope.files == b.files
    && envelope.files2.Keys == b.files2.Keys
    && forall n | n in b.files2 ::
      if IsNested(b.files2[n]) then SealMatches(t, files, b, n, envelope.files2[n])
        else envelope.files2[n] == b.files2[n]
  }

  ghost predicate Replaced(before: Files, after: Files, b: Bundle) {
    (b.id, b.executable) in before && !Kept(before, after, (b.id, b.executable))
  }

  /** Everything a plan writes is signed and sealed as the tree demands. */
  lemma PlanRequests(t: Toolkit, b: Bundle, opts: Options, force: bool)
    requires WellFormed(b)
    ensures var w := PlanBundle(t, b, opts, force).writes;
      forall i: nat | i < |w| :: Requested(t, opts, b.id, force, w[i])
  {
    PlanFits(t, b, opts, force);
    hide PlanBundle, Requested, Planned, Retained;
    var w := PlanBundle(t, b, opts, force).writes;
    forall i: nat | i < |w|
      ensures Requested(t, opts, b.id, force, w[i])
    {
      assert w[i] in w;
      if PlanBundle(t, b, opts, force).Failed? {
        RetainedIsPlanned(t, b, opts, force, w[i]);
      }
      PlannedIsRequested(t, b, opts, force, b.id, w[i]);
    }
  }

  lemma PlanIsArranged(t: Toolkit, b: Bundle, opts: Options, force: bool)
    requires WellFormed(b)
    ensures var w := PlanBundle(t, b, opts, force).writes;
      && Arranged(w) && Within(w, b)
      && (forall i: nat | i < |w| :: WriteOk(t, opts, w, i, Ids(b)))
      && (forall i: nat | i < |w| :: Requested(t, opts, b.id, force, w[i]))
  {
    PlanHolds(t, b, opts, force);
    PlanWithin(t, b, opts, force);
    PlanRequests(t, b, opts, force);
    hide PlanBundle, ChildFirst, EnvelopeAt, Requested;
    var w := PlanBundle(t, b, opts, force).writes;
    forall i: nat | i < |w| && !w[i].file.MachO?
      ensures MainOf(w, i + 1, w[i].bundle)
    {
      assert WriteOk(t, opts, w, i, Ids(b));
    }
    forall i: nat | i < |w| && IsMain(w[i])
      ensures ChildFirst(w, i)
    {
      assert WriteOk(t, opts, w, i, Ids(b));
    }
  }

  lemma SelfInTree(b: Bundle, d: Bundle)
    requires d in Tree(b)
    ensures Ids(d) <= Ids(b)
    ensures WellFormed(b) ==> WellFormed(d)
  {
    if d != b {
      var n :| n in b.files2 && b.files2[n].App? && d in Tree(b.files2[n].bundle);
      SelfInTree(b.files2[n].bundle, d);
      ChildIds(b, n);
    }
  }

  lemma IdsAreUnique(b: Bundle, c: Bundle, d: Bundle)
    requires WellFormed(b) && c in Tree(b) && d in Tree(b) && c.id == d.id
    ensures c == d
  {
    if c != b && d != b {
      var m :| m in b.files2 && b.files2[m].App? && c in Tree(b.files2[m].bundle);
      var n :| n in b.files2 && b.files2[n].App? && d in Tree(b.files2[n].bundle);
      SelfInTree(b.files2[m].bundle, c);
      SelfInTree(b.files2[n].bundle, d);
      assert m == n;
      IdsAreUnique(b.files2[n].bundle, c, d);
    } else if c != b {
      var m :| m in b.files2 && b.files2[m].App? && c in Tree(b.files2[m].bundle);
      SelfInTree(b.files2[m].bundle, c);
    } else if d != b {
      var n :| n in b.files2 && b.files2[n].App? && d in Tree(b.files2[n].bundle);
      SelfInTree(b.files2[n].bundle, d);
    }
  }

  /**
   * At every point of the commit phase, for every plan and every failure or cancellation: once a
   * main executable is replaced, every planned write below its bundle has been made.
   */
  lemma ReplacedTreeIsWritten(t: Toolkit, b: Bundle, opts: Options, force: bool, staging: seq<StageOutcome>,
                              commits: seq<CommitOutcome>, files: Files, k: nat, i: nat, j: nat)
    requires WellFormed(b)
    requires var w := PlanBundle(t, b, opts, force).writes;
      && k <= |w| == |staging| == |commits| && i in Left(w, staging, commits, files, k).landed
      && i < |w| && IsMain(w[i]) && Below(w, j, w[i].bundle)
    ensures var w := PlanBundle(t, b, opts, force).writes;
      j in Left(w, staging, commits, files, k).landed && j <= i
  {
    hide PlanBundle, ChildFirst;
    var w := PlanBundle(t, b, opts, force).writes;
    var st := Stage(w, staging, |w|).st;
    PlanIsArranged(t, b, opts, force);
    StageHolds(w, staging, |w|);
    CommitsInOrder(w, st, commits, files, k);
    TreeLanded(w, staging, st, Commit(w, st, commits, files, k), k, i, j);
  }

  /** All a run needs to be judged: a well-ordered plan, its staging, and `k` commit steps. */
  ghost predicate RunAt(t: Toolkit, opts: Options, force: bool, b: Bundle, w: seq<Write>, staging: seq<StageOutcome>,
                        st: StageState, before: Files, c: CommitState, k: nat)
  {
    && WellFormed(b) && !opts.dryRun && OnDisk(before, b)
    && Ordered(w) && DistinctTargets(w) && Within(w, b)
    && (forall i: nat | i < |w| :: WriteOk(t, opts, w, i, Ids(b)))
    && (forall i: nat | i < |w| :: Requested(t, opts, b.id, force, w[i]))
    && k <= |w| == |staging| && StageFacts(w, staging, |w|, st)
    && InOrder(w, st, c, k) && DiskFollows(w, before, c, k)
  }

  lemma NestedOnDisk(t: Toolkit, opts: Options, force: bool, b: Bundle, w: seq<Write>, staging: seq<StageOutcome>,
                     st: StageState, before: Files, c: CommitState, k: nat, i: nat, n: Name, e: Entry)
    requires RunAt(t, opts, force, b, w, staging, st, before, c, k)
    requires i in c.landed && i < |w| && IsMain(w[i]) && n in NestedNames(w[i].bundle)
    requires SealedAs(t, opts, w, w[i].bundle, n, e)
    ensures SealMatches(t, c.files, w[i].bundle, n, e)
  {
    hide ChildFirst, StageFacts, WriteOk, Requested;
    var d := w[i].bundle;
    var target, original := NestedTarget(d, n), OriginalCode(d.files2[n]);
    NestedTargetInside(d, n);
    var code :| t.seal(code) == Some(e.nested) && FinalCode(opts, w, target, original, code);
    if j :| 0 <= j < |w| && TargetOf(w[j]) == target && w[j].file == MachO(code) {
      assert Below(w, j, d);
      TreeLanded(w, staging, st, c, k, i, j);
    } else {
      assert before[target] == MachO(original);
      assert Kept(before, c.files, target);
    }
  }

  /** The envelope and the executable of a landed bundle are on disk as planned. */
  lemma MainOnDisk(t: Toolkit, opts: Options, force: bool, b: Bundle, w: seq<Write>, staging: seq<StageOutcome>,
                   st: StageState, before: Files, c: CommitState, k: nat, i: nat)
    requires RunAt(t, opts, force, b, w, staging, st, before, c, k)
    requires i in c.landed && i < |w| && IsMain(w[i])
    ensures i > 0 && IsEnvelope(w[i - 1]) && w[i - 1].bundle == w[i].bundle
    ensures Requested(t, opts, b.id, force, w[i]) && Requested(t, opts, b.id, force, w[i - 1])
    ensures EnvelopeAt(t, opts, w, w[i - 1])
    ensures TargetOf(w[i]) in c.files && c.files[TargetOf(w[i])] == w[i].file
    ensures TargetOf(w[i - 1]) in c.files && c.files[TargetOf(w[i - 1])] == w[i - 1].file
  {
    hide OnDisk, Within, DistinctTargets, StageFacts, EnvelopeAt, Requested;
    assert WriteOk(t, opts, w, i, Ids(b)) && WriteOk(t, opts, w, i - 1, Ids(b));
    SelfId(w[i].bundle);
    assert Below(w, i - 1, w[i].bundle);
    hide WriteOk, WellFormed, Ids;
    TreeLanded(w, staging, st, c, k, i, i - 1);
  }

  /** At every point: a replaced executable belongs to a bundle that is fully signed on disk. */
  lemma ReplacedIsSigned(t: Toolkit, opts: Options, force: bool, b: Bundle, w: seq<Write>, staging: seq<StageOutcome>,
                         st: StageState, before: Files, c: CommitState, k: nat, i: nat)
    requires RunAt(t, opts, force, b, w, staging, st, before, c, k)
    requires i in c.landed && i < |w| && IsMain(w[i])
    ensures SignedOnDisk(t, opts, ForceFor(b.id, force, w[i].bundle), c.files, w[i].bundle)
  {
    hide RunAt, SealMatches, SealedAs, SealedEnvelope;
    MainOnDisk(t, opts, force, b, w, staging, st, before, c, k, i);
    var d, envelope := w[i].bundle, w[i - 1].file.envelope;
    forall n | n in NestedNames(d)
      ensures SealMatches(t, c.files, d, n, envelope.files2[n])
    {
      NestedOnDisk(t, opts, force, b, w, staging, st, before, c, k, i, n, envelope.files2[n]);
    }
  }

  /** An executable that changed on disk was replaced by the commit phase. */
  lemma ChangedWasReplaced(t: Toolkit, opts: Options, force: bool, b: Bundle, w: seq<Write>,
                           staging: seq<StageOutcome>, st: StageState, before: Files, c: CommitState, k: nat, d: Bundle)
    returns (i: nat)
    requires RunAt(t, opts, force, b, w, staging, st, before, c, k)
    requires d in Tree(b) && Replaced(before, c.files, d)
    ensures i in c.landed && i < |w| && IsMain(w[i]) && w[i].bundle == d
  {
    hide ChildFirst, StageFacts, Ordered, Requested;
    var target := (d.id, d.executable);
    i :| 0 <= i < k && TargetOf(w[i]) == target;
    SelfInTree(b, d);
    IdsAreUnique(b, d, w[i].bundle);
    assert WriteOk(t, opts, w, i, Ids(b));
  }

  /** A helper on disk is either the one that was there, or that one signed anew. */
  ghost predicate HelperKeptOrSigned(t: Toolkit, opts: Options, before: Files, after: Files, d: Bundle, n: Name)
    requires n in d.files2 && d.files2[n].Helper?
  {
    var target := (d.id, d.base + n);
    || Kept(before, after, target)
    || (target in after && after[target].MachO? && HelperMade(t, opts, d, n, after[target].code))
  }

  lemma HelperOnDisk(t: Toolkit, opts: Options, force: bool, b: Bundle, w: seq<Write>, staging: seq<StageOutcome>,
                     st: StageState, before: Files, c: CommitState, k: nat, d: Bundle, n: Name)
    requires RunAt(t, opts, force, b, w, staging, st, before, c, k)
    requires d in Tree(b) && n in d.files2 && d.files2[n].Helper?
    ensures HelperKeptOrSigned(t, opts, before, c.files, d, n)
  {
    hide ChildFirst, StageFacts, Ordered, WriteOk, HelperMade;
    var target := (d.id, d.base + n);
    assert n in NestedNames(d) && NestedTarget(d, n) == target && target in before;
    if !Kept(before, c.files, target) {
      var i :| 0 <= i < k && TargetOf(w[i]) == target;
      SelfInTree(b, d);
      IdsAreUnique(b, d, w[i].bundle);
      assert Requested(t, opts, b.id, force, w[i]);
      assert forall m: Name :: (d.base + m)[|d.base|..] == m;
    }
  }

  /** A plan that gets through staging, and its first `k` commit steps. */
  lemma RunIs(t: Toolkit, b: Bundle, opts: Options, force: bool, staging: seq<StageOutcome>,
              commits: seq<CommitOutcome>, before: Files, k: nat)
    requires WellFormed(b) && OnDisk(before, b) && !opts.dryRun
    requires var w := PlanBundle(t, b, opts, force).writes;
      k <= |w| == |staging| == |commits| && Stage(w, staging, |w|).Ready?
    ensures var w := PlanBundle(t, b, opts, force).writes;
      var st := Stage(w, staging, |w|).st;
      RunAt(t, opts, force, b, w, staging, st, before, Commit(w, st, commits, before, k), k)
  {
    hide PlanBundle, ChildFirst, WriteOk, Requested;
    var w := PlanBundle(t, b, opts, force).writes;
    var st := Stage(w, staging, |w|).st;
    PlanIsArranged(t, b, opts, force);
    StageHolds(w, staging, |w|);
    CommitsInOrder(w, st, commits, before, k);
    CommitsToDisk(w, staging, st, commits, before, k);
  }

  /** What one run leaves on disk, wherever it stops and whatever the filesystem does. */
  lemma RunKeepsPromise(t: Toolkit, b: Bundle, opts: Options, force: bool, staging: seq<StageOutcome>,
                        commits: seq<CommitOutcome>, before: Files, k: nat)
    requires WellFormed(b) && OnDisk(before, b) && !opts.dryRun
    requires k <= |PlanBundle(t, b, opts, force).writes| == |staging| == |commits|
    ensures var after := Left(PlanBundle(t, b, opts, force).writes, staging, commits, before, k).files;
      && (forall d | d in Tree(b) && Replaced(before, after, d) ::
            SignedOnDisk(t, opts, ForceFor(b.id, force, d), after, d))
      && forall d, n | d in Tree(b) && n in d.files2 && d.files2[n].Helper? ::
           HelperKeptOrSigned(t, opts, before, after, d, n)
  {
    hide PlanBundle, SignedOnDisk, HelperKeptOrSigned, RunAt, WellFormed;
    var w := PlanBundle(t, b, opts, force).writes;
    if Stage(w, staging, |w|).Ready? {
      var st := Stage(w, staging, |w|).st;
      var c := Commit(w, st, commits, before, k);
      RunIs(t, b, opts, force, staging, commits, before, k);
      forall d | d in Tree(b) && Replaced(before, c.files, d)
        ensures SignedOnDisk(t, opts, ForceFor(b.id, force, d), c.files, d)
      {
        var i := ChangedWasReplaced(t, opts, force, b, w, staging, st, before, c, k, d);
        ReplacedIsSigned(t, opts, force, b, w, staging, st, before, c, k, i);
      }
      forall d, n | d in Tree(b) && n in d.files2 && d.files2[n].Helper?
        ensures HelperKeptOrSigned(t, opts, before, c.files, d, n)
      {
        HelperOnDisk(t, opts, force, b, w, staging, st, before, c, k, d, n);
      }
    } else {
      NothingChanges(t, opts, b, before);
    }
  }

  lemma NothingChanges(t: Toolkit, opts: Options, b: Bundle, files: Files)
    requires OnDisk(files, b)
    ensures forall d | d in Tree(b) :: !Replaced(files, files, d)
    ensures forall d, n | d in Tree(b) && n in d.files2 && d.files2[n].Helper? ::
      HelperKeptOrSigned(t, opts, files, files, d, n)
  {
    forall d, n | d in Tree(b) && n in d.files2 && d.files2[n].Helper?
      ensures HelperKeptOrSigned(t, opts, files, files, d, n)
    {
      assert n in NestedNames(d) && NestedTarget(d, n) == (d.id, d.base + n);
    }
  }

  lemma EverythingLanded(w: seq<Write>, st: StageState, c: CommitState)
    requires InOrder(w, st, c, |w|) && !c.stopped && st.denied == {} && st.blocked == {}
    ensures forall j: nat | j < |w| :: j in c.landed
  {
  }

  /** When nothing is denied, breaks or stops, the outermost bundle ends up fully signed. */
  lemma FinishedIsSigned(t: Toolkit, b: Bundle, opts: Options, force: bool, staging: seq<StageOutcome>,
                         commits: seq<CommitOutcome>, before: Files)
    requires WellFormed(b) && OnDisk(before, b) && !opts.dryRun && PlanBundle(t, b, opts, force).Signed?
    requires var w := PlanBundle(t, b, opts, force).writes;
      && |w| == |staging| == |commits| && !Meets(w, staging, Broken, |w|) && !Meets(w, staging, Denied, |w|)
      && !Over(w, staging, commits, |w|)
    ensures var w := PlanBundle(t, b, opts, force).writes;
      SignedOnDisk(t, opts, force, Left(w, staging, commits, before, |w|).files, b)
  {
    var w := PlanBundle(t, b, opts, force).writes;
    assert |w| > 0 && IsMain(w[|w| - 1]) && w[|w| - 1].bundle == b by {
      PlanHolds(t, b, opts, force);
    }
    hide *;
    PlanIsArranged(t, b, opts, force);
    VerdictExactly(w, staging, commits, before);
    var st := Stage(w, staging, |w|).st;
    var c := Commit(w, st, commits, before, |w|);
    RunIs(t, b, opts, force, staging, commits, before, |w|);
    NothingDenied(w, staging, |w|);
    EverythingLanded(w, st, c);
    ReplacedIsSigned(t, opts, force, b, w, staging, st, before, c, |w|, |w| - 1);
  }

  /** The commit law, for the plan of any bundle tree: who is written depends on the allocations alone. */
  lemma PlanLandsExactly(t: Toolkit, b: Bundle, opts: Options, force: bool, staging: seq<StageOutcome>,
                         commits: seq<CommitOutcome>, files: Files, j: nat)
    requires WellFormed(b)
    requires var w := PlanBundle(t, b, opts, force).writes;
      && j < |w| == |staging| == |commits| && !Meets(w, staging, Broken, |w|)
      && forall i | 0 <= i < |w| :: commits[i] == Done
    ensures var w := PlanBundle(t, b, opts, force).writes;
      j in Left(w, staging, commits, files, |w|).landed <==> ShouldLand(w, staging, j)
  {
    hide PlanBundle;
    PlanIsArranged(t, b, opts, force);
    LandedExactly(PlanBundle(t, b, opts, force).writes, staging, commits, files, j);
  }

  /** A dry run seals the nested code as it is on disk, since no planned signature is written. */
  lemma DryRunSealsDisk(t: Toolkit, b: Bundle, opts: Options, force: bool, files: Files, i: nat, n: Name)
    requires WellFormed(b) && OnDisk(files, b) && opts.dryRun
    requires var w := PlanBundle(t, b, opts, force).writes;
      i < |w| && IsEnvelope(w[i]) && n in NestedNames(w[i].bundle)
    ensures var e := PlanBundle(t, b, opts, force).writes[i];
      n in e.file.envelope.files2 && SealMatches(t, files, e.bundle, n, e.file.envelope.files2[n])
  {
    hide PlanBundle, ChildFirst, Requested;
    PlanIsArranged(t, b, opts, force);
    var w := PlanBundle(t, b, opts, force).writes;
    assert WriteOk(t, opts, w, i, Ids(b));
    assert SealedAs(t, opts, w, w[i].bundle, n, w[i].file.envelope.files2[n]);
  }

  lemma PlanKind(t: Toolkit, b: Bundle, opts: Options, force: bool)
    ensures var plan, fate := PlanBundle(t, b, opts, force), BundleFate(t, b, opts, force);
      (plan.Signed? <==> fate.Sound?) && (plan.MetadataFailed? <==> fate.Marred?)
  {
    PlanFits(t, b, opts, force);
  }

  lemma PlanVerdict(t: Toolkit, b: Bundle, opts: Options, force: bool, staging: seq<StageOutcome>,
                    commits: seq<CommitOutcome>, before: Files)
    requires WellFormed(b) && |PlanBundle(t, b, opts, force).writes| == |staging| == |commits|
    ensures var w := PlanBundle(t, b, opts, force).writes;
      var r := Stage(w, staging, |w|);
      && (r.Aborted? <==> Meets(w, staging, Broken, |w|)) && r.Open() == MadeReady(w, staging, |w|)
      && (r.Ready? ==>
            var c := Commit(w, r.st, commits, before, |w|);
            && (r.st.denied != {} <==> Meets(w, staging, Denied, |w|))
              && (c.stopped <==> Over(w, staging, commits, |w|))
            && WrittenSoFar(w, staging, commits, before, c.files, |w|))
  {
    hide PlanBundle, Stage, Commit, Meets, Over, WrittenSoFar, MadeReady;
    PlanIsArranged(t, b, opts, force);
    VerdictExactly(PlanBundle(t, b, opts, force).writes, staging, commits, before);
  }

  /** Nothing is planned at all: the bundle carries a signature and is not signed by force. */
  predicate Settled(t: Toolkit, b: Bundle, opts: Options) {
    !opts.force && t.hasSignature(b.code)
  }

  /** The plan is carried out: it is signed and still wanted, or it failed with something to show for it. */
  ghost predicate CarriedOut(t: Toolkit, b: Bundle, opts: Options, live: bool) {
    var fate := BundleFate(t, b, opts, opts.force);
    && !Settled(t, b, opts)
    && (if fate.Sound? then live else (opts.dryRun || fate.Marred?) && PlanBundle(t, b, opts, opts.force).writes != [])
  }

  /**
   * Signs the bundle tree `b`: plan, stage, commit, close. `live` says whether the caller still waits
   * once the plan is made.
   */
  method SignBundle(disk: Disk, t: Toolkit, b: Bundle, opts: Options, live: bool, staging: seq<StageOutcome>,
                    commits: seq<CommitOutcome>, closes: seq<bool>)
    returns (outcome: Outcome)
    requires WellFormed(b) && OnDisk(disk.files, b)
    requires |staging| == |commits| == |closes| == |PlanBundle(t, b, opts, opts.force).writes|
    modifies disk
    // Wherever the run stopped, whatever failed: no replaced executable is left half-signed.
    ensures forall d | d in Tree(b) && Replaced(old(disk.files), disk.files, d) ::
      SignedOnDisk(t, opts, ForceFor(b.id, opts.force, d), disk.files, d)
    ensures forall d, n | d in Tree(b) && n in d.files2 && d.files2[n].Helper? ::
      HelperKeptOrSigned(t, opts, old(disk.files), disk.files, d, n)
    ensures outcome.Finished? && !opts.dryRun ==> SignedOnDisk(t, opts, opts.force, disk.files, b)
    // The files: what the steps of a plan that is carried out leave, else what was there.
    ensures var w := PlanBundle(t, b, opts, opts.force).writes;
      if CarriedOut(t, b, opts, live) && !opts.dryRun && !Meets(w, staging, Broken, |w|) then
        && Stage(w, staging, |w|).Ready?
        && disk.files == Commit(w, Stage(w, staging, |w|).st, commits, old(disk.files), |w|).files
        && WrittenSoFar(w, staging, commits, old(disk.files), disk.files, |w|)
      else
        disk.files == old(disk.files)
    // The outcome, by the fate of the bundle and what the steps met.
    ensures outcome.AlreadySigned? <==> Settled(t, b, opts)
    ensures outcome.Abandoned? <==>
      !Settled(t, b, opts) && BundleFate(t, b, opts, opts.force).Sound? && !live
    ensures outcome.WriteError? <==>
      && CarriedOut(t, b, opts, live)
      && !Succeeds(PlanBundle(t, b, opts, opts.force).writes, opts.dryRun, staging, commits, closes)
    ensures outcome.Finished? <==>
      && BundleFate(t, b, opts, opts.force).Sound? && CarriedOut(t, b, opts, live)
      && Succeeds(PlanBundle(t, b, opts, opts.force).writes, opts.dryRun, staging, commits, closes)
  {
    hide PlanBundle, SignedOnDisk, WellFormed, OnDisk, HelperKeptOrSigned, Meets, Over, MadeReady, WrittenSoFar, Commit,
      Stage, AllClosed, BundleFate;
    ghost var before := disk.files;
    PlanKind(t, b, opts, opts.force);
    PlanVerdict(t, b, opts, opts.force, staging, commits, before);
    NothingChanges(t, opts, b, before);
    if !opts.force && t.hasSignature(b.code) {
      return AlreadySigned;
    }
    var plan := PlanSignature(t, b, opts, opts.force);
    if plan.Signed? && !live {
      return Abandoned;
    }
    var verdict, closed := Applied, true;
    if plan.Signed? || ((opts.dryRun || plan.MetadataFailed?) && plan.writes != []) {
      verdict, closed := ApplyBundleWrites(disk, plan.writes, opts.dryRun, staging, commits, closes);
      if !opts.dryRun {
        RunKeepsPromise(t, b, opts, opts.force, staging, commits, before, |plan.writes|);
        if plan.Signed? && verdict.Applied? {
          FinishedIsSigned(t, b, opts, opts.force, staging, commits, before);
        }
      }
    }
    outcome := if !verdict.Applied? || !closed then WriteError else if plan.Signed? then Finished else PlanError;
  }
}
