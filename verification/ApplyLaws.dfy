/** What applying a plan does, told by the plan and by what each step met, without the executor's maps. */
module ApplyLaws {
  import opened SigningPlan
  import opened PlanLaws
  import opened BundleWriter
  import opened CommitLaws

  /** What every plan is: children first, each file once, every envelope right before its executable. */
  ghost predicate Arranged(w: seq<Write>) {
    && Ordered(w) && DistinctTargets(w)
    && forall j: nat | j < |w| && !w[j].file.MachO? :: MainOf(w, j + 1, w[j].bundle)
  }

  /** Every executable is allocated, save that of a bundle with a denial below it. */
  ghost predicate Attempted(w: seq<Write>, staging: seq<StageOutcome>, j: nat)
    requires j < |w| == |staging|
  {
    w[j].file.MachO? && !(IsMain(w[j]) && Hindered(w, staging, w[j].bundle))
  }

  /** An attempted allocation among the first `n` writes ends as `outcome`. */
  ghost predicate Meets(w: seq<Write>, staging: seq<StageOutcome>, outcome: StageOutcome, n: nat)
    requires n <= |w| == |staging|
  {
    exists j: nat :: j < n && Attempted(w, staging, j) && staging[j] == outcome
  }

  /** The replacements made ready among the first `n` writes: none after an allocation that breaks. */
  ghost function MadeReady(w: seq<Write>, staging: seq<StageOutcome>, n: nat): set<nat>
    requires n <= |w| == |staging|
  {
    set j: nat | j < n && Attempted(w, staging, j) && staging[j] == Staged && !Meets(w, staging, Broken, j)
  }

  lemma {:induction false} StageOfPrefix(w: seq<Write>, staging: seq<StageOutcome>, v: seq<Write>,
                                         other: seq<StageOutcome>, n: nat)
    requires n <= |w| == |staging| && n <= |v| == |other|
    requires forall i | 0 <= i < n :: v[i] == w[i] && other[i] == staging[i]
    ensures Stage(v, other, n) == Stage(w, staging, n)
  {
    if n > 0 {
      StageOfPrefix(w, staging, v, other, n - 1);
    }
  }

  lemma PrefixOrdered(w: seq<Write>, n: nat)
    requires n <= |w| && Ordered(w)
    ensures Ordered(w[..n])
  {
    var v := w[..n];
    forall i: nat | i < |v| && IsMain(v[i])
      ensures ChildFirst(v, i)
    {
      assert ChildFirst(w, i);
      forall j: nat | Below(v, j, v[i].bundle)
        ensures j <= i
      {
        assert Below(w, j, w[i].bundle);
      }
      forall m | m in v[i].bundle.files2 && v[i].bundle.files2[m].App?
        ensures ChildSigned(v, i, v[i].bundle.files2[m].bundle)
      {
        PrefixSigned(w, n, i, v[i].bundle.files2[m].bundle);
      }
    }
  }

  lemma PrefixSigned(w: seq<Write>, n: nat, i: nat, child: Bundle)
    requires i < n <= |w| && ChildSigned(w, i, child)
    ensures ChildSigned(w[..n], i, child)
  {
    var v := w[..n];
    forall j: nat | Below(v, j, child)
      ensures exists k :: j <= k < i && MainOf(v, k, child)
    {
      assert Below(w, j, child);
      var k :| j <= k < i && MainOf(w, k, child);
      assert MainOf(v, k, child);
    }
  }

  /** When an executable's turn comes, its bundle is blocked exactly if it is hindered. */
  lemma BlockedAtTurn(w: seq<Write>, staging: seq<StageOutcome>, i: nat)
    requires Ordered(w) && i < |w| == |staging| && IsMain(w[i]) && Stage(w, staging, i).Ready?
    ensures w[i].bundle.id in PropagateFailure(w[i], Stage(w, staging, i).st).blocked
      <==> Hindered(w, staging, w[i].bundle)
  {
    var v, other := w[..i + 1], staging[..i] + [Staged];
    var b := w[i].bundle;
    PrefixOrdered(w, i + 1);
    StageOfPrefix(w, staging, v, other, i);
    StageHolds(v, other, i + 1);
    BlockedExactly(v, other, Stage(v, other, i + 1).st, i);
    SameHindrance(w, staging, v, other, i);
  }

  lemma SameHindrance(w: seq<Write>, staging: seq<StageOutcome>, v: seq<Write>, other: seq<StageOutcome>, i: nat)
    requires Ordered(w) && i < |w| == |staging| && IsMain(w[i])
    requires v == w[..i + 1] && other == staging[..i] + [Staged]
    ensures Hindered(w, staging, w[i].bundle) <==> Hindered(v, other, w[i].bundle)
  {
    var b := w[i].bundle;
    assert ChildFirst(w, i);
    if Hindered(w, staging, b) {
      var j: nat :| Below(w, j, b) && w[j].file.MachO? && staging[j] == Denied
        && !(IsMain(w[j]) && w[j].bundle.id == b.id);
      assert j < i && Below(v, j, b);
    }
    if Hindered(v, other, b) {
      var j: nat :| Below(v, j, b) && v[j].file.MachO? && other[j] == Denied
        && !(IsMain(v[j]) && v[j].bundle.id == b.id);
      assert Below(w, j, b);
    }
  }

  /**
   * Staging by its inputs: it aborts exactly when an attempted allocation breaks; what is open and what
   * was denied follow from the outcomes of the attempted allocations.
   */
  lemma {:induction false} StagedExactly(w: seq<Write>, staging: seq<StageOutcome>, n: nat)
    requires Ordered(w) && n <= |w| == |staging|
    ensures var r := Stage(w, staging, n);
      && (r.Aborted? <==> Meets(w, staging, Broken, n))
      && r.Open() == MadeReady(w, staging, n)
      && (r.Ready? ==> r.st.denied == set j: nat | j < n && Attempted(w, staging, j) && staging[j] == Denied)
  {
    hide Hindered, Ordered, PropagateFailure;
    if n > 0 {
      var i := n - 1;
      StagedExactly(w, staging, i);
      if Stage(w, staging, i).Ready? {
        assert IsMain(w[i]) ==> (w[i].bundle.id in PropagateFailure(w[i], Stage(w, staging, i).st).blocked
          <==> Hindered(w, staging, w[i].bundle)) by {
          if IsMain(w[i]) {
            BlockedAtTurn(w, staging, i);
          }
        }
        assert PropagateFailure(w[i], Stage(w, staging, i).st).prepared == Stage(w, staging, i).st.prepared
          && PropagateFailure(w[i], Stage(w, staging, i).st).denied == Stage(w, staging, i).st.denied by {
          Propagates(w[i], Stage(w, staging, i).st);
        }
      }
    }
  }

  lemma Propagates(w: Write, st: StageState)
    ensures PropagateFailure(w, st).prepared == st.prepared && PropagateFailure(w, st).denied == st.denied
  {
  }

  /** A bundle with a denial below it keeps both its envelope and its executable. */
  ghost predicate HeldBack(w: seq<Write>, staging: seq<StageOutcome>, j: nat)
    requires j < |w| == |staging|
  {
    (!w[j].file.MachO? || IsMain(w[j])) && Hindered(w, staging, w[j].bundle)
  }

  /** The run ends here: the caller has cancelled, or the step of a write that is not held back fails. */
  ghost predicate Ends(w: seq<Write>, staging: seq<StageOutcome>, commits: seq<CommitOutcome>, j: nat)
    requires j < |w| == |staging| == |commits|
  {
    commits[j].Cancelled? || (!HeldBack(w, staging, j) && !commits[j].Done?)
  }

  ghost predicate Over(w: seq<Write>, staging: seq<StageOutcome>, commits: seq<CommitOutcome>, n: nat)
    requires n <= |w| == |staging| == |commits|
  {
    exists j: nat :: j < n && Ends(w, staging, commits, j)
  }

  /** The write is made: its turn comes, and its step succeeds or fails only after the replacement. */
  ghost predicate Lands(w: seq<Write>, staging: seq<StageOutcome>, commits: seq<CommitOutcome>, j: nat)
    requires j < |w| == |staging| == |commits|
  {
    && !Over(w, staging, commits, j) && ShouldLand(w, staging, j)
    && (commits[j].Done? || (commits[j].Cut? && w[j].file.MachO?))
  }

  /** The envelope is left half-written. */
  ghost predicate Tears(w: seq<Write>, staging: seq<StageOutcome>, commits: seq<CommitOutcome>, j: nat)
    requires j < |w| == |staging| == |commits|
  {
    !Over(w, staging, commits, j) && ShouldLand(w, staging, j) && commits[j].Cut? && !w[j].file.MachO?
  }

  ghost predicate Same(before: Files, after: Files, target: Target) {
    (target in before <==> target in after) && (target in before ==> after[target] == before[target])
  }

  /** What the first `n` steps leave of the files. */
  ghost predicate WrittenSoFar(w: seq<Write>, staging: seq<StageOutcome>, commits: seq<CommitOutcome>, before: Files,
                               after: Files, n: nat)
    requires n <= |w| == |staging| == |commits|
  {
    && (forall j: nat | j < n ::
      var target := TargetOf(w[j]);
      if Lands(w, staging, commits, j) then target in after && after[target] == w[j].file
      else if Tears(w, staging, commits, j) then target in after && after[target] == Damaged
      else Same(before, after, target))
    && (forall target | (forall j: nat | j < n :: TargetOf(w[j]) != target) :: Same(before, after, target))
  }

  ghost predicate CommitFacts(w: seq<Write>, staging: seq<StageOutcome>, commits: seq<CommitOutcome>, files: Files,
                              n: nat, c: CommitState)
    requires n <= |w| == |staging| == |commits|
  {
    && (c.stopped <==> Over(w, staging, commits, n))
    && (forall j: nat :: j in c.landed <==> j < n && Lands(w, staging, commits, j))
    && WrittenSoFar(w, staging, commits, files, c.files, n)
  }

  /** The executor's maps, for one write of an arranged plan. */
  ghost predicate Reads(w: seq<Write>, staging: seq<StageOutcome>, st: StageState, i: nat)
    requires i < |w| == |staging|
  {
    && (Skipped(w[i], st) <==> HeldBack(w, staging, i))
    && (!Skipped(w[i], st) && i !in st.denied <==> ShouldLand(w, staging, i))
    && (!Skipped(w[i], st) && i !in st.denied ==> (i in st.prepared <==> w[i].file.MachO?))
  }

  lemma BlockedInTheEnd(w: seq<Write>, staging: seq<StageOutcome>, i: nat)
    requires Arranged(w) && i < |w| == |staging| && Stage(w, staging, |w|).Ready?
    requires !w[i].file.MachO? || IsMain(w[i])
    ensures w[i].bundle.id in Stage(w, staging, |w|).st.blocked <==> Hindered(w, staging, w[i].bundle)
  {
    StageHolds(w, staging, |w|);
    BlockedExactly(w, staging, Stage(w, staging, |w|).st, if w[i].file.MachO? then i else i + 1);
  }

  lemma MapsRead(w: seq<Write>, staging: seq<StageOutcome>, i: nat)
    requires Arranged(w) && i < |w| == |staging| && Stage(w, staging, |w|).Ready?
    ensures Reads(w, staging, Stage(w, staging, |w|).st, i)
  {
    hide Hindered, Arranged, Stage;
    if !w[i].file.MachO? || IsMain(w[i]) {
      BlockedInTheEnd(w, staging, i);
    }
    assert Ordered(w) by {
      ArrangedOrder(w);
    }
    StagedExactly(w, staging, |w|);
  }

  lemma ArrangedOrder(w: seq<Write>)
    requires Arranged(w)
    ensures Ordered(w) && DistinctTargets(w)
  {
  }

  /** One step, told by the inputs: it touches its own file alone. */
  ghost predicate Steps(w: seq<Write>, staging: seq<StageOutcome>, commits: seq<CommitOutcome>, n: nat,
                        c: CommitState, next: CommitState)
    requires n < |w| == |staging| == |commits|
  {
    var target := TargetOf(w[n]);
    && (next.stopped <==> c.stopped || Ends(w, staging, commits, n))
    && next.landed == (if Lands(w, staging, commits, n) then c.landed + {n} else c.landed)
    && next.files == if Lands(w, staging, commits, n) then c.files[target := w[n].file]
                     else if Tears(w, staging, commits, n) then c.files[target := Damaged]
                     else c.files
  }

  lemma StepReads(w: seq<Write>, staging: seq<StageOutcome>, commits: seq<CommitOutcome>, n: nat, st: StageState,
                  c: CommitState)
    requires n < |w| == |staging| == |commits| && Reads(w, staging, st, n)
    requires c.stopped <==> Over(w, staging, commits, n)
    ensures Steps(w, staging, commits, n, c, CommitWrite(w[n], n, commits[n], st, c))
  {
    hide Skipped, HeldBack, ShouldLand, Over;
  }

  lemma SameStays(before: Files, after: Files, next: Files, target: Target)
    requires Same(after, next, target)
    ensures Same(before, next, target) <==> Same(before, after, target)
  {
  }

  lemma FilesStep(w: seq<Write>, staging: seq<StageOutcome>, commits: seq<CommitOutcome>, files: Files, n: nat,
                  c: CommitState, next: CommitState)
    requires n < |w| == |staging| == |commits| && DistinctTargets(w)
    requires WrittenSoFar(w, staging, commits, files, c.files, n) && Steps(w, staging, commits, n, c, next)
    ensures WrittenSoFar(w, staging, commits, files, next.files, n + 1)
  {
    hide Lands, Tears, Ends, Same;
    forall j: nat | j < n
      ensures TargetOf(w[j]) != TargetOf(w[n])
    {
    }
    forall target | target != TargetOf(w[n])
      ensures Same(files, next.files, target) <==> Same(files, c.files, target)
      ensures target in next.files <==> target in c.files
      ensures target in c.files ==> next.files[target] == c.files[target]
    {
      SameStays(files, c.files, next.files, target);
    }
    assert Same(files, c.files, TargetOf(w[n]));
  }

  lemma CommitStep(w: seq<Write>, staging: seq<StageOutcome>, commits: seq<CommitOutcome>, files: Files, n: nat,
                   st: StageState, c: CommitState)
    requires n < |w| == |staging| == |commits| && DistinctTargets(w)
    requires CommitFacts(w, staging, commits, files, n, c) && Reads(w, staging, st, n)
    ensures CommitFacts(w, staging, commits, files, n + 1, CommitWrite(w[n], n, commits[n], st, c))
  {
    hide WrittenSoFar, Ends, Lands, Tears, CommitWrite, Reads;
    var next := CommitWrite(w[n], n, commits[n], st, c);
    StepReads(w, staging, commits, n, st, c);
    FilesStep(w, staging, commits, files, n, c, next);
    assert Over(w, staging, commits, n + 1) <==> Over(w, staging, commits, n) || Ends(w, staging, commits, n);
  }

  lemma NothingCommitted(w: seq<Write>, staging: seq<StageOutcome>, commits: seq<CommitOutcome>, files: Files)
    requires |w| == |staging| == |commits|
    ensures CommitFacts(w, staging, commits, files, 0, CommitState(files, {}, false))
  {
    hide Ends, Lands, Tears;
  }

  /**
   * The commit phase by its inputs, for every failure and cancellation: when it stops, which writes are
   * made, which envelope is torn, and that every other file is as it was.
   */
  lemma {:induction false} CommittedExactly(w: seq<Write>, staging: seq<StageOutcome>, commits: seq<CommitOutcome>,
                                            files: Files, n: nat)
    requires Arranged(w) && n <= |w| == |staging| == |commits| && !Meets(w, staging, Broken, |w|)
    ensures Stage(w, staging, |w|).Ready?
    ensures CommitFacts(w, staging, commits, files, n, Commit(w, Stage(w, staging, |w|).st, commits, files, n))
  {
    hide Arranged, Stage, Meets, CommitFacts, CommitWrite;
    ArrangedOrder(w);
    StagedExactly(w, staging, |w|);
    var st := Stage(w, staging, |w|).st;
    if n == 0 {
      NothingCommitted(w, staging, commits, files);
    } else {
      CommittedExactly(w, staging, commits, files, n - 1);
      MapsRead(w, staging, n - 1);
      CommitStep(w, staging, commits, files, n - 1, st, Commit(w, st, commits, files, n - 1));
    }
  }

  /**
   * Without commit errors, exactly the envelopes and executables of hindered bundles, and the files
   * whose own allocation was denied, stay as they were; every independent sibling is written.
   */
  lemma LandedExactly(w: seq<Write>, staging: seq<StageOutcome>, commits: seq<CommitOutcome>, files: Files, j: nat)
    requires Arranged(w) && j < |w| == |staging| == |commits| && !Meets(w, staging, Broken, |w|)
    requires forall i | 0 <= i < |w| :: commits[i] == Done
    ensures Stage(w, staging, |w|).Ready?
    ensures j in Commit(w, Stage(w, staging, |w|).st, commits, files, |w|).landed <==> ShouldLand(w, staging, j)
  {
    CommittedExactly(w, staging, commits, files, |w|);
  }

  /** The files after `k` commit steps; a run that does not get through staging leaves them alone. */
  ghost function Left(w: seq<Write>, staging: seq<StageOutcome>, commits: seq<CommitOutcome>, files: Files, k: nat):
    CommitState
    requires k <= |w| == |staging| == |commits|
  {
    if Stage(w, staging, |w|).Ready? then Commit(w, Stage(w, staging, |w|).st, commits, files, k)
    else CommitState(files, {}, false)
  }

  /** Applying a plan succeeds: nothing breaks, nothing is denied, no step fails, and all closes succeed. */
  ghost predicate Succeeds(w: seq<Write>, dryRun: bool, staging: seq<StageOutcome>, commits: seq<CommitOutcome>,
                           closes: seq<bool>)
    requires |w| == |staging| == |commits| == |closes|
  {
    && !Meets(w, staging, Broken, |w|) && !Meets(w, staging, Denied, |w|)
    && (dryRun || !Over(w, staging, commits, |w|))
    && AllClosed(MadeReady(w, staging, |w|), closes)
  }

  /** The verdict of the executor, read off the inputs. */
  lemma VerdictExactly(w: seq<Write>, staging: seq<StageOutcome>, commits: seq<CommitOutcome>, files: Files)
    requires Arranged(w) && |w| == |staging| == |commits|
    ensures Stage(w, staging, |w|).Aborted? <==> Meets(w, staging, Broken, |w|)
    ensures Stage(w, staging, |w|).Open() == MadeReady(w, staging, |w|)
    ensures Stage(w, staging, |w|).Ready? ==>
      && (Stage(w, staging, |w|).st.denied != {} <==> Meets(w, staging, Denied, |w|))
      && (Left(w, staging, commits, files, |w|).stopped <==> Over(w, staging, commits, |w|))
      && WrittenSoFar(w, staging, commits, files, Left(w, staging, commits, files, |w|).files, |w|)
  {
    hide Arranged, Attempted, Over, WrittenSoFar;
    ArrangedOrder(w);
    StagedExactly(w, staging, |w|);
    if Stage(w, staging, |w|).Ready? {
      CommittedExactly(w, staging, commits, files, |w|);
      if j: nat :| j < |w| && Attempted(w, staging, j) && staging[j] == Denied {
        assert j in Stage(w, staging, |w|).st.denied;
      }
    }
  }
}
