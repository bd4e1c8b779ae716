/**
 * Carrying out a plan: every executable is staged first, then envelopes and replacements are
 * committed in plan order. A run may stop anywhere; whatever it has written stays written.
 *
 * What the filesystem does is a parameter: one outcome per attempted step.
 */
module BundleWriter {
  import opened SigningPlan
  import opened PlanLaws

  /** `Denied` is a permission failure while allocating the replacement; `Broken` is any other error. */
  datatype StageOutcome = Staged | Denied | Broken

  /** `Lost` fails before the file changes, `Cut` after (an envelope is then left torn). */
  datatype CommitOutcome = Done | Cancelled | Lost | Cut

  /** The executor's maps by bundle, and its slices by write index. */
  datatype StageState = StageState(failed: set<nat>, blocked: set<nat>, prepared: set<nat>, denied: set<nat>)

  datatype StageResult = Ready(st: StageState) | Aborted(prepared: set<nat>)
  {
    /** The replacements that were made ready, and have to be closed in the end. */
    function Open(): set<nat> {
      if Ready? then st.prepared else prepared
    }
  }

  type Files = map<Target, File>

  datatype CommitState = CommitState(files: Files, landed: set<nat>, stopped: bool)

  datatype Verdict = Applied | AllocationDenied | Stopped

  function Children(b: Bundle): set<nat> {
    set n | n in b.files2 && b.files2[n].App? :: b.files2[n].bundle.id
  }

  function PropagateFailure(w: Write, st: StageState): StageState {
    if Children(w.bundle) * st.failed != {} then
      st.(failed := st.failed + {w.bundle.id}, blocked := st.blocked + {w.bundle.id})
    else
      st
  }

  function StageWrite(w: Write, i: nat, outcome: StageOutcome, st: StageState): StageResult {
    if !w.file.MachO? then
      Ready(st)
    else
      var st := if IsMain(w) then PropagateFailure(w, st) else st;
      if IsMain(w) && w.bundle.id in st.blocked then
        Ready(st)
      else
        match outcome
        case Broken => Aborted(st.prepared)
        case Denied =>
          Ready(st.(denied := st.denied + {i}, failed := st.failed + {w.bundle.id},
                    blocked := if IsMain(w) then st.blocked else st.blocked + {w.bundle.id}))
        case Staged => Ready(st.(prepared := st.prepared + {i}))
  }

  ghost function Stage(w: seq<Write>, outcomes: seq<StageOutcome>, n: nat): StageResult
    requires n <= |w| == |outcomes|
  {
    if n == 0 then
      Ready(StageState({}, {}, {}, {}))
    else
      match Stage(w, outcomes, n - 1)
      case Aborted(prepared) => Aborted(prepared)
      case Ready(st) => StageWrite(w[n - 1], n - 1, outcomes[n - 1], st)
  }

  /** Writes the commit phase passes over: the envelope and executable of a blocked bundle. */
  predicate Skipped(w: Write, st: StageState) {
    w.bundle.id in st.blocked && (!w.file.MachO? || IsMain(w))
  }

  function CommitWrite(w: Write, i: nat, outcome: CommitOutcome, st: StageState, c: CommitState): CommitState {
    if c.stopped then
      c
    else if outcome.Cancelled? then
      c.(stopped := true)
    else if Skipped(w, st) then
      c
    else if i in st.denied then
      // Only the access time of the kept file is recorded.
      c.(stopped := !outcome.Done?)
    else if i in st.prepared then
      match outcome
      case Lost => c.(stopped := true)
      case _ => CommitState(c.files[TargetOf(w) := w.file], c.landed + {i}, outcome.Cut?)
    else
      match outcome
      case Lost => c.(stopped := true)
      case Cut => CommitState(c.files[TargetOf(w) := Damaged], c.landed, true)
      case _ => CommitState(c.files[TargetOf(w) := w.file], c.landed + {i}, false)
  }

  /** The commit phase after its first `n` writes. */
  ghost function Commit(w: seq<Write>, st: StageState, outcomes: seq<CommitOutcome>, files: Files, n: nat): CommitState
    requires n <= |w| == |outcomes|
  {
    if n == 0 then
      CommitState(files, {}, false)
    else
      CommitWrite(w[n - 1], n - 1, outcomes[n - 1], st, Commit(w, st, outcomes, files, n - 1))
  }

  /** The files of the bundle tree, by bundle and name. */
  class Disk {
    var files: Files

    constructor (files: Files)
      ensures this.files == files
    {
      this.files := files;
    }
  }

  method StageAll(w: seq<Write>, outcomes: seq<StageOutcome>) returns (r: StageResult)
    requires |w| == |outcomes|
    ensures r == Stage(w, outcomes, |w|)
  {
    var failed, blocked, prepared, denied := {}, {}, {}, {};
    for i := 0 to |w|
      invariant Stage(w, outcomes, i) == Ready(StageState(failed, blocked, prepared, denied))
    {
      if !w[i].file.MachO? {
        continue;
      }
      var b := w[i].bundle;
      if IsMain(w[i]) {
        var left := Children(b);
        ghost var before := StageState(failed, blocked, prepared, denied);
        while left != {}
          invariant left <= Children(b)
          invariant failed == before.failed || failed == before.failed + {b.id}
          invariant if Children(b) * before.failed <= left
                    then failed == before.failed && blocked == before.blocked
                    else failed == before.failed + {b.id} && blocked == before.blocked + {b.id}
        {
          var child :| child in left;
          if child in failed {
            failed, blocked := failed + {b.id}, blocked + {b.id};
          }
          left := left - {child};
        }
        if b.id in blocked {
          continue;
        }
      }
      match outcomes[i] {
        case Broken =>
          AbortedStays(w, outcomes, i + 1, |w|);
          return Aborted(prepared);
        case Denied =>
          denied, failed := denied + {i}, failed + {b.id};
          if !IsMain(w[i]) {
            blocked := blocked + {b.id};
          }
        case Staged =>
          prepared := prepared + {i};
      }
    }
    r := Ready(StageState(failed, blocked, prepared, denied));
  }

  lemma AbortedStays(w: seq<Write>, outcomes: seq<StageOutcome>, i: nat, n: nat)
    requires i <= n <= |w| == |outcomes| && Stage(w, outcomes, i).Aborted?
    ensures Stage(w, outcomes, n) == Stage(w, outcomes, i)
  {
  }

  /** Commits in order, on a disk that keeps every completed write. */
  method CommitAll(disk: Disk, w: seq<Write>, st: StageState, commits: seq<CommitOutcome>) returns (stopped: bool)
    requires |w| == |commits|
    modifies disk
    ensures var c := Commit(w, st, commits, old(disk.files), |w|); disk.files == c.files && stopped == c.stopped
  {
    ghost var files := disk.files;
    ghost var landed: set<nat> := {};
    for i := 0 to |w|
      invariant Commit(w, st, commits, files, i) == CommitState(disk.files, landed, false)
    {
      if commits[i].Cancelled? {
        StoppedStays(w, st, commits, files, i + 1, |w|);
        return true;
      }
      if Skipped(w[i], st) {
        continue;
      }
      if i in st.denied {
        if !commits[i].Done? {
          StoppedStays(w, st, commits, files, i + 1, |w|);
          return true;
        }
        continue;
      }
      if commits[i].Lost? {
        StoppedStays(w, st, commits, files, i + 1, |w|);
        return true;
      }
      if commits[i].Cut? {
        disk.files := disk.files[TargetOf(w[i]) := if i in st.prepared then w[i].file else Damaged];
        StoppedStays(w, st, commits, files, i + 1, |w|);
        return true;
      }
      disk.files := disk.files[TargetOf(w[i]) := w[i].file];
      landed := landed + {i};
    }
    stopped := false;
  }

  /** The replacements made ready are closed on every way out; `closes` says which of them fail to. */
  ghost predicate AllClosed(open: set<nat>, closes: seq<bool>) {
    forall i: nat | i in open && i < |closes| :: closes[i]
  }

  method CloseAll(open: set<nat>, closes: seq<bool>) returns (closed: bool)
    ensures closed <==> AllClosed(open, closes)
  {
    closed := true;
    for i := 0 to |closes|
      invariant closed <==> forall j: nat | j in open && j < i :: closes[j]
    {
      if i in open && !closes[i] {
        closed := false;
      }
    }
  }

  /**
   * Stages all executables, then commits in order. A failing close is reported beside the verdict,
   * and takes back nothing that was written.
   */
  method ApplyBundleWrites(disk: Disk, w: seq<Write>, dryRun: bool, staging: seq<StageOutcome>,
                           commits: seq<CommitOutcome>, closes: seq<bool>)
    returns (verdict: Verdict, closed: bool)
    requires |w| == |staging| == |commits| == |closes|
    modifies disk
    ensures Stage(w, staging, |w|).Aborted? || dryRun ==> disk.files == old(disk.files)
    ensures Stage(w, staging, |w|).Aborted? ==> verdict == Stopped
    ensures !Stage(w, staging, |w|).Aborted? && !dryRun ==>
      var c := Commit(w, Stage(w, staging, |w|).st, commits, old(disk.files), |w|);
      disk.files == c.files && (verdict.Stopped? <==> c.stopped)
    ensures !Stage(w, staging, |w|).Aborted? && dryRun ==> !verdict.Stopped?
    ensures !Stage(w, staging, |w|).Aborted? && !verdict.Stopped? ==>
      (verdict == AllocationDenied <==> Stage(w, staging, |w|).st.denied != {})
    ensures closed <==> AllClosed(Stage(w, staging, |w|).Open(), closes)
  {
    var staged := StageAll(w, staging);
    verdict := Stopped;
    if staged.Ready? {
      var stopped := false;
      if !dryRun {
        stopped := CommitAll(disk, w, staged.st, commits);
      }
      verdict := if stopped then Stopped else if staged.st.denied != {} then AllocationDenied else Applied;
    }
    closed := CloseAll(staged.Open(), closes);
  }

  lemma StoppedStays(w: seq<Write>, st: StageState, outcomes: seq<CommitOutcome>, files: Files, i: nat, n: nat)
    requires i <= n <= |w| == |outcomes| && Commit(w, st, outcomes, files, i).stopped
    ensures Commit(w, st, outcomes, files, n) == Commit(w, st, outcomes, files, i)
  {
  }
}
