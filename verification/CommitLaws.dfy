/** Which bundles a denied allocation holds back, and what is on disk at every point of a run. */
module CommitLaws {
  import opened ByteStrings
  import opened Wrappers
  import opened SigningPlan
  import opened PlanLaws
  import opened BundleWriter

  ghost predicate Ordered(w: seq<Write>) {
    forall i: nat | i < |w| && IsMain(w[i]) :: ChildFirst(w, i)
  }

  /** An executable that will not be replaced. */
  ghost predicate Bad(w: seq<Write>, st: StageState, j: nat) {
    j < |w| && w[j].file.MachO? && (j in st.denied || (IsMain(w[j]) && w[j].bundle.id in st.blocked))
  }

  ghost predicate BadBundle(w: seq<Write>, st: StageState, n: nat, id: nat) {
    exists j: nat :: j < n && Bad(w, st, j) && w[j].bundle.id == id
  }

  ghost predicate BadChild(w: seq<Write>, st: StageState, i: nat, b: Bundle) {
    exists j: nat :: j < i && Bad(w, st, j) && w[j].bundle.id in Children(b)
  }

  ghost predicate BadHelper(w: seq<Write>, st: StageState, n: nat, id: nat) {
    exists j: nat :: j < n && j in st.denied && j < |w| && !IsMain(w[j]) && w[j].bundle.id == id
  }

  /** Why a bundle is blocked: a denied helper of its own, or a child that is not replaced. */
  ghost predicate Blame(w: seq<Write>, st: StageState, n: nat, id: nat) {
    || BadHelper(w, st, n, id)
    || exists i: nat :: i < n && i < |w| && IsMain(w[i]) && w[i].bundle.id == id && BadChild(w, st, i, w[i].bundle)
  }

  ghost predicate BundleFacts(w: seq<Write>, n: nat, st: StageState, id: nat) {
    && (id in st.failed <==> BadBundle(w, st, n, id))
    && (id in st.blocked ==> id in st.failed && Blame(w, st, n, id))
    && (BadHelper(w, st, n, id) ==> id in st.blocked)
  }

  ghost predicate IndexFacts(w: seq<Write>, outcomes: seq<StageOutcome>, n: nat, st: StageState)
    requires n <= |w| == |outcomes|
  {
    && (forall j | j in st.prepared :: j < n && w[j].file.MachO? && outcomes[j] == Staged)
    && (forall j | j in st.denied :: j < n && w[j].file.MachO? && outcomes[j] == Denied)
    && (forall j: nat | j < n && w[j].file.MachO? :: (j in st.prepared) != Bad(w, st, j))
  }

  ghost predicate StageFacts(w: seq<Write>, outcomes: seq<StageOutcome>, n: nat, st: StageState)
    requires n <= |w| == |outcomes|
  {
    && IndexFacts(w, outcomes, n, st)
    && (forall id :: BundleFacts(w, n, st, id))
    && (forall i: nat | i < n && IsMain(w[i]) && BadChild(w, st, i, w[i].bundle) :: w[i].bundle.id in st.blocked)
  }

  /** Nothing is added to a bundle once its main executable is staged. */
  lemma NoLateWrites(w: seq<Write>, j: nat, n: nat)
    requires Ordered(w) && j < n < |w| && IsMain(w[j])
    ensures w[n].bundle.id != w[j].bundle.id
  {
    SelfId(w[j].bundle);
    assert Below(w, n, w[j].bundle) ==> n <= j;
  }

  lemma OldBadKept(w: seq<Write>, outcomes: seq<StageOutcome>, n: nat, st: StageState, next: StageState)
    requires Ordered(w) && n < |w| == |outcomes|
    requires forall j | j in st.denied :: j < n
    requires StageWrite(w[n], n, outcomes[n], st) == Ready(next)
    ensures forall j: nat | j < n :: Bad(w, next, j) == Bad(w, st, j)
  {
    forall j: nat | j < n
      ensures Bad(w, next, j) == Bad(w, st, j)
    {
      if IsMain(w[j]) {
        NoLateWrites(w, j, n);
      }
    }
  }

  lemma BadBundleStep(w: seq<Write>, n: nat, st: StageState, next: StageState, id: nat)
    requires forall j: nat | j < n :: Bad(w, next, j) == Bad(w, st, j)
    ensures BadBundle(w, next, n + 1, id) == (BadBundle(w, st, n, id) || (Bad(w, next, n) && w[n].bundle.id == id))
  {
    if j: nat :| j < n && Bad(w, st, j) && w[j].bundle.id == id {
      assert Bad(w, next, j);
    }
    if j: nat :| j < n + 1 && Bad(w, next, j) && w[j].bundle.id == id {
      if j < n {
        assert Bad(w, st, j);
      }
    }
  }

  lemma BadChildStep(w: seq<Write>, n: nat, st: StageState, next: StageState, i: nat, b: Bundle)
    requires forall j: nat | j < n :: Bad(w, next, j) == Bad(w, st, j)
    requires i <= n
    ensures BadChild(w, next, i, b) == BadChild(w, st, i, b)
  {
    if j: nat :| j < i && Bad(w, st, j) && w[j].bundle.id in Children(b) {
      assert Bad(w, next, j);
    }
    if j: nat :| j < i && Bad(w, next, j) && w[j].bundle.id in Children(b) {
      assert Bad(w, st, j);
    }
  }

  lemma BadHelperStep(w: seq<Write>, n: nat, st: StageState, next: StageState, id: nat)
    requires n < |w| && (forall j | j in st.denied :: j < n)
    requires next.denied == st.denied || next.denied == st.denied + {n}
    ensures BadHelper(w, next, n + 1, id)
      == (BadHelper(w, st, n, id) || (n in next.denied && !IsMain(w[n]) && w[n].bundle.id == id))
  {
    if j: nat :| j < n && j in st.denied && j < |w| && !IsMain(w[j]) && w[j].bundle.id == id {
      assert j in next.denied;
    }
    if j: nat :| j < n + 1 && j in next.denied && j < |w| && !IsMain(w[j]) && w[j].bundle.id == id {
      assert j == n || j in st.denied;
    }
  }

  lemma FailedChild(w: seq<Write>, outcomes: seq<StageOutcome>, n: nat, st: StageState, b: Bundle)
    requires n <= |w| == |outcomes| && StageFacts(w, outcomes, n, st)
    ensures BadChild(w, st, n, b) <==> Children(b) * st.failed != {}
  {
    if id :| id in Children(b) * st.failed {
      assert BundleFacts(w, n, st, id);
      var j: nat :| j < n && Bad(w, st, j) && w[j].bundle.id == id;
      assert w[j].bundle.id in Children(b);
    }
    if j: nat :| j < n && Bad(w, st, j) && w[j].bundle.id in Children(b) {
      assert BundleFacts(w, n, st, w[j].bundle.id);
      assert w[j].bundle.id in Children(b) * st.failed;
    }
  }

  lemma IndexStep(w: seq<Write>, outcomes: seq<StageOutcome>, n: nat, st: StageState, next: StageState)
    requires Ordered(w) && n < |w| == |outcomes| && IndexFacts(w, outcomes, n, st)
    requires StageWrite(w[n], n, outcomes[n], st) == Ready(next)
    ensures IndexFacts(w, outcomes, n + 1, next)
    ensures forall j: nat | j < n :: Bad(w, next, j) == Bad(w, st, j)
  {
    OldBadKept(w, outcomes, n, st, next);
    hide Ordered, Children;
  }

  lemma BundleStep(w: seq<Write>, outcomes: seq<StageOutcome>, n: nat, st: StageState, next: StageState, id: nat)
    requires n < |w| == |outcomes| && StageFacts(w, outcomes, n, st)
    requires StageWrite(w[n], n, outcomes[n], st) == Ready(next)
    requires forall j: nat | j < n :: Bad(w, next, j) == Bad(w, st, j)
    ensures BundleFacts(w, n + 1, next, id)
  {
    hide BadBundle, BadHelper, BadChild, Blame, Children;
    assert BundleFacts(w, n, st, id);
    FailedChild(w, outcomes, n, st, w[n].bundle);
    BadBundleStep(w, n, st, next, id);
    BadHelperStep(w, n, st, next, id);
    if id in next.blocked {
      BlameStep(w, n, st, next, id);
    }
  }

  lemma StageStep(w: seq<Write>, outcomes: seq<StageOutcome>, n: nat, st: StageState, next: StageState)
    requires Ordered(w) && n < |w| == |outcomes| && StageFacts(w, outcomes, n, st)
    requires StageWrite(w[n], n, outcomes[n], st) == Ready(next)
    ensures StageFacts(w, outcomes, n + 1, next)
  {
    IndexStep(w, outcomes, n, st, next);
    var m := n + 1;
    forall id
      ensures BundleFacts(w, m, next, id)
    {
      BundleStep(w, outcomes, n, st, next, id);
    }
    FailedChild(w, outcomes, n, st, w[n].bundle);
    hide BadBundle, BadHelper, Blame, Ordered, Children;
    forall i: nat | i < n + 1 && IsMain(w[i]) && BadChild(w, next, i, w[i].bundle)
      ensures w[i].bundle.id in next.blocked
    {
      BadChildStep(w, n, st, next, i, w[i].bundle);
    }
  }

  lemma BlameStep(w: seq<Write>, n: nat, st: StageState, next: StageState, id: nat)
    requires n < |w| && (forall j | j in st.denied :: j < n)
    requires forall j: nat | j < n :: Bad(w, next, j) == Bad(w, st, j)
    requires next.denied == st.denied || next.denied == st.denied + {n}
    requires Blame(w, st, n, id) || (IsMain(w[n]) && w[n].bundle.id == id && BadChild(w, st, n, w[n].bundle))
          || (n in next.denied && !IsMain(w[n]) && w[n].bundle.id == id)
    ensures Blame(w, next, n + 1, id)
  {
    BadHelperStep(w, n, st, next, id);
    if i: nat :| i < n && i < |w| && IsMain(w[i]) && w[i].bundle.id == id && BadChild(w, st, i, w[i].bundle) {
      BadChildStep(w, n, st, next, i, w[i].bundle);
    }
    BadChildStep(w, n, st, next, n, w[n].bundle);
  }

  lemma {:induction false} StageHolds(w: seq<Write>, outcomes: seq<StageOutcome>, n: nat)
    requires Ordered(w) && n <= |w| == |outcomes| && Stage(w, outcomes, n).Ready?
    ensures StageFacts(w, outcomes, n, Stage(w, outcomes, n).st)
  {
    if n > 0 {
      StageHolds(w, outcomes, n - 1);
      StageStep(w, outcomes, n - 1, Stage(w, outcomes, n - 1).st, Stage(w, outcomes, n).st);
    }
  }

  lemma BelowChild(w: seq<Write>, i: nat, j: nat) returns (n: Name, k: nat)
    requires i < |w| && IsMain(w[i]) && ChildFirst(w, i)
    requires j < i && Below(w, j, w[i].bundle) && w[j].bundle.id != w[i].bundle.id
    ensures n in w[i].bundle.files2 && w[i].bundle.files2[n].App? && Below(w, j, w[i].bundle.files2[n].bundle)
    ensures j <= k < i && MainOf(w, k, w[i].bundle.files2[n].bundle)
    ensures w[k].bundle.id in Children(w[i].bundle)
  {
    var b := w[i].bundle;
    n :| n in b.files2 && b.files2[n].App? && w[j].bundle.id in Ids(b.files2[n].bundle);
    assert ChildSigned(w, i, b.files2[n].bundle) && Below(w, j, b.files2[n].bundle);
    k :| j <= k < i && MainOf(w, k, b.files2[n].bundle);
  }

  /** One executable that stays behind holds back every ancestor in the plan. */
  lemma {:induction false} TaintSpreads(w: seq<Write>, outcomes: seq<StageOutcome>, st: StageState, i: nat, j: nat)
    requires Ordered(w) && |w| == |outcomes| && StageFacts(w, outcomes, |w|, st)
    requires i < |w| && IsMain(w[i]) && j < i && Below(w, j, w[i].bundle) && Bad(w, st, j)
    ensures w[i].bundle.id in st.blocked
  {
    assert BundleFacts(w, |w|, st, w[i].bundle.id);
    if w[j].bundle.id == w[i].bundle.id {
      if IsMain(w[j]) {
        NoLateWrites(w, j, i);
      }
      assert BadHelper(w, st, |w|, w[i].bundle.id);
    } else {
      var n, k := BelowChild(w, i, j);
      if j < k {
        TaintSpreads(w, outcomes, st, k, j);
      }
      assert Bad(w, st, k);
      assert BadChild(w, st, i, w[i].bundle);
    }
  }

  /** Some allocation below `b`, other than that of its own executable, was denied. */
  ghost predicate Hindered(w: seq<Write>, outcomes: seq<StageOutcome>, b: Bundle)
    requires |w| == |outcomes|
  {
    exists j: nat ::
      Below(w, j, b) && w[j].file.MachO? && outcomes[j] == Denied && !(IsMain(w[j]) && w[j].bundle.id == b.id)
  }

  lemma {:induction false} BlameFound(w: seq<Write>, outcomes: seq<StageOutcome>, st: StageState, i: nat)
    requires Ordered(w) && |w| == |outcomes| && StageFacts(w, outcomes, |w|, st)
    requires i < |w| && IsMain(w[i]) && w[i].bundle.id in st.blocked
    ensures Hindered(w, outcomes, w[i].bundle)
    decreases i, 1
  {
    hide Bad, IndexFacts, ChildFirst;
    var b := w[i].bundle;
    assert BundleFacts(w, |w|, st, b.id);
    SelfId(b);
    if BadHelper(w, st, |w|, b.id) {
      HelperHinders(w, outcomes, st, b);
    } else {
      var m: nat :| m < |w| && IsMain(w[m]) && w[m].bundle.id == b.id && BadChild(w, st, m, w[m].bundle);
      OneMain(w, m, i);
      var j: nat :| j < i && Bad(w, st, j) && w[j].bundle.id in Children(b);
      hide StageFacts, BadHelper, BadChild, Ordered, Hindered;
      var name :| name in b.files2 && b.files2[name].App? && b.files2[name].bundle.id == w[j].bundle.id;
      var k := ChildMain(w, i, j, name);
      BlameChild(w, outcomes, st, i, j, k, name);
    }
  }

  lemma HelperHinders(w: seq<Write>, outcomes: seq<StageOutcome>, st: StageState, b: Bundle)
    requires |w| == |outcomes| && IndexFacts(w, outcomes, |w|, st) && BadHelper(w, st, |w|, b.id) && b.id in Ids(b)
    ensures Hindered(w, outcomes, b)
  {
    hide Ids, Bad;
    var j: nat :| j < |w| && j in st.denied && !IsMain(w[j]) && w[j].bundle.id == b.id;
    assert Below(w, j, b);
  }

  lemma OneMain(w: seq<Write>, m: nat, i: nat)
    requires Ordered(w) && m < |w| && i < |w| && IsMain(w[m]) && IsMain(w[i]) && w[m].bundle.id == w[i].bundle.id
    ensures m == i
  {
    if m < i {
      NoLateWrites(w, m, i);
    }
    if i < m {
      NoLateWrites(w, i, m);
    }
  }

  /** A child with any write before the main executable has its own executable in between. */
  lemma ChildMain(w: seq<Write>, i: nat, j: nat, name: Name) returns (k: nat)
    requires Ordered(w) && i < |w| && IsMain(w[i]) && j < i
    requires name in w[i].bundle.files2 && w[i].bundle.files2[name].App?
      && w[j].bundle.id == w[i].bundle.files2[name].bundle.id
    ensures j <= k < i && MainOf(w, k, w[i].bundle.files2[name].bundle)
  {
    var child := w[i].bundle.files2[name].bundle;
    ChildIds(w[i].bundle, name);
    hide Ids;
    assert Below(w, j, child) && ChildFirst(w, i) && ChildSigned(w, i, child);
    k :| j <= k < i && MainOf(w, k, child);
  }

  lemma NotAncestor(w: seq<Write>, k: nat, i: nat, d: nat)
    requires Ordered(w) && k < i < |w| && IsMain(w[k]) && Below(w, d, w[k].bundle)
    ensures w[d].bundle.id != w[i].bundle.id
  {
    assert Below(w, i, w[k].bundle) ==> i <= k;
  }

  lemma {:induction false} BlameChild(w: seq<Write>, outcomes: seq<StageOutcome>, st: StageState, i: nat, j: nat,
                                      k: nat, name: Name)
    requires Ordered(w) && |w| == |outcomes| && StageFacts(w, outcomes, |w|, st)
    requires i < |w| && IsMain(w[i]) && name in w[i].bundle.files2 && w[i].bundle.files2[name].App?
    requires j <= k < i && MainOf(w, k, w[i].bundle.files2[name].bundle)
    requires Bad(w, st, j) && w[j].bundle.id == w[k].bundle.id
    ensures Hindered(w, outcomes, w[i].bundle)
    decreases i, 0
  {
    var b, child := w[i].bundle, w[k].bundle;
    ChildIds(b, name);
    assert Below(w, k, b);
    assert w[k].bundle.id != b.id by {
      NoLateWrites(w, k, i);
    }
    if j in st.denied {
      assert Below(w, j, b);
    } else {
      BlameFound(w, outcomes, st, k);
      var d: nat :| Below(w, d, child) && w[d].file.MachO? && outcomes[d] == Denied
        && !(IsMain(w[d]) && w[d].bundle.id == child.id);
      assert Below(w, d, b);
      NotAncestor(w, k, i, d);
    }
  }

  ghost predicate PassedOver(w: seq<Write>, st: StageState, j: nat)
    requires j < |w|
  {
    Skipped(w[j], st) || j in st.denied
  }

  /** The commit phase works strictly in order: everything before a landed write landed or was passed over. */
  ghost predicate InOrder(w: seq<Write>, st: StageState, c: CommitState, k: nat)
    requires k <= |w|
  {
    && (forall i | i in c.landed :: i < k && !PassedOver(w, st, i))
    && (forall i, j: nat | i in c.landed && j < i :: j in c.landed || PassedOver(w, st, j))
    && (!c.stopped ==> forall j: nat | j < k :: j in c.landed || PassedOver(w, st, j))
  }

  lemma OrderNext(w: seq<Write>, st: StageState, c: CommitState, outcome: CommitOutcome, i: nat)
    requires i < |w| && InOrder(w, st, c, i)
    ensures InOrder(w, st, CommitWrite(w[i], i, outcome, st, c), i + 1)
  {
    hide Skipped;
    var next := CommitWrite(w[i], i, outcome, st, c);
    assert next.landed == c.landed || (next.landed == c.landed + {i} && !c.stopped && !PassedOver(w, st, i));
  }

  lemma {:induction false} CommitsInOrder(w: seq<Write>, st: StageState, outcomes: seq<CommitOutcome>, files: Files,
                                          k: nat)
    requires k <= |w| == |outcomes|
    ensures InOrder(w, st, Commit(w, st, outcomes, files, k), k)
  {
    hide InOrder, CommitWrite;
    if k == 0 {
      NothingLanded(w, st, files);
    } else {
      CommitsInOrder(w, st, outcomes, files, k - 1);
      OrderNext(w, st, Commit(w, st, outcomes, files, k - 1), outcomes[k - 1], k - 1);
    }
  }

  lemma NothingLanded(w: seq<Write>, st: StageState, files: Files)
    ensures InOrder(w, st, CommitState(files, {}, false), 0)
  {
  }

  /** A landed write stays on disk, and a file no write names is never touched. */
  ghost predicate DiskFollows(w: seq<Write>, files: Files, c: CommitState, k: nat)
    requires k <= |w|
  {
    && (forall j | j in c.landed :: j < k && TargetOf(w[j]) in c.files && c.files[TargetOf(w[j])] == w[j].file)
    && (forall target | target in files && (forall j | 0 <= j < k :: TargetOf(w[j]) != target) ::
          Kept(files, c.files, target))
    && (forall j | 0 <= j < k && w[j].file.MachO? && j !in c.landed && TargetOf(w[j]) in files ::
      Kept(files, c.files, TargetOf(w[j])))
  }

  ghost predicate Kept(before: Files, after: Files, target: Target) {
    target in before && target in after && after[target] == before[target]
  }

  /** One commit step touches its own target alone, and an executable only by replacing it. */
  ghost predicate Touches(w: Write, i: nat, c: CommitState, next: CommitState) {
    && next.landed in {c.landed, c.landed + {i}}
    && (i in next.landed ==> TargetOf(w) in next.files && next.files[TargetOf(w)] == w.file)
    && (i !in next.landed && w.file.MachO? ==> next.files == c.files)
    && forall target | target in c.files && target != TargetOf(w) :: Kept(c.files, next.files, target)
  }

  lemma OneCommit(w: Write, i: nat, outcome: CommitOutcome, st: StageState, c: CommitState)
    requires i !in c.landed && (w.file.MachO? && !Skipped(w, st) && i !in st.denied ==> i in st.prepared)
    ensures Touches(w, i, c, CommitWrite(w, i, outcome, st, c))
  {
    hide Skipped;
  }

  lemma FollowsOn(w: seq<Write>, files: Files, c: CommitState, next: CommitState, i: nat)
    requires i < |w| && DistinctTargets(w) && DiskFollows(w, files, c, i) && Touches(w[i], i, c, next)
    ensures DiskFollows(w, files, next, i + 1)
  {
    var k := i + 1;
    forall j | j in next.landed
      ensures j < k && TargetOf(w[j]) in next.files && next.files[TargetOf(w[j])] == w[j].file
    {
      if j != i {
        assert TargetOf(w[j]) != TargetOf(w[i]) && Kept(c.files, next.files, TargetOf(w[j]));
      }
    }
    forall target | target in files && (forall j | 0 <= j < k :: TargetOf(w[j]) != target)
      ensures Kept(files, next.files, target)
    {
      assert Kept(files, c.files, target) && Kept(c.files, next.files, target);
    }
    forall j | 0 <= j < k && w[j].file.MachO? && j !in next.landed && TargetOf(w[j]) in files
      ensures Kept(files, next.files, TargetOf(w[j]))
    {
      if j < i {
        assert Kept(files, c.files, TargetOf(w[j])) && Kept(c.files, next.files, TargetOf(w[j]));
      } else {
        assert Kept(files, c.files, TargetOf(w[i]));
      }
    }
  }

  lemma {:induction false} CommitsToDisk(w: seq<Write>, staging: seq<StageOutcome>, st: StageState,
                                         outcomes: seq<CommitOutcome>, files: Files, k: nat)
    requires k <= |w| == |outcomes| == |staging| && DistinctTargets(w) && IndexFacts(w, staging, |w|, st)
    ensures DiskFollows(w, files, Commit(w, st, outcomes, files, k), k)
  {
    if k > 0 {
      CommitsToDisk(w, staging, st, outcomes, files, k - 1);
      var i, c := k - 1, Commit(w, st, outcomes, files, k - 1);
      NotLandedYet(w, files, c, i);
      PreparedOtherwise(w, staging, st, i);
      hide DistinctTargets, DiskFollows, Touches, CommitWrite, IndexFacts;
      OneCommit(w[i], i, outcomes[i], st, c);
      FollowsOn(w, files, c, Commit(w, st, outcomes, files, k), i);
    }
  }

  lemma NotLandedYet(w: seq<Write>, files: Files, c: CommitState, i: nat)
    requires i <= |w| && DiskFollows(w, files, c, i)
    ensures i !in c.landed
  {
  }

  lemma PreparedOtherwise(w: seq<Write>, staging: seq<StageOutcome>, st: StageState, i: nat)
    requires i < |w| == |staging| && IndexFacts(w, staging, |w|, st)
    ensures w[i].file.MachO? && !Skipped(w[i], st) && i !in st.denied ==> i in st.prepared
  {
    assert w[i].file.MachO? ==> (i in st.prepared) != Bad(w, st, i);
  }

  /** Every write below a replaced executable has landed. */
  lemma TreeLanded(w: seq<Write>, staging: seq<StageOutcome>, st: StageState, c: CommitState, k: nat, i: nat, j: nat)
    requires Ordered(w) && |w| == |staging| && StageFacts(w, staging, |w|, st)
    requires k <= |w| && InOrder(w, st, c, k)
    requires i in c.landed && IsMain(w[i]) && Below(w, j, w[i].bundle)
    ensures j in c.landed && j <= i
  {
    var b, id := w[i].bundle, w[j].bundle.id;
    if j != i && PassedOver(w, st, j) {
      assert BundleFacts(w, |w|, st, id);
      assert BadBundle(w, st, |w|, id) by {
        if j in st.denied {
          assert Bad(w, st, j);
        }
      }
      var d: nat :| d < |w| && Bad(w, st, d) && w[d].bundle.id == id;
      assert Below(w, d, b);
      assert !Bad(w, st, i);
      TaintSpreads(w, staging, st, i, d);
    }
  }

  lemma {:induction false} NothingDenied(w: seq<Write>, outcomes: seq<StageOutcome>, n: nat)
    requires n <= |w| == |outcomes| && Stage(w, outcomes, n).Ready? && Stage(w, outcomes, n).st.denied == {}
    ensures Stage(w, outcomes, n).st.failed == {} && Stage(w, outcomes, n).st.blocked == {}
  {
    if n > 0 {
      NothingDenied(w, outcomes, n - 1);
    }
  }

  /**
   * Exactly which bundles are blocked: those with a denied allocation below them, or in a helper of
   * their own. Denial of the bundle's own executable does not count.
   */
  lemma BlockedExactly(w: seq<Write>, outcomes: seq<StageOutcome>, st: StageState, i: nat)
    requires Ordered(w) && |w| == |outcomes| && StageFacts(w, outcomes, |w|, st)
    requires i < |w| && IsMain(w[i])
    ensures w[i].bundle.id in st.blocked <==> Hindered(w, outcomes, w[i].bundle)
  {
    var b := w[i].bundle;
    if b.id in st.blocked {
      BlameFound(w, outcomes, st, i);
    }
    if Hindered(w, outcomes, b) {
      var j: nat :| Below(w, j, b) && w[j].file.MachO? && outcomes[j] == Denied
        && !(IsMain(w[j]) && w[j].bundle.id == b.id);
      assert Bad(w, st, j);
      TaintSpreads(w, outcomes, st, i, j);
    }
  }

  /** What a run without commit errors writes, told by the allocations alone. */
  ghost predicate ShouldLand(w: seq<Write>, outcomes: seq<StageOutcome>, j: nat)
    requires j < |w| == |outcomes|
  {
    if IsMain(w[j]) then
      outcomes[j] == Staged && !Hindered(w, outcomes, w[j].bundle)
    else if w[j].file.MachO? then
      outcomes[j] == Staged
    else
      !Hindered(w, outcomes, w[j].bundle)
  }
}
