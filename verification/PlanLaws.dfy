/** What every plan looks like, for bundle trees of any shape. */
module PlanLaws {
  import opened Sorting
  import opened Wrappers
  import opened SigningPlan

  /** The bundles of the tree under `b`, `b` included. */
  ghost function Ids(b: Bundle): set<nat> {
    {b.id} + set n, i | n in b.files2 && b.files2[n].App? && i in Ids(b.files2[n].bundle) :: i
  }

  /** What the scan guarantees: distinct bundles, and no file playing two roles. */
  ghost predicate WellFormed(b: Bundle) {
    && b.executable != b.resources
    && (forall n | n in b.files2 && b.files2[n].Helper? :: b.base + n != b.executable && b.base + n != b.resources)
    && (forall n | n in b.files2 && b.files2[n].App? ::
      WellFormed(b.files2[n].bundle) && b.id !in Ids(b.files2[n].bundle))
    && (forall n, m | n in b.files2 && m in b.files2 && n != m && b.files2[n].App? && b.files2[m].App? ::
          Ids(b.files2[n].bundle) !! Ids(b.files2[m].bundle))
  }

  predicate IsMain(w: Write) {
    w.file.MachO? && w.name == w.bundle.executable
  }

  predicate IsEnvelope(w: Write) {
    w.file.ResourceFile?
  }

  ghost predicate MainOf(w: seq<Write>, k: nat, b: Bundle) {
    k < |w| && IsMain(w[k]) && w[k].bundle == b
  }

  ghost predicate Below(w: seq<Write>, j: nat, b: Bundle) {
    j < |w| && w[j].bundle.id in Ids(b)
  }

  /** Every write below `child` is followed, before `i`, by the main executable of `child`. */
  ghost predicate ChildSigned(w: seq<Write>, i: nat, child: Bundle) {
    forall j: nat | Below(w, j, child) :: exists k :: j <= k < i && MainOf(w, k, child)
  }

  /**
   * The child-first discipline at the main executable `w[i]`: its envelope is the write just before,
   * nothing of its tree comes later, and a child with any write has its main executable in between.
   */
  ghost predicate ChildFirst(w: seq<Write>, i: nat)
    requires i < |w|
  {
    && i > 0 && IsEnvelope(w[i - 1]) && w[i - 1].bundle == w[i].bundle
    && (forall j: nat | Below(w, j, w[i].bundle) :: j <= i)
    && (forall n | n in w[i].bundle.files2 && w[i].bundle.files2[n].App? ::
      ChildSigned(w, i, w[i].bundle.files2[n].bundle))
  }

  ghost predicate DistinctTargets(w: seq<Write>) {
    forall i, j | 0 <= i < j < |w| :: TargetOf(w[i]) != TargetOf(w[j])
  }

  /** `code` is what `target` holds once all of `w` is written over a file that held `original`. */
  ghost predicate FinalCode(opts: Options, w: seq<Write>, target: Target, original: Code, code: Code) {
    if opts.dryRun then
      code == original
    else
      || (exists j :: 0 <= j < |w| && TargetOf(w[j]) == target && w[j].file == MachO(code))
      || (code == original && forall j | 0 <= j < |w| :: TargetOf(w[j]) != target)
  }

  ghost predicate SealedAs(t: Toolkit, opts: Options, w: seq<Write>, b: Bundle, name: Name, e: Entry)
    requires name in NestedNames(b)
  {
    e.Nested? && exists code ::
      t.seal(code) == Some(e.nested) && FinalCode(opts, w, NestedTarget(b, name), OriginalCode(b.files2[name]), code)
  }

  ghost predicate EnvelopeSealed(t: Toolkit, opts: Options, w: seq<Write>, b: Bundle, envelope: Envelope) {
    && envelope.files == b.files
    && envelope.files2.Keys == b.files2.Keys
    && forall n | n in b.files2 ::
      if IsNested(b.files2[n]) then SealedAs(t, opts, w, b, n, envelope.files2[n])
        else envelope.files2[n] == b.files2[n]
  }

  /**
   * Everything the executor and the disk need to know about a plan: it writes the complete bundles
   * `ids` and loose helpers of the bundles `loose`, whose own envelopes are still to come.
   */
  ghost predicate Shape(t: Toolkit, opts: Options, w: seq<Write>, ids: set<nat>, loose: set<nat>) {
    && (forall j | 0 <= j < |w| :: w[j].bundle.id in ids + loose)
    && (forall i: nat | i < |w| :: WriteOk(t, opts, w, i, ids))
    && DistinctTargets(w)
  }

  ghost predicate WriteOk(t: Toolkit, opts: Options, w: seq<Write>, i: nat, ids: set<nat>)
    requires i < |w|
  {
    && !w[i].file.Damaged?
    && (IsMain(w[i]) || IsEnvelope(w[i]) ==> Ids(w[i].bundle) <= ids)
    && (IsMain(w[i]) ==> ChildFirst(w, i))
    && (IsEnvelope(w[i]) ==> EnvelopeAt(t, opts, w, w[i]) && MainOf(w, i + 1, w[i].bundle))
  }

  ghost predicate EnvelopeAt(t: Toolkit, opts: Options, w: seq<Write>, e: Write)
    requires IsEnvelope(e)
  {
    e.name == e.bundle.resources && EnvelopeSealed(t, opts, w, e.bundle, e.file.envelope)
  }

  lemma ChildIds(b: Bundle, n: Name)
    requires n in b.files2 && b.files2[n].App?
    ensures b.files2[n].bundle.id in Ids(b.files2[n].bundle)
    ensures Ids(b.files2[n].bundle) <= Ids(b)
  {
  }

  lemma SelfId(b: Bundle)
    ensures b.id in Ids(b)
  {
  }

  lemma NestedTargetInside(b: Bundle, n: Name)
    requires n in NestedNames(b)
    ensures NestedTarget(b, n).0 in Ids(b)
  {
    if b.files2[n].App? {
      ChildIds(b, n);
    }
  }

  /** `u` sits inside `w` at `lo`. */
  ghost predicate Window(u: seq<Write>, w: seq<Write>, lo: nat) {
    lo + |u| <= |w| && w[lo..lo + |u|] == u
  }

  /** Outside its window, `w` leaves the bundles `ids` alone. */
  ghost predicate OnlyInside(u: seq<Write>, w: seq<Write>, lo: nat, ids: set<nat>) {
    forall j | 0 <= j < |w| && w[j].bundle.id in ids :: lo <= j < lo + |u|
  }

  lemma FinalCodeInWindow(opts: Options, u: seq<Write>, w: seq<Write>, lo: nat, target: Target, original: Code,
                          code: Code)
    requires FinalCode(opts, u, target, original, code)
    requires Window(u, w, lo)
    requires forall j | 0 <= j < |w| && TargetOf(w[j]) == target :: lo <= j < lo + |u|
    ensures FinalCode(opts, w, target, original, code)
  {
    if !opts.dryRun {
      if j :| 0 <= j < |u| && TargetOf(u[j]) == target && u[j].file == MachO(code) {
        assert w[lo + j] == u[j];
      } else {
        forall j | 0 <= j < |w|
          ensures TargetOf(w[j]) != target
        {
          if lo <= j < lo + |u| {
            assert u[j - lo] == w[j];
          }
        }
      }
    }
  }

  lemma SealedInWindow(t: Toolkit, opts: Options, u: seq<Write>, w: seq<Write>, lo: nat, b: Bundle, n: Name, e: Entry)
    requires n in NestedNames(b) && SealedAs(t, opts, u, b, n, e)
    requires Window(u, w, lo)
    requires forall j | 0 <= j < |w| && TargetOf(w[j]) == NestedTarget(b, n) :: lo <= j < lo + |u|
    ensures SealedAs(t, opts, w, b, n, e)
  {
    var target, original := NestedTarget(b, n), OriginalCode(b.files2[n]);
    var code :| t.seal(code) == Some(e.nested) && FinalCode(opts, u, target, original, code);
    FinalCodeInWindow(opts, u, w, lo, target, original, code);
  }

  lemma EnvelopeInWindow(t: Toolkit, opts: Options, u: seq<Write>, w: seq<Write>, lo: nat, e: Write)
    requires IsEnvelope(e) && EnvelopeAt(t, opts, u, e)
    requires Window(u, w, lo) && OnlyInside(u, w, lo, Ids(e.bundle))
    ensures EnvelopeAt(t, opts, w, e)
  {
    var b, f := e.bundle, e.file.envelope.files2;
    forall n | n in b.files2 && IsNested(b.files2[n])
      ensures SealedAs(t, opts, w, b, n, f[n])
    {
      NestedTargetInside(b, n);
      assert SealedAs(t, opts, u, b, n, f[n]);
      SealedInWindow(t, opts, u, w, lo, b, n, f[n]);
    }
  }

  lemma ChildSignedInWindow(u: seq<Write>, w: seq<Write>, lo: nat, i: nat, child: Bundle)
    requires ChildSigned(u, i, child)
    requires Window(u, w, lo) && OnlyInside(u, w, lo, Ids(child))
    ensures ChildSigned(w, lo + i, child)
  {
    forall j: nat | Below(w, j, child)
      ensures exists k :: j <= k < lo + i && MainOf(w, k, child)
    {
      assert Below(u, j - lo, child);
      var k :| j - lo <= k < i && MainOf(u, k, child);
      assert MainOf(w, lo + k, child);
    }
  }

  lemma ChildFirstInWindow(u: seq<Write>, w: seq<Write>, lo: nat, i: nat)
    requires i < |u| && ChildFirst(u, i)
    requires Window(u, w, lo) && OnlyInside(u, w, lo, Ids(u[i].bundle))
    ensures ChildFirst(w, lo + i)
  {
    var b := u[i].bundle;
    assert w[lo + i] == u[i] && w[lo + (i - 1)] == u[i - 1];
    forall j: nat | Below(w, j, b)
      ensures j <= lo + i
    {
      assert Below(u, j - lo, b);
    }
    forall n | n in b.files2 && b.files2[n].App?
      ensures ChildSigned(w, lo + i, b.files2[n].bundle)
    {
      ChildIds(b, n);
      ChildSignedInWindow(u, w, lo, i, b.files2[n].bundle);
    }
  }

  lemma WriteInWindow(t: Toolkit, opts: Options, u: seq<Write>, w: seq<Write>, lo: nat, i: nat, ids: set<nat>,
                      more: set<nat>)
    requires i < |u| && WriteOk(t, opts, u, i, ids)
    requires Window(u, w, lo) && OnlyInside(u, w, lo, ids)
    ensures WriteOk(t, opts, w, lo + i, ids + more)
  {
    assert w[lo + i] == u[i];
    if IsMain(u[i]) {
      ChildFirstInWindow(u, w, lo, i);
    }
    if IsEnvelope(u[i]) {
      EnvelopeInWindow(t, opts, u, w, lo, u[i]);
    }
  }

  /** Writes of other bundles do no harm to what came before. */
  lemma StaysOk(t: Toolkit, opts: Options, u: seq<Write>, v: seq<Write>, ids: set<nat>, more: set<nat>)
    requires forall i: nat | i < |u| :: WriteOk(t, opts, u, i, ids)
    requires forall j | 0 <= j < |v| :: v[j].bundle.id !in ids
    ensures forall i: nat | i < |u| :: WriteOk(t, opts, u + v, i, ids + more)
  {
    hide WriteOk;
    forall i: nat | i < |u|
      ensures WriteOk(t, opts, u + v, i, ids + more)
    {
      WriteInWindow(t, opts, u, u + v, 0, i, ids, more);
    }
  }

  /** Nor to what comes after. */
  lemma ComesOk(t: Toolkit, opts: Options, u: seq<Write>, v: seq<Write>, ids: set<nat>, more: set<nat>)
    requires forall i: nat | i < |v| :: WriteOk(t, opts, v, i, ids)
    requires forall j | 0 <= j < |u| :: u[j].bundle.id !in ids
    ensures forall i: nat | |u| <= i < |u + v| :: WriteOk(t, opts, u + v, i, ids + more)
  {
    hide WriteOk;
    forall i: nat | |u| <= i < |u + v|
      ensures WriteOk(t, opts, u + v, i, ids + more)
    {
      WriteInWindow(t, opts, v, u + v, |u|, i - |u|, ids, more);
    }
  }

  lemma ShapeAppend(t: Toolkit, opts: Options, u: seq<Write>, v: seq<Write>, ids: set<nat>, loose: set<nat>,
                    more: set<nat>)
    requires Shape(t, opts, u, ids, loose) && Shape(t, opts, v, more, {})
    requires more !! ids + loose
    ensures Shape(t, opts, u + v, ids + more, loose)
  {
    hide WriteOk;
    StaysOk(t, opts, u, v, ids, more);
    ComesOk(t, opts, u, v, more, ids);
    assert more + ids == ids + more;
  }

  lemma ShapeAppendHelper(t: Toolkit, opts: Options, u: seq<Write>, ids: set<nat>, h: Write)
    requires Shape(t, opts, u, ids, {h.bundle.id}) && h.bundle.id !in ids
    requires h.file.MachO? && !IsMain(h)
    requires forall j | 0 <= j < |u| :: TargetOf(u[j]) != TargetOf(h)
    ensures Shape(t, opts, u + [h], ids, {h.bundle.id})
  {
    StaysOk(t, opts, u, [h], ids, {});
    assert ids + {} == ids;
    hide ChildFirst, EnvelopeAt, Ids;
  }

  /** The bundles below the first `n` names. */
  ghost function DoneIds(b: Bundle, names: seq<Name>, n: nat): set<nat>
    requires n <= |names| && AllNested(b, names)
  {
    set k, i | 0 <= k < n && b.files2[names[k]].App? && i in Ids(b.files2[names[k]].bundle) :: i
  }

  /** What the loop over nested names knows after `n` of them. */
  ghost predicate NestedFacts(t: Toolkit, b: Bundle, opts: Options, names: seq<Name>, n: nat, st: NestedState)
    requires n <= |names| && AllNested(b, names)
  {
    && Shape(t, opts, st.writes, DoneIds(b, names, n), {b.id})
    && (forall j | 0 <= j < |st.writes| && st.writes[j].bundle.id == b.id ::
      HelperAmong(b, names, n, st.writes[j].name))
    && (st.Going? ==> st.files2.Keys == b.files2.Keys)
    && (st.Going? ==> forall m | m in b.files2 && m !in names[..n] :: st.files2[m] == b.files2[m])
    && (st.Going? && !st.metadata ==> forall k: nat | k < n :: NameDone(t, opts, st, b, names[k]))
  }

  ghost predicate HelperAmong(b: Bundle, names: seq<Name>, n: nat, name: Name)
    requires n <= |names| && AllNested(b, names)
  {
    exists k: nat :: k < n && b.files2[names[k]].Helper? && name == b.base + names[k]
  }

  ghost predicate NameDone(t: Toolkit, opts: Options, st: NestedState, b: Bundle, name: Name)
    requires name in NestedNames(b) && st.Going? && st.files2.Keys == b.files2.Keys
  {
    && SealedAs(t, opts, st.writes, b, name, st.files2[name])
    && (b.files2[name].App? ==> ChildSigned(st.writes, |st.writes|, b.files2[name].bundle))
  }

  /** The writes `v` serve only the nested object `name`. */
  ghost predicate ServesOnly(b: Bundle, name: Name, v: seq<Write>)
    requires name in NestedNames(b)
  {
    forall j | 0 <= j < |v| ::
      if b.files2[name].App? then v[j].bundle.id in Ids(b.files2[name].bundle)
        else TargetOf(v[j]) == (b.id, b.base + name)
  }

  lemma OthersUntouched(b: Bundle, name: Name, v: seq<Write>, other: Name, j: nat)
    requires WellFormed(b) && name in NestedNames(b) && other in NestedNames(b) && name != other
    requires ServesOnly(b, name, v) && j < |v|
    ensures TargetOf(v[j]) != NestedTarget(b, other)
    ensures b.files2[other].App? ==> v[j].bundle.id !in Ids(b.files2[other].bundle)
  {
    if b.files2[other].App? {
      ChildIds(b, other);
    } else if b.files2[name].Helper? {
      assert (b.base + name)[|b.base|..] == name && (b.base + other)[|b.base|..] == other;
    }
  }

  lemma DoneKept(t: Toolkit, b: Bundle, opts: Options, name: Name, st: NestedState, v: seq<Write>, next: NestedState,
                 other: Name)
    requires WellFormed(b) && name in NestedNames(b) && other in NestedNames(b) && name != other
    requires ServesOnly(b, name, v)
    requires st.Going? && next.Going? && st.files2.Keys == next.files2.Keys == b.files2.Keys
    requires next.writes == st.writes + v && next.files2[other] == st.files2[other]
    requires NameDone(t, opts, st, b, other)
    ensures NameDone(t, opts, next, b, other)
  {
    var u, w := st.writes, next.writes;
    forall j | |u| <= j < |w|
      ensures TargetOf(w[j]) != NestedTarget(b, other)
      ensures b.files2[other].App? ==> w[j].bundle.id !in Ids(b.files2[other].bundle)
    {
      OthersUntouched(b, name, v, other, j - |u|);
    }
    SealedInWindow(t, opts, u, w, 0, b, other, st.files2[other]);
    if b.files2[other].App? {
      ChildSignedInWindow(u, w, 0, |u|, b.files2[other].bundle);
    }
  }

  /** What one nested object may add to the plan of `b`. */
  ghost predicate StepWrites(t: Toolkit, b: Bundle, opts: Options, name: Name, v: seq<Write>)
    requires name in NestedNames(b)
  {
    v == [] || match b.files2[name] {
                 case App(child) => Shape(t, opts, v, Ids(child), {})
                 case _ => |v| == 1 && v[0].file.MachO? && v[0].name == b.base + name && v[0].bundle == b
               }
  }

  lemma AppStep(t: Toolkit, b: Bundle, opts: Options, names: seq<Name>, n: nat, u: seq<Write>, v: seq<Write>)
    requires WellFormed(b) && AllNested(b, names) && Distinct(names) && n < |names| && b.files2[names[n]].App?
    requires Shape(t, opts, u, DoneIds(b, names, n), {b.id})
    requires Shape(t, opts, v, Ids(b.files2[names[n]].bundle), {})
    ensures Shape(t, opts, u + v, DoneIds(b, names, n + 1), {b.id})
  {
    hide Shape;
    var done, child := DoneIds(b, names, n), b.files2[names[n]].bundle;
    assert DoneIds(b, names, n + 1) == done + Ids(child);
    assert forall k | 0 <= k < n && b.files2[names[k]].App? :: Ids(b.files2[names[k]].bundle) !! Ids(child);
    ShapeAppend(t, opts, u, v, done, {b.id}, Ids(child));
  }

  lemma NameAt(b: Bundle, names: seq<Name>, n: nat)
    requires AllNested(b, names) && n < |names|
    ensures names[n] in NestedNames(b) && names[n] in b.files2 && IsNested(b.files2[names[n]])
  {
  }

  lemma HelperOther(b: Bundle, names: seq<Name>, n: nat, name: Name)
    requires AllNested(b, names) && Distinct(names) && n < |names| && HelperAmong(b, names, n, name)
    ensures name != b.base + names[n]
  {
    var k: nat :| k < n && b.files2[names[k]].Helper? && name == b.base + names[k];
    assert (b.base + names[k])[|b.base|..] == names[k] && (b.base + names[n])[|b.base|..] == names[n];
  }

  lemma NotADoneId(b: Bundle, names: seq<Name>, n: nat)
    requires WellFormed(b) && AllNested(b, names) && n <= |names|
    ensures b.id !in DoneIds(b, names, n)
  {
  }

  /** A nested object is not where its bundle's own executable or envelope is. */
  lemma NotMain(b: Bundle, n: Name)
    requires WellFormed(b) && n in NestedNames(b)
    ensures NestedTarget(b, n) != (b.id, b.resources) && NestedTarget(b, n) != (b.id, b.executable)
  {
    if b.files2[n].App? {
      SelfId(b.files2[n].bundle);
    }
  }

  lemma DoneIdsApart(b: Bundle, names: seq<Name>, n: nat, id: nat)
    requires WellFormed(b) && AllNested(b, names) && Distinct(names) && n < |names|
    requires id in DoneIds(b, names, n) && b.files2[names[n]].App?
    ensures id !in Ids(b.files2[names[n]].bundle)
  {
    hide Ids;
  }

  lemma HelperStep(t: Toolkit, b: Bundle, opts: Options, names: seq<Name>, n: nat, u: seq<Write>, h: Write)
    requires WellFormed(b) && AllNested(b, names) && Distinct(names) && n < |names| && b.files2[names[n]].Helper?
    requires Shape(t, opts, u, DoneIds(b, names, n), {b.id})
    requires forall j | 0 <= j < |u| && u[j].bundle.id == b.id :: HelperAmong(b, names, n, u[j].name)
    requires h.file.MachO? && h.name == b.base + names[n] && h.bundle == b
    ensures Shape(t, opts, u + [h], DoneIds(b, names, n + 1), {b.id})
  {
    hide Shape, HelperAmong, WellFormed, AllNested, Distinct, DoneIds, Ids, NestedTarget, IsMain;
    HelperAddsNoBundle(b, names, n);
    NotADoneId(b, names, n);
    HelperIsNew(b, names, n, u, h);
    ShapeAppendHelper(t, opts, u, DoneIds(b, names, n), h);
  }

  lemma HelperAddsNoBundle(b: Bundle, names: seq<Name>, n: nat)
    requires AllNested(b, names) && n < |names| && b.files2[names[n]].Helper?
    ensures DoneIds(b, names, n + 1) == DoneIds(b, names, n)
  {
    hide Ids;
  }

  lemma HelperIsNew(b: Bundle, names: seq<Name>, n: nat, u: seq<Write>, h: Write)
    requires WellFormed(b) && AllNested(b, names) && Distinct(names) && n < |names| && b.files2[names[n]].Helper?
    requires forall j | 0 <= j < |u| && u[j].bundle.id == b.id :: HelperAmong(b, names, n, u[j].name)
    requires h.file.MachO? && h.name == b.base + names[n] && h.bundle == b
    ensures !IsMain(h) && forall j | 0 <= j < |u| :: TargetOf(u[j]) != TargetOf(h)
  {
    NameAt(b, names, n);
    NotMain(b, names[n]);
    hide WellFormed, AllNested, Distinct, HelperAmong, Ids;
    forall j | 0 <= j < |u|
      ensures TargetOf(u[j]) != TargetOf(h)
    {
      if u[j].bundle.id == b.id {
        HelperOther(b, names, n, u[j].name);
      }
    }
  }

  lemma EmptyStep(t: Toolkit, b: Bundle, opts: Options, names: seq<Name>, n: nat, u: seq<Write>)
    requires AllNested(b, names) && n < |names|
    requires Shape(t, opts, u, DoneIds(b, names, n), {b.id})
    ensures Shape(t, opts, u, DoneIds(b, names, n + 1), {b.id})
  {
    hide ChildFirst, EnvelopeAt;
    var done, more := DoneIds(b, names, n), DoneIds(b, names, n + 1);
    assert done <= more;
    forall i: nat | i < |u|
      ensures WriteOk(t, opts, u, i, more)
    {
      assert WriteOk(t, opts, u, i, done);
    }
  }

  lemma ServesItsName(t: Toolkit, b: Bundle, opts: Options, names: seq<Name>, n: nat, u: seq<Write>, v: seq<Write>)
    requires WellFormed(b) && AllNested(b, names) && n < |names|
    requires forall j | 0 <= j < |u| && u[j].bundle.id == b.id :: HelperAmong(b, names, n, u[j].name)
    requires StepWrites(t, b, opts, names[n], v)
    ensures ServesOnly(b, names[n], v)
    ensures forall j | 0 <= j < |u + v| && (u + v)[j].bundle.id == b.id :: HelperAmong(b, names, n + 1, (u + v)[j].name)
  {
    hide WriteOk, DistinctTargets;
    forall j | 0 <= j < |u + v| && (u + v)[j].bundle.id == b.id
      ensures HelperAmong(b, names, n + 1, (u + v)[j].name)
    {
      if j < |u| {
        assert HelperAmong(b, names, n, u[j].name);
      }
    }
  }

  /** The step appends `v` for `names[n]`: the shape is kept. */
  lemma StepShape(t: Toolkit, b: Bundle, opts: Options, names: seq<Name>, n: nat, u: seq<Write>, v: seq<Write>)
    requires WellFormed(b) && AllNested(b, names) && Distinct(names) && n < |names|
    requires Shape(t, opts, u, DoneIds(b, names, n), {b.id})
    requires forall j | 0 <= j < |u| && u[j].bundle.id == b.id :: HelperAmong(b, names, n, u[j].name)
    requires StepWrites(t, b, opts, names[n], v)
    ensures ServesOnly(b, names[n], v)
    ensures Shape(t, opts, u + v, DoneIds(b, names, n + 1), {b.id})
    ensures forall j | 0 <= j < |u + v| && (u + v)[j].bundle.id == b.id :: HelperAmong(b, names, n + 1, (u + v)[j].name)
  {
    ServesItsName(t, b, opts, names, n, u, v);
    hide Shape, HelperAmong, ServesOnly;
    if v == [] {
      EmptyStep(t, b, opts, names, n, u);
      assert u + v == u;
    } else if b.files2[names[n]].App? {
      AppStep(t, b, opts, names, n, u, v);
    } else {
      HelperStep(t, b, opts, names, n, u, v[0]);
      assert v == [v[0]];
    }
  }

  /** A signed plan of `b` ends with the executable of `b`. */
  ghost predicate Complete(w: seq<Write>, b: Bundle) {
    |w| > 0 && IsMain(w[|w| - 1]) && w[|w| - 1].bundle == b
  }

  ghost predicate PlanFacts(t: Toolkit, b: Bundle, opts: Options, plan: Plan) {
    && Shape(t, opts, plan.writes, Ids(b), {})
    && (plan.Signed? ==> Complete(plan.writes, b) && plan.writes[|plan.writes| - 1].file == MachO(plan.out))
  }

  /** What the writes `v` leave as the code of the nested object `name`. */
  ghost predicate StagedFor(t: Toolkit, b: Bundle, opts: Options, name: Name, data: Code, v: seq<Write>)
    requires name in NestedNames(b)
  {
    match b.files2[name]
    case Helper(code) => (v == [] && data == code) || v == [Write(b, b.base + name, MachO(data))]
    case App(child) => (v == [] && data == child.code) || PlanFacts(t, child, opts, Signed(data, v))
  }

  /** The step's own name is done once its seal is taken. */
  lemma SealFacts(t: Toolkit, b: Bundle, opts: Options, names: seq<Name>, n: nat, st: NestedState, data: Code,
                  v: seq<Write>)
    requires WellFormed(b) && AllNested(b, names) && Distinct(names) && n < |names|
    requires st.Going? && NestedFacts(t, b, opts, names, n, st)
    requires StagedFor(t, b, opts, names[n], data, v)
    ensures NestedFacts(t, b, opts, names, n + 1,
      SealName(t, opts, st, names[n], OriginalCode(b.files2[names[n]]), data, v))
  {
    hide Shape, HelperAmong, NameDone, WellFormed, Complete;
    var name, e := names[n], b.files2[names[n]];
    var next := SealName(t, opts, st, name, OriginalCode(e), data, v);
    StepShape(t, b, opts, names, n, st.writes, v);
    HaltedHolds(t, b, opts, names, n, st);
    NewlyDone(t, b, opts, names, n, st, data, v);
    hide ServesOnly, OriginalCode, IsNested, DoneIds, PlanFacts;
    if next.Going? {
      DoneOnwards(t, b, opts, names, n, st, v, next);
    }
  }

  /** The names before keep their seals. */
  lemma DoneOnwards(t: Toolkit, b: Bundle, opts: Options, names: seq<Name>, n: nat, st: NestedState, v: seq<Write>,
                    next: NestedState)
    requires WellFormed(b) && AllNested(b, names) && Distinct(names) && n < |names|
    requires st.Going? && next.Going? && NestedFacts(t, b, opts, names, n, st) && ServesOnly(b, names[n], v)
    requires next.writes == st.writes + v && next.metadata == st.metadata
      && OnlyChanged(names[n], st.files2, next.files2)
    ensures !next.metadata ==> forall k: nat | k < n :: NameDone(t, opts, next, b, names[k])
  {
    hide Shape, HelperAmong, NameDone, WellFormed, ServesOnly;
    if !next.metadata {
      forall k: nat | k < n
        ensures NameDone(t, opts, next, b, names[k])
      {
        DoneKept(t, b, opts, names[n], st, v, next, names[k]);
      }
    }
  }

  lemma NewlyDone(t: Toolkit, b: Bundle, opts: Options, names: seq<Name>, n: nat, st: NestedState, data: Code,
                  v: seq<Write>)
    requires WellFormed(b) && AllNested(b, names) && Distinct(names) && n < |names|
    requires st.Going? && NestedFacts(t, b, opts, names, n, st)
    requires StagedFor(t, b, opts, names[n], data, v)
    ensures var next := SealName(t, opts, st, names[n], OriginalCode(b.files2[names[n]]), data, v);
      next.Going? ==> NameDone(t, opts, next, b, names[n])
  {
    NameAt(b, names, n);
    var name := names[n];
    assert st.files2.Keys == b.files2.Keys;
    hide Shape, WellFormed, AllNested, Distinct, NestedFacts, FinalCode, NestedTarget, PlanFacts, ChildSigned,
      StagedFor, Elsewhere;
    EarlierElsewhere(t, b, opts, names, n, st);
    FinalIsStaged(t, b, opts, name, st.writes, data, v);
    if b.files2[name].App? {
      StagedIsSigned(t, b, opts, name, st.writes, data, v);
    }
  }

  /** Nothing planned so far concerns the nested object whose turn it is. */
  ghost predicate Elsewhere(b: Bundle, name: Name, u: seq<Write>)
    requires name in NestedNames(b)
  {
    forall j | 0 <= j < |u| ::
      TargetOf(u[j]) != NestedTarget(b, name) && (b.files2[name].App? ==> u[j].bundle.id !in Ids(b.files2[name].bundle))
  }

  lemma EarlierElsewhere(t: Toolkit, b: Bundle, opts: Options, names: seq<Name>, n: nat, st: NestedState)
    requires WellFormed(b) && AllNested(b, names) && Distinct(names) && n < |names|
    requires NestedFacts(t, b, opts, names, n, st)
    ensures Elsewhere(b, names[n], st.writes)
  {
    hide WriteOk, DistinctTargets, WellFormed, Distinct, HelperAmong, NameDone, DoneIds, Ids, NestedTarget;
    forall j | 0 <= j < |st.writes|
      ensures TargetOf(st.writes[j]) != NestedTarget(b, names[n])
      ensures b.files2[names[n]].App? ==> st.writes[j].bundle.id !in Ids(b.files2[names[n]].bundle)
    {
      BeforeStep(b, names, n, st.writes, j);
    }
  }

  lemma FinalIsStaged(t: Toolkit, b: Bundle, opts: Options, name: Name, u: seq<Write>, data: Code, v: seq<Write>)
    requires name in NestedNames(b) && Elsewhere(b, name, u) && StagedFor(t, b, opts, name, data, v)
    ensures var original := OriginalCode(b.files2[name]);
      FinalCode(opts, u + v, NestedTarget(b, name), original, if opts.dryRun then original else data)
  {
    hide Shape, Ids;
    var w, target := u + v, NestedTarget(b, name);
    if v == [] {
      assert w == u;
    } else {
      var last := |w| - 1;
      assert w[last] == v[|v| - 1] && TargetOf(w[last]) == target && w[last].file == MachO(data);
    }
  }

  lemma StagedIsSigned(t: Toolkit, b: Bundle, opts: Options, name: Name, u: seq<Write>, data: Code, v: seq<Write>)
    requires name in NestedNames(b) && b.files2[name].App? && Elsewhere(b, name, u)
      && StagedFor(t, b, opts, name, data, v)
    ensures ChildSigned(u + v, |u + v|, b.files2[name].bundle)
  {
    hide Shape, Ids, NestedTarget;
    var w, child := u + v, b.files2[name].bundle;
    forall j: nat | Below(w, j, child)
      ensures exists k :: j <= k < |w| && MainOf(w, k, child)
    {
      assert j >= |u|;
      assert w[|w| - 1] == v[|v| - 1] && MainOf(w, |w| - 1, child);
    }
  }

  lemma BeforeStep(b: Bundle, names: seq<Name>, n: nat, u: seq<Write>, j: nat)
    requires WellFormed(b) && AllNested(b, names) && Distinct(names) && n < |names| && j < |u|
    requires u[j].bundle.id in DoneIds(b, names, n) + {b.id}
    requires u[j].bundle.id == b.id ==> HelperAmong(b, names, n, u[j].name)
    ensures TargetOf(u[j]) != NestedTarget(b, names[n])
    ensures b.files2[names[n]].App? ==> u[j].bundle.id !in Ids(b.files2[names[n]].bundle)
  {
    NameAt(b, names, n);
    NotADoneId(b, names, n);
    if b.files2[names[n]].App? {
      ChildIds(b, names[n]);
      SelfId(b.files2[names[n]].bundle);
    }
    hide WellFormed, AllNested, Distinct, DoneIds, HelperAmong, Ids;
    if u[j].bundle.id == b.id {
      HelperOther(b, names, n, u[j].name);
    } else if b.files2[names[n]].App? {
      DoneIdsApart(b, names, n, u[j].bundle.id);
    }
  }

  lemma {:induction false} NestedHolds(t: Toolkit, b: Bundle, opts: Options, names: seq<Name>, n: nat)
    requires WellFormed(b) && AllNested(b, names) && Distinct(names) && n <= |names|
    ensures NestedFacts(t, b, opts, names, n, PlanNested(t, b, opts, names, n))
    decreases b, 0, n
  {
    hide StepName, NestedFacts, WellFormed, Distinct;
    if n == 0 {
      NestedStart(t, b, opts, names);
    } else {
      NestedHolds(t, b, opts, names, n - 1);
      var st := PlanNested(t, b, opts, names, n - 1);
      if st.Going? {
        StepHolds(t, b, opts, names, n - 1, st);
      } else {
        HaltedHolds(t, b, opts, names, n - 1, st);
        HaltedStays(t, b, opts, names, n - 1, n);
        assert st == Halted(st.writes);
      }
    }
  }

  lemma NestedStart(t: Toolkit, b: Bundle, opts: Options, names: seq<Name>)
    requires AllNested(b, names)
    ensures NestedFacts(t, b, opts, names, 0, PlanNested(t, b, opts, names, 0))
  {
  }

  /** A child that was not signed still hands over the writes it has. */
  lemma UnsignedChild(t: Toolkit, b: Bundle, opts: Options, names: seq<Name>, n: nat, st: NestedState, plan: Plan)
    requires WellFormed(b) && AllNested(b, names) && Distinct(names) && n < |names|
    requires st.Going? && NestedFacts(t, b, opts, names, n, st)
    requires b.files2[names[n]].App? && PlanFacts(t, b.files2[names[n]].bundle, opts, plan)
    ensures NestedFacts(t, b, opts, names, n + 1, Going(st.writes + plan.writes, st.files2, true))
    ensures NestedFacts(t, b, opts, names, n + 1, Halted(st.writes + plan.writes))
  {
    hide Shape, HelperAmong, NameDone, Complete;
    StepShape(t, b, opts, names, n, st.writes, plan.writes);
  }

  lemma EmptyShape(t: Toolkit, opts: Options, ids: set<nat>, loose: set<nat>)
    ensures Shape(t, opts, [], ids, loose)
  {
  }

  lemma EmptyStepWrites(t: Toolkit, b: Bundle, opts: Options, name: Name)
    requires name in NestedNames(b)
    ensures StepWrites(t, b, opts, name, [])
  {
    hide Shape;
  }

  lemma HaltedHolds(t: Toolkit, b: Bundle, opts: Options, names: seq<Name>, n: nat, st: NestedState)
    requires WellFormed(b) && AllNested(b, names) && Distinct(names) && n < |names|
    requires NestedFacts(t, b, opts, names, n, st)
    ensures NestedFacts(t, b, opts, names, n + 1, Halted(st.writes))
    ensures NestedFacts(t, b, opts, names, n + 1, Halted([]))
    ensures st.Going? ==> NestedFacts(t, b, opts, names, n + 1, st.(metadata := true))
  {
    hide Shape, HelperAmong, NameDone, WellFormed, Distinct, DoneIds;
    EmptyShape(t, opts, DoneIds(b, names, n + 1), {b.id});
    EmptyStepWrites(t, b, opts, names[n]);
    StepShape(t, b, opts, names, n, st.writes, []);
    assert st.writes + [] == st.writes;
  }

  lemma {:induction false} StepHolds(t: Toolkit, b: Bundle, opts: Options, names: seq<Name>, n: nat, st: NestedState)
    requires WellFormed(b) && AllNested(b, names) && Distinct(names) && n < |names|
    requires st.Going? && NestedFacts(t, b, opts, names, n, st)
    ensures NestedFacts(t, b, opts, names, n + 1, StepName(t, b, opts, st, names[n]))
    decreases b, 0, n, 0
  {
    hide NestedFacts, PlanFacts, PlanNested, StepName, Distinct;
    NameAt(b, names, n);
    match b.files2[names[n]] {
      case Helper(code) =>
        HelperHolds(t, b, opts, names, n, st, code);
      case App(child) =>
        PlanHolds(t, child, opts, true);
        AppHolds(t, b, opts, names, n, st, child);
    }
  }

  lemma HelperHolds(t: Toolkit, b: Bundle, opts: Options, names: seq<Name>, n: nat, st: NestedState, code: Code)
    requires WellFormed(b) && AllNested(b, names) && Distinct(names) && n < |names|
    requires st.Going? && NestedFacts(t, b, opts, names, n, st)
    requires names[n] in b.files2 && b.files2[names[n]] == Helper(code)
    ensures NestedFacts(t, b, opts, names, n + 1, StepName(t, b, opts, st, names[n]))
  {
    hide NestedFacts, PlanBundle, SealName, WellFormed, Distinct, SignHelper;
    HaltedHolds(t, b, opts, names, n, st);
    SealFacts(t, b, opts, names, n, st, code, []);
    var out := SignHelper(t, b, opts, names[n], code);
    if out.Some? {
      SealFacts(t, b, opts, names, n, st, out.value, [Write(b, b.base + names[n], MachO(out.value))]);
    }
  }

  lemma AppHolds(t: Toolkit, b: Bundle, opts: Options, names: seq<Name>, n: nat, st: NestedState, child: Bundle)
    requires WellFormed(b) && AllNested(b, names) && Distinct(names) && n < |names|
    requires st.Going? && NestedFacts(t, b, opts, names, n, st)
    requires names[n] in b.files2 && b.files2[names[n]] == App(child)
      && PlanFacts(t, child, opts, PlanBundle(t, child, opts, true))
    ensures NestedFacts(t, b, opts, names, n + 1, StepName(t, b, opts, st, names[n]))
  {
    hide NestedFacts, PlanFacts, PlanBundle, SealName, WellFormed, Distinct;
    HaltedHolds(t, b, opts, names, n, st);
    SealFacts(t, b, opts, names, n, st, child.code, []);
    var plan := PlanBundle(t, child, opts, true);
    UnsignedChild(t, b, opts, names, n, st, plan);
    if plan.Signed? {
      SealFacts(t, b, opts, names, n, st, plan.out, plan.writes);
    }
  }

  lemma DoneInside(b: Bundle, names: seq<Name>, n: nat)
    requires AllNested(b, names) && n <= |names|
    ensures DoneIds(b, names, n) <= Ids(b)
  {
  }

  lemma NothingPlanned(t: Toolkit, b: Bundle, opts: Options)
    ensures Shape(t, opts, [], Ids(b), {})
  {
  }

  lemma Widen(t: Toolkit, b: Bundle, opts: Options, names: seq<Name>, st: NestedState)
    requires AllNested(b, names)
    requires NestedFacts(t, b, opts, names, |names|, st)
    ensures Shape(t, opts, st.writes, Ids(b), {})
  {
    hide ChildFirst, EnvelopeAt;
    var w := st.writes;
    DoneInside(b, names, |names|);
    forall i: nat | i < |w|
      ensures WriteOk(t, opts, w, i, Ids(b))
    {
      assert WriteOk(t, opts, w, i, DoneIds(b, names, |names|));
    }
  }

  /** The envelope and the executable close the plan of `b`. */
  lemma MainHolds(t: Toolkit, b: Bundle, opts: Options, names: seq<Name>, st: NestedState, out: Code)
    requires WellFormed(b) && AllNested(b, names)
    requires forall n :: n in NestedNames(b) ==> n in names
    requires st.Going? && !st.metadata && NestedFacts(t, b, opts, names, |names|, st)
    ensures PlanFacts(t, b, opts, Signed(out, st.writes + MainWrites(b, Envelope(b.files, st.files2), out)))
  {
    hide WriteOk, NestedFacts, DistinctTargets, WellFormed, Ids;
    var u, ends := st.writes, MainWrites(b, Envelope(b.files, st.files2), out);
    EndsDistinct(t, b, opts, names, st, ends);
    EarlierOk(t, b, opts, names, st, ends);
    EndsOk(t, b, opts, names, st, out);
    assert b.id in Ids(b) by {
      SelfId(b);
    }
  }

  lemma EarlierOk(t: Toolkit, b: Bundle, opts: Options, names: seq<Name>, st: NestedState, ends: seq<Write>)
    requires WellFormed(b) && AllNested(b, names)
    requires NestedFacts(t, b, opts, names, |names|, st)
    requires forall j | 0 <= j < |ends| :: ends[j].bundle == b
    ensures forall i: nat | i < |st.writes| :: WriteOk(t, opts, st.writes + ends, i, Ids(b))
    ensures forall j | 0 <= j < |st.writes| :: st.writes[j].bundle.id in Ids(b)
  {
    hide WriteOk, HelperAmong, NameDone, DistinctTargets;
    var u, ids := st.writes, DoneIds(b, names, |names|);
    DoneInside(b, names, |names|);
    NotADoneId(b, names, |names|);
    SelfId(b);
    assert Shape(t, opts, u, ids, {b.id});
    hide WellFormed, AllNested, DoneIds, Ids, NestedFacts;
    assert ids + Ids(b) == Ids(b);
    StaysOk(t, opts, u, ends, ids, Ids(b));
  }

  lemma EndsOk(t: Toolkit, b: Bundle, opts: Options, names: seq<Name>, st: NestedState, out: Code)
    requires WellFormed(b) && AllNested(b, names)
    requires forall n :: n in NestedNames(b) ==> n in names
    requires st.Going? && !st.metadata && NestedFacts(t, b, opts, names, |names|, st)
    ensures var w := st.writes + MainWrites(b, Envelope(b.files, st.files2), out);
      WriteOk(t, opts, w, |w| - 2, Ids(b)) && WriteOk(t, opts, w, |w| - 1, Ids(b))
  {
    hide EnvelopeSealed, ChildFirst, NestedFacts;
    var u, ends := st.writes, MainWrites(b, Envelope(b.files, st.files2), out);
    var w := u + ends;
    MainEnvelope(t, b, opts, names, st, ends);
    MainChildFirst(t, b, opts, names, st, ends);
    assert w[|u|] == ends[0] && w[|u| + 1] == ends[1];
  }

  lemma EndsDistinct(t: Toolkit, b: Bundle, opts: Options, names: seq<Name>, st: NestedState, ends: seq<Write>)
    requires WellFormed(b) && AllNested(b, names)
    requires NestedFacts(t, b, opts, names, |names|, st)
    requires |ends| == 2 && TargetOf(ends[0]) == (b.id, b.resources) && TargetOf(ends[1]) == (b.id, b.executable)
    ensures DistinctTargets(st.writes + ends)
  {
    hide WriteOk, NameDone, HelperAmong;
    var u := st.writes;
    forall j | 0 <= j < |u|
      ensures TargetOf(u[j]) != TargetOf(ends[0]) && TargetOf(u[j]) != TargetOf(ends[1])
    {
      if u[j].bundle.id == b.id {
        NotAHelper(b, names, u[j].name);
      }
    }
  }

  lemma NotAHelper(b: Bundle, names: seq<Name>, name: Name)
    requires WellFormed(b) && AllNested(b, names) && HelperAmong(b, names, |names|, name)
    ensures name != b.resources && name != b.executable
  {
  }

  lemma MainChildFirst(t: Toolkit, b: Bundle, opts: Options, names: seq<Name>, st: NestedState, ends: seq<Write>)
    requires WellFormed(b) && AllNested(b, names)
    requires forall n :: n in NestedNames(b) ==> n in names
    requires st.Going? && !st.metadata && NestedFacts(t, b, opts, names, |names|, st)
    requires |ends| == 2 && IsEnvelope(ends[0]) && ends[0].bundle == ends[1].bundle == b
    ensures ChildFirst(st.writes + ends, |st.writes| + 1)
  {
    hide NestedFacts, WellFormed, Ids, AllNested, ChildSigned;
    var w := st.writes + ends;
    assert w[|st.writes|] == ends[0] && w[|st.writes| + 1] == ends[1];
    forall n | n in b.files2 && b.files2[n].App?
      ensures ChildSigned(w, |w| - 1, b.files2[n].bundle)
    {
      ChildLast(t, b, opts, names, st, ends, n);
    }
  }

  lemma MainEnvelope(t: Toolkit, b: Bundle, opts: Options, names: seq<Name>, st: NestedState, ends: seq<Write>)
    requires WellFormed(b) && AllNested(b, names)
    requires forall n :: n in NestedNames(b) ==> n in names
    requires st.Going? && !st.metadata && NestedFacts(t, b, opts, names, |names|, st)
    requires forall j | 0 <= j < |ends| ::
      TargetOf(ends[j]) == (b.id, b.resources) || TargetOf(ends[j]) == (b.id, b.executable)
    ensures EnvelopeSealed(t, opts, st.writes + ends, b, Envelope(b.files, st.files2))
  {
    FactsAtEnd(t, b, opts, names, st);
    hide NestedFacts, WellFormed, AllNested, SealedAs;
    var u, w := st.writes, st.writes + ends;
    forall n | n in NestedNames(b)
      ensures SealedAs(t, opts, w, b, n, st.files2[n])
    {
      NotMain(b, n);
      SealedInWindow(t, opts, u, w, 0, b, n, st.files2[n]);
    }
  }

  /** Once all names are done, every nested entry is sealed and every other entry is as it was. */
  lemma FactsAtEnd(t: Toolkit, b: Bundle, opts: Options, names: seq<Name>, st: NestedState)
    requires AllNested(b, names) && forall n :: n in NestedNames(b) ==> n in names
    requires st.Going? && !st.metadata && NestedFacts(t, b, opts, names, |names|, st)
    ensures st.files2.Keys == b.files2.Keys
    ensures forall n | n in NestedNames(b) ::
      NameDone(t, opts, st, b, n) && SealedAs(t, opts, st.writes, b, n, st.files2[n])
    ensures forall n | n in b.files2 && !IsNested(b.files2[n]) :: st.files2[n] == b.files2[n]
  {
    hide Shape, HelperAmong, SealedAs, ChildSigned;
    assert names[..|names|] == names;
    forall n | n in NestedNames(b)
      ensures NameDone(t, opts, st, b, n)
    {
      var k: nat :| k < |names| && names[k] == n;
    }
    forall n | n in b.files2 && !IsNested(b.files2[n])
      ensures n !in names
    {
      forall k | 0 <= k < |names|
        ensures names[k] != n
      {
        NameAt(b, names, k);
      }
    }
  }

  lemma ChildLast(t: Toolkit, b: Bundle, opts: Options, names: seq<Name>, st: NestedState, ends: seq<Write>, n: Name)
    requires WellFormed(b) && AllNested(b, names) && n in names && b.files2[n].App?
    requires st.Going? && !st.metadata && NestedFacts(t, b, opts, names, |names|, st)
    requires |ends| == 2 && forall j | 0 <= j < |ends| :: ends[j].bundle.id == b.id
    ensures ChildSigned(st.writes + ends, |st.writes + ends| - 1, b.files2[n].bundle)
  {
    var u, w, child := st.writes, st.writes + ends, b.files2[n].bundle;
    var k: nat :| k < |names| && names[k] == n;
    assert NameDone(t, opts, st, b, names[k]);
    ChildSignedInWindow(u, w, 0, |u|, child);
    assert |u| <= |w| - 1;
  }

  /** Every plan has the shape, signed or not; a signed plan ends with the bundle's own executable. */
  lemma {:induction false} PlanHolds(t: Toolkit, b: Bundle, opts: Options, forceMain: bool)
    requires WellFormed(b)
    ensures PlanFacts(t, b, opts, PlanBundle(t, b, opts, forceMain))
    decreases b, 1, 0, 0
  {
    hide NestedFacts, Shape, Complete, WellFormed, Ids, AllNested, Distinct;
    var plan := PlanBundle(t, b, opts, forceMain);
    if b.preflightFailed {
      NothingPlanned(t, b, opts);
    } else {
      var names := SortedNames(b);
      NestedHolds(t, b, opts, names, |names|);
      var st := PlanNested(t, b, opts, names, |names|);
      NothingPlanned(t, b, opts);
      Widen(t, b, opts, names, st);
      if plan.Signed? {
        NamesDistinct(NestedNames(b), names);
        MainHolds(t, b, opts, names, st, plan.out);
      }
    }
  }

  ghost function Tree(b: Bundle): set<Bundle> {
    {b} + set n, d | n in b.files2 && b.files2[n].App? && d in Tree(b.files2[n].bundle) :: d
  }

  ghost predicate Within(w: seq<Write>, b: Bundle) {
    forall j | 0 <= j < |w| :: w[j].bundle in Tree(b)
  }

  lemma WithinUp(w: seq<Write>, b: Bundle, n: Name)
    requires n in b.files2 && b.files2[n].App? && Within(w, b.files2[n].bundle)
    ensures Within(w, b)
  {
    forall j | 0 <= j < |w|
      ensures w[j].bundle in Tree(b)
    {
      assert w[j].bundle in Tree(b.files2[n].bundle);
    }
  }

  lemma WithinAppend(u: seq<Write>, v: seq<Write>, b: Bundle)
    requires Within(u, b) && Within(v, b)
    ensures Within(u + v, b)
  {
    hide Tree;
  }

  lemma WithinSelf(b: Bundle)
    ensures Within([], b) && forall name, file :: Within([Write(b, name, file)], b)
    ensures forall envelope, out :: Within(MainWrites(b, envelope, out), b)
  {
    assert b in Tree(b);
    hide Tree;
  }

  lemma StepWithin(t: Toolkit, b: Bundle, opts: Options, st: NestedState, name: Name)
    requires name in NestedNames(b) && Within(st.writes, b)
    requires b.files2[name].App? ==> Within(PlanBundle(t, b.files2[name].bundle, opts, true).writes, b)
    ensures Within(StepName(t, b, opts, st, name).writes, b)
  {
    hide PlanBundle, SignHelper, Within, Tree;
    WithinSelf(b);
    WithinAppend(st.writes, [], b);
    match b.files2[name] {
      case Helper(code) =>
        var out := SignHelper(t, b, opts, name, code);
        if out.Some? {
          WithinAppend(st.writes, [Write(b, b.base + name, MachO(out.value))], b);
        }
      case App(child) =>
        WithinAppend(st.writes, PlanBundle(t, child, opts, true).writes, b);
    }
  }

  lemma {:induction false} NestedWithin(t: Toolkit, b: Bundle, opts: Options, names: seq<Name>, n: nat)
    requires AllNested(b, names) && n <= |names|
    ensures Within(PlanNested(t, b, opts, names, n).writes, b)
    decreases b, 0, n
  {
    hide PlanBundle, StepName, Within;
    if n == 0 {
      WithinSelf(b);
    } else {
      NestedWithin(t, b, opts, names, n - 1);
      NameAt(b, names, n - 1);
      var name := names[n - 1];
      if b.files2[name].App? {
        PlanWithin(t, b.files2[name].bundle, opts, true);
        WithinUp(PlanBundle(t, b.files2[name].bundle, opts, true).writes, b, name);
      }
      StepWithin(t, b, opts, PlanNested(t, b, opts, names, n - 1), name);
    }
  }

  /** A plan writes only to bundles of its tree. */
  lemma {:induction false} PlanWithin(t: Toolkit, b: Bundle, opts: Options, forceMain: bool)
    ensures Within(PlanBundle(t, b, opts, forceMain).writes, b)
    decreases b, 1, 0
  {
    hide PlanNested, Within, SortedNames, MainWrites, SignMain;
    WithinSelf(b);
    if !b.preflightFailed {
      var names := SortedNames(b);
      NestedWithin(t, b, opts, names, |names|);
      var st, plan := PlanNested(t, b, opts, names, |names|), PlanBundle(t, b, opts, forceMain);
      if plan.Signed? {
        WithinAppend(st.writes, MainWrites(b, Envelope(b.files, st.files2), plan.out), b);
      }
    }
  }
}
