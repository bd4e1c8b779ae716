/** Certificate policy, bounded path building to a caller's root, and the order-free CMS chain. */
module CertificatePath {
  import opened ByteStrings
  import opened Wrappers

  type Raw = Bytes
  type Oid = string

  const CODE_SIGNING: Oid := "1.3.6.1.5.5.7.3.3"
  const ANY_PURPOSE: Oid := "2.5.29.37.0"
  const MAX_VISITS := 256
  const MAX_PATH := 32
  const MAX_POOL := 64

  /** Extensions by identifier, with their decoded values; None stands for a value that does not decode. */
  datatype Extension =
    | KeyUsage(bits: Option<set<nat>>)
    | BasicConstraints(limits: Option<Limits>)
    | ExtendedKeyUsage(purposes: Option<seq<Oid>>)
    | PathConstraint
    | AppleMarker(isNull: bool)
    | OtherExtension(critical: bool)

  datatype Limits = Limits(ca: bool, pathLen: int)

  datatype Certificate = Certificate(
    raw: Raw, subject: Bytes, issuer: Bytes, version: int, notBefore: int, notAfter: int, extensions: seq<Extension>)

  /** Parsing, signature arithmetic, and whether the names of a certificate can be put in words. */
  datatype Crypto = Crypto(
    parse: Raw -> Option<Certificate>, verifies: (Certificate, Certificate) -> bool, describes: Certificate -> bool)

  /** Parsing keeps the bytes and refuses repeated extensions. */
  ghost predicate Sound(k: Crypto) {
    forall raw :: k.parse(raw).Some? ==> k.parse(raw).value.raw == raw && Parsed(k.parse(raw).value)
  }

  ghost predicate Parsed(c: Certificate) {
    forall i, j | 0 <= i < j < |c.extensions| ::
      !(c.extensions[i].BasicConstraints? && c.extensions[j].BasicConstraints?)
  }

  predicate SelfIssued(c: Certificate) {
    c.issuer == c.subject
  }

  predicate SignedBy(k: Crypto, child: Certificate, parent: Certificate) {
    child.issuer == parent.subject && k.verifies(child, parent)
  }

  predicate ExtensionAllowed(e: Extension, ca: bool, purpose: Oid) {
    match e
    case KeyUsage(bits) => bits.Some? && (if ca then 5 else 0) in bits.value
    case BasicConstraints(limits) => limits.Some? && limits.value.pathLen >= -1
      && (limits.value.ca || limits.value.pathLen == -1)
    case ExtendedKeyUsage(purposes) => purposes.Some? && (purpose in purposes.value || ANY_PURPOSE in purposes.value)
    case PathConstraint => false
    case AppleMarker(isNull) => isNull
    case OtherExtension(critical) => !critical
  }

  /** Section 4.2.1.9 of RFC 5280: a CA says so, and bounds the CAs that follow it towards the leaf. */
  ghost predicate AuthorityFor(c: Certificate, below: nat) {
    && c.version == 2
    && exists i :: 0 <= i < |c.extensions| && AuthorityExtension(c.extensions[i], below)
  }

  predicate AuthorityExtension(e: Extension, below: nat) {
    e.BasicConstraints? && e.limits.Some? && e.limits.value.ca
      && (e.limits.value.pathLen >= 0 ==> below <= e.limits.value.pathLen)
  }

  ghost predicate Accepts(c: Certificate, at: int, ca: bool, below: nat, purpose: Oid) {
    && c.notBefore <= at <= c.notAfter
    && (forall i | 0 <= i < |c.extensions| :: ExtensionAllowed(c.extensions[i], ca, purpose))
    && (ca ==> AuthorityFor(c, below))
  }

  method CertificatePolicyFor(c: Certificate, at: int, ca: bool, below: nat, purpose: Oid) returns (ok: bool)
    requires Parsed(c)
    ensures ok <==> Accepts(c, at, ca, below, purpose)
  {
    if at < c.notBefore || at > c.notAfter {
      return false;
    }
    var constraints := Limits(false, -1);
    ghost var from := -1;
    for n := 0 to |c.extensions|
      invariant forall i | 0 <= i < n :: ExtensionAllowed(c.extensions[i], ca, purpose)
      invariant from == -1 ==> constraints == Limits(false, -1) && forall i | 0 <= i < n ::
        !c.extensions[i].BasicConstraints?
      invariant from != -1 ==> 0 <= from < n && c.extensions[from] == BasicConstraints(Some(constraints))
    {
      match c.extensions[n] {
        case KeyUsage(bits) =>
          var bit := if ca then 5 else 0;
          if bits.None? || bit !in bits.value {
            return false;
          }
        case BasicConstraints(limits) =>
          if limits.None? {
            return false;
          }
          constraints, from := limits.value, n;
          if constraints.pathLen < -1 || (!constraints.ca && constraints.pathLen != -1) {
            return false;
          }
        case ExtendedKeyUsage(purposes) =>
          if purposes.None? {
            return false;
          }
          var allowed := PermitsPurpose(purposes.value, purpose);
          if !allowed {
            return false;
          }
        case PathConstraint =>
          return false;
        case AppleMarker(isNull) =>
          if !isNull {
            return false;
          }
        case OtherExtension(critical) =>
          if critical {
            return false;
          }
      }
    }
    ok := !(ca && (!constraints.ca || c.version != 2 || (constraints.pathLen >= 0 && below > constraints.pathLen)));
  }

  method PermitsPurpose(purposes: seq<Oid>, purpose: Oid) returns (allowed: bool)
    ensures allowed <==> purpose in purposes || ANY_PURPOSE in purposes
  {
    allowed := false;
    for i := 0 to |purposes|
      invariant allowed <==> purpose in purposes[..i] || ANY_PURPOSE in purposes[..i]
    {
      allowed := allowed || purposes[i] == purpose || purposes[i] == ANY_PURPOSE;
    }
  }

  /** CAs strictly between the leaf and the last certificate, self-issued ones not counted. */
  ghost function CasBelow(path: seq<Certificate>): nat {
    if |path| <= 2 then
      0
    else
      CasBelow(path[..|path| - 1]) + if SelfIssued(path[|path| - 2]) then 0 else 1
  }

  /** The path-length count of section 4.2.1.9 of RFC 5280: non-self-issued intermediates, leaf excluded. */
  lemma {:induction false} CasBelowCounts(path: seq<Certificate>)
    ensures CasBelow(path) == |set i: nat | 1 <= i < |path| - 1 && !SelfIssued(path[i])|
  {
    var counted := set i: nat | 1 <= i < |path| - 1 && !SelfIssued(path[i]);
    if |path| <= 2 {
      assert counted == {};
    } else {
      var shorter, last := path[..|path| - 1], |path| - 2;
      CasBelowCounts(shorter);
      var before := set i: nat | 1 <= i < |shorter| - 1 && !SelfIssued(shorter[i]);
      assert counted == if SelfIssued(path[last]) then before else before + {last};
    }
  }

  datatype Anchoring = Anchoring(k: Crypto, roots: set<Raw>, pool: seq<Certificate>, at: int, purpose: Oid)

  /** `path[i]` signed the certificate before it, is new to the path, and may vouch for what is below it. */
  ghost predicate StepOk(k: Crypto, at: int, purpose: Oid, path: seq<Certificate>, i: nat)
    requires 0 < i < |path|
  {
    && SignedBy(k, path[i - 1], path[i])
    && (forall j | 0 <= j < i :: path[j].raw != path[i].raw)
    && Accepts(path[i], at, true, CasBelow(path[..i + 1]), purpose)
  }

  /** `path[i]` may follow in a path: a new certificate of the pool that signed the one before it. */
  ghost predicate LinkOk(a: Anchoring, path: seq<Certificate>, i: nat)
    requires 0 < i < |path|
  {
    path[i] in a.pool && StepOk(a.k, a.at, a.purpose, path, i)
  }

  ghost predicate Linked(a: Anchoring, path: seq<Certificate>) {
    path != [] && forall i: nat | 0 < i < |path| :: LinkOk(a, path, i)
  }

  /** A path from its first certificate to a root, in the terms of section 6.1 of RFC 5280. */
  ghost predicate Trusted(a: Anchoring, path: seq<Certificate>) {
    && Linked(a, path) && |path| <= MAX_PATH
    && path[|path| - 1].raw in a.roots
    && Accepts(path[|path| - 1], a.at, true, CasBelow(path), a.purpose)
  }

  ghost predicate NoneTrusted(a: Anchoring, prefix: seq<Certificate>) {
    forall path | prefix <= path :: !Trusted(a, path)
  }

  /** A path to a root that does not pass another on the way, from its certificate `n` on. */
  ghost predicate Candidate(a: Anchoring, path: seq<Certificate>, n: nat) {
    Trusted(a, path) && OnlyLastIsRoot(a, path, n)
  }

  ghost predicate Extends(a: Anchoring, path: seq<Certificate>, q: seq<Certificate>)
    requires path != []
  {
    path <= q && Candidate(a, q, |path| - 1)
  }

  /** The first place of `x`, or the length of `s`. */
  ghost function Place<T>(s: seq<T>, x: T): nat {
    if s == [] || s[0] == x then 0 else 1 + Place(s[1..], x)
  }

  lemma {:induction false} PlaceIs<T>(s: seq<T>, x: T, n: nat)
    requires n < |s| && s[n] == x && forall m | 0 <= m < n :: s[m] != x
    ensures Place(s, x) == n
  {
    if n > 0 {
      PlaceIs(s[1..], x, n - 1);
    }
  }

  lemma {:induction false} PlaceAfter<T>(s: seq<T>, x: T, n: nat)
    requires n <= |s| && forall m | 0 <= m < n :: s[m] != x
    ensures Place(s, x) >= n
  {
    if n > 0 {
      PlaceAfter(s[1..], x, n - 1);
    }
  }

  lemma {:induction false} PlaceFound<T>(s: seq<T>, x: T)
    requires x in s
    ensures Place(s, x) < |s| && s[Place(s, x)] == x && forall m | 0 <= m < Place(s, x) :: s[m] != x
  {
    if s[0] != x {
      PlaceFound(s[1..], x);
    }
  }

  /** Where the paths first differ, `p` takes the certificate that comes earlier in the pool. */
  ghost predicate Ahead(a: Anchoring, p: seq<Certificate>, q: seq<Certificate>) {
    exists k :: AheadAt(a.pool, p, q, k)
  }

  ghost predicate AheadAt(pool: seq<Certificate>, p: seq<Certificate>, q: seq<Certificate>, k: nat) {
    k < |p| && k < |q| && p[..k] == q[..k] && Place(pool, p[k]) < Place(pool, q[k])
  }

  /** Of all candidates that extend `path`, the first in the order of the pool. */
  ghost predicate FirstFrom(a: Anchoring, path: seq<Certificate>, full: seq<Certificate>)
    requires path != []
  {
    && Extends(a, path, full)
    && forall q | Extends(a, path, q) :: q == full || Ahead(a, full, q)
  }

  ghost predicate NoneFrom(a: Anchoring, path: seq<Certificate>)
    requires path != []
  {
    forall q :: !Extends(a, path, q)
  }

  /** The candidate found by way of the pool's certificate `n`, when no earlier one leads to a root. */
  lemma FirstByTurn(a: Anchoring, path: seq<Certificate>, n: nat, full: seq<Certificate>)
    requires path != [] && path[|path| - 1].raw !in a.roots && n < |a.pool|
    requires FirstFrom(a, path + [a.pool[n]], full)
    requires forall m | 0 <= m < n :: NoneTrusted(a, path + [a.pool[m]])
    ensures FirstFrom(a, path, full)
  {
    hide Trusted, Place;
    var parent := a.pool[n];
    assert path <= full && full[|path|] == parent;
    forall m | 0 <= m < n
      ensures a.pool[m] != parent
    {
      assert NoneTrusted(a, path + [a.pool[m]]) && Trusted(a, full);
    }
    PlaceIs(a.pool, parent, n);
    forall q | Extends(a, path, q)
      ensures q == full || Ahead(a, full, q)
    {
      TurnAhead(a, path, n, full, q);
    }
  }

  lemma TurnAhead(a: Anchoring, path: seq<Certificate>, n: nat, full: seq<Certificate>, q: seq<Certificate>)
    requires path != [] && path[|path| - 1].raw !in a.roots && n < |a.pool| && Place(a.pool, a.pool[n]) == n
    requires FirstFrom(a, path + [a.pool[n]], full)
    requires forall m | 0 <= m < n :: NoneTrusted(a, path + [a.pool[m]])
    requires Extends(a, path, q)
    ensures q == full || Ahead(a, full, q)
  {
    assert path != q by { assert path[|path| - 1] == q[|path| - 1]; }
    hide Place, Accepts, LinkOk, CasBelow;
    var c := q[|path|];
    if c == a.pool[n] {
      assert path + [c] <= q && Extends(a, path + [a.pool[n]], q);
    } else {
      forall m | 0 <= m < n
        ensures a.pool[m] != c
      {
        assert NoneTrusted(a, path + [a.pool[m]]) && Trusted(a, q);
        assert path + [c] <= q;
      }
      PlaceElsewhere(a.pool, c, n);
      assert full[..|path|] == path == q[..|path|] && full[|path|] == a.pool[n];
      assert AheadAt(a.pool, full, q, |path|);
    }
  }

  lemma PlaceElsewhere<T>(s: seq<T>, x: T, n: nat)
    requires n < |s| && forall m | 0 <= m <= n :: s[m] != x
    ensures Place(s, x) > n
  {
    PlaceAfter(s, x, n + 1);
  }

  lemma CasBelowStep(path: seq<Certificate>, parent: Certificate)
    requires path != []
    ensures CasBelow(path + [parent]) == CasBelow(path) + if |path| > 1 && !SelfIssued(path[|path| - 1]) then 1 else 0
  {
    assert (path + [parent])[..|path|] == path;
  }

  lemma LinkedStep(a: Anchoring, path: seq<Certificate>, parent: Certificate)
    requires Linked(a, path) && parent in a.pool && SignedBy(a.k, path[|path| - 1], parent)
    requires forall j | 0 <= j < |path| :: path[j].raw != parent.raw
    requires Accepts(parent, a.at, true, CasBelow(path + [parent]), a.purpose)
    ensures Linked(a, path + [parent])
  {
    hide Accepts, CasBelow, SignedBy, LinkOk;
    var longer := path + [parent];
    LastLink(a, path, parent);
    forall i: nat | 0 < i < |longer|
      ensures LinkOk(a, longer, i)
    {
      if i < |path| {
        EarlierLink(a, path, parent, i);
      }
    }
  }

  lemma LastLink(a: Anchoring, path: seq<Certificate>, parent: Certificate)
    requires path != [] && parent in a.pool && SignedBy(a.k, path[|path| - 1], parent)
    requires forall j | 0 <= j < |path| :: path[j].raw != parent.raw
    requires Accepts(parent, a.at, true, CasBelow(path + [parent]), a.purpose)
    ensures LinkOk(a, path + [parent], |path|)
  {
    hide Accepts, CasBelow, SignedBy;
    assert (path + [parent])[..|path| + 1] == path + [parent];
  }

  lemma EarlierLink(a: Anchoring, path: seq<Certificate>, parent: Certificate, i: nat)
    requires 0 < i < |path| && LinkOk(a, path, i)
    ensures LinkOk(a, path + [parent], i)
  {
    hide Accepts, CasBelow, SignedBy;
    assert (path + [parent])[..i + 1] == path[..i + 1];
  }

  lemma NextAccepted(a: Anchoring, path: seq<Certificate>, parent: Certificate, full: seq<Certificate>)
    requires path != [] && path + [parent] <= full && Linked(a, full)
    ensures parent in a.pool && SignedBy(a.k, path[|path| - 1], parent)
    ensures forall j | 0 <= j < |path| :: path[j].raw != parent.raw
    ensures Accepts(parent, a.at, true, CasBelow(path + [parent]), a.purpose)
  {
    hide Accepts, CasBelow, SignedBy;
    assert LinkOk(a, full, |path|);
    assert full[..|path| + 1] == path + [parent];
    assert full[|path|] == parent && full[|path| - 1] == path[|path| - 1];
    forall j | 0 <= j < |path|
      ensures path[j].raw != parent.raw
    {
      assert full[j] == path[j];
    }
  }

  /** A certificate that fails one of the checks cannot come next. */
  lemma RejectedParent(a: Anchoring, path: seq<Certificate>, parent: Certificate)
    requires path != []
    requires !SignedBy(a.k, path[|path| - 1], parent) || (exists j :: 0 <= j < |path| && path[j].raw == parent.raw)
          || !Accepts(parent, a.at, true, CasBelow(path + [parent]), a.purpose)
    ensures NoneTrusted(a, path + [parent])
    ensures forall full | path + [parent] <= full :: !Linked(a, full)
  {
    hide Accepts, CasBelow, SignedBy, LinkOk;
    forall full | path + [parent] <= full
      ensures !Linked(a, full)
    {
      if Linked(a, full) {
        NextAccepted(a, path, parent, full);
      }
    }
  }

  lemma NextInPool(a: Anchoring, path: seq<Certificate>, full: seq<Certificate>) returns (m: nat)
    requires path != [] && path < full && Linked(a, full)
    ensures m < |a.pool| && path + [a.pool[m]] <= full
  {
    assert LinkOk(a, full, |path|);
    m :| m < |a.pool| && a.pool[m] == full[|path|];
  }

  /** When no parent of the pool leads to a root, and the path does not end in one, nothing does. */
  lemma Exhausted(a: Anchoring, path: seq<Certificate>)
    requires path != [] && path[|path| - 1].raw !in a.roots
    requires forall m | 0 <= m < |a.pool| :: NoneTrusted(a, path + [a.pool[m]])
    ensures NoneTrusted(a, path)
  {
    forall full | path <= full
      ensures !Trusted(a, full)
    {
      if path < full && Linked(a, full) {
        var m := NextInPool(a, path, full);
        assert NoneTrusted(a, path + [a.pool[m]]);
      }
    }
  }

  /** A root that is reached over a link has already been accepted as an authority. */
  lemma RefusedRoot(a: Anchoring, path: seq<Certificate>)
    requires Linked(a, path) && |path| > 1
    ensures Accepts(path[|path| - 1], a.at, true, CasBelow(path), a.purpose)
  {
    assert LinkOk(a, path, |path| - 1) && path[..|path|] == path;
  }

  /** Nothing goes on from a root. */
  lemma RootEnds(a: Anchoring, path: seq<Certificate>)
    requires Linked(a, path) && path[|path| - 1].raw in a.roots && |path| <= MAX_PATH
    ensures if Accepts(path[|path| - 1], a.at, true, CasBelow(path), a.purpose) then FirstFrom(a, path, path)
            else NoneFrom(a, path)
  {
    hide Accepts, CasBelow, LinkOk;
    forall q | Extends(a, path, q)
      ensures q == path
    {
      assert q[|path| - 1] == path[|path| - 1];
      assert |q| == |path|;
    }
  }

  function Min(x: nat, y: nat): nat {
    if x < y then x else y
  }

  /** `n` finished branches took the count from `from` to `to`: only calls within the limit branch out. */
  ghost predicate Budget(pool: nat, from: nat, to: nat, n: nat) {
    from <= to <= from + n + pool * (Min(MAX_VISITS, to) - Min(MAX_VISITS, from))
  }

  lemma BudgetStep(pool: nat, from: nat, mid: nat, to: nat, n: nat)
    requires Budget(pool, from, mid, n) && Budget(pool, mid, to, 1)
    ensures Budget(pool, from, to, n + 1)
  {
    var x, y := Min(MAX_VISITS, mid) - Min(MAX_VISITS, from), Min(MAX_VISITS, to) - Min(MAX_VISITS, mid);
    assert pool * x + pool * y == pool * (x + y);
  }

  lemma BudgetCall(pool: nat, from: nat, to: nat, n: nat)
    requires Budget(pool, from + 1, to, n) && n <= pool && from < MAX_VISITS
    ensures Budget(pool, from, to, 1)
  {
    var x := Min(MAX_VISITS, to) - Min(MAX_VISITS, from + 1);
    assert pool + pool * x == pool * (x + 1);
  }

  /** A path the search may come to: it passes no root, and is at most one certificate too long. */
  ghost predicate Open(a: Anchoring, path: seq<Certificate>) {
    Linked(a, path) && |path| <= MAX_PATH + 1 && OnlyLastIsRoot(a, path, 0)
  }

  /** The search comes to `p` first: on the way to `q`, or by an earlier certificate of the pool. */
  ghost predicate Before(a: Anchoring, p: seq<Certificate>, q: seq<Certificate>) {
    p != q && (p <= q || Ahead(a, p, q))
  }

  ghost predicate Unrepeated(pool: seq<Certificate>) {
    forall i | 0 <= i < |pool| :: Place(pool, pool[i]) == i
  }

  /** `seen` holds the paths of the calls within the limit, each exactly once: the first ones, in order. */
  ghost predicate InTurn(a: Anchoring, path: seq<Certificate>, from: nat, to: nat, seen: set<seq<Certificate>>) {
    && |seen| == Min(MAX_VISITS, to) - Min(MAX_VISITS, from)
    && (forall q | q in seen :: path <= q && Open(a, q))
    && (forall p, q | q in seen && path <= p && Open(a, p) && Before(a, p, q) :: p in seen)
    && (from <= MAX_VISITS < to ==> exists p :: path <= p && Open(a, p) && p !in seen)
  }

  /** What a search from `path` has seen when it ends: all there is, or all up to the chain it found. */
  ghost predicate Explored(a: Anchoring, path: seq<Certificate>, from: nat, to: nat, seen: set<seq<Certificate>>,
                           found: Option<seq<Certificate>>)
  {
    && InTurn(a, path, from, to, seen)
    && (forall q | q in seen && Candidate(a, q, 0) :: found == Some(q))
    && (found.None? && to <= MAX_VISITS ==> forall p | path <= p && Open(a, p) :: p in seen)
    && (found.Some? ==> found.value in seen && forall q | q in seen :: q == found.value || Before(a, q, found.value))
  }

  /** The turn of the loop that leads from `path` towards `q`. */
  ghost function Turn(a: Anchoring, path: seq<Certificate>, q: seq<Certificate>): nat
    requires path < q
  {
    Place(a.pool, q[|path|])
  }

  /** After `n` turns of the loop without a chain. */
  ghost predicate ExploredSoFar(a: Anchoring, path: seq<Certificate>, n: nat, from: nat, to: nat,
                                seen: set<seq<Certificate>>)
  {
    && InTurn(a, path, from, to, seen)
    && (forall q | q in seen :: !Candidate(a, q, 0) && (q == path || (path < q && Turn(a, path, q) < n)))
    && (to <= MAX_VISITS ==> forall p | path <= p && Open(a, p) && (p == path || Turn(a, path, p) < n) :: p in seen)
  }

  lemma NotBeforePrefix(a: Anchoring, path: seq<Certificate>, p: seq<Certificate>)
    requires path <= p
    ensures !Before(a, p, path)
  {
    hide Place;
    assert forall i | 0 <= i < |path| :: p[i] == path[i];
  }

  lemma BeforeByTurn(a: Anchoring, path: seq<Certificate>, p: seq<Certificate>, q: seq<Certificate>)
    requires path < p && path < q && Before(a, p, q)
    ensures Turn(a, path, p) <= Turn(a, path, q)
  {
    hide Place;
    assert forall i | 0 <= i < |path| :: p[i] == path[i] == q[i];
    if !(p <= q) {
      var k: nat :| AheadAt(a.pool, p, q, k);
      if k > |path| {
        assert p[..k][|path|] == p[|path|] && q[..k][|path|] == q[|path|];
      }
    }
  }

  lemma TurnsAhead(a: Anchoring, path: seq<Certificate>, p: seq<Certificate>, q: seq<Certificate>)
    requires path < p && path < q && Turn(a, path, p) < Turn(a, path, q)
    ensures Before(a, p, q)
  {
    hide Place;
    assert p[..|path|] == path == q[..|path|];
    assert AheadAt(a.pool, p, q, |path|);
  }

  /** The search has just come to `path`. */
  lemma FirstSeen(a: Anchoring, path: seq<Certificate>, from: nat)
    requires Open(a, path) && from < MAX_VISITS && !Candidate(a, path, 0)
    ensures ExploredSoFar(a, path, 0, from, from + 1, {path})
  {
    hide Candidate;
    forall p | path <= p
      ensures !Before(a, p, path)
    {
      NotBeforePrefix(a, path, p);
    }
  }

  /** Nothing goes on from a root, nor from a path that is too long. */
  lemma NothingBeyond(a: Anchoring, path: seq<Certificate>, from: nat, found: Option<seq<Certificate>>)
    requires Open(a, path) && from < MAX_VISITS
    requires path[|path| - 1].raw in a.roots || |path| > MAX_PATH
    requires found == if Candidate(a, path, 0) then Some(path) else None
    ensures Explored(a, path, from, from + 1, {path}, found)
  {
    hide Candidate, LinkOk;
    forall p | path <= p && Open(a, p)
      ensures p == path
    {
      assert p[|path| - 1] == path[|path| - 1];
    }
    forall p | path <= p
      ensures !Before(a, p, path)
    {
      NotBeforePrefix(a, path, p);
    }
  }

  /** Beyond the limit nothing is seen. */
  lemma BeyondLimit(a: Anchoring, path: seq<Certificate>, from: nat, to: nat)
    requires Open(a, path) && MAX_VISITS <= from < to
    ensures Explored(a, path, from, to, {}, None)
  {
    assert path <= path;
  }

  lemma RejectedUnseen(a: Anchoring, path: seq<Certificate>, parent: Certificate, from: nat)
    requires path != [] && forall q | path + [parent] <= q :: !Linked(a, q)
    ensures Explored(a, path + [parent], from, from, {}, None)
  {
    hide Linked;
  }

  lemma Rejected(a: Anchoring, path: seq<Certificate>, parent: Certificate, visits: nat)
    requires path != []
    requires !SignedBy(a.k, path[|path| - 1], parent) || (exists j :: 0 <= j < |path| && path[j].raw == parent.raw)
          || !Accepts(parent, a.at, true, CasBelow(path + [parent]), a.purpose)
    ensures NoneTrusted(a, path + [parent]) && Explored(a, path + [parent], visits, visits, {}, None)
  {
    hide Accepts, CasBelow, SignedBy, Linked;
    RejectedParent(a, path, parent);
    RejectedUnseen(a, path, parent, visits);
  }

  lemma TurnOfParent(a: Anchoring, path: seq<Certificate>, n: nat, q: seq<Certificate>)
    requires Unrepeated(a.pool) && n < |a.pool|
    ensures path + [a.pool[n]] <= q <==> path < q && q[|path|] == a.pool[n]
    ensures path < q && q[|path|] in a.pool ==> (Turn(a, path, q) == n <==> q[|path|] == a.pool[n])
  {
    if path < q && q[|path|] in a.pool {
      PlaceFound(a.pool, q[|path|]);
    }
    if path < q && q[|path|] == a.pool[n] {
      assert q[..|path| + 1] == path + [a.pool[n]];
    }
  }

  lemma NextInPoolOf(a: Anchoring, path: seq<Certificate>, q: seq<Certificate>)
    requires path != [] && path < q && Open(a, q)
    ensures q[|path|] in a.pool
  {
    assert LinkOk(a, q, |path|);
  }

  /** What one more turn has seen comes after all that was seen before. */
  lemma SeenTogether(a: Anchoring, path: seq<Certificate>, n: nat, from: nat, mid: nat, to: nat,
                     seen: set<seq<Certificate>>, more: set<seq<Certificate>>, found: Option<seq<Certificate>>)
    requires Unrepeated(a.pool) && path != [] && n < |a.pool| && from <= mid <= to
    requires ExploredSoFar(a, path, n, from, mid, seen)
    requires Explored(a, path + [a.pool[n]], mid, to, more, found)
    ensures InTurn(a, path, from, to, seen + more) && seen !! more
    ensures forall q | q in more :: path < q && Turn(a, path, q) == n
  {
    hide Candidate, Open, Place, Unrepeated;
    forall q | q in more
      ensures path < q && Turn(a, path, q) == n
    {
      TurnOfParent(a, path, n, q);
    }
    forall p, q | q in more && path <= p && Open(a, p) && Before(a, p, q)
      ensures p in seen + more
    {
      if p != path {
        NextInPoolOf(a, path, p);
        TurnOfParent(a, path, n, p);
        BeforeByTurn(a, path, p, q);
      }
      assert mid <= MAX_VISITS by { SomethingSeen(more, q); }
    }
    if from <= MAX_VISITS < to {
      if mid <= MAX_VISITS {
        var p :| path + [a.pool[n]] <= p && Open(a, p) && p !in more;
        TurnOfParent(a, path, n, p);
        assert p !in seen + more;
      } else {
        var p :| path <= p && Open(a, p) && p !in seen;
        assert more == {};
        assert p !in seen + more;
      }
    }
  }

  lemma SomethingSeen<T>(s: set<T>, x: T)
    requires x in s
    ensures |s| > 0
  {
  }

  lemma TooLong(a: Anchoring, path: seq<Certificate>)
    requires |path| > MAX_PATH
    ensures NoneTrusted(a, path) && NoneFrom(a, path)
  {
    hide Linked, Accepts, CasBelow;
  }

  lemma TurnDone(a: Anchoring, path: seq<Certificate>, n: nat, from: nat, mid: nat, to: nat,
                 seen: set<seq<Certificate>>, more: set<seq<Certificate>>)
    requires Unrepeated(a.pool) && path != [] && n < |a.pool| && from <= mid <= to
    requires ExploredSoFar(a, path, n, from, mid, seen)
    requires Explored(a, path + [a.pool[n]], mid, to, more, None)
    ensures ExploredSoFar(a, path, n + 1, from, to, seen + more)
  {
    SeenTogether(a, path, n, from, mid, to, seen, more, None);
    hide Candidate, Open, Place, Unrepeated, InTurn;
    forall p | to <= MAX_VISITS && path <= p && Open(a, p) && (p == path || Turn(a, path, p) < n + 1)
      ensures p in seen + more
    {
      if p != path {
        NextInPoolOf(a, path, p);
        TurnOfParent(a, path, n, p);
      }
    }
  }

  lemma TurnFound(a: Anchoring, path: seq<Certificate>, n: nat, from: nat, mid: nat, to: nat,
                  seen: set<seq<Certificate>>, more: set<seq<Certificate>>, full: seq<Certificate>)
    requires Unrepeated(a.pool) && path != [] && n < |a.pool| && from <= mid <= to
    requires ExploredSoFar(a, path, n, from, mid, seen)
    requires Explored(a, path + [a.pool[n]], mid, to, more, Some(full))
    ensures Explored(a, path, from, to, seen + more, Some(full))
  {
    SeenTogether(a, path, n, from, mid, to, seen, more, Some(full));
    hide Candidate, Open, Place, Unrepeated, InTurn;
    forall q | q in seen
      ensures Before(a, q, full)
    {
      if q != path {
        TurnsAhead(a, path, q, full);
      }
    }
  }

  lemma TurnsDone(a: Anchoring, path: seq<Certificate>, from: nat, to: nat, seen: set<seq<Certificate>>)
    requires path != [] && ExploredSoFar(a, path, |a.pool|, from, to, seen)
    ensures Explored(a, path, from, to, seen, None)
  {
    hide Candidate, Open, Place, InTurn;
    forall p | to <= MAX_VISITS && path <= p && Open(a, p)
      ensures p in seen
    {
      if p != path {
        NextInPoolOf(a, path, p);
        PlaceFound(a.pool, p[|path|]);
      }
    }
  }

  /** The backtracking search; `visits` is shared by the whole search. */
  class PathSearch {
    const a: Anchoring
    var visits: nat

    constructor (a: Anchoring)
      ensures this.a == a && visits == 0
    {
      this.a := a;
      visits := 0;
    }

    /** Extends `path` towards a root, or finds that the pool holds no way to one. */
    method Search(path: seq<Certificate>, below: nat)
      returns (r: Option<seq<Certificate>>, ghost seen: set<seq<Certificate>>)
      requires Open(a, path) && below == CasBelow(path) && Unrepeated(a.pool)
      requires AllParsed(path) && AllParsed(a.pool)
      modifies this`visits
      ensures visits > old(visits) && Budget(|a.pool|, old(visits), visits, 1)
      ensures Explored(a, path, old(visits), visits, seen, r)
      ensures r.Some? ==> visits <= MAX_VISITS && FirstFrom(a, path, r.value)
      ensures r.None? && visits <= MAX_VISITS ==> NoneFrom(a, path)
      ensures r.None? && visits <= MAX_VISITS && (|path| > 1 || path[0].raw !in a.roots) ==> NoneTrusted(a, path)
      ensures path[|path| - 1].raw in a.roots && old(visits) < MAX_VISITS && |path| <= MAX_PATH ==>
        (r.Some? <==> Accepts(path[|path| - 1], a.at, true, below, a.purpose))
      decreases MAX_PATH + 1 - |path|, 1
    {
      hide Explored, ExploredSoFar, Place, Unrepeated, FirstFrom, NoneTrusted;
      visits := visits + 1;
      if visits > MAX_VISITS {
        BeyondLimit(a, path, old(visits), visits);
        return None, {};
      }
      if |path| > MAX_PATH {
        TooLong(a, path);
        NothingBeyond(a, path, old(visits), None);
        return None, {path};
      }
      var last := path[|path| - 1];
      if last.raw in a.roots {
        var ok := CertificatePolicyFor(last, a.at, true, below, a.purpose);
        if |path| > 1 {
          RefusedRoot(a, path);
        }
        RootEnds(a, path);
        r := if ok then Some(path) else None;
        NothingBeyond(a, path, old(visits), r);
        return r, {path};
      }
      seen := {path};
      FirstSeen(a, path, old(visits));
      for n := 0 to |a.pool|
        invariant visits > old(visits) && Budget(|a.pool|, old(visits) + 1, visits, n)
        invariant ExploredSoFar(a, path, n, old(visits), visits, seen)
        invariant visits <= MAX_VISITS ==> forall m | 0 <= m < n :: NoneTrusted(a, path + [a.pool[m]])
      {
        label next:
        ghost var more;
        r, more := TryParent(path, below, a.pool[n]);
        BudgetStep(|a.pool|, old(visits) + 1, old@next(visits), visits, n);
        if r.Some? {
          BudgetCall(|a.pool|, old(visits), visits, n + 1);
          FirstByTurn(a, path, n, r.value);
          TurnFound(a, path, n, old(visits), old@next(visits), visits, seen, more, r.value);
          return r, seen + more;
        }
        TurnDone(a, path, n, old(visits), old@next(visits), visits, seen, more);
        seen := seen + more;
      }
      BudgetCall(|a.pool|, old(visits), visits, |a.pool|);
      TurnsDone(a, path, old(visits), visits, seen);
      if visits <= MAX_VISITS {
        Exhausted(a, path);
      }
      r := None;
    }

    /** One turn of the search loop: `parent` is passed over, or the search goes on from it. */
    method TryParent(path: seq<Certificate>, below: nat, parent: Certificate)
      returns (r: Option<seq<Certificate>>, ghost seen: set<seq<Certificate>>)
      requires Open(a, path) && below == CasBelow(path) && |path| <= MAX_PATH && parent in a.pool && Unrepeated(a.pool)
      requires AllParsed(path) && AllParsed(a.pool) && path[|path| - 1].raw !in a.roots
      modifies this`visits
      ensures visits >= old(visits) && Budget(|a.pool|, old(visits), visits, 1)
      ensures Explored(a, path + [parent], old(visits), visits, seen, r)
      ensures r.Some? ==> visits <= MAX_VISITS && FirstFrom(a, path + [parent], r.value)
      ensures r.None? && visits <= MAX_VISITS ==> NoneTrusted(a, path + [parent])
      decreases MAX_PATH + 1 - |path|, 0
    {
      hide Explored, Place, Unrepeated;
      r, seen := None, {};
      var last := path[|path| - 1];
      if last.issuer != parent.subject {
        Rejected(a, path, parent, visits);
        return;
      }
      var cycle := Contains(path, parent.raw);
      if cycle || !SignedBy(a.k, last, parent) {
        Rejected(a, path, parent, visits);
        return;
      }
      var nextBelow := below;
      if |path| > 1 && last.subject != last.issuer {
        nextBelow := nextBelow + 1;
      }
      CasBelowStep(path, parent);
      var ok := CertificatePolicyFor(parent, a.at, true, nextBelow, a.purpose);
      if !ok {
        Rejected(a, path, parent, visits);
        return;
      }
      LinkedStep(a, path, parent);
      OpenStep(a, path, parent);
      r, seen := Search(path + [parent], nextBelow);
    }
  }

  lemma OpenStep(a: Anchoring, path: seq<Certificate>, parent: Certificate)
    requires Open(a, path) && |path| <= MAX_PATH && path[|path| - 1].raw !in a.roots && Linked(a, path + [parent])
    ensures Open(a, path + [parent])
  {
    hide Linked;
  }

  ghost predicate AllParsed(cs: seq<Certificate>) {
    forall i | 0 <= i < |cs| :: Parsed(cs[i])
  }

  ghost predicate OnlyLastIsRoot(a: Anchoring, path: seq<Certificate>, from: nat) {
    forall i | from <= i < |path| - 1 :: path[i].raw !in a.roots
  }

  method Contains(path: seq<Certificate>, raw: Raw) returns (found: bool)
    ensures found <==> exists j :: 0 <= j < |path| && path[j].raw == raw
  {
    found := false;
    for j := 0 to |path|
      invariant found <==> exists i :: 0 <= i < j && path[i].raw == raw
    {
      found := found || path[j].raw == raw;
    }
  }

  datatype ChainError = Untrusted | PoolTooLarge | Unparsed | Refused | NotFound | Undescribed

  /** The certificates a chain may use besides its leaf: those supplied, parsed, without the leaf itself. */
  ghost predicate PoolOf(k: Crypto, leaf: Raw, ders: seq<Raw>, pool: seq<Certificate>) {
    forall c :: c in pool <==> c.raw in ders && c.raw != leaf && k.parse(c.raw) == Some(c)
  }

  /** A trusted chain, told from the caller's inputs alone. */
  ghost predicate TrustedChain(k: Crypto, leaf: Raw, intermediates: seq<Raw>, roots: seq<Raw>, at: int, purpose: Oid,
                               path: seq<Certificate>) {
    && path != [] && |path| <= MAX_PATH
    && k.parse(leaf) == Some(path[0])
    && path[|path| - 1].raw in roots
    && Accepts(path[|path| - 1], at, true, CasBelow(path), purpose)
    && forall i: nat | 0 < i < |path| :: Supplied(k, intermediates, roots, path[i]) && StepOk(k, at, purpose, path, i)
  }

  /** A trusted chain that passes no root on its way. */
  ghost predicate DirectChain(k: Crypto, leaf: Raw, intermediates: seq<Raw>, roots: seq<Raw>, at: int, purpose: Oid,
                              path: seq<Certificate>) {
    && TrustedChain(k, leaf, intermediates, roots, at, purpose, path)
    && forall i | 0 <= i < |path| - 1 :: path[i].raw !in roots
  }

  /** Where two chains first differ, `p` takes the certificate that was supplied earlier. */
  ghost predicate SuppliedEarlier(ders: seq<Raw>, p: seq<Certificate>, q: seq<Certificate>) {
    exists n :: SuppliedEarlierAt(ders, p, q, n)
  }

  ghost predicate SuppliedEarlierAt(ders: seq<Raw>, p: seq<Certificate>, q: seq<Certificate>, n: nat) {
    n < |p| && n < |q| && p[..n] == q[..n] && Place(ders, p[n].raw) < Place(ders, q[n].raw)
  }

  /** The chain to expect: of all direct ones, the first in the order of supply, roots before intermediates. */
  ghost predicate FirstChain(k: Crypto, leaf: Raw, intermediates: seq<Raw>, roots: seq<Raw>, at: int, purpose: Oid,
                             path: seq<Certificate>) {
    && DirectChain(k, leaf, intermediates, roots, at, purpose, path)
    && forall q | DirectChain(k, leaf, intermediates, roots, at, purpose, q) ::
         q == path || SuppliedEarlier(roots + intermediates, path, q)
  }

  /** There is only one first chain. */
  lemma FirstIsOnly(k: Crypto, leaf: Raw, intermediates: seq<Raw>, roots: seq<Raw>, at: int, purpose: Oid,
                    p: seq<Certificate>, q: seq<Certificate>)
    requires FirstChain(k, leaf, intermediates, roots, at, purpose, p)
    requires FirstChain(k, leaf, intermediates, roots, at, purpose, q)
    ensures p == q
  {
    hide DirectChain, SuppliedEarlier;
    if p != q {
      EarlierOneWay(roots + intermediates, p, q);
    }
  }

  lemma EarlierOneWay(ders: seq<Raw>, p: seq<Certificate>, q: seq<Certificate>)
    requires SuppliedEarlier(ders, p, q)
    ensures !SuppliedEarlier(ders, q, p)
  {
    hide Place;
    var m: nat :| SuppliedEarlierAt(ders, p, q, m);
    forall n: nat
      ensures !SuppliedEarlierAt(ders, q, p, n)
    {
      if n < |p| && n < |q| {
        assert n < m ==> p[n] == p[..m][n] == q[..m][n] == q[n];
        assert m < n ==> p[..n][m] == p[m] && q[..n][m] == q[m];
      }
    }
  }

  ghost predicate Supplied(k: Crypto, intermediates: seq<Raw>, roots: seq<Raw>, c: Certificate) {
    c.raw in roots + intermediates && k.parse(c.raw) == Some(c)
  }

  /** A path that the search may come to, told from the caller's inputs alone. */
  ghost predicate Explorable(k: Crypto, leaf: Raw, intermediates: seq<Raw>, roots: seq<Raw>, at: int, purpose: Oid,
                             path: seq<Certificate>) {
    && path != [] && |path| <= MAX_PATH + 1
    && k.parse(leaf) == Some(path[0])
    && (forall i: nat | 0 < i < |path| :: Supplied(k, intermediates, roots, path[i]) && StepOk(k, at, purpose, path, i))
    && forall i | 0 <= i < |path| - 1 :: path[i].raw !in roots
  }

  /** `p` is on the way to `q`, or turns off by a certificate that was supplied earlier. */
  ghost predicate Sooner(ders: seq<Raw>, p: seq<Certificate>, q: seq<Certificate>) {
    p <= q || SuppliedEarlier(ders, p, q)
  }

  ghost predicate HoldsSooner(k: Crypto, leaf: Raw, intermediates: seq<Raw>, roots: seq<Raw>, at: int, purpose: Oid,
                              path: seq<Certificate>, s: set<seq<Certificate>>) {
    forall q | Explorable(k, leaf, intermediates, roots, at, purpose, q) && Sooner(roots + intermediates, q, path) ::
      q in s
  }

  ghost predicate HoldsAll(k: Crypto, leaf: Raw, intermediates: seq<Raw>, roots: seq<Raw>, at: int, purpose: Oid,
                           s: set<seq<Certificate>>) {
    forall q | Explorable(k, leaf, intermediates, roots, at, purpose, q) :: q in s
  }

  /** At most 256 paths come no later than this one. */
  ghost predicate InReach(k: Crypto, leaf: Raw, intermediates: seq<Raw>, roots: seq<Raw>, at: int, purpose: Oid,
                          path: seq<Certificate>) {
    exists s :: |s| <= MAX_VISITS && HoldsSooner(k, leaf, intermediates, roots, at, purpose, path, s)
  }

  /** At most `n` paths are there to be explored. */
  ghost predicate AtMostPaths(k: Crypto, leaf: Raw, intermediates: seq<Raw>, roots: seq<Raw>, at: int, purpose: Oid,
                              n: nat) {
    exists s :: |s| <= n && HoldsAll(k, leaf, intermediates, roots, at, purpose, s)
  }

  lemma OpenIsExplorable(k: Crypto, leaf: Raw, intermediates: seq<Raw>, roots: seq<Raw>, a: Anchoring,
                         c: Certificate, path: seq<Certificate>)
    requires Sound(k) && a.k == k && a.roots == (set r | r in roots)
    requires PoolOf(k, leaf, roots + intermediates, a.pool) && k.parse(leaf) == Some(c)
    ensures [c] <= path && Open(a, path) <==> Explorable(k, leaf, intermediates, roots, a.at, a.purpose, path)
  {
    if path != [] && path[0] == c {
      forall i: nat | 0 < i < |path| && StepOk(k, a.at, a.purpose, path, i)
        ensures path[i] in a.pool <==> Supplied(k, intermediates, roots, path[i])
      {
        assert path[0].raw != path[i].raw;
      }
      hide Accepts, CasBelow, SignedBy, StepOk, Supplied;
      assert [c] <= path;
      if Linked(a, path) {
        forall i: nat | 0 < i < |path|
          ensures Supplied(k, intermediates, roots, path[i]) && StepOk(k, a.at, a.purpose, path, i)
        {
          assert LinkOk(a, path, i);
        }
      }
    }
  }

  lemma FirstDifference(p: seq<Certificate>, q: seq<Certificate>) returns (n: nat)
    ensures n <= |p| && n <= |q| && p[..n] == q[..n] && (n == |p| || n == |q| || p[n] != q[n])
  {
    n := 0;
    while n < |p| && n < |q| && p[n] == q[n]
      invariant n <= |p| && n <= |q| && p[..n] == q[..n]
    {
      n := n + 1;
    }
  }

  /** Of two paths from one leaf, one comes first. */
  lemma OneBefore(a: Anchoring, c: Certificate, p: seq<Certificate>, q: seq<Certificate>)
    requires Linked(a, p) && Linked(a, q) && [c] <= p && [c] <= q && p != q
    ensures Before(a, p, q) || Before(a, q, p)
  {
    hide Place, StepOk;
    var n := FirstDifference(p, q);
    if n < |p| && n < |q| {
      assert p[0] == c == q[0];
      assert LinkOk(a, p, n) && LinkOk(a, q, n);
      PlaceFound(a.pool, p[n]);
      PlaceFound(a.pool, q[n]);
      assert AheadAt(a.pool, p, q, n) || AheadAt(a.pool, q, p, n);
    }
  }

  lemma BeforeIsSooner(a: Anchoring, ders: seq<Raw>, c: Certificate, p: seq<Certificate>, q: seq<Certificate>)
    requires InSupplyOrder(ders, a.pool) && [c] <= p && [c] <= q && Linked(a, p) && Linked(a, q)
    ensures Before(a, p, q) <==> p != q && Sooner(ders, p, q)
  {
    if Ahead(a, p, q) {
      AheadIsEarlier(a, ders, c, p, q);
    }
    if p != q && Sooner(ders, p, q) && !Before(a, p, q) {
      OneBefore(a, c, p, q);
      if Ahead(a, q, p) {
        AheadIsEarlier(a, ders, c, q, p);
      }
      NotBothWays(ders, p, q);
      assert false;
    }
  }

  lemma NotBothWays(ders: seq<Raw>, p: seq<Certificate>, q: seq<Certificate>)
    requires Sooner(ders, p, q) && Sooner(ders, q, p)
    ensures p == q
  {
    hide Place;
    if SuppliedEarlier(ders, p, q) {
      EarlierApart(ders, p, q);
    }
    if SuppliedEarlier(ders, q, p) {
      EarlierApart(ders, q, p);
    }
  }

  lemma EarlierApart(ders: seq<Raw>, p: seq<Certificate>, q: seq<Certificate>)
    requires SuppliedEarlier(ders, p, q)
    ensures !Sooner(ders, q, p)
  {
    hide Place;
    EarlierOneWay(ders, p, q);
    var n: nat :| SuppliedEarlierAt(ders, p, q, n);
    assert q[..n + 1][n] == q[n] && p[..n + 1][n] == p[n];
  }

  lemma SubsetSize<T>(s: set<T>, u: set<T>)
    requires s <= u
    ensures |s| <= |u|
  {
    assert u == s + (u - s);
  }

  /** The chain found is in reach: the search has seen everything that comes no later. */
  lemma FoundInReach(k: Crypto, leaf: Raw, intermediates: seq<Raw>, roots: seq<Raw>, a: Anchoring, c: Certificate,
                     visits: nat, seen: set<seq<Certificate>>, path: seq<Certificate>)
    requires Sound(k) && a.k == k && a.roots == (set r | r in roots) && InSupplyOrder(roots + intermediates, a.pool)
    requires PoolOf(k, leaf, roots + intermediates, a.pool) && k.parse(leaf) == Some(c)
    requires visits <= MAX_VISITS && Explored(a, [c], 0, visits, seen, Some(path))
    ensures InReach(k, leaf, intermediates, roots, a.at, a.purpose, path)
  {
    hide PoolOf, InSupplyOrder, Before, Sooner, Explorable, Candidate, Linked;
    forall q | Explorable(k, leaf, intermediates, roots, a.at, a.purpose, q) && Sooner(roots + intermediates, q, path)
      ensures q in seen
    {
      OpenIsExplorable(k, leaf, intermediates, roots, a, c, q);
      if q != path {
        BeforeIsSooner(a, roots + intermediates, c, q, path);
      }
    }
    assert HoldsSooner(k, leaf, intermediates, roots, a.at, a.purpose, path, seen);
  }

  /** A search that stops at the limit has seen 256 paths, and all of them come before the first chain. */
  lemma MissedOutOfReach(k: Crypto, leaf: Raw, intermediates: seq<Raw>, roots: seq<Raw>, a: Anchoring, c: Certificate,
                         visits: nat, seen: set<seq<Certificate>>, path: seq<Certificate>, s: set<seq<Certificate>>)
    requires Sound(k) && a.k == k && a.roots == (set r | r in roots) && InSupplyOrder(roots + intermediates, a.pool)
    requires PoolOf(k, leaf, roots + intermediates, a.pool) && k.parse(leaf) == Some(c)
    requires visits > MAX_VISITS && Explored(a, [c], 0, visits, seen, None)
    requires DirectChain(k, leaf, intermediates, roots, a.at, a.purpose, path)
    requires HoldsSooner(k, leaf, intermediates, roots, a.at, a.purpose, path, s)
    ensures |s| > MAX_VISITS
  {
    CandidateIsDirect(k, leaf, intermediates, roots, a, c, path);
    hide PoolOf, InSupplyOrder, Before, Explorable, DirectChain, LinkOk, Accepts, CasBelow;
    assert Candidate(a, path, 0) && Open(a, path) && [c] <= path;
    OpenIsExplorable(k, leaf, intermediates, roots, a, c, path);
    assert Sooner(roots + intermediates, path, path);
    hide Candidate, Sooner;
    forall t | t in seen
      ensures t in s
    {
      OpenIsExplorable(k, leaf, intermediates, roots, a, c, t);
      OneBefore(a, c, t, path);
      BeforeIsSooner(a, roots + intermediates, c, t, path);
    }
    SubsetSize(seen + {path}, s);
  }

  /** The number of calls is at most that of the paths there are to explore. */
  lemma VisitsAtMost(k: Crypto, leaf: Raw, intermediates: seq<Raw>, roots: seq<Raw>, a: Anchoring, c: Certificate,
                     visits: nat, seen: set<seq<Certificate>>, found: Option<seq<Certificate>>, n: nat)
    requires Sound(k) && a.k == k && a.roots == (set r | r in roots)
    requires PoolOf(k, leaf, roots + intermediates, a.pool) && k.parse(leaf) == Some(c)
    requires Explored(a, [c], 0, visits, seen, found)
    requires n <= MAX_VISITS && AtMostPaths(k, leaf, intermediates, roots, a.at, a.purpose, n)
    ensures visits <= n
  {
    hide PoolOf, Before, Explorable, Candidate, Open;
    var s :| |s| <= n && HoldsAll(k, leaf, intermediates, roots, a.at, a.purpose, s);
    forall q | [c] <= q && Open(a, q)
      ensures q in s
    {
      OpenIsExplorable(k, leaf, intermediates, roots, a, c, q);
    }
    SubsetSize(seen, s);
    if visits > MAX_VISITS {
      var p :| [c] <= p && Open(a, p) && p !in seen;
      SubsetSize(seen + {p}, s);
    }
  }

  lemma ChainIsTrusted(k: Crypto, leaf: Raw, intermediates: seq<Raw>, roots: seq<Raw>, a: Anchoring,
                       path: seq<Certificate>)
    requires Sound(k) && a.k == k && a.roots == (set r | r in roots)
    requires PoolOf(k, leaf, roots + intermediates, a.pool)
    requires path != [] && k.parse(leaf) == Some(path[0])
    ensures Trusted(a, path) <==> TrustedChain(k, leaf, intermediates, roots, a.at, a.purpose, path)
  {
    forall i: nat | 0 < i < |path| && StepOk(k, a.at, a.purpose, path, i)
      ensures path[i] in a.pool <==> Supplied(k, intermediates, roots, path[i])
    {
      assert path[0].raw != path[i].raw;
    }
    hide Accepts, CasBelow, SignedBy, StepOk, Supplied;
    if Linked(a, path) {
      forall i: nat | 0 < i < |path|
        ensures Supplied(k, intermediates, roots, path[i]) && StepOk(k, a.at, a.purpose, path, i)
      {
        assert LinkOk(a, path, i);
      }
    }
  }

  /** Certificates stand in the pool as they were first supplied. */
  ghost predicate InSupplyOrder(ders: seq<Raw>, pool: seq<Certificate>) {
    forall i, j | 0 <= i < j < |pool| :: Place(ders, pool[i].raw) < Place(ders, pool[j].raw)
  }

  lemma PoolUnrepeated(ders: seq<Raw>, pool: seq<Certificate>)
    requires InSupplyOrder(ders, pool)
    ensures Unrepeated(pool)
  {
    hide Place;
    forall i | 0 <= i < |pool|
      ensures Place(pool, pool[i]) == i
    {
      assert forall m | 0 <= m < i :: Place(ders, pool[m].raw) < Place(ders, pool[i].raw);
      PlaceIs(pool, pool[i], i);
    }
  }

  method BuildPool(k: Crypto, leaf: Raw, ders: seq<Raw>) returns (r: Option<seq<Certificate>>)
    requires Sound(k)
    ensures r.Some? <==> forall i | 0 <= i < |ders| && ders[i] != leaf :: k.parse(ders[i]).Some?
    ensures r.Some? ==> PoolOf(k, leaf, ders, r.value) && |r.value| <= |ders| && AllParsed(r.value)
    ensures r.Some? ==> InSupplyOrder(ders, r.value)
  {
    hide Place;
    var pool := [];
    var seen := {leaf};
    for n := 0 to |ders|
      invariant forall i | 0 <= i < n && ders[i] != leaf :: k.parse(ders[i]).Some?
      invariant seen == {leaf} + set i | 0 <= i < n :: ders[i]
      invariant PoolOf(k, leaf, ders[..n], pool) && |pool| <= n && AllParsed(pool)
      invariant InSupplyOrder(ders, pool) && forall c <- pool :: Place(ders, c.raw) < n
    {
      assert ders[..n + 1] == ders[..n] + [ders[n]];
      if ders[n] in seen {
        continue;
      }
      seen := seen + {ders[n]};
      var parsed := k.parse(ders[n]);
      if parsed.None? {
        return None;
      }
      PlaceIs(ders, ders[n], n);
      assert forall i | 0 <= i < |pool| :: pool[i] in pool;
      pool := pool + [parsed.value];
    }
    assert ders[..|ders|] == ders;
    r := Some(pool);
  }

  method DescribeChain(k: Crypto, path: seq<Certificate>) returns (ok: bool)
    ensures ok <==> Described(k, path)
  {
    for i := 0 to |path|
      invariant forall j | 0 <= j < i :: k.describes(path[j])
    {
      if !k.describes(path[i]) {
        return false;
      }
    }
    ok := true;
  }

  /** The search found a chain: it is returned when every certificate of it can be described. */
  ghost predicate Found(r: Result<seq<Certificate>, ChainError>) {
    r.Ok? || r == Err(Undescribed)
  }

  ghost predicate Described(k: Crypto, path: seq<Certificate>) {
    forall i | 0 <= i < |path| :: k.describes(path[i])
  }

  /**
   * Builds a chain from `leaf` to one of `roots`, using nothing but the certificates supplied: the first
   * in the order of supply. That chain is still refused when one of its certificates cannot be described,
   * even if a later one could be.
   */
  method VerifyCertificateChainFor(k: Crypto, leaf: Raw, intermediates: seq<Raw>, roots: seq<Raw>, at: int,
                                   purpose: Oid)
    returns (r: Result<seq<Certificate>, ChainError>, ghost visits: nat)
    requires Sound(k)
    ensures r.Ok? ==> FirstChain(k, leaf, intermediates, roots, at, purpose, r.value) && Described(k, r.value)
    ensures r.Ok? ==> Accepts(r.value[0], at, false, 0, purpose)
    // A chain is found exactly when there is one, and at most 256 paths come no later than the first.
    ensures Found(r) <==> Searchable(k, leaf, intermediates, roots, at, purpose) && exists path ::
      FirstChain(k, leaf, intermediates, roots, at, purpose, path) &&
      InReach(k, leaf, intermediates, roots, at, purpose, path)
    ensures r == Err(Undescribed) <==> Found(r) && exists path ::
      FirstChain(k, leaf, intermediates, roots, at, purpose, path) && !Described(k, path)
    // With few enough paths to explore, the search is complete.
    ensures forall n: nat | n <= MAX_VISITS && AtMostPaths(k, leaf, intermediates, roots, at, purpose, n) :: visits <= n
    ensures AtMostPaths(k, leaf, intermediates, roots, at, purpose, MAX_VISITS) && leaf !in roots ==>
      (Found(r) <==> Searchable(k, leaf, intermediates, roots, at, purpose) && exists path ::
        TrustedChain(k, leaf, intermediates, roots, at, purpose, path))
    ensures visits <= 1 + MAX_VISITS * MAX_POOL && (Found(r) ==> visits <= MAX_VISITS)
    ensures Searchable(k, leaf, intermediates, roots, at, purpose) && leaf in roots ==>
      (Found(r) <==> Accepts(k.parse(leaf).value, at, true, 0, purpose))
    // Every other error names what is wrong with the inputs.
    ensures r == Err(Untrusted) <==> roots == []
    ensures r == Err(PoolTooLarge) <==> roots != [] && |intermediates| + |roots| > MAX_POOL
    ensures r == Err(Refused) <==>
      && roots != [] && |intermediates| + |roots| <= MAX_POOL
      && k.parse(leaf).Some? && !Accepts(k.parse(leaf).value, at, false, 0, purpose)
    ensures r == Err(NotFound) ==> Searchable(k, leaf, intermediates, roots, at, purpose)
  {
    hide Explored, FirstChain, InReach, AtMostPaths, InSupplyOrder, PoolOf, TrustedChain, Accepts, Open, NoneFrom;
    hide NoneTrusted, FirstFrom, Place, Described;
    visits := 0;
    if roots == [] {
      return Err(Untrusted), 0;
    }
    if |intermediates| + |roots| > MAX_POOL {
      return Err(PoolTooLarge), 0;
    }
    var c := k.parse(leaf);
    if c.None? {
      return Err(Unparsed), 0;
    }
    var ok := CertificatePolicyFor(c.value, at, false, 0, purpose);
    if !ok {
      return Err(Refused), 0;
    }
    var pool := BuildPool(k, leaf, roots + intermediates);
    if pool.None? {
      return Err(Unparsed), 0;
    }
    var a := Anchoring(k, (set r | r in roots), pool.value, at, purpose);
    PoolUnrepeated(roots + intermediates, a.pool);
    OpenStart(a, c.value);
    var search := new PathSearch(a);
    ghost var seen;
    var path;
    path, seen := search.Search([c.value], 0);
    visits := search.visits;
    SearchBudget(|a.pool|, visits);
    forall n: nat | n <= MAX_VISITS && AtMostPaths(k, leaf, intermediates, roots, at, purpose, n)
      ensures visits <= n
    {
      VisitsAtMost(k, leaf, intermediates, roots, a, c.value, visits, seen, path, n);
    }
    if path.Some? {
      FoundIsFirst(k, leaf, intermediates, roots, a, c.value, path.value);
      FoundInReach(k, leaf, intermediates, roots, a, c.value, visits, seen, path.value);
      var described := DescribeChain(k, path.value);
      OnlyFirst(k, leaf, intermediates, roots, at, purpose, path.value);
      FirstIsTrusted(k, leaf, intermediates, roots, at, purpose, path.value);
      return if described then Ok(path.value) else Err(Undescribed), visits;
    }
    if visits <= MAX_VISITS {
      NoDirectChain(k, leaf, intermediates, roots, a, c.value);
      if leaf !in roots {
        NoChain(k, leaf, intermediates, roots, a, c.value);
      }
    } else {
      NoneInReach(k, leaf, intermediates, roots, a, c.value, visits, seen);
    }
    r := Err(NotFound);
  }

  lemma OpenStart(a: Anchoring, c: Certificate)
    ensures Open(a, [c])
  {
  }

  lemma FirstIsTrusted(k: Crypto, leaf: Raw, intermediates: seq<Raw>, roots: seq<Raw>, at: int, purpose: Oid,
                       path: seq<Certificate>)
    requires FirstChain(k, leaf, intermediates, roots, at, purpose, path)
    ensures TrustedChain(k, leaf, intermediates, roots, at, purpose, path)
    ensures k.parse(leaf) == Some(path[0])
  {
    hide TrustedChain;
    StartsAt(k, leaf, intermediates, roots, at, purpose, path);
  }

  lemma StartsAt(k: Crypto, leaf: Raw, intermediates: seq<Raw>, roots: seq<Raw>, at: int, purpose: Oid,
                 path: seq<Certificate>)
    requires TrustedChain(k, leaf, intermediates, roots, at, purpose, path)
    ensures path != [] && k.parse(leaf) == Some(path[0])
  {
    hide Accepts, CasBelow, StepOk, Supplied;
  }

  lemma NoneInReach(k: Crypto, leaf: Raw, intermediates: seq<Raw>, roots: seq<Raw>, a: Anchoring, c: Certificate,
                    visits: nat, seen: set<seq<Certificate>>)
    requires Sound(k) && a.k == k && a.roots == (set r | r in roots) && InSupplyOrder(roots + intermediates, a.pool)
    requires PoolOf(k, leaf, roots + intermediates, a.pool) && k.parse(leaf) == Some(c)
    requires visits > MAX_VISITS && Explored(a, [c], 0, visits, seen, None)
    ensures forall path | FirstChain(k, leaf, intermediates, roots, a.at, a.purpose, path) ::
      !InReach(k, leaf, intermediates, roots, a.at, a.purpose, path)
  {
    hide PoolOf, InSupplyOrder, Explored, DirectChain, HoldsSooner;
    forall path, s | FirstChain(k, leaf, intermediates, roots, a.at, a.purpose, path)
        && HoldsSooner(k, leaf, intermediates, roots, a.at, a.purpose, path, s)
      ensures |s| > MAX_VISITS
    {
      MissedOutOfReach(k, leaf, intermediates, roots, a, c, visits, seen, path, s);
    }
  }

  /** The inputs the search accepts for work: in range, parsed, and a leaf fit for its purpose. */
  ghost predicate Searchable(k: Crypto, leaf: Raw, intermediates: seq<Raw>, roots: seq<Raw>, at: int, purpose: Oid) {
    && roots != [] && |intermediates| + |roots| <= MAX_POOL
    && k.parse(leaf).Some? && Accepts(k.parse(leaf).value, at, false, 0, purpose)
    && var ders := roots + intermediates;
    && forall i | 0 <= i < |ders| && ders[i] != leaf :: k.parse(ders[i]).Some?
  }

  lemma SearchBudget(pool: nat, visits: nat)
    requires pool <= MAX_POOL && Budget(pool, 0, visits, 1)
    ensures visits <= 1 + MAX_VISITS * MAX_POOL
  {
    assert pool * Min(MAX_VISITS, visits) <= MAX_POOL * MAX_VISITS;
  }

  /** Candidates of the search are the direct chains, and come in the order of supply. */
  lemma CandidateIsDirect(k: Crypto, leaf: Raw, intermediates: seq<Raw>, roots: seq<Raw>, a: Anchoring, c: Certificate,
                          path: seq<Certificate>)
    requires Sound(k) && a.k == k && a.roots == (set r | r in roots)
    requires PoolOf(k, leaf, roots + intermediates, a.pool) && k.parse(leaf) == Some(c)
    ensures Extends(a, [c], path) <==> DirectChain(k, leaf, intermediates, roots, a.at, a.purpose, path)
  {
    hide Trusted, TrustedChain, PoolOf;
    if path != [] && path[0] == c {
      ChainIsTrusted(k, leaf, intermediates, roots, a, path);
      assert [c] <= path;
    } else {
      StartsAtLeaf(k, leaf, intermediates, roots, a.at, a.purpose, path);
    }
  }

  lemma StartsAtLeaf(k: Crypto, leaf: Raw, intermediates: seq<Raw>, roots: seq<Raw>, at: int, purpose: Oid,
                     path: seq<Certificate>)
    requires k.parse(leaf).Some?
    ensures TrustedChain(k, leaf, intermediates, roots, at, purpose, path) ==>
      path != [] && path[0] == k.parse(leaf).value
  {
    hide Accepts, CasBelow, StepOk, Supplied;
  }

  lemma AheadIsEarlier(a: Anchoring, ders: seq<Raw>, c: Certificate, p: seq<Certificate>, q: seq<Certificate>)
    requires InSupplyOrder(ders, a.pool) && [c] <= p && [c] <= q && Linked(a, p) && Linked(a, q) && Ahead(a, p, q)
    ensures SuppliedEarlier(ders, p, q)
  {
    hide Place, StepOk;
    var n: nat :| AheadAt(a.pool, p, q, n);
    assert p[0] == c == q[0];
    assert n != 0;
    assert LinkOk(a, p, n) && LinkOk(a, q, n);
    PlaceFound(a.pool, p[n]);
    PlaceFound(a.pool, q[n]);
    assert SuppliedEarlierAt(ders, p, q, n);
  }

  lemma FoundIsFirst(k: Crypto, leaf: Raw, intermediates: seq<Raw>, roots: seq<Raw>, a: Anchoring, c: Certificate,
                     path: seq<Certificate>)
    requires Sound(k) && a.k == k && a.roots == (set r | r in roots) && InSupplyOrder(roots + intermediates, a.pool)
    requires PoolOf(k, leaf, roots + intermediates, a.pool) && k.parse(leaf) == Some(c) && FirstFrom(a, [c], path)
    ensures FirstChain(k, leaf, intermediates, roots, a.at, a.purpose, path)
  {
    CandidateIsDirect(k, leaf, intermediates, roots, a, c, path);
    forall q | DirectChain(k, leaf, intermediates, roots, a.at, a.purpose, q)
      ensures q == path || SuppliedEarlier(roots + intermediates, path, q)
    {
      CandidateIsDirect(k, leaf, intermediates, roots, a, c, q);
      assert Extends(a, [c], q);
      hide DirectChain, PoolOf, InSupplyOrder, Linked, Ahead, SuppliedEarlier;
      if q != path {
        AheadIsEarlier(a, roots + intermediates, c, path, q);
      }
    }
  }

  lemma OnlyFirst(k: Crypto, leaf: Raw, intermediates: seq<Raw>, roots: seq<Raw>, at: int, purpose: Oid,
                  path: seq<Certificate>)
    requires FirstChain(k, leaf, intermediates, roots, at, purpose, path)
    ensures forall q | FirstChain(k, leaf, intermediates, roots, at, purpose, q) :: q == path
  {
    hide FirstChain;
    forall q | FirstChain(k, leaf, intermediates, roots, at, purpose, q)
      ensures q == path
    {
      FirstIsOnly(k, leaf, intermediates, roots, at, purpose, q, path);
    }
  }

  lemma NoDirectChain(k: Crypto, leaf: Raw, intermediates: seq<Raw>, roots: seq<Raw>, a: Anchoring, c: Certificate)
    requires Sound(k) && a.k == k && a.roots == (set r | r in roots)
    requires PoolOf(k, leaf, roots + intermediates, a.pool) && k.parse(leaf) == Some(c) && NoneFrom(a, [c])
    ensures forall path :: !FirstChain(k, leaf, intermediates, roots, a.at, a.purpose, path)
  {
    hide DirectChain, PoolOf, Extends;
    forall path
      ensures !FirstChain(k, leaf, intermediates, roots, a.at, a.purpose, path)
    {
      CandidateIsDirect(k, leaf, intermediates, roots, a, c, path);
      assert !Extends(a, [c], path);
    }
  }

  lemma NoChain(k: Crypto, leaf: Raw, intermediates: seq<Raw>, roots: seq<Raw>, a: Anchoring, c: Certificate)
    requires Sound(k) && a.k == k && a.roots == (set r | r in roots)
    requires PoolOf(k, leaf, roots + intermediates, a.pool) && k.parse(leaf) == Some(c)
    requires NoneTrusted(a, [c])
    ensures forall path :: !TrustedChain(k, leaf, intermediates, roots, a.at, a.purpose, path)
  {
    forall path
      ensures !TrustedChain(k, leaf, intermediates, roots, a.at, a.purpose, path)
    {
      if path != [] && path[0] == c {
        assert [c] <= path;
        ChainIsTrusted(k, leaf, intermediates, roots, a, path);
      }
    }
  }
}
