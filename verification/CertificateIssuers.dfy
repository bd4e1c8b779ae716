/** Where no certificate has two issuers to choose from, the search is complete whatever its limit. */
module CertificateIssuers {
  import opened Wrappers
  import opened CertificatePath

  /** `parent` signed `child`, is another certificate, and may vouch for others at all. */
  ghost predicate MayIssue(k: Crypto, intermediates: seq<Raw>, roots: seq<Raw>, at: int, purpose: Oid,
                           child: Certificate, parent: Certificate) {
    && Supplied(k, intermediates, roots, parent) && SignedBy(k, child, parent) && parent.raw != child.raw
    && Accepts(parent, at, true, 0, purpose)
  }

  /** The leaf and every certificate supplied have at most one acceptable issuer besides themselves. */
  ghost predicate SoleIssuers(k: Crypto, leaf: Raw, intermediates: seq<Raw>, roots: seq<Raw>, at: int, purpose: Oid) {
    forall child, p, q |
      && (k.parse(leaf) == Some(child) || Supplied(k, intermediates, roots, child))
      && MayIssue(k, intermediates, roots, at, purpose, child, p)
      && MayIssue(k, intermediates, roots, at, purpose, child, q) :: p == q
  }

  lemma FewerBelow(c: Certificate, at: int, below: nat, purpose: Oid)
    requires Accepts(c, at, true, below, purpose)
    ensures Accepts(c, at, true, 0, purpose)
  {
    var i :| 0 <= i < |c.extensions| && AuthorityExtension(c.extensions[i], below);
    assert AuthorityExtension(c.extensions[i], 0);
  }

  lemma StepIssues(k: Crypto, leaf: Raw, intermediates: seq<Raw>, roots: seq<Raw>, at: int, purpose: Oid,
                   path: seq<Certificate>, i: nat)
    requires 0 < i < |path| && Explorable(k, leaf, intermediates, roots, at, purpose, path)
    ensures k.parse(leaf) == Some(path[i - 1]) || Supplied(k, intermediates, roots, path[i - 1])
    ensures MayIssue(k, intermediates, roots, at, purpose, path[i - 1], path[i])
  {
    hide Accepts, CasBelow, SignedBy, Supplied;
    assert StepOk(k, at, purpose, path, i);
    FewerBelow(path[i], at, CasBelow(path[..i + 1]), purpose);
  }

  /** Then all paths lie on one line. */
  lemma {:induction false} OneLine(k: Crypto, leaf: Raw, intermediates: seq<Raw>, roots: seq<Raw>, at: int,
                                   purpose: Oid, p: seq<Certificate>, q: seq<Certificate>, n: nat)
    requires SoleIssuers(k, leaf, intermediates, roots, at, purpose)
    requires Explorable(k, leaf, intermediates, roots, at, purpose, p)
    requires Explorable(k, leaf, intermediates, roots, at, purpose, q)
    requires 0 < n <= |p| && n <= |q|
    ensures p[..n] == q[..n]
  {
    hide SoleIssuers, Explorable;
    if n > 1 {
      OneLine(k, leaf, intermediates, roots, at, purpose, p, q, n - 1);
      assert p[n - 2] == p[..n - 1][n - 2] == q[n - 2];
      SameNext(k, leaf, intermediates, roots, at, purpose, p, q, n - 1);
      assert p[..n] == p[..n - 1] + [p[n - 1]] && q[..n] == q[..n - 1] + [q[n - 1]];
    } else {
      SameStart(k, leaf, intermediates, roots, at, purpose, p, q);
      assert p[..1] == [p[0]] && q[..1] == [q[0]];
    }
  }

  lemma SameStart(k: Crypto, leaf: Raw, intermediates: seq<Raw>, roots: seq<Raw>, at: int, purpose: Oid,
                  p: seq<Certificate>, q: seq<Certificate>)
    requires Explorable(k, leaf, intermediates, roots, at, purpose, p)
    requires Explorable(k, leaf, intermediates, roots, at, purpose, q)
    ensures p != [] && q != [] && p[0] == q[0]
  {
    hide StepOk, Supplied;
  }

  lemma SameNext(k: Crypto, leaf: Raw, intermediates: seq<Raw>, roots: seq<Raw>, at: int, purpose: Oid,
                 p: seq<Certificate>, q: seq<Certificate>, i: nat)
    requires SoleIssuers(k, leaf, intermediates, roots, at, purpose)
    requires Explorable(k, leaf, intermediates, roots, at, purpose, p)
    requires Explorable(k, leaf, intermediates, roots, at, purpose, q)
    requires 0 < i < |p| && i < |q| && p[i - 1] == q[i - 1]
    ensures p[i] == q[i]
  {
    hide Explorable, MayIssue, Supplied;
    StepIssues(k, leaf, intermediates, roots, at, purpose, p, i);
    StepIssues(k, leaf, intermediates, roots, at, purpose, q, i);
  }

  lemma {:induction false} OneOfEachLength(k: Crypto, leaf: Raw, intermediates: seq<Raw>, roots: seq<Raw>, at: int,
                                           purpose: Oid, n: nat) returns (s: set<seq<Certificate>>)
    requires SoleIssuers(k, leaf, intermediates, roots, at, purpose)
    ensures |s| <= n
    ensures forall q | Explorable(k, leaf, intermediates, roots, at, purpose, q) && |q| <= n :: q in s
  {
    hide SoleIssuers, Explorable;
    s := {};
    if n > 0 {
      s := OneOfEachLength(k, leaf, intermediates, roots, at, purpose, n - 1);
      if p :| Explorable(k, leaf, intermediates, roots, at, purpose, p) && |p| == n {
        forall q | Explorable(k, leaf, intermediates, roots, at, purpose, q) && |q| == n
          ensures q == p
        {
          OneLine(k, leaf, intermediates, roots, at, purpose, p, q, n);
          assert p[..n] == p && q[..n] == q;
        }
        s := s + {p};
      }
    } else {
      forall q | Explorable(k, leaf, intermediates, roots, at, purpose, q)
        ensures |q| > 0
      {
        NotEmpty(k, leaf, intermediates, roots, at, purpose, q);
      }
    }
  }

  lemma NotEmpty(k: Crypto, leaf: Raw, intermediates: seq<Raw>, roots: seq<Raw>, at: int, purpose: Oid,
                 path: seq<Certificate>)
    requires Explorable(k, leaf, intermediates, roots, at, purpose, path)
    ensures 0 < |path| <= MAX_PATH + 1
  {
  }

  /** The certificates above the leaf, by their bytes. */
  ghost function Uppers(path: seq<Certificate>, n: nat): set<Raw>
    requires 0 < n <= |path|
  {
    set i | 0 < i < n :: path[i].raw
  }

  lemma {:induction false} UppersCount(path: seq<Certificate>, n: nat)
    requires 0 < n <= |path| && forall i, j | 0 <= j < i < |path| :: path[j].raw != path[i].raw
    ensures |Uppers(path, n)| == n - 1
  {
    if n > 1 {
      UppersCount(path, n - 1);
      assert Uppers(path, n) == Uppers(path, n - 1) + {path[n - 1].raw};
    } else {
      assert Uppers(path, 1) == {};
    }
  }

  lemma {:induction false} ElementsAtMost(ders: seq<Raw>, s: set<Raw>)
    requires forall x | x in s :: x in ders
    ensures |s| <= |ders|
  {
    if ders != [] {
      var rest := s - {ders[0]};
      ElementsAtMost(ders[1..], rest);
      assert s <= rest + {ders[0]};
      SubsetSize(s, rest + {ders[0]});
    } else {
      assert s == {};
    }
  }

  /** A path never repeats a certificate, so it is at most one longer than the certificates supplied. */
  lemma LengthAtMost(k: Crypto, leaf: Raw, intermediates: seq<Raw>, roots: seq<Raw>, at: int, purpose: Oid,
                     path: seq<Certificate>)
    requires Explorable(k, leaf, intermediates, roots, at, purpose, path)
    ensures |path| <= |roots| + |intermediates| + 1
  {
    hide Accepts, CasBelow, SignedBy;
    forall i, j | 0 <= j < i < |path|
      ensures path[j].raw != path[i].raw
    {
      assert StepOk(k, at, purpose, path, i);
    }
    UppersCount(path, |path|);
    forall x | x in Uppers(path, |path|)
      ensures x in roots + intermediates
    {
      var i :| 0 < i < |path| && path[i].raw == x;
      assert Supplied(k, intermediates, roots, path[i]);
    }
    ElementsAtMost(roots + intermediates, Uppers(path, |path|));
  }

  /**
   * With sole issuers there is at most one path of each length: one for the leaf and one for each
   * certificate supplied, 33 at the most. No search then comes near its limit.
   */
  lemma SoleIssuersSuffice(k: Crypto, leaf: Raw, intermediates: seq<Raw>, roots: seq<Raw>, at: int, purpose: Oid)
    requires SoleIssuers(k, leaf, intermediates, roots, at, purpose)
    ensures AtMostPaths(k, leaf, intermediates, roots, at, purpose, |roots| + |intermediates| + 1)
    ensures AtMostPaths(k, leaf, intermediates, roots, at, purpose, MAX_PATH + 1)
    ensures AtMostPaths(k, leaf, intermediates, roots, at, purpose, MAX_VISITS)
  {
    hide SoleIssuers, Explorable;
    var n := |roots| + |intermediates| + 1;
    var s := OneOfEachLength(k, leaf, intermediates, roots, at, purpose, n);
    var u := OneOfEachLength(k, leaf, intermediates, roots, at, purpose, MAX_PATH + 1);
    forall q | Explorable(k, leaf, intermediates, roots, at, purpose, q)
      ensures q in s && q in u
    {
      NotEmpty(k, leaf, intermediates, roots, at, purpose, q);
      LengthAtMost(k, leaf, intermediates, roots, at, purpose, q);
    }
    assert HoldsAll(k, leaf, intermediates, roots, at, purpose, s);
    assert HoldsAll(k, leaf, intermediates, roots, at, purpose, u);
  }
}
