/** The chain that CMS and identity certificates form by their signatures, whatever order they come in. */
module LinkedChain {
  import opened ByteStrings
  import opened Wrappers
  import opened CertificatePath

  /** The supplied certificates whose key verifies `last`. */
  ghost function Issuers(k: Crypto, supplied: set<Raw>, last: Certificate): set<Raw> {
    set raw | raw in supplied && k.parse(raw).Some? && SignedBy(k, last, k.parse(raw).value)
  }

  /** An authority of the chain, judged at the start of its own validity. */
  ghost predicate AuthorityAbove(k: Crypto, raw: Raw, path: seq<Certificate>)
    requires path != []
  {
    && k.parse(raw).Some?
    && Accepts(k.parse(raw).value, k.parse(raw).value.notBefore, true, |path| - 1, CODE_SIGNING)
  }

  datatype Step = End | Next(c: Certificate) | Ambiguous

  /** The only way to go on from `path`. Nothing here knows the order of the certificates. */
  ghost function NextStep(k: Crypto, supplied: set<Raw>, path: seq<Certificate>): Step
    requires path != []
  {
    var last := path[|path| - 1];
    var issuers := Issuers(k, supplied, last);
    if SelfIssued(last) then
      End
    else if exists raw :: raw in supplied && k.parse(raw).None? then
      Ambiguous
    else if exists raw :: raw in issuers && !AuthorityAbove(k, raw, path) then
      Ambiguous
    else if issuers == {} then
      End
    else if parent :| parent in issuers && issuers == {parent} then
      if exists i :: 0 <= i < |path| && path[i].raw == parent then Ambiguous else Next(k.parse(parent).value)
    else
      Ambiguous
  }

  ghost function Follow(k: Crypto, supplied: set<Raw>, path: seq<Certificate>): Option<seq<Certificate>>
    requires path != []
    decreases MAX_PATH + 1 - |path|
  {
    if |path| > MAX_PATH then
      None
    else
      match NextStep(k, supplied, path)
      case End => Some(path)
      case Ambiguous => None
      case Next(c) => Follow(k, supplied, path + [c])
  }

  ghost function SetOf(certs: seq<Raw>): set<Raw> {
    set raw | raw in certs
  }

  ghost predicate Flawed(k: Crypto, supplied: set<Raw>, path: seq<Certificate>)
    requires path != []
  {
    || (exists raw :: raw in supplied && k.parse(raw).None?)
    || (exists raw :: raw in Issuers(k, supplied, path[|path| - 1]) && !AuthorityAbove(k, raw, path))
  }

  ghost predicate TwoIssuers(issuers: set<Raw>) {
    exists x, y :: x in issuers && y in issuers && x != y
  }

  /** Looks through all certificates for the one that signed the last of `path`. */
  method FindParent(k: Crypto, certs: seq<Raw>, path: seq<Certificate>) returns (r: Result<Option<Certificate>, ()>)
    requires Sound(k) && path != []
    ensures r.Ok? ==> !Flawed(k, SetOf(certs), path)
    ensures r.Ok? && r.value.Some? ==> k.parse(r.value.value.raw) == r.value
    ensures r.Ok? && r.value.Some? ==> Issuers(k, SetOf(certs), path[|path| - 1]) == {r.value.value.raw}
    ensures r.Ok? && r.value.None? ==> Issuers(k, SetOf(certs), path[|path| - 1]) == {}
    ensures r.Err? ==> Flawed(k, SetOf(certs), path) || TwoIssuers(Issuers(k, SetOf(certs), path[|path| - 1]))
  {
    var last := path[|path| - 1];
    var parent: Option<Certificate> := None;
    for n := 0 to |certs|
      invariant !Flawed(k, SetOf(certs[..n]), path)
      invariant parent.None? ==> Issuers(k, SetOf(certs[..n]), last) == {}
      invariant parent.Some? ==>
        Issuers(k, SetOf(certs[..n]), last) == {parent.value.raw} && k.parse(parent.value.raw) == parent
    {
      assert SetOf(certs[..n + 1]) == SetOf(certs[..n]) + {certs[n]};
      assert certs[n] in SetOf(certs);
      var p := k.parse(certs[n]);
      if p.None? {
        return Err(());
      }
      if !SignedBy(k, last, p.value) {
        assert Issuers(k, SetOf(certs[..n + 1]), last) == Issuers(k, SetOf(certs[..n]), last);
        continue;
      }
      assert Issuers(k, SetOf(certs[..n + 1]), last) == Issuers(k, SetOf(certs[..n]), last) + {certs[n]};
      assert certs[n] in Issuers(k, SetOf(certs), last);
      var ok := CertificatePolicyFor(p.value, p.value.notBefore, true, |path| - 1, CODE_SIGNING);
      if !ok {
        assert !AuthorityAbove(k, certs[n], path);
        return Err(());
      }
      if parent.Some? && parent.value.raw != p.value.raw {
        assert parent.value.raw in Issuers(k, SetOf(certs[..n]), last);
        assert parent.value.raw in Issuers(k, SetOf(certs), last);
        return Err(());
      }
      parent := p;
    }
    assert certs[..|certs|] == certs;
    r := Ok(parent);
  }

  ghost function Chain(k: Crypto, leaf: Raw, certs: seq<Raw>): Option<seq<Certificate>> {
    var c := k.parse(leaf);
    if c.None? || |certs| > MAX_PATH then None else Follow(k, SetOf(certs), [c.value])
  }

  /** Orders the supplied certificates from `leaf` upwards by their actual signatures. */
  method LinkedCertificates(k: Crypto, leaf: Raw, certs: seq<Raw>) returns (r: Option<seq<Certificate>>)
    requires Sound(k)
    ensures r == Chain(k, leaf, certs)
    ensures forall path :: r == Some(path) <==>
      |certs| <= MAX_PATH && path != [] && k.parse(leaf) == Some(path[0]) && IsChain(k, SetOf(certs), path)
  {
    hide IsChain;
    forall path
      ensures Chain(k, leaf, certs) == Some(path) <==>
        |certs| <= MAX_PATH && path != [] && k.parse(leaf) == Some(path[0]) && IsChain(k, SetOf(certs), path)
    {
      ChainExactly(k, leaf, certs, path);
    }
    var c := k.parse(leaf);
    if c.None? || |certs| > MAX_PATH {
      return None;
    }
    var path := [c.value];
    while |path| <= MAX_PATH
      invariant path != []
      invariant Follow(k, SetOf(certs), path) == Follow(k, SetOf(certs), [c.value])
      decreases MAX_PATH + 1 - |path|
    {
      var last := path[|path| - 1];
      if last.issuer == last.subject {
        return Some(path);
      }
      var found := FindParent(k, certs, path);
      if found.Err? {
        return None;
      }
      if found.value.None? {
        return Some(path);
      }
      var parent := found.value.value;
      var cycle := Contains(path, parent.raw);
      if cycle {
        return None;
      }
      path := path + [parent];
    }
    r := None;
  }

  /**
   * The order of the SET cannot select an authority: any two orders of the same certificates give
   * the same chain, or both give none.
   */
  lemma OrderDoesNotMatter(k: Crypto, leaf: Raw, certs: seq<Raw>, reordered: seq<Raw>)
    requires multiset(certs) == multiset(reordered)
    ensures Chain(k, leaf, certs) == Chain(k, leaf, reordered)
  {
    assert |certs| == |multiset(certs)| == |multiset(reordered)| == |reordered|;
    assert forall raw :: raw in certs <==> raw in multiset(certs);
    assert forall raw :: raw in reordered <==> raw in multiset(reordered);
    assert SetOf(certs) == SetOf(reordered);
  }

  /** Each certificate is the only one supplied that verifies the one below it. */
  ghost predicate Climbs(k: Crypto, supplied: set<Raw>, path: seq<Certificate>) {
    forall i: nat | 0 < i < |path| :: OnlyIssuer(k, supplied, path[..i], path[i])
  }

  ghost predicate OnlyIssuer(k: Crypto, supplied: set<Raw>, path: seq<Certificate>, c: Certificate)
    requires path != []
  {
    && !SelfIssued(path[|path| - 1]) && Issuers(k, supplied, path[|path| - 1]) == {c.raw}
    && k.parse(c.raw) == Some(c) && AuthorityAbove(k, c.raw, path)
  }

  lemma ClimbsStep(k: Crypto, supplied: set<Raw>, prefix: seq<Certificate>, c: Certificate)
    requires prefix != [] && Climbs(k, supplied, prefix) && OnlyIssuer(k, supplied, prefix, c)
    ensures Climbs(k, supplied, prefix + [c])
  {
    var longer := prefix + [c];
    forall i: nat | 0 < i < |longer|
      ensures OnlyIssuer(k, supplied, longer[..i], longer[i])
    {
      assert longer[..i] == prefix[..i];
      if i == |prefix| {
        assert longer[..i] == prefix;
      }
    }
  }

  ghost predicate NoRepeats(path: seq<Certificate>) {
    forall i, j | 0 <= i < j < |path| :: path[i].raw != path[j].raw
  }

  ghost predicate AllParse(k: Crypto, supplied: set<Raw>) {
    forall raw | raw in supplied :: k.parse(raw).Some?
  }

  /** When the chain goes on and when it ends; in every other case it is refused. */
  lemma StepExactly(k: Crypto, supplied: set<Raw>, path: seq<Certificate>)
    requires Sound(k) && path != []
    ensures var step, last := NextStep(k, supplied, path), path[|path| - 1];
      && (forall c :: step == Next(c) <==>
            AllParse(k, supplied) && OnlyIssuer(k, supplied, path, c) && forall i | 0 <= i < |path| ::
              path[i].raw != c.raw)
      && (step.End? <==> SelfIssued(last) || (AllParse(k, supplied) && Issuers(k, supplied, last) == {}))
  {
    hide Accepts, SignedBy;
    var issuers := Issuers(k, supplied, path[|path| - 1]);
    forall c | AllParse(k, supplied) && OnlyIssuer(k, supplied, path, c)
        && forall i | 0 <= i < |path| :: path[i].raw != c.raw
      ensures NextStep(k, supplied, path) == Next(c)
    {
      assert c.raw in issuers && issuers == {c.raw};
    }
    if NextStep(k, supplied, path).Next? {
      var parent :| parent in issuers && issuers == {parent};
      assert k.parse(parent).Some? && k.parse(parent).value.raw == parent;
    }
  }

  /** A chain climbs without choice or repetition, and stops only where nothing signed its last certificate. */
  lemma {:induction false} ChainShape(k: Crypto, supplied: set<Raw>, prefix: seq<Certificate>)
    requires Sound(k) && prefix != [] && Climbs(k, supplied, prefix) && NoRepeats(prefix)
    requires Follow(k, supplied, prefix).Some?
    ensures var path := Follow(k, supplied, prefix).value;
      && prefix <= path && |path| <= MAX_PATH && Climbs(k, supplied, path) && NoRepeats(path)
      && (SelfIssued(path[|path| - 1]) || Issuers(k, supplied, path[|path| - 1]) == {})
    decreases MAX_PATH + 1 - |prefix|
  {
    hide Climbs, OnlyIssuer;
    StepExactly(k, supplied, prefix);
    var step := NextStep(k, supplied, prefix);
    if step.Next? {
      ClimbsStep(k, supplied, prefix, step.c);
      ChainShape(k, supplied, prefix + [step.c]);
    }
  }

  /**
   * A finished chain: sole issuers all the way without repetition, up to a certificate that issued itself
   * or that nothing supplied has signed. Only a leaf that issued itself needs no other to be readable.
   */
  ghost predicate IsChain(k: Crypto, supplied: set<Raw>, path: seq<Certificate>) {
    && 0 < |path| <= MAX_PATH && Climbs(k, supplied, path) && NoRepeats(path)
    && var last := path[|path| - 1];
    && (SelfIssued(last) || Issuers(k, supplied, last) == {})
    && (AllParse(k, supplied) || (SelfIssued(last) && |path| == 1))
  }

  /** The chain goes through each of its own beginnings. */
  lemma {:induction false} ChainFollows(k: Crypto, supplied: set<Raw>, path: seq<Certificate>, n: nat)
    requires Sound(k) && IsChain(k, supplied, path) && 0 < n <= |path|
    ensures Follow(k, supplied, path[..n]) == Some(path)
    decreases |path| - n
  {
    hide NextStep, Issuers, Accepts;
    var front := path[..n];
    StepExactly(k, supplied, front);
    if n < |path| {
      assert OnlyIssuer(k, supplied, path[..n], path[n]);
      assert path[..n + 1] == front + [path[n]];
      ChainFollows(k, supplied, path, n + 1);
    } else {
      assert front == path;
    }
  }

  lemma {:induction false} FollowEnds(k: Crypto, supplied: set<Raw>, prefix: seq<Certificate>)
    requires Sound(k) && prefix != [] && Follow(k, supplied, prefix).Some?
    ensures AllParse(k, supplied) ||
      (Follow(k, supplied, prefix).value == prefix && SelfIssued(prefix[|prefix| - 1]))
    decreases MAX_PATH + 1 - |prefix|
  {
    hide NextStep, Issuers, Accepts;
    StepExactly(k, supplied, prefix);
    var step := NextStep(k, supplied, prefix);
    if step.Next? {
      FollowEnds(k, supplied, prefix + [step.c]);
    }
  }

  /** When there is a chain, and which: exactly the finished chain of the leaf, if it has one. */
  lemma ChainExactly(k: Crypto, leaf: Raw, certs: seq<Raw>, path: seq<Certificate>)
    requires Sound(k)
    ensures Chain(k, leaf, certs) == Some(path) <==>
      |certs| <= MAX_PATH && path != [] && k.parse(leaf) == Some(path[0]) && IsChain(k, SetOf(certs), path)
  {
    hide NextStep, Issuers, Accepts, OnlyIssuer;
    if Chain(k, leaf, certs) == Some(path) {
      var c := k.parse(leaf).value;
      ChainShape(k, SetOf(certs), [c]);
      FollowEnds(k, SetOf(certs), [c]);
    }
    if |certs| <= MAX_PATH && path != [] && k.parse(leaf) == Some(path[0]) && IsChain(k, SetOf(certs), path) {
      ChainFollows(k, SetOf(certs), path, 1);
      assert path[..1] == [path[0]];
    }
  }
}
