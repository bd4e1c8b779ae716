/** One set of certificates, two orders of supply: a chain is returned for one and refused for the other. */
module CertificateOrder {
  import opened ByteStrings
  import opened Wrappers
  import opened CertificatePath

  function Authority(raw: Byte, subject: Byte, issuer: Byte): Certificate {
    Certificate([raw], [subject], [issuer], 2, 0, 0, [BasicConstraints(Some(Limits(true, -1)))])
  }

  const LEAF := Certificate([0], [10], [11], 2, 0, 0, [])
  const FIRST := Authority(1, 11, 13)
  const SECOND := Authority(2, 11, 14)
  const FIRST_ROOT := Authority(3, 13, 13)
  const SECOND_ROOT := Authority(4, 14, 14)

  /** All signatures verify; the second root's names cannot be described. */
  const EXAMPLE := Crypto(
    (raw: Raw) => if raw == [0] then Some(LEAF) else if raw == [1] then Some(FIRST) else if raw == [2] then Some(SECOND)
           else if raw == [3] then Some(FIRST_ROOT) else if raw == [4] then Some(SECOND_ROOT) else None,
    (child: Certificate, parent: Certificate) => true,
    (c: Certificate) => c.raw != [4])

  const ROOTS: seq<Raw> := [[3], [4]]

  lemma ExampleSound()
    ensures Sound(EXAMPLE)
  {
    assert forall c | c in {LEAF, FIRST, SECOND, FIRST_ROOT, SECOND_ROOT} :: |c.extensions| <= 1;
    forall raw: Raw | EXAMPLE.parse(raw).Some?
      ensures EXAMPLE.parse(raw).value.raw == raw && Parsed(EXAMPLE.parse(raw).value)
    {
    }
  }

  lemma AuthorityAccepted(raw: Byte, subject: Byte, issuer: Byte, below: nat)
    ensures Accepts(Authority(raw, subject, issuer), 0, true, below, CODE_SIGNING)
  {
    assert AuthorityExtension(Authority(raw, subject, issuer).extensions[0], below);
  }

  function Chain(second: bool): seq<Certificate> {
    if second then [LEAF, SECOND, SECOND_ROOT] else [LEAF, FIRST, FIRST_ROOT]
  }

  lemma ChainDirect(intermediates: seq<Raw>, second: bool)
    requires [1] in intermediates && [2] in intermediates
    ensures DirectChain(EXAMPLE, [0], intermediates, ROOTS, 0, CODE_SIGNING, Chain(second))
  {
    hide Accepts, CasBelow;
    var path := Chain(second);
    AuthorityAccepted(1, 11, 13, CasBelow(path[..2]));
    AuthorityAccepted(2, 11, 14, CasBelow(path[..2]));
    AuthorityAccepted(3, 13, 13, CasBelow(path));
    AuthorityAccepted(4, 14, 14, CasBelow(path));
    assert path[..3] == path && path[2].raw in ROOTS;
    forall i: nat | 0 < i < |path|
      ensures Supplied(EXAMPLE, intermediates, ROOTS, path[i]) && StepOk(EXAMPLE, 0, CODE_SIGNING, path, i)
    {
      assert i == 1 || i == 2;
    }
  }

  /** There are no other chains. */
  lemma OnlyTwo(intermediates: seq<Raw>, path: seq<Certificate>)
    requires forall raw <- intermediates :: raw == [1] || raw == [2]
    requires DirectChain(EXAMPLE, [0], intermediates, ROOTS, 0, CODE_SIGNING, path)
    ensures path == Chain(false) || path == Chain(true)
  {
    hide Accepts, CasBelow, StepOk, Supplied;
    assert path[0] == LEAF && path[|path| - 1].raw in ROOTS;
    assert |path| > 1;
    assert StepOk(EXAMPLE, 0, CODE_SIGNING, path, 1) && Supplied(EXAMPLE, intermediates, ROOTS, path[1]);
    IssuedBy(intermediates, path, 1);
    assert path[1].raw !in ROOTS;
    assert |path| > 2;
    assert StepOk(EXAMPLE, 0, CODE_SIGNING, path, 2) && Supplied(EXAMPLE, intermediates, ROOTS, path[2]);
    IssuedBy(intermediates, path, 2);
  }

  lemma IssuedBy(intermediates: seq<Raw>, path: seq<Certificate>, i: nat)
    requires forall raw <- intermediates :: raw == [1] || raw == [2]
    requires 0 < i < |path| && StepOk(EXAMPLE, 0, CODE_SIGNING, path, i)
    requires Supplied(EXAMPLE, intermediates, ROOTS, path[i])
    ensures path[i - 1] == LEAF ==> path[i] == FIRST || path[i] == SECOND
    ensures path[i - 1] == FIRST ==> path[i] == FIRST_ROOT
    ensures path[i - 1] == SECOND ==> path[i] == SECOND_ROOT
  {
    hide Accepts, CasBelow;
    assert path[i].raw in [[3], [4], [1], [2]];
  }

  function Intermediates(second: bool): seq<Raw> {
    if second then [[2], [1]] else [[1], [2]]
  }

  lemma ExampleSearchable(second: bool)
    ensures Searchable(EXAMPLE, [0], Intermediates(second), ROOTS, 0, CODE_SIGNING)
  {
    assert EXAMPLE.parse([0]) == Some(LEAF);
    assert Accepts(LEAF, 0, false, 0, CODE_SIGNING);
    hide Accepts;
  }

  lemma SuppliedFirst(second: bool)
    ensures SuppliedEarlier(ROOTS + Intermediates(second), Chain(second), Chain(!second))
  {
    var ders, here, other := ROOTS + Intermediates(second), Chain(second), Chain(!second);
    assert ders == [[3], [4]] + Intermediates(second) && here[1].raw == ders[2] && other[1].raw == ders[3];
    PlaceIs(ders, here[1].raw, 2);
    PlaceIs(ders, other[1].raw, 3);
    hide Place;
    assert here[..1] == other[..1];
    assert SuppliedEarlierAt(ders, here, other, 1);
  }

  lemma SecondUndescribed(second: bool)
    ensures Described(EXAMPLE, Chain(second)) <==> !second
  {
    assert EXAMPLE.describes(Chain(second)[2]) == !second;
  }

  /**
   * With the first intermediate supplied first, the chain found is described and returned; the other way
   * round the chain found cannot be described, and the leaf is refused although a good chain exists.
   */
  lemma OrderDecides(second: bool)
    ensures Searchable(EXAMPLE, [0], Intermediates(second), ROOTS, 0, CODE_SIGNING)
    ensures FirstChain(EXAMPLE, [0], Intermediates(second), ROOTS, 0, CODE_SIGNING, Chain(second))
    ensures Described(EXAMPLE, Chain(second)) <==> !second
    ensures DirectChain(EXAMPLE, [0], Intermediates(second), ROOTS, 0, CODE_SIGNING, Chain(false))
    ensures Described(EXAMPLE, Chain(false))
  {
    hide DirectChain, Searchable, Described, SuppliedEarlier;
    ExampleSearchable(second);
    SecondUndescribed(second);
    SecondUndescribed(false);
    var intermediates := Intermediates(second);
    ChainDirect(intermediates, false);
    ChainDirect(intermediates, true);
    forall q | DirectChain(EXAMPLE, [0], intermediates, ROOTS, 0, CODE_SIGNING, q)
      ensures q == Chain(second) || SuppliedEarlier(ROOTS + intermediates, Chain(second), q)
    {
      OnlyTwo(intermediates, q);
      SuppliedFirst(second);
      assert Chain(!second) == if second then Chain(false) else Chain(true);
    }
  }
}
