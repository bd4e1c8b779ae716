/** What a CMS signature binds: the attributes a signer builds, and the checks a verifier makes of them. */
module AttributeBinding {
  import opened ByteStrings
  import opened Der
  import opened SignedAttributes
  import opened Sorting
  import opened Wrappers

  const OID_DATA: Bytes := [42, 134, 72, 134, 247, 13, 1, 7, 1]
  const OID_CONTENT_TYPE: Bytes := [42, 134, 72, 134, 247, 13, 1, 9, 3]
  const OID_MESSAGE_DIGEST: Bytes := [42, 134, 72, 134, 247, 13, 1, 9, 4]
  const OID_SIGNING_TIME: Bytes := [42, 134, 72, 134, 247, 13, 1, 9, 5]
  const OID_HASH_AGILITY: Bytes := [42, 134, 72, 134, 247, 99, 100, 9, 1]
  const OID_HASH_AGILITY_V2: Bytes := [42, 134, 72, 134, 247, 99, 100, 9, 2]

  const OIDS := [OID_CONTENT_TYPE, OID_MESSAGE_DIGEST, OID_SIGNING_TIME, OID_HASH_AGILITY, OID_HASH_AGILITY_V2]

  /** Hashes, signatures and formats that are not part of this model. */
  datatype Tools = Tools(
    sha256: Bytes -> Bytes, sign: Bytes -> Bytes, verify: (Bytes, Bytes) -> bool, plist: seq<Bytes> -> Bytes,
    readPlist: Bytes -> Option<seq<Bytes>>, validOid: Bytes -> bool, validTime: Bytes -> bool)

  ghost predicate Sound(t: Tools) {
    && (forall d :: t.verify(d, t.sign(d)))
    && (forall h :: t.readPlist(t.plist(h)) == Some(h))
    && t.validOid(OID_DATA) && forall i | 0 <= i < |OIDS| :: t.validOid(OIDS[i])
  }

  /** What is bound to the code directories: their hashes, by digest and in a property list, and the primary's. */
  datatype Binding = Binding(hashes: seq<Bytes>, agility: seq<Bytes>, primary: Bytes)

  /** Values that a 16 MiB attribute has room for. */
  predicate Modest(t: Tools, bound: Binding, date: Bytes) {
    && |bound.primary| < 0x10_0000 && |t.plist(bound.hashes)| < 0x10_0000
    && |SetContent(bound.agility)| < 0x10_0000 && |date| < 0x10_0000
  }

  function Built(t: Tools, bound: Binding, date: Bytes): (attrs: seq<Attribute>)
    requires Modest(t, bound, date)
    ensures |attrs| == 5
  {
    WrapSize(TAG_OID, OID_DATA);
    [Attribute(OID_CONTENT_TYPE, Wrap(TAG_OID, OID_DATA), []),
     Attribute(OID_MESSAGE_DIGEST, Wrap(TAG_OCTETS, bound.primary), []),
     Attribute(OID_SIGNING_TIME, date, []),
     Attribute(OID_HASH_AGILITY, Wrap(TAG_OCTETS, t.plist(bound.hashes)), []),
     Attribute(OID_HASH_AGILITY_V2, SetContent(bound.agility), [])]
  }

  lemma BuiltFits(t: Tools, bound: Binding, date: Bytes)
    requires Modest(t, bound, date)
    ensures forall a <- Built(t, bound, date) :: Small(a) && |Encoded(a)| <= 0x20_0000
  {
    WrapSize(TAG_OID, OID_DATA);
    WrapSize(TAG_OCTETS, bound.primary);
    WrapSize(TAG_OCTETS, t.plist(bound.hashes));
    forall a <- Built(t, bound, date)
      ensures Small(a) && |Encoded(a)| <= 0x20_0000
    {
      assert |a.oid| + |a.values| + |a.extra| < 0x10_0100;
      EncodedSize(a);
    }
  }

  lemma EncodedSize(a: Attribute)
    requires Small(a)
    ensures |Encoded(a)| <= |a.oid| + |a.values| + |a.extra| + 30
  {
    hide Wrap;
    WrapSize(TAG_OID, a.oid);
    WrapSize(TAG_SET, a.values);
    WrapSize(TAG_SEQUENCE, Wrap(TAG_OID, a.oid) + Wrap(TAG_SET, a.values) + a.extra);
  }

  function Encodings(attrs: seq<Attribute>): seq<Bytes>
    requires forall a <- attrs :: Small(a)
  {
    seq(|attrs|, i requires 0 <= i < |attrs| => Encoded(attrs[i]))
  }

  lemma BuiltElements(t: Tools, bound: Binding, date: Bytes)
    requires Sound(t) && Modest(t, bound, date)
    ensures forall a <- Built(t, bound, date) :: Small(a)
    ensures forall a <- Built(t, bound, date) :: ReadAttribute(t.validOid, Encoded(a)) == Some(a)
    ensures Elements(t.validOid, Encodings(Built(t, bound, date)))
  {
    BuiltOids(t, bound, date);
    hide Built, Encoded, Wrap, ReadAttribute, Modest;
    BuiltFits(t, bound, date);
    var attrs := Built(t, bound, date);
    forall i | 0 <= i < |attrs|
      ensures ReadAttribute(t.validOid, Encoded(attrs[i])) == Some(attrs[i])
    {
      assert attrs[i] in attrs && t.validOid(OIDS[i]);
      ReadEncoded(t.validOid, attrs[i]);
    }
    DifferentOids();
  }

  lemma BuiltOids(t: Tools, bound: Binding, date: Bytes)
    requires Modest(t, bound, date)
    ensures forall i | 0 <= i < 5 :: Built(t, bound, date)[i].oid == OIDS[i]
  {
    hide Wrap;
  }

  lemma DifferentOids()
    ensures Distinct(OIDS)
  {
    assert OID_CONTENT_TYPE[8] == 3 && OID_MESSAGE_DIGEST[8] == 4 && OID_SIGNING_TIME[8] == 5;
    assert OID_HASH_AGILITY[5] == 99 && OID_HASH_AGILITY_V2[5] == 99 && OID_HASH_AGILITY[8] == 1
      && OID_HASH_AGILITY_V2[8] == 2;
  }

  lemma {:induction false} ConcatSize(parts: seq<Bytes>, most: nat)
    requires forall i | 0 <= i < |parts| :: |parts[i]| <= most
    ensures |Concat(parts)| <= |parts| * most
  {
    if parts != [] {
      ConcatSize(parts[1..], most);
    }
  }

  /** The content of the SET that is signed. */
  function SignedContent(t: Tools, bound: Binding, date: Bytes): (content: Bytes)
    requires Modest(t, bound, date)
    ensures |content| < TWO64
  {
    hide Wrap, Built, Encoded, Modest;
    BuiltFits(t, bound, date);
    SetSize(Built(t, bound, date));
    SetContent(Encodings(Built(t, bound, date)))
  }

  lemma SetSize(attrs: seq<Attribute>)
    requires |attrs| == 5 && forall a <- attrs :: Small(a) && |Encoded(a)| <= 0x20_0000
    ensures |SetContent(Encodings(attrs))| < 0x100_0000
  {
    hide Encoded, Sort;
    var parts := Encodings(attrs);
    var sorted := Sort(AtMost, parts);
    assert |sorted| == |multiset(sorted)| == |multiset(parts)| == 5;
    forall i | 0 <= i < |sorted|
      ensures |sorted[i]| <= 0x20_0000
    {
      InMultiset(sorted, i);
      var k := Find(parts, sorted[i]);
      assert parts[k] == Encoded(attrs[k]);
    }
    ConcatSize(sorted, 0x20_0000);
  }

  function ReadExactly(tag: Byte, data: Bytes): Option<Bytes> {
    if |data| == 0 || |data| > MAX_DER then
      None
    else
      var v := Read(data);
      if v.Some? && v.value.tag == tag && v.value.rest == [] then Some(v.value.content) else None
  }

  /** The attributes name this binding, and their SET is what was signed. */
  ghost predicate Binds(t: Tools, tag: Byte, content: Bytes, sig: Bytes, bound: Binding)
    requires |content| < TWO64
  {
    var m := Parse(t.validOid, tag, content);
    && m.Some? && Names(t, m.value, bound)
    && t.verify(t.sha256(Wrap(TAG_SET, content)), sig)
  }

  predicate Names(t: Tools, m: Attributes, bound: Binding) {
    && OID_CONTENT_TYPE in m && ReadExactly(TAG_OID, m[OID_CONTENT_TYPE]) == Some(OID_DATA)
    && OID_MESSAGE_DIGEST in m && ReadExactly(TAG_OCTETS, m[OID_MESSAGE_DIGEST]) == Some(bound.primary)
    && OID_HASH_AGILITY in m && ReadExactly(TAG_OCTETS, m[OID_HASH_AGILITY]).Some?
    && t.readPlist(ReadExactly(TAG_OCTETS, m[OID_HASH_AGILITY]).value) == Some(bound.hashes)
    && OID_HASH_AGILITY_V2 in m && m[OID_HASH_AGILITY_V2] == SetContent(bound.agility)
    && (OID_SIGNING_TIME in m ==> t.validTime(m[OID_SIGNING_TIME]))
  }

  /** Both bindings list the same hashes; the order of the version 2 digests is not recorded. */
  ghost predicate SameBinding(a: Binding, b: Binding) {
    a.hashes == b.hashes && a.primary == b.primary && SetContent(a.agility) == SetContent(b.agility)
  }

  method DigestInput(content: Bytes) returns (bytes: Bytes)
    requires |content| < TWO64
    ensures bytes == Wrap(TAG_SET, content)
  {
    var header := WriteHeader(TAG_SET, |content|);
    bytes := header + content;
  }

  method VerifyAttributes(t: Tools, tag: Byte, content: Bytes, sig: Bytes, bound: Binding) returns (ok: bool)
    requires |content| < TWO64
    ensures ok <==> Binds(t, tag, content, sig, bound)
  {
    hide ReadExactly, Parse, SetContent, Wrap;
    var parsed := ParseAttributes(t.validOid, tag, content);
    if parsed.None? {
      return false;
    }
    var m := parsed.value;
    if OID_CONTENT_TYPE !in m || ReadExactly(TAG_OID, m[OID_CONTENT_TYPE]) != Some(OID_DATA) {
      return false;
    }
    if OID_MESSAGE_DIGEST !in m || ReadExactly(TAG_OCTETS, m[OID_MESSAGE_DIGEST]) != Some(bound.primary) {
      return false;
    }
    if OID_HASH_AGILITY !in m || ReadExactly(TAG_OCTETS, m[OID_HASH_AGILITY]).None? {
      return false;
    }
    if t.readPlist(ReadExactly(TAG_OCTETS, m[OID_HASH_AGILITY]).value) != Some(bound.hashes) {
      return false;
    }
    if OID_HASH_AGILITY_V2 !in m || m[OID_HASH_AGILITY_V2] != SetContent(bound.agility) {
      return false;
    }
    if OID_SIGNING_TIME in m && !t.validTime(m[OID_SIGNING_TIME]) {
      return false;
    }
    var input := DigestInput(content);
    ok := t.verify(t.sha256(input), sig);
  }

  lemma ReadsExactly(tag: Byte, content: Bytes)
    requires |content| < 0x10_0000 && tag % 32 != 31
    ensures ReadExactly(tag, Wrap(tag, content)) == Some(content)
  {
    hide Read, Wrap;
    WrapSize(tag, content);
    ReadWrapped(tag, content, []);
    assert Wrap(tag, content) + [] == Wrap(tag, content);
  }

  /** The bytes are that value and nothing else, within 16 MiB. */
  predicate Spells(tag: Byte, data: Bytes, content: Bytes) {
    |content| < TWO64 && data == Wrap(tag, content) && |data| <= 0x100_0000
  }

  lemma ReadExactlyWhen(tag: Byte, data: Bytes, content: Bytes)
    requires tag % 32 != 31
    ensures ReadExactly(tag, data) == Some(content) <==> Spells(tag, data, content)
  {
    hide Read, Wrap;
    if ReadExactly(tag, data) == Some(content) {
      WrapRead(data);
      assert Wrap(tag, content) + [] == Wrap(tag, content);
    }
    if Spells(tag, data, content) {
      WrapSize(tag, content);
      ReadWrapped(tag, content, []);
      assert Wrap(tag, content) + [] == Wrap(tag, content);
    }
  }

  /** What every accepted set of attributes holds: data, the primary digest, all hashes twice, and no bad time. */
  lemma NamesExactly(t: Tools, m: Attributes, bound: Binding)
    ensures Names(t, m, bound) <==>
      && OID_CONTENT_TYPE in m && Spells(0x06, m[OID_CONTENT_TYPE], [42, 134, 72, 134, 247, 13, 1, 7, 1])
      && OID_MESSAGE_DIGEST in m && Spells(0x04, m[OID_MESSAGE_DIGEST], bound.primary)
      && OID_HASH_AGILITY in m
      && (exists list: Bytes :: Spells(0x04, m[OID_HASH_AGILITY], list) && t.readPlist(list) == Some(bound.hashes))
      && OID_HASH_AGILITY_V2 in m && m[OID_HASH_AGILITY_V2] == SetContent(bound.agility)
      && (OID_SIGNING_TIME in m ==> t.validTime(m[OID_SIGNING_TIME]))
  {
    hide ReadExactly, Spells, SetContent;
    forall tag, data, content: Bytes | tag == TAG_OID || tag == TAG_OCTETS
      ensures ReadExactly(tag, data) == Some(content) <==> Spells(tag, data, content)
    {
      ReadExactlyWhen(tag, data, content);
    }
    if OID_HASH_AGILITY in m && ReadExactly(TAG_OCTETS, m[OID_HASH_AGILITY]).Some? {
      assert Spells(TAG_OCTETS, m[OID_HASH_AGILITY], ReadExactly(TAG_OCTETS, m[OID_HASH_AGILITY]).value);
    }
  }

  /** What the signer builds is parsed with its five attributes as they were. */
  lemma BuiltParses(t: Tools, bound: Binding, date: Bytes)
    requires Sound(t) && Modest(t, bound, date)
    ensures var r := Parse(t.validOid, TAG_STORED, SignedContent(t, bound, date));
      r.Some? && forall i | 0 <= i < 5 :: OIDS[i] in r.value && r.value[OIDS[i]] == Built(t, bound, date)[i].values
  {
    BuiltElements(t, bound, date);
    BuiltOids(t, bound, date);
    hide Built, Encoded, Wrap, ReadAttribute, Modest, SetContent, Parse;
    var attrs := Built(t, bound, date);
    var parts := Encodings(attrs);
    BuiltIsAccepted(t.validOid, parts);
    forall i | 0 <= i < 5
      ensures var m := Parse(t.validOid, TAG_STORED, SetContent(parts)).value;
        OIDS[i] in m && m[OIDS[i]] == attrs[i].values
    {
      assert parts[i] in parts && attrs[i] in attrs;
      assert Oid(t.validOid, parts[i]) == OIDS[i];
    }
  }

  lemma CarriedNames(t: Tools, m: Attributes, bound: Binding, date: Bytes, other: Binding)
    requires Sound(t) && Modest(t, bound, date) && t.validTime(date)
    requires forall i | 0 <= i < 5 :: OIDS[i] in m && m[OIDS[i]] == Built(t, bound, date)[i].values
    requires ReadExactly(TAG_OID, Wrap(TAG_OID, OID_DATA)) == Some(OID_DATA)
    requires ReadExactly(TAG_OCTETS, Wrap(TAG_OCTETS, bound.primary)) == Some(bound.primary)
    requires ReadExactly(TAG_OCTETS, Wrap(TAG_OCTETS, t.plist(bound.hashes))) == Some(t.plist(bound.hashes))
    ensures Names(t, m, other) <==> SameBinding(bound, other)
  {
    hide Wrap, SetContent, ReadExactly;
    assert OIDS[0] in m && m[OIDS[0]] == Wrap(TAG_OID, OID_DATA);
    assert OIDS[1] in m && m[OIDS[1]] == Wrap(TAG_OCTETS, bound.primary);
    assert OIDS[2] in m && m[OIDS[2]] == date;
    assert OIDS[3] in m && m[OIDS[3]] == Wrap(TAG_OCTETS, t.plist(bound.hashes));
    assert OIDS[4] in m && m[OIDS[4]] == SetContent(bound.agility);
  }

  /** A verifier finds in what was signed for `bound` the binding it expects exactly when that is the same binding. */
  lemma SignedNames(t: Tools, bound: Binding, date: Bytes, other: Binding)
    requires Sound(t) && Modest(t, bound, date) && t.validTime(date)
    ensures var r := Parse(t.validOid, TAG_STORED, SignedContent(t, bound, date));
      r.Some? && (Names(t, r.value, other) <==> SameBinding(bound, other))
  {
    assert |bound.primary| < 0x10_0000 && |t.plist(bound.hashes)| < 0x10_0000 && |OID_DATA| == 9;
    hide *;
    BuiltParses(t, bound, date);
    ReadsExactly(TAG_OID, OID_DATA);
    ReadsExactly(TAG_OCTETS, bound.primary);
    ReadsExactly(TAG_OCTETS, t.plist(bound.hashes));
    CarriedNames(t, Parse(t.validOid, TAG_STORED, SignedContent(t, bound, date)).value, bound, date, other);
  }

  /**
   * Builds, orders and signs the attributes, then stores the SET under its other tag. Reading it
   * back yields the content that was signed, and it verifies for exactly the binding it was made for.
   */
  method SignAttributes(t: Tools, bound: Binding, date: Bytes) returns (stored: Bytes, sig: Bytes)
    requires Sound(t) && Modest(t, bound, date) && t.validTime(date)
    ensures Read(stored) == Some(Tlv(TAG_STORED, SignedContent(t, bound, date), []))
    ensures sig == t.sign(t.sha256(Wrap(TAG_SET, SignedContent(t, bound, date))))
    ensures forall other ::
      Binds(t, TAG_STORED, SignedContent(t, bound, date), sig, other) <==> SameBinding(bound, other)
  {
    hide Built, Encoded, Modest, SetContent, Parse, Names, SameBinding;
    BuiltFits(t, bound, date);
    var attrs := Built(t, bound, date);
    var content := SignedContent(t, bound, date);
    var parts := new Bytes[5](i requires 0 <= i < 5 => assert attrs[i] in attrs; Encoded(attrs[i]));
    assert parts[..] == Encodings(attrs);
    var set_ := DerSet(parts);
    sig := t.sign(t.sha256(set_));
    stored := set_[0 := TAG_STORED];
    Retagged(content);
    forall other
      ensures Binds(t, TAG_STORED, content, sig, other) <==> SameBinding(bound, other)
    {
      SignedNames(t, bound, date, other);
    }
  }

  /** Changing the first byte changes the tag, and nothing that a reader or a digest sees of the content. */
  lemma Retagged(content: Bytes)
    requires |content| < TWO64
    ensures Wrap(TAG_SET, content) != []
      && Read(Wrap(TAG_SET, content)[0 := TAG_STORED]) == Some(Tlv(TAG_STORED, content, []))
  {
    hide Read;
    assert Wrap(TAG_SET, content)[0 := TAG_STORED] == Wrap(TAG_STORED, content) + [];
    ReadWrapped(TAG_STORED, content, []);
  }
}
