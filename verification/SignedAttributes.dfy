/** The signed attributes of CMS: built and ordered as a SET OF, stored under another tag, read back strictly. */
module SignedAttributes {
  import opened ByteStrings
  import opened Der
  import opened Sorting
  import opened Wrappers

  const TAG_OCTETS: Byte := 0x04
  const TAG_OID: Byte := 0x06
  const TAG_SEQUENCE: Byte := 0x30
  const TAG_SET: Byte := 0x31
  const TAG_STORED: Byte := 0xa0
  const MAX_DER := 0x100_0000

  /** An attribute: its identifier, the content of its value SET, and what a lenient decoder skips after it. */
  datatype Attribute = Attribute(oid: Bytes, values: Bytes, extra: Bytes)

  predicate Small(a: Attribute) {
    |a.oid| + |a.values| + |a.extra| < 0x1_0000_0000
  }

  lemma WrapSize(tag: Byte, content: Bytes)
    requires |content| < TWO64
    ensures |content| + 2 <= |Wrap(tag, content)| <= |content| + 10
  {
    EightBytes(|content|);
  }

  function Encoded(a: Attribute): Bytes
    requires Small(a)
  {
    WrapSize(TAG_OID, a.oid);
    WrapSize(TAG_SET, a.values);
    Wrap(TAG_SEQUENCE, Wrap(TAG_OID, a.oid) + Wrap(TAG_SET, a.values) + a.extra)
  }

  /** One attribute from exactly these bytes. */
  function ReadAttribute(validOid: Bytes -> bool, full: Bytes): Option<Attribute> {
    if |full| == 0 || |full| > MAX_DER then
      None
    else
      var v := Read(full);
      if v.None? || v.value.tag != TAG_SEQUENCE || v.value.rest != [] then None
      else ReadFields(validOid, v.value.content)
  }

  function ReadFields(validOid: Bytes -> bool, content: Bytes): Option<Attribute> {
    var oid := Read(content);
    if oid.None? || oid.value.tag != TAG_OID || !validOid(oid.value.content) then
      None
    else
      var values := Read(oid.value.rest);
      if values.None? || values.value.tag != TAG_SET then None
      else Some(Attribute(oid.value.content, values.value.content, values.value.rest))
  }

  /** An attribute is read back from its encoding. */
  lemma ReadEncoded(validOid: Bytes -> bool, a: Attribute)
    requires Small(a) && validOid(a.oid) && |Encoded(a)| <= MAX_DER
    ensures ReadAttribute(validOid, Encoded(a)) == Some(a)
  {
    hide Wrap, Read;
    WrapSize(TAG_OID, a.oid);
    WrapSize(TAG_SET, a.values);
    var tail := Wrap(TAG_SET, a.values) + a.extra;
    var content := Wrap(TAG_OID, a.oid) + tail;
    assert Wrap(TAG_OID, a.oid) + Wrap(TAG_SET, a.values) + a.extra == content;
    ReadWrapped(TAG_SEQUENCE, content, []);
    assert Wrap(TAG_SEQUENCE, content) + [] == Wrap(TAG_SEQUENCE, content);
    ReadWrapped(TAG_OID, a.oid, tail);
    ReadWrapped(TAG_SET, a.values, a.extra);
    WrapSize(TAG_SEQUENCE, content);
  }

  /** Whatever is read as an attribute is the encoding of it. */
  lemma EncodedRead(validOid: Bytes -> bool, full: Bytes)
    requires ReadAttribute(validOid, full).Some?
    ensures var a := ReadAttribute(validOid, full).value; Small(a) && full == Encoded(a)
  {
    hide Wrap, Read;
    WrapRead(full);
    var content := Read(full).value.content;
    WrapSize(TAG_SEQUENCE, content);
    assert Wrap(TAG_SEQUENCE, content) + [] == Wrap(TAG_SEQUENCE, content);
    WrapRead(content);
    var oid := Read(content).value;
    WrapSize(TAG_OID, oid.content);
    WrapRead(oid.rest);
    var values := Read(oid.rest).value;
    WrapSize(TAG_SET, values.content);
    assert content == Wrap(TAG_OID, oid.content) + Wrap(TAG_SET, values.content) + values.rest;
  }

  function Concat(parts: seq<Bytes>): Bytes {
    if parts == [] then [] else parts[0] + Concat(parts[1..])
  }

  /** The content of a SET OF: its elements in the order of section 11.6 of X.690. */
  function SetContent(parts: seq<Bytes>): Bytes {
    Concat(Sort(AtMost, parts))
  }

  /** Sorts the elements where they are, and wraps them. */
  method DerSet(parts: array<Bytes>) returns (out: Bytes)
    requires |SetContent(parts[..])| < TWO64
    modifies parts
    ensures parts[..] == Sort(AtMost, old(parts[..]))
    ensures out == Wrap(TAG_SET, SetContent(old(parts[..])))
  {
    hide Wrap, Sort, AtMost;
    var sorted := Sort(AtMost, parts[..]);
    assert |sorted| == |multiset(sorted)| == |multiset(parts[..])| == parts.Length;
    forall i | 0 <= i < parts.Length {
      parts[i] := sorted[i];
    }
    assert parts[..] == sorted;
    var content: Bytes := [];
    for i := 0 to parts.Length
      invariant parts[..] == sorted
      invariant content + Concat(sorted[i..]) == Concat(sorted)
    {
      assert sorted[i..][1..] == sorted[i + 1..];
      content := content + parts[i];
    }
    assert sorted[parts.Length..] == [] && content + [] == content;
    out := Wrap(TAG_SET, content);
  }

  type Attributes = map<Bytes, Bytes>

  /** Reading on after `previous`, with some attributes seen already. */
  function ParseFrom(validOid: Bytes -> bool, data: Bytes, previous: Option<Bytes>,
                     seen: Attributes): Option<Attributes>
    decreases |data|
  {
    if data == [] then
      Some(seen)
    else
      match Read(data)
      case None => None
      case Some(v) =>
        var full := data[..|data| - |v.rest|];
        var a := ReadAttribute(validOid, full);
        if (previous.Some? && !Less(previous.value, full)) || a.None? || a.value.oid in seen then None
        else ParseFrom(validOid, v.rest, Some(full), seen[a.value.oid := a.value.values])
  }

  function Parse(validOid: Bytes -> bool, tag: Byte, content: Bytes): Option<Attributes> {
    if tag != TAG_STORED || content == [] then None else ParseFrom(validOid, content, None, map[])
  }

  method ParseAttributes(validOid: Bytes -> bool, tag: Byte, content: Bytes) returns (r: Option<Attributes>)
    ensures r == Parse(validOid, tag, content)
  {
    hide Read, ReadAttribute, Less;
    if tag != TAG_STORED || content == [] {
      return None;
    }
    var attrs: Attributes, data, previous: Option<Bytes> := map[], content, None;
    while data != []
      invariant ParseFrom(validOid, data, previous, attrs) == Parse(validOid, tag, content)
      decreases |data|
    {
      var v := Read(data);
      if v.None? {
        return None;
      }
      var full := data[..|data| - |v.value.rest|];
      if previous.Some? && !Less(previous.value, full) {
        return None;
      }
      var a := ReadAttribute(validOid, full);
      if a.None? || a.value.oid in attrs {
        return None;
      }
      attrs, data, previous := attrs[a.value.oid := a.value.values], v.value.rest, Some(full);
    }
    r := Some(attrs);
  }

  function Oid(validOid: Bytes -> bool, part: Bytes): Bytes
    requires ReadAttribute(validOid, part).Some?
  {
    ReadAttribute(validOid, part).value.oid
  }

  /** Encoded attributes, no two with the same identifier. */
  ghost predicate Elements(validOid: Bytes -> bool, parts: seq<Bytes>) {
    && (forall i | 0 <= i < |parts| :: ReadAttribute(validOid, parts[i]).Some?)
    && (forall i, j | 0 <= i < j < |parts| :: Oid(validOid, parts[i]) != Oid(validOid, parts[j]))
  }

  ghost predicate Ascending(previous: Option<Bytes>, parts: seq<Bytes>) {
    && (forall i | 0 < i < |parts| :: Less(parts[i - 1], parts[i]))
    && (previous.Some? && parts != [] ==> Less(previous.value, parts[0]))
  }

  ghost predicate Unseen(validOid: Bytes -> bool, parts: seq<Bytes>, seen: Attributes)
    requires Elements(validOid, parts)
  {
    forall i | 0 <= i < |parts| :: Oid(validOid, parts[i]) !in seen
  }

  ghost function Recorded(validOid: Bytes -> bool, parts: seq<Bytes>, seen: Attributes): Attributes
    requires Elements(validOid, parts)
  {
    if parts == [] then
      seen
    else
      var a := ReadAttribute(validOid, parts[0]).value;
      Recorded(validOid, parts[1..], seen[a.oid := a.values])
  }

  lemma ReadFront(validOid: Bytes -> bool, part: Bytes, rest: Bytes)
    requires ReadAttribute(validOid, part).Some?
    ensures Read(part + rest).Some? && Read(part + rest).value.rest == rest && part != []
    ensures part + rest != [] && (part + rest)[..|part + rest| - |rest|] == part
  {
    hide Wrap, Read, ReadFields;
    WrapRead(part);
    var v := Read(part).value;
    assert Wrap(v.tag, v.content) + [] == Wrap(v.tag, v.content);
    ReadWrapped(v.tag, v.content, rest);
  }

  /** Elements in strict order are accepted, and every one of them is recorded. */
  lemma {:induction false} ParseConcat(validOid: Bytes -> bool, parts: seq<Bytes>, previous: Option<Bytes>,
                                       seen: Attributes)
    requires Elements(validOid, parts) && Ascending(previous, parts) && Unseen(validOid, parts, seen)
    ensures ParseFrom(validOid, Concat(parts), previous, seen) == Some(Recorded(validOid, parts, seen))
    decreases |parts|
  {
    hide ReadAttribute, Less;
    if parts != [] {
      hide Read;
      var a, rest := ReadAttribute(validOid, parts[0]).value, Concat(parts[1..]);
      ReadFront(validOid, parts[0], rest);
      assert Unseen(validOid, parts[1..], seen[a.oid := a.values]);
      ParseConcat(validOid, parts[1..], Some(parts[0]), seen[a.oid := a.values]);
    }
  }

  /** What is accepted is made of elements in strict order. */
  lemma {:induction false} PartsOf(validOid: Bytes -> bool, data: Bytes, previous: Option<Bytes>, seen: Attributes)
    returns (parts: seq<Bytes>)
    requires ParseFrom(validOid, data, previous, seen).Some?
    ensures Concat(parts) == data && Elements(validOid, parts) && Ascending(previous, parts)
      && Unseen(validOid, parts, seen)
    decreases |data|
  {
    hide ReadAttribute, Less, Read;
    if data == [] {
      parts := [];
    } else {
      var v := Read(data).value;
      var full := data[..|data| - |v.rest|];
      var a := ReadAttribute(validOid, full).value;
      var tail := PartsOf(validOid, v.rest, Some(full), seen[a.oid := a.values]);
      parts := [full] + tail;
      assert parts[1..] == tail;
      hide ParseFrom, Concat;
      OneMore(validOid, full, tail, previous, seen);
    }
  }

  lemma OneMore(validOid: Bytes -> bool, full: Bytes, tail: seq<Bytes>, previous: Option<Bytes>, seen: Attributes)
    requires ReadAttribute(validOid, full).Some? && Oid(validOid, full) !in seen && Elements(validOid, tail)
    requires Unseen(validOid, tail, seen[Oid(validOid, full) := ReadAttribute(validOid, full).value.values])
    requires Ascending(Some(full), tail) && (previous.Some? ==> Less(previous.value, full))
    ensures Elements(validOid, [full] + tail) && Ascending(previous, [full] + tail)
      && Unseen(validOid, [full] + tail, seen)
  {
    hide ReadAttribute, Less;
    var parts := [full] + tail;
    assert parts[0] == full && forall i | 0 < i < |parts| :: parts[i] == tail[i - 1];
  }

  lemma StrictOrder(parts: seq<Bytes>)
    requires Distinct(parts)
    ensures Ascending(None, Sort(AtMost, parts))
  {
    AtMostIsTotalOrder();
    SortIsSorted(AtMost, parts);
    var sorted := Sort(AtMost, parts);
    DistinctCounts(parts);
    CountsDistinct(sorted);
    hide Sort, Less;
    forall i | 0 < i < |sorted|
      ensures Less(sorted[i - 1], sorted[i])
    {
      assert AtMost(sorted[i - 1], sorted[i]) && sorted[i - 1] != sorted[i];
      LessTotal(sorted[i - 1], sorted[i]);
    }
  }

  lemma SortKeepsElements(validOid: Bytes -> bool, parts: seq<Bytes>)
    requires Elements(validOid, parts)
    ensures Elements(validOid, Sort(AtMost, parts)) && |Sort(AtMost, parts)| == |parts| && Distinct(parts)
  {
    hide Sort, ReadAttribute;
    var sorted := Sort(AtMost, parts);
    assert |sorted| == |multiset(sorted)| == |multiset(parts)| == |parts|;
    forall i | 0 <= i < |sorted|
      ensures ReadAttribute(validOid, sorted[i]).Some?
    {
      InMultiset(sorted, i);
      var k := Find(parts, sorted[i]);
    }
    forall i, j | 0 <= i < j < |sorted|
      ensures Oid(validOid, sorted[i]) != Oid(validOid, sorted[j])
    {
      var m, n := TwoPlaces(sorted, parts, i, j);
    }
  }

  ghost predicate Records(validOid: Bytes -> bool, parts: seq<Bytes>, m: Attributes)
    requires Elements(validOid, parts)
  {
    && (forall part <- parts :: ReadAttribute(validOid, part).Some?)
    && (forall part <- parts ::
      Oid(validOid, part) in m && m[Oid(validOid, part)] == ReadAttribute(validOid, part).value.values)
    && (forall oid <- m :: exists part <- parts :: Oid(validOid, part) == oid)
  }

  lemma {:induction false} RecordedHolds(validOid: Bytes -> bool, parts: seq<Bytes>, seen: Attributes)
    requires Elements(validOid, parts) && Unseen(validOid, parts, seen)
    ensures var m := Recorded(validOid, parts, seen);
      && (forall i | 0 <= i < |parts| ::
        Oid(validOid, parts[i]) in m && m[Oid(validOid, parts[i])] == ReadAttribute(validOid, parts[i]).value.values)
      && (forall oid <- seen :: oid in m && m[oid] == seen[oid])
      && (forall oid <- m :: oid in seen || exists i :: 0 <= i < |parts| && Oid(validOid, parts[i]) == oid)
    decreases |parts|
  {
    hide ReadAttribute;
    if parts != [] {
      var a := ReadAttribute(validOid, parts[0]).value;
      var m := Recorded(validOid, parts[1..], seen[a.oid := a.values]);
      RecordedHolds(validOid, parts[1..], seen[a.oid := a.values]);
      assert parts == [parts[0]] + parts[1..];
      forall i | 0 <= i < |parts|
        ensures Oid(validOid, parts[i]) in m
          && m[Oid(validOid, parts[i])] == ReadAttribute(validOid, parts[i]).value.values
      {
        if i > 0 {
          assert parts[i] == parts[1..][i - 1];
        }
      }
      forall oid <- m | oid !in seen
        ensures exists i :: 0 <= i < |parts| && Oid(validOid, parts[i]) == oid
      {
        if oid == a.oid {
          assert Oid(validOid, parts[0]) == oid;
        } else {
          var i :| 0 <= i < |parts[1..]| && Oid(validOid, parts[1..][i]) == oid;
          assert Oid(validOid, parts[i + 1]) == oid;
        }
      }
    }
  }

  /** A signed SET, stored under its other tag, is accepted with every attribute recovered. */
  lemma BuiltIsAccepted(validOid: Bytes -> bool, parts: seq<Bytes>)
    requires parts != [] && Elements(validOid, parts)
    ensures Parse(validOid, TAG_STORED, SetContent(parts)).Some?
    ensures Records(validOid, parts, Parse(validOid, TAG_STORED, SetContent(parts)).value)
  {
    hide ReadAttribute, Read, Sort, Less, Ascending, Elements, Records, ParseFrom, Recorded;
    var sorted := Sort(AtMost, parts);
    SortKeepsElements(validOid, parts);
    StrictOrder(parts);
    NothingSeen(validOid, sorted);
    ParseConcat(validOid, sorted, None, map[]);
    SetNotEmpty(validOid, sorted);
    AnyOrderRecords(validOid, parts, sorted);
  }

  lemma NothingSeen(validOid: Bytes -> bool, parts: seq<Bytes>)
    requires Elements(validOid, parts)
    ensures Unseen(validOid, parts, map[])
  {
    hide ReadAttribute;
  }

  lemma SetNotEmpty(validOid: Bytes -> bool, sorted: seq<Bytes>)
    requires sorted != [] && Elements(validOid, sorted)
    ensures Concat(sorted) != []
  {
    hide Read, ReadAttribute;
    ReadFront(validOid, sorted[0], Concat(sorted[1..]));
  }

  /** What is recorded of the sorted elements is what was to be recorded of them. */
  lemma AnyOrderRecords(validOid: Bytes -> bool, parts: seq<Bytes>, sorted: seq<Bytes>)
    requires Elements(validOid, parts) && Elements(validOid, sorted) && multiset(sorted) == multiset(parts)
      && |sorted| == |parts|
    ensures Records(validOid, parts, Recorded(validOid, sorted, map[]))
  {
    hide ReadAttribute;
    NothingSeen(validOid, sorted);
    RecordedHolds(validOid, sorted, map[]);
    hide Recorded, Unseen;
    var m := Recorded(validOid, sorted, map[]);
    forall part <- parts
      ensures ReadAttribute(validOid, part).Some? && Oid(validOid, part) in m
        && m[Oid(validOid, part)] == ReadAttribute(validOid, part).value.values
    {
      assert part in multiset(parts);
      var k := Find(sorted, part);
    }
    forall oid <- m
      ensures exists part <- parts :: Oid(validOid, part) == oid
    {
      var i :| 0 <= i < |sorted| && Oid(validOid, sorted[i]) == oid;
      InMultiset(sorted, i);
      var k := Find(parts, sorted[i]);
      assert Oid(validOid, parts[k]) == oid;
    }
  }

  lemma {:induction false} AscendingIsSorted(parts: seq<Bytes>)
    requires Ascending(None, parts)
    ensures Sort(AtMost, parts) == parts
  {
    AtMostIsTotalOrder();
    SortIsSorted(AtMost, parts);
    hide Sort;
    forall i, j | 0 <= i < j < |parts|
      ensures AtMost(parts[i], parts[j])
    {
      LessFar(parts, i, j);
      LessAsymmetric(parts[i], parts[j]);
    }
    SortedUnique(AtMost, Sort(AtMost, parts), parts);
  }

  lemma {:induction false} LessFar(parts: seq<Bytes>, i: nat, j: nat)
    requires Ascending(None, parts) && i < j < |parts|
    ensures Less(parts[i], parts[j])
    decreases j
  {
    hide Less;
    if i < j - 1 {
      LessFar(parts, i, j - 1);
      LessTransitive(parts[i], parts[j - 1], parts[j]);
    }
  }

  /**
   * The strict reader accepts exactly what the signer's construction yields: a nonempty SET OF
   * attributes with different identifiers, in the order of section 11.6 of X.690.
   */
  lemma AcceptedExactly(validOid: Bytes -> bool, content: Bytes)
    ensures Parse(validOid, TAG_STORED, content).Some? <==>
      exists parts :: parts != [] && Elements(validOid, parts) && content == SetContent(parts)
  {
    hide ReadAttribute, Read, Sort, Less;
    if Parse(validOid, TAG_STORED, content).Some? {
      var parts := PartsOf(validOid, content, None, map[]);
      AscendingIsSorted(parts);
      assert parts != [] && Elements(validOid, parts) && content == SetContent(parts);
    }
    forall parts | parts != [] && Elements(validOid, parts) && content == SetContent(parts)
      ensures Parse(validOid, TAG_STORED, content).Some?
    {
      BuiltIsAccepted(validOid, parts);
    }
  }

  /** Bytes behind the values of an attribute are skipped: it is accepted and recorded as if they were not there. */
  lemma ExtraIsSkipped(validOid: Bytes -> bool, a: Attribute)
    requires Small(a) && validOid(a.oid) && |Encoded(a)| <= MAX_DER
    ensures Parse(validOid, TAG_STORED, Encoded(a)) == Some(map[a.oid := a.values])
  {
    ReadEncoded(validOid, a);
    var parts := [Encoded(a)];
    assert Concat(parts) == Encoded(a) + Concat([]) == Encoded(a);
    assert Encoded(a) != [] by { NotEmpty(validOid, Encoded(a)); }
    hide ReadAttribute, Encoded, Read;
    ParseConcat(validOid, parts, None, map[]);
    assert Recorded(validOid, parts, map[]) == map[a.oid := a.values];
  }

  lemma NotEmpty(validOid: Bytes -> bool, full: Bytes)
    requires ReadAttribute(validOid, full).Some?
    ensures full != []
  {
  }

  /** One attribute, spelled twice: the second has a byte to spare, and reads as the first. */
  lemma SpareByte()
    ensures var oid, values := [42, 3], [5, 0];
      var plain, spare := Attribute(oid, values, []), Attribute(oid, values, [0]);
      && Encoded(plain) != Encoded(spare)
      && Parse(o => true, TAG_STORED, Encoded(plain)) == Parse(o => true, TAG_STORED, Encoded(spare))
        == Some(map[oid := values])
  {
    var oid: Bytes, values: Bytes := [42, 3], [5, 0];
    var plain, spare := Attribute(oid, values, []), Attribute(oid, values, [0]);
    forall a | a in {plain, spare}
      ensures |Encoded(a)| <= 34
    {
      WrapSize(TAG_OID, oid);
      WrapSize(TAG_SET, values);
      WrapSize(TAG_SEQUENCE, Wrap(TAG_OID, oid) + Wrap(TAG_SET, values) + a.extra);
    }
    ExtraIsSkipped(o => true, plain);
    ExtraIsSkipped(o => true, spare);
    ReadEncoded(o => true, plain);
    ReadEncoded(o => true, spare);
  }
}
