/** Definite-length DER values: sections 8.1.3 and 10.1 of X.690. */
module Der {
  import opened ByteStrings
  import opened Wrappers

  /** Big-endian, without leading zeros. */
  function Digits(n: nat): (d: Bytes)
    ensures d != [] ==> d[0] != 0
  {
    if n == 0 then [] else Digits(n / 256) + [n % 256]
  }

  function Value(d: Bytes): nat {
    if d == [] then 0 else Value(d[..|d| - 1]) * 256 + d[|d| - 1]
  }

  lemma {:induction false} ValueOfDigits(n: nat)
    ensures Value(Digits(n)) == n
  {
    if n > 0 {
      ValueOfDigits(n / 256);
      assert Digits(n)[..|Digits(n)| - 1] == Digits(n / 256);
    }
  }

  lemma {:induction false} DigitsOfValue(d: Bytes)
    requires d != [] ==> d[0] != 0
    ensures Digits(Value(d)) == d
  {
    if d != [] {
      var front := d[..|d| - 1];
      DigitsOfValue(front);
      PositiveValue(d);
      assert Value(d) / 256 == Value(front) && Value(d) % 256 == d[|d| - 1];
    }
  }

  lemma {:induction false} PositiveValue(d: Bytes)
    requires d != [] && d[0] != 0
    ensures Value(d) > 0
  {
    if |d| > 1 {
      PositiveValue(d[..|d| - 1]);
    }
  }

  function Power(k: nat): nat {
    if k == 0 then 1 else 256 * Power(k - 1)
  }

  lemma {:induction false} DigitCount(n: nat, k: nat)
    requires n < Power(k)
    ensures |Digits(n)| <= k
  {
    if n > 0 {
      DigitCount(n / 256, k - 1);
    }
  }

  lemma EightBytes(n: nat)
    requires n < TWO64
    ensures |Digits(n)| <= 8
  {
    assert Power(4) == 0x1_0000_0000;
    assert Power(8) == TWO64;
    DigitCount(n, 8);
  }

  /** The tag and length of a value with `length` content bytes. */
  function Header(tag: Byte, length: nat): Bytes
    requires length < TWO64
  {
    EightBytes(length);
    [tag] + if length < 128 then [length] else [128 + |Digits(length)|] + Digits(length)
  }

  function Wrap(tag: Byte, content: Bytes): Bytes
    requires |content| < TWO64
  {
    Header(tag, |content|) + content
  }

  /** Fills a buffer from its end, one length byte after the other. */
  method WriteHeader(tag: Byte, length: nat) returns (out: Bytes)
    requires length < TWO64
    ensures out == Header(tag, length)
  {
    EightBytes(length);
    out := [tag];
    if length < 128 {
      out := out + [length];
    } else {
      var buf := new Byte[8](i => 0);
      var n, i := length, 8;
      while n > 0
        invariant 0 <= i <= 8 && |Digits(n)| <= i
        invariant Digits(length) == Digits(n) + buf[i..]
        decreases n
      {
        i := i - 1;
        buf[i] := n % 256;
        n := n / 256;
      }
      out := out + [128 + (8 - i)] + buf[i..];
    }
  }

  datatype Tlv = Tlv(tag: Byte, content: Bytes, rest: Bytes)

  /** Reads one value: short or long definite length in the fewest bytes, and a one-byte tag. */
  function Read(data: Bytes): (r: Option<Tlv>)
    ensures r.Some? ==> |r.value.rest| < |data| && r.value.rest == data[|data| - |r.value.rest|..]
  {
    if |data| < 2 || data[0] % 32 == 31 then
      None
    else if data[1] < 128 then
      Take(data[0], data[2..], data[1])
    else if data[1] == 128 || data[1] > 136 || |data| - 2 < data[1] - 128 then
      None
    else
      var k := data[1] - 128;
      var digits := data[2..2 + k];
      if digits[0] == 0 || Value(digits) < 128 then None else Take(data[0], data[2 + k..], Value(digits))
  }

  function Take(tag: Byte, data: Bytes, n: nat): Option<Tlv> {
    if n > |data| then None else Some(Tlv(tag, data[..n], data[n..]))
  }

  lemma ReadLong(tag: Byte, digits: Bytes, tail: Bytes)
    requires tag % 32 != 31 && 1 <= |digits| <= 8 && digits[0] != 0 && 128 <= Value(digits)
    ensures Read([tag, 128 + |digits|] + digits + tail) == Take(tag, tail, Value(digits))
  {
    hide Value, Take;
    var data := [tag, 128 + |digits|] + digits + tail;
    assert data[2..2 + |digits|] == digits && data[2 + |digits|..] == tail;
  }

  /** A long length was written in this way and no other. */
  lemma LongHeader(tag: Byte, digits: Bytes)
    requires 1 <= |digits| <= 8 && digits[0] != 0 && 128 <= Value(digits) < TWO64
    ensures Header(tag, Value(digits)) == [tag, 128 + |digits|] + digits
  {
    hide Digits, Value;
    DigitsOfValue(digits);
    var n := Value(digits);
    assert Header(tag, n) == [tag] + ([128 + |digits|] + digits);
  }

  lemma WrapLong(tag: Byte, digits: Bytes, content: Bytes, rest: Bytes)
    requires 1 <= |digits| <= 8 && digits[0] != 0 && 128 <= Value(digits) == |content| < TWO64
    ensures [tag, 128 + |digits|] + digits + (content + rest) == Wrap(tag, content) + rest
  {
    LongHeader(tag, digits);
    hide Header, Value;
    assert [tag, 128 + |digits|] + digits + (content + rest) == [tag, 128 + |digits|] + digits + content + rest;
  }

  /** What was wrapped is read back, whatever follows it. */
  lemma ReadWrapped(tag: Byte, content: Bytes, rest: Bytes)
    requires |content| < TWO64 && tag % 32 != 31
    ensures Read(Wrap(tag, content) + rest) == Some(Tlv(tag, content, rest))
  {
    var n, data := |content|, Wrap(tag, content) + rest;
    assert (content + rest)[..n] == content && (content + rest)[n..] == rest;
    if n < 128 {
      assert data == [tag, n] + (content + rest);
      assert data[2..] == content + rest;
    } else {
      hide Read, Digits, Value, Wrap;
      var digits := Digits(n);
      EightBytes(n);
      ValueOfDigits(n);
      NonzeroDigits(n);
      ReadLong(tag, digits, content + rest);
      WrapLong(tag, digits, content, rest);
    }
  }

  lemma NonzeroDigits(n: nat)
    requires n > 0
    ensures Digits(n) != []
  {
  }

  /** Only one byte string reads as a given value. */
  lemma WrapRead(data: Bytes)
    requires Read(data).Some? && |data| < TWO64
    ensures var v := Read(data).value;
      |v.content| < TWO64 && v.tag % 32 != 31 && data == Wrap(v.tag, v.content) + v.rest
  {
    hide Wrap, Value;
    var v := Read(data).value;
    if data[1] < 128 {
      ShortRead(data);
    } else {
      var k := data[1] - 128;
      var digits, tail := data[2..2 + k], data[2 + k..];
      assert data == [data[0], 128 + |digits|] + digits + tail;
      assert v == Tlv(data[0], tail[..Value(digits)], tail[Value(digits)..]);
      assert tail == v.content + v.rest;
      WrapLong(data[0], digits, v.content, v.rest);
    }
  }

  lemma ShortRead(data: Bytes)
    requires |data| >= 2 && data[1] < 128 && data[1] <= |data| - 2
    ensures data == Wrap(data[0], data[2..][..data[1]]) + data[2..][data[1]..]
  {
    hide Digits;
    EightBytes(data[1]);
    assert data == [data[0], data[1]] + data[2..][..data[1]] + data[2..][data[1]..];
  }
}
