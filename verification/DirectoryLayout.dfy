/** The CodeDirectory header as a list of fields, one after the other, and that the reader recovers them. */
module DirectoryLayout {
  import opened ByteStrings
  import opened Wrappers
  import opened SignatureContainer
  import SuperblobWriter

  /** All fields a header may have; which ones it has depends on its version. */
  datatype Header = Header(
    magic: nat, length: nat, version: nat, flags: nat, hashOffset: nat, identOffset: nat, specialSlots: nat,
    codeSlots: nat, codeLimit: nat, hashSize: Byte, hashType: Byte, platform: Byte, pageExponent: Byte, spare: nat,
    scatter: nat, teamOffset: nat, reserved: nat, codeLimit64: nat, execBase: nat, execLimit: nat, execFlags: nat,
    runtime: nat, preEncrypt: nat, linkage: nat, linkageOffset: nat, linkageSize: nat)
  {
    function First(): seq<nat> {
      [magic, length, version, flags, hashOffset, identOffset, specialSlots, codeSlots, codeLimit]
    }

    function Later(): seq<nat> {
      [spare, scatter, teamOffset, reserved] + Wide(codeLimit64) + Wide(execBase) + Wide(execLimit) + Wide(execFlags)
      + [runtime, preEncrypt, linkage, linkageOffset, linkageSize]
    }

    /** How many of the later words there are: each version from 0x20100 on appends some. */
    function Count(): nat {
      1 + (if version >= 0x20100 then 1 else 0) + (if version >= 0x20200 then 1 else 0)
      + (if version >= 0x20300 then 3 else 0) + (if version >= 0x20400 then 6 else 0)
      + (if version >= 0x20500 then 2 else 0) + (if version >= 0x20600 then 3 else 0)
    }

    /** Every field fits its width. */
    predicate Fits() {
      forall n <- First() + Later() :: n < TWO32
    }
  }

  /** A 64-bit field as two words, the high one first. */
  function Wide(n: nat): seq<nat> {
    [n / TWO32, n % TWO32]
  }

  function Words(ns: seq<nat>): Bytes {
    if ns == [] then [] else PutU32(ns[0]) + Words(ns[1..])
  }

  function Laid(h: Header): Bytes {
    Words(h.First()) + [h.hashSize, h.hashType, h.platform, h.pageExponent] + Words(h.Later()[..h.Count()])
  }

  lemma {:induction false} WordsLength(ns: seq<nat>)
    ensures |Words(ns)| == 4 * |ns|
  {
    if ns != [] {
      WordsLength(ns[1..]);
    }
  }

  lemma {:induction false} WordAt(pre: Bytes, ns: seq<nat>, post: Bytes, k: nat)
    requires k < |ns| && ns[k] < TWO32
    ensures |pre| + 4 * k + 4 <= |pre + Words(ns) + post|
    ensures U32(pre + Words(ns) + post, |pre| + 4 * k) == ns[k]
    decreases k
  {
    hide U32, PutU32;
    WordsLength(ns);
    var d := pre + Words(ns) + post;
    assert Words(ns) == PutU32(ns[0]) + Words(ns[1..]);
    if k == 0 {
      assert d[|pre|..|pre| + 4] == PutU32(ns[0]);
      SuperblobWriter.WordAt(d, |pre|, ns[0]);
    } else {
      assert d == (pre + PutU32(ns[0])) + Words(ns[1..]) + post;
      WordAt(pre + PutU32(ns[0]), ns[1..], post, k - 1);
    }
  }

  lemma LaidLength(h: Header)
    ensures |Laid(h)| == 40 + 4 * h.Count() == HeaderSize(h.version)
  {
    WordsLength(h.First());
    WordsLength(h.Later()[..h.Count()]);
  }

  lemma WordsFit(h: Header)
    ensures |h.First()| == 9 && |h.Later()| == 17 && 1 <= h.Count() <= 17
    ensures h.Fits() ==> (forall k | 0 <= k < 9 :: h.First()[k] < TWO32) && forall j | 0 <= j < 17 ::
      h.Later()[j] < TWO32
  {
    hide Wide;
    assert |Wide(0)| == 2 by { WideLength(); }
    WideLength();
    assert forall k | 0 <= k < |h.First()| :: h.First()[k] in h.First() + h.Later();
    assert forall j | 0 <= j < |h.Later()| :: h.Later()[j] in h.First() + h.Later();
  }

  lemma WideLength()
    ensures forall n :: |Wide(n)| == 2
  {
  }

  lemma FirstWord(h: Header, tail: Bytes, k: nat)
    requires h.Fits() && k < 9
    ensures 4 * k + 4 <= |Laid(h) + tail| && |h.First()| == 9 && U32(Laid(h) + tail, 4 * k) == h.First()[k]
  {
    hide U32, Words, Header.First, Header.Later, Header.Fits, Header.Count;
    WordsFit(h);
    var post := [h.hashSize, h.hashType, h.platform, h.pageExponent] + Words(h.Later()[..h.Count()]) + tail;
    WordAt([], h.First(), post, k);
    assert [] + Words(h.First()) + post == Laid(h) + tail;
  }

  lemma LaterWord(h: Header, tail: Bytes, j: nat)
    requires h.Fits() && j < h.Count()
    ensures 44 + 4 * j <= |Laid(h) + tail| && j < |h.Later()| && U32(Laid(h) + tail, 40 + 4 * j) == h.Later()[j]
  {
    hide U32, Words, Header.First, Header.Later, Header.Fits, Header.Count;
    WordsFit(h);
    var front := Words(h.First()) + [h.hashSize, h.hashType, h.platform, h.pageExponent];
    WordsLength(h.First());
    WordAt(front, h.Later()[..h.Count()], tail, j);
  }

  lemma SmallFields(h: Header, tail: Bytes)
    requires h.Fits()
    ensures var raw := Laid(h) + tail;
      |raw| >= 44 && raw[36] == h.hashSize && raw[37] == h.hashType && raw[38] == h.platform
        && raw[39] == h.pageExponent
  {
    hide Words, Header.Later;
    WordsLength(h.First());
    LaidLength(h);
  }

  lemma WideWord(h: Header, tail: Bytes, j: nat, n: nat)
    requires h.Fits() && j + 1 < h.Count() && j + 1 < |h.Later()| && h.Later()[j..j + 2] == Wide(n)
    ensures 48 + 4 * j <= |Laid(h) + tail| && U64(Laid(h) + tail, 40 + 4 * j) == n
  {
    hide U32, Words;
    LaterWord(h, tail, j);
    LaterWord(h, tail, j + 1);
    assert h.Later()[j] == h.Later()[j..j + 2][0] && h.Later()[j + 1] == h.Later()[j..j + 2][1];
  }

  /** The reader finds every field where the list puts it. */
  lemma FirstFields(h: Header, tail: Bytes)
    requires h.Fits()
    ensures var raw := Laid(h) + tail;
      && |raw| >= 44 && U32(raw, 0) == h.magic && U32(raw, 8) == h.version && U32(raw, 12) == h.flags
      && U32(raw, 16) == h.hashOffset && U32(raw, 20) == h.identOffset && U32(raw, 24) == h.specialSlots
      && U32(raw, 28) == h.codeSlots && U32(raw, 32) == h.codeLimit
  {
    hide U32, Words, Header.Later, Header.Fits;
    SmallFields(h, tail);
    forall k: nat | k < 9
      ensures U32(Laid(h) + tail, 4 * k) == h.First()[k]
    {
      FirstWord(h, tail, k);
    }
    assert 4 * 0 == 0 && 4 * 2 == 8 && 4 * 3 == 12 && 4 * 4 == 16 && 4 * 5 == 20 && 4 * 6 == 24 && 4 * 7 == 28
      && 4 * 8 == 32;
  }

  lemma LaterFields(h: Header, tail: Bytes)
    requires h.Fits()
    ensures var raw := Laid(h) + tail;
      && |raw| >= HeaderSize(h.version)
      && (h.version >= 0x20100 ==> U32(raw, 44) == h.scatter)
      && (h.version >= 0x20200 ==> U32(raw, 48) == h.teamOffset)
      && (h.version >= 0x20300 ==> U64(raw, 56) == h.codeLimit64)
      && (h.version >= 0x20400 ==>
            U64(raw, 64) == h.execBase && U64(raw, 72) == h.execLimit && U64(raw, 80) == h.execFlags)
      && (h.version >= 0x20500 ==> U32(raw, 88) == h.runtime)
  {
    hide U32, U64, Words, Header.First, Header.Fits, Wide;
    LaidLength(h);
    WideLength();
    if h.version >= 0x20100 {
      LaterWord(h, tail, 1);
    }
    if h.version >= 0x20200 {
      LaterWord(h, tail, 2);
    }
    if h.version >= 0x20300 {
      WideWord(h, tail, 4, h.codeLimit64);
    }
    if h.version >= 0x20400 {
      WideWord(h, tail, 6, h.execBase);
      WideWord(h, tail, 8, h.execLimit);
      WideWord(h, tail, 10, h.execFlags);
    }
    if h.version >= 0x20500 {
      LaterWord(h, tail, 12);
    }
  }

  /** Zero-terminated from `off` on. */
  ghost predicate HasString(raw: Bytes, off: nat) {
    off < |raw| && 0 in raw[off..]
  }

  /** What a header must say for its directory to be accepted. */
  ghost predicate HeaderFits(h: Header, raw: Bytes) {
    && h.magic == MAGIC_DIRECTORY && 0x20001 <= h.version <= 0x20600
    && (h.hashType as int, h.hashSize as int) in {(1, 20), (2, 32), (3, 20), (4, 48)} && h.pageExponent <= 31
    && (h.version >= 0x20100 ==> h.scatter == 0)
    && |Laid(h)| <= h.identOffset && HasString(raw, h.identOffset)
    && (h.version >= 0x20200 && h.teamOffset != 0 ==> HasString(raw, h.teamOffset))
    && |Laid(h)| + h.specialSlots * h.hashSize <= h.hashOffset
    && h.hashOffset + h.codeSlots * h.hashSize <= |raw|
  }

  /** The directory that a header describes. */
  ghost predicate Describes(h: Header, raw: Bytes, d: Directory) {
    && d.raw == raw && d.version == h.version && d.flags == h.flags
    && d.hashOffset == h.hashOffset && d.specialSlots == h.specialSlots && d.codeSlots == h.codeSlots
    && d.codeLimit == (if h.version >= 0x20300 && h.codeLimit64 != 0 then h.codeLimit64 else h.codeLimit)
    && d.hashSize == h.hashSize && d.hashType == h.hashType && d.platform == h.platform
    && d.pageExponent == h.pageExponent
    && Terminated(raw, h.identOffset, d.identifier)
    && (if h.version >= 0x20200 && h.teamOffset != 0 then Terminated(raw, h.teamOffset, d.teamId) else d.teamId == [])
    && (if h.version >= 0x20400 then (d.execBase, d.execLimit, d.execFlags) == (h.execBase, h.execLimit, h.execFlags)
        else d.execBase == d.execLimit == d.execFlags == 0)
    && d.runtime == if h.version >= 0x20500 then h.runtime else 0
  }

  lemma StringFound(raw: Bytes, off: nat)
    ensures CString(raw, off).Some? <==> HasString(raw, off)
  {
    if CString(raw, off).Some? {
      var s := CString(raw, off).value;
      assert raw[off..][|s|] == 0;
    }
  }

  lemma HeaderChecked(h: Header, tail: Bytes)
    requires h.Fits()
    ensures var raw := Laid(h) + tail; CheckHeader(raw).Ok? <==>
      && h.magic == MAGIC_DIRECTORY && 0x20001 <= h.version <= 0x20600
      && (h.hashType as int, h.hashSize as int) in {(1, 20), (2, 32), (3, 20), (4, 48)} && h.pageExponent <= 31
      && (h.version >= 0x20100 ==> h.scatter == 0) && |Laid(h)| <= h.identOffset
  {
    hide U32, Laid, Header.Fits;
    FirstFields(h, tail);
    LaterFields(h, tail);
    SmallFields(h, tail);
    LaidLength(h);
  }

  /** A directory laid out from its fields is accepted exactly when they fit together, and reads as they say. */
  lemma DirectoryReads(h: Header, tail: Bytes)
    requires h.Fits()
    ensures var raw := Laid(h) + tail;
      && (ParseDirectory(raw).Ok? <==> HeaderFits(h, raw))
      && (ParseDirectory(raw).Ok? ==> Describes(h, raw, ParseDirectory(raw).value))
  {
    hide U32, U64, Laid, Header.Fits, CheckHeader, CString, HasString, HeaderSize, Terminated;
    var raw := Laid(h) + tail;
    HeaderChecked(h, tail);
    FirstFields(h, tail);
    LaterFields(h, tail);
    SmallFields(h, tail);
    LaidLength(h);
    StringFound(raw, h.identOffset);
    StringFound(raw, h.teamOffset);
  }

  lemma PutOfU32(d: Bytes, at: nat)
    requires at + 4 <= |d|
    ensures PutU32(U32(d, at)) == d[at..at + 4]
  {
    var n, word := U32(d, at), d[at..at + 4];
    assert word == [d[at], d[at + 1], d[at + 2], d[at + 3]];
    assert n / 256 == d[at] as int * 0x1_0000 + d[at + 1] as int * 0x100 + d[at + 2];
    assert n / 0x1_0000 == d[at] as int * 0x100 + d[at + 1];
    assert n / 0x100_0000 == d[at];
  }

  lemma {:induction false} WordsOf(d: Bytes, at: nat, ns: seq<nat>)
    requires at + 4 * |ns| <= |d| && forall k: nat | k < |ns| :: ns[k] == U32(d, at + 4 * k)
    ensures Words(ns) == d[at..at + 4 * |ns|]
    decreases |ns|
  {
    hide U32, PutU32;
    if ns != [] {
      assert ns[0] == U32(d, at + 4 * 0);
      PutOfU32(d, at);
      var rest := ns[1..];
      forall k: nat | k < |rest|
        ensures rest[k] == U32(d, at + 4 + 4 * k)
      {
        assert rest[k] == ns[k + 1] && at + 4 * (k + 1) == at + 4 + 4 * k;
      }
      WordsOf(d, at + 4, rest);
      assert d[at..at + 4] + d[at + 4..at + 4 * |ns|] == d[at..at + 4 * |ns|];
    }
  }

  function WordOr0(raw: Bytes, at: nat): nat {
    if at + 4 <= |raw| then U32(raw, at) else 0
  }

  function WideOr0(raw: Bytes, at: nat): nat {
    if at + 8 <= |raw| then U64(raw, at) else 0
  }

  /** The header that any bytes spell. */
  function HeaderOf(raw: Bytes): Header
    requires |raw| >= 44
  {
    hide U32;
    Header(U32(raw, 0), U32(raw, 4), U32(raw, 8), U32(raw, 12), U32(raw, 16), U32(raw, 20), U32(raw, 24), U32(raw, 28),
           U32(raw, 32), raw[36], raw[37], raw[38], raw[39], U32(raw, 40), WordOr0(raw, 44), WordOr0(raw, 48),
           WordOr0(raw, 52), WideOr0(raw, 56), WideOr0(raw, 64), WideOr0(raw, 72), WideOr0(raw, 80), WordOr0(raw, 88),
           WordOr0(raw, 92), WordOr0(raw, 96), WordOr0(raw, 100), WordOr0(raw, 104))
  }

  lemma WideOfU64(raw: Bytes, at: nat)
    ensures var ns := Wide(WideOr0(raw, at));
      && ns[0] < TWO32 && ns[1] < TWO32
      && (at + 8 <= |raw| ==> ns == [U32(raw, at), U32(raw, at + 4)])
  {
    hide U32;
  }

  /** Every header is such a list of fields. */
  lemma EveryHeader(raw: Bytes)
    requires |raw| >= 44 && |raw| >= HeaderSize(U32(raw, 8))
    ensures HeaderOf(raw).Fits() && Laid(HeaderOf(raw)) <= raw
  {
    hide U32, U64, Words, Wide, WordOr0, WideOr0;
    var h := HeaderOf(raw);
    WideOfU64(raw, 56);
    WideOfU64(raw, 64);
    WideOfU64(raw, 72);
    WideOfU64(raw, 80);
    WideLength();
    WordsSmall(raw);
    LaidLength(h);
    WordsOf(raw, 0, h.First());
    var later := h.Later()[..h.Count()];
    forall j: nat | j < |later|
      ensures later[j] == U32(raw, 40 + 4 * j)
    {
      LaterOf(raw, j);
    }
    WordsOf(raw, 40, later);
    assert Laid(h) == raw[0..36] + raw[36..40] + raw[40..40 + 4 * |later|] == raw[..|Laid(h)|];
  }

  lemma WordsSmall(raw: Bytes)
    ensures forall at :: WordOr0(raw, at) < TWO32
    ensures forall at: nat | at + 4 <= |raw| :: WordOr0(raw, at) == U32(raw, at)
  {
  }

  lemma LaterOf(raw: Bytes, j: nat)
    requires |raw| >= 44 && |raw| >= HeaderSize(U32(raw, 8)) && j < HeaderOf(raw).Count()
    ensures |HeaderOf(raw).Later()| == 17 && HeaderOf(raw).Later()[j] == U32(raw, 40 + 4 * j)
  {
    hide U32, U64, Wide, WideOr0, WordOr0;
    WideLength();
    WordsSmall(raw);
    LaidLength(HeaderOf(raw));
    WideOfU64(raw, 56);
    WideOfU64(raw, 64);
    WideOfU64(raw, 72);
    WideOfU64(raw, 80);
  }

  /** So for any bytes: a directory is accepted exactly when the header it begins with fits the rest. */
  lemma ParsedExactly(raw: Bytes)
    ensures ParseDirectory(raw).Ok? <==>
      |raw| >= 44 && |raw| >= HeaderSize(U32(raw, 8)) && HeaderFits(HeaderOf(raw), raw)
    ensures ParseDirectory(raw).Ok? ==> Describes(HeaderOf(raw), raw, ParseDirectory(raw).value)
  {
    hide HeaderFits, Describes, HeaderOf, U32, Laid;
    if |raw| >= 44 && |raw| >= HeaderSize(U32(raw, 8)) {
      EveryHeader(raw);
      var h := HeaderOf(raw);
      assert Laid(h) + raw[|Laid(h)|..] == raw;
      DirectoryReads(h, raw[|Laid(h)|..]);
    }
  }
}
