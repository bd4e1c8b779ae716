/** The SuperBlob container and the versioned CodeDirectory header, byte by byte. */
module SignatureContainer {
  import opened ByteStrings
  import opened Sorting
  import opened Wrappers

  const MAGIC_DIRECTORY := 0xfade0c02
  const MAGIC_SIGNATURE := 0xfade0cc0
  const MAGIC_REQUIREMENTS := 0xfade0c01
  const MAGIC_ENTITLEMENTS := 0xfade7171
  const MAGIC_DER_ENTITLEMENTS := 0xfade7172
  const MAGIC_CMS := 0xfade0b01
  const SLOT_REQUIREMENTS := 2
  const SLOT_ENTITLEMENTS := 5
  const SLOT_DER_ENTITLEMENTS := 7
  const SLOT_CMS := 0x10000

  datatype Reject = Malformed | Unsupported

  function U32(d: Bytes, at: nat): (n: nat)
    requires at + 4 <= |d|
    ensures n < TWO32
  {
    d[at] as int * 0x100_0000 + d[at + 1] as int * 0x1_0000 + d[at + 2] as int * 0x100 + d[at + 3] as int
  }

  function U64(d: Bytes, at: nat): (n: nat)
    requires at + 8 <= |d|
    ensures n < TWO64
  {
    U32(d, at) * TWO32 + U32(d, at + 4)
  }

  /** Big-endian, keeping the low 32 bits, as Go's conversion to uint32 does. */
  function PutU32(n: nat): (b: Bytes)
    ensures |b| == 4
  {
    [n / 0x100_0000 % 256, n / 0x1_0000 % 256, n / 256 % 256, n % 256]
  }

  lemma Shift16(n: nat)
    ensures n / 0x1_0000 == n / 256 / 256
    ensures n == n / 0x1_0000 * 0x1_0000 + n / 256 % 256 * 256 + n % 256
  {
  }

  lemma U32OfPutU32(n: nat)
    ensures U32(PutU32(n), 0) == n % TWO32
  {
    var high := n / 0x1_0000;
    Shift16(n);
    assert n / 0x100_0000 == high / 256;
    Modulo(high, n);
  }

  lemma Modulo(high: nat, n: nat)
    requires high == n / 0x1_0000
    ensures n % TWO32 == high / 256 % 256 * 0x100_0000 + high % 256 * 0x1_0000 + n % 0x1_0000
  {
    assert high % 0x1_0000 == high / 256 % 256 * 256 + high % 256;
    assert n % TWO32 == high % 0x1_0000 * 0x1_0000 + n % 0x1_0000;
  }

  predicate RangeOk(off: nat, size: nat, total: nat) {
    off <= total && size <= total - off
  }

  function DigestSize(kind: Byte): Option<nat> {
    match kind
    case 1 => Some(20)
    case 2 => Some(32)
    case 3 => Some(20)
    case 4 => Some(48)
    case _ => None
  }

  datatype Directory = Directory(
    raw: Bytes, version: nat, flags: nat, hashOffset: nat, specialSlots: nat, codeSlots: nat, codeLimit: nat,
    hashSize: nat, hashType: Byte, platform: nat, pageExponent: nat, identifier: Bytes, teamId: Bytes,
    execBase: nat, execLimit: nat, execFlags: nat, runtime: nat)

  function HeaderSize(version: nat): nat {
    if version >= 0x20600 then 108
    else if version >= 0x20500 then 96
    else if version >= 0x20400 then 88
    else if version >= 0x20300 then 64
    else if version >= 0x20200 then 52
    else if version >= 0x20100 then 48
    else 44
  }

  /** The bytes from `off` up to the next zero byte; None when there is none. */
  function CString(d: Bytes, off: nat): (s: Option<Bytes>)
    ensures s.Some? ==> Terminated(d, off, s.value)
    ensures s.None? ==> off >= |d| || 0 !in d[off..]
    decreases |d| - off
  {
    if off >= |d| then
      None
    else if d[off] == 0 then
      Some([])
    else
      match CString(d, off + 1)
      case None => assert d[off..] == [d[off]] + d[off + 1..]; None
      case Some(rest) => Some([d[off]] + rest)
  }

  predicate Terminated(d: Bytes, off: nat, s: Bytes) {
    off + |s| < |d| && d[off..off + |s|] == s && 0 !in s && d[off + |s|] == 0
  }

  /** The fixed part of a CodeDirectory, in the order of the reader's checks. */
  function CheckHeader(raw: Bytes): (r: Result<nat, Reject>)
    ensures r.Ok? ==> |raw| >= 44 && |raw| >= r.value == HeaderSize(U32(raw, 8))
  {
    hide U32;
    if |raw| < 44 || U32(raw, 0) != MAGIC_DIRECTORY then
      Err(Malformed)
    else
      var version, header := U32(raw, 8), HeaderSize(U32(raw, 8));
      if version < 0x20001 || version > 0x20600 then
        Err(Unsupported)
      else if |raw| < header then
        Err(Malformed)
      else if DigestSize(raw[37]).None? then
        Err(Unsupported)
      else if raw[36] != DigestSize(raw[37]).value || raw[39] > 31 then
        Err(Malformed)
      else if version >= 0x20100 && U32(raw, 44) != 0 then
        Err(Unsupported)
      else if U32(raw, 20) < header then
        Err(Malformed)
      else
        Ok(header)
  }

  function ReadFields(raw: Bytes, identifier: Bytes, teamId: Bytes): (d: Directory)
    requires |raw| >= 44 && |raw| >= HeaderSize(U32(raw, 8))
  {
    hide U32, U64;
    var version := U32(raw, 8);
    Directory(raw, version, U32(raw, 12), U32(raw, 16), U32(raw, 24), U32(raw, 28),
              if version >= 0x20300 && U64(raw, 56) != 0 then U64(raw, 56) else U32(raw, 32),
              raw[36], raw[37], raw[38], raw[39], identifier, teamId,
              if version >= 0x20400 then U64(raw, 64) else 0,
              if version >= 0x20400 then U64(raw, 72) else 0,
              if version >= 0x20400 then U64(raw, 80) else 0,
              if version >= 0x20500 then U32(raw, 88) else 0)
  }

  function TeamOf(raw: Bytes): Option<Bytes>
    requires |raw| >= 44 && |raw| >= HeaderSize(U32(raw, 8))
  {
    hide U32;
    if U32(raw, 8) >= 0x20200 && U32(raw, 48) != 0 then CString(raw, U32(raw, 48)) else Some([])
  }

  function ParseDirectory(raw: Bytes): Result<Directory, Reject> {
    hide U32, HeaderSize, CheckHeader;
    var header := CheckHeader(raw);
    if header.Err? then
      Err(header.error)
    else
      var identifier, team := CString(raw, U32(raw, 20)), TeamOf(raw);
      if identifier.None? || team.None? then
        Err(Malformed)
      else
        var d := ReadFields(raw, identifier.value, team.value);
        if d.hashOffset < header.value + d.specialSlots * d.hashSize
          || !RangeOk(d.hashOffset, d.codeSlots * d.hashSize, |raw|) then
          Err(Malformed)
        else
          Ok(d)
  }

  /** The hash of slot `s`: negative slots are the special ones, stored backwards from the code hashes. */
  function HashAt(d: Directory, s: int): int {
    d.hashOffset + s * d.hashSize
  }

  lemma DirectoryBounds(raw: Bytes)
    requires ParseDirectory(raw).Ok?
    ensures var d := ParseDirectory(raw).value;
      HeaderSize(d.version) + d.specialSlots * d.hashSize <= d.hashOffset
        && d.hashOffset + d.codeSlots * d.hashSize <= |raw|
  {
    hide U32, HeaderSize;
  }

  /** Every hash slot of an accepted directory lies between its header and its end. */
  lemma HashSlotsInside(raw: Bytes, s: int)
    requires ParseDirectory(raw).Ok?
    requires var d := ParseDirectory(raw).value; 0 <= s + d.specialSlots && s < d.codeSlots
    ensures var d := ParseDirectory(raw).value;
      HeaderSize(d.version) <= HashAt(d, s) && HashAt(d, s) + d.hashSize <= |raw|
  {
    DirectoryBounds(raw);
    hide ParseDirectory, HeaderSize;
    var d := ParseDirectory(raw).value;
    Scaled(d.specialSlots, d.codeSlots, d.hashSize, s);
  }

  lemma Scaled(special: nat, code: nat, size: nat, s: int)
    requires 0 <= s + special && s < code
    ensures 0 <= special * size + s * size && s * size + size <= code * size
  {
    assert special * size + s * size == (special + s) * size;
    assert s * size + size == (s + 1) * size <= code * size;
  }

  /** Both strings end inside the directory, and the identifier does not overlap the header. */
  lemma StringsInside(raw: Bytes)
    requires ParseDirectory(raw).Ok?
    ensures var d := ParseDirectory(raw).value;
      && HeaderSize(d.version) <= U32(raw, 20) && Terminated(raw, U32(raw, 20), d.identifier)
      && (d.teamId != [] ==> d.version >= 0x20200 && Terminated(raw, U32(raw, 48), d.teamId))
  {
  }

  /** The products of the bounds test stay below 2^64, so Go's unsigned arithmetic computes them exactly. */
  lemma BoundsDoNotWrap(raw: Bytes)
    requires |raw| >= 44
    ensures 108 + U32(raw, 24) * raw[36] < TWO64 && U32(raw, 28) * raw[36] < TWO64
  {
    hide U32;
    ProductBound(U32(raw, 24), raw[36]);
    ProductBound(U32(raw, 28), raw[36]);
  }

  lemma ProductBound(a: nat, b: nat)
    requires a < TWO32 && b < 256
    ensures a * b <= TWO32 * 255
  {
    assert a * b <= TWO32 * b;
  }

  datatype Blob = Blob(slot: nat, magic: nat, data: Bytes)

  datatype Signature = Signature(length: nat, blobs: seq<Blob>, directories: seq<Directory>)

  function ExpectedMagic(slot: nat): Option<nat> {
    if slot == SLOT_REQUIREMENTS then Some(MAGIC_REQUIREMENTS)
    else if slot == SLOT_ENTITLEMENTS then Some(MAGIC_ENTITLEMENTS)
    else if slot == SLOT_DER_ENTITLEMENTS then Some(MAGIC_DER_ENTITLEMENTS)
    else if slot == SLOT_CMS then Some(MAGIC_CMS)
    else None
  }

  predicate IsDirectorySlot(slot: nat) {
    slot == 0 || 0x1000 <= slot < 0x1005
  }

  /** A component that may stand in slot `b.slot`. */
  predicate BlobOk(b: Blob) {
    && (ExpectedMagic(b.slot).Some? ==> b.magic == ExpectedMagic(b.slot).value)
    && (IsDirectorySlot(b.slot) ==> ParseDirectory(b.data).Ok?)
  }

  predicate HeaderOk(d: Bytes) {
    && |d| >= 12 && U32(d, 0) == MAGIC_SIGNATURE
    && 12 <= U32(d, 4) <= |d| && U32(d, 8) * 8 <= U32(d, 4) - 12
  }

  function SlotAt(d: Bytes, i: nat): nat
    requires HeaderOk(d) && i < U32(d, 8)
  {
    U32(d, 12 + 8 * i)
  }

  datatype Span = Span(start: nat, end: nat)

  /** The component that index entry `i` points to lies between the index and the declared length. */
  predicate EntryInside(d: Bytes, i: nat)
    requires HeaderOk(d) && i < U32(d, 8)
  {
    var off, length := U32(d, 16 + 8 * i), U32(d, 4);
    && off >= 12 + 8 * U32(d, 8) && off + 8 <= length
    && U32(d, off + 4) >= 8 && off + U32(d, off + 4) <= length
  }

  /** Go computes the end of the index and of a component in 32 bits: neither sum wraps where it is used. */
  lemma SumsDoNotWrap(d: Bytes, i: nat)
    requires HeaderOk(d) && i < U32(d, 8)
    ensures (12 + U32(d, 8) * 8 % TWO32) % TWO32 == 12 + U32(d, 8) * 8
    ensures EntryInside(d, i) ==>
      var off := U32(d, 16 + 8 * i); (off + U32(d, off + 4)) % TWO32 == off + U32(d, off + 4)
  {
    hide U32;
    assert U32(d, 8) * 8 % TWO32 == U32(d, 8) * 8;
  }

  function SpanAt(d: Bytes, i: nat): Span
    requires HeaderOk(d) && i < U32(d, 8) && EntryInside(d, i)
  {
    var off := U32(d, 16 + 8 * i);
    Span(off, off + U32(d, off + 4))
  }

  function BlobAt(d: Bytes, i: nat): Blob
    requires HeaderOk(d) && i < U32(d, 8) && EntryInside(d, i)
  {
    var span := SpanAt(d, i);
    Blob(SlotAt(d, i), U32(d, span.start), d[span.start..span.end])
  }

  predicate Disjoint(a: Span, b: Span) {
    a.end <= b.start || b.end <= a.start
  }

  ghost predicate EntryOk(d: Bytes, i: nat)
    requires HeaderOk(d) && i < U32(d, 8)
  {
    EntryInside(d, i) && BlobOk(BlobAt(d, i))
  }

  ghost predicate Apart(d: Bytes, i: nat, j: nat)
    requires HeaderOk(d) && i < U32(d, 8) && j < U32(d, 8)
  {
    EntryInside(d, i) && EntryInside(d, j) && Disjoint(SpanAt(d, i), SpanAt(d, j))
  }

  ghost predicate PrimaryOk(d: Bytes, allowUnsigned: bool)
    requires HeaderOk(d)
  {
    || (exists i: nat :: i < U32(d, 8) && SlotAt(d, i) == 0)
    || (allowUnsigned && forall i: nat | i < U32(d, 8) :: !IsDirectorySlot(SlotAt(d, i)))
  }

  /** What a reader may rely on, from any bytes: distinct slots and components that share no byte. */
  ghost predicate Accepted(d: Bytes, allowUnsigned: bool) {
    && HeaderOk(d)
    && (forall i: nat | i < U32(d, 8) :: EntryOk(d, i))
    && (forall i: nat, j: nat | i < j < U32(d, 8) :: SlotAt(d, i) != SlotAt(d, j))
    && (forall i: nat, j: nat | i < j < U32(d, 8) :: Apart(d, i, j))
    && PrimaryOk(d, allowUnsigned)
  }

  predicate StartsBefore(a: Span, b: Span) {
    a.start <= b.start
  }

  ghost predicate AllDisjoint(spans: seq<Span>) {
    forall i, j | 0 <= i < j < |spans| :: Disjoint(spans[i], spans[j])
  }

  ghost predicate Nonempty(spans: seq<Span>) {
    forall s <- spans :: s.start < s.end
  }

  predicate AdjacentDisjoint(spans: seq<Span>) {
    forall i | 0 < i < |spans| :: spans[i - 1].end <= spans[i].start
  }

  /** Checking only neighbours of the sorted spans is enough for all pairs. */
  lemma {:induction false} AdjacentIsEnough(spans: seq<Span>, i: nat, j: nat)
    requires Nonempty(spans) && AdjacentDisjoint(spans) && i < j < |spans|
    ensures spans[i].end <= spans[j].start
  {
    if i + 1 < j {
      AdjacentIsEnough(spans, i, j - 1);
      assert spans[j - 1] in spans;
    }
  }

  lemma SortedDisjoint(spans: seq<Span>)
    requires Nonempty(spans) && SortedBy(StartsBefore, spans)
    ensures AdjacentDisjoint(spans) <==> AllDisjoint(spans)
  {
    if AdjacentDisjoint(spans) {
      forall i, j | 0 <= i < j < |spans|
        ensures Disjoint(spans[i], spans[j])
      {
        AdjacentIsEnough(spans, i, j);
      }
    }
    if AllDisjoint(spans) {
      forall i | 0 < i < |spans|
        ensures spans[i - 1].end <= spans[i].start
      {
        assert Disjoint(spans[i - 1], spans[i]) && StartsBefore(spans[i - 1], spans[i]);
        assert spans[i - 1] in spans && spans[i] in spans;
      }
    }
  }

  /** Whether spans overlap does not depend on their order. */
  lemma DisjointAnyOrder(a: seq<Span>, b: seq<Span>)
    requires multiset(a) == multiset(b) && AllDisjoint(a)
    ensures AllDisjoint(b)
  {
    forall i, j | 0 <= i < j < |b|
      ensures Disjoint(b[i], b[j])
    {
      var m, n := TwoPlaces(b, a, i, j);
      assert m < n || n < m;
    }
  }

  lemma SameSpans(a: seq<Span>, b: seq<Span>)
    requires multiset(a) == multiset(b) && Nonempty(a)
    ensures Nonempty(b) && (AllDisjoint(a) <==> AllDisjoint(b))
  {
    assert forall s :: s in b <==> s in multiset(b);
    assert forall s :: s in a <==> s in multiset(a);
    if AllDisjoint(a) {
      DisjointAnyOrder(a, b);
    }
    if AllDisjoint(b) {
      DisjointAnyOrder(b, a);
    }
  }

  lemma NeighboursDecide(spans: seq<Span>)
    requires Nonempty(spans)
    ensures AdjacentDisjoint(Sort(StartsBefore, spans)) <==> AllDisjoint(spans)
  {
    SortIsSorted(StartsBefore, spans);
    hide AllDisjoint, AdjacentDisjoint, Sort, Nonempty;
    SameSpans(spans, Sort(StartsBefore, spans));
    SortedDisjoint(Sort(StartsBefore, spans));
  }

  /** The reader's overlap test, on spans sorted by their start. */
  method CheckOverlap(spans: seq<Span>) returns (ok: bool)
    requires Nonempty(spans)
    ensures ok <==> AllDisjoint(spans)
  {
    hide AllDisjoint, Sort, Nonempty;
    NeighboursDecide(spans);
    var sorted := Sort(StartsBefore, spans);
    var i := 1;
    while i < |sorted|
      invariant 1 <= i && (i > |sorted| ==> sorted == [])
      invariant forall k | 0 < k < i && k < |sorted| :: sorted[k - 1].end <= sorted[k].start
    {
      if sorted[i].start < sorted[i - 1].end {
        return false;
      }
      i := i + 1;
    }
    ok := true;
  }

  function DirectoriesOf(blobs: seq<Blob>): (ds: seq<Directory>)
    requires forall b <- blobs :: BlobOk(b)
    ensures ds == [] <==> forall b <- blobs :: !IsDirectorySlot(b.slot)
  {
    if blobs == [] then
      []
    else
      var last := blobs[|blobs| - 1];
      assert last in blobs && BlobOk(last);
      assert blobs == blobs[..|blobs| - 1] + [last];
      DirectoriesOf(blobs[..|blobs| - 1]) + if IsDirectorySlot(last.slot) then [ParseDirectory(last.data).value] else []
  }

  /** What the reader has collected after `n` index entries. */
  ghost predicate Collected(d: Bytes, n: nat, seen: set<nat>, spans: seq<Span>, blobs: seq<Blob>)
    requires HeaderOk(d) && n <= U32(d, 8)
  {
    && |spans| == |blobs| == n
    && (forall i: nat | i < n :: EntryOk(d, i) && spans[i] == SpanAt(d, i) && blobs[i] == BlobAt(d, i))
    && (forall i: nat, j: nat | i < j < n :: SlotAt(d, i) != SlotAt(d, j))
    && seen == (set i: nat | i < n :: SlotAt(d, i))
  }

  lemma CollectStep(d: Bytes, n: nat, seen: set<nat>, spans: seq<Span>, blobs: seq<Blob>)
    requires HeaderOk(d) && n < U32(d, 8) && Collected(d, n, seen, spans, blobs)
    requires EntryOk(d, n) && SlotAt(d, n) !in seen
    ensures Collected(d, n + 1, seen + {SlotAt(d, n)}, spans + [SpanAt(d, n)], blobs + [BlobAt(d, n)])
  {
    hide SpanAt, BlobAt, EntryOk, SlotAt;
    forall i: nat | i < n
      ensures SlotAt(d, i) != SlotAt(d, n)
    {
      assert SlotAt(d, i) in seen;
    }
  }

  /** One index entry and the component behind it. */
  method ReadEntry(d: Bytes, i: nat, seen: set<nat>) returns (r: Result<(Span, Blob), Reject>)
    requires HeaderOk(d) && i < U32(d, 8)
    ensures r.Ok? <==> SlotAt(d, i) !in seen && EntryOk(d, i)
    ensures r.Ok? ==> r.value == (SpanAt(d, i), BlobAt(d, i)) && r.value.1.slot == SlotAt(d, i)
  {
    hide U32, ParseDirectory;
    var length, count := U32(d, 4), U32(d, 8);
    var slot, off := U32(d, 12 + 8 * i), U32(d, 16 + 8 * i);
    if slot in seen {
      return Err(Malformed);
    }
    if off < (12 + count * 8) % TWO32 || !RangeOk(off, 8, length) {
      return Err(Malformed);
    }
    var n := U32(d, off + 4);
    if n < 8 || !RangeOk(off, n, length) {
      return Err(Malformed);
    }
    var blob := Blob(slot, U32(d, off), d[off..off + n]);
    var expected := ExpectedMagic(slot);
    if expected.Some? && blob.magic != expected.value {
      return Err(Malformed);
    }
    if IsDirectorySlot(slot) {
      var directory := ParseDirectory(blob.data);
      if directory.Err? {
        return Err(directory.error);
      }
    }
    r := Ok((Span(off, (off + n) % TWO32), blob));
  }

  lemma Refused(d: Bytes, n: nat, seen: set<nat>, spans: seq<Span>, blobs: seq<Blob>, allowUnsigned: bool)
    requires HeaderOk(d) && n < U32(d, 8) && Collected(d, n, seen, spans, blobs)
    requires SlotAt(d, n) in seen || !EntryOk(d, n)
    ensures !Accepted(d, allowUnsigned)
  {
    hide SpanAt, BlobAt, SlotAt, EntryInside, BlobOk;
    if SlotAt(d, n) in seen {
      var k: nat :| k < n && SlotAt(d, k) == SlotAt(d, n);
    }
  }

  lemma SpansDecide(d: Bytes, seen: set<nat>, spans: seq<Span>, blobs: seq<Blob>)
    requires HeaderOk(d) && Collected(d, U32(d, 8), seen, spans, blobs)
    ensures Nonempty(spans)
    ensures (forall i: nat, j: nat | i < j < U32(d, 8) :: Apart(d, i, j)) <==> AllDisjoint(spans)
  {
    hide U32, BlobOk, BlobAt, SlotAt;
    var count := U32(d, 8);
    assert forall i: nat | i < count :: EntryOk(d, i) && spans[i] == SpanAt(d, i) && spans[i].start < spans[i].end;
    hide SpanAt, Disjoint, EntryInside;
    if AllDisjoint(spans) {
      forall i: nat, j: nat | i < j < count
        ensures Apart(d, i, j)
      {
        assert Disjoint(spans[i], spans[j]);
      }
    }
    if forall i: nat, j: nat | i < j < count :: Apart(d, i, j) {
      forall i, j | 0 <= i < j < |spans|
        ensures Disjoint(spans[i], spans[j])
      {
        assert Apart(d, i, j);
      }
    }
  }

  lemma SlotsDecide(d: Bytes, seen: set<nat>, spans: seq<Span>, blobs: seq<Blob>, allowUnsigned: bool)
    requires HeaderOk(d) && Collected(d, U32(d, 8), seen, spans, blobs)
    requires forall b <- blobs :: BlobOk(b)
    ensures PrimaryOk(d, allowUnsigned) <==> 0 in seen || (allowUnsigned && DirectoriesOf(blobs) == [])
  {
    hide U32, BlobOk, SpanAt, IsDirectorySlot, EntryInside;
    assert forall i: nat | i < U32(d, 8) :: blobs[i].slot == SlotAt(d, i) && blobs[i] in blobs;
    hide SlotAt, BlobAt;
  }

  lemma AcceptedWhen(d: Bytes, seen: set<nat>, spans: seq<Span>, blobs: seq<Blob>, allowUnsigned: bool)
    requires HeaderOk(d) && Collected(d, U32(d, 8), seen, spans, blobs)
    requires forall b <- blobs :: BlobOk(b)
    ensures Nonempty(spans)
    ensures Accepted(d, allowUnsigned) <==>
      AllDisjoint(spans) && (0 in seen || (allowUnsigned && DirectoriesOf(blobs) == []))
  {
    SpansDecide(d, seen, spans, blobs);
    SlotsDecide(d, seen, spans, blobs, allowUnsigned);
    hide U32, Apart, EntryOk, SlotAt, PrimaryOk, AllDisjoint, SpanAt, BlobAt;
  }

  /** Reads a signature, checking every bound before any byte behind it is used. */
  method ParseSignatureRange(d: Bytes, allowUnsigned: bool) returns (r: Result<Signature, Reject>)
    ensures r.Ok? <==> Accepted(d, allowUnsigned)
    ensures r.Ok? ==> r.value.length == U32(d, 4) && |r.value.blobs| == U32(d, 8)
    ensures r.Ok? ==> forall i: nat | i < U32(d, 8) :: EntryOk(d, i) && r.value.blobs[i] == BlobAt(d, i)
    ensures r.Ok? ==> (forall b <- r.value.blobs :: BlobOk(b)) && r.value.directories == DirectoriesOf(r.value.blobs)
  {
    hide U32, ParseDirectory, SpanAt, BlobAt, SlotAt, EntryInside;
    if |d| < 12 || U32(d, 0) != MAGIC_SIGNATURE {
      return Err(Malformed);
    }
    var length, count := U32(d, 4), U32(d, 8);
    if length < 12 || length > |d| || count * 8 > length - 12 {
      return Err(Malformed);
    }
    var seen: set<nat>, spans, blobs, directories := {}, [], [], [];
    for i := 0 to count
      invariant Collected(d, i, seen, spans, blobs)
      invariant forall b <- blobs :: BlobOk(b)
      invariant directories == DirectoriesOf(blobs)
    {
      var entry := ReadEntry(d, i, seen);
      if entry.Err? {
        Refused(d, i, seen, spans, blobs, allowUnsigned);
        return Err(entry.error);
      }
      var (span, blob) := entry.value;
      CollectStep(d, i, seen, spans, blobs);
      assert (blobs + [blob])[..|blobs|] == blobs;
      if IsDirectorySlot(blob.slot) {
        directories := directories + [ParseDirectory(blob.data).value];
      }
      seen, spans, blobs := seen + {blob.slot}, spans + [span], blobs + [blob];
    }
    AcceptedWhen(d, seen, spans, blobs, allowUnsigned);
    var apart := CheckOverlap(spans);
    if !apart {
      return Err(Malformed);
    }
    if 0 !in seen && (!allowUnsigned || |directories| != 0) {
      return Err(Malformed);
    }
    r := Ok(Signature(length, blobs, directories));
  }
}
