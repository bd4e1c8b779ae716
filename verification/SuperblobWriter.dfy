/** Writing a SuperBlob, and reading back exactly what was written. */
module SuperblobWriter {
  import opened ByteStrings
  import opened Sorting
  import opened Wrappers
  import opened SignatureContainer

  predicate SlotOrder(a: Blob, b: Blob) {
    a.slot <= b.slot
  }

  /** The components of the first `n` blobs, one after another. */
  function Payload(blobs: seq<Blob>, n: nat): Bytes
    requires n <= |blobs|
  {
    if n == 0 then [] else Payload(blobs, n - 1) + blobs[n - 1].data
  }

  function Base(blobs: seq<Blob>): nat {
    12 + 8 * |blobs|
  }

  function Index(blobs: seq<Blob>, n: nat): (b: Bytes)
    requires n <= |blobs|
    ensures |b| == 8 * n
  {
    if n == 0 then
      []
    else
      Index(blobs, n - 1) + (PutU32(blobs[n - 1].slot) + PutU32(Base(blobs) + |Payload(blobs, n - 1)|))
  }

  function Total(blobs: seq<Blob>): nat {
    Base(blobs) + |Payload(blobs, |blobs|)|
  }

  /** The container: magic, length, count, index, components. */
  function Superblob(magic: nat, blobs: seq<Blob>): Bytes {
    PutU32(magic) + PutU32(Total(blobs)) + PutU32(|blobs|) + Index(blobs, |blobs|) + Payload(blobs, |blobs|)
  }

  function Patch(s: Bytes, at: nat, b: Bytes): (r: Bytes)
    requires at + |b| <= |s|
    ensures |r| == |s|
  {
    s[..at] + b + s[at + |b|..]
  }

  /** Copies `b` into `out` at `at`. */
  method Copy(out: array<Byte>, at: nat, b: Bytes)
    requires at + |b| <= out.Length
    modifies out
    ensures out[..] == Patch(old(out[..]), at, b)
  {
    ghost var before := out[..];
    for k := 0 to |b|
      invariant out[..] == Patch(before, at, b[..k])
    {
      PatchNext(before, at, b, k);
      out[at + k] := b[k];
    }
    assert b[..|b|] == b;
  }

  lemma PatchNext(s: Bytes, at: nat, b: Bytes, k: nat)
    requires at + |b| <= |s| && k < |b|
    ensures Patch(s, at, b[..0]) == s
    ensures Patch(s, at, b[..k + 1]) == Patch(s, at, b[..k])[at + k := b[k]]
  {
    assert b[..k + 1] == b[..k] + [b[k]];
    assert s[at + k..] == [s[at + k]] + s[at + k + 1..];
  }

  /** The container holds `head`, the first `i` index entries and the first `i` components. */
  ghost predicate Written(s: Bytes, blobs: seq<Blob>, i: nat, head: Bytes)
    requires i <= |blobs|
  {
    && |head| == 12 && |s| == Total(blobs) && Base(blobs) + |Payload(blobs, i)| <= |s|
    && s[..12 + 8 * i] == head + Index(blobs, i)
    && s[Base(blobs)..Base(blobs) + |Payload(blobs, i)|] == Payload(blobs, i)
  }

  lemma PatchExtends(s: Bytes, at: nat, b: Bytes, lo: nat)
    requires lo <= at && at + |b| <= |s|
    ensures Patch(s, at, b)[lo..at + |b|] == s[lo..at] + b
  {
  }

  lemma PatchKeeps(s: Bytes, at: nat, b: Bytes, lo: nat, hi: nat)
    requires at + |b| <= |s| && lo <= hi <= |s| && (hi <= at || at + |b| <= lo)
    ensures Patch(s, at, b)[lo..hi] == s[lo..hi]
  {
  }

  /** Two adjacent words, then bytes further on: each part ends up where it was put. */
  lemma ThreePatches(s: Bytes, at: nat, x: Bytes, y: Bytes, lo: nat, p: nat, z: Bytes)
    requires |x| == |y| == 4 && at + 8 <= lo <= p && p + |z| <= |s|
    ensures var t := Patch(Patch(Patch(s, at, x), at + 4, y), p, z);
      t[0..at + 8] == s[0..at] + x + y && t[lo..p + |z|] == s[lo..p] + z
  {
    var u := Patch(s, at, x);
    var v := Patch(u, at + 4, y);
    hide Patch;
    PatchExtends(s, at, x, 0);
    PatchKeeps(s, at, x, lo, p);
    PatchExtends(u, at + 4, y, 0);
    PatchKeeps(u, at + 4, y, lo, p);
    PatchKeeps(v, p, z, 0, at + 8);
    PatchExtends(v, p, z, lo);
  }

  /** One index entry and its component are added to a partly written container. */
  lemma EntryWritten(s: Bytes, t: Bytes, blobs: seq<Blob>, i: nat, head: Bytes)
    requires i < |blobs| && Written(s, blobs, i, head) && |t| == |s|
    requires 20 + 8 * i <= Base(blobs) && Base(blobs) + |Payload(blobs, i)| + |blobs[i].data| <= |s|
    requires t[0..20 + 8 * i] == s[0..12 + 8 * i] + PutU32(blobs[i].slot) + PutU32(Base(blobs) + |Payload(blobs, i)|)
    requires var p := Base(blobs) + |Payload(blobs, i)|;
      t[Base(blobs)..p + |blobs[i].data|] == s[Base(blobs)..p] + blobs[i].data
    ensures Written(t, blobs, i + 1, head)
  {
    hide PutU32, Index, Payload, Total, Base;
    IndexStep(blobs, i, head);
    assert s[..12 + 8 * i] == s[0..12 + 8 * i];
    assert t[..12 + 8 * (i + 1)] == t[0..20 + 8 * i];
  }

  lemma Room(blobs: seq<Blob>, i: nat)
    requires i < |blobs|
    ensures 20 + 8 * i <= Base(blobs) && Base(blobs) + |Payload(blobs, i)| + |blobs[i].data| <= Total(blobs)
  {
    PayloadGrows(blobs, i + 1, |blobs|);
  }

  lemma IndexStep(blobs: seq<Blob>, i: nat, head: Bytes)
    requires i < |blobs|
    ensures head + Index(blobs, i + 1)
      == head + Index(blobs, i) + PutU32(blobs[i].slot) + PutU32(Base(blobs) + |Payload(blobs, i)|)
    ensures Payload(blobs, i + 1) == Payload(blobs, i) + blobs[i].data
  {
  }

  method Size(blobs: seq<Blob>) returns (n: nat)
    ensures n == Total(blobs)
  {
    n := 12 + 8 * |blobs|;
    for k := 0 to |blobs|
      invariant n == Base(blobs) + |Payload(blobs, k)|
    {
      n := n + |blobs[k].data|;
    }
  }

  method WriteHead(out: array<Byte>, magic: nat, n: nat, count: nat)
    requires out.Length >= 12
    modifies out
    ensures out[..12] == PutU32(magic) + PutU32(n) + PutU32(count)
  {
    hide PutU32;
    Copy(out, 0, PutU32(magic));
    Copy(out, 4, PutU32(n));
    Copy(out, 8, PutU32(count));
  }

  /** Lays out the blobs in slot order, in one buffer. */
  method WriteSuperblob(magic: nat, blobs: seq<Blob>) returns (out: array<Byte>)
    ensures fresh(out) && out[..] == Superblob(magic, Sort(SlotOrder, blobs))
  {
    hide Index, Payload, Patch, Sort, PutU32, Written;
    var sorted := Sort(SlotOrder, blobs);
    var n := Size(sorted);
    out := new Byte[n];
    WriteHead(out, magic, n, |sorted|);
    ghost var head := PutU32(magic) + PutU32(n) + PutU32(|sorted|);
    var p := 12 + 8 * |sorted|;
    StartWritten(out[..], sorted, head);
    for i := 0 to |sorted|
      invariant p == Base(sorted) + |Payload(sorted, i)|
      invariant Written(out[..], sorted, i, head)
    {
      ghost var before := out[..];
      Room(sorted, i);
      IndexStep(sorted, i, head);
      ThreePatches(before, 12 + 8 * i, PutU32(sorted[i].slot), PutU32(p), Base(sorted), p, sorted[i].data);
      Copy(out, 12 + 8 * i, PutU32(sorted[i].slot));
      Copy(out, 16 + 8 * i, PutU32(p));
      Copy(out, p, sorted[i].data);
      EntryWritten(before, out[..], sorted, i, head);
      p := p + |sorted[i].data|;
    }
    AllWritten(out[..], magic, sorted, head);
  }

  lemma StartWritten(s: Bytes, blobs: seq<Blob>, head: Bytes)
    requires |head| == 12 && |s| == Total(blobs) && s[..12] == head
    ensures Written(s, blobs, 0, head) && |Payload(blobs, 0)| == 0
  {
  }

  lemma AllWritten(s: Bytes, magic: nat, blobs: seq<Blob>, head: Bytes)
    requires Written(s, blobs, |blobs|, head) && head == PutU32(magic) + PutU32(Total(blobs)) + PutU32(|blobs|)
    ensures s == Superblob(magic, blobs)
  {
    hide Index, Payload, PutU32;
    assert s == s[..Base(blobs)] + s[Base(blobs)..];
  }

  lemma {:induction false} PayloadGrows(blobs: seq<Blob>, i: nat, n: nat)
    requires i <= n <= |blobs|
    ensures |Payload(blobs, i)| <= |Payload(blobs, n)|
    ensures Payload(blobs, n)[..|Payload(blobs, i)|] == Payload(blobs, i)
  {
    if i < n {
      PayloadGrows(blobs, i, n - 1);
    }
  }

  /** A component as `blob` builds it: its own length in its header, and fit for its slot. */
  predicate WellFormedBlob(b: Blob) {
    && b.slot < TWO32 && 8 <= |b.data| < TWO32
    && U32(b.data, 0) == b.magic && U32(b.data, 4) == |b.data|
    && BlobOk(b)
  }

  /** A requirement, entitlement or CMS blob around `payload`. */
  function BlobBytes(magic: nat, payload: Bytes): Bytes {
    PutU32(magic) + PutU32(8 + |payload|) + payload
  }

  lemma WordAt(s: Bytes, at: nat, n: nat)
    requires at + 4 <= |s| && s[at..at + 4] == PutU32(n)
    ensures U32(s, at) == n % TWO32
  {
    U32OfPutU32(n);
    hide PutU32;
    assert forall k | 0 <= k < 4 :: s[at + k] == PutU32(n)[k];
  }

  lemma BlobBytesWellFormed(slot: nat, magic: nat, payload: Bytes)
    requires slot < TWO32 && magic < TWO32 && 8 + |payload| < TWO32 && !IsDirectorySlot(slot)
    requires ExpectedMagic(slot).Some? ==> magic == ExpectedMagic(slot).value
    ensures WellFormedBlob(Blob(slot, magic, BlobBytes(magic, payload)))
  {
    hide PutU32, U32, ParseDirectory;
    WordAt(BlobBytes(magic, payload), 0, magic);
    WordAt(BlobBytes(magic, payload), 4, 8 + |payload|);
  }

  /** Where component `i` starts. */
  function Offset(blobs: seq<Blob>, i: nat): nat
    requires i <= |blobs|
  {
    Base(blobs) + |Payload(blobs, i)|
  }

  lemma {:induction false} IndexHolds(blobs: seq<Blob>, i: nat, n: nat)
    requires i < n <= |blobs|
    ensures Index(blobs, n)[8 * i..8 * i + 4] == PutU32(blobs[i].slot)
    ensures Index(blobs, n)[8 * i + 4..8 * i + 8] == PutU32(Offset(blobs, i))
  {
    hide PutU32, Payload;
    if i < n - 1 {
      IndexHolds(blobs, i, n - 1);
    }
  }

  lemma {:induction false} PayloadHolds(blobs: seq<Blob>, i: nat, n: nat)
    requires i < n <= |blobs|
    ensures |Payload(blobs, i)| + |blobs[i].data| == |Payload(blobs, i + 1)| <= |Payload(blobs, n)|
    ensures Payload(blobs, n)[|Payload(blobs, i)|..|Payload(blobs, i + 1)|] == blobs[i].data
  {
    if i < n - 1 {
      PayloadHolds(blobs, i, n - 1);
    }
  }

  lemma SubSlice(s: Bytes, lo: nat, hi: nat, x: Bytes, from: nat, to: nat)
    requires lo <= hi <= |s| && s[lo..hi] == x && from <= to <= |x|
    ensures s[lo + from..lo + to] == x[from..to]
  {
    assert forall k | from <= k < to :: s[lo..hi][k] == s[lo + k];
  }

  lemma SectionsHold(magic: nat, blobs: seq<Blob>, pad: Bytes)
    ensures var s := Superblob(magic, blobs) + pad;
      && |s| == Total(blobs) + |pad|
      && s[0..4] == PutU32(magic) && s[4..8] == PutU32(Total(blobs)) && s[8..12] == PutU32(|blobs|)
      && s[12..Base(blobs)] == Index(blobs, |blobs|)
      && s[Base(blobs)..Total(blobs)] == Payload(blobs, |blobs|)
  {
    hide PutU32, Payload, Index;
  }

  /** Entry `i` as a reader finds it: slot, offset, and the component there. */
  ghost predicate EntryLaid(s: Bytes, blobs: seq<Blob>, i: nat)
    requires i < |blobs|
  {
    && 20 + 8 * i <= Base(blobs) && Offset(blobs, i) + |blobs[i].data| <= |s| && Base(blobs) <= |s|
    && U32(s, 12 + 8 * i) == blobs[i].slot && U32(s, 16 + 8 * i) == Offset(blobs, i)
    && s[Offset(blobs, i)..Offset(blobs, i) + |blobs[i].data|] == blobs[i].data
  }

  lemma EntryIsLaid(magic: nat, blobs: seq<Blob>, pad: Bytes, i: nat)
    requires i < |blobs| && blobs[i].slot < TWO32 && Total(blobs) < TWO32
    ensures EntryLaid(Superblob(magic, blobs) + pad, blobs, i)
  {
    hide PutU32, Payload, Index, Superblob, U32;
    var s := Superblob(magic, blobs) + pad;
    SectionsHold(magic, blobs, pad);
    IndexHolds(blobs, i, |blobs|);
    PayloadHolds(blobs, i, |blobs|);
    SubSlice(s, 12, Base(blobs), Index(blobs, |blobs|), 8 * i, 8 * i + 4);
    SubSlice(s, 12, Base(blobs), Index(blobs, |blobs|), 8 * i + 4, 8 * i + 8);
    SubSlice(s, Base(blobs), Total(blobs), Payload(blobs, |blobs|), |Payload(blobs, i)|, |Payload(blobs, i + 1)|);
    WordAt(s, 12 + 8 * i, blobs[i].slot);
    WordAt(s, 16 + 8 * i, Offset(blobs, i));
  }

  /** The blobs a container can hold: fit for their slots, no slot twice, and a length that fits 32 bits. */
  ghost predicate Packable(blobs: seq<Blob>) {
    && (forall i | 0 <= i < |blobs| :: WellFormedBlob(blobs[i]))
    && (forall i, j | 0 <= i < j < |blobs| :: blobs[i].slot != blobs[j].slot)
    && (exists i :: 0 <= i < |blobs| && blobs[i].slot == 0)
    && Total(blobs) < TWO32
  }

  /** The bytes start with a readable header for these blobs. */
  ghost predicate Headed(s: Bytes, blobs: seq<Blob>) {
    HeaderOk(s) && U32(s, 4) == Total(blobs) && U32(s, 8) == |blobs|
  }

  lemma HeaderReadBack(blobs: seq<Blob>, pad: Bytes)
    requires Total(blobs) < TWO32
    ensures Headed(Superblob(MAGIC_SIGNATURE, blobs) + pad, blobs)
  {
    hide PutU32, Payload, Index, Superblob, U32;
    var s := Superblob(MAGIC_SIGNATURE, blobs) + pad;
    SectionsHold(MAGIC_SIGNATURE, blobs, pad);
    WordAt(s, 0, MAGIC_SIGNATURE);
    WordAt(s, 4, Total(blobs));
    WordAt(s, 8, |blobs|);
    assert Total(blobs) == 12 + 8 * |blobs| + |Payload(blobs, |blobs|)|;
    hide Total;
    assert U32(s, 8) == |blobs| && U32(s, 4) == Total(blobs) && U32(s, 0) == MAGIC_SIGNATURE;
  }

  lemma EntryReadBack(s: Bytes, blobs: seq<Blob>, i: nat)
    requires i < |blobs| && WellFormedBlob(blobs[i]) && Headed(s, blobs) && EntryLaid(s, blobs, i)
    requires Offset(blobs, i) + |blobs[i].data| <= Total(blobs)
    ensures EntryOk(s, i) && SlotAt(s, i) == blobs[i].slot && BlobAt(s, i) == blobs[i]
    ensures SpanAt(s, i) == Span(Offset(blobs, i), Offset(blobs, i) + |blobs[i].data|)
  {
    assert Offset(blobs, i) >= 12 + 8 * |blobs|;
    hide U32, BlobOk, Offset, Total;
    var b, off := blobs[i], Offset(blobs, i);
    SameWord(s, off, b.data, 0);
    SameWord(s, off, b.data, 4);
    assert U32(s, off) == b.magic && U32(s, off + 4) == |b.data|;
    assert EntryInside(s, i);
    assert BlobAt(s, i) == b;
  }

  lemma SameWord(s: Bytes, off: nat, data: Bytes, at: nat)
    requires off + |data| <= |s| && s[off..off + |data|] == data && at + 4 <= |data|
    ensures U32(s, off + at) == U32(data, at)
  {
    assert data[at] == s[off + at] && data[at + 1] == s[off + at + 1];
    assert data[at + 2] == s[off + at + 2] && data[at + 3] == s[off + at + 3];
  }

  lemma OffsetsGrow(blobs: seq<Blob>, i: nat, j: nat)
    requires i < j <= |blobs|
    ensures Offset(blobs, i) + |blobs[i].data| <= Offset(blobs, j) <= Total(blobs)
  {
    PayloadGrows(blobs, i + 1, j);
    PayloadGrows(blobs, j, |blobs|);
  }

  /** Everything a reader sees of entry `i` of the written container. */
  ghost predicate ReadBack(s: Bytes, blobs: seq<Blob>, i: nat)
    requires i < |blobs| && Headed(s, blobs)
  {
    && EntryOk(s, i) && SlotAt(s, i) == blobs[i].slot && BlobAt(s, i) == blobs[i]
    && SpanAt(s, i) == Span(Offset(blobs, i), Offset(blobs, i) + |blobs[i].data|)
  }

  lemma EntriesReadBack(blobs: seq<Blob>, pad: Bytes)
    requires Packable(blobs) && Headed(Superblob(MAGIC_SIGNATURE, blobs) + pad, blobs)
    ensures forall i: nat | i < |blobs| :: ReadBack(Superblob(MAGIC_SIGNATURE, blobs) + pad, blobs, i)
  {
    var s := Superblob(MAGIC_SIGNATURE, blobs) + pad;
    forall i: nat | i < |blobs|
      ensures ReadBack(s, blobs, i)
    {
      assert WellFormedBlob(blobs[i]);
      hide Superblob, EntryLaid, Headed, EntryOk, BlobAt, SpanAt, SlotAt, Offset, Total, BlobOk, U32;
      EntryIsLaid(MAGIC_SIGNATURE, blobs, pad, i);
      OffsetsGrow(blobs, i, i + 1);
      EntryReadBack(s, blobs, i);
    }
  }

  lemma ReadBackIsAccepted(s: Bytes, blobs: seq<Blob>)
    requires Packable(blobs) && Headed(s, blobs) && forall i: nat | i < |blobs| :: ReadBack(s, blobs, i)
    ensures Accepted(s, false)
  {
    hide U32, BlobAt, SlotAt, EntryInside, BlobOk, Offset, Total, WellFormedBlob;
    forall i: nat, j: nat | i < j < |blobs|
      ensures SlotAt(s, i) != SlotAt(s, j) && Apart(s, i, j)
    {
      assert ReadBack(s, blobs, i) && ReadBack(s, blobs, j);
      OffsetsGrow(blobs, i, j);
    }
    forall i: nat | i < |blobs|
      ensures EntryOk(s, i)
    {
      assert ReadBack(s, blobs, i);
    }
    var z: nat :| z < |blobs| && blobs[z].slot == 0;
    assert ReadBack(s, blobs, z);
  }

  /** Reading back what was written, padded or not, gives the same blobs in the same places. */
  lemma RoundTrip(blobs: seq<Blob>, pad: Bytes)
    requires Packable(blobs)
    ensures var s := Superblob(MAGIC_SIGNATURE, blobs) + pad;
      && Accepted(s, false) && U32(s, 4) == Total(blobs) && U32(s, 8) == |blobs|
      && forall i: nat | i < |blobs| :: EntryOk(s, i) && BlobAt(s, i) == blobs[i]
  {
    hide Superblob, SlotAt, SpanAt, BlobAt, U32, Total, Accepted, WellFormedBlob, BlobOk, EntryInside;
    var s := Superblob(MAGIC_SIGNATURE, blobs) + pad;
    HeaderReadBack(blobs, pad);
    EntriesReadBack(blobs, pad);
    ReadBackIsAccepted(s, blobs);
    forall i: nat | i < |blobs|
      ensures EntryOk(s, i) && BlobAt(s, i) == blobs[i]
    {
      assert ReadBack(s, blobs, i);
    }
  }

  /** Packing does not depend on the order the blobs come in: the writer sorts them by slot. */
  lemma SortKeepsPackable(blobs: seq<Blob>)
    requires Packable(blobs)
    ensures Packable(Sort(SlotOrder, blobs)) && SortedBy(SlotOrder, Sort(SlotOrder, blobs))
  {
    hide WellFormedBlob, Sort, Payload;
    var sorted := Sort(SlotOrder, blobs);
    SortIsSorted(SlotOrder, blobs);
    hide SortedBy;
    SameMembers(blobs, sorted);
    SumAnyOrder(DataLength, blobs, sorted);
    PayloadSize(blobs, |blobs|);
    PayloadSize(sorted, |sorted|);
    assert blobs[..|blobs|] == blobs && sorted[..|sorted|] == sorted;
    DistinctSlots(blobs, sorted);
    forall i | 0 <= i < |sorted|
      ensures WellFormedBlob(sorted[i])
    {
      assert sorted[i] in blobs;
    }
    assert exists i :: 0 <= i < |sorted| && sorted[i].slot == 0 by {
      var z :| 0 <= z < |blobs| && blobs[z].slot == 0;
      assert blobs[z] in sorted;
    }
  }

  /** What the writer makes of any packable blobs, a reader accepts and returns in slot order. */
  lemma PackedReadsBack(blobs: seq<Blob>, pad: Bytes)
    requires Packable(blobs)
    ensures var sorted := Sort(SlotOrder, blobs);
      var s := Superblob(MAGIC_SIGNATURE, sorted) + pad;
      && SortedBy(SlotOrder, sorted) && multiset(sorted) == multiset(blobs)
      && Accepted(s, false) && U32(s, 8) == |sorted|
      && forall i: nat | i < |sorted| :: EntryOk(s, i) && BlobAt(s, i) == sorted[i]
  {
    hide Superblob, Packable, SlotAt, SpanAt, BlobAt, U32, Accepted, BlobOk, EntryInside, Sort, SortedBy;
    SortKeepsPackable(blobs);
    RoundTrip(Sort(SlotOrder, blobs), pad);
  }

  lemma SameMembers(a: seq<Blob>, b: seq<Blob>)
    requires multiset(a) == multiset(b)
    ensures |a| == |b| && forall x :: x in a <==> x in b
  {
    assert |a| == |multiset(a)| == |multiset(b)| == |b|;
    assert forall x :: x in a <==> x in multiset(a);
    assert forall x :: x in b <==> x in multiset(b);
  }

  lemma DistinctSlots(a: seq<Blob>, b: seq<Blob>)
    requires multiset(a) == multiset(b)
    requires forall i, j | 0 <= i < j < |a| :: a[i].slot != a[j].slot
    ensures forall i, j | 0 <= i < j < |b| :: b[i].slot != b[j].slot
  {
    forall i, j | 0 <= i < j < |b|
      ensures b[i].slot != b[j].slot
    {
      var m, n := TwoPlaces(b, a, i, j);
      assert m < n || n < m;
    }
  }

  function DataLength(b: Blob): int {
    |b.data|
  }

  lemma {:induction false} PayloadSize(blobs: seq<Blob>, n: nat)
    requires n <= |blobs|
    ensures |Payload(blobs, n)| == Sum(DataLength, blobs[..n])
  {
    if n > 0 {
      PayloadSize(blobs, n - 1);
      assert blobs[..n] == blobs[..n - 1] + [blobs[n - 1]];
      SumAppend(DataLength, blobs[..n - 1], blobs[n - 1]);
    }
  }
}
