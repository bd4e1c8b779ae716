/** Binding a signature to its code directories: streamed from the container's index, or from bytes in memory. */
module DirectoryBinding {
  import opened AttributeBinding
  import opened ByteStrings
  import opened SignatureContainer
  import opened Sorting
  import opened Wrappers
  import Der
  import opened SignedAttributes

  const OID_SHA1: Bytes := [43, 14, 3, 2, 26]
  const OID_SHA256: Bytes := [96, 134, 72, 1, 101, 3, 4, 2, 1]
  const OID_SHA384: Bytes := [96, 134, 72, 1, 101, 3, 4, 2, 2]

  const DIRECTORY_SLOTS: seq<nat> := [0, 0x1000, 0x1001, 0x1002, 0x1003, 0x1004]

  /** A directory the container's index points at: its slot, the digest it announces, its bytes. */
  datatype View = View(slot: nat, hashType: Byte, data: Bytes)

  type Digest = (Byte, Bytes) -> Bytes

  ghost predicate Sized(h: Digest) {
    forall kind, data :: DigestSize(kind).Some? ==> |h(kind, data)| == DigestSize(kind).value
  }

  /** What parsing the container establishes for every directory of its index. */
  predicate Indexed(v: View) {
    && v.slot in DIRECTORY_SLOTS
    && ParseDirectory(v.data).Ok? && ParseDirectory(v.data).value.hashType == v.hashType
    && |v.data| >= 8 && U32(v.data, 4) == |v.data|
  }

  ghost predicate Index(views: seq<View>) {
    && (forall i | 0 <= i < |views| :: Indexed(views[i]))
    && (forall i, j | 0 <= i < j < |views| :: views[i].slot != views[j].slot)
  }

  /** The truncated SHA-256 of older directories is announced, and taken, in full. */
  function Effective(hashType: Byte): Byte {
    if hashType == 3 then 2 else hashType
  }

  function OidOf(kind: Byte): Bytes {
    if kind == 1 then OID_SHA1 else if kind == 2 then OID_SHA256 else OID_SHA384
  }

  function AgilityEntry(kind: Byte, sum: Bytes): Bytes
    requires |sum| <= 48
  {
    WrapSize(TAG_OID, OidOf(kind));
    WrapSize(TAG_OCTETS, sum);
    Der.Wrap(TAG_SEQUENCE, Der.Wrap(TAG_OID, OidOf(kind)) + Der.Wrap(TAG_OCTETS, sum))
  }

  datatype Listing = Listing(hashes: seq<Bytes>, agility: seq<Bytes>, seen: set<Bytes>)

  const NOTHING := Listing([], [], {})

  /** One more directory: its digest must be a new one. */
  function Add(h: Digest, l: Listing, hashType: Byte, data: Bytes): Result<Listing, Reject>
    requires DigestSize(hashType).Some? && Sized(h)
  {
    var kind := Effective(hashType);
    var sum := h(kind, data);
    assert |sum| == DigestSize(kind).value >= 20;
    if OidOf(kind) in l.seen then Err(Unsupported)
    else Ok(Listing(l.hashes + [sum[..20]], l.agility + [AgilityEntry(kind, sum)], l.seen + {OidOf(kind)}))
  }

  /** All directories of the index, in this order. */
  function ListViews(h: Digest, views: seq<View>): Result<Listing, Reject>
    requires Sized(h) && forall v <- views :: Indexed(v)
  {
    hide Indexed, Add;
    if views == [] then
      Ok(NOTHING)
    else
      var last := views[|views| - 1];
      match ListViews(h, views[..|views| - 1])
      case Err(e) => Err(e)
      case Ok(l) => IndexedAnnounces(last); Add(h, l, last.hashType, last.data)
  }

  lemma IndexedAnnounces(v: View)
    requires Indexed(v)
    ensures DigestSize(v.hashType).Some?
  {
    AnnouncesDigest(v.data);
  }

  /** All directories in memory: each is parsed, and must be as long as it says. */
  function ListBytes(h: Digest, raws: seq<Bytes>): Result<Listing, Reject>
    requires Sized(h)
  {
    if raws == [] then
      Ok(NOTHING)
    else
      var last := raws[|raws| - 1];
      match ListBytes(h, raws[..|raws| - 1])
      case Err(e) => Err(e)
      case Ok(l) =>
        match ParseDirectory(last)
        case Err(e) => Err(e)
        case Ok(d) =>
          AnnouncesDigest(last);
          if U32(last, 4) != |last| then Err(Malformed) else Add(h, l, d.hashType, last)
  }

  lemma AnnouncesDigest(raw: Bytes)
    requires ParseDirectory(raw).Ok?
    ensures |raw| >= 44 && DigestSize(ParseDirectory(raw).value.hashType).Some?
  {
    hide U32, U64, HeaderSize;
  }

  method DirectoryHashes(h: Digest, raws: seq<Bytes>) returns (r: Result<Listing, Reject>)
    requires Sized(h)
    ensures r == if |raws| == 0 || |raws| > 5 then Err(Malformed) else ListBytes(h, raws)
  {
    hide ParseDirectory, U32, Add, Sized;
    if |raws| == 0 || |raws| > 5 {
      return Err(Malformed);
    }
    var l := NOTHING;
    for i := 0 to |raws|
      invariant ListBytes(h, raws[..i]) == Ok(l)
    {
      var raw := raws[i];
      assert raws[..i + 1][..i] == raws[..i];
      var parsed := ParseDirectory(raw);
      if parsed.Err? {
        BytesStop(h, raws, i + 1);
        return Err(parsed.error);
      }
      AnnouncesDigest(raw);
      if U32(raw, 4) != |raw| {
        BytesStop(h, raws, i + 1);
        return Err(Malformed);
      }
      var next := Add(h, l, parsed.value.hashType, raw);
      if next.Err? {
        BytesStop(h, raws, i + 1);
        return next;
      }
      l := next.value;
    }
    assert raws[..|raws|] == raws;
    r := Ok(l);
  }

  lemma {:induction false} BytesStop(h: Digest, raws: seq<Bytes>, i: nat)
    requires Sized(h) && i <= |raws| && ListBytes(h, raws[..i]).Err?
    ensures ListBytes(h, raws) == ListBytes(h, raws[..i])
    decreases |raws|
  {
    hide ParseDirectory, U32, Add;
    if i == |raws| {
      assert raws[..i] == raws;
    } else {
      assert raws[..|raws| - 1][..i] == raws[..i];
      BytesStop(h, raws[..|raws| - 1], i);
    }
  }

  /** The binding of directories in memory; the first one is the primary. */
  function Bind(h: Digest, raws: seq<Bytes>): Result<Binding, Reject>
    requires Sized(h)
  {
    if |raws| == 0 || |raws| > 5 then
      Err(Malformed)
    else
      match ListBytes(h, raws)
      case Err(e) => Err(e)
      case Ok(l) => Ok(Binding(l.hashes, l.agility, h(2, raws[0])))
  }

  method BindDirectories(h: Digest, raws: seq<Bytes>) returns (r: Result<Binding, Reject>)
    requires Sized(h)
    ensures r == Bind(h, raws)
  {
    hide ListBytes;
    var listed := DirectoryHashes(h, raws);
    if listed.Err? {
      return Err(listed.error);
    }
    r := Ok(Binding(listed.value.hashes, listed.value.agility, h(2, raws[0])));
  }

  /** The first directory in that slot, if there is one. */
  function Found(views: seq<View>, slot: nat): (f: seq<View>)
    ensures |f| <= 1 && forall v <- f :: v in views && v.slot == slot
  {
    if views == [] then
      []
    else
      var last, f := views[|views| - 1], Found(views[..|views| - 1], slot);
      if f != [] || last.slot != slot then f else [last]
  }

  /** The directories of the first `k` slots, in slot order. */
  function Ordered(views: seq<View>, k: nat): (o: seq<View>)
    requires k <= 6
    ensures forall v <- o :: v in views
  {
    if k == 0 then [] else Ordered(views, k - 1) + Found(views, DIRECTORY_SLOTS[k - 1])
  }

  function Datas(views: seq<View>): seq<Bytes> {
    seq(|views|, i requires 0 <= i < |views| => views[i].data)
  }

  /** The directories of slots 0x1000 and on, up to the `k`th slot. */
  function Alternates(views: seq<View>, k: nat): seq<View>
    requires 1 <= k <= 6
  {
    if k == 1 then [] else Alternates(views, k - 1) + Found(views, DIRECTORY_SLOTS[k - 1])
  }

  /** What verification collects in memory: the primary, absent or not, then the alternates. */
  function InMemory(views: seq<View>): seq<Bytes> {
    [if Found(views, 0) == [] then [] else Found(views, 0)[0].data] + Datas(Alternates(views, 6))
  }

  /** The same from the index, in one pass over slots. */
  function Streamed(h: Digest, views: seq<View>): Result<Binding, Reject>
    requires Sized(h) && Index(views)
  {
    if |views| == 0 || |views| > 5 then
      Err(Malformed)
    else
      match ListViews(h, Ordered(views, 6))
      case Err(e) => Err(e)
      case Ok(l) => Ok(Binding(l.hashes, l.agility, PrimarySum(h, views)))
  }

  function PrimarySum(h: Digest, views: seq<View>): Bytes {
    if Found(views, 0) == [] then [] else h(2, Found(views, 0)[0].data)
  }

  /** Streaming the index: slot by slot, each time over the whole index. */
  method CmsBinding(h: Digest, views: seq<View>) returns (r: Result<Binding, Reject>)
    requires Sized(h) && Index(views)
    ensures r == Streamed(h, views)
  {
    hide Add, Sized, Index, Indexed, Found, FoundIn, ListViews, Ordered, PrimarySum;
    if |views| == 0 || |views| > 5 {
      return Err(Malformed);
    }
    AllIndexed(views);
    ListStart(h, views);
    var l, primary: Bytes := NOTHING, [];
    for k := 0 to 6
      invariant ListViews(h, Ordered(views, k)) == Ok(l)
      invariant primary == if k > 0 then PrimarySum(h, views) else []
    {
      var slot := DIRECTORY_SLOTS[k];
      FoundEnds(views, slot);
      OrderedNext(views, k);
      for i := 0 to |views|
        invariant forall v <- FoundIn(views, i, slot) :: Indexed(v)
        invariant ListViews(h, Ordered(views, k) + FoundIn(views, i, slot)) == Ok(l)
        invariant primary == if k > 0 then PrimarySum(h, views) else SumOf(h, FoundIn(views, i, 0))
      {
        var v := views[i];
        FoundNext(views, i, slot);
        assert Ordered(views, k) + [] == Ordered(views, k) && [] + [v] == [v];
        if v.slot != slot {
          assert FoundIn(views, i + 1, slot) == FoundIn(views, i, slot);
          continue;
        }
        ListNext(h, Ordered(views, k), v);
        var next := Add(h, l, v.hashType, v.data);
        if next.Err? {
          FoundIs(views, i);
          OrderedStops(h, views, k + 1, 6);
          return Err(next.error);
        }
        l := next.value;
        if slot == 0 {
          primary := h(2, v.data);
        }
      }
      if k == 0 {
        PrimaryIsFound(h, views);
      }
    }
    r := Ok(Binding(l.hashes, l.agility, primary));
  }

  function SumOf(h: Digest, found: seq<View>): Bytes {
    if found == [] then [] else h(2, found[0].data)
  }

  lemma PrimaryIsFound(h: Digest, views: seq<View>)
    ensures PrimarySum(h, views) == SumOf(h, FoundIn(views, |views|, 0))
  {
    FoundEnds(views, 0);
  }

  lemma ListStart(h: Digest, views: seq<View>)
    requires Sized(h)
    ensures ListViews(h, []) == Ok(NOTHING) && Ordered(views, 0) == []
  {
  }

  lemma OrderedNext(views: seq<View>, k: nat)
    requires k < 6
    ensures Ordered(views, k + 1) == Ordered(views, k) + Found(views, DIRECTORY_SLOTS[k])
      && Ordered(views, k) + [] == Ordered(views, k)
  {
    hide Found;
  }

  function FoundIn(views: seq<View>, i: nat, slot: nat): seq<View>
    requires i <= |views|
  {
    Found(views[..i], slot)
  }

  lemma FoundEnds(views: seq<View>, slot: nat)
    ensures FoundIn(views, 0, slot) == [] && FoundIn(views, |views|, slot) == Found(views, slot)
  {
    assert views[..|views|] == views;
  }

  lemma FoundNext(views: seq<View>, i: nat, slot: nat)
    requires Index(views) && i < |views|
    ensures FoundIn(views, i + 1, slot) == FoundIn(views, i, slot) + if views[i].slot == slot then [views[i]] else []
    ensures views[i].slot == slot ==> FoundIn(views, i, slot) == []
  {
    hide Indexed;
    assert views[..i + 1][..i] == views[..i];
    if views[i].slot == slot {
      NotFound(views[..i], slot);
    }
  }

  /** There is at most one directory in a slot, and it is found. */
  lemma {:induction false} FoundIs(views: seq<View>, i: nat)
    requires Index(views) && i < |views|
    ensures Found(views, views[i].slot) == [views[i]]
    decreases |views|
  {
    var last := |views| - 1;
    if i < last {
      FoundIs(views[..last], i);
    } else {
      NotFound(views[..last], views[last].slot);
    }
  }

  lemma {:induction false} NotFound(views: seq<View>, slot: nat)
    requires forall v <- views :: v.slot != slot
    ensures Found(views, slot) == []
  {
    if views != [] {
      NotFound(views[..|views| - 1], slot);
    }
  }

  lemma ListNext(h: Digest, views: seq<View>, v: View)
    requires Sized(h) && (forall w <- views :: Indexed(w)) && Indexed(v)
    ensures DigestSize(v.hashType).Some?
    ensures ListViews(h, views + [v])
      == match ListViews(h, views) case Err(e) => Err(e) case Ok(l) => Add(h, l, v.hashType, v.data)
    ensures views + [] == views
  {
    hide Indexed, Add;
    IndexedAnnounces(v);
    assert (views + [v])[..|views|] == views;
  }

  lemma AllIndexed(views: seq<View>)
    requires Index(views)
    ensures forall v <- views :: Indexed(v)
  {
    hide Indexed;
  }

  lemma {:induction false} OrderedStops(h: Digest, views: seq<View>, k: nat, m: nat)
    requires Sized(h) && Index(views) && k <= m <= 6 && ListViews(h, Ordered(views, k)).Err?
    ensures ListViews(h, Ordered(views, m)) == ListViews(h, Ordered(views, k))
    decreases m
  {
    hide Indexed, Add, ListViews;
    if k < m {
      OrderedStops(h, views, k, m - 1);
      AllIndexed(views);
      var f := Found(views, DIRECTORY_SLOTS[m - 1]);
      if f == [] {
        assert Ordered(views, m) == Ordered(views, m - 1);
      } else {
        assert f == [f[0]];
        ListNext(h, Ordered(views, m - 1), f[0]);
      }
    }
  }

  /** Bytes in memory and directories of the index list alike. */
  lemma {:induction false} ListAlike(h: Digest, views: seq<View>)
    requires Sized(h) && forall v <- views :: Indexed(v)
    ensures ListBytes(h, Datas(views)) == ListViews(h, views)
  {
    hide Add, ParseDirectory, U32;
    if views != [] {
      ListAlike(h, views[..|views| - 1]);
      assert Datas(views)[..|views| - 1] == Datas(views[..|views| - 1]);
      assert Indexed(views[|views| - 1]);
    }
  }

  lemma {:induction false} PrimaryFirst(views: seq<View>, k: nat)
    requires 1 <= k <= 6
    ensures Ordered(views, k) == Found(views, 0) + Alternates(views, k)
  {
    hide Found;
    if k == 1 {
      assert Ordered(views, 0) == [];
    } else {
      PrimaryFirst(views, k - 1);
    }
  }

  lemma {:induction false} OrderedSlots(views: seq<View>, k: nat)
    requires k <= 6
    ensures forall v <- Ordered(views, k) :: v.slot in DIRECTORY_SLOTS[..k]
    ensures Distinct(Ordered(views, k))
  {
    hide Found;
    if k > 0 {
      OrderedSlots(views, k - 1);
      assert DIRECTORY_SLOTS[..k] == DIRECTORY_SLOTS[..k - 1] + [DIRECTORY_SLOTS[k - 1]];
      SlotsDiffer(k - 1);
      var front, o := Ordered(views, k - 1), Ordered(views, k);
      forall i, j | 0 <= i < j < |o|
        ensures o[i] != o[j]
      {
        if j == |front| {
          assert o[i] in front && o[j].slot == DIRECTORY_SLOTS[k - 1];
        }
      }
    }
  }

  lemma SlotsDiffer(k: nat)
    requires k < 6
    ensures DIRECTORY_SLOTS[k] !in DIRECTORY_SLOTS[..k]
  {
  }

  ghost function Members<T>(s: seq<T>): set<T> {
    set x | x in s
  }

  lemma {:induction false} DistinctCount<T>(s: seq<T>)
    requires Distinct(s)
    ensures |Members(s)| == |s|
  {
    if s != [] {
      var last := |s| - 1;
      DistinctCount(s[..last]);
      assert Members(s) == Members(s[..last]) + {s[last]};
      assert s[last] !in s[..last];
    }
  }

  lemma {:induction false} OrderedFinds(views: seq<View>, k: nat, m: nat)
    requires k < m <= 6
    ensures forall v <- Found(views, DIRECTORY_SLOTS[k]) :: v in Ordered(views, m)
  {
    hide Found;
    if k < m - 1 {
      OrderedFinds(views, k, m - 1);
    }
  }

  /** No directory is lost or repeated on the way. */
  lemma OrderedCount(views: seq<View>)
    requires Index(views)
    ensures |Ordered(views, 6)| == |views|
  {
    hide Ordered, Found;
    OrderedSlots(views, 6);
    DistinctCount(Ordered(views, 6));
    DistinctCount(views);
    assert Members(Ordered(views, 6)) == Members(views) by {
      forall v <- views
        ensures v in Ordered(views, 6)
      {
        var i :| 0 <= i < |views| && views[i] == v;
        assert Indexed(views[i]);
        var k :| 0 <= k < 6 && DIRECTORY_SLOTS[k] == v.slot;
        FoundIs(views, i);
        OrderedFinds(views, k, 6);
      }
    }
  }

  /**
   * Streaming the index binds what collecting the directories in memory would, errors included,
   * exactly when there is a primary directory, or no directory at all.
   */
  lemma StreamedIsDirect(h: Digest, views: seq<View>)
    requires Sized(h) && Index(views)
    ensures Streamed(h, views) == Bind(h, InMemory(views)) <==> Found(views, 0) != [] || views == []
  {
    hide ListViews, ListBytes, Found, Ordered, Alternates, Indexed;
    OrderedCount(views);
    AllIndexed(views);
    PrimaryFirst(views, 6);
    if Found(views, 0) != [] {
      assert InMemory(views) == Datas(Ordered(views, 6));
      ListAlike(h, Ordered(views, 6));
    } else {
      NoPrimary(h, InMemory(views));
      if views != [] {
        OnlyAlternates(views);
        OnlyDigestsClash(h, Ordered(views, 6));
      }
    }
  }

  /** A minimal SHA-256 directory: a header, an identifier of one letter, and no hashes. */
  const DIRECTORY: Bytes := seq(46, i => MinimalByte(i))

  function MinimalByte(i: int): Byte {
    match i
    case 0 => 0xfa
    case 1 => 0xde
    case 2 => 0x0c
    case 3 => 0x02
    case 7 => 46
    case 9 => 2
    case 11 => 1
    case 19 => 46
    case 23 => 44
    case 36 => 32
    case 37 => 2
    case 44 => 97
    case _ => 0
  }

  lemma DirectoryParses(slot: nat)
    requires slot in DIRECTORY_SLOTS
    ensures Indexed(View(slot, 2, DIRECTORY))
  {
    DirectoryWords();
    MinimalParses(DIRECTORY);
    hide U32, ParseDirectory;
  }

  lemma DirectoryWords()
    ensures Minimal(DIRECTORY)
  {
    assert U32(DIRECTORY, 0) == MAGIC_DIRECTORY && U32(DIRECTORY, 8) == 0x20001;
  }

  /** The fields of a directory that has none of what is optional. */
  predicate Minimal(d: Bytes) {
    && |d| == 46 && U32(d, 0) == MAGIC_DIRECTORY && U32(d, 4) == 46 && U32(d, 8) == 0x20001
    && U32(d, 16) == 46 && U32(d, 20) == 44 && U32(d, 24) == 0 && U32(d, 28) == 0
    && d[36] == 32 && d[37] == 2 && d[39] == 0 && d[44] != 0 && d[45] == 0
  }

  lemma MinimalParses(d: Bytes)
    requires Minimal(d)
    ensures ParseDirectory(d).Ok? && ParseDirectory(d).value.hashType == 2
  {
    hide U32;
    assert CheckHeader(d) == Ok(44);
    assert CString(d, 45) == Some([]);
    assert CString(d, 44).Some?;
    hide CString, CheckHeader;
    assert TeamOf(d) == Some([]);
  }

  /** An index with an alternate directory and no primary: streaming binds it, collecting it in memory fails. */
  lemma AlternateAlone(h: Digest)
    requires Sized(h)
    ensures var views := [View(0x1000, 2, DIRECTORY)];
      Index(views) && Streamed(h, views).Ok? && Bind(h, InMemory(views)) == Err(Malformed)
  {
    assert DIRECTORY_SLOTS[1] == 0x1000;
    DirectoryParses(0x1000);
    hide Indexed, Streamed, Bind, InMemory;
    WithoutPrimary(h, View(0x1000, 2, DIRECTORY));
  }

  lemma WithoutPrimary(h: Digest, v: View)
    requires Sized(h) && Indexed(v) && v.slot != 0
    ensures Streamed(h, [v]).Ok? && Bind(h, InMemory([v])) == Err(Malformed)
  {
    hide Indexed, Ordered, Alternates, ListViews, Bind;
    var views := [v];
    assert Found(views, 0) == [] by { assert views[..0] == []; }
    hide Found;
    NoPrimary(h, InMemory(views));
    OrderedCount(views);
    var o := Ordered(views, 6);
    assert |o| == 1 && o[0] in views;
    assert o == views;
    OneDirectory(h, v);
  }

  lemma OneDirectory(h: Digest, v: View)
    requires Sized(h) && Indexed(v)
    ensures ListViews(h, [v]).Ok?
  {
    IndexedAnnounces(v);
    hide Indexed;
    assert [v][..0] == [];
    assert ListViews(h, []) == Ok(NOTHING);
  }

  /** Without a primary, the bytes in memory begin with none at all. */
  lemma NoPrimary(h: Digest, raws: seq<Bytes>)
    requires Sized(h) && raws != [] && raws[0] == []
    ensures Bind(h, raws) == Err(Malformed)
  {
    assert raws[..1][..0] == [];
    assert ListBytes(h, raws[..1]) == Err(Malformed);
    BytesStop(h, raws, 1);
  }

  lemma OnlyAlternates(views: seq<View>)
    requires Index(views) && Found(views, 0) == []
    ensures |views| <= 5
  {
    hide Found, Ordered, Alternates, Indexed;
    OrderedCount(views);
    PrimaryFirst(views, 6);
    FewAlternates(views, 6);
  }

  lemma {:induction false} FewAlternates(views: seq<View>, k: nat)
    requires 1 <= k <= 6
    ensures |Alternates(views, k)| < k
  {
    hide Found;
    if k > 1 {
      FewAlternates(views, k - 1);
    }
  }

  lemma {:induction false} OnlyDigestsClash(h: Digest, views: seq<View>)
    requires Sized(h) && forall v <- views :: Indexed(v)
    ensures ListViews(h, views).Err? ==> ListViews(h, views).error == Unsupported
  {
    hide Indexed;
    if views != [] {
      OnlyDigestsClash(h, views[..|views| - 1]);
    }
  }

  /** The order of the container's index does not matter. */
  lemma AnyIndexOrder(h: Digest, views: seq<View>, reordered: seq<View>)
    requires Sized(h) && Index(views) && Index(reordered) && multiset(views) == multiset(reordered)
    ensures Streamed(h, views) == Streamed(h, reordered)
  {
    assert |views| == |multiset(views)| == |reordered|;
    forall slot
      ensures Found(views, slot) == Found(reordered, slot)
    {
      FoundAnywhere(views, reordered, slot);
    }
    SameOrder(views, reordered, 6);
  }

  lemma FoundAnywhere(views: seq<View>, reordered: seq<View>, slot: nat)
    requires Index(views) && Index(reordered) && multiset(views) == multiset(reordered)
    ensures Found(views, slot) == Found(reordered, slot)
  {
    hide Indexed;
    if i :| 0 <= i < |views| && views[i].slot == slot {
      FoundIs(views, i);
      InMultiset(views, i);
      var k := Find(reordered, views[i]);
      FoundIs(reordered, k);
    } else {
      NotFound(views, slot);
      forall v <- reordered
        ensures v.slot != slot
      {
        assert v in multiset(views);
      }
      NotFound(reordered, slot);
    }
  }

  lemma {:induction false} SameOrder(views: seq<View>, reordered: seq<View>, k: nat)
    requires k <= 6 && forall slot :: Found(views, slot) == Found(reordered, slot)
    ensures Ordered(views, k) == Ordered(reordered, k)
  {
    hide Found;
    if k > 0 {
      SameOrder(views, reordered, k - 1);
    }
  }

  predicate Usable(raw: Bytes) {
    ParseDirectory(raw).Ok? && |raw| >= 8 && U32(raw, 4) == |raw|
  }

  function Kind(raw: Bytes): Byte
    requires ParseDirectory(raw).Ok?
  {
    Effective(ParseDirectory(raw).value.hashType)
  }

  /** One hash and one digest entry for each directory, in order. */
  ghost predicate Lists(h: Digest, raws: seq<Bytes>, l: Listing)
    requires Sized(h)
  {
    && |l.hashes| == |l.agility| == |raws|
    && (forall i | 0 <= i < |raws| :: Usable(raws[i]) && ListsOne(h, raws[i], l.hashes[i], l.agility[i]))
    && (forall oid :: oid in l.seen <==> exists i :: 0 <= i < |raws| && Usable(raws[i]) && OidOf(Kind(raws[i])) == oid)
    && (forall i, j | 0 <= i < j < |raws| :: OidOf(Kind(raws[i])) != OidOf(Kind(raws[j])))
  }

  ghost predicate ListsOne(h: Digest, raw: Bytes, hash: Bytes, agility: Bytes)
    requires Sized(h) && Usable(raw)
  {
    AnnouncesDigest(raw);
    var sum := h(Kind(raw), raw);
    hash == sum[..20] && agility == AgilityEntry(Kind(raw), sum)
  }

  /** SHA-1, SHA-256, SHA-256 cut short, SHA-384: the digest that is announced, and its identifier. */
  function Announced(hashType: Byte): (Byte, Bytes) {
    if hashType == 1 then (1, [43, 14, 3, 2, 26])
    else if hashType == 4 then (4, [96, 134, 72, 1, 101, 3, 4, 2, 2])
    else (2, [96, 134, 72, 1, 101, 3, 4, 2, 1])
  }

  /** The hash is the digest cut to 20 bytes; the entry pairs the identifier of the digest with all of it. */
  lemma ListedExactly(h: Digest, raw: Bytes, hash: Bytes, agility: Bytes)
    requires Sized(h) && Usable(raw)
    ensures var (kind, oid) := Announced(ParseDirectory(raw).value.hashType);
      var sum := h(kind, raw);
      && 20 <= |sum| <= 48
      && (ListsOne(h, raw, hash, agility) <==>
            hash == sum[..20] && agility == Der.Wrap(0x30, [6, |oid|] + oid + [4, |sum|] + sum))
  {
    hide ParseDirectory, U32;
    AnnouncesDigest(raw);
    var (kind, oid) := Announced(ParseDirectory(raw).value.hashType);
    var sum := h(kind, raw);
    assert |sum| == DigestSize(kind).value;
    assert Der.Wrap(TAG_OID, oid) + Der.Wrap(TAG_OCTETS, sum) == [6, |oid|] + oid + [4, |sum|] + sum;
  }

  /** Two directories clash exactly when they announce the same digest. */
  lemma ClashesExactly(x: Bytes, y: Bytes)
    requires Usable(x) && Usable(y)
    ensures OidOf(Kind(x)) == OidOf(Kind(y)) <==>
      Announced(ParseDirectory(x).value.hashType).0 == Announced(ParseDirectory(y).value.hashType).0
  {
    hide ParseDirectory, U32;
    AnnouncesDigest(x);
    AnnouncesDigest(y);
    assert |OID_SHA1| == 5 && |OID_SHA256| == 9 && OID_SHA256[8] == 1 && |OID_SHA384| == 9 && OID_SHA384[8] == 2;
  }

  /** Every directory is listed once, unless one is unusable or two use the same digest. */
  lemma {:induction false} ListingMeans(h: Digest, raws: seq<Bytes>)
    requires Sized(h)
    ensures ListBytes(h, raws).Ok? ==> Lists(h, raws, ListBytes(h, raws).value)
    ensures ListBytes(h, raws).Err? ==> Faulty(raws)
  {
    hide ParseDirectory, U32, Add, Lists, Faulty, Sized;
    if raws == [] {
      NothingListed(h);
    } else {
      var front, last := raws[..|raws| - 1], raws[|raws| - 1];
      assert raws == front + [last];
      ListingMeans(h, front);
      if ListBytes(h, front).Err? {
        FaultyStays(front, last);
      } else if ParseDirectory(last).Err? {
        UnusableLast(front, last);
      } else {
        AnnouncesDigest(last);
        if U32(last, 4) != |last| {
          UnusableLast(front, last);
        } else {
          AddMeans(h, front, last, ListBytes(h, front).value);
        }
      }
    }
  }

  lemma NothingListed(h: Digest)
    requires Sized(h)
    ensures Lists(h, [], NOTHING)
  {
  }

  predicate Faulty(raws: seq<Bytes>) {
    (exists i :: 0 <= i < |raws| && !Usable(raws[i])) || Clashing(raws)
  }

  lemma UnusableLast(front: seq<Bytes>, last: Bytes)
    requires !Usable(last)
    ensures Faulty(front + [last])
  {
    hide Usable;
    assert (front + [last])[|front|] == last;
  }

  lemma FaultyStays(front: seq<Bytes>, last: Bytes)
    requires Faulty(front)
    ensures Faulty(front + [last])
  {
    hide OidOf, Kind, ParseDirectory, U32;
    var raws := front + [last];
    assert forall i | 0 <= i < |front| :: raws[i] == front[i];
    if i :| 0 <= i < |front| && !Usable(front[i]) {
      assert !Usable(raws[i]);
    } else {
      var i, j :| 0 <= i < j < |front| && Usable(front[i]) && Usable(front[j])
        && OidOf(Kind(front[i])) == OidOf(Kind(front[j]));
      assert OidOf(Kind(raws[i])) == OidOf(Kind(raws[j]));
    }
  }

  predicate Clashing(raws: seq<Bytes>) {
    exists i, j ::
      0 <= i < j < |raws| && Usable(raws[i]) && Usable(raws[j]) && OidOf(Kind(raws[i])) == OidOf(Kind(raws[j]))
  }

  lemma AddMeans(h: Digest, front: seq<Bytes>, last: Bytes, l: Listing)
    requires Sized(h) && Lists(h, front, l) && ParseDirectory(last).Ok?
      && DigestSize(ParseDirectory(last).value.hashType).Some? && |last| >= 44
    ensures var r := Add(h, l, ParseDirectory(last).value.hashType, last);
      && (r.Ok? && U32(last, 4) == |last| ==> Lists(h, front + [last], r.value))
      && (r.Err? && U32(last, 4) == |last| ==> Faulty(front + [last]))
  {
    hide ParseDirectory, U32, AgilityEntry, OidOf, Effective, Sized;
    var r := Add(h, l, ParseDirectory(last).value.hashType, last);
    var raws := front + [last];
    assert forall i | 0 <= i < |front| :: raws[i] == front[i];
    if U32(last, 4) == |last| {
      if r.Err? {
        var i :| 0 <= i < |front| && Usable(front[i]) && OidOf(Kind(front[i])) == OidOf(Kind(last));
        assert OidOf(Kind(raws[i])) == OidOf(Kind(raws[|front|]));
      } else {
        assert ListsOne(h, last, r.value.hashes[|front|], r.value.agility[|front|]);
        forall oid
          ensures oid in r.value.seen <==> exists i :: 0 <= i < |raws| && Usable(raws[i]) && OidOf(Kind(raws[i])) == oid
        {
          if oid == OidOf(Kind(last)) {
            assert OidOf(Kind(raws[|front|])) == oid;
          } else if oid in l.seen {
            var i :| 0 <= i < |front| && Usable(front[i]) && OidOf(Kind(front[i])) == oid;
            assert OidOf(Kind(raws[i])) == oid;
          }
        }
      }
    }
  }

  /** The directories among the components of a container, in index order. */
  function ViewsOf(blobs: seq<Blob>): seq<View> {
    if blobs == [] then
      []
    else
      var last := blobs[|blobs| - 1];
      var parsed := ParseDirectory(last.data);
      ViewsOf(blobs[..|blobs| - 1])
      + if IsDirectorySlot(last.slot) && parsed.Ok? then [View(last.slot, parsed.value.hashType, last.data)] else []
  }

  ghost predicate Components(blobs: seq<Blob>) {
    && (forall i | 0 <= i < |blobs| ::
      BlobOk(blobs[i]) && |blobs[i].data| >= 8 && U32(blobs[i].data, 4) == |blobs[i].data|)
    && (forall i, j | 0 <= i < j < |blobs| :: blobs[i].slot != blobs[j].slot)
  }

  lemma SlotsAgree(slot: nat)
    ensures IsDirectorySlot(slot) <==> slot in DIRECTORY_SLOTS
  {
    assert DIRECTORY_SLOTS[0] == 0 && DIRECTORY_SLOTS[1] == 0x1000 && DIRECTORY_SLOTS[2] == 0x1001;
    assert DIRECTORY_SLOTS[3] == 0x1002 && DIRECTORY_SLOTS[4] == 0x1003 && DIRECTORY_SLOTS[5] == 0x1004;
  }

  lemma ViewsNext(blobs: seq<Blob>)
    requires blobs != [] && Components(blobs)
    ensures var front, last := blobs[..|blobs| - 1], blobs[|blobs| - 1];
      && Components(front)
      && ViewsOf(blobs) == ViewsOf(front) + if IsDirectorySlot(last.slot)
        then [View(last.slot, ParseDirectory(last.data).value.hashType, last.data)] else []
  {
    hide ParseDirectory, U32, IsDirectorySlot;
    var front := blobs[..|blobs| - 1];
    assert forall i | 0 <= i < |front| :: blobs[i] == front[i];
    assert BlobOk(blobs[|blobs| - 1]);
  }

  lemma {:induction false} ViewsIndexed(blobs: seq<Blob>)
    requires Components(blobs)
    ensures forall v <- ViewsOf(blobs) :: Indexed(v)
  {
    if blobs != [] {
      var last := blobs[|blobs| - 1];
      ViewsNext(blobs);
      ViewsIndexed(blobs[..|blobs| - 1]);
      SlotsAgree(last.slot);
      assert BlobOk(last);
      hide Components, ViewsOf, ParseDirectory, U32, IsDirectorySlot;
    }
  }

  lemma {:induction false} ViewsFrom(blobs: seq<Blob>)
    requires Components(blobs)
    ensures forall v <- ViewsOf(blobs) :: exists i :: 0 <= i < |blobs| && blobs[i].slot == v.slot
  {
    if blobs != [] {
      var front, last := blobs[..|blobs| - 1], |blobs| - 1;
      ViewsNext(blobs);
      ViewsFrom(front);
      hide Components, ViewsOf, ParseDirectory, IsDirectorySlot;
      forall v <- ViewsOf(blobs)
        ensures exists i :: 0 <= i < |blobs| && blobs[i].slot == v.slot
      {
        if v in ViewsOf(front) {
          var i :| 0 <= i < |front| && front[i].slot == v.slot;
          assert blobs[i].slot == v.slot;
        } else {
          assert blobs[last].slot == v.slot;
        }
      }
    }
  }

  lemma {:induction false} ViewsDistinct(blobs: seq<Blob>)
    requires Components(blobs)
    ensures var views := ViewsOf(blobs); forall i, j | 0 <= i < j < |views| :: views[i].slot != views[j].slot
  {
    if blobs != [] {
      var front, last := blobs[..|blobs| - 1], blobs[|blobs| - 1];
      ViewsNext(blobs);
      ViewsFrom(front);
      ViewsDistinct(front);
      hide BlobOk, ViewsOf, ParseDirectory, U32, IsDirectorySlot;
      forall v <- ViewsOf(front)
        ensures v.slot != last.slot
      {
        var i :| 0 <= i < |front| && front[i].slot == v.slot;
        assert blobs[i].slot == v.slot;
      }
    }
  }

  lemma {:induction false} PrimaryFound(blobs: seq<Blob>, i: nat)
    requires Components(blobs) && i < |blobs| && blobs[i].slot == 0
    ensures exists v <- ViewsOf(blobs) :: v.slot == 0
    decreases |blobs|
  {
    var front, last := blobs[..|blobs| - 1], |blobs| - 1;
    ViewsNext(blobs);
    if i == last {
      assert ViewsOf(blobs)[|ViewsOf(front)|].slot == 0;
    } else {
      PrimaryFound(front, i);
      hide Components, ViewsOf, ParseDirectory;
      var v :| v in ViewsOf(front) && v.slot == 0;
      assert v in ViewsOf(blobs);
    }
  }

  /** What an accepted container exposes as components. */
  lemma AcceptedComponents(d: Bytes, allowUnsigned: bool, blobs: seq<Blob>)
    requires Accepted(d, allowUnsigned) && |blobs| == U32(d, 8)
    requires forall i: nat | i < U32(d, 8) :: EntryOk(d, i) && blobs[i] == BlobAt(d, i)
    ensures Components(blobs)
    ensures (exists i :: 0 <= i < |blobs| && blobs[i].slot == 0) || forall i | 0 <= i < |blobs| ::
      !IsDirectorySlot(blobs[i].slot)
  {
    hide U32, BlobOk;
    forall i: nat | i < |blobs|
      ensures BlobOk(blobs[i]) && |blobs[i].data| >= 8 && U32(blobs[i].data, 4) == |blobs[i].data|
        && blobs[i].slot == SlotAt(d, i)
    {
      assert EntryOk(d, i);
      SliceU32(d, SpanAt(d, i).start, SpanAt(d, i).end);
    }
  }

  lemma SliceU32(d: Bytes, start: nat, end: nat)
    requires start + 8 <= end <= |d|
    ensures U32(d[start..end], 4) == U32(d, start + 4)
  {
  }

  /** For every container that parsing accepts, from any bytes, both ways of binding agree. */
  lemma AcceptedBindsAlike(h: Digest, d: Bytes, allowUnsigned: bool, blobs: seq<Blob>)
    requires Sized(h) && Accepted(d, allowUnsigned) && |blobs| == U32(d, 8)
    requires forall i: nat | i < U32(d, 8) :: EntryOk(d, i) && blobs[i] == BlobAt(d, i)
    ensures Index(ViewsOf(blobs)) && Streamed(h, ViewsOf(blobs)) == Bind(h, InMemory(ViewsOf(blobs)))
  {
    AcceptedComponents(d, allowUnsigned, blobs);
    hide *;
    ContainerAlike(h, blobs);
  }

  lemma ContainerAlike(h: Digest, blobs: seq<Blob>)
    requires Sized(h) && Components(blobs)
    requires (exists i :: 0 <= i < |blobs| && blobs[i].slot == 0) || forall i | 0 <= i < |blobs| ::
      !IsDirectorySlot(blobs[i].slot)
    ensures Index(ViewsOf(blobs)) && Streamed(h, ViewsOf(blobs)) == Bind(h, InMemory(ViewsOf(blobs)))
  {
    hide Streamed, Bind, InMemory, ViewsOf, Indexed, Components, Found, IsDirectorySlot;
    ViewsIndexed(blobs);
    ViewsDistinct(blobs);
    var views := ViewsOf(blobs);
    assert Index(views) by {
      forall i | 0 <= i < |views|
        ensures Indexed(views[i])
      {
        assert views[i] in views;
      }
    }
    StreamedIsDirect(h, views);
    if i :| 0 <= i < |blobs| && blobs[i].slot == 0 {
      PrimaryFound(blobs, i);
      var v :| v in views && v.slot == 0;
      var k :| 0 <= k < |views| && views[k] == v;
      FoundIs(views, k);
    } else {
      NoViews(blobs);
    }
  }

  lemma {:induction false} NoViews(blobs: seq<Blob>)
    requires forall i | 0 <= i < |blobs| :: !IsDirectorySlot(blobs[i].slot)
    ensures ViewsOf(blobs) == []
  {
    hide ParseDirectory, IsDirectorySlot;
    if blobs != [] {
      NoViews(blobs[..|blobs| - 1]);
    }
  }
}
