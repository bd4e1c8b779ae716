/** Stripping prohibited attributes: removal happens while the policy asks for their sizes. */
module MetadataStrip {
  import opened Host
  import opened MetadataPolicy
  import opened Wrappers

  datatype StripFailure =
    | Policy(failure: Failure)
    | Removal(name: string, causes: Error)
    | Immutable
    | Cancelled

  type Sizes = map<string, nat>

  /** The metadata of a held file whose host answers, and refuses, in a settled way. */
  class File {
    const platform: Platform
    const listError: Option<Error>
    const queryError: string -> Option<Error>
    const removeError: string -> Option<Error>
    var sizes: Sizes

    constructor (platform: Platform, listError: Option<Error>, queryError: string -> Option<Error>,
        removeError: string -> Option<Error>, sizes: Sizes)
      ensures this.sizes == sizes && this.platform == platform
    {
      this.platform, this.listError, this.queryError, this.removeError, this.sizes := platform, listError, queryError,
        removeError, sizes;
    }

    function Size(sizes: Sizes, name: string): Answer {
      if queryError(name).Some? then Answer(0, false, queryError(name))
      else if name in sizes then Answer(sizes[name], true, None)
      else SILENT
    }

    /** What an inspection is told while these attributes are there. */
    function Answers(sizes: Sizes): Queries {
      Queries(platform, if listError.Some? then Err(listError.value) else Ok(sizes.Keys), name => Size(sizes, name))
    }

    /** The attribute is not asked for, or its query is forgiven, or it is empty, or it can be removed. */
    predicate Yields(sizes: Sizes, name: string) {
      (platform.Linux? && name !in sizes)
      || if queryError(name).Some? then Forgives(platform, queryError(name).value)
         else name in sizes && sizes[name] > 0 ==> removeError(name).None?
    }

    /** What stripping needs of the host. */
    predicate Strippable(sizes: Sizes) {
      (platform.Linux? ==> listError.None?) && Yields(sizes, RESOURCE_FORK) && Yields(sizes, FINDER_INFO)
    }

    predicate Clean(sizes: Sizes, name: string) {
      Seen(Answers(sizes), name) == Ok(false)
    }

    lemma OtherName(sizes: Sizes, gone: set<string>, name: string)
      requires name !in gone
      ensures Yields(sizes - gone, name) == Yields(sizes, name)
      ensures Clean(sizes - gone, name) == Clean(sizes, name)
    {
    }

    method Remove(name: string) returns (error: Option<Error>)
      modifies this
      ensures error == removeError(name)
      ensures sizes == if error.None? then old(sizes) - {name} else old(sizes)
    {
      error := removeError(name);
      if error.None? {
        sizes := sizes - {name};
      }
    }
  }

  /** The query of one attribute, which removes what it finds, and what the policy makes of its answer. */
  method StripOne(session: Session, file: File, names: set<string>, name: string)
    returns (r: Option<StripFailure>, ghost gone: set<string>)
    requires name in names <==> name in file.sizes
    requires file.platform.Linux? ==> file.listError.None?
    modifies session, file
    ensures gone <= {name} && file.sizes == old(file.sizes) - gone
    ensures gone != {} ==> name in old(file.sizes) && old(file.sizes)[name] > 0
    ensures r.None? ==> file.Clean(file.sizes, name)
    ensures r != Some(Cancelled) ==> (r.None? <==> file.Yields(old(file.sizes), name))
    ensures session.Onwards() && session.failed == old(session.failed)
    ensures r == Some(Cancelled) <==> !session.Smooth()
  {
    gone := {};
    var live := session.Live();
    if !live {
      return Some(Cancelled), gone;
    }
    var answer := SILENT;
    if !file.platform.Linux? || name in names {
      answer := file.Size(file.sizes, name);
      if answer.error.None? && answer.present && answer.size > 0 {
        live := session.Live();
        if !live {
          return Some(Cancelled), gone;
        }
        var error := file.Remove(name);
        if error.Some? {
          return Some(Removal(name, error.value)), gone;
        }
        gone := {name};
      }
    }
    if answer.error.Some? && !Forgives(file.platform, answer.error.value) {
      return Some(Policy(Failure(Query(name), answer.error.value))), gone;
    }
    r := None;
  }

  ghost predicate OnlyProhibited(sizes: Sizes, gone: set<string>) {
    forall name <- gone :: name in PROHIBITED && name in sizes && sizes[name] > 0
  }

  /**
   * Removes the nonempty prohibited attributes of the file itself: the next inspection finds none.
   * A permission error is forgiven to a query, never to a removal.
   */
  method StripNative(session: Session, file: File) returns (r: Option<StripFailure>, ghost gone: set<string>)
    modifies session, file
    ensures file.sizes == old(file.sizes) - gone && OnlyProhibited(old(file.sizes), gone)
    ensures r.None? ==> Inspect(file.Answers(file.sizes), None) == Ok(NONE)
    ensures r != Some(Cancelled) ==> (r.None? <==> file.Strippable(old(file.sizes)))
    ensures session.Onwards() && session.failed == old(session.failed)
    ensures r == Some(Cancelled) <==> !session.Smooth()
  {
    hide Seen, File.Yields, File.Clean;
    gone := {};
    var live := session.Live();
    if !live {
      return Some(Cancelled), gone;
    }
    if file.platform.Linux? && file.listError.Some? {
      return Some(Policy(Failure(Inventory, file.listError.value))), gone;
    }
    var names := file.sizes.Keys;
    for i := 0 to 2
      invariant session.Smooth()
      invariant file.sizes == old(file.sizes) - gone && OnlyProhibited(old(file.sizes), gone)
        && (i <= 1 ==> FINDER_INFO !in gone)
      invariant i == 0 ==> gone == {}
      invariant i > 0 ==> file.Clean(file.sizes, RESOURCE_FORK) && file.Yields(old(file.sizes), RESOURCE_FORK)
      invariant i > 1 ==> file.Clean(file.sizes, FINDER_INFO) && file.Yields(old(file.sizes), FINDER_INFO)
    {
      var name := PROHIBITED[i];
      ghost var before, one := file.sizes, {};
      file.OtherName(old(file.sizes), gone, name);
      r, one := StripOne(session, file, names, name);
      gone := gone + one;
      if r.Some? {
        return;
      }
      if i == 1 {
        file.OtherName(before, one, RESOURCE_FORK);
      }
    }
    CleanIsNone(file, file.sizes);
    live := session.Live();
    r := if live then None else Some(Cancelled);
  }

  lemma CleanIsNone(file: File, sizes: Sizes)
    requires file.Clean(sizes, RESOURCE_FORK) && file.Clean(sizes, FINDER_INFO)
      && (file.platform.Linux? ==> file.listError.None?)
    ensures Inspect(file.Answers(sizes), None) == Ok(NONE)
  {
  }

  function Cut(records: seq<Record>, name: string): seq<Record> {
    if records == [] then
      []
    else
      var last := |records| - 1;
      Cut(records[..last], name) + if records[last].name == name && Nonempty(records[last]) then [] else [records[last]]
  }

  /** The snapshot without one prohibited attribute: its fixed slot is cleared, its nonempty records go. */
  function Rewritten(s: Snapshot, name: string): Snapshot {
    Snapshot(if name == RESOURCE_FORK then None else s.fork,
      if name == FINDER_INFO then seq(|s.finder|, i => 0) else s.finder, Cut(s.records, name))
  }

  lemma {:induction false} CutMembers(records: seq<Record>, name: string)
    ensures forall r :: r in Cut(records, name) <==> r in records && !(r.name == name && Nonempty(r))
  {
    if records != [] {
      CutMembers(records[..|records| - 1], name);
      assert records == records[..|records| - 1] + [records[|records| - 1]];
    }
  }

  /** Rewriting hides exactly the one attribute. */
  lemma RewrittenShows(s: Snapshot, name: string)
    requires name in PROHIBITED
    ensures !Shows(Rewritten(s, name), name)
    ensures forall other <- PROHIBITED | other != name :: Shows(Rewritten(s, name), other) == Shows(s, other)
  {
    CutMembers(s.records, name);
    forall other <- PROHIBITED | other != name
      ensures Shows(Rewritten(s, name), other) == Shows(s, other)
    {
      assert forall r: Record | r.name == other :: r in Rewritten(s, name).records <==> r in s.records;
    }
  }

  /** Records that stripping has no business with. */
  function Unrelated(records: seq<Record>): seq<Record> {
    Cut(Cut(records, RESOURCE_FORK), FINDER_INFO)
  }

  lemma {:induction false} CutOrder(records: seq<Record>, a: string, b: string)
    ensures Cut(Cut(records, a), b) == Cut(Cut(records, b), a)
    ensures Cut(Cut(records, a), a) == Cut(records, a)
  {
    if records != [] {
      var last := |records| - 1;
      CutOrder(records[..last], a, b);
      CutLast(Cut(records[..last], a), records[last], b);
      CutLast(Cut(records[..last], a), records[last], a);
      CutLast(Cut(records[..last], b), records[last], a);
    }
  }

  lemma CutLast(front: seq<Record>, r: Record, name: string)
    ensures Cut(front + [r], name) == Cut(front, name) + if r.name == name && Nonempty(r) then [] else [r]
    ensures front + [] == front
  {
    assert (front + [r])[..|front|] == front;
  }

  /** An explicitly supplied snapshot, which may not be open to change. */
  class CarrierFile {
    const decodeError: Option<Error>
    const mutable: bool
    const removeError: string -> Option<Error>
    var snapshot: Snapshot

    constructor (decodeError: Option<Error>, mutable: bool, removeError: string -> Option<Error>, snapshot: Snapshot)
      ensures this.snapshot == snapshot
    {
      this.decodeError, this.mutable, this.removeError, this.snapshot := decodeError, mutable, removeError, snapshot;
    }

    function Decoded(): Carrier
      reads this
    {
      Some(if decodeError.Some? then Err(decodeError.value) else Ok(snapshot))
    }

    /** It can be decoded, and whatever it shows can be removed. */
    predicate Yields(snapshot: Snapshot) {
      && decodeError.None?
      && forall name <- PROHIBITED | Shows(snapshot, name) :: mutable && removeError(name).None?
    }

    /** Later reads no longer see the attribute, and every other value is kept. */
    method RemoveAttribute(name: string) returns (error: Option<Error>)
      requires name in PROHIBITED
      modifies this
      ensures error == removeError(name)
      ensures error.Some? ==> snapshot == old(snapshot)
      ensures error.None? ==> !Shows(snapshot, name)
      ensures forall other <- PROHIBITED | other != name :: Shows(snapshot, other) == Shows(old(snapshot), other)
      ensures Unrelated(snapshot.records) == Unrelated(old(snapshot.records))
    {
      hide Shows, Unrelated;
      error := removeError(name);
      if error.None? {
        RewrittenShows(snapshot, name);
        UnrelatedRewritten(snapshot, name);
        snapshot := Rewritten(snapshot, name);
      }
    }
  }

  lemma YieldsByNames(carrier: CarrierFile, s: Snapshot, names: seq<string>)
    requires carrier.decodeError.None? && names == Names(Shown(s))
    ensures carrier.Yields(s) <==> forall name <- names :: carrier.mutable && carrier.removeError(name).None?
    ensures forall name <- PROHIBITED :: Shows(s, name) <==> name in names
    ensures forall name <- names :: name in PROHIBITED
  {
    hide Shows;
    assert RESOURCE_FORK in PROHIBITED && FINDER_INFO in PROHIBITED;
    assert forall name <- PROHIBITED :: name == RESOURCE_FORK || name == FINDER_INFO;
    assert forall name <- names :: name in PROHIBITED && Shows(s, name);
    if forall name <- names :: carrier.mutable && carrier.removeError(name).None? {
      forall name <- PROHIBITED | Shows(s, name)
        ensures carrier.mutable && carrier.removeError(name).None?
      {
        assert name in names;
      }
    }
  }

  /** Removes what the carrier shows, one attribute after the other. */
  method StripCarrier(session: Session, carrier: CarrierFile) returns (r: Option<StripFailure>)
    modifies session, carrier
    ensures Unrelated(carrier.snapshot.records) == Unrelated(old(carrier.snapshot.records))
    ensures r.None? ==> carrier.decodeError.None? && Shown(carrier.snapshot) == NONE
    ensures session.Onwards() && session.failed == old(session.failed)
    ensures r == Some(Cancelled) <==> !session.Smooth()
    ensures r != Some(Cancelled) ==> (r.None? <==> carrier.Yields(old(carrier.snapshot)))
  {
    hide Shows, Unrelated, CarrierFile.Yields;
    if carrier.decodeError.Some? {
      assert !carrier.Yields(carrier.snapshot) by {
        Undecoded(carrier, carrier.snapshot);
      }
      return Some(Policy(Failure(Snapshotting, carrier.decodeError.value)));
    }
    var attrs := InspectCarrier(carrier.snapshot);
    var names := Names(attrs);
    YieldsByNames(carrier, carrier.snapshot, names);
    for i := 0 to |names|
      invariant Unrelated(carrier.snapshot.records) == Unrelated(old(carrier.snapshot.records))
      invariant forall name <- PROHIBITED :: Shows(carrier.snapshot, name) <==> name in names[i..]
      invariant session.Smooth()
      invariant forall k | 0 <= k < i :: carrier.mutable && carrier.removeError(names[k]).None?
    {
      var name := names[i];
      var live := session.Live();
      if !live {
        return Some(Cancelled);
      }
      if !carrier.mutable {
        return Some(Immutable);
      }
      assert names[i..] == [name] + names[i + 1..];
      var error := carrier.RemoveAttribute(name);
      if error.Some? {
        return Some(Removal(name, error.value));
      }
    }
    assert RESOURCE_FORK in PROHIBITED && FINDER_INFO in PROHIBITED;
    var live := session.Live();
    r := if live then None else Some(Cancelled);
  }

  lemma Undecoded(carrier: CarrierFile, s: Snapshot)
    requires carrier.decodeError.Some?
    ensures !carrier.Yields(s)
  {
  }

  lemma UnrelatedRewritten(s: Snapshot, name: string)
    requires name in PROHIBITED
    ensures Unrelated(Rewritten(s, name).records) == Unrelated(s.records)
  {
    CutOrder(s.records, RESOURCE_FORK, FINDER_INFO);
    CutOrder(Cut(s.records, RESOURCE_FORK), FINDER_INFO, RESOURCE_FORK);
    CutOrder(s.records, FINDER_INFO, RESOURCE_FORK);
  }

  /**
   * Strips the file, then its carrier. On success neither shows a prohibited attribute to the next
   * inspection; wherever it stops, all it has removed are nonempty prohibited attributes.
   */
  method Strip(session: Session, opens: bool, file: File, carrier: CarrierFile?)
    returns (ok: bool, ghost gone: set<string>)
    modifies session, file, carrier
    ensures file.sizes == old(file.sizes) - gone && OnlyProhibited(old(file.sizes), gone)
    ensures carrier != null ==> Unrelated(carrier.snapshot.records) == Unrelated(old(carrier.snapshot.records))
    // It succeeds exactly when nothing goes wrong and all that is there yields.
    ensures session.Onwards()
    ensures ok <==>
      && opens && session.Smooth() && file.Strippable(old(file.sizes))
      && (carrier != null ==> carrier.Yields(old(carrier.snapshot)))
    ensures ok && carrier == null ==> Inspect(file.Answers(file.sizes), None) == Ok(NONE)
    ensures ok && carrier != null ==> Inspect(file.Answers(file.sizes), carrier.Decoded()) == Ok(NONE)
  {
    hide Seen, Shows, Unrelated;
    gone := {};
    if !opens {
      return false, gone;
    }
    var r;
    r, gone := StripNative(session, file);
    if r.None? && carrier != null {
      r := StripCarrier(session, carrier);
    }
    var closed := session.Attempt();
    ok := r.None? && closed;
  }
}
