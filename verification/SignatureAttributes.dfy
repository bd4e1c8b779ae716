/** Removing a generic file's attached signature: canonical slots, the enclosing flush, then the namespace. */
module SignatureAttributes {
  import opened ByteStrings
  import opened Host
  import opened Text
  import opened Wrappers

  const PREFIX := "com.apple.cs."

  const SLOTS: seq<string> :=
    ["CodeDirectory", "CodeRequirements", "CodeResources", "CodeTopDirectory", "CodeEntitlements", "CodeRepSpecific",
     "CodeEntitlementDER", "LaunchConstraintSelf", "LaunchConstraintParent", "LaunchConstraintResponsible",
     "LibraryConstraint", "CodeSignature"]

  datatype Record = Record(name: string, value: Bytes)

  predicate Same(fold: bool, a: string, b: string) {
    a == b || (fold && Lower(a) == Lower(b))
  }

  /** The name lies in the signature namespace. */
  predicate Under(fold: bool, name: string) {
    PREFIX <= if fold then Lower(name) else name
  }

  function Keep(records: seq<Record>, p: Record -> bool): seq<Record> {
    if records == [] then
      []
    else
      var last := |records| - 1;
      Keep(records[..last], p) + if p(records[last]) then [records[last]] else []
  }

  function Without(fold: bool, records: seq<Record>, name: string): seq<Record> {
    Keep(records, (r: Record) => !Same(fold, r.name, name))
  }

  /** Everything that is no part of a signature. */
  function Outside(fold: bool, records: seq<Record>): seq<Record> {
    Keep(records, (r: Record) => !Under(fold, r.name))
  }

  function Names(records: seq<Record>): seq<string> {
    seq(|records|, i requires 0 <= i < |records| => records[i].name)
  }

  function Canonical(): seq<string> {
    seq(|SLOTS|, i requires 0 <= i < |SLOTS| => PREFIX + SLOTS[i])
  }

  function Found(fold: bool, name: string): seq<string> {
    if Under(fold, name) then [name] else []
  }

  function Matching(fold: bool, names: seq<string>): seq<string> {
    if names == [] then
      []
    else
      var last := |names| - 1;
      Matching(fold, names[..last]) + Found(fold, names[last])
  }

  function Removals(from: Origin, names: seq<string>): seq<Event> {
    seq(|names|, i requires 0 <= i < |names| => Removed(from, names[i]))
  }

  /** What the events did to the records of one store. */
  function Apply(fold: bool, from: Origin, records: seq<Record>, events: seq<Event>): seq<Record> {
    if events == [] then
      records
    else
      var before, event := Apply(fold, from, records, events[..|events| - 1]), events[|events| - 1];
      if event.Removed? && event.from == from then Without(fold, before, event.name) else before
  }

  function SlotScript(from: Origin, hook: bool): seq<Event> {
    Removals(from, Canonical()) + (if hook then [Flushed] else []) + [Listed(from)]
  }

  /** All that removal does to one store when nothing stops it. */
  function Script(fold: bool, from: Origin, hook: bool, records: seq<Record>): seq<Event> {
    var front := SlotScript(from, hook);
    front + Removals(from, Matching(fold, Names(Apply(fold, from, records, front))))
  }

  lemma {:induction false} KeepMembers(records: seq<Record>, p: Record -> bool)
    ensures forall r :: r in Keep(records, p) <==> r in records && p(r)
  {
    if records != [] {
      KeepMembers(records[..|records| - 1], p);
      assert records == records[..|records| - 1] + [records[|records| - 1]];
    }
  }

  lemma {:induction false} KeepTwice(records: seq<Record>, p: Record -> bool, q: Record -> bool, both: Record -> bool)
    requires forall r <- records :: both(r) <==> p(r) && q(r)
    ensures Keep(Keep(records, p), q) == Keep(records, both)
  {
    if records != [] {
      var last := |records| - 1;
      KeepTwice(records[..last], p, q, both);
      var front := Keep(records[..last], p);
      if p(records[last]) {
        assert (front + [records[last]])[..|front|] == front;
      } else {
        assert front + [] == front;
      }
    }
  }

  lemma {:induction false} KeepAll(records: seq<Record>, p: Record -> bool)
    requires forall r <- records :: p(r)
    ensures Keep(records, p) == records
  {
    if records != [] {
      var front, last := records[..|records| - 1], records[|records| - 1];
      assert records == front + [last] && last in records;
      assert forall r <- front :: r in records;
      KeepAll(front, p);
    }
  }

  lemma SameUnder(fold: bool, a: string, b: string)
    requires Same(fold, a, b)
    ensures Under(fold, a) <==> Under(fold, b)
  {
  }

  /** Removing one name of the namespace leaves everything outside as it was. */
  lemma OutsideWithout(fold: bool, records: seq<Record>, name: string)
    requires Under(fold, name)
    ensures Outside(fold, Without(fold, records, name)) == Outside(fold, records)
  {
    var p, q := (r: Record) => !Same(fold, r.name, name), (r: Record) => !Under(fold, r.name);
    forall r <- records
      ensures q(r) <==> p(r) && q(r)
    {
      if Same(fold, r.name, name) {
        SameUnder(fold, r.name, name);
      }
    }
    KeepTwice(records, p, q, q);
  }

  ghost predicate RemovesOnlyUnder(fold: bool, events: seq<Event>) {
    forall e <- events | e.Removed? :: Under(fold, e.name)
  }

  /** However far removal got, nothing outside the namespace has changed. */
  lemma {:induction false} OutsideStays(fold: bool, from: Origin, records: seq<Record>, events: seq<Event>)
    requires RemovesOnlyUnder(fold, events)
    ensures Outside(fold, Apply(fold, from, records, events)) == Outside(fold, records)
  {
    if events != [] {
      var front, last := events[..|events| - 1], events[|events| - 1];
      OutsideStays(fold, from, records, front);
      if last.Removed? && last.from == from {
        OutsideWithout(fold, Apply(fold, from, records, front), last.name);
      }
    }
  }

  ghost predicate AllUnder(fold: bool, names: set<string>) {
    forall n <- names :: Under(fold, n)
  }

  function Lacking(records: seq<Record>, gone: set<string>): seq<Record> {
    Keep(records, (r: Record) => r.name !in gone)
  }

  /** Some names of the namespace are gone; every other record is there with its value, in its order. */
  ghost predicate OnlyRemoved(fold: bool, before: seq<Record>, after: seq<Record>) {
    exists gone: set<string> :: AllUnder(fold, gone) && after == Lacking(before, gone)
  }

  lemma OnlyRemovedNext(fold: bool, before: seq<Record>, after: seq<Record>, name: string)
    requires OnlyRemoved(fold, before, after) && Under(fold, name)
    ensures OnlyRemoved(fold, before, Without(fold, after, name))
  {
    hide Keep, Under;
    var gone: set<string> :| AllUnder(fold, gone) && after == Lacking(before, gone);
    var more := gone + set r | r in before && Same(fold, r.name, name) :: r.name;
    forall n <- more
      ensures Under(fold, n)
    {
      if n !in gone {
        SameUnder(fold, n, name);
      }
    }
    KeepTwice(before, (r: Record) => r.name !in gone, (r: Record) => !Same(fold, r.name, name),
      (r: Record) => r.name !in more);
    assert AllUnder(fold, more) && Without(fold, after, name) == Lacking(before, more);
  }

  /** However far removal got, it only took names of the namespace out. */
  lemma {:induction false} OnlyRemoves(fold: bool, from: Origin, records: seq<Record>, events: seq<Event>)
    requires RemovesOnlyUnder(fold, events)
    ensures OnlyRemoved(fold, records, Apply(fold, from, records, events))
  {
    hide Without, OnlyRemoved, Under;
    if events == [] {
      NothingRemoved(fold, records);
    } else {
      var front, last := events[..|events| - 1], events[|events| - 1];
      OnlyRemoves(fold, from, records, front);
      if last.Removed? && last.from == from {
        OnlyRemovedNext(fold, records, Apply(fold, from, records, front), last.name);
      }
    }
  }

  lemma NothingRemoved(fold: bool, records: seq<Record>)
    ensures OnlyRemoved(fold, records, records)
  {
    var none: set<string> := {};
    KeepAll(records, (r: Record) => r.name !in none);
    assert AllUnder(fold, none) && records == Lacking(records, none);
  }

  ghost predicate Erased(fold: bool, from: Origin, events: seq<Event>, name: string) {
    exists e <- events :: e.Removed? && e.from == from && Same(fold, name, e.name)
  }

  lemma {:induction false} Survivors(fold: bool, from: Origin, records: seq<Record>, events: seq<Event>)
    ensures forall r :: r in Apply(fold, from, records, events) <==> r in records && !Erased(fold, from, events, r.name)
  {
    if events != [] {
      var front, last := events[..|events| - 1], events[|events| - 1];
      Survivors(fold, from, records, front);
      assert events == front + [last];
      if last.Removed? && last.from == from {
        KeepMembers(Apply(fold, from, records, front), (r: Record) => !Same(fold, r.name, last.name));
      }
    }
  }

  lemma {:induction false} ApplyAppend(fold: bool, from: Origin, records: seq<Record>, a: seq<Event>, b: seq<Event>)
    ensures Apply(fold, from, records, a + b) == Apply(fold, from, Apply(fold, from, records, a), b)
  {
    if b == [] {
      assert a + b == a;
    } else {
      assert (a + b)[..|a + b| - 1] == a + b[..|b| - 1];
      ApplyAppend(fold, from, records, a, b[..|b| - 1]);
    }
  }

  lemma {:induction false} MatchingMembers(fold: bool, names: seq<string>)
    ensures forall n :: n in Matching(fold, names) <==> n in names && Under(fold, n)
  {
    if names != [] {
      MatchingMembers(fold, names[..|names| - 1]);
      assert names == names[..|names| - 1] + [names[|names| - 1]];
    }
  }

  lemma CanonicalUnder(fold: bool)
    ensures forall n <- Canonical() :: Under(fold, n)
  {
    forall i | 0 <= i < |SLOTS|
      ensures Under(fold, PREFIX + SLOTS[i])
    {
      assert forall k | 0 <= k < |PREFIX| :: LowerChar(PREFIX[k]) == PREFIX[k];
      assert Lower(PREFIX + SLOTS[i])[..|PREFIX|] == PREFIX;
    }
  }

  lemma ScriptUnder(fold: bool, from: Origin, hook: bool, records: seq<Record>)
    ensures RemovesOnlyUnder(fold, Script(fold, from, hook, records))
  {
    CanonicalUnder(fold);
    MatchingMembers(fold, Names(Apply(fold, from, records, SlotScript(from, hook))));
  }

  lemma EachRemoved(from: Origin, names: seq<string>)
    ensures forall n <- names :: Removed(from, n) in Removals(from, names)
  {
    assert forall i | 0 <= i < |names| :: Removals(from, names)[i] == Removed(from, names[i]);
  }

  /** The whole script removes the namespace, and nothing else: names, values and order stay. */
  lemma ScriptClears(fold: bool, from: Origin, hook: bool, records: seq<Record>)
    ensures Apply(fold, from, records, Script(fold, from, hook, records)) == Outside(fold, records)
  {
    var front := SlotScript(from, hook);
    var left := Apply(fold, from, records, front);
    var back := Removals(from, Matching(fold, Names(left)));
    var after := Apply(fold, from, left, back);
    ApplyAppend(fold, from, records, front, back);
    Survivors(fold, from, left, back);
    MatchingMembers(fold, Names(left));
    forall r <- after
      ensures !Under(fold, r.name)
    {
      var i :| 0 <= i < |left| && left[i] == r;
      assert Names(left)[i] == r.name;
      EachRemoved(from, Matching(fold, Names(left)));
    }
    KeepAll(after, (r: Record) => !Under(fold, r.name));
    ScriptUnder(fold, from, hook, records);
    OutsideStays(fold, from, records, front + back);
  }

  lemma NamesCover(records: seq<Record>)
    ensures forall r <- records :: r.name in Names(records)
  {
    assert forall i | 0 <= i < |records| :: Names(records)[i] == records[i].name;
  }

  /** The attributes of a held file, or the snapshot an explicit carrier decoded to. */
  class Store {
    const origin: Origin
    const fold: bool
    const writable: bool
    var filtered: bool
    var known: seq<string>
    var records: seq<Record>

    constructor (origin: Origin, fold: bool, writable: bool, records: seq<Record>)
      requires origin.Carrier? ==> !fold
      ensures this.origin == origin && this.fold == fold && this.records == records && Valid()
        && (origin.Native? ==> !filtered)
    {
      this.origin, this.fold, this.writable := origin, fold, writable;
      this.records, filtered, known := records, origin.Carrier?, Names(records);
      NamesCover(records);
    }

    /** Names outside the known inventory are taken to be absent, and are. */
    ghost predicate Valid()
      reads this
    {
      && (origin.Carrier? ==> filtered && !fold && known == Names(records))
      && (filtered ==> !fold && forall r <- records :: r.name in known)
    }

    /** An absent name is removed already; an immutable carrier refuses to lose a present one. */
    method Remove(session: Session, name: string) returns (ok: bool)
      requires Valid()
      modifies this, session
      ensures Valid() && filtered == old(filtered)
      ensures records == if ok then Without(fold, old(records), name) else old(records)
      ensures session.log == old(session.log) + if ok then [Removed(origin, name)] else []
      ensures session.Onwards() && (ok <==> session.Smooth() && (writable || (filtered && name !in old(known))))
      ensures !writable ==> records == old(records) && known == old(known)
    {
      KeepMembers(records, (r: Record) => !Same(fold, r.name, name));
      if filtered && name !in known {
        KeepAll(records, (r: Record) => !Same(fold, r.name, name));
        session.log := session.log + [Removed(origin, name)];
        return true;
      }
      ok := writable;
      if ok {
        ok := session.Attempt();
      }
      if ok {
        records := Without(fold, records, name);
        if origin.Carrier? {
          known := Names(records);
          NamesCover(records);
        }
        session.log := session.log + [Removed(origin, name)];
      }
    }

    /** A snapshot lists without asking anyone. */
    method List(session: Session) returns (ok: bool, names: seq<string>)
      requires Valid()
      modifies session
      ensures names == Names(records)
      ensures session.log == old(session.log) + if ok then [Listed(origin)] else []
      ensures session.Onwards() && (ok <==> session.Smooth())
    {
      ok, names := true, Names(records);
      if origin.Native? {
        ok := session.Attempt();
      }
      if ok {
        session.log := session.log + [Listed(origin)];
      }
    }
  }

  /** The first `done` steps of the script happened, and no more. */
  twostate predicate Stopped(session: Session, store: Store, script: seq<Event>, done: nat)
    reads session, store
  {
    && done <= |script|
    && session.log == old(session.log) + script[..done]
    && store.records == Apply(store.fold, store.origin, old(store.records), script[..done])
    && store.Valid()
  }

  lemma SlotAt(from: Origin, hook: bool, i: nat)
    requires i < |SLOTS|
    ensures SlotScript(from, hook)[..i + 1] == SlotScript(from, hook)[..i] + [Removed(from, PREFIX + SLOTS[i])]
  {
    assert SlotScript(from, hook)[i] == Removed(from, PREFIX + SLOTS[i]);
  }

  lemma ApplyNext(fold: bool, from: Origin, records: seq<Record>, events: seq<Event>, event: Event)
    ensures Apply(fold, from, records, events + [event])
         == var before := Apply(fold, from, records, events);
            if event.Removed? && event.from == from then Without(fold, before, event.name) else before
  {
    assert (events + [event])[..|events|] == events;
  }

  /** Nothing stands in the way of removing the namespace: the store can be written, or knows it has none of it. */
  predicate Losable(store: Store)
    reads store
  {
    store.writable || (store.filtered && forall n <- store.known :: !Under(store.fold, n))
  }

  /** What the store knows is what it holds. */
  predicate Informed(store: Store)
    reads store
  {
    store.filtered ==> store.known == Names(store.records)
  }

  /** The canonical slots, then the caller's own removal, then the listing. */
  method RemoveSlots(session: Session, store: Store, hook: bool) returns (ok: bool, names: seq<string>, ghost done: nat)
    requires store.Valid()
    modifies session, store
    ensures store.filtered == old(store.filtered)
    ensures Stopped(session, store, SlotScript(store.origin, hook), done)
    ensures ok ==> done == |SlotScript(store.origin, hook)| && names == Names(store.records)
    ensures session.Onwards()
      && (ok <==> session.Smooth() && SlotsLosable(store.writable, store.filtered, old(store.known), |SLOTS|))
    ensures !store.writable ==> store.known == old(store.known) && store.records == old(store.records)
  {
    hide Without, SlotScript, Apply, Names, Store.Valid, SlotsLosable;
    ghost var script, before := SlotScript(store.origin, hook), old(store.records);
    SlotLosable(store.writable, store.filtered, store.known, 0);
    SlotScriptShape(store.origin, hook);
    NothingApplied(store.fold, store.origin, before);
    done, names := 0, [];
    for i := 0 to |SLOTS|
      invariant done == i && store.filtered == old(store.filtered)
      invariant Stopped(session, store, script, done)
      invariant session.Smooth()
        && (!store.writable ==> store.known == old(store.known) && store.records == old(store.records))
      invariant SlotsLosable(store.writable, store.filtered, old(store.known), i)
    {
      var live := session.Live();
      if !live {
        return false, names, done;
      }
      SlotAt(store.origin, hook, i);
      ApplyNext(store.fold, store.origin, before, script[..i], Removed(store.origin, PREFIX + SLOTS[i]));
      SlotLosable(store.writable, store.filtered, old(store.known), i);
      ok := store.Remove(session, PREFIX + SLOTS[i]);
      if !ok {
        return;
      }
      done := i + 1;
    }
    ghost var more;
    ok, names, more := FlushAndList(session, store, hook);
    AfterSlots(store.fold, store.origin, hook, before, more);
    done := done + more;
  }

  function Ending(from: Origin, hook: bool): seq<Event> {
    (if hook then [Flushed] else []) + [Listed(from)]
  }

  /** The caller's own removal, and the listing of what is left. */
  method FlushAndList(session: Session, store: Store, hook: bool)
    returns (ok: bool, names: seq<string>, ghost done: nat)
    requires store.Valid()
    modifies session
    ensures done <= |Ending(store.origin, hook)|
    ensures session.log == old(session.log) + Ending(store.origin, hook)[..done]
    ensures ok ==> done == |Ending(store.origin, hook)| && names == Names(store.records)
    ensures session.Onwards() && (ok <==> session.Smooth())
  {
    names, done := [], 0;
    ok := session.Live();
    if ok && hook {
      ok := session.Attempt();
      if ok {
        session.log, done := session.log + [Flushed], 1;
        ok := session.Live();
      }
    }
    if !ok {
      return;
    }
    ok, names := store.List(session);
    done := done + if ok then 1 else 0;
  }

  /** Neither the hook nor the listing changes the records. */
  lemma AfterSlots(fold: bool, from: Origin, hook: bool, records: seq<Record>, more: nat)
    requires more <= |Ending(from, hook)|
    ensures var script, n := SlotScript(from, hook), |SLOTS|;
      && |script| == n + |Ending(from, hook)|
      && script[..n + more] == script[..n] + Ending(from, hook)[..more]
      && Apply(fold, from, records, script[..n + more]) == Apply(fold, from, records, script[..n])
  {
    var script, n, rest := SlotScript(from, hook), |SLOTS|, Ending(from, hook)[..more];
    SlotsThenEnding(from, hook);
    hide *;
    assert script[..n + more] == script[..n] + script[n..][..more];
    ApplyAppend(fold, from, records, script[..n], rest);
    EndingRemovesNothing(from, hook);
    NothingRemovedBy(fold, from, Apply(fold, from, records, script[..n]), rest);
  }

  lemma SlotsThenEnding(from: Origin, hook: bool)
    ensures |SlotScript(from, hook)| == |SLOTS| + |Ending(from, hook)|
    ensures SlotScript(from, hook)[|SLOTS|..] == Ending(from, hook)
  {
    hide Canonical;
    CanonicalCount();
    assert |Removals(from, Canonical())| == |SLOTS|;
    assert SlotScript(from, hook) == Removals(from, Canonical()) + Ending(from, hook);
  }

  lemma EndingRemovesNothing(from: Origin, hook: bool)
    ensures forall e <- Ending(from, hook) :: !e.Removed?
  {
  }

  lemma {:induction false} NothingRemovedBy(fold: bool, from: Origin, records: seq<Record>, events: seq<Event>)
    requires forall e <- events :: !e.Removed?
    ensures Apply(fold, from, records, events) == records
  {
    if events != [] {
      NothingRemovedBy(fold, from, records, events[..|events| - 1]);
    }
  }

  /** The first `n` slots can go: the store can be written, or knows that it has none of them. */
  predicate SlotsLosable(writable: bool, filtered: bool, known: seq<string>, n: nat)
    requires n <= |SLOTS|
  {
    writable || forall i | 0 <= i < n :: SlotAbsent(filtered, known, i)
  }

  predicate SlotAbsent(filtered: bool, known: seq<string>, i: nat)
    requires i < |SLOTS|
  {
    filtered && PREFIX + SLOTS[i] !in known
  }

  lemma SlotLosable(writable: bool, filtered: bool, known: seq<string>, i: nat)
    requires i < |SLOTS|
    ensures SlotsLosable(writable, filtered, known, 0)
    ensures SlotsLosable(writable, filtered, known, i + 1) <==>
      SlotsLosable(writable, filtered, known, i) && (writable || SlotAbsent(filtered, known, i))
    ensures SlotsLosable(writable, filtered, known, |SLOTS|) ==> SlotsLosable(writable, filtered, known, i + 1)
  {
  }

  lemma NothingApplied(fold: bool, from: Origin, records: seq<Record>)
    ensures Apply(fold, from, records, []) == records
  {
  }

  lemma SlotScriptShape(from: Origin, hook: bool)
    ensures |SlotScript(from, hook)| == |SLOTS| + (if hook then 2 else 1)
    ensures SlotScript(from, hook)[..0] == []
    ensures hook ==> SlotScript(from, hook)[..|SLOTS| + 1] == SlotScript(from, hook)[..|SLOTS|] + [Flushed]
    ensures var n := |SlotScript(from, hook)|;
      SlotScript(from, hook)[..n] == SlotScript(from, hook)[..n - 1] + [Listed(from)]
  {
  }

  lemma {:induction false} MatchingGrows(fold: bool, names: seq<string>, i: nat)
    requires i <= |names|
    ensures Matching(fold, names[..i]) <= Matching(fold, names)
    decreases |names|
  {
    if i == |names| {
      assert names[..i] == names;
    } else {
      assert names[..|names| - 1][..i] == names[..i];
      MatchingGrows(fold, names[..|names| - 1], i);
    }
  }

  /** Position in the script once the first `i` listed names have been dealt with. */
  function Reached(fold: bool, front: seq<Event>, names: seq<string>, i: nat): nat
    requires i <= |names|
  {
    |front| + |Matching(fold, names[..i])|
  }

  lemma ListedNext(fold: bool, from: Origin, front: seq<Event>, names: seq<string>, i: nat)
    requires i < |names|
    ensures var script := front + Removals(from, Matching(fold, names));
      && Reached(fold, front, names, i) <= Reached(fold, front, names, i + 1) <= |script|
      && script[..Reached(fold, front, names, i + 1)]
        == script[..Reached(fold, front, names, i)] + Removals(from, Found(fold, names[i]))
    ensures Reached(fold, front, names, i + 1) == Reached(fold, front, names, i) + |Found(fold, names[i])|
  {
    hide Matching, Found, Removals;
    MatchingNext(fold, names, i);
    ScriptNext(from, front, Matching(fold, names[..i]), Found(fold, names[i]), Matching(fold, names));
  }

  /** What one more listed name means for the script and the records. */
  lemma ListedStep(fold: bool, from: Origin, front: seq<Event>, names: seq<string>, records: seq<Record>, i: nat)
    requires i < |names|
    ensures var script := front + Removals(from, Matching(fold, names));
      var p, q := Reached(fold, front, names, i), Reached(fold, front, names, i + 1);
      && p <= q <= |script|
      && if Under(fold, names[i]) then
           && q == p + 1 && script[..q] == script[..p] + [Removed(from, names[i])]
           && Apply(fold, from, records, script[..q])
             == Without(fold, Apply(fold, from, records, script[..p]), names[i])
         else
           q == p
  {
    hide Matching, Removals, Apply, Without, Under, Reached;
    ListedNext(fold, from, front, names, i);
    OneRemoval(from, names[i]);
    var script := front + Removals(from, Matching(fold, names));
    ApplyNext(fold, from, records, script[..Reached(fold, front, names, i)], Removed(from, names[i]));
  }

  lemma MatchingNext(fold: bool, names: seq<string>, i: nat)
    requires i < |names|
    ensures Matching(fold, names[..i + 1])
      == Matching(fold, names[..i]) + Found(fold, names[i]) <= Matching(fold, names)
  {
    assert names[..i + 1][..i] == names[..i];
    MatchingGrows(fold, names, i + 1);
  }

  lemma ScriptNext(from: Origin, front: seq<Event>, part: seq<string>, added: seq<string>, all: seq<string>)
    requires part + added <= all
    ensures var script := front + Removals(from, all);
      && |front| + |part + added| <= |script|
      && script[..|front| + |part + added|] == script[..|front| + |part|] + Removals(from, added)
  {
    assert all == part + added + all[|part + added|..];
    assert Removals(from, all)[..|part + added|] == Removals(from, part + added)
      == Removals(from, part) + Removals(from, added);
    assert Removals(from, all)[..|part|] == Removals(from, part);
  }

  /** Slots first; then every listed name of the namespace, in listing order. */
  method RemoveSteps(session: Session, store: Store, hook: bool) returns (ok: bool, ghost done: nat)
    requires store.Valid() && Informed(store)
    modifies session, store
    ensures Stopped(session, store, Script(store.fold, store.origin, hook, old(store.records)), done)
    ensures ok ==> done == |Script(store.fold, store.origin, hook, old(store.records))|
    ensures session.Onwards() && (ok <==> session.Smooth() && old(Losable(store)))
  {
    hide Without, SlotScript, Script, Matching, Removals, Names, Apply, Under, Store.Valid, Found, Reached;
    assert SlotsLosable(true, store.filtered, store.known, |SLOTS|);
    hide SlotsLosable;
    ghost var before, front := store.records, SlotScript(store.origin, hook);
    ghost var script := Script(store.fold, store.origin, hook, before);
    ScriptShape(store.fold, store.origin, hook, before);
    NoSlots(store.fold, store.filtered, store.known);
    var names;
    ok, names, done := RemoveSlots(session, store, hook);
    assert script[..done] == front[..done];
    if !ok {
      return;
    }
    assert front[..done] == front;
    NoneMatching(store.fold, front, names);
    for i := 0 to |names|
      invariant done == Reached(store.fold, front, names, i)
      invariant Stopped(session, store, script, done) && session.Smooth() && store.filtered == old(store.filtered)
      invariant !store.writable ==> store.filtered && store.known == old(store.known)
      invariant !store.writable ==> forall j | 0 <= j < i :: !Under(store.fold, names[j])
    {
      ok := session.Live();
      if !ok {
        return;
      }
      ListedStep(store.fold, store.origin, front, names, before, i);
      if Under(store.fold, names[i]) {
        ok := store.Remove(session, names[i]);
        if !ok {
          return;
        }
        done := done + 1;
      }
    }
    ok := session.Live();
  }

  lemma NoSlots(fold: bool, filtered: bool, known: seq<string>)
    ensures filtered && (forall n <- known :: !Under(fold, n)) ==> SlotsLosable(false, filtered, known, |SLOTS|)
    ensures SlotsLosable(false, filtered, known, |SLOTS|) ==> filtered
  {
    CanonicalUnder(fold);
    assert SlotsLosable(false, filtered, known, |SLOTS|) ==> SlotAbsent(filtered, known, 0);
    assert forall i | 0 <= i < |SLOTS| :: Canonical()[i] == PREFIX + SLOTS[i];
  }

  lemma ScriptShape(fold: bool, from: Origin, hook: bool, records: seq<Record>)
    ensures var front := SlotScript(from, hook);
      Script(fold, from, hook, records)
        == front + Removals(from, Matching(fold, Names(Apply(fold, from, records, front))))
    ensures forall names :: |Removals(from, names)| == |names|
  {
  }

  lemma NoneMatching(fold: bool, front: seq<Event>, names: seq<string>)
    ensures Reached(fold, front, names, 0) == |front|
    ensures Reached(fold, front, names, |names|) == |front| + |Matching(fold, names)|
  {
    assert names[..|names|] == names;
  }

  lemma OneRemoval(from: Origin, name: string)
    ensures Removals(from, [name]) == [Removed(from, name)] && Removals(from, []) == []
  {
  }

  /** What cannot be written loses the namespace only where an inventory tells that it has none of it. */
  predicate Removable(writable: bool, inventory: bool, records: seq<Record>) {
    writable || (inventory && forall r <- records :: !Under(false, r.name))
  }

  lemma NamesUnder(records: seq<Record>)
    ensures (forall n <- Names(records) :: !Under(false, n)) <==> forall r <- records :: !Under(false, r.name)
  {
    assert forall i | 0 <= i < |records| :: Names(records)[i] == records[i].name;
  }

  /** Removal from the held file: Linux cannot be asked for names its inventory lacks. */
  method RemoveNative(session: Session, store: Store, linux: bool, hook: bool)
    returns (ok: bool, ghost script: seq<Event>, ghost done: nat)
    requires store.Valid() && !store.filtered && store.origin.Native? && (linux ==> !store.fold)
    modifies session, store
    ensures script == NativeScript(store.fold, linux, hook, old(store.records))
    ensures Stopped(session, store, script, done)
    ensures ok ==> done == |script|
    ensures session.Onwards() && (ok <==> session.Smooth() && Removable(store.writable, linux, old(store.records)))
  {
    hide Script, NativeScript, Apply, Under, Names;
    ghost var before := store.records;
    script := NativeScript(store.fold, linux, hook, before);
    NothingApplied(store.fold, Native, before);
    assert script[..0] == [];
    done := 0;
    ok := session.Live();
    if !ok {
      return;
    }
    if linux {
      var names;
      ok, names := store.List(session);
      if !ok {
        return;
      }
      store.known, store.filtered := names, true;
      NamesCover(before);
      NamesUnder(before);
    }
    ghost var inner;
    ok, inner := RemoveSteps(session, store, hook);
    done := inner + if linux then 1 else 0;
    InventoryAndScript(store.fold, linux, hook, before, inner);
  }

  lemma InventoryAndScript(fold: bool, linux: bool, hook: bool, records: seq<Record>, inner: nat)
    requires inner <= |Script(fold, Native, hook, records)|
    ensures var script, done := NativeScript(fold, linux, hook, records), inner + if linux then 1 else 0;
      && done <= |script| && (done == |script| <==> inner == |Script(fold, Native, hook, records)|)
      && script[..done] == (if linux then [Listed(Native)] else []) + Script(fold, Native, hook, records)[..inner]
      && Apply(fold, Native, records, script[..done])
        == Apply(fold, Native, records, Script(fold, Native, hook, records)[..inner])
  {
    hide Script, Apply;
    var whole := Script(fold, Native, hook, records);
    InventoryFirst(fold, records, whole[..inner]);
    assert [] + whole == whole && [] + whole[..inner] == whole[..inner];
    assert NativeScript(fold, linux, hook, records)[..inner + if linux then 1 else 0]
        == (if linux then [Listed(Native)] else []) + Script(fold, Native, hook, records)[..inner];
  }

  lemma InventoryFirst(fold: bool, records: seq<Record>, events: seq<Event>)
    ensures Apply(fold, Native, records, [Listed(Native)] + events) == Apply(fold, Native, records, events)
  {
    ApplyAppend(fold, Native, records, [Listed(Native)], events);
    ApplyNext(fold, Native, records, [], Listed(Native));
    assert [] + [Listed(Native)] == [Listed(Native)];
  }

  function NativeScript(fold: bool, linux: bool, hook: bool, records: seq<Record>): seq<Event> {
    (if linux then [Listed(Native)] else []) + Script(fold, Native, hook, records)
  }

  /** All that a successful removal does, to the file and to an explicit carrier. */
  function WholeScript(fold: bool, linux: bool, hook: bool, file: seq<Record>,
                       snapshot: Option<seq<Record>>): seq<Event> {
    match snapshot
    case None => NativeScript(fold, linux, hook, file)
    case Some(records) => NativeScript(fold, linux, false, file) + Script(false, Carrier, hook, records)
  }

  /**
   * The enclosing representation removes its components at `p` and nowhere else: after every
   * canonical slot of every store, before the last store is listed for what remains.
   */
  ghost predicate FlushedAt(events: seq<Event>, carrier: bool, p: nat) {
    && p < |events| && events[p] == Flushed
    && (forall i | 0 <= i < |events| && i != p :: events[i] != Flushed)
    && (forall slot <- Canonical() :: Removed(Native, slot) in events[..p])
    && (carrier ==> forall slot <- Canonical() :: Removed(Carrier, slot) in events[..p])
    && Listed(if carrier then Carrier else Native) in events[p + 1..]
    && (forall e <- events[..p] | e.Removed? && e.from == (if carrier then Carrier else Native) ::
      e.name in Canonical())
  }

  ghost predicate FlushedOnce(events: seq<Event>, carrier: bool) {
    exists p :: FlushedAt(events, carrier, p)
  }

  predicate FlushFollowsSlots(from: Origin, script: seq<Event>) {
    && |SLOTS| < |script| && script[..|SLOTS|] == Removals(from, Canonical()) && script[|SLOTS|] == Flushed
    && Flushed !in script[|SLOTS| + 1..] && Listed(from) in script[|SLOTS| + 1..]
  }

  /** Where the flush falls in the script of one store. */
  lemma ScriptFlush(fold: bool, from: Origin, hook: bool, records: seq<Record>)
    ensures var script := Script(fold, from, hook, records);
      && (forall slot <- Canonical() :: Removed(from, slot) in script)
      && (!hook ==> Flushed !in script)
      && (forall e <- script | e.Removed? :: e.from == from)
      && (hook ==> FlushFollowsSlots(from, script))
  {
    hide Matching, Apply, Canonical;
    var slots, names := Removals(from, Canonical()),
      Matching(fold, Names(Apply(fold, from, records, SlotScript(from, hook))));
    EachRemoved(from, Canonical());
    var script := Script(fold, from, hook, records);
    var flush := if hook then [Flushed] else [];
    assert script == slots + flush + [Listed(from)] + Removals(from, names);
    CanonicalCount();
    if hook {
      assert script[|SLOTS| + 1..] == [Listed(from)] + Removals(from, names);
    }
  }

  lemma CanonicalCount()
    ensures |Canonical()| == |SLOTS|
  {
  }

  lemma FlushPlaced(fold: bool, linux: bool, file: seq<Record>, snapshot: Option<seq<Record>>)
    ensures FlushedOnce(WholeScript(fold, linux, true, file, snapshot), snapshot.Some?)
  {
    hide Script, Canonical;
    CanonicalCount();
    EachRemoved(Native, Canonical());
    EachRemoved(Carrier, Canonical());
    var from := if snapshot.Some? then Carrier else Native;
    var inventory := if linux then [Listed(Native)] else [];
    ScriptFlush(fold, Native, snapshot.None?, file);
    var front := if snapshot.Some? then inventory + Script(fold, Native, false, file) else inventory;
    var last := if snapshot.Some? then Script(false, Carrier, true, snapshot.value)
      else Script(fold, Native, true, file);
    if snapshot.Some? {
      ScriptFlush(false, Carrier, true, snapshot.value);
    }
    FlushBehind(front, last, from, snapshot.Some?);
    assert WholeScript(fold, linux, true, file, snapshot) == front + last;
  }

  lemma FlushBehind(front: seq<Event>, last: seq<Event>, from: Origin, carrier: bool)
    requires from == if carrier then Carrier else Native
    requires Flushed !in front && forall e <- front :: !(e.Removed? && e.from == from)
    requires carrier ==> forall slot <- Canonical() :: Removed(Native, slot) in front
    requires FlushFollowsSlots(from, last)
    ensures FlushedAt(front + last, carrier, |front| + |SLOTS|)
  {
    hide Canonical;
    CanonicalCount();
    var all, p := front + last, |front| + |SLOTS|;
    assert all[..p] == front + Removals(from, Canonical()) && all[p + 1..] == last[|SLOTS| + 1..];
    EachRemoved(from, Canonical());
    forall i | 0 <= i < |all| && i != p
      ensures all[i] != Flushed
    {
      if i < p {
        assert all[i] == all[..p][i];
      } else {
        assert all[i] == all[p + 1..][i - p - 1];
      }
    }
  }

  ghost function SnapshotOf(carrier: Store?): Option<seq<Record>>
    reads carrier
  {
    if carrier == null then None else Some(carrier.records)
  }

  /** The file first, then the carrier; the flush goes with whichever comes last. */
  method RemoveFromBoth(session: Session, native: Store, carrier: Store?, linux: bool, hook: bool) returns (ok: bool)
    requires native.Valid() && native.origin.Native? && !native.filtered && (linux ==> !native.fold)
    requires carrier != null ==> carrier.Valid() && carrier.origin.Carrier?
    modifies session, native, carrier
    // It succeeds exactly when nothing goes wrong and what is there may be removed.
    ensures session.Onwards()
    ensures ok <==>
      && session.Smooth() && Removable(native.writable, linux, old(native.records))
      && (carrier != null ==> Removable(carrier.writable, true, old(carrier.records)))
    ensures OnlyRemoved(native.fold, old(native.records), native.records)
    ensures carrier != null ==> OnlyRemoved(false, old(carrier.records), carrier.records)
    ensures Outside(native.fold, native.records) == Outside(native.fold, old(native.records))
    ensures carrier != null ==> Outside(false, carrier.records) == Outside(false, old(carrier.records))
    ensures ok ==> native.records == Outside(native.fold, old(native.records))
    ensures ok && carrier != null ==> carrier.records == Outside(false, old(carrier.records))
    ensures ok ==>
      session.log == old(session.log)
        + WholeScript(native.fold, linux, hook, old(native.records), old(SnapshotOf(carrier)))
  {
    hide Outside, OnlyRemoved, Script, NativeScript, Apply, Removable, Losable, Informed, Store.Valid, Names;
    ghost var file, script, done := native.records, [], 0;
    ok, script, done := RemoveNative(session, native, linux, hook && carrier == null);
    StoppedNative(native.fold, linux, hook && carrier == null, file, done);
    if carrier != null {
      NothingRemoved(false, carrier.records);
    }
    assert script[..|script|] == script;
    if !ok || carrier == null {
      return;
    }
    ok := session.Attempt();
    if !ok {
      return;
    }
    ghost var snapshot := carrier.records;
    CarrierReady(carrier);
    ok, done := RemoveSteps(session, carrier, hook);
    StoppedAnywhere(false, Carrier, hook, snapshot, done);
    assert Script(false, Carrier, hook, snapshot)[..|Script(false, Carrier, hook, snapshot)|]
      == Script(false, Carrier, hook, snapshot);
  }

  lemma CarrierReady(carrier: Store)
    requires carrier.Valid() && carrier.origin.Carrier?
    ensures Informed(carrier) && !carrier.fold
    ensures Losable(carrier) <==> Removable(carrier.writable, true, carrier.records)
  {
    NamesUnder(carrier.records);
  }

  /** Wherever removal from one store stops. */
  lemma StoppedAnywhere(fold: bool, from: Origin, hook: bool, records: seq<Record>, done: nat)
    requires done <= |Script(fold, from, hook, records)|
    ensures var script := Script(fold, from, hook, records);
      && OnlyRemoved(fold, records, Apply(fold, from, records, script[..done]))
      && Outside(fold, Apply(fold, from, records, script[..done])) == Outside(fold, records)
      && (done == |script| ==> Apply(fold, from, records, script[..done]) == Outside(fold, records))
  {
    hide Outside, OnlyRemoved, Apply;
    var script := Script(fold, from, hook, records);
    ScriptUnder(fold, from, hook, records);
    ScriptClears(fold, from, hook, records);
    hide Script;
    OutsideStays(fold, from, records, script[..done]);
    OnlyRemoves(fold, from, records, script[..done]);
    assert script[..|script|] == script;
  }

  lemma StoppedNative(fold: bool, linux: bool, hook: bool, records: seq<Record>, done: nat)
    requires done <= |NativeScript(fold, linux, hook, records)|
    ensures var script := NativeScript(fold, linux, hook, records);
      && OnlyRemoved(fold, records, Apply(fold, Native, records, script[..done]))
      && Outside(fold, Apply(fold, Native, records, script[..done])) == Outside(fold, records)
      && (done == |script| ==> Apply(fold, Native, records, script[..done]) == Outside(fold, records))
  {
    hide Outside, OnlyRemoved, Script, Apply;
    var inner := Script(fold, Native, hook, records);
    if !linux || done == 0 {
      StoppedAnywhere(fold, Native, hook, records, if linux then 0 else done);
      assert inner[..0] == [] == NativeScript(fold, linux, hook, records)[..0];
      assert [] + inner == inner;
    } else {
      StoppedAnywhere(fold, Native, hook, records, done - 1);
      InventoryFirst(fold, records, inner[..done - 1]);
      assert NativeScript(fold, linux, hook, records)[..done] == [Listed(Native)] + inner[..done - 1];
    }
  }

  /**
   * Removes an attached signature from a held file and from an explicit carrier. On success no name
   * of the namespace is left and nothing else has changed; wherever it stops, the stores differ only
   * by removed names of the namespace.
   */
  method RemoveBeforeFlush(session: Session, native: Store, carrier: Store?, linux: bool, hook: bool) returns (ok: bool)
    requires native.Valid() && native.origin.Native? && !native.filtered && (linux ==> !native.fold)
    requires carrier != null ==> carrier.Valid() && carrier.origin.Carrier?
    modifies session, native, carrier
    // It succeeds exactly when nothing goes wrong and what is there may be removed.
    ensures session.Onwards()
    ensures ok <==>
      && session.Smooth() && Removable(native.writable, linux, old(native.records))
      && (carrier != null ==> Removable(carrier.writable, true, old(carrier.records)))
    ensures OnlyRemoved(native.fold, old(native.records), native.records)
    ensures carrier != null ==> OnlyRemoved(false, old(carrier.records), carrier.records)
    ensures Outside(native.fold, native.records) == Outside(native.fold, old(native.records))
    ensures carrier != null ==> Outside(false, carrier.records) == Outside(false, old(carrier.records))
    ensures ok ==> native.records == Outside(native.fold, old(native.records))
    ensures ok && carrier != null ==> carrier.records == Outside(false, old(carrier.records))
    ensures ok ==>
      session.log == old(session.log)
        + WholeScript(native.fold, linux, hook, old(native.records), old(SnapshotOf(carrier)))
    ensures ok && hook ==> FlushedOnce(session.log[|old(session.log)|..], carrier != null)
  {
    hide Outside, OnlyRemoved, Script, FlushedOnce;
    FlushPlaced(native.fold, linux, native.records, SnapshotOf(carrier));
    NothingRemoved(native.fold, native.records);
    if carrier != null {
      NothingRemoved(false, carrier.records);
    }
    ok := session.Attempt();
    if !ok {
      return;
    }
    ok := RemoveFromBoth(session, native, carrier, linux, hook);
    var closed := session.Attempt();
    ok := ok && closed;
  }
}
