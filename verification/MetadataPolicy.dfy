/** Which prohibited attributes an object carries: asked directly, or replayed from an observation. */
module MetadataPolicy {
  import opened Wrappers

  const RESOURCE_FORK := "com.apple.ResourceFork"
  const FINDER_INFO := "com.apple.FinderInfo"
  const PROHIBITED := [RESOURCE_FORK, FINDER_INFO]

  datatype Platform = Darwin | Linux | Windows | AppleDouble | Filesystem

  datatype Cause = Eperm | Other(code: int)

  /** An error is known by the causes it joins. */
  type Error = set<Cause>

  datatype Stage = Opening | Closing | Inventory | Query(name: string) | Snapshotting

  datatype Failure = Failure(stage: Stage, causes: Error)

  datatype Answer = Answer(size: int, present: bool, error: Option<Error>)

  /** What the host answers about one held object. */
  datatype Queries = Queries(platform: Platform, inventory: Result<set<string>, Error>, size: string -> Answer)

  /** Record values may be absent. */
  datatype Record = Record(name: string, size: Option<nat>)

  datatype Snapshot = Snapshot(fork: Option<nat>, finder: seq<int>, records: seq<Record>)

  type Carrier = Option<Result<Snapshot, Error>>

  datatype Attributes = Attributes(resourceFork: bool, finderInfo: bool)

  const NONE := Attributes(false, false)

  function Names(a: Attributes): seq<string> {
    (if a.resourceFork then [RESOURCE_FORK] else []) + (if a.finderInfo then [FINDER_INFO] else [])
  }

  /** Only presence queries of these platforms forgive a permission error. */
  predicate Forgives(platform: Platform, error: Error) {
    platform in {Darwin, AppleDouble} && Eperm in error
  }

  predicate Nonempty(r: Record) {
    r.size.Some? && r.size.value > 0
  }

  predicate Shows(s: Snapshot, name: string) {
    || (name == RESOURCE_FORK && s.fork.Some? && s.fork.value > 0)
    || (name == FINDER_INFO && exists i | 0 <= i < |s.finder| :: s.finder[i] != 0)
    || exists r <- s.records :: r.name == name && Nonempty(r)
  }

  function Shown(s: Snapshot): Attributes {
    Attributes(Shows(s, RESOURCE_FORK), Shows(s, FINDER_INFO))
  }

  method InspectCarrier(s: Snapshot) returns (a: Attributes)
    ensures a == Shown(s)
  {
    var fork := s.fork.Some? && s.fork.value > 0;
    var finder := false;
    for i := 0 to |s.finder|
      invariant finder <==> exists k | 0 <= k < i :: s.finder[k] != 0
    {
      finder := finder || s.finder[i] != 0;
    }
    ghost var zeroed := finder;
    for i := 0 to |s.records|
      invariant fork <==> (s.fork.Some? && s.fork.value > 0) || exists r <- s.records[..i] ::
        r.name == RESOURCE_FORK && Nonempty(r)
      invariant finder <==> zeroed || exists r <- s.records[..i] :: r.name == FINDER_INFO && Nonempty(r)
    {
      var record := s.records[i];
      assert s.records[..i + 1] == s.records[..i] + [record];
      if record.size == None || record.size.value == 0 {
        continue;
      }
      if record.name == RESOURCE_FORK {
        fork := true;
      } else if record.name == FINDER_INFO {
        finder := true;
      }
    }
    assert s.records[..|s.records|] == s.records;
    a := Attributes(fork, finder);
  }

  /** Asking the host for one attribute: Linux is only asked for names its inventory has. */
  function Seen(q: Queries, name: string): Result<bool, Error> {
    if q.platform.Linux? && q.inventory.Ok? && name !in q.inventory.value then
      Ok(false)
    else
      var a := q.size(name);
      if a.error.None? then Ok(a.present && a.size > 0)
      else if Forgives(q.platform, a.error.value) then Ok(false)
      else Err(a.error.value)
  }

  /** Resource policy: everything is asked, and every error counts. */
  function Inspect(q: Queries, carrier: Carrier): Result<Attributes, Failure> {
    var fork, finder := Seen(q, RESOURCE_FORK), Seen(q, FINDER_INFO);
    if q.platform.Linux? && q.inventory.Err? then Err(Failure(Inventory, q.inventory.error))
    else if fork.Err? then Err(Failure(Query(RESOURCE_FORK), fork.error))
    else if finder.Err? then Err(Failure(Query(FINDER_INFO), finder.error))
    else if carrier.None? then Ok(Attributes(fork.value, finder.value))
    else if carrier.value.Err? then Err(Failure(Snapshotting, carrier.value.error))
    else Ok(Attributes(fork.value || Shows(carrier.value.value, RESOURCE_FORK), finder.value
      || Shows(carrier.value.value, FINDER_INFO)))
  }

  /** Code policy: the first prohibited attribute decides, and nothing after it is asked. */
  function InspectFirst(q: Queries, carrier: Carrier): Result<Attributes, Failure> {
    var fork, finder := Seen(q, RESOURCE_FORK), Seen(q, FINDER_INFO);
    if q.platform.Linux? && q.inventory.Err? then Err(Failure(Inventory, q.inventory.error))
    else if fork.Err? then Err(Failure(Query(RESOURCE_FORK), fork.error))
    else if fork.value then Ok(Attributes(true, false))
    else if carrier.Some? && carrier.value.Err? then Err(Failure(Snapshotting, carrier.value.error))
    else if carrier.Some? && Shows(carrier.value.value, RESOURCE_FORK) then Ok(Attributes(true, false))
    else if finder.Err? then Err(Failure(Query(FINDER_INFO), finder.error))
    else Ok(Attributes(false, finder.value || (carrier.Some? && Shows(carrier.value.value, FINDER_INFO))))
  }

  function Verdict(q: Queries, carrier: Carrier, first: bool): Result<Attributes, Failure> {
    if first then InspectFirst(q, carrier) else Inspect(q, carrier)
  }

  method InspectPolicy(q: Queries, carrier: Carrier, first: bool) returns (r: Result<Attributes, Failure>)
    ensures r == Verdict(q, carrier, first)
  {
    hide Shows;
    if q.platform.Linux? && q.inventory.Err? {
      return Err(Failure(Inventory, q.inventory.error));
    }
    var result, extra, decoded := [false, false], NONE, false;
    for i := 0 to 2
      invariant |result| == 2
      invariant i > 0 ==> Seen(q, RESOURCE_FORK) == Ok(!first && result[0])
      invariant i > 1 ==> Seen(q, FINDER_INFO) == Ok(!first && result[1])
      invariant (first || i == 0 ==> !result[0]) && (first || i <= 1 ==> !result[1])
      invariant decoded <==> first && i > 0 && carrier.Some?
      invariant decoded ==> carrier.value.Ok? && extra == Shown(carrier.value.value)
      invariant !decoded ==> extra == NONE
      invariant first && i > 0 ==> !extra.resourceFork
      invariant first && i > 1 ==> !extra.finderInfo
    {
      var name := PROHIBITED[i];
      var answer := Answer(0, false, None);
      if !q.platform.Linux? || name in q.inventory.value {
        answer := q.size(name);
      }
      if answer.error.Some? && Forgives(q.platform, answer.error.value) {
        answer := Answer(0, false, None);
      }
      if answer.error.Some? {
        assert Seen(q, name) == Err(answer.error.value);
        return Err(Failure(Query(name), answer.error.value));
      }
      result := result[i := answer.present && answer.size > 0];
      if first {
        if result[i] {
          return Ok(Attributes(result[0], result[1]));
        }
        if carrier.Some? && !decoded {
          if carrier.value.Err? {
            return Err(Failure(Snapshotting, carrier.value.error));
          }
          extra := InspectCarrier(carrier.value.value);
          decoded := true;
        }
        result := result[i := (name == RESOURCE_FORK && extra.resourceFork)
          || (name == FINDER_INFO && extra.finderInfo)];
        if result[i] {
          return Ok(Attributes(result[0], result[1]));
        }
      }
    }
    if carrier.Some? && !first {
      if carrier.value.Err? {
        return Err(Failure(Snapshotting, carrier.value.error));
      }
      var x := InspectCarrier(carrier.value.value);
      result := [result[0] || x.resourceFork, result[1] || x.finderInfo];
    }
    r := Ok(Attributes(result[0], result[1]));
  }

  /** What `First` reports: the head of the names, or nothing. */
  function Head(r: Result<Attributes, Failure>): Result<string, Failure> {
    match r
    case Err(e) => Err(e)
    case Ok(a) => if Names(a) == [] then Ok("") else Ok(Names(a)[0])
  }

  /** When all can be inspected, the code policy reports the head of what the resource policy lists. */
  lemma FirstIsHead(q: Queries, carrier: Carrier)
    requires Inspect(q, carrier).Ok?
    ensures InspectFirst(q, carrier).Ok? && Head(InspectFirst(q, carrier)) == Head(Inspect(q, carrier))
  {
    hide Shows;
  }

  /** The code policy answers where the resource policy fails exactly when an attribute is found before the failure. */
  lemma FirstAnswersEarlier(q: Queries, carrier: Carrier)
    ensures (InspectFirst(q, carrier).Ok? && Inspect(q, carrier).Err?) <==> FoundBeforeFailure(q, carrier)
    ensures FoundBeforeFailure(q, carrier) ==> InspectFirst(q, carrier) == Ok(Attributes(true, false))
    ensures InspectFirst(q, carrier).Err? ==> Inspect(q, carrier).Err?
  {
    hide Shows;
  }

  predicate FoundBeforeFailure(q: Queries, carrier: Carrier) {
    var fork, finder := Seen(q, RESOURCE_FORK), Seen(q, FINDER_INFO);
    var broken := carrier.Some? && carrier.value.Err?;
    && (q.platform.Linux? ==> q.inventory.Ok?) && fork.Ok?
    && if fork.value then finder.Err?
      || broken else !broken && carrier.Some? && Shows(carrier.value.value, RESOURCE_FORK) && finder.Err?
  }

  /** The host cannot say which attributes there are. */
  predicate Unlisted(q: Queries) {
    q.platform.Linux? && q.inventory.Err?
  }

  /**
   * The question for this attribute ends in an error other than a permission error on macOS or of
   * AppleDouble files.
   */
  predicate Fails(q: Queries, name: string) {
    && !Unlisted(q) && Asked(q, name) && q.size(name).error.Some?
    && !((q.platform.Darwin? || q.platform.AppleDouble?) && Eperm in q.size(name).error.value)
  }

  /** The object itself has this attribute, and it is not empty. */
  predicate Carries(q: Queries, name: string) {
    Asked(q, name) && q.size(name).error.None? && q.size(name).present && q.size(name).size > 0
  }

  predicate Companion(carrier: Carrier, name: string) {
    carrier.Some? && carrier.value.Ok? && Shows(carrier.value.value, name)
  }

  predicate Unreadable(carrier: Carrier) {
    carrier.Some? && carrier.value.Err?
  }

  predicate FailedAt(r: Result<Attributes, Failure>, stage: Stage, causes: Error) {
    r == Err(Failure(stage, causes))
  }

  /**
   * The resource policy answers exactly when nothing fails, and then lists what the object or its companion
   * has. Otherwise the first failure is reported: the inventory, the two questions, the companion.
   */
  lemma InspectExactly(q: Queries, carrier: Carrier)
    ensures var r, failing := Inspect(q, carrier), Fails(q, RESOURCE_FORK) || Fails(q, FINDER_INFO);
      && (r.Ok? <==> !Unlisted(q) && !failing && !Unreadable(carrier))
      && (r.Ok? ==>
            && (r.value.resourceFork <==> Carries(q, RESOURCE_FORK) || Companion(carrier, RESOURCE_FORK))
            && (r.value.finderInfo <==> Carries(q, FINDER_INFO) || Companion(carrier, FINDER_INFO)))
      && (Unlisted(q) ==> FailedAt(r, Inventory, q.inventory.error))
      && (Fails(q, RESOURCE_FORK) ==> FailedAt(r, Query(RESOURCE_FORK), q.size(RESOURCE_FORK).error.value))
      && (!Fails(q, RESOURCE_FORK) && Fails(q, FINDER_INFO) ==>
            FailedAt(r, Query(FINDER_INFO), q.size(FINDER_INFO).error.value))
      && (!Unlisted(q) && !failing && Unreadable(carrier) ==> FailedAt(r, Snapshotting, carrier.value.error))
  {
    hide Shows;
  }

  /** The resource fork is found before anything that could fail after it. */
  predicate ForkFirst(q: Queries, carrier: Carrier) {
    && !Unlisted(q) && !Fails(q, RESOURCE_FORK)
    && (Carries(q, RESOURCE_FORK) || Companion(carrier, RESOURCE_FORK))
  }

  /**
   * The code policy stops at the first attribute it finds. It looks into the companion before it asks for
   * the second one, so that a companion it cannot read is reported first.
   */
  lemma FirstExactly(q: Queries, carrier: Carrier)
    ensures var r, fork := InspectFirst(q, carrier), ForkFirst(q, carrier);
      && (Unlisted(q) ==> FailedAt(r, Inventory, q.inventory.error))
      && (Fails(q, RESOURCE_FORK) ==> FailedAt(r, Query(RESOURCE_FORK), q.size(RESOURCE_FORK).error.value))
      && (fork ==> r == Ok(Attributes(true, false)))
      && (!fork && !Unlisted(q) && !Fails(q, RESOURCE_FORK) ==>
            if Unreadable(carrier) then FailedAt(r, Snapshotting, carrier.value.error)
            else if Fails(q, FINDER_INFO) then FailedAt(r, Query(FINDER_INFO), q.size(FINDER_INFO).error.value)
            else r == Ok(Attributes(false, Carries(q, FINDER_INFO) || Companion(carrier, FINDER_INFO))))
  {
    hide Shows;
  }

  /** Both answers, errors included, kept for later. */
  datatype Observation = Observation(platform: Platform, inventory: Result<set<string>, Error>, attrs: map<string,
                                     Answer>)

  const SILENT := Answer(0, false, None)

  /** An observation answers in the object's stead; a name it did not ask for reads as absent. */
  function Replay(o: Observation): Queries {
    Queries(o.platform, o.inventory, name => if name in o.attrs then o.attrs[name] else SILENT)
  }

  method Observe(q: Queries) returns (o: Observation)
    ensures o.platform == q.platform && o.attrs.Keys <= {RESOURCE_FORK, FINDER_INFO}
    ensures q.platform.Linux? ==> o.inventory == q.inventory
    ensures !q.platform.Linux? ==>
      o.attrs == map[RESOURCE_FORK := q.size(RESOURCE_FORK), FINDER_INFO := q.size(FINDER_INFO)]
    ensures forall carrier, first :: Verdict(Replay(o), carrier, first) == Verdict(q, carrier, first)
  {
    var inventory: Result<set<string>, Error> := Ok({});
    if q.platform.Linux? {
      inventory := q.inventory;
    }
    var attrs: map<string, Answer> := map[];
    for i := 0 to 2
      invariant forall name :: name in attrs <==> name in PROHIBITED[..i] && Asked(q, name)
      invariant forall name <- attrs :: attrs[name] == q.size(name)
    {
      var name := PROHIBITED[i];
      assert PROHIBITED[..i + 1] == PROHIBITED[..i] + [name];
      if q.platform.Linux? && (inventory.Err? || name !in inventory.value) {
        continue;
      }
      attrs := attrs[name := q.size(name)];
    }
    assert PROHIBITED[..2] == PROHIBITED;
    o := Observation(q.platform, inventory, attrs);
    forall carrier, first
      ensures Verdict(Replay(o), carrier, first) == Verdict(q, carrier, first)
    {
      SameAnswers(Replay(o), q, carrier, first);
    }
  }

  predicate Asked(q: Queries, name: string) {
    q.platform.Linux? ==> q.inventory.Ok? && name in q.inventory.value
  }

  lemma SameAnswers(p: Queries, q: Queries, carrier: Carrier, first: bool)
    requires p.platform == q.platform && (q.platform.Linux? ==> p.inventory == q.inventory)
    requires forall name <- PROHIBITED :: Asked(q, name) ==> p.size(name) == q.size(name)
    ensures Verdict(p, carrier, first) == Verdict(q, carrier, first)
  {
    hide Shows;
    assert RESOURCE_FORK in PROHIBITED && FINDER_INFO in PROHIBITED;
    if !q.platform.Linux? || q.inventory.Ok? {
      assert Seen(p, RESOURCE_FORK) == Seen(q, RESOURCE_FORK) && Seen(p, FINDER_INFO) == Seen(q, FINDER_INFO);
    }
  }

  /** Opening a held object's metadata: it fails, or yields queries and a later outcome of closing. */
  datatype View = Refused(error: Error) | View(queries: Queries, close: Option<Error>)

  /** A direct inspection reports a failing close beside whatever went wrong before. */
  function Direct(view: View, carrier: Carrier, first: bool): Result<Attributes, Failure> {
    match view
    case Refused(error) => Err(Failure(Opening, error))
    case View(q, None) => Verdict(q, carrier, first)
    case View(q, Some(close)) =>
      match Verdict(q, carrier, first)
      case Ok(_) => Err(Failure(Closing, close))
      case Err(e) => Err(e.(causes := close + e.causes))
  }

  /** The causes of two errors, either of which may be absent. */
  function Joined(error: Option<Error>, close: Error): Option<Error> {
    Some(close + if error.Some? then error.value else {})
  }

  /** Captures an object: what cannot be opened answers every query with that error. */
  method ObserveFile(view: View) returns (o: Observation)
    ensures Represents(o, view)
  {
    if view.Refused? {
      o := Observe(Queries(Filesystem, Err(view.error), _ => Answer(0, false, Some(view.error))));
      return;
    }
    o := Observe(view.queries);
    if view.close.Some? {
      var close := view.close.value;
      var inventory := Err(close + if o.inventory.Err? then o.inventory.error else {});
      var left, attrs := o.attrs.Keys, o.attrs;
      while left != {}
        invariant left <= o.attrs.Keys == attrs.Keys
        invariant forall name <- attrs ::
          attrs[name] == if name in left then o.attrs[name]
            else o.attrs[name].(error := Joined(o.attrs[name].error, close))
      {
        var name :| name in left;
        attrs := attrs[name := attrs[name].(error := Joined(attrs[name].error, close))];
        left := left - {name};
      }
      o := Observation(o.platform, inventory, attrs);
    }
  }

  /** The observation answers like the object; a failing close has spoiled every answer. */
  ghost predicate Represents(o: Observation, view: View) {
    match view
    case Refused(error) => o.platform == Filesystem && forall name <- PROHIBITED ::
      Replay(o).size(name).error == Some(error)
    case View(q, None) => forall carrier, first :: Verdict(Replay(o), carrier, first) == Verdict(q, carrier, first)
    case View(q, Some(close)) =>
      && o.platform == q.platform
      && (q.platform.Linux? ==> o.inventory == Err(close + if q.inventory.Err? then q.inventory.error else {}))
      && (!q.platform.Linux? ==> forall name <- PROHIBITED ::
        Replay(o).size(name) == q.size(name).(error := Joined(q.size(name).error, close)))
  }

  /** Close failed where permission errors are forgiven, on every query the replay still makes. */
  predicate CloseForgiven(view: View, carrier: Carrier, first: bool) {
    && view.View? && view.close.Some? && view.queries.platform in {Darwin, AppleDouble}
    && Eperm in Joined(view.queries.size(RESOURCE_FORK).error, view.close.value).value
    && (carrier.Some? ==> carrier.value.Ok?)
    && (Eperm in Joined(view.queries.size(FINDER_INFO).error, view.close.value).value
        || (first && carrier.Some? && Shows(carrier.value.value, RESOURCE_FORK)))
  }

  /**
   * Replaying an observation answers as inspecting the object would, errors included, unless closing
   * it failed. Then the two verdicts part on success exactly when the failure is forgiven like a query's.
   */
  lemma ReplayAgrees(o: Observation, view: View, carrier: Carrier, first: bool)
    requires Represents(o, view)
    ensures view.View? && view.close.None? ==> Verdict(Replay(o), carrier, first) == Direct(view, carrier, first)
    ensures view.Refused? ==>
      Verdict(Replay(o), carrier, first) == Err(Failure(Query(RESOURCE_FORK), view.error))
        && Direct(view, carrier, first).Err?
    ensures (Verdict(Replay(o), carrier, first).Ok? <==> Direct(view, carrier, first).Ok?) <==>
      !CloseForgiven(view, carrier, first)
  {
    hide Shows;
    assert RESOURCE_FORK in PROHIBITED && FINDER_INFO in PROHIBITED;
  }

  /** The captured error of one query, with that of the close, is no longer forgiven. */
  predicate Spoiled(q: Queries, name: string, close: Error) {
    !Forgives(q.platform, Joined(q.size(name).error, close).value)
  }

  /** The query itself reports no error, or one that is forgiven. */
  predicate Harmless(q: Queries, name: string) {
    q.size(name).error.Some? ==> Forgives(q.platform, q.size(name).error.value)
  }

  predicate FoundFork(q: Queries) {
    q.size(RESOURCE_FORK).error.None? && q.size(RESOURCE_FORK).present && q.size(RESOURCE_FORK).size > 0
  }

  /**
   * The replay of a badly closed object still fails where the direct inspection did: on the inventory,
   * on a query that had an error of its own, or on a carrier whose error covers that of the close.
   */
  predicate FailsAlike(q: Queries, close: Error, carrier: Carrier, first: bool) {
    if q.platform.Linux? then
      q.inventory.Err?
    else if Spoiled(q, RESOURCE_FORK, close) then
      q.size(RESOURCE_FORK).error.Some?
    else if !Harmless(q, RESOURCE_FORK) then
      false
    else if first && carrier.Some? && carrier.value.Err? then
      !FoundFork(q) && close <= carrier.value.error
    else if Spoiled(q, FINDER_INFO, close) then
      q.size(FINDER_INFO).error.Some? && !(first && carrier.Some? && Shows(carrier.value.value, RESOURCE_FORK))
    else
      !first && Harmless(q, FINDER_INFO) && carrier.Some? && carrier.value.Err? && close <= carrier.value.error
  }

  /** After a failing close, replay and direct inspection report the same stage and causes exactly then. */
  lemma SameReport(o: Observation, view: View, carrier: Carrier, first: bool)
    requires Represents(o, view) && view.View? && view.close.Some?
    ensures Verdict(Replay(o), carrier, first) == Direct(view, carrier, first) <==>
      FailsAlike(view.queries, view.close.value, carrier, first)
  {
    hide Shows;
    assert RESOURCE_FORK in PROHIBITED && FINDER_INFO in PROHIBITED && RESOURCE_FORK != FINDER_INFO by {
      assert |RESOURCE_FORK| != |FINDER_INFO|;
    }
    var close := view.close.value;
    if carrier.Some? && carrier.value.Err? {
      assert close + carrier.value.error == carrier.value.error <==> close <= carrier.value.error;
    }
  }

  const FINDER_FAILS := View(Queries(Darwin, Ok({}), name => if name == FINDER_INFO
    then Answer(0, false, Some({Other(1)})) else SILENT), Some({Other(2)}))

  /** An error that is lost although the close was not forgiven: the replay stops before the query that had it. */
  lemma ForgottenFailure(o: Observation)
    requires Represents(o, FINDER_FAILS)
    ensures !CloseForgiven(FINDER_FAILS, None, false)
    ensures Direct(FINDER_FAILS, None, false) == Err(Failure(Query(FINDER_INFO), {Other(1), Other(2)}))
    ensures Verdict(Replay(o), None, false) == Err(Failure(Query(RESOURCE_FORK), {Other(2)}))
  {
    assert RESOURCE_FORK in PROHIBITED && FINDER_INFO in PROHIBITED;
    assert RESOURCE_FORK != FINDER_INFO by {
      assert |RESOURCE_FORK| != |FINDER_INFO|;
    }
    assert {Other(2)} + {} == {Other(2)} && {Other(2)} + {Other(1)} == {Other(1), Other(2)};
  }

  /** A host with a resource fork to report, whose metadata then cannot be closed. */
  const FORK_THEN_BAD_CLOSE := View(Queries(Darwin, Ok({}), name => Answer(10, true, None)), Some({Eperm}))

  /** A resource fork that inspection would have reported beside the failure is lost in the replay. */
  lemma ForgottenFork(o: Observation)
    requires Represents(o, FORK_THEN_BAD_CLOSE)
    ensures Direct(FORK_THEN_BAD_CLOSE, None, false) == Err(Failure(Closing, {Eperm}))
    ensures Verdict(Replay(o), None, false) == Ok(NONE)
  {
    assert RESOURCE_FORK in PROHIBITED && FINDER_INFO in PROHIBITED;
  }
}
