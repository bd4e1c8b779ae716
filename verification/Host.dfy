/** One exchange with the host: which attempts fail, when the caller has cancelled, what was done. */
module Host {
  datatype Origin = Native | Carrier

  datatype Event =
    | Removed(from: Origin, name: string)
    | Flushed
    | Listed(from: Origin)

  class Session {
    const fails: nat -> bool
    const cancels: nat -> bool
    var clock: nat
    ghost var log: seq<Event>
    ghost var failed: nat    // attempts that failed
    ghost var stopped: nat   // looks that found the caller gone

    constructor (fails: nat -> bool, cancels: nat -> bool)
      ensures log == []
    {
      this.fails, this.cancels, clock, log, failed, stopped := fails, cancels, 0, [], 0, 0;
    }

    /** The host never fails and the caller never leaves. */
    ghost predicate Calm() {
      forall n :: !fails(n) && !cancels(n)
    }

    /** Nothing has gone wrong meanwhile. */
    twostate predicate Smooth()
      reads this
    {
      failed == old(failed) && stopped == old(stopped)
    }

    /** Whatever goes wrong is counted, and in a calm session nothing does. */
    twostate predicate Onwards()
      reads this
    {
      failed >= old(failed) && stopped >= old(stopped) && (Calm() ==> Smooth())
    }

    /** A host operation, which may fail at any time. */
    method Attempt() returns (ok: bool)
      modifies this`clock, this`failed
      ensures failed == old(failed) + (if ok then 0 else 1) && (Calm() ==> ok)
    {
      ok := !fails(clock);
      clock := clock + 1;
      failed := failed + if ok then 0 else 1;
    }

    /** Whether the caller still wants the work done. */
    method Live() returns (live: bool)
      modifies this`clock, this`stopped
      ensures stopped == old(stopped) + (if live then 0 else 1) && (Calm() ==> live)
    {
      live := !cancels(clock);
      clock := clock + 1;
      stopped := stopped + if live then 0 else 1;
    }
  }
}
