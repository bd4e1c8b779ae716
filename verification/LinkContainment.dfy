/** The lexical test that keeps relative resource links inside the resource base. */
module LinkContainment {
  import opened Wrappers

  const MAX_TARGET := 1024

  /** One component in `path.Clean`: a name is kept, ".." takes back a kept name or stays itself. */
  function CleanStep(out: seq<string>, part: string): seq<string> {
    if part == "" || part == "." then
      out
    else if part == ".." then
      if out != [] && out[|out| - 1] != ".." then out[..|out| - 1] else out + [".."]
    else
      out + [part]
  }

  function Clean(parts: seq<string>): seq<string> {
    if parts == [] then [] else CleanStep(Clean(parts[..|parts| - 1]), parts[|parts| - 1])
  }

  /** The test on the cleaned path: it is ".." or begins with "../". */
  predicate Escapes(cleaned: seq<string>) {
    cleaned != [] && cleaned[0] == ".."
  }

  /** Actually walking: one directory at a time, and never above the base. */
  function Walk(parts: seq<string>): Option<seq<string>> {
    if parts == [] then
      Some([])
    else
      match Walk(parts[..|parts| - 1])
      case None => None
      case Some(at) =>
        var part := parts[|parts| - 1];
        if part == "" || part == "." then Some(at)
        else if part == ".." then (if at == [] then None else Some(at[..|at| - 1]))
        else Some(at + [part])
  }

  predicate NamesOnly(parts: seq<string>) {
    forall i | 0 <= i < |parts| :: parts[i] != ""  && parts[i] != "." && parts[i] != ".."
  }

  /**
   * Cleaning the text tells exactly whether the walk stays inside, and where it ends: once the walk
   * has left the base, no later component can hide it.
   */
  lemma {:induction false} CleanFollowsWalk(parts: seq<string>)
    ensures Escapes(Clean(parts)) <==> Walk(parts).None?
    ensures Walk(parts).Some? ==> Clean(parts) == Walk(parts).value && NamesOnly(Clean(parts))
  {
    if parts != [] {
      CleanFollowsWalk(parts[..|parts| - 1]);
    }
  }

  /** Cleaning twice, as joining and then cleaning does, changes nothing. */
  lemma {:induction false} CleanTwice(parts: seq<string>)
    ensures Settled(Clean(parts)) && Clean(Clean(parts)) == Clean(parts)
  {
    if parts != [] {
      CleanTwice(parts[..|parts| - 1]);
    }
    SettledStays(parts);
    CleanSettled(Clean(parts));
  }

  /** Some ".." first, then names. */
  predicate Settled(parts: seq<string>) {
    && (forall i | 0 <= i < |parts| :: parts[i] != "" && parts[i] != ".")
    && (forall i | 0 < i < |parts| && parts[i] == ".." :: parts[i - 1] == "..")
  }

  lemma {:induction false} SettledStays(parts: seq<string>)
    ensures Settled(Clean(parts))
  {
    if parts != [] {
      SettledStays(parts[..|parts| - 1]);
    }
  }

  lemma {:induction false} CleanSettled(parts: seq<string>)
    requires Settled(parts)
    ensures Clean(parts) == parts
  {
    if parts != [] {
      CleanSettled(parts[..|parts| - 1]);
    }
  }

  function Split(s: string): (parts: seq<string>)
    ensures parts != []
  {
    if s == "" then
      [""]
    else if s[0] == '/' then
      [""] + Split(s[1..])
    else
      var rest := Split(s[1..]);
      [[s[0]] + rest[0]] + rest[1..]
  }

  /** The parts with a slash between them. */
  function Joined(parts: seq<string>): string
    requires parts != []
  {
    if |parts| == 1 then parts[0] else parts[0] + "/" + Joined(parts[1..])
  }

  predicate Slashless(parts: seq<string>) {
    forall part <- parts :: '/' !in part
  }

  /** Splitting loses nothing, and leaves no slash inside a part. */
  lemma {:induction false} SplitJoins(s: string)
    ensures Slashless(Split(s)) && Joined(Split(s)) == s
  {
    if s != [] {
      SplitJoins(s[1..]);
      var rest := Split(s[1..]);
      if s[0] == '/' {
        assert ([""] + rest)[1..] == rest;
      } else {
        assert ([[s[0]] + rest[0]] + rest[1..])[1..] == rest[1..];
      }
    }
  }

  /** No other parts without slashes join to the same path. */
  lemma {:induction false} OnlySplit(parts: seq<string>)
    requires parts != [] && Slashless(parts)
    ensures Split(Joined(parts)) == parts
    decreases |Joined(parts)|, |parts|
  {
    var s := Joined(parts);
    if parts[0] == "" {
      if |parts| > 1 {
        OnlySplit(parts[1..]);
        assert parts == [""] + parts[1..];
      }
    } else {
      var shorter := [parts[0][1..]] + parts[1..];
      assert parts[0] == [parts[0][0]] + parts[0][1..] && parts[0][0] in parts[0];
      assert shorter[1..] == parts[1..];
      assert s == [parts[0][0]] + Joined(shorter);
      assert '/' !in parts[0] && '/' !in shorter[0];
      assert forall i | 1 <= i < |shorter| :: shorter[i] == parts[i];
      OnlySplit(shorter);
      assert parts == [[parts[0][0]] + shorter[0]] + shorter[1..];
    }
  }

  /** A path splits at its slashes and nowhere else. */
  lemma SplitExactly(s: string, parts: seq<string>)
    ensures parts == Split(s) <==> parts != [] && Slashless(parts) && Joined(parts) == s
  {
    SplitJoins(s);
    if parts != [] && Slashless(parts) {
      OnlySplit(parts);
    }
  }

  predicate PartOk(valid: string -> bool, part: string) {
    part == "." || part == ".." || valid(part)
  }

  /** Signing wants a relative target of valid parts that resolves, on a walk that never leaves the base. */
  predicate TargetOk(dir: seq<string>, target: string, verifyLinks: bool, valid: string -> bool, resolves: bool) {
    && 1 <= |target| <= MAX_TARGET
    && (verifyLinks ||
        (target[0] != '/' && (forall part <- Split(target) :: PartOk(valid, part)) && Walk(dir + Split(target)).Some?
          && resolves))
  }

  /**
   * Accepts the target of a link in directory `dir` of the resource base. Verification compares the
   * text only; signing wants a relative target that resolves and never leaves the base on the way.
   */
  method ResourceLink(dir: seq<string>, target: string, verifyLinks: bool, valid: string -> bool, resolves: bool)
    returns (ok: bool)
    requires NamesOnly(dir)
    ensures ok <==> TargetOk(dir, target, verifyLinks, valid, resolves)
  {
    if target == "" || |target| > MAX_TARGET {
      return false;
    }
    if verifyLinks {
      return true;
    }
    if target[0] == '/' {
      return false;
    }
    var parts := Split(target);
    for i := 0 to |parts|
      invariant forall k | 0 <= k < i :: PartOk(valid, parts[k])
    {
      if parts[i] == "." || parts[i] == ".." {
        continue;
      }
      if !valid(parts[i]) {
        assert !PartOk(valid, parts[i]) && parts[i] in parts;
        return false;
      }
    }
    var resolved := Clean(Clean(dir + parts));
    CleanTwice(dir + parts);
    CleanFollowsWalk(dir + parts);
    ok := !Escapes(resolved) && resolves;
  }
}
