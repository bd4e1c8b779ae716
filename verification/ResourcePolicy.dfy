/** Weighted resource rules, compiled from a map and therefore in no particular order. */
module ResourcePolicy {
  /** One constructor per regular expression of the two fixed rule sets. */
  datatype Pattern =
    | UnderResources           // ^Resources/
    | Localized                // ^Resources/.*\.lproj/
    | BaseLocalized            // ^Resources/Base\.lproj/
    | LocVersion               // ^Resources/.*\.lproj/locversion.plist$
    | VersionFile              // ^version.plist$
    | Anything                 // ^.*
    | TopLevel                 // ^[^/]+$
    | NestedCode               // ^(Frameworks|...)/
    | DebugSymbols             // .*\.dSYM($|/)
    | FinderStore              // ^(.*/)?\.DS_Store$
    | Exactly(name: string)    // ^Info\.plist$ and its like

  datatype Rule = Rule(pattern: Pattern, weight: nat, omit: bool, optional: bool)

  const NESTED_ROOTS: seq<string> :=
    ["Frameworks", "SharedFrameworks", "PlugIns", "Plug-ins", "XPCServices", "Helpers", "MacOS",
     "Library/Automator", "Library/Spotlight", "Library/LoginItems"]

  predicate HasPrefix(s: string, prefix: string) {
    |prefix| <= |s| && s[..|prefix|] == prefix
  }

  predicate HasSuffix(s: string, suffix: string) {
    |suffix| <= |s| && s[|s| - |suffix|..] == suffix
  }

  /** `mid` occurs at `k`, and the dot-star before it crosses no newline. */
  predicate DotStarThen(s: string, from: nat, k: nat, mid: string) {
    from <= k && k + |mid| <= |s| && s[k..k + |mid|] == mid && '\n' !in s[from..k]
  }

  /** `mid` occurs at `k`, at the end of a path component. */
  predicate ComponentEnds(s: string, k: nat, mid: string) {
    k + |mid| <= |s| && s[k..k + |mid|] == mid && (k + |mid| == |s| || s[k + |mid|] == '/')
  }

  /** `stem`, one character that is not a newline, `tail`, and then the end. */
  predicate DotBetween(s: string, stem: string, tail: string) {
    |s| == |stem| + 1 + |tail| && HasPrefix(s, stem) && s[|stem|] != '\n' && s[|stem| + 1..] == tail
  }

  predicate Matches(p: Pattern, s: string) {
    match p
    case UnderResources => HasPrefix(s, "Resources/")
    case Localized => HasPrefix(s, "Resources/") && exists k :: 0 <= k < |s| && DotStarThen(s, 10, k, ".lproj/")
    case BaseLocalized => HasPrefix(s, "Resources/Base.lproj/")
    case LocVersion =>
      HasPrefix(s, "Resources/") && exists k ::
        0 <= k < |s| && DotStarThen(s, 10, k, ".lproj/") && DotBetween(s[k + 7..], "locversion", "plist")
    case VersionFile => DotBetween(s, "version", "plist")
    case Anything => true
    case TopLevel => s != "" && '/' !in s
    case NestedCode => exists root <- NESTED_ROOTS :: HasPrefix(s, root + "/")
    case DebugSymbols => exists k: nat :: k <= |s| && ComponentEnds(s, k, ".dSYM")
    case FinderStore => s == ".DS_Store" || (HasSuffix(s, "/.DS_Store") && '\n' !in s[..|s| - 10])
    case Exactly(name) => s == name
  }

  const COMMON_RULES: seq<Rule> :=
    [Rule(Localized, 1000, false, true), Rule(BaseLocalized, 1010, false, false), Rule(LocVersion, 1100, true, false)]

  /** The rule sets of the two envelope dictionaries, in one possible order. */
  function BundleRules(legacy: bool): seq<Rule> {
    if legacy then
      COMMON_RULES + [Rule(UnderResources, 1, false, false), Rule(VersionFile, 1, false, false)]
    else
      COMMON_RULES + [
        Rule(UnderResources, 20, false, false), Rule(Anything, 1, false, false), Rule(TopLevel, 10, false, false),
        Rule(NestedCode, 10, false, false), Rule(DebugSymbols, 11, false, false), Rule(FinderStore, 2000, true, false),
        Rule(Exactly("Info.plist"), 20, true, false), Rule(Exactly("PkgInfo"), 20, true, false),
        Rule(Exactly("version.plist"), 20, false, false), Rule(Exactly("embedded.provisionprofile"), 20, false, false)]
  }

  datatype Choice = Choice(weight: nat, included: bool, optional: bool)

  /** The loop over the rules: a heavier match replaces the choice, an equal one does not. */
  ghost function Choose(rules: seq<Rule>, name: string, n: nat): Choice
    requires n <= |rules|
  {
    if n == 0 then
      Choice(0, false, false)
    else
      var c, r := Choose(rules, name, n - 1), rules[n - 1];
      if r.weight > c.weight && Matches(r.pattern, name) then Choice(r.weight, !r.omit, r.optional) else c
  }

  ghost predicate Candidate(rules: seq<Rule>, name: string, r: Rule) {
    r in rules && Matches(r.pattern, name) && r.weight > 0
  }

  /** A matching rule that no matching rule outweighs. */
  ghost predicate Winner(rules: seq<Rule>, name: string, r: Rule) {
    Candidate(rules, name, r) && forall s | Candidate(rules, name, s) :: s.weight <= r.weight
  }

  lemma {:induction false} ChoiceIsWinner(rules: seq<Rule>, name: string, n: nat)
    requires n <= |rules|
    ensures var c := Choose(rules, name, n);
      if c.weight == 0 then c == Choice(0, false, false) && forall r :: !Candidate(rules[..n], name, r)
      else exists r :: Winner(rules[..n], name, r) && c == Choice(r.weight, !r.omit, r.optional)
  {
    hide Matches;
    if n > 0 {
      ChoiceIsWinner(rules, name, n - 1);
      var last := rules[n - 1];
      assert rules[..n] == rules[..n - 1] + [last];
      forall s
        ensures Candidate(rules[..n], name, s) <==>
          Candidate(rules[..n - 1], name, s) || (s == last && Candidate([last], name, s))
      {
        assert s in rules[..n] <==> s in rules[..n - 1] || s == last;
      }
      var c := Choose(rules, name, n - 1);
      if last.weight > c.weight && Matches(last.pattern, name) {
        assert Winner(rules[..n], name, last);
      } else if c.weight > 0 {
        var r :| Winner(rules[..n - 1], name, r) && c == Choice(r.weight, !r.omit, r.optional);
        assert Winner(rules[..n], name, r);
      }
    }
  }

  /** Two winners always say the same. */
  ghost predicate TiesAgree(rules: seq<Rule>, name: string) {
    forall r, s | Winner(rules, name, r) && Winner(rules, name, s) :: r.omit == s.omit && r.optional == s.optional
  }

  /** When ties agree, the order of the rules is irrelevant. */
  lemma AnyOrder(rules: seq<Rule>, reordered: seq<Rule>, name: string)
    requires multiset(rules) == multiset(reordered) && TiesAgree(rules, name)
    ensures Choose(rules, name, |rules|) == Choose(reordered, name, |reordered|)
  {
    hide Matches, Choose;
    ChoiceIsWinner(rules, name, |rules|);
    ChoiceIsWinner(reordered, name, |reordered|);
    assert rules[..|rules|] == rules && reordered[..|reordered|] == reordered;
    SameRules(rules, reordered);
    forall r
      ensures Candidate(rules, name, r) <==> Candidate(reordered, name, r)
      ensures Winner(rules, name, r) <==> Winner(reordered, name, r)
    {
    }
    hide Winner;
    assert Choose(rules, name, |rules|).weight == 0 || exists r :: Winner(rules, name, r);
  }

  lemma SameRules(rules: seq<Rule>, reordered: seq<Rule>)
    requires multiset(rules) == multiset(reordered)
    ensures forall r :: r in rules <==> r in reordered
  {
    assert forall r :: r in rules <==> r in multiset(rules);
    assert forall r :: r in reordered <==> r in multiset(reordered);
  }

  /** When they do not agree, two orders of the same rules give different answers. */
  lemma TiesMatter(rules: seq<Rule>, name: string) returns (a: seq<Rule>, b: seq<Rule>)
    requires !TiesAgree(rules, name)
    ensures multiset(a) == multiset(b) == multiset(rules)
    ensures Choose(a, name, |a|) != Choose(b, name, |b|)
  {
    var r, s :| Winner(rules, name, r) && Winner(rules, name, s) && !(r.omit == s.omit && r.optional == s.optional);
    a := FirstWins(rules, name, r);
    b := FirstWins(rules, name, s);
  }

  lemma FirstWins(rules: seq<Rule>, name: string, r: Rule) returns (a: seq<Rule>)
    requires Winner(rules, name, r)
    ensures multiset(a) == multiset(rules)
    ensures Choose(a, name, |a|) == Choice(r.weight, !r.omit, r.optional)
  {
    var k :| 0 <= k < |rules| && rules[k] == r;
    a := [r] + rules[..k] + rules[k + 1..];
    assert rules == rules[..k] + [r] + rules[k + 1..];
    SameRules(rules, a);
    FrontStays(a, name, |a|);
  }

  lemma {:induction false} FrontStays(a: seq<Rule>, name: string, n: nat)
    requires 0 < n <= |a| && Winner(a, name, a[0])
    ensures Choose(a, name, n) == Choice(a[0].weight, !a[0].omit, a[0].optional)
  {
    if n > 1 {
      FrontStays(a, name, n - 1);
      assert a[n - 1] in a;
      assert Candidate(a, name, a[n - 1]) ==> a[n - 1].weight <= a[0].weight;
    } else {
      assert Choose(a, name, 0) == Choice(0, false, false);
    }
  }

  /** What a weight says about a rule of the fixed sets, except among the rules of weight 20. */
  lemma RuleByWeight(legacy: bool, r: Rule)
    requires r in BundleRules(legacy)
    ensures r.optional <==> r.weight == 1000
    ensures r.weight == 20 && r.omit ==> r.pattern in {Exactly("Info.plist"), Exactly("PkgInfo")}
    ensures r.weight == 20 && !r.omit ==>
      r.pattern in {UnderResources, Exactly("version.plist"), Exactly("embedded.provisionprofile")}
    ensures r.weight != 20 ==> (r.omit <==> r.weight in {1100, 2000})
    ensures r.weight in {1, 10, 11, 20, 1000, 1010, 1100, 2000}
    ensures r.weight >= 1000 ==>
      r.pattern == if r.weight == 1000 then Localized else if r.weight == 1010 then BaseLocalized
        else if r.weight == 1100 then LocVersion else FinderStore
  {
  }

  /** In both fixed rule sets, equally heavy rules that match one path agree. */
  lemma FixedTiesAgree(legacy: bool, name: string)
    ensures TiesAgree(BundleRules(legacy), name)
  {
    hide Matches, BundleRules;
    var rules := BundleRules(legacy);
    forall r, s | Winner(rules, name, r) && Winner(rules, name, s)
      ensures r.omit == s.omit && r.optional == s.optional
    {
      RuleByWeight(legacy, r);
      RuleByWeight(legacy, s);
      assert r.weight == s.weight;
      if r.omit != s.omit {
        OmittedFilesStandAlone(name, if r.omit then r.pattern else s.pattern, if r.omit then s.pattern else r.pattern);
      }
    }
  }

  lemma OmittedFilesStandAlone(name: string, p: Pattern, q: Pattern)
    requires p in {Exactly("Info.plist"), Exactly("PkgInfo")}
    requires q in {UnderResources, Exactly("version.plist"), Exactly("embedded.provisionprofile")}
    ensures !(Matches(p, name) && Matches(q, name))
  {
    assert "Info.plist"[0] == 'I' && "PkgInfo"[0] == 'P';
    assert "version.plist"[0] == 'v' && "embedded.provisionprofile"[0] == 'e';
    if Matches(q, name) && q == UnderResources {
      assert name[0] == name[..10][0] == 'R';
    }
  }

  /** Applies the fixed rules, in whatever order their map was enumerated. */
  method DecidePolicy(rules: seq<Rule>, ghost legacy: bool, name: string) returns (included: bool, optional: bool)
    requires multiset(rules) == multiset(BundleRules(legacy))
    ensures included == Policy(name, legacy).included && optional == Policy(name, legacy).optional
  {
    hide Matches, BundleRules;
    included, optional := false, false;
    var weight: nat := 0;
    for n := 0 to |rules|
      invariant Choice(weight, included, optional) == Choose(rules, name, n)
    {
      var r := rules[n];
      if r.weight > weight && Matches(r.pattern, name) {
        weight, included, optional := r.weight, !r.omit, r.optional;
      }
    }
    FixedTiesAgree(legacy, name);
    AnyOrder(BundleRules(legacy), rules, name);
  }

  ghost function Policy(name: string, legacy: bool): Choice {
    Choose(BundleRules(legacy), name, |BundleRules(legacy)|)
  }

  /** What the version 2 rules come to, as a reader of the dictionary would put it. */
  ghost predicate Omitted(name: string) {
    || Matches(LocVersion, name) || Matches(FinderStore, name) || name == "Info.plist" || name == "PkgInfo"
  }

  ghost predicate Localizable(name: string) {
    Matches(Localized, name) && !Matches(BaseLocalized, name) && !Matches(LocVersion, name)
      && !Matches(FinderStore, name)
  }

  lemma LocalizedIsResource(name: string)
    ensures Matches(LocVersion, name) ==> Matches(Localized, name)
    ensures Matches(Localized, name) || Matches(BaseLocalized, name) ==> HasPrefix(name, "Resources/")
    ensures HasPrefix(name, "Resources/") ==> name != "Info.plist" && name != "PkgInfo"
  {
    if HasPrefix(name, "Resources/") {
      assert name[0] == name[..10][0] == 'R';
      assert "Info.plist"[0] == 'I' && "PkgInfo"[0] == 'P';
    }
    if Matches(BaseLocalized, name) {
      assert name[..10] == name[..20][..10] == "Resources/";
    }
  }

  lemma HasCandidates(name: string)
    ensures var rules := BundleRules(false);
      && Candidate(rules, name, Rule(Anything, 1, false, false))
      && (Matches(Localized, name) ==> Candidate(rules, name, Rule(Localized, 1000, false, true)))
      && (Matches(BaseLocalized, name) ==> Candidate(rules, name, Rule(BaseLocalized, 1010, false, false)))
      && (Matches(LocVersion, name) ==> Candidate(rules, name, Rule(LocVersion, 1100, true, false)))
      && (Matches(FinderStore, name) ==> Candidate(rules, name, Rule(FinderStore, 2000, true, false)))
      && (name == "Info.plist" ==> Candidate(rules, name, Rule(Exactly("Info.plist"), 20, true, false)))
      && (name == "PkgInfo" ==> Candidate(rules, name, Rule(Exactly("PkgInfo"), 20, true, false)))
  {
  }

  /** Every path is sealed except the omitted ones, and only localized resources are optional. */
  lemma PolicyMeaning(name: string)
    ensures Policy(name, false).included <==> !Omitted(name)
    ensures Policy(name, false).optional <==> Localizable(name)
  {
    var rules := BundleRules(false);
    ChoiceIsWinner(rules, name, |rules|);
    HasCandidates(name);
    assert rules[..|rules|] == rules;
    hide Choose, BundleRules, Matches;
    var r :| Winner(rules, name, r) && Policy(name, false) == Choice(r.weight, !r.omit, r.optional);
    RuleByWeight(false, r);
    WinnerMeaning(name, r);
  }

  lemma ExactMatch(x: string, name: string)
    ensures Matches(Exactly(x), name) <==> name == x
  {
  }

  lemma WinnerMeaning(name: string, r: Rule)
    requires Winner(BundleRules(false), name, r)
    ensures r.omit <==> Omitted(name)
    ensures r.optional <==> Localizable(name)
  {
    hide BundleRules, Matches, HasPrefix;
    RuleByWeight(false, r);
    HasCandidates(name);
    LocalizedIsResource(name);
    ExactMatch("Info.plist", name);
    ExactMatch("PkgInfo", name);
    if (name == "Info.plist" || name == "PkgInfo") && r.weight == 20 && !r.omit {
      OmittedFilesStandAlone(name, Exactly(name), r.pattern);
    }
  }

  /** `s` is `front`, then `mid`, then `back`. */
  predicate Parted(s: string, front: string, mid: string, back: string) {
    s == front + mid + back
  }

  predicate OneLine(s: string) {
    '\n' !in s
  }

  /** The path as its regular expression spells it, from left to right; a dot is any character of one line. */
  ghost predicate Spells(p: Pattern, s: string) {
    match p
    case UnderResources => exists b :: Parted(s, "Resources/", "", b)
    case Localized => exists a, b :: Parted(s, "Resources/" + a, ".lproj/", b) && OneLine(a)
    case BaseLocalized => exists b :: Parted(s, "Resources/Base.lproj/", "", b)
    case LocVersion => exists a, dot ::
      Parted(s, "Resources/" + a, ".lproj/locversion", dot + "plist") && OneLine(a) && |dot| == 1 && OneLine(dot)
    case VersionFile => exists dot :: Parted(s, "version", dot, "plist") && |dot| == 1 && OneLine(dot)
    case Anything => true
    case TopLevel => s != "" && '/' !in s
    case NestedCode => exists root, b :: root in NESTED_ROOTS && Parted(s, root, "/", b)
    case DebugSymbols => exists a, b :: Parted(s, a, ".dSYM", b) && (b == "" || b[0] == '/')
    case FinderStore => s == ".DS_Store" || exists a :: Parted(s, a, "/.DS_Store", "") && OneLine(a)
    case Exactly(name) => s == name
  }

  lemma PrefixParts(s: string, prefix: string)
    ensures HasPrefix(s, prefix) <==> exists b :: Parted(s, prefix, "", b)
  {
    if HasPrefix(s, prefix) {
      assert Parted(s, prefix, "", s[|prefix|..]);
    }
  }

  lemma LocalizedParts(s: string, k: nat)
    requires |"Resources/"| == 10
    ensures HasPrefix(s, "Resources/") && k < |s| && DotStarThen(s, 10, k, ".lproj/") <==>
      10 <= k && k + 7 <= |s| && Parted(s, "Resources/" + s[10..k], ".lproj/", s[k + 7..]) && OneLine(s[10..k])
  {
    if 10 <= k && k + 7 <= |s| {
      assert s == s[..10] + s[10..k] + s[k..k + 7] + s[k + 7..];
    }
  }

  /** The matcher recognises exactly the paths that the regular expressions spell. */
  lemma MatchesExactly(p: Pattern, s: string)
    ensures Matches(p, s) <==> Spells(p, s)
  {
    hide Parted, OneLine, HasPrefix, HasSuffix, DotBetween, ComponentEnds, DotStarThen;
    match p {
      case UnderResources => PrefixParts(s, "Resources/");
      case BaseLocalized => PrefixParts(s, "Resources/Base.lproj/");
      case Localized => LocalizedExactly(s);
      case LocVersion => LocVersionExactly(s);
      case VersionFile => DotExactly(s, "version", "plist");
      case NestedCode => NestedExactly(s);
      case DebugSymbols => DebugExactly(s);
      case FinderStore => FinderExactly(s);
      case _ =>
    }
  }

  lemma LocalizedExactly(s: string)
    ensures Matches(Localized, s) <==> Spells(Localized, s)
  {
    hide Parted, DotStarThen, HasPrefix;
    if Matches(Localized, s) {
      var k: nat :| k < |s| && DotStarThen(s, 10, k, ".lproj/");
      LocalizedParts(s, k);
    }
    if a, b :| Parted(s, "Resources/" + a, ".lproj/", b) && OneLine(a) {
      Cut(s, "Resources/", a, ".lproj/", b);
      LocalizedParts(s, 10 + |a|);
    }
  }

  lemma Cut(s: string, first: string, a: string, mid: string, b: string)
    requires Parted(s, first + a, mid, b)
    ensures |s| == |first| + |a| + |mid| + |b|
    ensures s[|first|..|first| + |a|] == a && s[|first| + |a| + |mid|..] == b
  {
  }

  lemma LocVersionExactly(s: string)
    ensures Matches(LocVersion, s) <==> Spells(LocVersion, s)
  {
    hide Parted, HasPrefix, DotBetween;
    if Matches(LocVersion, s) {
      var k: nat :| k < |s| && DotStarThen(s, 10, k, ".lproj/") && DotBetween(s[k + 7..], "locversion", "plist");
      LocalizedParts(s, k);
      var dot := DotOf(s[k + 7..], "locversion", "plist");
      Regroup(s, "Resources/" + s[10..k], ".lproj/", "locversion", dot + "plist");
      assert ".lproj/" + "locversion" == ".lproj/locversion";
    }
    if a, dot :|
      && Parted(s, "Resources/" + a, ".lproj/locversion", dot + "plist")
      && OneLine(a) && |dot| == 1 && OneLine(dot) {
      assert ".lproj/" + "locversion" == ".lproj/locversion";
      Regroup(s, "Resources/" + a, ".lproj/", "locversion", dot + "plist");
      Cut(s, "Resources/", a, ".lproj/", "locversion" + (dot + "plist"));
      LocalizedParts(s, 10 + |a|);
      DotSpelled(s[10 + |a| + 7..], "locversion", dot, "plist");
    }
  }

  lemma Regroup(s: string, a: string, m: string, n: string, b: string)
    ensures Parted(s, a, m + n, b) <==> Parted(s, a, m, n + b)
  {
    assert a + (m + n) + b == a + m + (n + b);
  }

  lemma DotOf(s: string, stem: string, tail: string) returns (dot: string)
    requires DotBetween(s, stem, tail)
    ensures |dot| == 1 && OneLine(dot) && s == stem + (dot + tail)
  {
    dot := [s[|stem|]];
    assert s == s[..|stem|] + [s[|stem|]] + s[|stem| + 1..];
  }

  lemma DotSpelled(s: string, stem: string, dot: string, tail: string)
    requires s == stem + (dot + tail) && |dot| == 1 && OneLine(dot)
    ensures DotBetween(s, stem, tail)
  {
    assert s[|stem|] == dot[0];
  }

  lemma DotExactly(s: string, stem: string, tail: string)
    ensures DotBetween(s, stem, tail) <==> exists dot :: Parted(s, stem, dot, tail) && |dot| == 1 && OneLine(dot)
  {
    hide DotBetween;
    if DotBetween(s, stem, tail) {
      var dot := DotOf(s, stem, tail);
      assert stem + (dot + tail) == stem + dot + tail;
      assert Parted(s, stem, dot, tail);
    }
    if dot :| Parted(s, stem, dot, tail) && |dot| == 1 && OneLine(dot) {
      assert stem + dot + tail == stem + (dot + tail);
      DotSpelled(s, stem, dot, tail);
    }
  }

  lemma NestedExactly(s: string)
    ensures Matches(NestedCode, s) <==> Spells(NestedCode, s)
  {
    if root :| root in NESTED_ROOTS && HasPrefix(s, root + "/") {
      assert Parted(s, root, "/", s[|root| + 1..]);
    }
    if root, b :| root in NESTED_ROOTS && Parted(s, root, "/", b) {
      assert HasPrefix(s, root + "/");
    }
  }

  lemma DebugExactly(s: string)
    ensures Matches(DebugSymbols, s) <==> Spells(DebugSymbols, s)
  {
    if k: nat :| k <= |s| && ComponentEnds(s, k, ".dSYM") {
      assert Parted(s, s[..k], ".dSYM", s[k + 5..]);
    }
    if a, b :| Parted(s, a, ".dSYM", b) && (b == "" || b[0] == '/') {
      assert ComponentEnds(s, |a|, ".dSYM");
    }
  }

  lemma FinderExactly(s: string)
    ensures Matches(FinderStore, s) <==> Spells(FinderStore, s)
  {
    if HasSuffix(s, "/.DS_Store") && OneLine(s[..|s| - 10]) {
      assert Parted(s, s[..|s| - 10], "/.DS_Store", "");
    }
    if a :| Parted(s, a, "/.DS_Store", "") && OneLine(a) {
      assert s[..|s| - 10] == a;
    }
  }

  /** The version 1 rules seal resources and the version file alone, and leave out what is localized for itself. */
  lemma LegacyMeaning(name: string)
    ensures Policy(name, true).included <==>
      (HasPrefix(name, "Resources/") || Matches(VersionFile, name)) && !Matches(LocVersion, name)
    ensures Policy(name, true).optional <==>
      Matches(Localized, name) && !Matches(BaseLocalized, name) && !Matches(LocVersion, name)
  {
    var rules := BundleRules(true);
    ChoiceIsWinner(rules, name, |rules|);
    LegacyCandidates(name);
    LocalizedIsResource(name);
    assert rules[..|rules|] == rules;
    hide Choose, BundleRules, Matches, HasPrefix;
    if r :| Winner(rules, name, r) && Policy(name, true) == Choice(r.weight, !r.omit, r.optional) {
      LegacyRule(r);
    }
  }

  lemma LegacyCandidates(name: string)
    ensures var rules := BundleRules(true);
      && (HasPrefix(name, "Resources/") ==> Candidate(rules, name, Rule(UnderResources, 1, false, false)))
      && (Matches(VersionFile, name) ==> Candidate(rules, name, Rule(VersionFile, 1, false, false)))
      && (Matches(Localized, name) ==> Candidate(rules, name, Rule(Localized, 1000, false, true)))
      && (Matches(BaseLocalized, name) ==> Candidate(rules, name, Rule(BaseLocalized, 1010, false, false)))
      && (Matches(LocVersion, name) ==> Candidate(rules, name, Rule(LocVersion, 1100, true, false)))
  {
  }

  lemma LegacyRule(r: Rule)
    requires r in BundleRules(true)
    ensures r in {Rule(UnderResources, 1, false, false), Rule(VersionFile, 1, false, false),
                  Rule(Localized, 1000, false, true), Rule(BaseLocalized, 1010, false, false),
                  Rule(LocVersion, 1100, true, false)}
  {
  }
}
