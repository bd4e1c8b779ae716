/** Paths as one string of bytes, with slashes between their parts. */
module Spelling {
  import opened ByteStrings
  import opened ScanScope
  import opened TreeScan

  const SLASH: Byte := 47

  /** A file name that a bundle may hold: ASCII, and no slash. */
  predicate PlainPart(x: string) {
    x != "" && forall c <- x :: c != '/' && c < 128 as char
  }

  predicate Plain(p: Path) {
    p != [] && forall i | 0 <= i < |p| :: PlainPart(p[i])
  }

  function SpellPart(x: string): Bytes {
    seq(|x|, i requires 0 <= i < |x| => if x[i] < 128 as char then x[i] as int else 0)
  }

  function Spell(p: Path): Bytes {
    if p == [] then []
    else if |p| == 1 then SpellPart(p[0])
    else Spell(p[..|p| - 1]) + [SLASH] + SpellPart(p[|p| - 1])
  }

  /** What stands before the names of a directory. */
  function Prefix(p: Path): Bytes {
    if p == [] then [] else Spell(p) + [SLASH]
  }

  lemma PartNoSlash(x: string)
    requires PlainPart(x)
    ensures SLASH !in SpellPart(x) && |SpellPart(x)| == |x| > 0
  {
    var s := SpellPart(x);
    assert '/' as int == 47;
    forall i | 0 <= i < |s|
      ensures s[i] != SLASH
    {
      assert x[i] in x && x[i] != '/';
    }
  }

  lemma SamePart(x: string, y: string)
    requires PlainPart(x) && PlainPart(y) && SpellPart(x) == SpellPart(y)
    ensures x == y
  {
    var s, t := SpellPart(x), SpellPart(y);
    assert |x| == |s| == |t| == |y|;
    forall i | 0 <= i < |x|
      ensures x[i] == y[i]
    {
      assert x[i] in x && y[i] in y && s[i] == t[i];
    }
  }

  lemma NoSlashBehind(a: Bytes, x: Bytes)
    requires SLASH !in x
    ensures forall k | |a| < k < |a + [SLASH] + x| :: (a + [SLASH] + x)[k] != SLASH
  {
    forall k | |a| < k < |a + [SLASH] + x|
      ensures (a + [SLASH] + x)[k] != SLASH
    {
      assert (a + [SLASH] + x)[k] == x[k - |a| - 1];
    }
  }

  /** Only one place can be the last slash. */
  lemma LastSlash(a: Bytes, x: Bytes, b: Bytes, y: Bytes)
    requires a + [SLASH] + x == b + [SLASH] + y && SLASH !in x && SLASH !in y
    ensures a == b && x == y
  {
    var s := a + [SLASH] + x;
    NoSlashBehind(a, x);
    NoSlashBehind(b, y);
    assert s[|a|] == SLASH && s[|b|] == SLASH;
    assert a == s[..|a|] && x == s[|a| + 1..] && b == s[..|b|] && y == s[|b| + 1..];
  }

  lemma SlashInside(p: Path)
    requires |p| > 1
    ensures SLASH in Spell(p)
  {
    hide SpellPart;
    assert Spell(p)[|Spell(p[..|p| - 1])|] == SLASH;
  }

  /** Different paths are spelled differently. */
  lemma {:induction false} SpelledOnce(p: Path, q: Path)
    requires Plain(p) && Plain(q) && Spell(p) == Spell(q)
    ensures p == q
  {
    var f, x, g, y := p[..|p| - 1], p[|p| - 1], q[..|q| - 1], q[|q| - 1];
    PartNoSlash(x);
    PartNoSlash(y);
    if f == [] && g == [] {
      SamePart(x, y);
    } else if f == [] {
      SlashInside(q);
    } else if g == [] {
      SlashInside(p);
    } else {
      hide SpellPart, PlainPart;
      LastSlash(Spell(f), SpellPart(x), Spell(g), SpellPart(y));
      SamePart(x, y);
      SpelledOnce(f, g);
      assert p == f + [x] && q == g + [y];
    }
  }

  /** A path below a directory is spelled with the directory before it. */
  lemma {:induction false} SpelledBelow(p: Path, q: Path)
    requires q != []
    ensures Spell(p + q) == Prefix(p) + Spell(q)
    decreases |q|
  {
    hide SpellPart;
    if p == [] {
      assert p + q == q;
    } else if |q| == 1 {
      assert (p + q)[..|p|] == p;
    } else {
      assert (p + q)[..|p + q| - 1] == p + q[..|q| - 1];
      SpelledBelow(p, q[..|q| - 1]);
    }
  }
}
