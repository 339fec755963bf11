/** Byte strings, and the path arithmetic done on them. */
module Bytes {

  type byte = x: int | 0 <= x < 256
  type Str = seq<byte>

  datatype Option<+T> = None | Some(value: T)

  // ----- UTF-8 (Unicode, table of well-formed byte sequences) -----

  predicate Between(s: Str, i: nat, lo: byte, hi: byte) {
    i < |s| && lo <= s[i] <= hi
  }

  /** Length of the well-formed character at the front of `s`, or 0. */
  function Utf8Front(s: Str): (n: nat)
    requires s != []
    ensures n <= 4 && n <= |s|
  {
    if Between(s, 0, 0x00, 0x7F) then 1
    else if Between(s, 0, 0xC2, 0xDF) && Between(s, 1, 0x80, 0xBF) then 2
    else if (|| (s[0] == 0xE0 && Between(s, 1, 0xA0, 0xBF))
             || (s[0] == 0xED && Between(s, 1, 0x80, 0x9F))
             || (s[0] != 0xED && Between(s, 0, 0xE1, 0xEF) && Between(s, 1, 0x80, 0xBF)))
            && Between(s, 2, 0x80, 0xBF) then 3
    else if (|| (s[0] == 0xF0 && Between(s, 1, 0x90, 0xBF))
             || (Between(s, 0, 0xF1, 0xF3) && Between(s, 1, 0x80, 0xBF))
             || (s[0] == 0xF4 && Between(s, 1, 0x80, 0x8F)))
            && Between(s, 2, 0x80, 0xBF) && Between(s, 3, 0x80, 0xBF) then 4
    else 0
  }

  predicate ValidUtf8(s: Str) {
    s == [] || (Utf8Front(s) > 0 && ValidUtf8(s[Utf8Front(s)..]))
  }

  // ----- paths -----

  const BACKSLASH: byte := 92
  const SLASH: byte := 47
  const DOT: byte := 46

  /** ".dat", "ids" and "ids.dat" */
  const DAT: Str := [46, 100, 97, 116]
  const IDS: Str := [105, 100, 115]
  const IDS_DAT: Str := IDS + DAT

  predicate IsSep(b: byte) {
    b == BACKSLASH || b == SLASH
  }

  predicate NoSep(s: Str) {
    forall b <- s :: !IsSep(b)
  }

  /** Names a directory entry of its own: one path component, neither "." nor "..". */
  predicate ValidName(name: Str) {
    NoSep(name) && name != [] && name != [DOT] && name != [DOT, DOT]
  }

  function Join(dir: Str, name: Str): Str {
    dir + [BACKSLASH] + name
  }

  /** Length of the part of `p` that ends with its last separator. */
  function SepEnd(p: Str): (n: nat)
    ensures n <= |p|
  {
    if p == [] then 0
    else if IsSep(p[|p| - 1]) then |p|
    else SepEnd(p[..|p| - 1])
  }

  function FileName(p: Str): Str {
    p[SepEnd(p)..]
  }

  function ParentPath(p: Str): (dir: Str)
    ensures SepEnd(p) > 0 ==> |dir| < |p|
  {
    if SepEnd(p) == 0 then [] else p[..SepEnd(p) - 1]
  }

  lemma {:induction false} SepEndJoin(dir: Str, name: Str)
    requires NoSep(name)
    ensures SepEnd(Join(dir, name)) == |dir| + 1
  {
    var p := Join(dir, name);
    if name != [] {
      var short := name[..|name| - 1];
      assert p[..|p| - 1] == Join(dir, short);
      assert p[|p| - 1] == name[|name| - 1];
      assert NoSep(short);
      SepEndJoin(dir, short);
    }
  }

  /** Splitting a path undoes joining it with a name free of separators. */
  lemma JoinSplits(dir: Str, name: Str)
    requires NoSep(name)
    ensures FileName(Join(dir, name)) == name
    ensures ParentPath(Join(dir, name)) == dir
    ensures SepEnd(Join(dir, name)) > 0
  {
    SepEndJoin(dir, name);
  }

  /** `q` is `p` or lies somewhere below it. */
  predicate Under(p: Str, q: Str)
    decreases |q|
  {
    q == p || (SepEnd(q) > 0 && Under(p, ParentPath(q)))
  }

  lemma {:induction false} UnderIsLonger(p: Str, q: Str)
    requires Under(p, q)
    ensures |p| <= |q|
    decreases |q|
  {
    if q != p {
      UnderIsLonger(p, ParentPath(q));
    }
  }

  lemma {:induction false} UnderIsPrefix(p: Str, q: Str)
    requires Under(p, q)
    ensures p <= q
    decreases |q|
  {
    if q != p {
      UnderIsPrefix(p, ParentPath(q));
    }
  }

  lemma {:induction false} UnderTransitive(p: Str, q: Str, r: Str)
    requires Under(p, q) && Under(q, r)
    ensures Under(p, r)
    decreases |r|
  {
    if r != q {
      UnderTransitive(p, q, ParentPath(r));
    }
  }

  /** What lies under two paths has one of them under the other. */
  lemma {:induction false} UnderBoth(a: Str, b: Str, x: Str)
    requires Under(a, x) && Under(b, x)
    ensures Under(a, b) || Under(b, a)
    decreases |x|
  {
    if x != a && x != b {
      UnderBoth(a, b, ParentPath(x));
    }
  }

  /** Two names in one directory have nothing in common below. */
  lemma NamesApartBelow(dir: Str, was: Str, name: Str, x: Str)
    requires NoSep(was) && NoSep(name) && was != name && Under(Join(dir, was), x)
    ensures !Under(Join(dir, name), x)
  {
    if Under(Join(dir, name), x) {
      UnderBoth(Join(dir, was), Join(dir, name), x);
      JoinSplits(dir, was);
      JoinSplits(dir, name);
      if Under(Join(dir, was), Join(dir, name)) {
        UnderIsLonger(Join(dir, was), dir);
      } else {
        UnderIsLonger(Join(dir, name), dir);
      }
    }
  }
}
