/** The two string operations the search boxes use: `toLowerCase` and `includes`. */
module Text {

  /** Lower-case mapping of one character: the ASCII capitals and the Latin-1
      capitals (U+00C0 to U+00DE, except the multiplication sign U+00D7) move to
      their small letters, 32 code points higher; every other character stays. */
  function LowerChar(c: char): char
  {
    if 'A' <= c <= 'Z' then (c as int + 32) as char
    else if 'À' <= c <= 'Þ' && c != '×' then (c as int + 32) as char
    else c
  }

  /** `s.toLowerCase()`, character by character. */
  function Lower(s: string): (r: string)
    ensures |r| == |s|
    ensures forall i {:trigger r[i]} :: 0 <= i < |s| ==> r[i] == LowerChar(s[i])
  {
    if s == [] then [] else Lower(s[..|s| - 1]) + [LowerChar(s[|s| - 1])]
  }

  /** `needle` occurs in `hay` starting at position `i`. */
  predicate PieceAt(hay: string, needle: string, i: int)
    requires 0 <= i <= |hay| - |needle|
  {
    hay[i..i + |needle|] == needle
  }

  /** `hay.includes(needle)`: `needle` occurs as a contiguous piece of `hay`. */
  predicate Contains(hay: string, needle: string)
  {
    exists i :: 0 <= i <= |hay| - |needle| && PieceAt(hay, needle, i)
  }

  /** Every string includes the empty string. */
  lemma ContainsEmpty(hay: string)
    ensures Contains(hay, "")
  {
    assert PieceAt(hay, "", 0);
  }

  /** `includes` is transitive: a piece of a piece of `c` is a piece of `c`. */
  lemma ContainsTransitive(a: string, b: string, c: string)
    requires Contains(b, a) && Contains(c, b)
    ensures Contains(c, a)
  {
    var i :| 0 <= i <= |b| - |a| && PieceAt(b, a, i);
    var j :| 0 <= j <= |c| - |b| && PieceAt(c, b, j);
    assert b == c[j..j + |b|];
    forall k | 0 <= k < |a|
      ensures c[j + i..j + i + |a|][k] == a[k]
    {
      assert a[k] == b[i + k] == c[j + i + k];
    }
    assert PieceAt(c, a, j + i);
  }

  /** Lower-casing commutes with taking a slice. */
  lemma LowerSlice(s: string, i: int, j: int)
    requires 0 <= i <= j <= |s|
    ensures Lower(s)[i..j] == Lower(s[i..j])
  {
    var l, t := Lower(s), s[i..j];
    var a, b := l[i..j], Lower(t);
    assert |a| == |b|;
    forall k | 0 <= k < j - i
      ensures a[k] == b[k]
    {
      assert a[k] == l[i + k] == LowerChar(s[i + k]);
      assert b[k] == LowerChar(t[k]);
      assert t[k] == s[i + k];
    }
  }

  /** Lower-casing preserves `includes`: if `t` is a piece of `u`, the
      lower-cased `t` is a piece of the lower-cased `u`. */
  lemma LowerContains(u: string, t: string)
    requires Contains(u, t)
    ensures Contains(Lower(u), Lower(t))
  {
    var i :| 0 <= i <= |u| - |t| && PieceAt(u, t, i);
    LowerSlice(u, i, i + |t|);
    assert PieceAt(Lower(u), Lower(t), i);
  }
}
