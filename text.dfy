/**
  The two string operations the header tests are built from: Python's
  `str.lower` and the substring test `word in text`.
*/
module Text {

  /** Lower-casing of one character, as `str.lower` does it for the scripts the
      survey headers are written in: Latin A-Z, the Cyrillic capitals
      А..Я (U+0410..U+042F) and the Cyrillic capitals Ѐ..Џ (U+0400..U+040F, Ё among them).
      Every other character is left as it is. */
  function LowerChar(c: char): char
  {
    if 'A' <= c <= 'Z' then (c as int + 32) as char
    else if '\U{0410}' <= c <= '\U{042F}' then (c as int + 32) as char
    else if '\U{0400}' <= c <= '\U{040F}' then (c as int + 80) as char
    else c
  }

  /** Lower-casing an already lower-cased character changes nothing. */
  lemma LowerCharSettles()
    ensures forall c :: LowerChar(LowerChar(c)) == LowerChar(c)
  {
    forall c: char
      ensures LowerChar(LowerChar(c)) == LowerChar(c)
    {
      if 'A' <= c <= 'Z' {
      } else if '\U{0410}' <= c <= '\U{042F}' {
      } else if '\U{0400}' <= c <= '\U{040F}' {
      }
    }
  }

  /** `s.lower()`: character by character, so the length does not change; the
      result is lower-case, and a lower-case string is left as it is. */
  function Lower(s: string): (r: string)
    ensures |r| == |s|
    ensures IsLowerCase(r)
    ensures IsLowerCase(s) ==> r == s
  {
    LowerCharSettles();
    seq(|s|, i requires 0 <= i < |s| => LowerChar(s[i]))
  }

  /** `w` occurs in `s` starting at position `i`. */
  predicate OccursAt(s: string, w: string, i: int)
  {
    0 <= i <= |s| - |w| && s[i..i + |w|] == w
  }

  /** `w in s` for two Python strings: `w` occurs in `s` at some position. */
  predicate Contains(s: string, w: string)
    ensures Contains(s, w) ==> |w| <= |s|
    ensures w == [] ==> Contains(s, w)
  {
    assert w == [] ==> OccursAt(s, w, 0);
    exists i :: 0 <= i <= |s| - |w| && OccursAt(s, w, i)
  }

  /** A string all of whose characters are already lower-case. */
  predicate IsLowerCase(w: string)
  {
    forall i :: 0 <= i < |w| ==> LowerChar(w[i]) == w[i]
  }

  /** Lower-casing commutes with taking a slice. */
  lemma {:induction false} LowerSlice(s: string, i: int, j: int)
    requires 0 <= i <= j <= |s|
    ensures Lower(s)[i..j] == Lower(s[i..j])
  {
    forall k | 0 <= k < j - i
      ensures Lower(s)[i..j][k] == Lower(s[i..j])[k]
    {
      assert Lower(s)[i..j][k] == LowerChar(s[i + k]);
    }
  }

  /** A string that starts with `w` contains `w`. */
  lemma {:induction false} PrefixContained(s: string, w: string)
    requires |w| <= |s| && s[..|w|] == w
    ensures Contains(s, w)
  {
    assert OccursAt(s, w, 0);
  }

  /** The substring relation is transitive. */
  lemma {:induction false} ContainsTransitive(s: string, a: string, b: string)
    requires Contains(s, a) && Contains(a, b)
    ensures Contains(s, b)
  {
    var i :| 0 <= i <= |s| - |a| && OccursAt(s, a, i);
    var j :| 0 <= j <= |a| - |b| && OccursAt(a, b, j);
    forall k | 0 <= k < |b|
      ensures s[i + j..i + j + |b|][k] == b[k]
    {
      assert b[k] == a[j + k] == s[i..i + |a|][j + k];
    }
    assert OccursAt(s, b, i + j);
  }

  /** A header that contains a lower-case keyword verbatim also contains it
      once it has been lower-cased: a case-sensitive match implies the
      case-insensitive one. */
  lemma {:induction false} ContainsLowered(s: string, w: string)
    requires Contains(s, w) && IsLowerCase(w)
    ensures Contains(Lower(s), w)
  {
    var i :| 0 <= i <= |s| - |w| && OccursAt(s, w, i);
    LowerSlice(s, i, i + |w|);
    assert OccursAt(Lower(s), w, i);
  }

  /** A string that lacks one of the characters of `w` does not contain `w`. */
  lemma {:induction false} MissingCharNotContained(s: string, w: string, c: char)
    requires c in w && c !in s
    ensures !Contains(s, w)
  {
    forall i | 0 <= i <= |s| - |w|
      ensures !OccursAt(s, w, i)
    {
      var k :| 0 <= k < |w| && w[k] == c;
      assert s[i..i + |w|][k] == s[i + k] != c;
    }
  }
}
