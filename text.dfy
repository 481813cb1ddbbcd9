/**
  The three string operations the email code relies on, restricted to what the
  model needs: ASCII lower-casing (`toLowerCase`), substring search
  (`includes`) and splitting on one character (`split`).
 */
module Text {

  predicate IsUpperAscii(c: char) {
    'A' <= c <= 'Z'
  }

  predicate IsLowerAscii(c: char) {
    'a' <= c <= 'z'
  }

  function LowerChar(c: char): char {
    if IsUpperAscii(c) then (c as int + 32) as char else c
  }

  function UpperChar(c: char): char {
    if IsLowerAscii(c) then (c as int - 32) as char else c
  }

  /** `s.toLowerCase()` on ASCII letters: every capital becomes its small
      letter, every other character is kept. */
  function Lower(s: string): (r: string)
    ensures |r| == |s|
    ensures forall i :: 0 <= i < |s| ==> !IsUpperAscii(r[i])
    ensures forall i :: 0 <= i < |s| && !IsUpperAscii(s[i]) ==> r[i] == s[i]
    ensures forall i :: 0 <= i < |s| && IsUpperAscii(s[i]) ==> r[i] as int == s[i] as int + 32
  {
    seq(|s|, i requires 0 <= i < |s| => LowerChar(s[i]))
  }

  /** `s.toUpperCase()` on ASCII letters; used to state case-insensitivity. */
  function Upper(s: string): (r: string)
    ensures |r| == |s|
    ensures forall i :: 0 <= i < |s| ==> !IsLowerAscii(r[i])
  {
    seq(|s|, i requires 0 <= i < |s| => UpperChar(s[i]))
  }

  /** Lower-casing commutes with concatenation. */
  lemma LowerAppend(a: string, b: string)
    ensures Lower(a + b) == Lower(a) + Lower(b)
  {
    assert forall i :: 0 <= i < |a + b| ==> Lower(a + b)[i] == (Lower(a) + Lower(b))[i];
  }

  /** Lower-casing an upper-cased string gives the lower-cased original:
      the two spellings are the same up to letter case. */
  lemma LowerUpper(s: string)
    ensures Lower(Upper(s)) == Lower(s)
  {
    assert forall i :: 0 <= i < |s| ==> Lower(Upper(s))[i] == Lower(s)[i];
  }

  /** `w` sits in `t` at position `i`. */
  ghost predicate OccursAt(t: string, w: string, i: int) {
    0 <= i && i + |w| <= |t| && t[i..i + |w|] == w
  }

  lemma OccursShift(t: string, w: string, i: int)
    requires |t| > 0 && i >= 0
    ensures OccursAt(t[1..], w, i) <==> OccursAt(t, w, i + 1)
  {
    if 0 <= i && i + |w| <= |t[1..]| {
      assert t[1..][i..i + |w|] == t[i + 1..i + 1 + |w|];
    }
  }

  /** `t.includes(w)`: tries every starting position from left to right. */
  function Includes(t: string, w: string): (r: bool)
    ensures r <==> exists i :: OccursAt(t, w, i)
    decreases |t|
  {
    if |w| <= |t| && t[..|w|] == w then
      assert OccursAt(t, w, 0);
      true
    else if |t| <= |w| then
      assert forall i :: !OccursAt(t, w, i) by {
        forall i | 0 <= i && i + |w| <= |t| ensures !OccursAt(t, w, i) {
          assert i == 0;
          assert t[..|w|] == t[0..|w|];
        }
      }
      false
    else
      var r := Includes(t[1..], w);
      assert !OccursAt(t, w, 0) by {
        assert t[..|w|] == t[0..|w|];
      }
      forall i | i >= 0 ensures OccursAt(t[1..], w, i) <==> OccursAt(t, w, i + 1) {
        OccursShift(t, w, i);
      }
      assert r ==> exists i :: OccursAt(t, w, i) by {
        if r {
          var i :| OccursAt(t[1..], w, i);
          assert OccursAt(t, w, i + 1);
        }
      }
      assert (exists i :: OccursAt(t, w, i)) ==> r by {
        if exists i :: OccursAt(t, w, i) {
          var i :| OccursAt(t, w, i);
          assert i != 0;
          assert OccursAt(t[1..], w, i - 1);
        }
      }
      r
  }

  /** Inside an occurrence of `w` at `i`, each character of `t` is the
      matching character of `w`. */
  lemma OccurrenceCovers(t: string, w: string, i: int, j: int)
    requires OccursAt(t, w, i)
    requires i <= j < i + |w|
    ensures t[j] == w[j - i]
  {
    assert t[i..i + |w|][j - i] == t[j];
  }

  lemma OccursInLeft(a: string, b: string, w: string, i: int)
    requires OccursAt(a + b, w, i)
    requires i + |w| <= |a|
    ensures OccursAt(a, w, i)
  {
    assert (a + b)[i..i + |w|] == a[i..i + |w|];
  }

  lemma OccursInRight(a: string, b: string, w: string, i: int)
    requires OccursAt(a + b, w, i)
    requires i >= |a|
    ensures OccursAt(b, w, i - |a|)
  {
    assert (a + b)[i..i + |w|] == b[i - |a|..i - |a| + |w|];
  }

  lemma OccursStillInLeft(a: string, b: string, w: string, i: int)
    requires OccursAt(a, w, i)
    ensures OccursAt(a + b, w, i)
  {
    assert (a + b)[i..i + |w|] == a[i..i + |w|];
  }

  lemma OccursStillInRight(a: string, b: string, w: string, i: int)
    requires OccursAt(b, w, i)
    ensures OccursAt(a + b, w, |a| + i)
  {
    assert (a + b)[|a| + i..|a| + i + |w|] == b[i..i + |w|];
  }

  /** A word without the separator cannot straddle the separator of
      `a + [sep] + b`: it is found in `a` or in `b`. */
  lemma {:induction false} IncludesAcrossSeparator(a: string, sep: char, b: string, w: string)
    requires sep !in w
    ensures Includes(a + [sep] + b, w) <==> Includes(a, w) || Includes(b, w)
  {
    var t := a + [sep] + b;
    if Includes(t, w) {
      var i :| OccursAt(t, w, i);
      if i + |w| <= |a| {
        OccursInLeft(a, [sep] + b, w, i);
        assert t == a + ([sep] + b);
      } else if i >= |a| + 1 {
        OccursInRight(a + [sep], b, w, i);
      } else {
        OccurrenceCovers(t, w, i, |a|);
        assert false;
      }
    }
    if Includes(a, w) {
      var i :| OccursAt(a, w, i);
      OccursStillInLeft(a, [sep] + b, w, i);
      assert t == a + ([sep] + b);
    }
    if Includes(b, w) {
      var i :| OccursAt(b, w, i);
      OccursStillInRight(a + [sep], b, w, i);
    }
  }

  /** A word with a letter that the text lacks is not in the text. */
  lemma LetterMissing(t: string, w: string, j: nat)
    requires j < |w| && w[j] !in t
    ensures !Includes(t, w)
  {
    if Includes(t, w) {
      var i :| OccursAt(t, w, i);
      OccurrenceCovers(t, w, i, i + j);
      assert false;
    }
  }

  /** `s.indexOf(x)`: the first position of `x` in `s`, or -1 when there is
      none. */
  function IndexOf<T(==)>(s: seq<T>, x: T): (k: int)
    ensures -1 <= k < |s|
    ensures k == -1 <==> x !in s
    ensures k >= 0 ==> s[k] == x && x !in s[..k]
  {
    if s == [] then -1
    else if s[0] == x then 0
    else
      var k := IndexOf(s[1..], x);
      if k == -1 then -1
      else
        assert s[..k + 1] == [s[0]] + s[1..][..k];
        k + 1
  }

  /** The inverse of `Split`: the fields glued back with `sep` in between. */
  function Join(fields: seq<string>, sep: char): string
    requires |fields| >= 1
    decreases |fields|
  {
    if |fields| == 1 then fields[0] else fields[0] + [sep] + Join(fields[1..], sep)
  }

  /** `s.split(sep)` for a one-character separator: the maximal runs between
      separators, empty runs included, and at least one field. */
  function Split(s: string, sep: char): (fields: seq<string>)
    ensures |fields| >= 1
    ensures forall i :: 0 <= i < |fields| ==> sep !in fields[i]
    decreases |s|
  {
    if sep !in s then [s]
    else
      var k := IndexOf(s, sep);
      [s[..k]] + Split(s[k + 1..], sep)
  }

  /** Joining the fields of a split with the separator gives the string back. */
  lemma {:induction false} JoinSplit(s: string, sep: char)
    ensures Join(Split(s, sep), sep) == s
    decreases |s|
  {
    if sep in s {
      var k := IndexOf(s, sep);
      var rest := Split(s[k + 1..], sep);
      var fields := [s[..k]] + rest;
      assert Split(s, sep) == fields;
      assert fields[1..] == rest;
      JoinSplit(s[k + 1..], sep);
      assert s == s[..k] + [sep] + s[k + 1..];
    }
  }

  /** Splitting at the first separator: the first field is what precedes it. */
  lemma SplitAtFirst(s: string, sep: char, k: nat)
    requires k < |s| && s[k] == sep && sep !in s[..k]
    ensures Split(s, sep) == [s[..k]] + Split(s[k + 1..], sep)
  {
    var j := IndexOf(s, sep);
    assert j == k;
  }

  /** Splitting "x y" where x has no separator gives x, then the fields of y. */
  lemma SplitAfterField(x: string, sep: char, y: string)
    requires sep !in x
    ensures Split(x + [sep] + y, sep) == [x] + Split(y, sep)
  {
    var h := x + [sep] + y;
    assert h[..|x|] == x && h[|x|] == sep && h[|x| + 1..] == y;
    SplitAtFirst(h, sep, |x|);
  }

  /** Split undoes Join whenever no field holds the separator, so Split is the
      only sep-free decomposition of a string. */
  lemma {:induction false} SplitJoin(fields: seq<string>, sep: char)
    requires |fields| >= 1
    requires forall i :: 0 <= i < |fields| ==> sep !in fields[i]
    ensures Split(Join(fields, sep), sep) == fields
    decreases |fields|
  {
    if |fields| > 1 {
      var f := fields[0];
      var joined := Join(fields[1..], sep);
      assert Join(fields, sep) == f + [sep] + joined;
      SplitAfterField(f, sep, joined);
      SplitJoin(fields[1..], sep);
      assert fields == [f] + fields[1..];
    }
  }
}
