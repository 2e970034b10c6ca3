/**
 * String helpers with the meaning the Java library gives them:
 * `lastIndexOf`, ASCII `toUpperCase`, decimal rendering of an int,
 * `File.getName` and `String.replace`.
 */
module Text {

  datatype Option<T> = None | Some(value: T)

  /** `s.lastIndexOf(c)`: the position of the last `c`, or -1. */
  function LastIndexOf(s: string, c: char): (i: int)
    ensures -1 <= i < |s|
    ensures i >= 0 ==> s[i] == c
    ensures forall j :: i < j < |s| ==> s[j] != c
  {
    if |s| == 0 then -1
    else if s[|s| - 1] == c then |s| - 1
    else LastIndexOf(s[..|s| - 1], c)
  }

  /** -1 exactly when there is no `c`. */
  lemma LastIndexAbsent(s: string, c: char)
    ensures LastIndexOf(s, c) == -1 <==> c !in s
  {
    if LastIndexOf(s, c) >= 0 {
      assert s[LastIndexOf(s, c)] == c;
    }
  }

  /** Any position holding the last `c` is the one LastIndexOf finds. */
  lemma LastIndexUnique(s: string, c: char, i: int)
    requires 0 <= i < |s| && s[i] == c
    requires forall j :: i < j < |s| ==> s[j] != c
    ensures LastIndexOf(s, c) == i
  {
  }

  /** The text after the last `c` (all of s when there is none), built
      from the end of the string: `s.substring(s.lastIndexOf(c) + 1)`. */
  function AfterLast(s: string, c: char): string {
    if |s| == 0 || s[|s| - 1] == c then ""
    else AfterLast(s[..|s| - 1], c) + [s[|s| - 1]]
  }

  /** AfterLast is the substring behind the position LastIndexOf finds. */
  lemma {:induction false} AfterLastSuffix(s: string, c: char)
    ensures AfterLast(s, c) == s[LastIndexOf(s, c) + 1..]
    decreases |s|
  {
    if |s| > 0 && s[|s| - 1] != c {
      var p := s[..|s| - 1];
      AfterLastSuffix(p, c);
      DropOfLast(s, LastIndexOf(p, c) + 1);
    }
  }

  lemma DropOfLast(s: string, j: int)
    requires 0 <= j < |s|
    ensures s[j..] == s[..|s| - 1][j..] + [s[|s| - 1]]
  {
  }

  /** The text after the last `c` holds no `c`, and nothing that s lacks. */
  lemma {:induction false} AfterLastWithout(s: string, c: char, x: char)
    requires x == c || x !in s
    ensures x !in AfterLast(s, c)
    decreases |s|
  {
    if |s| > 0 && s[|s| - 1] != c {
      var p := s[..|s| - 1];
      assert x == c || x !in p by {
        if x in p {
          var i :| 0 <= i < |p| && p[i] == x;
          assert s[i] == x;
        }
      }
      AfterLastWithout(p, c, x);
    }
  }

  /** The last `c` of `a + b` lies in `b` when `b` has one; otherwise all of
      `b` follows the last `c` of `a`. */
  lemma {:induction false} AfterLastAppend(a: string, b: string, c: char)
    ensures AfterLast(a + b, c) == if c in b then AfterLast(b, c) else AfterLast(a, c) + b
    decreases |b|
  {
    if b == [] {
      assert a + b == a;
    } else {
      var s := a + b;
      var q := b[..|b| - 1];
      var x := b[|b| - 1];
      assert s[..|s| - 1] == a + q && s[|s| - 1] == x;
      assert b == q + [x];
      if x == c {
        assert AfterLast(s, c) == "" && AfterLast(b, c) == "";
      } else {
        assert AfterLast(s, c) == AfterLast(a + q, c) + [x];
        assert AfterLast(b, c) == AfterLast(q, c) + [x];
        AfterLastAppend(a, q, c);
        assert c in b <==> c in q;
        if c !in q {
          AppendAssoc3(AfterLast(a, c), q, [x]);
        }
      }
    }
  }

  /** When `a` ends in `c` and `b` has none, what follows the last `c` of
      `x + (a + b)` is `b`. */
  lemma AfterLastBehind(x: string, a: string, b: string, c: char)
    requires |a| > 0 && a[|a| - 1] == c && c !in b
    ensures AfterLast(x + (a + b), c) == b
  {
    assert c in a + b by {
      assert (a + b)[|a| - 1] == c;
    }
    AfterLastAppend(x, a + b, c);
    AfterLastAppend(a, b, c);
    assert "" + b == b;
  }

  /** Without a `c` the whole string comes back. */
  lemma AfterLastNone(s: string, c: char)
    requires c !in s
    ensures AfterLast(s, c) == s
  {
    AfterLastAppend("", s, c);
    assert "" + s == s;
  }

  /** Java's `toUpperCase`, restricted to the ASCII letters. */
  function UpperChar(ch: char): char {
    if 'a' <= ch <= 'z' then (ch as int - 32) as char else ch
  }

  function Upper(s: string): (r: string)
    ensures |r| == |s|
    ensures forall i {:trigger r[i]} :: 0 <= i < |s| ==> r[i] == UpperChar(s[i])
  {
    if s == [] then [] else Upper(s[..|s| - 1]) + [UpperChar(s[|s| - 1])]
  }

  lemma UpperAppend(a: string, b: string)
    ensures Upper(a + b) == Upper(a) + Upper(b)
  {
  }

  /** Upper-casing changes letters only: '.', '/' and every other
      non-letter keep their places. */
  lemma UpperKeeps(s: string, c: char)
    requires !('a' <= c <= 'z') && !('A' <= c <= 'Z')
    ensures c in Upper(s) <==> c in s
  {
    if c in s {
      var i :| 0 <= i < |s| && s[i] == c;
      assert Upper(s)[i] == c;
    }
    if c in Upper(s) {
      var i :| 0 <= i < |s| && Upper(s)[i] == c;
      assert s[i] == c;
    }
  }

  lemma UpperIdempotent(s: string)
    ensures Upper(Upper(s)) == Upper(s)
  {
  }

  /** The decimal digit for d. */
  function Digit(d: nat): (ch: char)
    requires d < 10
    ensures '0' <= ch <= '9'
  {
    (48 + d) as char
  }

  predicate IsDigits(s: string) {
    forall i :: 0 <= i < |s| ==> '0' <= s[i] <= '9'
  }

  /** `String.valueOf(n)` for a non-negative int. */
  function NatStr(n: nat): (s: string)
    ensures |s| >= 1 && IsDigits(s)
    decreases n
  {
    if n < 10 then [Digit(n)] else NatStr(n / 10) + [Digit(n % 10)]
  }

  function ParseNat(s: string): nat
    requires IsDigits(s)
  {
    if s == [] then 0 else ParseNat(s[..|s| - 1]) * 10 + (s[|s| - 1] as int - 48)
  }

  /** Decimal rendering is injective: the digits read back as the number. */
  lemma {:induction false} ParseNatStr(n: nat)
    ensures ParseNat(NatStr(n)) == n
    decreases n
  {
    if n >= 10 {
      var s := NatStr(n);
      assert s[..|s| - 1] == NatStr(n / 10);
      ParseNatStr(n / 10);
    }
  }

  lemma NatStrInjective(m: nat, n: nat)
    requires NatStr(m) == NatStr(n)
    ensures m == n
  {
    ParseNatStr(m);
    ParseNatStr(n);
  }

  lemma DigitsHaveNo(s: string, c: char)
    requires IsDigits(s) && !('0' <= c <= '9')
    ensures c !in s
  {
  }

  /** `new File(s).getName()`: what follows the last '/'. */
  function BaseName(s: string): string {
    AfterLast(s, '/')
  }

  /** Regrouping concatenations, stated on plain strings so that callers
      need not re-prove it on the terms they build. */
  lemma AppendAssoc3(a: string, b: string, c: string)
    ensures (a + b) + c == a + (b + c)
  {
  }

  lemma AppendAssoc4(a: string, b: string, c: string, d: string)
    ensures ((a + b) + c) + d == a + ((b + c) + d)
  {
  }

  lemma AppendAssoc5(a: string, b: string, c: string, d: string, e: string)
    ensures (((a + b) + c) + d) + e == a + (b + ((c + d) + e))
  {
  }

  /** `s.replace(pat, rep)`: every non-overlapping occurrence of `pat`,
      scanning from the left, is replaced. */
  function ReplaceAll(s: string, pat: string, rep: string): string
    requires |pat| > 0
    decreases |s|
  {
    if |s| < |pat| then s
    else if s[..|pat|] == pat then rep + ReplaceAll(s[|pat|..], pat, rep)
    else [s[0]] + ReplaceAll(s[1..], pat, rep)
  }

  /** Does `pat` occur in `s` at position i? */
  predicate OccursAt(s: string, pat: string, i: nat) {
    i + |pat| <= |s| && s[i..i + |pat|] == pat
  }

  /** Dropping the first character shifts every occurrence by one. */
  lemma OccursShift(s: string, pat: string, i: nat)
    requires |s| > 0
    ensures OccursAt(s[1..], pat, i) <==> OccursAt(s, pat, i + 1)
  {
    if i + 1 + |pat| <= |s| {
      assert s[1..][i..i + |pat|] == s[i + 1..i + 1 + |pat|];
    }
  }

  /** When `pat` occurs in `f + pat` only as its suffix, replacing it
      rewrites exactly that suffix. */
  lemma {:induction false} ReplaceOnlySuffix(f: string, pat: string, rep: string)
    requires |pat| > 0
    requires forall i :: 0 <= i < |f| ==> !OccursAt(f + pat, pat, i)
    ensures ReplaceAll(f + pat, pat, rep) == f + rep
    decreases |f|
  {
    var s := f + pat;
    if |f| == 0 {
      assert s == pat && s[..|pat|] == pat;
      assert s[|pat|..] == [];
    } else {
      assert !OccursAt(s, pat, 0);
      assert s[..|pat|] == s[0..|pat|];
      var g := f[1..];
      assert s[1..] == g + pat;
      forall i | 0 <= i < |g| ensures !OccursAt(g + pat, pat, i) {
        OccursShift(s, pat, i);
      }
      ReplaceOnlySuffix(g, pat, rep);
      assert f + rep == [s[0]] + (g + rep);
    }
  }
}
