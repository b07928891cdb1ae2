/**
 * The parts of Python's `str` behaviour that the expense core relies on:
 * `isspace` (the whitespace set shared by `str.strip()` and the `\s` class of
 * `re`), `strip()`, `lower()` restricted to ASCII letters, and the substring
 * test `p in s`.
 */
module Text {

  /** Python's `str.isspace()` for one character: the ASCII controls TAB..CR,
    * the four information separators, SPACE, NEL, NO-BREAK SPACE and the
    * Unicode space separators and line/paragraph separators. */
  predicate IsSpace(c: char) {
    var n := c as int;
    (9 <= n <= 13) || (28 <= n <= 32) || n == 0x85 || n == 0xA0 || n == 0x1680
    || (0x2000 <= n <= 0x200A) || n == 0x2028 || n == 0x2029 || n == 0x202F
    || n == 0x205F || n == 0x3000
  }

  predicate IsUpper(c: char) { 'A' <= c <= 'Z' }

  /** True when every character of `s` is whitespace (also for the empty string). */
  predicate AllSpace(s: string) {
    forall i :: 0 <= i < |s| ==> IsSpace(s[i])
  }

  /** Leading whitespace removed. */
  function TrimLeft(s: string): (r: string)
    ensures |r| <= |s| && r == s[|s| - |r|..]
    ensures r == [] || !IsSpace(r[0])
    ensures AllSpace(s[..|s| - |r|])
  {
    if s != [] && IsSpace(s[0]) then TrimLeft(s[1..]) else s
  }

  /** Trailing whitespace removed. */
  function TrimRight(s: string): (r: string)
    ensures |r| <= |s| && r == s[..|r|]
    ensures r == [] || !IsSpace(r[|r| - 1])
    ensures AllSpace(s[|r|..])
  {
    if s != [] && IsSpace(s[|s| - 1]) then TrimRight(s[..|s| - 1]) else s
  }

  /** Python's `s.strip()` with no argument. */
  function Strip(s: string): (r: string)
    ensures r == [] || (!IsSpace(r[0]) && !IsSpace(r[|r| - 1]))
  {
    TrimRight(TrimLeft(s))
  }

  /** `s.strip()` is empty exactly when `s` holds nothing but whitespace,
    * so `bool(s.strip())` means "s has a non-whitespace character". */
  lemma StripEmptyIffAllSpace(s: string)
    ensures Strip(s) == [] <==> AllSpace(s)
  {
    var l := TrimLeft(s);
    var k := |s| - |l|;
    if Strip(s) == [] {
      assert AllSpace(l[0..]);
      forall i | 0 <= i < |s| ensures IsSpace(s[i]) {
        if i < k {
          assert s[..k][i] == s[i];
        } else {
          assert l[0..][i - k] == s[i];
        }
      }
    } else {
      var r := Strip(s);
      assert r == l[..|r|] && r[0] == s[k];
    }
  }

  /** Strip keeps a contiguous middle part and removes only whitespace. */
  lemma StripIsTrimmedInfix(s: string)
    ensures exists i, j :: 0 <= i <= j <= |s| && Strip(s) == s[i..j]
                        && AllSpace(s[..i]) && AllSpace(s[j..])
  {
    var l := TrimLeft(s);
    var i := |s| - |l|;
    var r := TrimRight(l);
    var j := i + |r|;
    assert r == s[i..j];
    assert AllSpace(s[j..]) by {
      assert s[j..] == l[|r|..];
    }
  }

  function LowerChar(c: char): (d: char)
  {
    if IsUpper(c) then (c as int + 32) as char else c
  }

  /** Python's `s.lower()` for ASCII letters; every other character is kept. */
  function Lower(s: string): (r: string)
    ensures |r| == |s|
    ensures forall i :: 0 <= i < |s| ==> r[i] == LowerChar(s[i])
  {
    seq(|s|, i requires 0 <= i < |s| => LowerChar(s[i]))
  }

  /** Lowering changes only A..Z, never creates an upper-case letter and
    * never turns a character into or out of whitespace. */
  lemma LowerCharFacts(c: char)
    ensures !IsUpper(LowerChar(c))
    ensures IsSpace(LowerChar(c)) <==> IsSpace(c)
    ensures LowerChar(c) != c <==> IsUpper(c)
  {
  }

  lemma LowerIdempotent(s: string)
    ensures Lower(Lower(s)) == Lower(s)
  {
    assert forall i :: 0 <= i < |s| ==> Lower(Lower(s))[i] == Lower(s)[i];
  }

  /** Two strings lower to the same string exactly when they have the same
    * length and agree character by character up to ASCII case. */
  lemma LowerEqIffCaseless(a: string, b: string)
    ensures Lower(a) == Lower(b) <==>
      (|a| == |b| && forall i :: 0 <= i < |a| ==> LowerChar(a[i]) == LowerChar(b[i]))
  {
    if |a| == |b| && forall i :: 0 <= i < |a| ==> LowerChar(a[i]) == LowerChar(b[i]) {
      assert forall i :: 0 <= i < |a| ==> Lower(a)[i] == Lower(b)[i];
    }
  }

  /** Python's `p in s` for strings: `p` occurs in `s` as a contiguous part. */
  predicate IsInfix(p: string, s: string)
  {
    p <= s || (s != [] && IsInfix(p, s[1..]))
  }

  /** `p` is found in `s` starting at offset `i`. */
  predicate OccursAt(p: string, s: string, i: int)
  {
    0 <= i <= |s| - |p| && s[i..i + |p|] == p
  }

  /** `p in s` holds exactly when `p` is found at some offset of `s`. */
  lemma {:induction false} IsInfixIffAtOffset(p: string, s: string)
    ensures IsInfix(p, s) <==> exists i :: OccursAt(p, s, i)
  {
    if p <= s {
      assert OccursAt(p, s, 0);
    } else if s == [] {
    } else {
      IsInfixIffAtOffset(p, s[1..]);
      assert !OccursAt(p, s, 0);
      forall i | OccursAt(p, s[1..], i) ensures OccursAt(p, s, i + 1) {
        assert s[1..][i..i + |p|] == s[i + 1..i + 1 + |p|];
      }
      forall i | OccursAt(p, s, i) ensures OccursAt(p, s[1..], i - 1) {
        assert s[1..][i - 1..i - 1 + |p|] == s[i..i + |p|];
      }
    }
  }

  /** The empty string occurs in every string. */
  lemma EmptyIsInfix(s: string)
    ensures IsInfix("", s)
  {
  }

  /** `s.find(c)`, except that a missing character gives `|s|` instead of -1. */
  function Find(s: string, c: char): (k: nat)
    ensures k <= |s| && (k < |s| ==> s[k] == c)
    ensures forall m :: 0 <= m < k ==> s[m] != c
  {
    if s == [] then 0 else if s[0] == c then 0 else 1 + Find(s[1..], c)
  }

  /** `s.rfind(c)`: the last position of `c`, or -1. */
  function RFind(s: string, c: char): (k: int)
    ensures -1 <= k < |s| && (k >= 0 ==> s[k] == c)
    ensures forall m :: k < m < |s| ==> s[m] != c
  {
    if s == [] then -1 else if s[|s| - 1] == c then |s| - 1 else RFind(s[..|s| - 1], c)
  }
}
