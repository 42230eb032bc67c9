/** Python's `str.upper` and `str.strip` (no arguments) over the ASCII range:
    upper-casing maps `a`-`z` to `A`-`Z` and leaves every other character
    alone; stripping removes the characters `str.isspace` accepts from both
    ends, one character at a time, as CPython's loop does. */
module AsciiText {

  /** `str.isspace` on ASCII: HT, LF, VT, FF, CR (9-13), the four information
      separators (28-31) and the space (32). */
  predicate IsSpace(c: char) {
    var n := c as int;
    n == 32 || 9 <= n <= 13 || 28 <= n <= 31
  }

  predicate IsLower(c: char) {
    'a' <= c <= 'z'
  }

  predicate NoLower(s: string) {
    forall i :: 0 <= i < |s| ==> !IsLower(s[i])
  }

  predicate AllSpace(s: string) {
    forall i :: 0 <= i < |s| ==> IsSpace(s[i])
  }

  /** Neither end of `s` is a whitespace character. */
  predicate NoOuterSpace(s: string) {
    s == [] || (!IsSpace(s[0]) && !IsSpace(s[|s| - 1]))
  }

  function UpperChar(c: char): (u: char)
    ensures !IsLower(u)
    ensures !IsLower(c) ==> u == c
    ensures IsLower(c) ==> 'A' <= u <= 'Z' && u as int == c as int - 32
    ensures IsSpace(u) <==> IsSpace(c)
  {
    if IsLower(c) then (c as int - 32) as char else c
  }

  /** `s.upper()`. */
  function Upper(s: string): (r: string)
    ensures |r| == |s| && NoLower(r)
    ensures forall i :: 0 <= i < |s| && !IsLower(s[i]) ==> r[i] == s[i]
    ensures forall i :: 0 <= i < |s| && IsLower(s[i]) ==> r[i] as int == s[i] as int - 32
    ensures forall i :: 0 <= i < |s| ==> (IsSpace(r[i]) <==> IsSpace(s[i]))
  {
    seq(|s|, i requires 0 <= i < |s| => UpperChar(s[i]))
  }

  /** Removes leading whitespace: what is left is a suffix of `s`, and only
      whitespace was dropped. */
  function TrimStart(s: string): (r: string)
    ensures |r| <= |s| && r == s[|s| - |r|..]
    ensures forall j :: 0 <= j < |s| - |r| ==> IsSpace(s[j])
    ensures r == [] || !IsSpace(r[0])
    decreases |s|
  {
    if |s| > 0 && IsSpace(s[0]) then TrimStart(s[1..]) else s
  }

  /** Removes trailing whitespace: what is left is a prefix of `s`, and only
      whitespace was dropped. */
  function TrimEnd(s: string): (r: string)
    ensures |r| <= |s| && r == s[..|r|]
    ensures forall j :: |r| <= j < |s| ==> IsSpace(s[j])
    ensures r == [] || !IsSpace(r[|r| - 1])
    decreases |s|
  {
    if |s| > 0 && IsSpace(s[|s| - 1]) then TrimEnd(s[..|s| - 1]) else s
  }

  /** `s.strip()`. */
  function Strip(s: string): (r: string)
    ensures |r| <= |s| && NoOuterSpace(r)
    ensures NoLower(s) ==> NoLower(r)
    ensures NoOuterSpace(s) ==> r == s
  {
    var t := TrimStart(s);
    assert NoLower(s) ==> NoLower(t) by {
      if NoLower(s) {
        forall i | 0 <= i < |t| ensures !IsLower(t[i]) {
          assert t[i] == s[|s| - |t| + i];
        }
      }
    }
    TrimEnd(t)
  }

  lemma UpperOfNoLower(s: string)
    requires NoLower(s)
    ensures Upper(s) == s
  {
    assert forall i :: 0 <= i < |s| ==> Upper(s)[i] == s[i];
  }

  lemma {:induction false} UpperConcat(a: string, b: string)
    ensures Upper(a + b) == Upper(a) + Upper(b)
  {
    var l, r := Upper(a + b), Upper(a) + Upper(b);
    forall i | 0 <= i < |a + b| ensures l[i] == r[i] {
      if i < |a| {
        assert (a + b)[i] == a[i];
      } else {
        assert (a + b)[i] == b[i - |a|];
      }
    }
  }

  lemma UpperOfSpaces(p: string)
    requires AllSpace(p)
    ensures Upper(p) == p
  {
    forall i | 0 <= i < |p| ensures !IsLower(p[i]) {
      assert IsSpace(p[i]);
    }
    UpperOfNoLower(p);
  }

  /** Leading whitespace does not change where `TrimStart` stops. */
  lemma {:induction false} TrimStartAfterSpaces(p: string, x: string)
    requires AllSpace(p)
    ensures TrimStart(p + x) == TrimStart(x)
    decreases |p|
  {
    if p != [] {
      assert (p + x)[0] == p[0] && IsSpace(p[0]);
      assert (p + x)[1..] == p[1..] + x;
      TrimStartAfterSpaces(p[1..], x);
    } else {
      assert p + x == x;
    }
  }

  /** Trailing whitespace does not change where `TrimEnd` stops. */
  lemma {:induction false} TrimEndBeforeSpaces(x: string, q: string)
    requires AllSpace(q)
    ensures TrimEnd(x + q) == TrimEnd(x)
    decreases |q|
  {
    if q != [] {
      var y := x + q;
      assert y[|y| - 1] == q[|q| - 1];
      assert y[..|y| - 1] == x + q[..|q| - 1];
      TrimEndBeforeSpaces(x, q[..|q| - 1]);
    } else {
      assert x + q == x;
    }
  }

  /** Once a non-space character has been reached, `TrimStart` keeps everything after it. */
  lemma {:induction false} TrimStartKeepsTail(x: string, q: string)
    requires !AllSpace(x)
    ensures TrimStart(x + q) == TrimStart(x) + q
    decreases |x|
  {
    assert (x + q)[0] == x[0];
    if IsSpace(x[0]) {
      assert !AllSpace(x[1..]) by {
        var i :| 0 <= i < |x| && !IsSpace(x[i]);
        assert x[1..][i - 1] == x[i];
      }
      assert (x + q)[1..] == x[1..] + q;
      TrimStartKeepsTail(x[1..], q);
    }
  }

  lemma {:induction false} TrimStartOfSpaces(s: string)
    requires AllSpace(s)
    ensures TrimStart(s) == []
    decreases |s|
  {
    if s != [] {
      assert IsSpace(s[0]);
      TrimStartOfSpaces(s[1..]);
    }
  }

  /** Whitespace around `x` is removed by `strip`, whatever `x` is. */
  lemma StripAround(p: string, x: string, q: string)
    requires AllSpace(p) && AllSpace(q)
    ensures Strip(p + x + q) == Strip(x)
  {
    assert p + x + q == p + (x + q);
    TrimStartAfterSpaces(p, x + q);
    if AllSpace(x) {
      assert AllSpace(x + q) by {
        forall i | 0 <= i < |x + q| ensures IsSpace((x + q)[i]) {
          if i < |x| { assert (x + q)[i] == x[i]; } else { assert (x + q)[i] == q[i - |x|]; }
        }
      }
      TrimStartOfSpaces(x + q);
      TrimStartOfSpaces(x);
    } else {
      TrimStartKeepsTail(x, q);
      TrimEndBeforeSpaces(TrimStart(x), q);
    }
  }
}
