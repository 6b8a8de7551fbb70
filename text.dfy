/**
 * The string helpers of Go's standard library that the router and the
 * prompt assembly rely on: strings.TrimSpace, strings.Contains,
 * strings.Join and the decimal rendering of fmt's %d verb.
 * A Go string is modelled as its sequence of code points.
 */
module Text {

  /** unicode.IsSpace: the Latin-1 spaces plus the Unicode White_Space property. */
  predicate IsSpace(c: char) {
    var n := c as int;
    (0x09 <= n <= 0x0D) || n == 0x20 || n == 0x85 || n == 0xA0 || n == 0x1680 ||
    (0x2000 <= n <= 0x200A) || n == 0x2028 || n == 0x2029 || n == 0x202F ||
    n == 0x205F || n == 0x3000
  }

  /**
   * Blank: every character is white space. This is exactly when
   * strings.TrimSpace yields "" (see TrimSpace's contract), the test the
   * source writes as `strings.TrimSpace(s) == ""`.
   */
  predicate IsBlank(s: string) {
    forall i :: 0 <= i < |s| ==> IsSpace(s[i])
  }

  /** Drops the leading white space: the result is the longest suffix that does not start with a space. */
  function TrimLeft(s: string): (r: string)
    ensures |r| <= |s| && r == s[|s| - |r|..]
    ensures IsBlank(s[..|s| - |r|])
    ensures r != [] ==> !IsSpace(r[0])
  {
    if |s| > 0 && IsSpace(s[0]) then
      var r := TrimLeft(s[1..]);
      assert s[1..][|s| - 1 - |r|..] == s[|s| - |r|..];
      r
    else
      s
  }

  /** Drops the trailing white space: the result is the longest prefix that does not end with a space. */
  function TrimRight(s: string): (r: string)
    ensures |r| <= |s| && r == s[..|r|]
    ensures IsBlank(s[|r|..])
    ensures r != [] ==> !IsSpace(r[|r| - 1])
  {
    if |s| > 0 && IsSpace(s[|s| - 1]) then TrimRight(s[..|s| - 1]) else s
  }

  /** Neither end of `s` is white space. */
  predicate Trimmed(s: string) {
    s == "" || (!IsSpace(s[0]) && !IsSpace(s[|s| - 1]))
  }

  /** strings.TrimSpace. */
  function TrimSpace(s: string): (r: string)
    ensures r == "" <==> IsBlank(s)
    ensures Trimmed(r)
    ensures exists i, j :: 0 <= i <= j <= |s| && r == s[i..j] && IsBlank(s[..i]) && IsBlank(s[j..])
  {
    var l := TrimLeft(s);
    var r := TrimRight(l);
    TrimmedSlice(s, l, r);
    assert r == "" ==> IsBlank(s) by {
      if r == "" {
        assert l[|r|..] == l;
        assert l == "";
        assert s[..|s|] == s;
      }
    }
    assert r != "" ==> !IsBlank(s) by {
      if r != "" {
        assert l[0] == s[|s| - |l|];
      }
    }
    r
  }

  /** Trimming the left end and then the right end leaves a slice of `s` between two blank ends. */
  lemma TrimmedSlice(s: string, l: string, r: string)
    requires l == TrimLeft(s) && r == TrimRight(l)
    ensures exists i, j :: 0 <= i <= j <= |s| && r == s[i..j] && IsBlank(s[..i]) && IsBlank(s[j..])
  {
    var i := |s| - |l|;
    SliceOfSuffix(s, i, l, r);
    assert IsBlank(s[..i]) && IsBlank(s[i + |r|..]);
  }

  /** A prefix `r` of the suffix `l == s[i..]` is the slice of `s` at `i`, and what follows it in `l` is what follows it in `s`. */
  lemma SliceOfSuffix(s: string, i: nat, l: string, r: string)
    requires i <= |s| && l == s[i..] && |r| <= |l| && r == l[..|r|]
    ensures r == s[i..i + |r|] && s[i + |r|..] == l[|r|..]
  {
  }

  /** A string with no white space at either end is its own TrimSpace. */
  lemma TrimmedFixpoint(s: string)
    requires Trimmed(s)
    ensures TrimSpace(s) == s
  {
    if s != "" {
      assert TrimLeft(s) == s;
      assert TrimRight(s) == s;
    }
  }

  lemma TrimSpaceIdempotent(s: string)
    ensures TrimSpace(TrimSpace(s)) == TrimSpace(s)
  {
    TrimmedFixpoint(TrimSpace(s));
  }

  /** strings.Contains: `sub` occurs in `s` at some offset. */
  predicate Contains(s: string, sub: string)
    decreases |s|
  {
    sub <= s || (|s| > 0 && Contains(s[1..], sub))
  }

  ghost predicate OccursAt(s: string, sub: string, i: int) {
    0 <= i <= |s| - |sub| && s[i..i + |sub|] == sub
  }

  lemma {:induction false} ContainsIff(s: string, sub: string)
    ensures Contains(s, sub) <==> exists i :: OccursAt(s, sub, i)
    decreases |s|
  {
    if sub <= s {
      assert OccursAt(s, sub, 0);
    } else {
      if i :| OccursAt(s, sub, i) {
        assert i != 0;
        assert OccursAt(s[1..], sub, i - 1);
        ContainsIff(s[1..], sub);
      }
      if |s| > 0 && Contains(s[1..], sub) {
        ContainsIff(s[1..], sub);
        var i :| OccursAt(s[1..], sub, i);
        assert OccursAt(s, sub, i + 1);
      }
    }
  }

  /** A string that starts with `sub` contains it. */
  lemma ContainsPrefix(sub: string, rest: string)
    ensures Contains(sub + rest, sub)
  {
    assert sub <= sub + rest;
  }

  /** strings.Join. */
  function Join(parts: seq<string>, sep: string): (r: string)
    decreases |parts|
  {
    if |parts| == 0 then ""
    else if |parts| == 1 then parts[0]
    else parts[0] + sep + Join(parts[1..], sep)
  }

  lemma IsBlankConcat(a: string, b: string)
    ensures IsBlank(a + b) <==> IsBlank(a) && IsBlank(b)
  {
    if IsBlank(a) && IsBlank(b) {
      forall i | 0 <= i < |a + b| ensures IsSpace((a + b)[i]) {
        if i >= |a| { assert (a + b)[i] == b[i - |a|]; }
      }
    }
    if IsBlank(a + b) {
      forall i | 0 <= i < |a| ensures IsSpace(a[i]) {
        assert (a + b)[i] == a[i];
      }
      forall i | 0 <= i < |b| ensures IsSpace(b[i]) {
        assert (a + b)[|a| + i] == b[i];
      }
    }
  }

  /** Joining with a white-space separator gives a blank string exactly when every part is blank. */
  lemma {:induction false} JoinBlank(parts: seq<string>, sep: string)
    requires IsBlank(sep)
    ensures IsBlank(Join(parts, sep)) <==> forall i :: 0 <= i < |parts| ==> IsBlank(parts[i])
    decreases |parts|
  {
    if |parts| > 1 {
      JoinBlank(parts[1..], sep);
      IsBlankConcat(parts[0], sep);
      IsBlankConcat(parts[0] + sep, Join(parts[1..], sep));
      assert forall i :: 1 <= i < |parts| ==> parts[i] == parts[1..][i - 1];
    }
  }

  function DigitChar(d: int): (c: char)
    requires 0 <= d < 10
  {
    (48 + d) as char
  }

  /** The decimal digits that fmt's %d prints for a non-negative int. */
  function NatToString(n: nat): (r: string)
    ensures |r| >= 1
    ensures forall i :: 0 <= i < |r| ==> '0' <= r[i] <= '9'
  {
    if n < 10 then [DigitChar(n)] else NatToString(n / 10) + [DigitChar(n % 10)]
  }

  /** Reads a string of decimal digits back as a number. */
  function DigitsValue(s: string): nat
    requires forall i :: 0 <= i < |s| ==> '0' <= s[i] <= '9'
  {
    if |s| == 0 then 0 else 10 * DigitsValue(s[..|s| - 1]) + (s[|s| - 1] as int - 48)
  }

  lemma {:induction false} NatToStringRoundTrip(n: nat)
    ensures DigitsValue(NatToString(n)) == n
  {
    if n >= 10 {
      NatToStringRoundTrip(n / 10);
      var s := NatToString(n);
      assert s[..|s| - 1] == NatToString(n / 10);
    }
  }
}
