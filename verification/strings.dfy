/**
 * The JavaScript string primitives the simulator relies on, over `seq<char>`.
 * Each `char` stands for one UTF-16 code unit.
 *
 * - `IndexOf` is `String.prototype.indexOf` for a search string;
 * - `ReplaceFirst` is `String.prototype.replace` with a string pattern,
 *   which replaces only the FIRST occurrence;
 * - `Contains` is `String.prototype.includes`;
 * - `IntToString` is `Number.prototype.toString()` on an integer.
 */
module Strings {
  import opened Wrappers

  /** The characters JavaScript's regular-expression `.` refuses to match. */
  predicate IsLineTerminator(c: char) {
    c == '\n' || c == '\r' || c == '\U{2028}' || c == '\U{2029}'
  }

  /** Text that a run of `.` can cover. */
  predicate SingleLine(s: string) {
    forall i :: 0 <= i < |s| ==> !IsLineTerminator(s[i])
  }

  /** `p` occurs in `s` starting at index `i`. */
  predicate OccursAt(s: string, p: string, i: nat) {
    i + |p| <= |s| && s[i..i + |p|] == p
  }

  predicate Contains(s: string, p: string) {
    exists i: nat :: i <= |s| && OccursAt(s, p, i)
  }

  /** `i` is the first index at which `p` occurs in `s`. */
  predicate IsFirst(s: string, p: string, i: nat) {
    OccursAt(s, p, i) && forall j: nat :: j < i ==> !OccursAt(s, p, j)
  }

  /** The first occurrence of `p` in `s` at or after `k`. */
  function IndexFrom(s: string, p: string, k: nat): (r: Option<nat>)
    requires k <= |s|
    decreases |s| - k
    ensures r.Some? ==> k <= r.value && OccursAt(s, p, r.value)
    ensures r.Some? ==> forall j: nat :: k <= j < r.value ==> !OccursAt(s, p, j)
    ensures r.None? ==> forall j: nat :: k <= j ==> !OccursAt(s, p, j)
  {
    if OccursAt(s, p, k) then Some(k)
    else if k + |p| >= |s| then None
    else IndexFrom(s, p, k + 1)
  }

  /** `s.indexOf(p)`, with `None` for the source's `-1`. */
  function IndexOf(s: string, p: string): (r: Option<nat>)
    ensures r.Some? ==> IsFirst(s, p, r.value)
    ensures r.None? <==> !Contains(s, p)
  {
    IndexFrom(s, p, 0)
  }

  /** `s.replace(p, rep)` for a string pattern `p`: only the first occurrence is replaced. */
  function ReplaceFirst(s: string, p: string, rep: string): (r: string)
    ensures forall i: nat {:trigger IsFirst(s, p, i)} :: IsFirst(s, p, i) ==> r == s[..i] + rep + s[i + |p|..]
    ensures !Contains(s, p) ==> r == s
    ensures Contains(s, p) ==> |r| == |s| - |p| + |rep|
  {
    match IndexOf(s, p)
    case Some(i) =>
      assert forall j: nat :: IsFirst(s, p, j) ==> j == i;
      s[..i] + rep + s[i + |p|..]
    case None => s
  }

  /** A pattern found at the very start is the first occurrence. */
  lemma FirstAtStart(s: string, p: string)
    requires OccursAt(s, p, 0)
    ensures IsFirst(s, p, 0)
  {
  }

  /**
   * If `b` starts with `p` and `p` does not occur in `a + p` before `|a|`,
   * the first occurrence of `p` in `a + b` is at `|a|`.
   */
  lemma FirstAfter(a: string, b: string, p: string)
    requires OccursAt(b, p, 0)
    requires IsFirst(a + p, p, |a|)
    ensures IsFirst(a + b, p, |a|)
  {
    var s := a + b;
    assert s[|a|..|a| + |p|] == b[..|p|];
    assert s[..|a| + |p|] == a + p;
    forall j: nat | j < |a|
      ensures !OccursAt(s, p, j)
    {
      if j + |p| <= |s| {
        assert (a + p)[j..j + |p|] == s[j..j + |p|];
        assert !OccursAt(a + p, p, j);
      }
    }
  }

  /**
   * A prefix `a` in which `p` starts nowhere moves the first occurrence of
   * `p` in `h` along by `|a|`.
   */
  lemma FirstBehind(a: string, h: string, p: string, k: nat)
    requires IsFirst(h, p, k)
    requires forall j: nat :: j < |a| ==> !OccursAt(a + h, p, j)
    ensures IsFirst(a + h, p, |a| + k)
  {
    var s := a + h;
    assert s[|a| + k..|a| + k + |p|] == h[k..k + |p|];
    forall j: nat | |a| <= j < |a| + k
      ensures !OccursAt(s, p, j)
    {
      if j + |p| <= |s| {
        assert s[j..j + |p|] == h[j - |a|..j - |a| + |p|];
        assert !OccursAt(h, p, j - |a|);
      }
    }
  }

  /** The cheap special case of `FirstAfter`: the first character of `p` does not appear in `a`. */
  lemma FirstAfterByHead(a: string, b: string, p: string)
    requires |p| > 0 && p[0] !in a
    requires OccursAt(b, p, 0)
    ensures IsFirst(a + b, p, |a|)
  {
    var s := a + b;
    assert s[|a|..|a| + |p|] == b[..|p|];
    forall j: nat | j < |a|
      ensures !OccursAt(s, p, j)
    {
      if j + |p| <= |s| {
        assert s[j..j + |p|][0] == s[j] == a[j];
        assert a[j] != p[0];
      }
    }
  }

  /** A pattern holding a character the text lacks does not occur in it. */
  lemma AbsentByChar(s: string, p: string, c: char)
    requires c in p && c !in s
    ensures !Contains(s, p)
  {
    var k :| 0 <= k < |p| && p[k] == c;
    forall i: nat | i <= |s|
      ensures !OccursAt(s, p, i)
    {
      if i + |p| <= |s| {
        assert s[i..i + |p|][k] == s[i + k];
        assert s[i + k] in s;
      }
    }
  }

  /** A one-character pattern occurs exactly where that character is. */
  lemma ContainsChar(s: string, c: char)
    ensures Contains(s, [c]) <==> c in s
  {
    if c in s {
      var k :| 0 <= k < |s| && s[k] == c;
      assert OccursAt(s, [c], k);
    }
    if Contains(s, [c]) {
      var i: nat :| i <= |s| && OccursAt(s, [c], i);
      assert s[i] == c;
    }
  }

  /** Removing the first `c` from `a + [c] + b`, when `a` holds no `c`. */
  lemma ReplaceFirstChar(a: string, b: string, c: char, rep: string)
    requires c !in a
    ensures ReplaceFirst(a + [c] + b, [c], rep) == a + rep + b
  {
    FirstAfterByHead(a, [c] + b, [c]);
    assert a + [c] + b == a + ([c] + b);
    var s := a + [c] + b;
    assert s[..|a|] == a;
    assert s[|a| + 1..] == b;
  }

  /** Replacing a pattern whose first occurrence follows the prefix `a`. */
  lemma ReplaceFirstAfter(a: string, p: string, rest: string, rep: string)
    requires IsFirst(a + p, p, |a|)
    ensures ReplaceFirst(a + p + rest, p, rep) == a + rep + rest
  {
    var s := a + p + rest;
    var tail := p + rest;
    assert s == a + tail;
    assert tail[..|p|] == p;
    FirstAfter(a, tail, p);
    assert s[..|a|] == a;
    assert s[|a| + |p|..] == rest;
  }

  /** Removing a pattern that the text starts with. */
  lemma ReplaceFirstAtStart(p: string, rest: string, rep: string)
    ensures ReplaceFirst(p + rest, p, rep) == rep + rest
  {
    var s := p + rest;
    assert OccursAt(s, p, 0);
    FirstAtStart(s, p);
    assert s[|p|..] == rest;
    assert ReplaceFirst(s, p, rep) == s[..0] + rep + s[|p|..];
  }

  // ---------------------------------------------------------------------
  // Integer formatting
  // ---------------------------------------------------------------------

  predicate IsDigit(c: char) {
    '0' <= c <= '9'
  }

  predicate AllDigits(s: string) {
    forall i :: 0 <= i < |s| ==> IsDigit(s[i])
  }

  function DigitChar(d: nat): (c: char)
    requires d < 10
    ensures IsDigit(c)
  {
    ['0', '1', '2', '3', '4', '5', '6', '7', '8', '9'][d]
  }

  function DigitValue(c: char): (d: nat)
    requires IsDigit(c)
    ensures d < 10
    ensures DigitChar(d) == c
  {
    if c == '0' then 0 else if c == '1' then 1 else if c == '2' then 2
    else if c == '3' then 3 else if c == '4' then 4 else if c == '5' then 5
    else if c == '6' then 6 else if c == '7' then 7 else if c == '8' then 8 else 9
  }

  /** Decimal text of a natural number, as `String(n)` prints it (no leading zeros). */
  function NatToString(n: nat): (s: string)
    ensures |s| > 0 && AllDigits(s)
    ensures |s| > 1 ==> s[0] != '0'
  {
    if n < 10 then [DigitChar(n)] else NatToString(n / 10) + [DigitChar(n % 10)]
  }

  /** Reads a run of decimal digits; the partner of `NatToString`. */
  function ParseNat(s: string): nat
    requires AllDigits(s)
  {
    if |s| == 0 then 0 else 10 * ParseNat(s[..|s| - 1]) + DigitValue(s[|s| - 1])
  }

  lemma DigitRoundTrip(d: nat)
    requires d < 10
    ensures DigitValue(DigitChar(d)) == d
  {
  }

  /** Printing then parsing a natural number gives it back, so `NatToString` is injective. */
  lemma {:induction false} ParseNatToString(n: nat)
    ensures ParseNat(NatToString(n)) == n
  {
    var s := NatToString(n);
    if n < 10 {
      DigitRoundTrip(n);
      assert s[..0] == [];
    } else {
      ParseNatToString(n / 10);
      DigitRoundTrip(n % 10);
      assert s[..|s| - 1] == NatToString(n / 10);
    }
  }

  lemma NatToStringInjective(m: nat, n: nat)
    requires NatToString(m) == NatToString(n)
    ensures m == n
  {
    ParseNatToString(m);
    ParseNatToString(n);
  }

  /** `String(i)` for an integer `i` of moderate size. */
  function IntToString(i: int): (s: string)
    ensures |s| > 0
    ensures i >= 0 ==> AllDigits(s)
    ensures i < 0 ==> s[0] == '-' && AllDigits(s[1..])
  {
    if i < 0 then "-" + NatToString(-i) else NatToString(i)
  }

  /** The printed form of an integer holds only digits and possibly a leading minus sign. */
  lemma IntToStringChars(i: int, c: char)
    requires c in IntToString(i)
    ensures c == '-' || IsDigit(c)
  {
    var s := IntToString(i);
    var k :| 0 <= k < |s| && s[k] == c;
    if i < 0 && k > 0 {
      assert s[k] == s[1..][k - 1];
    }
  }
}
