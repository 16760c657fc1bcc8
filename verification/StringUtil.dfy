/**
 The slice helpers of src/core/string_util.c.  An octet is a `char`; nothing here
 depends on codes being below 256, so every statement covers all octet strings.
 */
module StringUtil {

  datatype Option<+T> = None | Some(value: T)

  /** `isspace` in the C locale. */
  predicate IsSpace(c: char) {
    c == ' ' || 9 <= c as int <= 13
  }

  /** `tolower` in the C locale, as a code. */
  function Lower(c: char): int {
    if 'A' <= c <= 'Z' then c as int + 32 else c as int
  }

  predicate NulFree(s: string) {
    forall i | 0 <= i < |s| :: s[i] != '\0'
  }

  /** What `%.*s` or a C string function sees of a slice: everything before the first NUL. */
  function CStr(s: string): (r: string)
    ensures r <= s && NulFree(r)
    ensures |r| < |s| ==> s[|r|] == '\0'
  {
    if s == "" || s[0] == '\0' then "" else [s[0]] + CStr(s[1..])
  }

  /** The cast to `u8`. */
  function Octet(c: char): bv8 {
    (c as int % 256) as bv8
  }

  lemma OctetTells(c: char, d: char)
    requires c as int % 256 != d as int % 256
    ensures Octet(c) != Octet(d)
  {
    OctetValue(c as int % 256);
    OctetValue(d as int % 256);
  }

  lemma OctetValue(n: int)
    requires 0 <= n < 256
    ensures (n as bv8) as int == n
  {
    var x := Numbered(n);
    OctetBack(x);
  }

  /** Counting up from 0 reaches every octet. */
  lemma {:induction false} Numbered(n: int) returns (x: bv8)
    requires 0 <= n < 256
    ensures x as int == n
  {
    if n == 0 {
      x := 0;
    } else {
      var y := Numbered(n - 1);
      OctetNext(y);
      x := y + 1;
    }
  }

  lemma OctetNext(x: bv8)
    requires x as int < 255
    ensures (x + 1) as int == x as int + 1
  {
  }

  lemma OctetBack(x: bv8)
    ensures (x as int) as bv8 == x
  {
  }

  lemma OctetOfA()
    ensures Octet('a') == 97
  {
    OctetBack(97);
  }

  /** At most the first `n` octets. */
  function Clip(s: string, n: nat): string {
    if |s| <= n then s else s[..n]
  }

  lemma Rejoin(a: string, b: string, c: string)
    ensures (a + b) + c == a + (b + c)
  {
  }

  // ----- memchr -----

  /** The first position of `c` in `s`, or -1. */
  function FindChar(s: string, c: char): (r: int)
    ensures -1 <= r < |s|
    ensures r >= 0 ==> s[r] == c && c !in s[..r]
    ensures r < 0 ==> c !in s
  {
    if s == "" then -1
    else if s[0] == c then 0
    else
      var r := FindChar(s[1..], c);
      assert s == [s[0]] + s[1..];
      if r < 0 then -1 else assert s[..r + 1] == [s[0]] + s[1..][..r]; r + 1
  }

  // ----- trimming -----

  /** Neither end of the string is white space. */
  predicate Trimmed(s: string) {
    s == "" || (!IsSpace(s[0]) && !IsSpace(s[|s| - 1]))
  }

  predicate AllSpace(s: string) {
    forall i | 0 <= i < |s| :: IsSpace(s[i])
  }

  function LeftTrimmed(s: string): string {
    if s != "" && IsSpace(s[0]) then LeftTrimmed(s[1..]) else s
  }

  function RightTrimmed(s: string): string {
    if s != "" && IsSpace(s[|s| - 1]) then RightTrimmed(s[..|s| - 1]) else s
  }

  /** What is left is the end of the string, it starts with no white space, and what is gone was nothing else. */
  lemma {:induction false} LeftTrimmedMeans(s: string)
    ensures var r := LeftTrimmed(s);
            && |r| <= |s| && r == s[|s| - |r|..] && AllSpace(s[..|s| - |r|])
            && (r == "" || !IsSpace(r[0]))
  {
    if s != "" && IsSpace(s[0]) { LeftTrimmedMeans(s[1..]); }
  }

  lemma {:induction false} RightTrimmedMeans(s: string)
    ensures var r := RightTrimmed(s);
            r <= s && AllSpace(s[|r|..]) && (r == "" || !IsSpace(r[|r| - 1]))
  {
    if s != "" && IsSpace(s[|s| - 1]) { RightTrimmedMeans(s[..|s| - 1]); }
  }

  function Trim(s: string): (r: string)
    ensures Trimmed(r)
  {
    LeftTrimmedMeans(s);
    RightTrimmedMeans(LeftTrimmed(s));
    RightTrimmed(LeftTrimmed(s))
  }

  lemma {:induction false} LeftTrimmedSkips(before: string, t: string)
    requires AllSpace(before) && (t == "" || !IsSpace(t[0]))
    ensures LeftTrimmed(before + t) == t
  {
    if before == "" {
      assert before + t == t;
    } else {
      assert (before + t)[1..] == before[1..] + t;
      LeftTrimmedSkips(before[1..], t);
    }
  }

  lemma {:induction false} RightTrimmedSkips(t: string, after: string)
    requires AllSpace(after) && (t == "" || !IsSpace(t[|t| - 1]))
    ensures RightTrimmed(t + after) == t
  {
    if after == "" {
      assert t + after == t;
    } else {
      assert (t + after)[..|t + after| - 1] == t + after[..|after| - 1];
      RightTrimmedSkips(t, after[..|after| - 1]);
    }
  }

  /** Trimming removes exactly the white space around a trimmed middle. */
  lemma TrimUnique(before: string, mid: string, after: string)
    requires AllSpace(before) && AllSpace(after) && Trimmed(mid)
    ensures Trim(before + mid + after) == mid
  {
    if mid == "" {
      assert before + mid + after == (before + after) + "";
      LeftTrimmedSkips(before + after, "");
    } else {
      assert before + mid + after == before + (mid + after);
      LeftTrimmedSkips(before, mid + after);
      RightTrimmedSkips(mid, after);
    }
  }

  /** `str_trim_left` moves a start position. */
  method StrTrimLeft(s: string) returns (r: string)
    ensures r == LeftTrimmed(s)
  {
    var k := 0;
    while k < |s| && IsSpace(s[k])
      invariant 0 <= k <= |s|
      invariant LeftTrimmed(s) == LeftTrimmed(s[k..])
    {
      assert s[k..][1..] == s[k + 1..];
      k := k + 1;
    }
    r := s[k..];
  }

  lemma RightTrimmedStep(s: string, n: nat)
    requires n <= |s|
    ensures RightTrimmed(s[..n]) == if n > 0 && IsSpace(s[n - 1]) then RightTrimmed(s[..n - 1]) else s[..n]
  {
    if n > 0 { assert s[..n][..n - 1] == s[..n - 1]; }
  }

  /** `str_trim_right` shrinks a length. */
  method StrTrimRight(s: string) returns (r: string)
    ensures r == RightTrimmed(s)
  {
    hide RightTrimmed;
    var n := |s|;
    assert s[..n] == s;
    while n > 0 && IsSpace(s[n - 1])
      invariant 0 <= n <= |s|
      invariant RightTrimmed(s) == RightTrimmed(s[..n])
    {
      RightTrimmedStep(s, n);
      n := n - 1;
    }
    RightTrimmedStep(s, n);
    r := s[..n];
  }

  method StrTrim(s: string) returns (r: string)
    ensures r == Trim(s)
  {
    r := StrTrimLeft(s);
    r := StrTrimRight(r);
  }

  // ----- case-insensitive comparison -----

  /** `np_strncasecmp` over the common length: the first differing pair decides, a NUL ends the scan. */
  function CaseCmp(a: string, b: string): int
    requires |a| == |b|
  {
    if a == "" then 0
    else if Lower(a[0]) != Lower(b[0]) then Lower(a[0]) - Lower(b[0])
    else if Lower(a[0]) == 0 then 0
    else CaseCmp(a[1..], b[1..])
  }

  predicate SameLower(a: string, b: string) {
    |a| == |b| && forall i | 0 <= i < |a| :: Lower(a[i]) == Lower(b[i])
  }

  /** Against a NUL-free right-hand side, comparing equal is exactly agreeing letter by letter. */
  lemma {:induction false} CaseCmpZero(a: string, b: string)
    requires |a| == |b| && NulFree(b)
    ensures CaseCmp(a, b) == 0 <==> SameLower(a, b)
  {
    if a != "" {
      assert NulFree(b[1..]);
      CaseCmpZero(a[1..], b[1..]);
      assert a == [a[0]] + a[1..] && b == [b[0]] + b[1..];
      if SameLower(a[1..], b[1..]) && Lower(a[0]) == Lower(b[0]) {
        forall i | 0 <= i < |a| ensures Lower(a[i]) == Lower(b[i]) {
          if i > 0 { assert a[i] == a[1..][i - 1] && b[i] == b[1..][i - 1]; }
        }
      }
      if SameLower(a, b) {
        forall i | 0 <= i < |a[1..]| ensures Lower(a[1..][i]) == Lower(b[1..][i]) {
          assert a[1..][i] == a[i + 1] && b[1..][i] == b[i + 1];
        }
      }
    }
  }

  method StrNCaseCmp(a: string, b: string, n: nat) returns (r: int)
    requires n <= |a| && n <= |b|
    ensures r == CaseCmp(a[..n], b[..n])
  {
    var i := 0;
    while i < n
      invariant 0 <= i <= n
      invariant CaseCmp(a[..n], b[..n]) == CaseCmp(a[i..n], b[i..n])
    {
      var ca, cb := Lower(a[i]), Lower(b[i]);
      if ca != cb { return ca - cb; }
      if ca == 0 { return 0; }
      assert a[i..n][1..] == a[i + 1..n] && b[i..n][1..] == b[i + 1..n];
      i := i + 1;
    }
    return 0;
  }

  /** `str_ieq`. */
  predicate IEq(a: string, b: string) {
    |a| == |b| && CaseCmp(a, b) == 0
  }

  method StrIEq(a: string, b: string) returns (r: bool)
    ensures r == IEq(a, b)
  {
    if |a| != |b| { return false; }
    var c := StrNCaseCmp(a, b, |a|);
    assert a[..|a|] == a && b[..|a|] == b;
    return c == 0;
  }

  /** `needle` occurs in `s` at position `i`, ignoring case. */
  predicate MatchesAt(s: string, needle: string, i: int) {
    0 <= i <= |s| - |needle| && CaseCmp(s[i..i + |needle|], needle) == 0
  }

  /** `str_contains_i`. */
  predicate ContainsI(s: string, needle: string) {
    exists i | 0 <= i <= |s| :: MatchesAt(s, needle, i)
  }

  method StrContainsI(s: string, needle: string) returns (r: bool)
    ensures r == ContainsI(s, needle)
  {
    if |needle| == 0 {
      assert MatchesAt(s, needle, 0);
      return true;
    }
    if |s| < |needle| { return false; }
    var i := 0;
    while i <= |s| - |needle|
      invariant 0 <= i <= |s| - |needle| + 1
      invariant forall j | 0 <= j < i :: !MatchesAt(s, needle, j)
    {
      var c := StrNCaseCmp(s[i..], needle, |needle|);
      assert s[i..][..|needle|] == s[i..i + |needle|] && needle[..|needle|] == needle;
      if c == 0 {
        assert MatchesAt(s, needle, i);
        return true;
      }
      i := i + 1;
    }
    return false;
  }

  // ----- str_to_int -----

  const I64_MAX: int := 0x7FFF_FFFF_FFFF_FFFF

  predicate IsDigit(c: char) { '0' <= c <= '9' }

  predicate AllDigits(s: string) {
    forall i | 0 <= i < |s| :: IsDigit(s[i])
  }

  function DigitsValue(s: string): (r: nat)
    requires AllDigits(s)
  {
    if s == "" then 0
    else 10 * DigitsValue(s[..|s| - 1]) + (s[|s| - 1] as int - '0' as int)
  }

  /** `strtoll` saturates at the ends of a 64-bit signed integer. */
  function Saturate(v: int): int {
    if v > I64_MAX then I64_MAX else if v < -I64_MAX - 1 then -I64_MAX - 1 else v
  }

  /** `str_to_int`: copy into a 32-byte buffer, run `strtoll`, insist it stopped at the terminator. */
  function StrToInt(s: string): (r: Option<int>) {
    if |s| == 0 || |s| >= 32 then None
    else
      var c := LeftTrimmed(CStr(s));
      var signed := c != "" && (c[0] == '-' || c[0] == '+');
      var digits := if signed then c[1..] else c;
      if digits == "" || !AllDigits(digits) then None
      else if signed && c[0] == '-' then Some(Saturate(0 - DigitsValue(digits)))
      else Some(Saturate(DigitsValue(digits)))
  }

  function Decimal(n: nat): (r: string)
    ensures r != "" && AllDigits(r)
  {
    var d := ['0' + (n % 10) as char];
    if n < 10 then d else Decimal(n / 10) + d
  }

  lemma {:induction false} DecimalValue(n: nat, k: nat)
    requires n < Pow10(k) && k > 0
    ensures DigitsValue(Decimal(n)) == n && |Decimal(n)| <= k
  {
    if n >= 10 {
      DecimalValue(n / 10, k - 1);
      assert Decimal(n)[..|Decimal(n)| - 1] == Decimal(n / 10);
    } else {
      assert Decimal(n)[..0] == "";
    }
  }

  function Pow10(k: nat): nat { if k == 0 then 1 else 10 * Pow10(k - 1) }

  lemma {:induction false} CStrId(s: string)
    requires NulFree(s)
    ensures CStr(s) == s
  {
    if s != "" { CStrId(s[1..]); }
  }

  /** Every length a 64-bit `Content-Length` can announce is read back from its decimal form. */
  lemma StrToIntReadsDecimal(n: nat)
    requires n <= I64_MAX
    ensures StrToInt(Decimal(n)) == Some(n)
  {
    hide Decimal, DigitsValue, Pow10, CStr, LeftTrimmed;
    I64Digits();
    DecimalValue(n, 19);
    var d := Decimal(n);
    CStrId(d);
    LeftTrimmedId(d);
  }

  lemma I64Digits()
    ensures I64_MAX < Pow10(19)
  {
    assert Pow10(5) == 100000;
    assert Pow10(10) == 10000000000;
    assert Pow10(15) == 1000000000000000;
  }

  lemma LeftTrimmedId(s: string)
    requires s == "" || !IsSpace(s[0])
    ensures LeftTrimmed(s) == s
  {
  }
}
