/**
 * The few string built-ins the core relies on: JavaScript's
 * `String.prototype.trim`, Python's `str.startswith` and substring `in`, and
 * the decimal rendering of a non-negative integer used in messages.
 */
module Strings {

  /** The characters JavaScript's `trim` removes: WhiteSpace and LineTerminator. */
  predicate IsJsSpace(c: char) {
    || c == '\t' || c == '\n' || c == '\U{B}' || c == '\U{C}' || c == '\r' || c == ' '
    || c == '\U{A0}' || c == '\U{1680}' || ('\U{2000}' <= c <= '\U{200A}')
    || c == '\U{2028}' || c == '\U{2029}' || c == '\U{202F}' || c == '\U{205F}'
    || c == '\U{3000}' || c == '\U{FEFF}'
  }

  /** `s` with its leading whitespace removed. */
  function TrimStart(s: string): (r: string)
    ensures |r| <= |s| && r == s[|s| - |r|..]
    ensures r == [] || !IsJsSpace(r[0])
    ensures forall k :: 0 <= k < |s| - |r| ==> IsJsSpace(s[k])
  {
    if s != [] && IsJsSpace(s[0]) then TrimStart(s[1..]) else s
  }

  /** `s` with its trailing whitespace removed. */
  function TrimEnd(s: string): (r: string)
    ensures |r| <= |s| && r == s[..|r|]
    ensures r == [] || !IsJsSpace(r[|r| - 1])
    ensures forall k :: |r| <= k < |s| ==> IsJsSpace(s[k])
  {
    if s != [] && IsJsSpace(s[|s| - 1]) then TrimEnd(s[..|s| - 1]) else s
  }

  /** `r` is `s[i..j]`, everything outside `i..j` is whitespace, and `r` neither
      starts nor ends with whitespace. */
  ghost predicate StrippedAt(s: string, r: string, i: int, j: int) {
    && 0 <= i <= j <= |s| && r == s[i..j]
    && (forall k :: 0 <= k < i ==> IsJsSpace(s[k]))
    && (forall k :: j <= k < |s| ==> IsJsSpace(s[k]))
    && (r == [] || (!IsJsSpace(r[0]) && !IsJsSpace(r[|r| - 1])))
  }

  /** `r` is `s` with exactly its leading and trailing whitespace removed. */
  ghost predicate StripsTo(s: string, r: string) {
    exists i, j :: StrippedAt(s, r, i, j)
  }

  /** JavaScript's `s.trim()`: the leading and trailing whitespace removed. */
  function Trim(s: string): (r: string)
    ensures r == [] || (!IsJsSpace(r[0]) && !IsJsSpace(r[|r| - 1]))
    ensures StripsTo(s, r)
  {
    var t := TrimStart(s);
    var r := TrimEnd(t);
    StrippedOfParts(s, t, r);
    r
  }

  /** Leading whitespace cut off `s` leaves `t`, trailing whitespace cut off `t`
      leaves `r`: then `r` is `s` stripped. */
  lemma StrippedOfParts(s: string, t: string, r: string)
    requires |t| <= |s| && t == s[|s| - |t|..] && forall k :: 0 <= k < |s| - |t| ==> IsJsSpace(s[k])
    requires t == [] || !IsJsSpace(t[0])
    requires |r| <= |t| && r == t[..|r|] && forall k :: |r| <= k < |t| ==> IsJsSpace(t[k])
    requires r == [] || !IsJsSpace(r[|r| - 1])
    ensures r == [] || (!IsJsSpace(r[0]) && !IsJsSpace(r[|r| - 1]))
    ensures StripsTo(s, r)
  {
    var i := |s| - |t|;
    assert r == [] || r[0] == t[0];
    assert r == s[i..i + |r|];
    forall k | i + |r| <= k < |s| ensures IsJsSpace(s[k]) {
      assert s[k] == t[k - i];
    }
    assert StrippedAt(s, r, i, i + |r|);
  }

  /** Stripping has one outcome, so `StripsTo` pins `Trim`'s result. */
  lemma StrippedUnique(s: string, r: string, i: int, j: int, r': string, i': int, j': int)
    requires StrippedAt(s, r, i, j) && StrippedAt(s, r', i', j')
    ensures r == r'
  {
    if r != [] && r' != [] {
      assert s[i] == r[0] && s[i'] == r'[0];
      assert s[j - 1] == r[|r| - 1] && s[j' - 1] == r'[|r'| - 1];
      assert i == i' && j == j';
    }
  }

  /** Any stripping of `s` is its trim. */
  lemma StripsToIsTrim(s: string, r: string)
    requires StripsTo(s, r)
    ensures r == Trim(s)
  {
    var i, j :| StrippedAt(s, r, i, j);
    var i', j' :| StrippedAt(s, Trim(s), i', j');
    StrippedUnique(s, r, i, j, Trim(s), i', j');
  }

  /** Trimming a string made only of whitespace leaves nothing. */
  lemma {:induction false} TrimAllSpace(s: string)
    requires forall k :: 0 <= k < |s| ==> IsJsSpace(s[k])
    ensures Trim(s) == []
  {
    if s != [] {
      assert IsJsSpace(s[0]);
      assert forall k :: 0 <= k < |s[1..]| ==> IsJsSpace(s[1..][k]) by {
        forall k | 0 <= k < |s[1..]| ensures IsJsSpace(s[1..][k]) { assert s[1..][k] == s[k + 1]; }
      }
      TrimAllSpace(s[1..]);
      assert TrimStart(s) == TrimStart(s[1..]);
    }
  }

  /** Trimming leaves nothing exactly when the string is all whitespace. */
  lemma TrimEmptyIff(s: string)
    ensures Trim(s) == [] <==> forall k :: 0 <= k < |s| ==> IsJsSpace(s[k])
  {
    if forall k :: 0 <= k < |s| ==> IsJsSpace(s[k]) {
      TrimAllSpace(s);
    }
  }

  /** Trimming twice is trimming once. */
  lemma TrimIdempotent(s: string)
    ensures Trim(Trim(s)) == Trim(s)
  {
    var r := Trim(s);
    if r != [] {
      assert TrimStart(r) == r;
      assert TrimEnd(r) == r;
    }
  }

  /** Python's `s.startswith(prefix)`. */
  predicate StartsWith(s: string, prefix: string) {
    |prefix| <= |s| && s[..|prefix|] == prefix
  }

  /** Python's `needle in hay` on two strings: `needle` occurs as a contiguous part of `hay`. */
  predicate Contains(hay: string, needle: string) {
    exists i :: 0 <= i <= |hay| - |needle| && Slice(hay, i, |needle|) == needle
  }

  /** The `n` characters of `s` from index `i` on. */
  function Slice(s: string, i: nat, n: nat): string
    requires i + n <= |s|
  {
    s[i..i + n]
  }

  /** The decimal digit for `d`. */
  function Digit(d: nat): char
    requires d < 10
  {
    "0123456789"[d]
  }

  /** The value of a decimal digit character. */
  function DigitValue(c: char): nat
  {
    if '0' <= c <= '9' then (c - '0') as nat else 0
  }

  /** The value of a string of decimal digits. */
  function DecimalValue(s: string): nat
  {
    if s == [] then 0 else DecimalValue(s[..|s| - 1]) * 10 + DigitValue(s[|s| - 1])
  }

  /** The decimal rendering of `n`, as `String(n)` and template literals give it. */
  function NatToString(n: nat): (r: string)
    ensures r != [] && forall k :: 0 <= k < |r| ==> '0' <= r[k] <= '9'
    ensures |r| > 1 ==> r[0] != '0'
  {
    if n < 10 then [Digit(n)] else NatToString(n / 10) + [Digit(n % 10)]
  }

  /** Reading the rendering back gives the number: the rendering loses nothing. */
  lemma {:induction false} NatToStringRoundTrip(n: nat)
    ensures DecimalValue(NatToString(n)) == n
  {
    if n >= 10 {
      NatToStringRoundTrip(n / 10);
      var s := NatToString(n);
      assert s[..|s| - 1] == NatToString(n / 10);
    }
  }
}
