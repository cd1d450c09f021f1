/** Decimal and fixed-width number text, as strconv and fmt write and read it. */
module Text {
  import opened Wrappers

  const MIN_INT64: int := -0x8000_0000_0000_0000
  const MAX_INT64: int := 0x7fff_ffff_ffff_ffff

  // ----- Decimal -----

  function Digit(d: nat): char
    requires d < 10
  {
    ('0' as int + d) as char
  }

  predicate IsDigit(c: char) { '0' <= c <= '9' }

  predicate AllDigits(s: string) { forall i :: 0 <= i < |s| ==> IsDigit(s[i]) }

  function Digits(n: nat): (s: string)
    ensures s != "" && AllDigits(s)
  {
    if n < 10 then [Digit(n)] else Digits(n / 10) + [Digit(n % 10)]
  }

  function DigitsValue(s: string): nat
    requires AllDigits(s)
  {
    if s == "" then 0
    else 10 * DigitsValue(s[..|s| - 1]) + (s[|s| - 1] as int - '0' as int)
  }

  lemma {:induction false} DigitsRoundTrip(n: nat)
    ensures DigitsValue(Digits(n)) == n
  {
    if n < 10 {
      assert [Digit(n)][..0] == "";
    } else {
      DigitsRoundTrip(n / 10);
      assert Digits(n)[..|Digits(n)| - 1] == Digits(n / 10);
    }
  }

  /** strconv.Itoa, and fmt's %d. */
  function Itoa(n: int): string {
    if n < 0 then "-" + Digits(-n) else Digits(n)
  }

  /** strconv.Atoi on a 64-bit platform: an optional sign, then decimal digits. */
  function Atoi(s: string): Option<int> {
    var digits := if s != "" && (s[0] == '-' || s[0] == '+') then s[1..] else s;
    if digits == "" || !AllDigits(digits) then None
    else
      var n := if s[0] == '-' then -(DigitsValue(digits) as int) else DigitsValue(digits) as int;
      if MIN_INT64 <= n <= MAX_INT64 then Some(n) else None
  }

  lemma AtoiReadsItoa(n: int)
    requires MIN_INT64 <= n <= MAX_INT64
    ensures Atoi(Itoa(n)) == Some(n)
  {
    var m := if n < 0 then -n else n;
    DigitsRoundTrip(m);
    assert IsDigit(Digits(m)[0]);
    if n < 0 {
      assert Itoa(n)[1..] == Digits(m);
    }
  }

  /** The number strconv.Atoi returns beside its error: zero for malformed text, the
      nearest bound when out of range. */
  function AtoiOrBound(s: string): int {
    var digits := if s != "" && (s[0] == '-' || s[0] == '+') then s[1..] else s;
    if digits == "" || !AllDigits(digits) then 0
    else
      var n := if s[0] == '-' then -(DigitsValue(digits) as int) else DigitsValue(digits) as int;
      if n < MIN_INT64 then MIN_INT64 else if n > MAX_INT64 then MAX_INT64 else n
  }

  lemma AtoiAgrees(s: string)
    ensures Atoi(s).Some? ==> AtoiOrBound(s) == Atoi(s).value
  {
  }

  /** Decimal text has nothing to trim. */
  lemma ItoaIsTrimmed(n: int)
    ensures TrimSpace(Itoa(n)) == Itoa(n)
  {
    var s := Itoa(n);
    ItoaValue(n);
    assert IsDigit(s[|s| - 1]);
    assert !IsSpace(s[0]) && !IsSpace(s[|s| - 1]);
  }

  lemma ItoaInjective(m: int, n: int)
    requires Itoa(m) == Itoa(n)
    ensures m == n
  {
    ItoaValue(m);
    ItoaValue(n);
  }

  function IntValue(s: string): int
    requires s != "" && AllDigits(if s[0] == '-' then s[1..] else s)
  {
    if s[0] == '-' then -(DigitsValue(s[1..]) as int) else DigitsValue(s) as int
  }

  lemma ItoaValue(n: int)
    ensures Itoa(n) != "" && AllDigits(if Itoa(n)[0] == '-' then Itoa(n)[1..] else Itoa(n))
    ensures IntValue(Itoa(n)) == n
  {
    var m := if n < 0 then -n else n;
    DigitsRoundTrip(m);
    assert IsDigit(Digits(m)[0]);
    if n < 0 {
      assert Itoa(n)[1..] == Digits(m);
    }
  }

  /** No decimal number contains a character that is neither a digit nor a minus. */
  lemma ItoaHasNo(n: int, c: char)
    requires !IsDigit(c) && c != '-'
    ensures c !in Itoa(n)
  {
  }

  // ----- Fixed-width hexadecimal -----

  const HEX: string := "0123456789abcdef"

  /** The `width` least significant base-16 digits of n, most significant first. */
  function Nibbles(n: nat, width: nat): (ds: seq<nat>)
    ensures |ds| == width && forall i :: 0 <= i < width ==> ds[i] < 16
  {
    if width == 0 then [] else Nibbles(n / 16, width - 1) + [n % 16]
  }

  function Power16(width: nat): nat {
    if width == 0 then 1 else 16 * Power16(width - 1)
  }

  /** Identifiers have 128 bits. */
  predicate IsUuid(n: nat) { n < Power16(32) }

  lemma {:induction false} NibblesInjective(m: nat, n: nat, width: nat)
    requires m < Power16(width) && n < Power16(width)
    requires Nibbles(m, width) == Nibbles(n, width)
    ensures m == n
  {
    if width > 0 {
      var a, b := Nibbles(m / 16, width - 1), Nibbles(n / 16, width - 1);
      assert a == (a + [m % 16])[..width - 1];
      assert b == (b + [n % 16])[..width - 1];
      assert (a + [m % 16])[width - 1] == (b + [n % 16])[width - 1];
      NibblesInjective(m / 16, n / 16, width - 1);
    }
  }

  // ----- Delimiters -----

  /** Text before the first delimiter is determined by the whole. */
  lemma {:induction false} SplitAtDelimiter(a: string, b: string, c: char, x: string, y: string)
    requires c !in a && c !in b
    requires a + [c] + x == b + [c] + y
    ensures a == b && x == y
  {
    var s, t := a + [c] + x, b + [c] + y;
    assert s[0] == if a == "" then c else a[0];
    assert t[0] == if b == "" then c else b[0];
    if a == "" {
      assert s[1..] == x && t[1..] == y;
    } else {
      assert s[1..] == a[1..] + [c] + x;
      assert t[1..] == b[1..] + [c] + y;
      SplitAtDelimiter(a[1..], b[1..], c, x, y);
    }
  }

  // ----- Trimming -----

  /** unicode.IsSpace. */
  predicate IsSpace(c: char) {
    c in {' ', '\t', '\n', '\U{b}', '\U{c}', '\r', '\U{85}', '\U{a0}', '\U{1680}',
          '\U{2028}', '\U{2029}', '\U{202f}', '\U{205f}', '\U{3000}'}
    || '\U{2000}' <= c <= '\U{200a}'
  }

  function TrimLeft(s: string): string {
    if s != "" && IsSpace(s[0]) then TrimLeft(s[1..]) else s
  }

  function TrimRight(s: string): string {
    if s != "" && IsSpace(s[|s| - 1]) then TrimRight(s[..|s| - 1]) else s
  }

  /** strings.TrimSpace. */
  function TrimSpace(s: string): string {
    TrimRight(TrimLeft(s))
  }

  lemma {:induction false} TrimmedStays(s: string)
    requires s == "" || (!IsSpace(s[0]) && !IsSpace(s[|s| - 1]))
    ensures TrimSpace(s) == s
  {
  }

  lemma {:induction false} TrimLeftIs(s: string) returns (i: nat)
    ensures i <= |s| && TrimLeft(s) == s[i..] && (i < |s| ==> !IsSpace(s[i]))
    ensures forall k :: 0 <= k < i ==> IsSpace(s[k])
    decreases |s|
  {
    if s != "" && IsSpace(s[0]) {
      i := TrimLeftIs(s[1..]);
      assert s[1..][i..] == s[i + 1..];
      forall k | 0 <= k < i + 1 ensures IsSpace(s[k]) {
        assert k > 0 ==> s[1..][k - 1] == s[k];
      }
      i := i + 1;
    } else {
      i := 0;
    }
  }

  lemma {:induction false} TrimRightIs(s: string) returns (j: nat)
    ensures j <= |s| && TrimRight(s) == s[..j] && (j > 0 ==> !IsSpace(s[j - 1]))
    ensures forall k :: j <= k < |s| ==> IsSpace(s[k])
    decreases |s|
  {
    if s != "" && IsSpace(s[|s| - 1]) {
      j := TrimRightIs(s[..|s| - 1]);
      assert s[..|s| - 1][..j] == s[..j];
    } else {
      j := |s|;
    }
  }

  /** What is left lies between spaces and neither begins nor ends with one. */
  lemma TrimSpaceIs(s: string) returns (i: nat, j: nat)
    ensures i <= j <= |s| && TrimSpace(s) == s[i..j]
    ensures forall k :: 0 <= k < |s| && !(i <= k < j) ==> IsSpace(s[k])
    ensures i < j ==> !IsSpace(s[i]) && !IsSpace(s[j - 1])
  {
    i := TrimLeftIs(s);
    var n := TrimRightIs(s[i..]);
    j := i + n;
    assert s[i..][..n] == s[i..j];
    forall k | j <= k < |s| ensures IsSpace(s[k]) {
      assert s[i..][k - i] == s[k];
    }
  }
}
