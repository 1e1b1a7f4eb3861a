/** Byte strings and the decimal integer notation shared by the wire codec and the
    replication payloads. */
module Bytes {

  newtype byte = x: int | 0 <= x < 256

  /** A Go string or byte slice: bytes, not characters. */
  type bytes = seq<byte>

  const MIN_INT64: int := -0x8000_0000_0000_0000
  const MAX_INT64: int := 0x7fff_ffff_ffff_ffff

  type int64 = n: int | MIN_INT64 <= n <= MAX_INT64

  const UINT64_SIZE: nat := 0x1_0000_0000_0000_0000

  /** Conversion to a signed 64-bit integer, which wraps. */
  function Signed(n: int): int64
  {
    var u := n % UINT64_SIZE;
    if u <= MAX_INT64 then u else u - UINT64_SIZE
  }

  datatype Option<+T> = None | Some(value: T)

  const MINUS: byte := 45
  const PLUS: byte := 43
  const ZERO: byte := 48

  predicate IsDigit(b: byte) { ZERO <= b <= 57 }

  /** `strconv.FormatInt(n, 10)` for a non-negative number. */
  function FormatNat(n: nat): bytes
  {
    if n < 10 then [ZERO + n as byte]
    else FormatNat(n / 10) + [ZERO + (n % 10) as byte]
  }

  /** `strconv.FormatInt(n, 10)`. */
  function FormatInt(n: int): bytes
  {
    if n < 0 then [MINUS] + FormatNat(-n) else FormatNat(n)
  }

  predicate AllDigits(s: bytes) { forall i :: 0 <= i < |s| ==> IsDigit(s[i]) }

  /** The number a run of digits denotes. */
  function DigitsValue(s: bytes): nat
    requires AllDigits(s)
  {
    if s == [] then 0
    else DigitsValue(s[..|s| - 1]) * 10 + (s[|s| - 1] - ZERO) as nat
  }

  /** The range check that ends `strconv.ParseInt`. */
  function Ranged(n: int): Option<int64>
  {
    if MIN_INT64 <= n <= MAX_INT64 then Some(n) else None
  }

  /** `strconv.ParseInt(s, 10, 64)`: an optional sign, then at least one digit, then the
      range check. Syntax and range errors are both `None`. */
  function ParseInt(s: bytes): Option<int64>
  {
    if s == [] then None
    else
      var body := if s[0] == MINUS || s[0] == PLUS then s[1..] else s;
      if body == [] || !AllDigits(body) then None
      else if s[0] == MINUS then Ranged(0 - DigitsValue(body))
      else Ranged(DigitsValue(body))
  }

  lemma {:induction false} FormatNatShape(n: nat)
    ensures FormatNat(n) != []
    ensures AllDigits(FormatNat(n))
    ensures DigitsValue(FormatNat(n)) == n
  {
    if n >= 10 {
      FormatNatShape(n / 10);
      var s := FormatNat(n);
      assert s[..|s| - 1] == FormatNat(n / 10);
    }
  }

  /** Formatting then parsing an integer gives it back. */
  lemma ParseFormat(n: int64)
    ensures ParseInt(FormatInt(n)) == Some(n)
  {
    var m: int := n;
    var s := FormatInt(m);
    if m < 0 {
      FormatNatShape(0 - m);
      assert s[1..] == FormatNat(0 - m);
    } else {
      FormatNatShape(m);
      assert IsDigit(s[0]);
    }
  }

  /** The characters of a formatted integer: never blank, never a line break. */
  lemma FormatIntBytes(n: int)
    ensures FormatInt(n) != []
    ensures forall b :: b in FormatInt(n) ==> IsDigit(b) || b == MINUS
  {
    FormatNatShape(if n < 0 then -n else n);
  }

  function Pow10(k: nat): nat
  {
    if k == 0 then 1 else 10 * Pow10(k - 1)
  }

  lemma {:induction false} FormatNatLength(n: nat, k: nat)
    requires 1 <= k && n < Pow10(k)
    ensures |FormatNat(n)| <= k
  {
    if n >= 10 {
      FormatNatLength(n / 10, k - 1);
    }
  }

  lemma FormatIntLength(n: int64)
    ensures |FormatInt(n)| <= 21
  {
    assert Pow10(4) == 10_000;
    assert Pow10(8) == 100_000_000;
    assert Pow10(12) == 1_000_000_000_000;
    assert Pow10(16) == 10_000_000_000_000_000;
    assert Pow10(20) == 100_000_000_000_000_000_000;
    var m: int := n;
    FormatNatLength(if m < 0 then -m else m, 20);
  }

  /** What a length or integer line is trimmed of. */
  predicate IsBlank(b: byte) { b == 32 || b == 9 }

  /** ASCII white space, as `strings.TrimSpace` and `strings.Fields` read it. */
  predicate IsSpace(b: byte) { b == 32 || 9 <= b <= 13 }

  function TrimLeft(s: bytes, blank: byte -> bool): (r: bytes)
    ensures |r| <= |s|
  {
    if s != [] && blank(s[0]) then TrimLeft(s[1..], blank) else s
  }

  function TrimRight(s: bytes, blank: byte -> bool): (r: bytes)
    ensures |r| <= |s|
  {
    if s != [] && blank(s[|s| - 1]) then TrimRight(s[..|s| - 1], blank) else s
  }

  function Trim(s: bytes, blank: byte -> bool): bytes
  {
    TrimRight(TrimLeft(s, blank), blank)
  }

  function TrimSpace(s: bytes): bytes { Trim(s, IsSpace) }

  /** The longest prefix without white space. */
  function Word(s: bytes): (w: bytes)
    ensures |w| <= |s|
  {
    if s == [] || IsSpace(s[0]) then [] else [s[0]] + Word(s[1..])
  }

  /** `strings.Fields`: the maximal runs without white space. */
  function Fields(s: bytes): seq<bytes>
    decreases |s|
  {
    var t := TrimLeft(s, IsSpace);
    if t == [] then []
    else
      var w := Word(t);
      if w == [] then [] else [w] + Fields(t[|w|..])
  }

  lemma {:induction false} FieldsSize(s: bytes)
    ensures |Fields(s)| <= |s|
    ensures forall i :: 0 <= i < |Fields(s)| ==> |Fields(s)[i]| <= |s|
    decreases |s|
  {
    var t := TrimLeft(s, IsSpace);
    if t != [] && Word(t) != [] {
      FieldsSize(t[|Word(t)|..]);
    }
  }

  lemma TrimLeftAt(b: bytes, i: nat)
    requires i <= |b|
    ensures TrimLeft(b[i..], IsBlank) ==
              if i < |b| && IsBlank(b[i]) then TrimLeft(b[i + 1..], IsBlank) else b[i..]
  {
    if i < |b| { assert b[i..][1..] == b[i + 1..]; }
  }

  lemma TrimRightAt(b: bytes, i: nat, j: nat)
    requires i <= j <= |b|
    ensures TrimRight(b[i..j], IsBlank) ==
              if i < j && IsBlank(b[j - 1]) then TrimRight(b[i..j - 1], IsBlank) else b[i..j]
  {
    if i < j { assert b[i..j][..j - i - 1] == b[i..j - 1]; }
  }

  /** The two index loops that find the unblanked middle of a line. */
  method TrimSpaceBytes(b: bytes) returns (r: bytes)
    ensures r == Trim(b, IsBlank)
  {
    hide TrimLeft, TrimRight;
    var i, j := 0, |b|;
    assert b[0..] == b;
    while i < j && IsBlank(b[i])
      invariant 0 <= i <= j == |b|
      invariant TrimLeft(b[i..], IsBlank) == TrimLeft(b, IsBlank)
    {
      TrimLeftAt(b, i);
      i := i + 1;
    }
    TrimLeftAt(b, i);
    assert b[i..] == b[i..j];
    while i < j && IsBlank(b[j - 1])
      invariant i <= j <= |b|
      invariant TrimRight(b[i..j], IsBlank) == Trim(b, IsBlank)
    {
      TrimRightAt(b, i, j);
      j := j - 1;
    }
    TrimRightAt(b, i, j);
    r := b[i..j];
  }
}
