/**
 * ASCII text as bytes: the `"%s %d"` formatting used for decoder settings,
 * and the matching parser a receiver applies to such a payload.
 */
module Text {
  import opened Wrappers
  import opened Endian

  const SPACE: byte := 0x20
  const MINUS: byte := 0x2D
  const ZERO: byte := 0x30

  /** The bytes of a C++ `std::string` holding `s` (each `char` is one octet). */
  function Bytes(s: string): (r: seq<byte>)
    ensures |r| == |s|
  {
    if |s| == 0 then [] else [((s[0] as int) % 256) as byte] + Bytes(s[1..])
  }

  predicate IsDigit(b: byte)
  {
    ZERO <= b < ZERO + 10
  }

  predicate AllDigits(s: seq<byte>)
  {
    forall i :: 0 <= i < |s| ==> IsDigit(s[i])
  }

  /** Decimal digits of `n`, most significant first, without leading zeros. */
  function Digits(n: nat): (r: seq<byte>)
    ensures |r| > 0 && AllDigits(r)
    ensures r[0] == ZERO <==> n == 0
  {
    if n < 10 then [ZERO + n as byte]
    else Digits(n / 10) + [ZERO + (n % 10) as byte]
  }

  /** What `printf("%d", n)` writes for a signed integer. */
  function FormatInt(n: int): (r: seq<byte>)
    ensures |r| > 0 && SPACE !in r
    ensures r[0] == MINUS <==> n < 0
    ensures n < 0 ==> |r| > 1 && AllDigits(r[1..]) && r[1] != ZERO
    ensures n >= 0 ==> AllDigits(r) && (r[0] == ZERO <==> n == 0)
    ensures n == 0 ==> r == [ZERO]
  {
    if n < 0 then
      var d := Digits(-n);
      assert d[0] != ZERO;
      assert ([MINUS] + d)[1..] == d;
      [MINUS] + d
    else Digits(n)
  }

  /** The value of a run of decimal digits (0 for the empty run). */
  function ParseDigits(s: seq<byte>): (r: nat)
    requires AllDigits(s)
  {
    if |s| == 0 then 0
    else 10 * ParseDigits(s[..|s| - 1]) + (s[|s| - 1] - ZERO) as int
  }

  /** Reads an optionally negative decimal integer; anything else is rejected. */
  function ParseInt(s: seq<byte>): (r: Option<int>)
  {
    if |s| > 0 && s[0] == MINUS then
      (if |s| > 1 && AllDigits(s[1..]) then Some(0 - ParseDigits(s[1..]) as int) else None)
    else if |s| > 0 && AllDigits(s) then Some(ParseDigits(s))
    else None
  }

  lemma {:induction false} ParseDigitsOfDigits(n: nat)
    ensures ParseDigits(Digits(n)) == n
  {
    if n >= 10 {
      var d := Digits(n);
      assert d[..|d| - 1] == Digits(n / 10);
      ParseDigitsOfDigits(n / 10);
    }
  }

  /** Formatting then parsing a signed integer gives it back. */
  lemma ParseIntOfFormatInt(n: int)
    ensures ParseInt(FormatInt(n)) == Some(n)
  {
    if n < 0 {
      var f := FormatInt(n);
      assert f[1..] == Digits(-n);
      ParseDigitsOfDigits(-n);
    } else {
      ParseDigitsOfDigits(n);
    }
  }

  lemma {:induction false} DigitsLength(n: nat, bound: nat, width: nat)
    requires n < bound
    requires bound == Pow10(width) && width > 0
    ensures |Digits(n)| <= width
  {
    if n >= 10 {
      assert width > 1;
      DigitsLength(n / 10, Pow10(width - 1), width - 1);
    }
  }

  function Pow10(k: nat): (r: nat)
    ensures r > 0
  {
    if k == 0 then 1 else 10 * Pow10(k - 1)
  }

  /** The first position of `b` in `s`, if any. */
  function IndexOf(s: seq<byte>, b: byte): (r: Option<nat>)
    ensures r.None? <==> b !in s
    ensures r.Some? ==> r.value < |s| && s[r.value] == b && b !in s[..r.value]
  {
    if |s| == 0 then None
    else if s[0] == b then Some(0)
    else match IndexOf(s[1..], b)
      case None => None
      case Some(i) => Some(i + 1)
  }
}
