/** Number printing in the kernel and number parsing in the shell, in 32-bit arithmetic. */
module Numbers {
  import opened Common

  const MINUS: byte := 45
  const ZERO: byte := 48
  const LETTER_A: byte := 97

  const INT_MIN: int := -0x8000_0000

  type int32 = x: int | INT_MIN <= x < 0x8000_0000

  /** What a 32-bit signed variable holds after an assignment of x. */
  function Signed(x: int): int32 {
    var r := x % WORD;
    if r < 0x8000_0000 then r else r - WORD
  }

  lemma SignedWord(n: word)
    ensures Signed(n) % WORD == n && (Signed(n) == n <==> n < 0x8000_0000)
  {
  }

  lemma SignedNegation(n: int32)
    requires n < 0
    ensures Signed(0 - n as int) == if n == INT_MIN then INT_MIN else 0 - n as int
  {
  }

  lemma SignedStep(a: int, b: int)
    ensures Signed(Signed(a) + b) == Signed(a + b)
  {
  }

  // ---- numerals ----

  datatype Base = Decimal | Hexadecimal {
    function Radix(): (r: nat)
      ensures r == 10 || r == 16
    {
      if Decimal? then 10 else 16
    }

    function Times(n: int): int {
      if Decimal? then 10 * n else 16 * n
    }

    function Div(n: nat): (q: nat)
      ensures q <= n && (q < n || n == 0)
    {
      if Decimal? then n / 10 else n / 16
    }

    /** The remainder that belongs to Div. */
    function Mod(n: nat): (r: nat)
      ensures r < Radix()
    {
      n - Times(Div(n))
    }
  }

  /** C's division and remainder truncate towards zero. */
  function QuotientOf(base: Base, n: int): int {
    if n >= 0 then base.Div(n) else 0 - base.Div(-n)
  }

  function RemainderOf(base: Base, n: int): int {
    if n >= 0 then base.Mod(n) else 0 - base.Mod(-n)
  }

  function DigitChar(d: nat): byte
    requires d < 16
  {
    if d < 10 then ZERO + d as byte else LETTER_A + (d - 10) as byte
  }

  /** The text of n: no leading zero except in 0 itself. */
  function Numeral(base: Base, n: nat): (r: seq<byte>)
    ensures r != []
    decreases n
  {
    var last := [DigitChar(base.Mod(n))];
    if base.Div(n) == 0 then last else Numeral(base, base.Div(n)) + last
  }

  /** A digit as the shell reads it: every character that is not a decimal digit counts from 'a'. */
  function DigitValue(c: byte): int {
    var v := if c < 128 then c as int else c as int - 256;
    if ZERO <= c <= ZERO + 9 then v - ZERO as int else v - LETTER_A as int + 10
  }

  /** The number a text denotes, read from the left. */
  function Value(base: Base, text: seq<byte>): int {
    if text == [] then 0 else base.Times(Value(base, text[..|text| - 1])) + DigitValue(text[|text| - 1])
  }

  lemma {:induction false} ValueOfNumeral(base: Base, n: nat)
    ensures Value(base, Numeral(base, n)) == n
    decreases n
  {
    var r := Numeral(base, n);
    assert DigitValue(r[|r| - 1]) == base.Mod(n);
    if base.Div(n) == 0 {
      assert r[..0] == [];
    } else {
      ValueOfNumeral(base, base.Div(n));
      assert r[..|r| - 1] == Numeral(base, base.Div(n));
    }
  }

  lemma {:induction false} NumeralIsCanonical(base: Base, n: nat)
    ensures Numeral(base, n)[0] == ZERO ==> n == 0
    ensures forall c :: c in Numeral(base, n) ==>
      ZERO <= c <= ZERO + 9 || (base.Hexadecimal? && LETTER_A <= c < LETTER_A + 6)
    decreases n
  {
    if base.Div(n) != 0 {
      NumeralIsCanonical(base, base.Div(n));
    }
  }

  lemma {:induction false} NumeralLength(n: word)
    ensures |Numeral(Decimal, n)| <= 10 && |Numeral(Hexadecimal, n)| <= 8
  {
    NumeralShort(Decimal, n, 10);
    NumeralShort(Hexadecimal, n, 8);
  }

  function Power(base: Base, k: nat): (p: nat)
    ensures p > 0
  {
    if k == 0 then 1 else base.Times(Power(base, k - 1))
  }

  lemma {:induction false} NumeralShort(base: Base, n: nat, k: nat)
    requires k > 0 && n < Power(base, k)
    ensures |Numeral(base, n)| <= k
  {
    if base.Div(n) != 0 {
      assert k > 1;
      NumeralShort(base, base.Div(n), k - 1);
    }
  }

  // ---- printing ----

  const BUF_SIZE: nat := 65

  function Reversed(s: seq<byte>): (r: seq<byte>)
    ensures |r| == |s| && forall k :: 0 <= k < |s| ==> r[k] == s[|s| - 1 - k]
  {
    seq(|s|, k requires 0 <= k < |s| => s[|s| - 1 - k])
  }

  lemma ReversedSnoc(s: seq<byte>, c: byte)
    ensures Reversed(s + [c]) == [c] + Reversed(s)
  {
  }

  /** What itoa writes. Negating the least number leaves it negative, so its only digit is '0' - 8. */
  function DecimalText(n: int32): seq<byte> {
    if n >= 0 then Numeral(Decimal, n)
    else if n == INT_MIN then [MINUS, ZERO - 8]
    else [MINUS] + Numeral(Decimal, -n)
  }

  ghost predicate IsCString(buf: seq<byte>, text: seq<byte>) {
    |text| < |buf| && buf[..|text|] == text && buf[|text|] == 0
  }

  function DigitText(base: Base, n: int): byte
    requires n >= INT_MIN
  {
    var d := RemainderOf(base, n);
    if d < 0 then ZERO - (-d) as byte else DigitChar(d)
  }

  /** The digits that itoa and itox print for m, which is not negative or the least number. */
  function DigitsOf(base: Base, m: int): seq<byte> {
    if m >= 0 then Numeral(base, m) else [ZERO - 8]
  }

  lemma FirstRound(base: Base, m: int)
    requires 0 <= m < WORD || (m == INT_MIN && base == Decimal)
    ensures var n := QuotientOf(base, m);
      n < WORD && DigitsOf(base, m) == (if n > 0 then Numeral(base, n) else []) + [DigitText(base, m)]
    ensures 0 < |DigitsOf(base, m)| <= 10
  {
    if m >= 0 {
      NumeralLength(m);
    }
  }

  /** The do-while loop of itoa and itox, written as its body followed by the loop: digits into tmp, least
      significant first. For the least number one round is all. */
  method Digits(base: Base, m: int, limit: nat, tmp: array<byte>) returns (len: nat)
    requires 0 <= m < WORD || (m == INT_MIN && base == Decimal)
    requires 10 < limit < tmp.Length
    modifies tmp
    ensures 0 < len <= 10
    ensures Reversed(tmp[..len]) == DigitsOf(base, m)
  {
    ghost var text := DigitsOf(base, m);
    FirstRound(base, m);
    tmp[0] := DigitText(base, m);
    var n := QuotientOf(base, m);
    len := 1;
    assert Reversed(tmp[..1]) == [tmp[0]];
    while n > 0 && len < limit
      invariant n < WORD && 0 < len <= |text|
      invariant text == (if n > 0 then Numeral(base, n) else []) + Reversed(tmp[..len])
      decreases n
    {
      ghost var before := tmp[..len];
      tmp[len] := DigitChar(base.Mod(n));
      assert tmp[..len + 1] == before + [tmp[len]];
      ReversedSnoc(before, tmp[len]);
      len := len + 1;
      n := base.Div(n);
    }
  }

  /** The loop that turns the digits round into the caller's buffer, and the terminator. */
  method CopyReversed(tmp: array<byte>, len: nat, buf: array<byte>)
    requires len <= tmp.Length && len < buf.Length && tmp != buf
    modifies buf
    ensures IsCString(buf[..], Reversed(tmp[..len]))
    ensures forall k :: len < k < buf.Length ==> buf[k] == old(buf[k])
  {
    for i := 0 to len
      invariant forall k :: 0 <= k < i ==> buf[k] == tmp[len - 1 - k]
      invariant forall k :: len < k < buf.Length ==> buf[k] == old(buf[k])
    {
      buf[i] := tmp[len - 1 - i];
    }
    buf[len] := 0;
    assert buf[..len] == Reversed(tmp[..len]);
    assert buf[..][..len] == buf[..len];
  }

  method Itoa(n: int32, buf: array<byte>)
    requires buf.Length >= 12
    modifies buf
    ensures IsCString(buf[..], DecimalText(n))
  {
    var tmp := new byte[BUF_SIZE];
    var m: int32 := if n < 0 then Signed(0 - n as int) else n;
    if n < 0 {
      SignedNegation(n);
    }
    var len := Digits(Decimal, m, BUF_SIZE - 2, tmp);
    if n < 0 {
      ghost var digits := tmp[..len];
      tmp[len] := MINUS;
      assert tmp[..len + 1] == digits + [MINUS];
      ReversedSnoc(digits, MINUS);
      len := len + 1;
    }
    CopyReversed(tmp, len, buf);
  }

  method Itox(n: word, buf: array<byte>)
    requires buf.Length >= 12
    modifies buf
    ensures IsCString(buf[..], Numeral(Hexadecimal, n))
  {
    var tmp := new byte[BUF_SIZE];
    var len := Digits(Hexadecimal, n, BUF_SIZE - 1, tmp);
    CopyReversed(tmp, len, buf);
  }

  predicate IsDecimal(digits: seq<byte>) {
    digits != [] && forall k :: 0 <= k < |digits| ==> ZERO <= digits[k] <= ZERO + 9
  }

  /** Decimal notation: an optional minus sign and at least one digit. */
  function ReadDecimal(text: seq<byte>): Option<int> {
    if IsDecimal(text) then Some(Value(Decimal, text))
    else if text != [] && text[0] == MINUS && IsDecimal(text[1..]) then Some(-Value(Decimal, text[1..]))
    else None
  }

  lemma NumeralIsDecimal(n: nat)
    ensures IsDecimal(Numeral(Decimal, n))
  {
    NumeralIsCanonical(Decimal, n);
    var t := Numeral(Decimal, n);
    assert forall k :: 0 <= k < |t| ==> t[k] in t;
  }

  lemma ReadDigits(t: seq<byte>)
    requires IsDecimal(t)
    ensures ReadDecimal(t) == Some(Value(Decimal, t))
    ensures ReadDecimal([MINUS] + t) == Some(-Value(Decimal, t))
  {
    var neg := [MINUS] + t;
    assert neg[0] == MINUS && neg[1..] == t;
  }

  lemma ReadNumeral(n: nat)
    ensures ReadDecimal(Numeral(Decimal, n)) == Some(n)
    ensures ReadDecimal([MINUS] + Numeral(Decimal, n)) == Some(0 - n)
  {
    NumeralIsDecimal(n);
    ReadDigits(Numeral(Decimal, n));
    ValueOfNumeral(Decimal, n);
  }

  /** Printing in decimal and reading back is the identity except on the least number, where the text is not
      a number at all. */
  lemma DecimalRoundTrip(n: int32)
    ensures ReadDecimal(DecimalText(n)) == Some(n) <==> n != INT_MIN
  {
    if n == INT_MIN {
      assert DecimalText(n)[1..][0] == ZERO - 8;
    } else {
      ReadNumeral(if n < 0 then -n else n);
    }
  }

  /** The decimal text, digit by digit: the digits from '0', and a minus sign before the text of the opposite
      number. Only the least number has none and comes out as "-(". */
  lemma DecimalMeans(n: int32)
    ensures 0 <= n < 10 ==> DecimalText(n) == [48 + n as byte]
    ensures n >= 10 ==> DecimalText(n) == DecimalText(n / 10) + [48 + (n % 10) as byte]
    ensures -0x8000_0000 < n < 0 ==> DecimalText(n) == [45] + DecimalText(-n)
    ensures n == -0x8000_0000 ==> DecimalText(n) == [45, 40]
  {
  }

  /** The hexadecimal text, digit by digit: from '0' and then from 'a'. */
  lemma HexMeans(n: word)
    ensures n < 10 ==> Numeral(Hexadecimal, n) == [48 + n as byte]
    ensures 10 <= n < 16 ==> Numeral(Hexadecimal, n) == [97 + (n - 10) as byte]
    ensures n >= 16 ==> Numeral(Hexadecimal, n) == Numeral(Hexadecimal, n / 16) + Numeral(Hexadecimal, n % 16)
  {
  }

  /** Reading, digit by digit. */
  lemma ValueMeans(text: seq<byte>, c: byte)
    requires 48 <= c <= 57 || 97 <= c <= 102
    ensures var d := if c <= 57 then c as int - 48 else c as int - 87;
      && Value(Decimal, text + [c]) == 10 * Value(Decimal, text) + d
      && Value(Hexadecimal, text + [c]) == 16 * Value(Hexadecimal, text) + d
    ensures Value(Decimal, []) == 0 && Value(Hexadecimal, []) == 0
  {
    assert (text + [c])[..|text|] == text;
  }

  lemma ReadMeans(text: seq<byte>)
    requires text != [] && forall k :: 0 <= k < |text| ==> 48 <= text[k] <= 57
    ensures ReadDecimal(text) == Some(Value(Decimal, text))
    ensures ReadDecimal([45] + text) == Some(-Value(Decimal, text))
  {
    ReadDigits(text);
  }

  /** What a 32-bit signed variable holds: the number of its range with the same 32 bits. */
  lemma SignedMeans(x: int)
    ensures -0x8000_0000 <= Signed(x) < 0x8000_0000 && (x - Signed(x)) % 0x1_0000_0000 == 0
  {
    var k := SignedOffset(x);
    assert x - Signed(x) == -k * 0x1_0000_0000;
  }

  // ---- parsing in the shell ----

  /** The text before the first terminator. */
  function CString(s: seq<byte>): (r: seq<byte>)
    requires 0 in s
    ensures |r| < |s| && r == s[..|r|] && s[|r|] == 0 && 0 !in r
  {
    if s[0] == 0 then [] else [s[0]] + CString(s[1..])
  }

  lemma {:induction false} CStringUnique(s: seq<byte>, n: nat)
    requires n < |s| && s[n] == 0 && forall k :: 0 <= k < n ==> s[k] != 0
    ensures 0 in s && CString(s) == s[..n]
  {
    assert s[n] in s;
    if n > 0 {
      assert forall k :: 0 <= k < n - 1 ==> s[1..][k] == s[k + 1];
      CStringUnique(s[1..], n - 1);
      assert s[..n] == [s[0]] + s[1..][..n - 1];
    }
  }

  method StrGetLen(src: seq<byte>) returns (len: nat)
    requires 0 in src
    ensures len == |CString(src)| + 1
  {
    len := 0;
    while src[len] != 0
      invariant len <= |CString(src)|
      decreases |CString(src)| - len
    {
      len := len + 1;
    }
    CStringUnique(src, len);
    return len + 1;
  }

  /** pow on ints: every product is cut to 32 bits. */
  function Pow(num: int32, multer: nat): int32 {
    if multer == 0 then 1 else Signed(Pow(num, multer - 1) * num)
  }

  lemma {:induction false} PowIsPower(k: nat)
    ensures Pow(16, k) == Signed(Power(Hexadecimal, k))
  {
    if k > 0 {
      PowIsPower(k - 1);
      SignedProduct(16, Power(Hexadecimal, k - 1));
    }
  }

  lemma SignedShift(x: int, k: int)
    ensures Signed(x + k * WORD) == Signed(x)
  {
  }

  lemma SignedOffset(a: int) returns (k: int)
    ensures Signed(a) == a + k * WORD
  {
    k := -(a / WORD) - if a % WORD < 0x8000_0000 then 0 else 1;
  }

  /** A product with one factor cut to 32 bits is the same number of 32 bits. */
  lemma SignedProduct(d: int, a: int)
    ensures Signed(d * Signed(a)) == Signed(d * a)
  {
    var k := SignedOffset(a);
    assert d * (a + k * WORD) == d * a + (d * k) * WORD;
    SignedShift(d * a, d * k);
  }

  /** One digit more: the weighted sum of the shell is the value read from the left, shifted into place. */
  lemma WeightedStep(v: int, d: int, p: int)
    ensures v * (16 * p) + d * p == (16 * v + d) * p
  {
  }

  /** The sum after i digits: what they denote, shifted to its place in the whole number. */
  function AhexSum(text: seq<byte>, i: nat): int32
    requires i <= |text|
  {
    Signed(Value(Hexadecimal, text[..i]) * Power(Hexadecimal, |text| - i))
  }

  lemma AhexEnds(text: seq<byte>)
    ensures AhexSum(text, 0) == 0 && AhexSum(text, |text|) == Signed(Value(Hexadecimal, text))
  {
    assert text[..0] == [] && text[..|text|] == text;
  }

  /** What the loop makes of a digit that has k digits behind it. */
  function AddDigit(val: int32, c: byte, k: nat): int32 {
    Signed(val + Signed(DigitValue(c) * Pow(16, k)))
  }

  lemma AhexStep(text: seq<byte>, i: nat, val: int32)
    requires i < |text| && val == AhexSum(text, i)
    ensures AddDigit(val, text[i], |text| - 1 - i) == AhexSum(text, i + 1)
  {
    var v, d, p := Value(Hexadecimal, text[..i]), DigitValue(text[i]), Power(Hexadecimal, |text| - 1 - i);
    assert text[..i + 1][..i] == text[..i];
    assert val == Signed(v * (16 * p));
    PowIsPower(|text| - 1 - i);
    SignedProduct(d, p);
    SignedSum(v * (16 * p), d * p);
    WeightedStep(v, d, p);
    assert Value(Hexadecimal, text[..i + 1]) == 16 * v + d;
  }

  lemma SignedSum(a: int, b: int)
    ensures Signed(Signed(a) + Signed(b)) == Signed(a + b)
  {
    SignedStep(a, Signed(b));
    SignedStep(b, a);
  }

  /** str_conv_ahex_int: a sum of digits with weights, all in 32 bits, is the number the text denotes. */
  method StrConvAhexInt(hexStr: seq<byte>) returns (val: int32)
    requires 0 in hexStr
    ensures val == Signed(Value(Hexadecimal, CString(hexStr)))
  {
    var len := StrGetLen(hexStr);
    ghost var text, n := CString(hexStr), len - 1;
    val := 0;
    var i := 0;
    AhexEnds(text);
    while hexStr[i] != 0
      invariant i <= n
      invariant val == AhexSum(text, i)
      decreases n - i
    {
      assert hexStr[n] == 0;
      AhexStep(text, i, val);
      val := AddDigit(val, hexStr[i], len - 2 - i);
      i := i + 1;
    }
    CStringUnique(hexStr, i);
  }

  /** Kernel to shell and back: what itox prints, the shell reads as the same 32 bits, and as the same number
      exactly below 2 to the 31. */
  lemma HexRoundTrip(n: word, buf: seq<byte>)
    requires IsCString(buf, Numeral(Hexadecimal, n))
    ensures 0 in buf
    ensures var val := Signed(Value(Hexadecimal, CString(buf))); val % WORD == n && (val == n <==> n < 0x8000_0000)
  {
    var text := Numeral(Hexadecimal, n);
    NumeralIsCanonical(Hexadecimal, n);
    forall k | 0 <= k < |text| ensures buf[k] != 0 {
      assert buf[k] == text[k];
      assert text[k] in text;
    }
    CStringUnique(buf, |text|);
    assert CString(buf) == text;
    ValueOfNumeral(Hexadecimal, n);
    SignedWord(n);
  }
}
