/** The Base64 codec of common/src/crypto_utils.cpp.

    Both directions stream bits through an unsigned 32-bit accumulator that wraps, and a bit
    counter.  Words are integers below 2^32; the source's `<<`, `>>` and `&` with masks of
    ones are written out as a product that wraps, a quotient and a remainder.  The reference
    definition is section 4 of RFC 4648: 24-bit groups cut into four 6-bit digits, with a
    short final quantum zero-filled and padded with '='.
 */
module Base64 {

  type byte = x: int | 0 <= x < 0x100
  type word = x: int | 0 <= x < 0x1_0000_0000
  type digit = x: int | 0 <= x < 64

  datatype Result<+T> = Ok(value: T) | TooLong | IllegalCharacter

  const SIZE_MAX := 0xFFFF_FFFF_FFFF_FFFF
  const MAX_INPUT := SIZE_MAX / 4 * 3

  // ---------------------------------------------------------------- machine words

  function Pow2(k: nat): (p: nat)
    ensures p >= 1
  {
    if k == 0 then 1 else 2 * Pow2(k - 1)
  }

  // (acc << k) | low, for `low` that fits into the k freed bits.
  function ShiftIn(acc: word, k: nat, low: nat): word {
    (acc * Pow2(k) + low) % 0x1_0000_0000
  }

  // (acc >> k) & (2^width - 1)
  function Window(acc: word, k: nat, width: nat): nat {
    acc / Pow2(k) % Pow2(width)
  }

  lemma SmallPowers()
    ensures Pow2(0) == 1 && Pow2(2) == 4 && Pow2(4) == 16 && Pow2(6) == 64 && Pow2(8) == 256
  {
    assert Pow2(1) == 2 && Pow2(3) == 8 && Pow2(5) == 32 && Pow2(7) == 128;
  }

  lemma DivMod(x: int, d: int, q: int, r: int)
    requires 0 <= r < d && x == q * d + r
    ensures x / d == q && x % d == r
  {
    var e := x / d;
    assert (q - e) * d == x % d - r;
    if q > e {
      AtLeast(q - e, d);
    } else if q < e {
      AtLeast(e - q, d);
    }
  }

  lemma AtLeast(k: int, d: int)
    requires k >= 1 && d > 0
    ensures k * d >= d
  {
  }

  // ---------------------------------------------------------------- the alphabet

  // Table 1 of RFC 4648, which is also the content of `b64_table`.
  function Symbol(n: digit): char {
    if n < 26 then (n + 'A' as int) as char
    else if n < 52 then (n - 26 + 'a' as int) as char
    else if n < 62 then (n - 52 + '0' as int) as char
    else if n == 62 then '+'
    else '/'
  }

  // `reverse_table`, where 64 marks a character outside the alphabet.  The source throws for
  // a negative `char` as well; characters from 128 on stand for those.
  function ReverseTable(c: char): (n: nat)
    ensures n <= 64
  {
    if 'A' <= c <= 'Z' then c as int - 'A' as int
    else if 'a' <= c <= 'z' then c as int - 'a' as int + 26
    else if '0' <= c <= '9' then c as int - '0' as int + 52
    else if c == '+' then 62
    else if c == '/' then 63
    else 64
  }

  predicate InAlphabet(c: char) {
    ReverseTable(c) < 64
  }

  // What the decoder steps over: `isspace` of the C locale, and padding.
  predicate Skipped(c: char) {
    c == ' ' || 9 <= c as int <= 13 || c == '='
  }

  lemma AlphabetIsBijection(n: digit, c: char)
    ensures !Skipped(Symbol(n)) && ReverseTable(Symbol(n)) == n
    ensures InAlphabet(c) ==> Symbol(ReverseTable(c)) == c
  {
  }

  // ---------------------------------------------------------------- RFC 4648, section 4

  function Group24(a: byte, b: byte, c: byte): nat {
    a * 0x1_0000 + b * 0x100 + c
  }

  // The 6-bit digit number `r` of a 24-bit group.
  function DigitOfGroup(g: nat, r: nat): digit {
    match r
    case 0 => g / 0x4_0000 % 64
    case 1 => g / 0x1000 % 64
    case 2 => g / 64 % 64
    case _ => g % 64
  }

  // One quantum of four characters for a group that holds `bytes` input bytes.
  function Quantum(g: nat, bytes: nat): (text: string)
    requires 1 <= bytes <= 3
    ensures |text| == 4
  {
    [Symbol(DigitOfGroup(g, 0)),
     Symbol(DigitOfGroup(g, 1)),
     if bytes == 1 then '=' else Symbol(DigitOfGroup(g, 2)),
     if bytes <= 2 then '=' else Symbol(DigitOfGroup(g, 3))]
  }

  function Rfc4648(data: seq<byte>): string {
    if data == [] then []
    else if |data| == 1 then Quantum(Group24(data[0], 0, 0), 1)
    else if |data| == 2 then Quantum(Group24(data[0], data[1], 0), 2)
    else Quantum(Group24(data[0], data[1], data[2]), 3) + Rfc4648(data[3..])
  }

  // The same by position: `Sextet(data, k)` is digit `k` of the whole byte string.
  function ByteOrZero(data: seq<byte>, i: nat): byte {
    if i < |data| then data[i] else 0
  }

  function InputGroup(data: seq<byte>, q: nat): nat {
    Group24(ByteOrZero(data, 3 * q), ByteOrZero(data, 3 * q + 1), ByteOrZero(data, 3 * q + 2))
  }

  function Sextet(data: seq<byte>, k: nat): digit {
    DigitOfGroup(InputGroup(data, k / 4), k % 4)
  }

  // How many digits carry input bits; the rest of the last quantum is padding.
  function DigitCount(byteCount: nat): nat {
    (8 * byteCount + 5) / 6
  }

  function TextLength(byteCount: nat): nat {
    (byteCount + 2) / 3 * 4
  }

  lemma Counts(n: nat)
    ensures DigitCount(n) == n / 3 * 4 + (if n % 3 == 0 then 0 else n % 3 + 1)
    ensures TextLength(n) == n / 3 * 4 + (if n % 3 == 0 then 0 else 4)
  {
    var q, r := n / 3, n % 3;
    if r == 0 {
      DivMod(8 * n + 5, 6, 4 * q, 5);
      DivMod(n + 2, 3, q, 2);
    } else if r == 1 {
      DivMod(8 * n + 5, 6, 4 * q + 2, 1);
      DivMod(n + 2, 3, q + 1, 0);
    } else {
      DivMod(8 * n + 5, 6, 4 * q + 3, 3);
      DivMod(n + 2, 3, q + 1, 1);
    }
  }

  /** The guard is exact: it lets through just the inputs whose encoding has a length that fits `size_t`. */
  lemma GuardIsExact(n: nat)
    ensures n <= MAX_INPUT <==> TextLength(n) < 0x1_0000_0000_0000_0000
  {
    var q := (n + 2) / 3;
    assert TextLength(n) == q * 4;
  }

  function TextAt(data: seq<byte>, k: nat): char {
    if k < DigitCount(|data|) then Symbol(Sextet(data, k)) else '='
  }

  lemma {:induction false} Rfc4648At(data: seq<byte>)
    ensures |Rfc4648(data)| == TextLength(|data|)
    ensures forall k :: 0 <= k < TextLength(|data|) ==> Rfc4648(data)[k] == TextAt(data, k)
  {
    hide TextAt, Quantum, TextLength;
    LengthGrows(|data|);
    if data != [] {
      FirstQuantum(data);
    }
    if |data| >= 3 {
      Rfc4648At(data[3..]);
      forall k | 4 <= k < TextLength(|data|)
        ensures Rfc4648(data)[k] == TextAt(data, k)
      {
        assert Rfc4648(data)[k] == Rfc4648(data[3..])[k - 4];
        LaterQuantum(data, k);
      }
    }
  }

  lemma LengthGrows(n: nat)
    ensures n == 0 ==> TextLength(n) == 0
    ensures 0 < n < 3 ==> TextLength(n) == 4
    ensures n >= 3 ==> TextLength(n) == 4 + TextLength(n - 3)
  {
  }

  lemma FirstQuantum(data: seq<byte>)
    requires data != []
    ensures |Rfc4648(data)| >= 4 && forall k :: 0 <= k < 4 ==> Rfc4648(data)[k] == TextAt(data, k)
  {
    hide Symbol, DigitOfGroup, Group24;
    var text := Rfc4648(data);
    assert |data| <= 2 ==> text == Quantum(InputGroup(data, 0), |data|);
    assert |data| >= 3 ==> text[..4] == Quantum(InputGroup(data, 0), 3);
    Counts(|data|);
  }

  lemma LaterQuantum(data: seq<byte>, k: nat)
    requires |data| >= 3 && k >= 4
    ensures TextAt(data, k) == TextAt(data[3..], k - 4)
  {
    var q := k / 4;
    assert (k - 4) / 4 == q - 1 && (k - 4) % 4 == k % 4;
    assert InputGroup(data, q) == InputGroup(data[3..], q - 1);
  }

  // ---------------------------------------------------------------- the encoder

  // A window of the accumulator against the digit of the 24-bit group it must be, for each
  // number of bits left behind.  Only the low bits of the accumulator are known.
  lemma WindowAt2(acc: nat, a: nat, rest: nat)
    requires acc % 0x100 == a && rest < 0x1_0000
    ensures acc / 4 % 64 == (a * 0x1_0000 + rest) / 0x4_0000 % 64
  {
    var h := acc / 0x100;
    DivMod(acc, 4, h * 64 + a / 4, a % 4);
    DivMod(h * 64 + a / 4, 64, h, a / 4);
    DivMod(a * 0x1_0000 + rest, 0x4_0000, a / 4, a % 4 * 0x1_0000 + rest);
  }

  lemma WindowAt4(acc: nat, a: nat, b: nat, c: nat)
    requires acc % 0x1_0000 == a * 0x100 + b && a < 0x100 && b < 0x100 && c < 0x100
    ensures acc / 16 % 64 == (a * 0x1_0000 + b * 0x100 + c) / 0x1000 % 64
  {
    var h, t := acc / 0x1_0000, a * 16 + b / 16;
    DivMod(acc, 16, h * 0x1000 + t, b % 16);
    DivMod(a * 0x1_0000 + b * 0x100 + c, 0x1000, t, b % 16 * 0x100 + c);
    DivMod(h * 0x1000 + t, 64, h * 64 + t / 64, t % 64);
  }

  lemma WindowAt6(acc: nat, a: nat, b: nat, c: nat)
    requires acc % 0x1_0000 == b * 0x100 + c && b < 0x100 && c < 0x100
    ensures acc / 64 % 64 == (a * 0x1_0000 + b * 0x100 + c) / 64 % 64
  {
    var h, t := acc / 0x1_0000, b * 4 + c / 64;
    DivMod(acc, 64, h * 0x400 + t, c % 64);
    DivMod(a * 0x1_0000 + b * 0x100 + c, 64, a * 0x400 + t, c % 64);
    DivMod(h * 0x400 + t, 64, h * 16 + t / 64, t % 64);
    DivMod(a * 0x400 + t, 64, a * 16 + t / 64, t % 64);
  }

  lemma WindowAt0(acc: nat, ab: nat, c: nat)
    requires acc % 0x100 == c
    ensures acc % 64 == (ab * 0x100 + c) % 64
  {
    DivMod(acc, 64, acc / 0x100 * 4 + c / 64, c % 64);
    DivMod(ab * 0x100 + c, 64, ab * 4 + c / 64, c % 64);
  }

  // What the accumulator is known to hold after byte `i` went in; its high part has wrapped.
  ghost predicate HoldsByte(acc: word, data: seq<byte>, i: nat)
    requires i < |data|
  {
    && acc % 0x100 == data[i]
    && (i > 0 ==> acc % 0x1_0000 == data[i - 1] as int * 0x100 + data[i])
  }

  lemma DigitOut(data: seq<byte>, i: nat, acc: word, bits: nat, k: nat)
    requires i < |data| && bits in {0, 2, 4, 6} && bits + 6 * k == 8 * (i + 1) - 6
    requires HoldsByte(acc, data, i)
    ensures Window(acc, bits, 6) == Sextet(data, k)
  {
    SmallPowers();
    var q := i / 3;
    var a, b, c: int := ByteOrZero(data, 3 * q), ByteOrZero(data, 3 * q + 1), ByteOrZero(data, 3 * q + 2);
    if bits == 0 {
      assert k == 4 * q + 3 && i == 3 * q + 2;
      WindowAt0(acc, a * 0x100 + b, c);
    } else if bits == 2 {
      assert k == 4 * q && i == 3 * q;
      WindowAt2(acc, a, b * 0x100 + c);
    } else if bits == 4 {
      assert k == 4 * q + 1 && i == 3 * q + 1;
      WindowAt4(acc, a, b, c);
    } else {
      assert k == 4 * q + 2 && i == 3 * q + 2;
      WindowAt6(acc, a, b, c);
    }
  }

  // The left-over bits, shifted up to a whole digit after the loop.
  lemma LastDigitOut(data: seq<byte>, acc: word, bits: nat, k: nat)
    requires |data| > 0 && bits in {2, 4} && bits + 6 * k == 8 * |data|
    requires HoldsByte(acc, data, |data| - 1)
    ensures Window(ShiftIn(acc, 6 - bits, 0), 0, 6) == Sextet(data, k)
  {
    SmallPowers();
    var q := (|data| - 1) / 3;
    if bits == 2 {
      assert k == 4 * q + 1 && |data| == 3 * q + 1;
      LastOf2(acc, data[|data| - 1]);
    } else {
      assert k == 4 * q + 2 && |data| == 3 * q + 2;
      var a, b: int := data[|data| - 2], data[|data| - 1];
      LastOf4(acc, a, b);
    }
  }

  lemma LastOf2(acc: nat, a: nat)
    requires acc % 0x100 == a
    ensures acc * 16 % 0x1_0000_0000 % 64 == a * 0x1_0000 / 0x1000 % 64
  {
    var w, h := acc * 16 / 0x1_0000_0000, acc / 0x100;
    DivMod(acc * 16 - w * 0x1_0000_0000, 64, h * 64 + a / 4 - w * 0x400_0000, a % 4 * 16);
    DivMod(a * 0x1_0000, 0x1000, a * 16, 0);
    DivMod(a * 16, 64, a / 4, a % 4 * 16);
  }

  lemma LastOf4(acc: nat, a: nat, b: nat)
    requires acc % 0x100 == b
    ensures acc * 4 % 0x1_0000_0000 % 64 == (a * 0x1_0000 + b * 0x100) / 64 % 64
  {
    var w, h := acc * 4 / 0x1_0000_0000, acc / 0x100;
    DivMod(acc * 4 - w * 0x1_0000_0000, 64, h * 16 + b / 16 - w * 0x400_0000, b % 16 * 4);
    DivMod(a * 0x1_0000 + b * 0x100, 64, a * 0x400 + b * 4, 0);
    DivMod(a * 0x400 + b * 4, 64, a * 16 + b / 16, b % 16 * 4);
  }

  lemma PushByte(data: seq<byte>, i: nat, acc: word)
    requires i < |data|
    requires i > 0 ==> HoldsByte(acc, data, i - 1)
    ensures HoldsByte(ShiftIn(acc, 8, data[i]), data, i)
  {
    SmallPowers();
    var b: int := data[i];
    var w := (acc * 0x100 + b) / 0x1_0000_0000;
    var y := acc * 0x100 + b - w * 0x1_0000_0000;
    DivMod(y, 0x100, acc - w * 0x100_0000, b);
    DivMod(y, 0x1_0000, acc / 0x100 - w * 0x1_0000, acc % 0x100 * 0x100 + b);
  }

  // The first `outpos` characters are out and the rest is still padding.
  ghost predicate Written(text: seq<char>, data: seq<byte>, outpos: nat) {
    && outpos <= |text| == TextLength(|data|)
    && (forall k :: 0 <= k < outpos ==> text[k] == Symbol(Sextet(data, k)))
    && (forall k :: outpos <= k < |text| ==> text[k] == '=')
  }

  lemma WriteDigit(text: seq<char>, data: seq<byte>, outpos: nat)
    requires Written(text, data, outpos) && outpos < |text|
    ensures Written(text[outpos := Symbol(Sextet(data, outpos))], data, outpos + 1)
  {
    hide Sextet, Symbol;
  }

  lemma AllWritten(text: seq<char>, data: seq<byte>, outpos: nat)
    requires Written(text, data, outpos) && outpos == DigitCount(|data|)
    ensures text == Rfc4648(data)
  {
    Rfc4648At(data);
    hide Sextet, Symbol, Rfc4648;
  }

  // `retval.size() - 2` is in bounds for all but the empty input, where it wraps and nothing is to be
  // returned anyway.
  lemma LastExit(n: nat)
    requires n <= MAX_INPUT
    ensures n > 0 ==> (TextLength(n) - 2) % (SIZE_MAX + 1) <= DigitCount(n) <= TextLength(n)
    ensures n == 0 ==> (TextLength(n) - 2) % (SIZE_MAX + 1) > DigitCount(n) && Rfc4648([]) == []
  {
    Counts(n);
  }

  /** `base64Encode`.  Every byte string within the length guard is encoded; in particular the
      two early exits that would return an empty string are never taken for other input. */
  method Encode(data: seq<byte>) returns (r: Result<string>)
    ensures r == if |data| > MAX_INPUT then TooLong else Ok(Rfc4648(data))
  {
    hide Sextet, Symbol, Window, ShiftIn, HoldsByte, Rfc4648, DigitCount;
    if |data| > MAX_INPUT {
      return TooLong;
    }
    var text := new char[(|data| + 2) / 3 * 4](_ => '=');
    var outpos, bits := 0, 0;
    var acc: word := 0;
    Counts(|data|);
    assert Written(text[..], data, outpos);
    hide Written;
    for i := 0 to |data|
      invariant bits == 8 * i - 6 * outpos && bits in {0, 2, 4}
      invariant i > 0 ==> HoldsByte(acc, data, i - 1)
      invariant Written(text[..], data, outpos)
    {
      PushByte(data, i, acc);
      acc := ShiftIn(acc, 8, data[i]);
      bits := bits + 8;
      while bits >= 6
        invariant bits == 8 * (i + 1) - 6 * outpos && bits in {0, 2, 4, 6, 8, 10, 12}
        invariant HoldsByte(acc, data, i)
        invariant Written(text[..], data, outpos)
      {
        bits := bits - 6;
        DigitOut(data, i, acc, bits, outpos);
        WriteDigit(text[..], data, outpos);
        text[outpos] := Symbol(Window(acc, bits, 6));
        outpos := outpos + 1;
      }
    }
    if bits > 0 {
      if bits >= 6 {
        return Ok([]);
      }
      LastDigitOut(data, acc, bits, outpos);
      WriteDigit(text[..], data, outpos);
      acc := ShiftIn(acc, 6 - bits, 0);
      text[outpos] := Symbol(Window(acc, 0, 6));
      outpos := outpos + 1;
    }
    AllWritten(text[..], data, outpos);
    LastExit(|data|);
    // `retval.size() - 2` wraps for the empty input, so that the last exit is taken there.
    if outpos >= (text.Length - 2) % (SIZE_MAX + 1) && outpos <= text.Length {
      return Ok(text[..]);
    }
    return Ok([]);
  }

  // ---------------------------------------------------------------- the decoder

  predicate Legal(text: string) {
    forall i :: 0 <= i < |text| ==> Skipped(text[i]) || InAlphabet(text[i])
  }

  // The digits of a text in order, without whitespace and padding.
  function Digits(text: string): seq<digit>
    requires Legal(text)
  {
    if text == [] then []
    else
      var c := text[|text| - 1];
      Digits(text[..|text| - 1]) + if Skipped(c) then [] else [ReverseTable(c)]
  }

  function DigitOrZero(ds: seq<digit>, k: nat): digit {
    if k < |ds| then ds[k] else 0
  }

  function DigitGroup(ds: seq<digit>, q: nat): nat {
    DigitOrZero(ds, 4 * q) * 0x4_0000 + DigitOrZero(ds, 4 * q + 1) * 0x1000
    + DigitOrZero(ds, 4 * q + 2) * 64 + DigitOrZero(ds, 4 * q + 3)
  }

  // The byte number `j` of a digit string, read from the 24-bit group it lies in.
  function Octet(ds: seq<digit>, j: nat): byte {
    var g := DigitGroup(ds, j / 3);
    match j % 3
    case 0 => g / 0x1_0000 % 0x100
    case 1 => g / 0x100 % 0x100
    case _ => g % 0x100
  }

  function Bytes(ds: seq<digit>): seq<byte> {
    seq(6 * |ds| / 8, j requires 0 <= j => Octet(ds, j))
  }

  function Decoded(text: string): seq<byte>
    requires Legal(text)
  {
    Bytes(Digits(text))
  }

  lemma PushDigit(acc: word, d: digit)
    ensures ShiftIn(acc, 6, d) % 64 == d
    ensures ShiftIn(acc, 6, d) % 0x1000 == acc % 64 * 64 + d
  {
    SmallPowers();
    var w := (acc * 64 + d) / 0x1_0000_0000;
    var y := acc * 64 + d - w * 0x1_0000_0000;
    DivMod(y, 64, acc - w * 0x400_0000, d);
    DivMod(y, 0x1000, acc / 64 - w * 0x10_0000, acc % 64 * 64 + d);
  }

  // The bytes of a 24-bit group, each from the two digits it overlaps.
  lemma BytesOfGroup(a: nat, b: nat, c: nat, d: nat)
    requires a < 64 && b < 64 && c < 64 && d < 64
    ensures var g := a * 0x4_0000 + b * 0x1000 + c * 64 + d;
            && g / 0x1_0000 % 0x100 == a * 4 + b / 16
            && g / 0x100 % 0x100 == b % 16 * 16 + c / 4
            && g % 0x100 == c % 4 * 64 + d
  {
    var g := a * 0x4_0000 + b * 0x1000 + c * 64 + d;
    DivMod(g, 0x1_0000, a * 4 + b / 16, b % 16 * 0x1000 + c * 64 + d);
    DivMod(g, 0x100, a * 0x400 + b * 16 + c / 4, c % 4 * 64 + d);
    DivMod(a * 0x400 + b * 16 + c / 4, 0x100, a * 4 + b / 16, b % 16 * 16 + c / 4);
  }

  // The accumulator's window after digits `a` and `b`, for each number of bits left behind.
  lemma WindowOfDigits(acc: nat, a: nat, b: nat)
    requires acc % 0x1000 == a * 64 + b && a < 64 && b < 64
    ensures acc / 16 % 0x100 == a * 4 + b / 16
    ensures acc / 4 % 0x100 == a % 16 * 16 + b / 4
    ensures acc % 0x100 == a % 4 * 64 + b
  {
    var h := acc / 0x1000;
    DivMod(acc, 16, h * 0x100 + a * 4 + b / 16, b % 16);
    DivMod(h * 0x100 + a * 4 + b / 16, 0x100, h, a * 4 + b / 16);
    DivMod(acc, 4, h * 0x400 + a * 16 + b / 4, b % 4);
    DivMod(h * 0x400 + a * 16 + b / 4, 0x100, h * 4 + a / 16, a % 16 * 16 + b / 4);
    DivMod(acc, 0x100, h * 16 + a / 4, a % 4 * 64 + b);
  }

  // The three bytes of the group number `q`.
  lemma OctetsOfGroup(ds: seq<digit>, q: nat)
    ensures
      var a, b, c, d: int :=
        DigitOrZero(ds, 4 * q), DigitOrZero(ds, 4 * q + 1), DigitOrZero(ds, 4 * q + 2), DigitOrZero(ds, 4 * q + 3);
      && Octet(ds, 3 * q) == a * 4 + b / 16
      && Octet(ds, 3 * q + 1) == b % 16 * 16 + c / 4
      && Octet(ds, 3 * q + 2) == c % 4 * 64 + d
  {
    var j := 3 * q;
    assert j / 3 == q && j % 3 == 0 && (j + 1) / 3 == q && (j + 1) % 3 == 1 && (j + 2) / 3 == q && (j + 2) % 3 == 2;
    hide DigitOrZero;
    BytesOfGroup(DigitOrZero(ds, 4 * q), DigitOrZero(ds, 4 * q + 1),
                 DigitOrZero(ds, 4 * q + 2), DigitOrZero(ds, 4 * q + 3));
  }

  lemma OctetOut(ds: seq<digit>, acc: word, bits: nat, j: nat)
    requires |ds| >= 2 && bits in {0, 2, 4} && bits + 8 * j == 6 * |ds| - 8
    requires acc % 0x1000 == ds[|ds| - 2] as int * 64 + ds[|ds| - 1]
    ensures Window(acc, bits, 8) == Octet(ds, j)
  {
    hide Octet;
    SmallPowers();
    WindowOfDigits(acc, ds[|ds| - 2], ds[|ds| - 1]);
    var q := j / 3;
    OctetsOfGroup(ds, q);
    assert bits == 4 ==> j == 3 * q && |ds| == 4 * q + 2;
    assert bits == 2 ==> j == 3 * q + 1 && |ds| == 4 * q + 3;
    assert bits == 0 ==> j == 3 * q + 2 && |ds| == 4 * q + 4;
  }

  // Bytes already out do not change when one more digit arrives.
  lemma BytesGrow(ds: seq<digit>, d: digit, j: nat)
    requires j < 6 * |ds| / 8
    ensures Octet(ds, j) == Octet(ds + [d], j)
  {
    hide Octet;
    var q := j / 3;
    OctetsOfGroup(ds, q);
    OctetsOfGroup(ds + [d], q);
    assert j == 3 * q ==> 4 * q + 1 < |ds|;
    assert j == 3 * q + 1 ==> 4 * q + 2 < |ds|;
    assert j == 3 * q + 2 ==> 4 * q + 3 < |ds|;
  }

  // One digit into the decoder: at most one byte comes out, and it is the next one.
  lemma DigitIn(ds: seq<digit>, d: digit, acc: word)
    requires ds != [] ==> acc % 64 == ds[|ds| - 1]
    ensures var acc', bits := ShiftIn(acc, 6, d), 6 * |ds| % 8 + 6;
            && acc' % 64 == d
            && Bytes(ds + [d]) == Bytes(ds) + if bits >= 8 then [Window(acc', bits - 8, 8)] else []
  {
    PushDigit(acc, d);
    var ds' := ds + [d];
    forall j: nat | j < 6 * |ds| / 8
      ensures Octet(ds, j) == Octet(ds', j)
    {
      BytesGrow(ds, d, j);
    }
    if 6 * |ds| % 8 + 6 >= 8 {
      OctetOut(ds', ShiftIn(acc, 6, d), 6 * |ds| % 8 - 2, 6 * |ds| / 8);
    }
  }

  // How many bits are left over after another digit.
  lemma BitsLeft(n: nat)
    ensures 6 * n % 8 <= 6
    ensures 6 * (n + 1) % 8 == 6 * n % 8 + 6 - if 6 * n % 8 >= 2 then 8 else 0
  {
    var q, r := 6 * n / 8, 6 * n % 8;
    DivMod(3 * n, 4, q, 3 * n - 4 * q);
    DivMod(6 * (n + 1), 8, if r >= 2 then q + 1 else q, if r >= 2 then r - 2 else r + 6);
  }

  /** `base64Decode` */
  method Decode(text: string) returns (r: Result<seq<byte>>)
    ensures r == if Legal(text) then Ok(Decoded(text)) else IllegalCharacter
  {
    hide Window, ShiftIn, Bytes, ReverseTable, Skipped, Legal, Digits, InAlphabet;
    var data: seq<byte> := [];
    var bits := 0;
    var acc: word := 0;
    ghost var ds: seq<digit> := [];
    NoDigitsNoBytes();
    assert text[..0] == [];
    for i := 0 to |text|
      invariant Legal(text[..i]) && ds == Digits(text[..i])
      invariant data == Bytes(ds) && bits == 6 * |ds| % 8
      invariant ds != [] ==> acc % 64 == ds[|ds| - 1]
    {
      var c := text[i];
      OneMoreCharacter(text, i);
      if Skipped(c) {
        continue;
      }
      if ReverseTable(c) > 63 {
        return IllegalCharacter;
      }
      DigitIn(ds, ReverseTable(c), acc);
      BitsLeft(|ds|);
      ds := ds + [ReverseTable(c)];
      acc := ShiftIn(acc, 6, ReverseTable(c));
      bits := bits + 6;
      if bits >= 8 {
        bits := bits - 8;
        data := data + [Window(acc, bits, 8)];
      }
    }
    assert text[..|text|] == text;
    return Ok(data);
  }

  predicate Blank(c: char) {
    c in " \t\n\r=" || c as int == 11 || c as int == 12
  }

  // The characters that count.
  function Solid(text: string): string {
    if text == [] then []
    else Solid(text[..|text| - 1]) + if Blank(text[|text| - 1]) then [] else [text[|text| - 1]]
  }

  /** Whitespace and padding make no difference, wherever they stand. */
  lemma {:induction false} BlanksAreSkipped(text: string)
    ensures Legal(text) <==> Legal(Solid(text))
    ensures Legal(text) ==> Decoded(text) == Decoded(Solid(text))
    ensures Legal(text) ==> Digits(text) == Digits(Solid(text))
  {
    if text != [] {
      hide Blank, Legal, Digits, Bytes;
      var n := |text| - 1;
      var c, solid := text[n], Solid(text[..n]);
      BlanksAreSkipped(text[..n]);
      assert text == text[..n] + [c];
      BlankStep(text[..n], solid, c);
      assert Solid(text) == if Blank(c) then solid else solid + [c];
    }
  }

  lemma BlankStep(text: string, solid: string, c: char)
    requires Legal(text) <==> Legal(solid)
    requires Legal(text) ==> Digits(text) == Digits(solid)
    ensures var solid' := if Blank(c) then solid else solid + [c];
            && (Legal(text + [c]) <==> Legal(solid'))
            && (Legal(text + [c]) ==> Digits(text + [c]) == Digits(solid'))
  {
    hide Skipped, Blank, InAlphabet, ReverseTable, Legal, Digits;
    BlankIsSkipped(c);
    OneMoreDigit(text, c);
    OneMoreDigit(solid, c);
  }

  lemma OneMoreDigit(text: string, c: char)
    ensures Legal(text + [c]) <==> Legal(text) && (Skipped(c) || InAlphabet(c))
    ensures Legal(text + [c]) ==> Digits(text + [c]) == Digits(text) + if Skipped(c) then [] else [ReverseTable(c)]
  {
    hide Skipped;
    assert forall i :: 0 <= i < |text| ==> (text + [c])[i] == text[i];
    assert (text + [c])[|text|] == c && (text + [c])[..|text|] == text;
  }

  lemma BlankIsSkipped(c: char)
    ensures Blank(c) <==> Skipped(c)
    ensures Skipped(c) ==> !InAlphabet(c)
  {
  }

  lemma NoDigitsNoBytes()
    ensures Legal([]) && Digits([]) == [] && Bytes([]) == []
  {
  }

  // One turn of the loop: what the next character does to the digits.
  lemma OneMoreCharacter(text: string, i: nat)
    requires i < |text| && Legal(text[..i])
    ensures Skipped(text[i]) || ReverseTable(text[i]) <= 63 <==> Legal(text[..i + 1])
    ensures ReverseTable(text[i]) > 63 && !Skipped(text[i]) ==> !Legal(text)
    ensures Legal(text[..i + 1]) ==>
            Digits(text[..i + 1]) == Digits(text[..i]) + if Skipped(text[i]) then [] else [ReverseTable(text[i])]
  {
    hide Skipped, ReverseTable;
    assert text[..i + 1][..i] == text[..i] && text[..i + 1][i] == text[i];
    assert forall j :: 0 <= j < i ==> text[..i + 1][j] == text[..i][j];
  }

  // ---------------------------------------------------------------- round trips

  // The text that spells `ds` and then has `pads` padding characters.
  function Spelled(ds: seq<digit>, pads: nat): string {
    seq(|ds|, i requires 0 <= i < |ds| => Symbol(ds[i])) + seq(pads, _ => '=')
  }

  lemma {:induction false} DigitsOfSpelled(ds: seq<digit>, pads: nat)
    ensures Legal(Spelled(ds, pads)) && Digits(Spelled(ds, pads)) == ds
    decreases |ds| + pads
  {
    var text := Spelled(ds, pads);
    if pads > 0 {
      DigitsOfSpelled(ds, pads - 1);
      assert text == Spelled(ds, pads - 1) + ['='];
    } else if ds != [] {
      var d := ds[|ds| - 1];
      DigitsOfSpelled(ds[..|ds| - 1], 0);
      assert text == Spelled(ds[..|ds| - 1], 0) + [Symbol(d)];
      AlphabetIsBijection(d, '=');
      assert ds == ds[..|ds| - 1] + [d];
    }
  }

  function Sextets(data: seq<byte>): seq<digit> {
    seq(DigitCount(|data|), k requires 0 <= k => Sextet(data, k))
  }

  lemma SpelledAt(data: seq<byte>, k: nat)
    requires DigitCount(|data|) <= TextLength(|data|) && k < TextLength(|data|)
    ensures var text := Spelled(Sextets(data), TextLength(|data|) - DigitCount(|data|));
            |text| == TextLength(|data|) && text[k] == TextAt(data, k)
  {
    hide Sextet, Symbol, DigitCount, TextLength;
  }

  lemma DigitsFit(n: nat)
    ensures DigitCount(n) <= TextLength(n)
    ensures TextLength(n) == 0 ==> n == 0 && DigitCount(n) == 0
  {
    Counts(n);
  }

  lemma EncodingIsSpelled(data: seq<byte>)
    ensures DigitCount(|data|) <= TextLength(|data|)
    ensures Rfc4648(data) == Spelled(Sextets(data), TextLength(|data|) - DigitCount(|data|))
  {
    hide Spelled, Sextets, TextAt, Rfc4648, DigitCount, TextLength;
    DigitsFit(|data|);
    Rfc4648At(data);
    var text := Spelled(Sextets(data), TextLength(|data|) - DigitCount(|data|));
    if TextLength(|data|) == 0 {
      SpelledNothing();
    } else {
      SpelledAt(data, 0);
    }
    forall k | 0 <= k < |text|
      ensures text[k] == Rfc4648(data)[k]
    {
      SpelledAt(data, k);
    }
  }

  lemma SpelledNothing()
    ensures Spelled(Sextets([]), 0) == []
  {
  }

  // The four digits of the group number `q`.
  lemma SextetsOfGroup(data: seq<byte>, q: nat)
    ensures
      var a, b, c: int := ByteOrZero(data, 3 * q), ByteOrZero(data, 3 * q + 1), ByteOrZero(data, 3 * q + 2);
      && Sextet(data, 4 * q) == a / 4
      && Sextet(data, 4 * q + 1) == a % 4 * 16 + b / 16
      && Sextet(data, 4 * q + 2) == b % 16 * 4 + c / 64
      && Sextet(data, 4 * q + 3) == c % 64
  {
    var k := 4 * q;
    assert k / 4 == q && k % 4 == 0 && (k + 1) / 4 == q && (k + 1) % 4 == 1;
    assert (k + 2) / 4 == q && (k + 2) % 4 == 2 && (k + 3) / 4 == q && (k + 3) % 4 == 3;
    hide ByteOrZero;
    DigitsOfGroup(ByteOrZero(data, 3 * q), ByteOrZero(data, 3 * q + 1), ByteOrZero(data, 3 * q + 2));
  }

  lemma DigitsOfGroup(a: nat, b: nat, c: nat)
    requires a < 0x100 && b < 0x100 && c < 0x100
    ensures var g := a * 0x1_0000 + b * 0x100 + c;
            && g / 0x4_0000 % 64 == a / 4
            && g / 0x1000 % 64 == a % 4 * 16 + b / 16
            && g / 64 % 64 == b % 16 * 4 + c / 64
            && g % 64 == c % 64
  {
    var g := a * 0x1_0000 + b * 0x100 + c;
    DivMod(g, 0x4_0000, a / 4, a % 4 * 0x1_0000 + b * 0x100 + c);
    DivMod(g, 0x1000, a * 16 + b / 16, b % 16 * 0x100 + c);
    DivMod(a * 16 + b / 16, 64, a / 4, a % 4 * 16 + b / 16);
    DivMod(g, 64, a * 0x400 + b * 4 + c / 64, c % 64);
    DivMod(a * 0x400 + b * 4 + c / 64, 64, a * 16 + b / 16, b % 16 * 4 + c / 64);
  }

  lemma CutBytes(a: nat, b: nat, c: nat)
    requires a < 0x100 && b < 0x100 && c < 0x100
    ensures a / 4 * 4 + (a % 4 * 16 + b / 16) / 16 == a
    ensures (a % 4 * 16 + b / 16) % 16 * 16 + (b % 16 * 4 + c / 64) / 4 == b
    ensures (b % 16 * 4 + c / 64) % 4 * 64 + c % 64 == c
  {
  }

  lemma OctetOfSextets(data: seq<byte>, j: nat)
    requires j < |data|
    ensures Octet(Sextets(data), j) == data[j]
  {
    hide Octet, Sextet;
    var q, ds := j / 3, Sextets(data);
    OctetsOfGroup(ds, q);
    SextetsOfGroup(data, q);
    CutBytes(ByteOrZero(data, 3 * q), ByteOrZero(data, 3 * q + 1), ByteOrZero(data, 3 * q + 2));
    Counts(|data|);
    hide DigitCount;
    if j == 3 * q {
      assert 4 * q + 1 < |ds|;
    } else if j == 3 * q + 1 {
      assert 4 * q + 2 < |ds|;
    } else {
      assert 4 * q + 3 < |ds|;
    }
  }

  lemma BytesOfSextets(data: seq<byte>)
    ensures Bytes(Sextets(data)) == data
  {
    forall j: nat | j < |data|
      ensures Octet(Sextets(data), j) == data[j]
    {
      OctetOfSextets(data, j);
    }
    hide Octet, Sextet;
    assert 6 * |Sextets(data)| / 8 == |data|;
  }

  /** Decoding undoes encoding, for every byte string. */
  lemma DecodeEncode(data: seq<byte>)
    ensures Legal(Rfc4648(data))
    ensures Decoded(Rfc4648(data)) == data
  {
    EncodingIsSpelled(data);
    DigitsOfSpelled(Sextets(data), TextLength(|data|) - DigitCount(|data|));
    BytesOfSextets(data);
  }

  function Padding(text: string): (p: nat)
    ensures p <= |text|
  {
    if text != [] && text[|text| - 1] == '=' then 1 + Padding(text[..|text| - 1]) else 0
  }

  // A canonical encoding: whole quanta of alphabet characters, at most two padding characters
  // at the end, and zeros in the bits that the padding cuts off.
  predicate Canonical(text: string) {
    var p := Padding(text);
    && |text| % 4 == 0
    && p <= 2
    && (forall i :: 0 <= i < |text| - p ==> InAlphabet(text[i]))
    && (p == 1 ==> |text| >= 2 && ReverseTable(text[|text| - 2]) % 4 == 0)
    && (p == 2 ==> |text| >= 3 && ReverseTable(text[|text| - 3]) % 16 == 0)
  }

  // No input bits lie beyond the last whole byte.
  ghost predicate NoTail(ds: seq<digit>) {
    && |ds| % 4 != 1
    && (|ds| % 4 == 2 ==> ds[|ds| - 1] % 16 == 0)
    && (|ds| % 4 == 3 ==> ds[|ds| - 1] % 4 == 0)
  }

  lemma CutDigits(a: nat, b: nat, c: nat, d: nat)
    requires a < 64 && b < 64 && c < 64 && d < 64
    ensures (a * 4 + b / 16) / 4 == a
    ensures (a * 4 + b / 16) % 4 * 16 + (b % 16 * 16 + c / 4) / 16 == b
    ensures (b % 16 * 16 + c / 4) % 16 * 4 + (c % 4 * 64 + d) / 64 == c
    ensures (c % 4 * 64 + d) % 64 == d
  {
  }

  lemma TailLength(ds: seq<digit>)
    requires |ds| % 4 != 1
    ensures |Bytes(ds)| == |ds| / 4 * 3 + (if |ds| % 4 == 0 then 0 else |ds| % 4 - 1)
    ensures DigitCount(|Bytes(ds)|) == |ds|
    ensures TextLength(|Bytes(ds)|) == (|ds| + 3) / 4 * 4
  {
    hide Octet, DigitCount, TextLength;
    var g, r := |ds| / 4, |ds| % 4;
    var n := |Bytes(ds)|;
    DivMod(6 * |ds|, 8, 3 * g + 6 * r / 8, 6 * r % 8);
    DivMod(n, 3, g, if r == 0 then 0 else r - 1);
    DivMod(|ds| + 3, 4, if r == 0 then g else g + 1, if r == 0 then 3 else r - 1);
    Counts(n);
  }

  // No digits behind the last byte but zeros: each byte of a group can be read off its digits.
  lemma BytesOf(ds: seq<digit>, q: nat)
    requires NoTail(ds) && 4 * q < |ds|
    ensures ByteOrZero(Bytes(ds), 3 * q) == Octet(ds, 3 * q)
    ensures ByteOrZero(Bytes(ds), 3 * q + 1) == Octet(ds, 3 * q + 1)
    ensures ByteOrZero(Bytes(ds), 3 * q + 2) == Octet(ds, 3 * q + 2)
  {
    hide Octet;
    OctetsOfGroup(ds, q);
    var n := |Bytes(ds)|;
    assert n == |ds| / 4 * 3 + (if |ds| % 4 == 0 then 0 else |ds| % 4 - 1) by {
      TailLength(ds);
    }
    if |ds| == 4 * q + 2 {
      assert n == 3 * q + 1;
    } else if |ds| == 4 * q + 3 {
      assert n == 3 * q + 2;
    } else {
      assert n >= 3 * q + 3;
    }
  }

  lemma SextetOfBytes(ds: seq<digit>, k: nat)
    requires NoTail(ds) && k < |ds|
    ensures Sextet(Bytes(ds), k) == ds[k]
  {
    hide Octet, Sextet, Bytes, NoTail;
    var q, data := k / 4, Bytes(ds);
    BytesOf(ds, q);
    SextetsOfGroup(data, q);
    OctetsOfGroup(ds, q);
    CutDigits(DigitOrZero(ds, 4 * q), DigitOrZero(ds, 4 * q + 1), DigitOrZero(ds, 4 * q + 2), DigitOrZero(ds, 4 * q + 3));
    assert k == 4 * q || k == 4 * q + 1 || k == 4 * q + 2 || k == 4 * q + 3;
  }

  lemma SextetsOfBytes(ds: seq<digit>)
    requires NoTail(ds)
    ensures Sextets(Bytes(ds)) == ds
  {
    forall k: nat | k < |ds|
      ensures Sextet(Bytes(ds), k) == ds[k]
    {
      SextetOfBytes(ds, k);
    }
    hide Octet, Sextet, NoTail;
    assert DigitCount(|Bytes(ds)|) == |ds| by {
      TailLength(ds);
    }
  }

  lemma {:induction false} PaddingIsSuffix(text: string)
    ensures forall i :: |text| - Padding(text) <= i < |text| ==> text[i] == '='
  {
    if text != [] && text[|text| - 1] == '=' {
      PaddingIsSuffix(text[..|text| - 1]);
    }
  }

  lemma {:induction false} PaddingOfSpelled(ds: seq<digit>, pads: nat)
    ensures Padding(Spelled(ds, pads)) == pads
  {
    if pads > 0 {
      PaddingOfSpelled(ds, pads - 1);
      assert Spelled(ds, pads)[..|ds| + pads - 1] == Spelled(ds, pads - 1);
    } else if ds != [] {
      AlphabetIsBijection(ds[|ds| - 1], '=');
    }
  }

  lemma SpelledDigit(ds: seq<digit>, pads: nat, i: nat)
    requires i < |ds|
    ensures InAlphabet(Spelled(ds, pads)[i]) && ReverseTable(Spelled(ds, pads)[i]) == ds[i]
  {
    AlphabetIsBijection(ds[i], '=');
  }

  // Spelled texts are canonical when they fill whole quanta and lose no bits.
  lemma SpelledIsCanonical(ds: seq<digit>, pads: nat)
    requires NoTail(ds) && pads == (|ds| + 3) / 4 * 4 - |ds|
    ensures Canonical(Spelled(ds, pads))
  {
    PaddingOfSpelled(ds, pads);
    forall i: nat | i < |ds|
      ensures InAlphabet(Spelled(ds, pads)[i]) && ReverseTable(Spelled(ds, pads)[i]) == ds[i]
    {
      SpelledDigit(ds, pads, i);
    }
    hide ReverseTable, Symbol;
  }

  lemma EncodingIsCanonical(data: seq<byte>)
    ensures Canonical(Rfc4648(data))
  {
    hide Sextet, Symbol, Rfc4648, Canonical;
    var ds, n := Sextets(data), |data|;
    EncodingIsSpelled(data);
    SextetsOfGroup(data, n / 3);
    Counts(n);
    hide DigitCount, TextLength;
    SpelledIsCanonical(ds, TextLength(n) - DigitCount(n));
  }

  // The digits of a canonical text, which spells them.
  lemma CanonicalIsSpelled(text: string) returns (ds: seq<digit>)
    requires Canonical(text)
    ensures NoTail(ds) && text == Spelled(ds, (|ds| + 3) / 4 * 4 - |ds|)
  {
    var p := Padding(text);
    PaddingIsSuffix(text);
    ds := seq(|text| - p, i requires 0 <= i < |text| - p => ReverseTable(text[i]));
    forall i | 0 <= i < |ds|
      ensures Symbol(ds[i]) == text[i]
    {
      AlphabetIsBijection(0, text[i]);
    }
    hide ReverseTable, Symbol;
    assert text == Spelled(ds, p);
  }

  /** Encoding undoes decoding exactly on the canonical texts. */
  lemma EncodeDecode(text: string)
    ensures (Legal(text) && Rfc4648(Decoded(text)) == text) <==> Canonical(text)
  {
    hide Rfc4648, Sextet, Symbol;
    if Canonical(text) {
      var ds := CanonicalIsSpelled(text);
      DigitsOfSpelled(ds, (|ds| + 3) / 4 * 4 - |ds|);
      SextetsOfBytes(ds);
      TailLength(ds);
      EncodingIsSpelled(Bytes(ds));
    } else if Legal(text) && Rfc4648(Decoded(text)) == text {
      EncodingIsCanonical(Decoded(text));
    }
  }
}
