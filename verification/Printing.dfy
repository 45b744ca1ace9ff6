/**
 Number printing: the integer conversion of the log printer, which divides by falling powers of the base, and
 the hexadecimal conversion of the small printf, which shifts. Output is collected in a string.
 */
module Printing {
  import opened Sequences

  const U32: nat := 0x1_0000_0000
  const SIGN_BIT: nat := 0x8000_0000

  type Word32 = v: nat | v < U32

  // ----------------------------------------------------------------------------------------------
  // Numbers and their digits
  // ----------------------------------------------------------------------------------------------

  /** The bases the conversions use. */
  datatype Base = Octal | Decimal | Hexadecimal
  {
    function Radix(): nat { match this case Octal => 8 case Decimal => 10 case Hexadecimal => 16 }

    function Quotient(m: nat): nat { match this case Octal => m / 8 case Decimal => m / 10 case Hexadecimal => m / 16 }

    function Remainder(m: nat): nat { match this case Octal => m % 8 case Decimal => m % 10 case Hexadecimal => m % 16 }

    function Times(m: nat): nat { match this case Octal => m * 8 case Decimal => m * 10 case Hexadecimal => m * 16 }
  }

  /** The digits of a number, most significant first. */
  function Digits(m: nat, b: Base): (ds: seq<nat>)
    ensures |ds| > 0
    decreases m
  {
    if m < b.Radix() then [m] else Digits(b.Quotient(m), b) + [b.Remainder(m)]
  }

  function Value(ds: seq<nat>, b: Base): nat
  {
    if ds == [] then 0 else b.Times(Value(ds[..|ds| - 1], b)) + ds[|ds| - 1]
  }

  ghost predicate AreDigits(ds: seq<nat>, b: Base)
  {
    forall i :: 0 <= i < |ds| ==> ds[i] < b.Radix()
  }

  function Pow(b: Base, n: nat): (p: nat)
    ensures p > 0
  {
    if n == 0 then 1 else b.Times(Pow(b, n - 1))
  }

  lemma ValueSnoc(ds: seq<nat>, d: nat, b: Base)
    ensures Value(ds + [d], b) == b.Times(Value(ds, b)) + d
  {
    assert (ds + [d])[..|ds|] == ds;
  }

  /** The digits denote the number, each is one, and the first is not zero unless it is the only one. */
  lemma {:induction false} DigitsDenote(m: nat, b: Base)
    ensures Value(Digits(m, b), b) == m && AreDigits(Digits(m, b), b)
    ensures Digits(m, b)[0] == 0 ==> m == 0 && |Digits(m, b)| == 1
    decreases m
  {
    if m < b.Radix() {
      ValueSnoc([], m, b);
      assert [] + [m] == [m];
    } else {
      DigitsDenote(b.Quotient(m), b);
      ValueSnoc(Digits(b.Quotient(m), b), b.Remainder(m), b);
    }
  }

  /** No other digits do. */
  lemma {:induction false} DigitsUnique(ds: seq<nat>, b: Base)
    requires |ds| > 0 && AreDigits(ds, b) && (ds[0] == 0 ==> |ds| == 1)
    ensures Digits(Value(ds, b), b) == ds
    ensures ds[0] > 0 ==> Value(ds, b) > 0
  {
    var front, last := ds[..|ds| - 1], ds[|ds| - 1];
    assert ds == front + [last];
    if front == [] {
      assert Value(front, b) == 0;
    } else {
      DigitsUnique(front, b);
      assert b.Quotient(Value(ds, b)) == Value(front, b) && b.Remainder(Value(ds, b)) == last;
    }
  }

  /** The largest place value of a number with that many digits. */
  lemma {:induction false} DigitsPlace(m: nat, b: Base)
    ensures var n := |Digits(m, b)|; m < Pow(b, n) && (m > 0 ==> Pow(b, n - 1) <= m)
    decreases m
  {
    if m >= b.Radix() {
      DigitsPlace(b.Quotient(m), b);
    }
  }

  /** A first digit weighs its place value, and what follows is less than one of it. */
  lemma {:induction false} ValueFirst(ds: seq<nat>, b: Base)
    requires |ds| > 0 && AreDigits(ds, b)
    ensures Value(ds, b) == ds[0] * Pow(b, |ds| - 1) + Value(ds[1..], b)
    ensures Value(ds[1..], b) < Pow(b, |ds| - 1)
  {
    var front, last := ds[..|ds| - 1], ds[|ds| - 1];
    if front == [] {
      assert ds[1..] == [] && Value(front, b) == 0;
    } else {
      ValueFirst(front, b);
      assert ds[1..] == front[1..] + [last];
      ValueSnoc(front[1..], last, b);
      TimesOut(b, front[0], Pow(b, |front| - 1), Value(front[1..], b));
    }
  }

  lemma TimesOut(b: Base, d: nat, p: nat, v: nat)
    ensures b.Times(d * p + v) == d * b.Times(p) + b.Times(v)
  {
  }

  lemma Euclid(n: nat, p: nat, q: nat, r: nat)
    requires p > 0 && n == q * p + r && r < p
    ensures n / p == q && n % p == r
  {
    var q', r' := n / p, n % p;
    assert n == q' * p + r';
    if q' < q {
      Wider(q', q, p);
    } else if q < q' {
      Wider(q, q', p);
    }
  }

  lemma {:induction false} Wider(a: nat, c: nat, p: nat)
    requires a < c
    ensures a * p + p <= c * p
  {
    OneMore(c - 1, p);
    if a < c - 1 { Wider(a, c - 1, p); }
  }

  lemma OneMore(c: nat, p: nat)
    ensures (c + 1) * p == c * p + p
  {
  }

  // ----------------------------------------------------------------------------------------------
  // Characters
  // ----------------------------------------------------------------------------------------------

  /** Digits past 9 are letters; no base here has digits past 15. */
  function DigitChar(d: nat, upper: bool): char
  {
    if d <= 9 then '0' + d as char
    else if d <= 15 then (if upper then 'A' else 'a') + (d - 10) as char
    else '?'
  }

  function Chars(ds: seq<nat>, upper: bool): (s: string)
    ensures |s| == |ds|
  {
    seq(|ds|, i requires 0 <= i < |ds| => DigitChar(ds[i], upper))
  }

  /** How a number prints. */
  function Numeral(m: nat, b: Base, upper: bool): string
  {
    Chars(Digits(m, b), upper)
  }

  function Copies(c: char, n: int): (s: string)
    ensures |s| == if n < 0 then 0 else n
  {
    seq(if n < 0 then 0 else n, _ => c)
  }

  predicate Negative(v: Word32, signed: bool) { signed && v >= SIGN_BIT }

  function Magnitude(v: Word32, signed: bool): Word32
  {
    if Negative(v, signed) then U32 - v else v
  }

  /** The argument as the number it stands for. */
  function Signed(v: Word32, signed: bool): int { if Negative(v, signed) then v - U32 else v }

  function SignOf(minus: bool): string { if minus then "-" else "" }

  datatype Format = Format(base: Base, signed: bool, upper: bool, zero: bool, width: int)

  /** Padding goes between the sign and the digits when it is zeros, and before the sign when it is blanks. */
  function Layout(v: Word32, f: Format): string
  {
    var digits := Numeral(Magnitude(v, f.signed), f.base, f.upper);
    var sign := SignOf(Negative(v, f.signed));
    var pad := f.width - |digits| - |sign|;
    if f.zero then sign + Copies('0', pad) + digits else Copies(' ', pad) + (sign + digits)
  }

  lemma LayoutLength(v: Word32, f: Format)
    ensures var n := |Digits(Magnitude(v, f.signed), f.base)| + (if Negative(v, f.signed) then 1 else 0);
            |Layout(v, f)| == if f.width > n then f.width else n
  {
  }

  /** A character of a number: a decimal digit, or a letter in the case asked for. */
  predicate IsDigitChar(c: char, upper: bool)
  {
    '0' <= c <= '9' || if upper then 'A' <= c <= 'F' else 'a' <= c <= 'f'
  }

  lemma NumeralChars(m: nat, b: Base, upper: bool)
    ensures forall i :: 0 <= i < |Numeral(m, b, upper)| ==> IsDigitChar(Numeral(m, b, upper)[i], upper)
  {
    DigitsDenote(m, b);
    var ds := Digits(m, b);
    forall i | 0 <= i < |ds| ensures IsDigitChar(DigitChar(ds[i], upper), upper) { assert ds[i] < b.Radix() <= 16; }
  }

  /**
   Where the padding is: blanks come first, then the sign, then digits; zeros come between the sign and the digits.
   There is nothing else, and letters are in the case asked for.
   */
  lemma LayoutShape(v: Word32, f: Format)
    ensures var s, minus := Layout(v, f), Negative(v, f.signed);
            var n := |Digits(Magnitude(v, f.signed), f.base)| + if minus then 1 else 0;
            var pad := |s| - n;
            var first := if f.zero then 0 else pad;
            && pad >= 0
            && (forall i :: 0 <= i < first ==> s[i] == ' ')
            && (minus ==> s[first] == '-')
            && (forall i :: first + (if minus then 1 else 0) <= i < |s| ==> IsDigitChar(s[i], f.upper))
            && (f.zero ==> forall i :: (if minus then 1 else 0) <= i < pad + (if minus then 1 else 0) ==> s[i] == '0')
  {
    NumeralChars(Magnitude(v, f.signed), f.base, f.upper);
  }

  /** An argument that is signed stands for the number of 32 bits in two's complement, any other for itself. */
  lemma SignedIs(v: Word32)
    ensures Signed(v, false) == v
    ensures -0x8000_0000 <= Signed(v, true) < 0x8000_0000
    ensures Signed(v, true) == v || Signed(v, true) + 0x1_0000_0000 == v
  {
  }

  /** The bases, and letters in both cases. */
  lemma Examples()
    ensures Numeral(83, Octal, false) == "123" && Numeral(123, Decimal, false) == "123"
    ensures Numeral(0x1af, Hexadecimal, false) == "1af" && Numeral(0x1af, Hexadecimal, true) == "1AF"
  {
    assert Digits(1, Octal) == [1] && Digits(10, Octal) == [1, 2] && Digits(83, Octal) == [1, 2, 3];
    assert Digits(1, Decimal) == [1] && Digits(12, Decimal) == [1, 2] && Digits(123, Decimal) == [1, 2, 3];
    assert Digits(1, Hexadecimal) == [1] && Digits(0x1a, Hexadecimal) == [1, 10];
    assert Digits(0x1af, Hexadecimal) == [1, 10, 15];
  }

  // ----------------------------------------------------------------------------------------------
  // Reading a printed number back
  // ----------------------------------------------------------------------------------------------

  function DigitOf(c: char): nat
  {
    if 'a' <= c <= 'f' then (c - 'a') as nat + 10
    else if 'A' <= c <= 'F' then (c - 'A') as nat + 10
    else if '0' <= c <= '9' then (c - '0') as nat
    else 0
  }

  function ReadDigits(s: string, b: Base): nat
  {
    if s == [] then 0 else b.Times(ReadDigits(s[..|s| - 1], b)) + DigitOf(s[|s| - 1])
  }

  function Minus(n: nat): int { 0 - n }

  /** Blanks, an optional sign, digits. */
  function Read(s: string, b: Base): int
  {
    if s == [] then 0
    else if s[0] == ' ' then Read(s[1..], b)
    else if s[0] == '-' then Minus(ReadDigits(s[1..], b))
    else ReadDigits(s, b)
  }

  lemma {:induction false} ReadZeros(n: nat, b: Base)
    ensures ReadDigits(Copies('0', n), b) == 0
  {
    if n > 0 {
      assert Copies('0', n)[..n - 1] == Copies('0', n - 1);
      ReadZeros(n - 1, b);
    }
  }

  lemma {:induction false} ReadChars(ds: seq<nat>, b: Base, upper: bool, n: nat)
    requires AreDigits(ds, Hexadecimal)
    ensures ReadDigits(Copies('0', n) + Chars(ds, upper), b) == Value(ds, b)
  {
    var s := Copies('0', n) + Chars(ds, upper);
    if ds == [] {
      ReadZeros(n, b);
      assert s == Copies('0', n);
    } else {
      var front, last := ds[..|ds| - 1], ds[|ds| - 1];
      ReadChars(front, b, upper, n);
      assert s[..|s| - 1] == Copies('0', n) + Chars(front, upper);
      assert s[|s| - 1] == DigitChar(last, upper) && last < 16;
      assert DigitOf(DigitChar(last, upper)) == last;
    }
  }

  lemma {:induction false} ReadBlanks(n: nat, s: string, b: Base)
    ensures Read(Copies(' ', n) + s, b) == Read(s, b)
  {
    if n > 0 {
      assert (Copies(' ', n) + s)[1..] == Copies(' ', n - 1) + s;
      ReadBlanks(n - 1, s, b);
    } else {
      assert Copies(' ', 0) + s == s;
    }
  }

  lemma ReadPlain(s: string, b: Base)
    requires s != [] && s[0] != ' ' && s[0] != '-'
    ensures Read(s, b) == ReadDigits(s, b)
  {
  }

  lemma ReadMinus(s: string, b: Base)
    ensures Read("-" + s, b) == Minus(ReadDigits(s, b))
  {
    assert ("-" + s)[0] == '-' && ("-" + s)[1..] == s;
  }

  /** A sign or none, zeros and digits. */
  lemma ReadNumber(ds: seq<nat>, b: Base, upper: bool, minus: bool, zeros: nat)
    requires AreDigits(ds, Hexadecimal) && |ds| > 0
    ensures Read(SignOf(minus) + (Copies('0', zeros) + Chars(ds, upper)), b)
            == if minus then Minus(Value(ds, b)) else Value(ds, b)
  {
    var s := Copies('0', zeros) + Chars(ds, upper);
    ReadChars(ds, b, upper, zeros);
    if minus {
      ReadMinus(s, b);
    } else {
      assert s[0] == if zeros > 0 then '0' else DigitChar(ds[0], upper);
      assert "" + s == s;
      ReadPlain(s, b);
    }
  }

  lemma CopiesNone(c: char, n: int, s: string)
    ensures Copies(c, n) == Copies(c, if n < 0 then 0 else n) && Copies(c, 0) + s == s
  {
  }

  lemma ReadPadded(ds: seq<nat>, b: Base, upper: bool, minus: bool, pad: int)
    requires AreDigits(ds, Hexadecimal) && |ds| > 0
    ensures var value: int := if minus then Minus(Value(ds, b)) else Value(ds, b);
            && Read(SignOf(minus) + Copies('0', pad) + Chars(ds, upper), b) == value
            && Read(Copies(' ', pad) + (SignOf(minus) + Chars(ds, upper)), b) == value
  {
    var n: nat := if pad < 0 then 0 else pad;
    CopiesNone('0', pad, Chars(ds, upper));
    CopiesNone(' ', pad, []);
    ReadNumber(ds, b, upper, minus, n);
    ReadNumber(ds, b, upper, minus, 0);
    Assoc(SignOf(minus), Copies('0', n), Chars(ds, upper));
    ReadBlanks(n, SignOf(minus) + Chars(ds, upper), b);
  }

  /** What is printed reads back as the number, whatever the base, width and padding. */
  lemma LayoutReadsBack(v: Word32, f: Format)
    ensures Read(Layout(v, f), f.base) == Signed(v, f.signed)
  {
    var m, minus := Magnitude(v, f.signed), Negative(v, f.signed);
    DigitsDenote(m, f.base);
    ReadPadded(Digits(m, f.base), f.base, f.upper, minus,
               f.width - |Numeral(m, f.base, f.upper)| - |SignOf(minus)|);
  }

  // ----------------------------------------------------------------------------------------------
  // The printers
  // ----------------------------------------------------------------------------------------------

  method RepChar(out: string, c: char, r: int) returns (s: string)
    ensures s == out + Copies(c, r)
  {
    s := out;
    var left := r;
    while left > 0
      invariant (left == r && s == out) || (0 <= left <= r && s == out + Copies(c, r - left))
    {
      s := s + [c];
      left := left - 1;
    }
  }

  /**
   The largest place value of `v` and its number of digits. The product is taken in 32 bits; it never runs
   over, because it stays at or below `v`.
   */
  method CountDigits(v: Word32, b: Base) returns (p: Word32, count: nat)
    ensures count == |Digits(v, b)| && p == Pow(b, count - 1)
  {
    var shrink := b.Quotient(v);
    p, count := 1, 1;
    while shrink > 0
      invariant count > 0 && p == Pow(b, count - 1)
      invariant |Digits(v, b)| == count + if shrink > 0 then |Digits(shrink, b)| else 0
    {
      PlaceFits(v, b, count);
      p := b.Times(p) % U32;
      count := count + 1;
      shrink := b.Quotient(shrink);
    }
  }

  lemma PlaceFits(v: Word32, b: Base, n: nat)
    requires n < |Digits(v, b)| && n > 0
    ensures Pow(b, n) <= v
  {
    DigitsPlace(v, b);
    PowGrows(b, n, |Digits(v, b)| - 1);
  }

  lemma {:induction false} PowGrows(b: Base, n: nat, m: nat)
    requires n <= m
    ensures Pow(b, n) <= Pow(b, m)
  {
    if n < m { PowGrows(b, n, m - 1); }
  }

  function Whole(v: nat, p: nat): nat
    requires p > 0
  {
    v / p
  }

  function Part(v: nat, p: nat): nat
    requires p > 0
  {
    v % p
  }

  /** With `i` digits out, `v` is the number the others denote and `p` the place value of the next. */
  ghost predicate Emitting(ds: seq<nat>, b: Base, i: nat, v: nat, p: nat)
  {
    i <= |ds| && v == Value(ds[i..], b) && p == if i < |ds| then Pow(b, |ds| - 1 - i) else 0
  }

  lemma EmitStep(ds: seq<nat>, b: Base, i: nat, v: nat, p: nat)
    requires AreDigits(ds, b) && Emitting(ds, b, i, v, p) && p > 0
    ensures i < |ds| && Whole(v, p) == ds[i] && Emitting(ds, b, i + 1, Part(v, p), b.Quotient(p))
  {
    ValueFirst(ds[i..], b);
    assert ds[i..][1..] == ds[i + 1..];
    Euclid(v, p, ds[i], Value(ds[i + 1..], b));
  }

  lemma CharsMore(ds: seq<nat>, i: nat, upper: bool)
    requires i < |ds|
    ensures Chars(ds[..i + 1], upper) == Chars(ds[..i], upper) + [DigitChar(ds[i], upper)]
  {
  }

  /** One digit for each power of the base, from the largest down. */
  method EmitDigits(out: string, m: Word32, b: Base, upper: bool, place: Word32, ghost n: nat) returns (s: string)
    requires n == |Digits(m, b)| && place == Pow(b, n - 1)
    ensures s == out + Numeral(m, b, upper)
  {
    ghost var ds := Digits(m, b);
    DigitsDenote(m, b);
    ghost var i: nat := 0;
    var v: nat, p: nat := m, place;
    s := out;
    assert ds[0..] == ds;
    while p > 0
      invariant Emitting(ds, b, i, v, p) && s == out + Chars(ds[..i], upper)
      decreases n - i
    {
      EmitStep(ds, b, i, v, p);
      CharsMore(ds, i, upper);
      Assoc(out, Chars(ds[..i], upper), [DigitChar(ds[i], upper)]);
      s := s + [DigitChar(Whole(v, p), upper)];
      v := Part(v, p);
      p := b.Quotient(p);
      i := i + 1;
    }
    assert ds[..n] == ds;
  }

  /** The whole conversion. */
  method PrintInteger(arg: Word32, f: Format) returns (s: string)
    ensures s == Layout(arg, f)
  {
    var v: Word32, sign := arg, false;
    if f.signed && v / SIGN_BIT % 2 == 1 {
      v := (U32 - 1 - v + 1) % U32;
      sign := true;
    }
    assert v == Magnitude(arg, f.signed) && sign == Negative(arg, f.signed);
    var p, count := CountDigits(v, f.base);
    var width := f.width - count;
    s := "";
    if f.zero {
      if sign {
        s := s + ['-'];
        width := width - 1;
      }
      s := RepChar(s, '0', width);
    } else {
      if sign { width := width - 1; }
      s := RepChar(s, ' ', width);
      if sign { s := s + ['-']; }
    }
    LayoutPrefix(arg, f, s, width);
    s := EmitDigits(s, v, f.base, f.upper, p, count);
  }

  lemma LayoutPrefix(arg: Word32, f: Format, s: string, pad: int)
    requires pad == f.width - |Digits(Magnitude(arg, f.signed), f.base)| - (if Negative(arg, f.signed) then 1 else 0)
    requires var sign := SignOf(Negative(arg, f.signed));
             s == if f.zero then sign + Copies('0', pad) else Copies(' ', pad) + sign
    ensures Layout(arg, f) == s + Numeral(Magnitude(arg, f.signed), f.base, f.upper)
  {
    Assoc(Copies(' ', pad), SignOf(Negative(arg, f.signed)),
          Numeral(Magnitude(arg, f.signed), f.base, f.upper));
  }

  /** The weight of bit `shift`, a multiple of 4. */
  function PlaceOf(shift: nat): (p: nat)
    ensures p > 0
  {
    match shift
    case 28 => 0x1000_0000
    case 24 => 0x100_0000
    case 20 => 0x10_0000
    case 16 => 0x1_0000
    case 12 => 0x1000
    case 8 => 0x100
    case 4 => 0x10
    case _ => 1
  }

  /** The four bits at `shift`. */
  function Nibble(v: nat, shift: nat): (d: nat)
    ensures d < 16
  {
    v / PlaceOf(shift) % 16
  }

  /** What is left of a number without its `k` low hexadecimal digits. */
  function Above(v: nat, k: nat): nat
  {
    if k == 0 then v else Above(v / 16, k - 1)
  }

  lemma {:induction false} AboveDigit(v: nat, k: nat)
    ensures var ds := Digits(v, Hexadecimal);
            if k < |ds| then Above(v, k) % 16 == ds[|ds| - 1 - k] && (v > 0 ==> Above(v, k) > 0) else Above(v, k) == 0
  {
    if k > 0 { AboveDigit(v / 16, k - 1); }
  }

  lemma ShiftedIsAbove(v: Word32, shift: nat)
    requires shift <= 28 && shift % 4 == 0
    ensures v / PlaceOf(shift) == Above(v, shift / 4)
  {
    if shift == 28 { AboveUnfold(v, 7); }
    else if shift == 24 { AboveUnfold(v, 6); }
    else if shift == 20 { AboveUnfold(v, 5); }
    else if shift == 16 { AboveUnfold(v, 4); }
    else if shift == 12 { AboveUnfold(v, 3); }
    else if shift == 8 { AboveUnfold(v, 2); }
    else if shift == 4 { AboveUnfold(v, 1); }
  }

  lemma {:induction false} AboveUnfold(v: nat, k: nat)
    requires k <= 7
    ensures Above(v, k) == v / PlaceOf(4 * k)
  {
    if k > 0 { AboveUnfold(v / 16, k - 1); }
  }

  /** The four bits at `shift` are a digit of the number, or zero past its first. */
  lemma NibbleIsDigit(v: Word32, shift: nat)
    requires v > 0 && shift <= 28 && shift % 4 == 0
    ensures var ds, k := Digits(v, Hexadecimal), shift / 4;
            && Nibble(v, shift) == (if k < |ds| then ds[|ds| - 1 - k] else 0)
            && |ds| <= 8 && (Nibble(v, shift) == 0 && |ds| <= k + 1 ==> |ds| <= k && k > 0)
  {
    ShiftedIsAbove(v, shift);
    AboveDigit(v, shift / 4);
    AboveDigit(v, 8);
    AboveUnfold(v / 16, 7);
    DigitsDenote(v, Hexadecimal);
  }

  /** The hexadecimal conversion of the small printf: `shift` counts down in steps of four bits. */
  method PrintHex(v: Word32) returns (s: string)
    ensures s == Numeral(v, Hexadecimal, false)
  {
    if v == 0 { return "0"; }
    var shift := FirstNibble(v);
    ghost var ds := Digits(v, Hexadecimal);
    DigitsDenote(v, Hexadecimal);
    ghost var i: nat := 0;
    s := "";
    while shift >= 0
      invariant i <= |ds| && -4 <= shift == 4 * (|ds| - 1 - i) <= 28
      invariant s == Chars(ds[..i], false)
    {
      NibbleIsDigit(v, shift);
      CharsMore(ds, i, false);
      s := s + [DigitChar(Nibble(v, shift), false)];
      shift := shift - 4;
      i := i + 1;
    }
    assert ds[..|ds|] == ds;
  }

  /** Where the first digit that is not zero sits. */
  method FirstNibble(v: Word32) returns (shift: int)
    requires v > 0
    ensures 0 <= shift <= 28 && shift % 4 == 0 && shift / 4 + 1 == |Digits(v, Hexadecimal)|
  {
    shift := 28;
    NibbleIsDigit(v, shift);
    while Nibble(v, shift) == 0
      invariant 0 <= shift <= 28 && shift % 4 == 0 && |Digits(v, Hexadecimal)| <= shift / 4 + 1
      decreases shift
    {
      NibbleIsDigit(v, shift);
      shift := shift - 4;
    }
    NibbleIsDigit(v, shift);
  }

  /** Both printers print the same digits for the same number. */
  lemma HexPrintersAgree(v: Word32)
    ensures Layout(v, Format(Hexadecimal, false, false, false, -1)) == Numeral(v, Hexadecimal, false)
  {
    assert Copies(' ', -1 - |Digits(v, Hexadecimal)|) == "";
  }
}
