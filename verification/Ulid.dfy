/**
 The ULID codec of app/db/types.py: 26 Crockford base-32 characters for a
 48-bit millisecond timestamp followed by 80 random bits.
 */
module Ulid {
  import opened Prelude

  // Crockford base-32: no I, L, O or U. The characters are in ascending order.
  const ALPHABET: string := "0123456789ABCDEFGHJKMNPQRSTVWXYZ"

  const ULID_LENGTH := 26
  const TWO_48: nat := 0x1_0000_0000_0000
  const TWO_80: nat := 0x1_0000_0000_0000_0000_0000

  ghost function Pow32(n: nat): nat {
    if n == 0 then 1 else 32 * Pow32(n - 1)
  }

  type Digit = d: nat | d < 32

  /** The character of a digit: the alphabet as runs of consecutive codes. */
  function Symbol(d: Digit): char {
    (d + if d < 10 then 48 else if d < 18 then 55 else if d < 20 then 56
         else if d < 22 then 57 else if d < 27 then 58 else 59) as char
  }

  predicate IsSymbol(c: char) {
    '0' <= c <= '9' || 'A' <= c <= 'H' || 'J' <= c <= 'K' || 'M' <= c <= 'N' || 'P' <= c <= 'T' || 'V' <= c <= 'Z'
  }

  function DigitOf(c: char): (d: Digit)
    requires IsSymbol(c)
    ensures Symbol(d) == c
  {
    c as int - if c <= '9' then 48 else if c <= 'H' then 55 else if c <= 'K' then 56
               else if c <= 'N' then 57 else if c <= 'T' then 58 else 59
  }

  lemma SymbolsAreTheAlphabet()
    ensures |ALPHABET| == 32 && forall d: Digit :: ALPHABET[d] == Symbol(d) && IsSymbol(ALPHABET[d])
  {
  }

  ghost predicate IsUlidText(s: string) {
    forall i | 0 <= i < |s| :: IsSymbol(s[i])
  }

  /** The n low base-32 digits of a value, most significant first. */
  ghost function Digits(value: nat, n: nat): (ds: seq<Digit>)
    ensures |ds| == n
  {
    if n == 0 then [] else Digits(value / 32, n - 1) + [value % 32]
  }

  /** The number a sequence of base-32 digits stands for. */
  ghost function Number(ds: seq<Digit>): nat {
    if ds == [] then 0 else Number(ds[..|ds| - 1]) * 32 + ds[|ds| - 1]
  }

  ghost function Text(ds: seq<Digit>): (s: string)
    ensures |s| == |ds| && forall i | 0 <= i < |ds| :: s[i] == Symbol(ds[i])
  {
    seq(|ds|, i requires 0 <= i < |ds| => Symbol(ds[i]))
  }

  ghost function DigitsOf(s: string): (ds: seq<Digit>)
    requires IsUlidText(s)
    ensures |ds| == |s| && forall i | 0 <= i < |s| :: ds[i] == DigitOf(s[i])
  {
    seq(|s|, i requires 0 <= i < |s| => DigitOf(s[i]))
  }

  /** The n-character text of a value, and the value of a text. */
  ghost function Encode(value: nat, n: nat): (s: string)
    ensures |s| == n
  {
    Text(Digits(value, n))
  }

  ghost function Decode(s: string): nat
    requires IsUlidText(s)
  {
    Number(DigitsOf(s))
  }

  lemma TextRoundTrip(ds: seq<Digit>)
    ensures IsUlidText(Text(ds)) && DigitsOf(Text(ds)) == ds
  {
  }

  lemma {:induction false} NumberOfDigits(value: nat, n: nat)
    requires value < Pow32(n)
    ensures Number(Digits(value, n)) == value
  {
    if n > 0 {
      NumberOfDigits(value / 32, n - 1);
      assert Digits(value, n)[..n - 1] == Digits(value / 32, n - 1);
    }
  }

  lemma {:induction false} DigitsOfNumber(ds: seq<Digit>)
    ensures Number(ds) < Pow32(|ds|) && Digits(Number(ds), |ds|) == ds
  {
    if ds != [] {
      DigitsOfNumber(ds[..|ds| - 1]);
      assert ds == ds[..|ds| - 1] + [ds[|ds| - 1]];
    }
  }

  /** Decoding undoes encoding on every value that fits. */
  lemma DecodeEncode(value: nat, n: nat)
    requires value < Pow32(n)
    ensures IsUlidText(Encode(value, n)) && Decode(Encode(value, n)) == value
  {
    TextRoundTrip(Digits(value, n));
    NumberOfDigits(value, n);
  }

  /** Encoding undoes decoding on every base-32 text. */
  lemma EncodeDecode(s: string)
    requires IsUlidText(s)
    ensures Decode(s) < Pow32(|s|) && Encode(Decode(s), |s|) == s
  {
    DigitsOfNumber(DigitsOf(s));
    assert Text(DigitsOf(s)) == s;
  }

  /** Strict lexicographic order on strings of one length: the order of the column. */
  ghost predicate Before(s: string, t: string)
    requires |s| == |t|
  {
    exists k | 0 <= k < |s| :: s[..k] == t[..k] && s[k] < t[k]
  }

  ghost predicate DigitsBefore(s: seq<Digit>, t: seq<Digit>)
    requires |s| == |t|
  {
    exists k | 0 <= k < |s| :: s[..k] == t[..k] && s[k] < t[k]
  }

  lemma TextPrefix(s: seq<Digit>, t: seq<Digit>, k: nat)
    requires k <= |s| == |t|
    ensures Text(s)[..k] == Text(t)[..k] <==> s[..k] == t[..k]
  {
    if s[..k] == t[..k] {
      forall i | 0 <= i < k ensures Text(s)[i] == Text(t)[i] { assert s[..k][i] == t[..k][i]; }
    }
    if Text(s)[..k] == Text(t)[..k] {
      forall i | 0 <= i < k ensures s[i] == t[i] { assert Text(s)[..k][i] == Text(t)[..k][i]; }
    }
  }

  lemma TextOrder(s: seq<Digit>, t: seq<Digit>)
    requires |s| == |t|
    ensures Before(Text(s), Text(t)) <==> DigitsBefore(s, t)
  {
    forall k | 0 <= k < |s|
      ensures Text(s)[..k] == Text(t)[..k] && Text(s)[k] < Text(t)[k] <==> s[..k] == t[..k] && s[k] < t[k]
    {
      TextPrefix(s, t, k);
    }
  }

  lemma DigitsBeforeSnoc(s: seq<Digit>, c: Digit, t: seq<Digit>, d: Digit)
    requires |s| == |t|
    ensures DigitsBefore(s + [c], t + [d]) <==> DigitsBefore(s, t) || (s == t && c < d)
  {
    var s', t' := s + [c], t + [d];
    if DigitsBefore(s', t') {
      var k :| 0 <= k < |s'| && s'[..k] == t'[..k] && s'[k] < t'[k];
      assert s'[..|s|] == s && t'[..|t|] == t;
      if k < |s| { assert s[..k] == s'[..k] && t[..k] == t'[..k]; }
    }
    if DigitsBefore(s, t) {
      var k :| 0 <= k < |s| && s[..k] == t[..k] && s[k] < t[k];
      assert s'[..k] == s[..k] && t'[..k] == t[..k];
    } else if s == t && c < d {
      assert s'[..|s|] == t'[..|s|];
    }
  }

  lemma DivModOrder(a: nat, b: nat)
    ensures a < b <==> a / 32 < b / 32 || (a / 32 == b / 32 && a % 32 < b % 32)
    ensures a == b <==> a / 32 == b / 32 && a % 32 == b % 32
  {
    assert a == a / 32 * 32 + a % 32 && b == b / 32 * 32 + b % 32;
  }

  lemma SameDigitsIff(a: nat, b: nat, n: nat)
    requires a < Pow32(n) && b < Pow32(n)
    ensures Digits(a, n) == Digits(b, n) <==> a == b
  {
    NumberOfDigits(a, n);
    NumberOfDigits(b, n);
  }

  lemma OneMoreDigit(value: nat, n: nat)
    requires n > 0 && value < Pow32(n)
    ensures value / 32 < Pow32(n - 1) && Digits(value, n) == Digits(value / 32, n - 1) + [value % 32]
  {
  }

  /** If the order holds for all but the last digit, it holds with it. */
  lemma DigitOrderStep(s: seq<Digit>, c: Digit, t: seq<Digit>, d: Digit, a: nat, b: nat)
    requires |s| == |t| && c == a % 32 && d == b % 32
    requires DigitsBefore(s, t) <==> a / 32 < b / 32
    requires s == t <==> a / 32 == b / 32
    ensures DigitsBefore(s + [c], t + [d]) <==> a < b
  {
    DigitsBeforeSnoc(s, c, t, d);
    DivModOrder(a, b);
  }

  lemma {:induction false} DigitOrder(a: nat, b: nat, n: nat)
    requires a < Pow32(n) && b < Pow32(n)
    ensures DigitsBefore(Digits(a, n), Digits(b, n)) <==> a < b
  {
    if n > 0 {
      OneMoreDigit(a, n);
      OneMoreDigit(b, n);
      DigitOrder(a / 32, b / 32, n - 1);
      SameDigitsIff(a / 32, b / 32, n - 1);
      DigitOrderStep(Digits(a / 32, n - 1), a % 32, Digits(b / 32, n - 1), b % 32, a, b);
    }
  }

  /** String order is numeric order, so ids sort by what they encode. */
  lemma OrderPreserved(a: nat, b: nat, n: nat)
    requires a < Pow32(n) && b < Pow32(n)
    ensures Before(Encode(a, n), Encode(b, n)) <==> a < b
  {
    TextOrder(Digits(a, n), Digits(b, n));
    DigitOrder(a, b, n);
  }

  /** The 128-bit number behind an id made at millisecond ms with the given random bits. */
  function Stamp(ms: nat, randomness: nat): nat
  {
    (ms % TWO_48) * TWO_80 + randomness
  }

  function Reversed(s: string): (r: string)
    ensures |r| == |s| && forall i | 0 <= i < |s| :: r[i] == s[|s| - 1 - i]
  {
    if s == "" then "" else [s[|s| - 1]] + Reversed(s[..|s| - 1])
  }

  lemma EncodeStep(value: nat, n: nat)
    requires n > 0
    ensures Encode(value, n) == Encode(value / 32, n - 1) + [Symbol(value % 32)]
  {
  }

  method GenUlid(ms: nat, randomness: nat) returns (id: string)
    requires randomness < TWO_80
    ensures id == Encode(Stamp(ms, randomness), ULID_LENGTH)
  {
    var value := Stamp(ms, randomness);
    var chars: string := "";
    for i := 0 to ULID_LENGTH
      invariant |chars| == i
      invariant Encode(value, ULID_LENGTH - i) + Reversed(chars) == Encode(Stamp(ms, randomness), ULID_LENGTH)
    {
      EncodeStep(value, ULID_LENGTH - i);
      var digit := ALPHABET[value % 32];
      SymbolsAreTheAlphabet();
      assert Reversed(chars + [digit]) == [digit] + Reversed(chars);
      chars := chars + [digit];
      value := value / 32;
    }
    id := Reversed(chars);
  }

  lemma StampFits(ms: nat, randomness: nat)
    requires randomness < TWO_80
    ensures Stamp(ms, randomness) < Pow32(ULID_LENGTH)
  {
    assert Pow32(5) == 0x200_0000;
    assert Pow32(10) == Pow32(5) * 0x200_0000;
    assert Pow32(15) == Pow32(10) * 0x200_0000;
    assert Pow32(20) == Pow32(15) * 0x200_0000;
    assert Pow32(25) == Pow32(20) * 0x200_0000;
  }

  /** Generated ids carry their timestamp and random bits, and nothing is lost. */
  lemma IdRoundTrip(ms: nat, randomness: nat)
    requires randomness < TWO_80
    ensures var id := Encode(Stamp(ms, randomness), ULID_LENGTH);
      && |id| == ULID_LENGTH && IsUlidText(id)
      && Decode(id) / TWO_80 == ms % TWO_48
      && Decode(id) % TWO_80 == randomness
  {
    StampFits(ms, randomness);
    DecodeEncode(Stamp(ms, randomness), ULID_LENGTH);
  }

  /**
   Ids made in two different milliseconds sort by time whatever their random
   bits exactly when the 48-bit timestamps do, that is until the clock wraps.
   */
  lemma LaterIdsSortLater(ms1: nat, ms2: nat)
    ensures (forall r1: nat, r2: nat | r1 < TWO_80 && r2 < TWO_80 ::
               Before(Encode(Stamp(ms1, r1), ULID_LENGTH), Encode(Stamp(ms2, r2), ULID_LENGTH)))
       <==> ms1 % TWO_48 < ms2 % TWO_48
  {
    forall r1: nat, r2: nat | r1 < TWO_80 && r2 < TWO_80
      ensures Before(Encode(Stamp(ms1, r1), ULID_LENGTH), Encode(Stamp(ms2, r2), ULID_LENGTH))
         <==> Stamp(ms1, r1) < Stamp(ms2, r2)
    {
      StampFits(ms1, r1);
      StampFits(ms2, r2);
      OrderPreserved(Stamp(ms1, r1), Stamp(ms2, r2), ULID_LENGTH);
    }
    if ms1 % TWO_48 >= ms2 % TWO_48 {
      assert !(Stamp(ms1, 0) < Stamp(ms2, 0));
    }
  }

  predicate IsAscii(s: string) {
    forall i | 0 <= i < |s| :: s[i] < 128 as char
  }

  function UpperChar(c: char): char {
    if 'a' <= c <= 'z' then (c as int - 32) as char else c
  }

  function UpperAscii(s: string): (r: string)
    ensures |r| == |s| && forall i | 0 <= i < |s| :: r[i] == UpperChar(s[i])
  {
    if s == "" then "" else [UpperChar(s[0])] + UpperAscii(s[1..])
  }

  /** str.upper(): known on ASCII text; elsewhere it may even change the length. */
  ghost predicate UppersAscii(upper: string -> string) {
    forall s | IsAscii(s) :: upper(s) == UpperAscii(s)
  }

  datatype BindError = WrongLength(length: nat)

  /** ULIDType.process_bind_param: what is written to the column. */
  function Bind(upper: string -> string, value: Option<string>): Result<Option<string>, BindError> {
    match value
    case None => Ok(None)
    case Some(text) =>
      if |upper(text)| != ULID_LENGTH then Err(WrongLength(|upper(text)|)) else Ok(Some(upper(text)))
  }

  /**
   Whatever upper-casing does outside ASCII: binding an ASCII text rejects
   exactly the wrong lengths, and binding twice is binding once; and a ULID,
   which is ASCII, is left as it is.
   */
  lemma BindKeepsUlids(upper: string -> string, s: string)
    requires UppersAscii(upper)
    ensures IsAscii(s) ==> (Bind(upper, Some(s)).Ok? <==> |s| == ULID_LENGTH)
    ensures IsAscii(s) && Bind(upper, Some(s)).Ok? ==> Bind(upper, Bind(upper, Some(s)).value) == Bind(upper, Some(s))
    ensures |s| == ULID_LENGTH && IsUlidText(s) ==> Bind(upper, Some(s)) == Ok(Some(s))
  {
    if IsUlidText(s) {
      forall i | 0 <= i < |s| ensures UpperChar(s[i]) == s[i] && s[i] < 128 as char {
        assert IsSymbol(s[i]);
      }
      assert UpperAscii(s) == s && IsAscii(s);
    }
    if IsAscii(s) {
      assert upper(s) == UpperAscii(s);
      assert IsAscii(UpperAscii(s));
      assert UpperAscii(UpperAscii(s)) == UpperAscii(s);
    }
  }

  /** The characters of an id: the digits and the capitals except I, L, O and U, in this order. */
  lemma SymbolsAreCrockford(c: char)
    ensures IsSymbol(c) <==> ('0' <= c <= '9' || 'A' <= c <= 'Z') && c != 'I' && c != 'L' && c != 'O' && c != 'U'
  {
  }

  /** What binding stores of an ASCII text of the right length: each small letter as its capital, all else as it is. */
  lemma BindStoresCapitals(upper: string -> string, s: string)
    requires UppersAscii(upper) && IsAscii(s) && |s| == 26
    ensures var r := Bind(upper, Some(s));
      && r.Ok? && r.value.Some? && |r.value.value| == 26
      && forall i | 0 <= i < 26 ::
           r.value.value[i] as int == s[i] as int - (if 'a' <= s[i] <= 'z' then 'a' as int - 'A' as int else 0)
    ensures Bind(upper, None) == Ok(None)
  {
  }
}
