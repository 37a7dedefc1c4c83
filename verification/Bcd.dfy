/**
 The 3GPP BCD coding of digit strings: two digits an octet, the first in the low
 nibble, a filler in the high nibble after an odd last one.

 Strings are sequences of Unicode characters; a Go loop over one sees each
 character with its byte index in UTF-8.
 */
module Bcd {
  import opened Bits

  type Bytes = seq<Byte>

  type Ascii = c: char | c < 128 as char
  type AsciiString = seq<Ascii>

  /** `byte(c - '0')` */
  function Digit(c: char): Byte {
    (c as int - 48) % 256
  }

  /** Characters 2j (low nibble) and 2j + 1, or the filler */
  function AsciiOctet(s: AsciiString, j: nat): Byte
    requires 2 * j < |s|
  {
    OrByte(Digit(s[2 * j]), if 2 * j + 1 < |s| then ShlByte(Digit(s[2 * j + 1]), 4) else 0xF0)
  }

  function AsciiOctets(s: AsciiString): (b: Bytes)
    ensures |b| == (|s| + 1) / 2
  {
    seq((|s| + 1) / 2, j requires 0 <= j < (|s| + 1) / 2 => AsciiOctet(s, j))
  }

  function DigitChar(n: nat): Ascii
    requires n < 16
  {
    (48 + n) as char
  }

  function OctetDigits(b: Byte): AsciiString {
    [DigitChar(b % 16)] + (if b / 16 != 15 then [DigitChar(b / 16)] else [])
  }

  function BcdDigits(b: Bytes): AsciiString {
    if b == [] then [] else OctetDigits(b[0]) + BcdDigits(b[1..])
  }

  /** The strings BCD can carry: characters '0' to '?' (a nibble each), and no
      '?' in the high nibble, where it is the filler. */
  predicate BcdOk(s: string) {
    forall i | 0 <= i < |s| :: '0' <= s[i] <= '?' && (i % 2 == 1 ==> s[i] != '?')
  }

  lemma LowNibble(x: Byte)
    ensures Low(x, 4) == x % 16 && Shr(x, 4) == x / 16
  {
    hide Low, Shr;
    LowStep(x, 3);
    LowThree(x / 2);
    ModSixteen(x);
  }

  lemma LowStep(x: nat, n: nat)
    ensures Low(x, n + 1) == x % 2 + 2 * Low(x / 2, n) && Shr(x, n + 1) == Shr(x / 2, n)
  {
  }

  lemma ModSixteen(x: nat)
    ensures x % 2 + 2 * (x / 2 % 8) == x % 16 && x / 2 / 8 == x / 16
  {
    var q, r := x / 16, x % 16;
    assert x / 2 == 8 * q + r / 2 && x % 2 == r % 2;
  }

  lemma ModEight(x: nat)
    ensures x % 2 + 2 * (x / 2 % 4) == x % 8 && x / 2 / 4 == x / 8
  {
    var q, r := x / 8, x % 8;
    assert x / 2 == 4 * q + r / 2 && x % 2 == r % 2;
  }

  lemma LowThree(x: Byte)
    ensures Low(x, 3) == x % 8 && Shr(x, 3) == x / 8
  {
    hide Low, Shr;
    LowStep(x, 2);
    LowTwo(x / 2);
    ModEight(x);
  }

  lemma LowTwo(x: Byte)
    ensures Low(x, 2) == x % 4 && Shr(x, 2) == x / 4
  {
    assert Low(x / 2, 1) == x / 2 % 2;
    assert Shr(x, 2) == Shr(x / 2, 1);
  }

  lemma NibblesOf(x: Byte, y: Byte)
    ensures OrByte(x, ShlByte(y, 4)) % 16 == x % 16
    ensures x < 16 ==> OrByte(x, ShlByte(y, 4)) / 16 == y % 16
  {
    hide OrByte, ShlByte, Bit, Low, Shr;
    var r := OrByte(x, ShlByte(y, 4));
    LowNibble(r);
    LowNibble(x);
    LowNibble(y);
    forall k: nat ensures Bit(Low(r, 4), k) == Bit(Low(x, 4), k) {
      BitLow(r, 4, k);
      BitLow(x, 4, k);
    }
    SameBits(Low(r, 4), Low(x, 4));
    if x < 16 {
      forall k: nat ensures Bit(Shr(r, 4), k) == Bit(Low(y, 4), k) {
        BitShr(r, 4, k);
        BitLow(y, 4, k);
        assert Pow2(4) == 16;
        HighBitsClear(x, 4, k + 4);
      }
      SameBits(Shr(r, 4), Low(y, 4));
    }
  }

  lemma Filler()
    ensures ShlByte(15, 4) == 0xF0
  {
    assert Shl(15, 4) == 0xF0;
    assert Pow2(8) == 256;
    LowId(0xF0, 8);
  }

  /** One octet gives its characters back exactly when both are carried. */
  lemma OctetRoundTrip(s: AsciiString)
    requires 1 <= |s| <= 2
    ensures 1 <= |OctetDigits(AsciiOctets(s)[0])| <= 2
    ensures OctetDigits(AsciiOctets(s)[0])[0] == s[0] <==> '0' <= s[0] <= '?'
    ensures '0' <= s[0] <= '?' && |s| == 1 ==> OctetDigits(AsciiOctets(s)[0]) == s
    ensures '0' <= s[0] <= '?' && |s| == 2 ==>
              (OctetDigits(AsciiOctets(s)[0]) == s <==> '0' <= s[1] < '?')
  {
    hide OrByte, ShlByte, Digit, DigitChar, AsciiOctets;
    Filler();
    assert AsciiOctets(s)[0] == AsciiOctet(s, 0) by { FirstOctet(s); }
    CarriedChar(s[0]);
    if |s| == 2 {
      NibblesOf(Digit(s[0]), Digit(s[1]));
      CarriedChar(s[1]);
    } else {
      NibblesOf(Digit(s[0]), 15);
    }
  }

  lemma FirstOctet(s: AsciiString)
    requires s != []
    ensures AsciiOctets(s)[0] == AsciiOctet(s, 0)
  {
  }

  lemma CarriedChar(c: Ascii)
    ensures Digit(c) < 16 <==> '0' <= c <= '?'
    ensures DigitChar(Digit(c) % 16) == c <==> '0' <= c <= '?'
    ensures '0' <= c <= '?' ==> (Digit(c) % 16 == 15 <==> c == '?')
  {
  }

  lemma BcdTail(s: AsciiString)
    requires |s| >= 2
    ensures AsciiOctets(s)[0] == AsciiOctets(s[..2])[0] && AsciiOctets(s)[1..] == AsciiOctets(s[2..])
  {
    hide OrByte, ShlByte;
    assert forall j | 0 <= j < (|s| - 1) / 2 :: AsciiOctets(s)[j + 1] == AsciiOctets(s[2..])[j];
  }

  lemma {:induction false} BcdShrinks(s: AsciiString)
    ensures |BcdDigits(AsciiOctets(s))| <= |s|
  {
    hide AsciiOctets, OctetDigits;
    if |s| == 1 {
      OneCharacter(s);
    } else if |s| >= 2 {
      BcdTail(s);
      BcdShrinks(s[2..]);
      OctetRoundTrip(s[..2]);
    } else {
      assert AsciiOctets(s) == [];
    }
  }

  lemma OneCharacter(s: AsciiString)
    requires |s| == 1
    ensures AsciiOctets(s)[1..] == [] && |OctetDigits(AsciiOctets(s)[0])| == 1
  {
    hide OrByte, ShlByte;
    Filler();
    NibblesOf(Digit(s[0]), 15);
    FillerHigh(Digit(s[0]));
  }

  lemma FillerHigh(x: Byte)
    ensures OrByte(x, 0xF0) / 16 == 15
  {
    var r := OrByte(x, 0xF0);
    LowNibble(r);
    assert Pow2(4) == 16;
    forall k: nat ensures Bit(Shr(r, 4), k) == Bit(15, k) {
      BitShr(r, 4, k);
      BitShr(0xF0, 4, k);
      LowNibble(0xF0);
      if k >= 4 {
        ByteBits(x, k + 4);
        ByteBits(0xF0, k + 4);
        HighBitsClear(15, 4, k);
      } else {
        AllOnes(k);
      }
    }
    SameBits(Shr(r, 4), 15);
  }

  lemma AllOnes(k: nat)
    requires k < 4
    ensures Bit(15, k)
  {
    assert Bit(15, 0) && Bit(15, 1) == Bit(7, 0) && Bit(15, 2) == Bit(7, 1) == Bit(3, 0);
    assert Bit(15, 3) == Bit(7, 2) == Bit(3, 1) == Bit(1, 0);
  }

  lemma {:induction false} AsciiRoundTrip(s: AsciiString)
    ensures BcdDigits(AsciiOctets(s)) == s <==> BcdOk(s)
  {
    hide AsciiOctets, OctetDigits;
    if |s| == 0 {
      assert AsciiOctets(s) == [];
    } else if |s| == 1 {
      OneCharacter(s);
      OctetRoundTrip(s);
      assert BcdDigits(AsciiOctets(s)) == OctetDigits(AsciiOctets(s)[0]) + [];
    } else {
      var head, tail := OctetDigits(AsciiOctets(s)[0]), BcdDigits(AsciiOctets(s[2..]));
      BcdTail(s);
      OctetRoundTrip(s[..2]);
      AsciiRoundTrip(s[2..]);
      BcdShrinks(s[2..]);
      assert BcdDigits(AsciiOctets(s)) == head + tail;
      assert s == s[..2] + s[2..];
      BcdOkSplit(s);
      if head + tail == s {
        assert |head| == 2 && (head + tail)[..2] == head && (head + tail)[2..] == tail;
      }
    }
  }

  lemma BcdOkSplit(s: AsciiString)
    requires |s| >= 2
    ensures BcdOk(s) <==> '0' <= s[0] <= '?' && '0' <= s[1] < '?' && BcdOk(s[2..])
  {
    if BcdOk(s[2..]) {
      forall i | 2 <= i < |s| ensures '0' <= s[i] <= '?' && (i % 2 == 1 ==> s[i] != '?') {
        assert s[i] == s[2..][i - 2];
      }
    }
  }

  // ---- strings of any characters ------------------------------------------

  /** Octets of a character in UTF-8 */
  function Width(c: char): (w: nat)
    ensures 1 <= w <= 4
  {
    if c < 0x80 as char then 1 else if c < 0x800 as char then 2 else if c < 0x1_0000 as char then 3 else 4
  }

  /** Byte index at which character k starts: the index the loop sees */
  function Start(s: string, k: nat): (i: nat)
    requires k <= |s|
    ensures i >= k
  {
    if k == 0 then 0 else Start(s, k - 1) + Width(s[k - 1])
  }

  /** The digit of the character, among the first k, that starts at byte index i;
      zero when none does */
  function NibbleAt(s: string, k: nat, i: nat): Byte
    requires k <= |s|
  {
    if k == 0 then 0 else if Start(s, k - 1) == i then Digit(s[k - 1]) else NibbleAt(s, k - 1, i)
  }

  function OctetAt(s: string, k: nat, j: nat): Byte
    requires k <= |s|
  {
    OrByte(NibbleAt(s, k, 2 * j), ShlByte(NibbleAt(s, k, 2 * j + 1), 4))
  }

  function OctetOf(s: string, j: nat): Byte {
    var n := Start(s, |s|);
    if n % 2 == 1 && j == n / 2 then OrByte(OctetAt(s, |s|, j), 0xF0) else OctetAt(s, |s|, j)
  }

  function BcdOctets(s: string): (b: Bytes)
    ensures |b| == (Start(s, |s|) + 1) / 2
  {
    seq((Start(s, |s|) + 1) / 2, j requires 0 <= j => OctetOf(s, j))
  }

  lemma {:induction false} NothingBeyond(s: string, k: nat, i: nat)
    requires k <= |s| && i >= Start(s, k)
    ensures NibbleAt(s, k, i) == 0
  {
    if k > 0 { NothingBeyond(s, k - 1, i); }
  }

  lemma {:induction false} AsciiStart(s: AsciiString, k: nat)
    requires k <= |s|
    ensures Start(s, k) == k
  {
    if k > 0 { AsciiStart(s, k - 1); }
  }

  lemma {:induction false} AsciiNibble(s: AsciiString, k: nat, i: nat)
    requires k <= |s|
    ensures NibbleAt(s, k, i) == if i < k then Digit(s[i]) else 0
  {
    if k > 0 {
      AsciiStart(s, k - 1);
      AsciiNibble(s, k - 1, i);
    }
  }

  lemma OrZero(x: Byte)
    ensures OrByte(x, 0) == x && OrByte(0, x) == x && ShlByte(0, 4) == 0
  {
    hide OrByte, ShlByte;
    forall k: nat ensures !Bit(0, k) { BitZero(k); }
    SameByte(OrByte(x, 0), x);
    SameByte(OrByte(0, x), x);
    SameByte(ShlByte(0, 4), 0);
  }

  lemma AsciiOctetsAre(s: AsciiString)
    ensures BcdOctets(s) == AsciiOctets(s)
  {
    hide OrByte, ShlByte, Digit, NibbleAt, Start;
    AsciiStart(s, |s|);
    forall j | 0 <= j < (|s| + 1) / 2 ensures OctetOf(s, j) == AsciiOctet(s, j) {
      AsciiNibble(s, |s|, 2 * j);
      AsciiNibble(s, |s|, 2 * j + 1);
      OrZero(Digit(s[2 * j]));
    }
  }

  /** Every octet of a decimal string: the earlier digit in the low nibble, and a
      filler of ones behind an odd last digit */
  lemma DecimalOctets(s: string, j: nat)
    requires (forall i | 0 <= i < |s| :: '0' <= s[i] <= '9') && 2 * j < |s|
    ensures |BcdOctets(s)| == (|s| + 1) / 2 && j < |BcdOctets(s)|
    ensures BcdOctets(s)[j] as int
         == (s[2 * j] - '0') as int + 16 * if 2 * j + 1 < |s| then (s[2 * j + 1] - '0') as int else 15
  {
    hide OrByte, ShlByte, BcdOctets, Digit;
    AsciiOctetsAre(s);
    Filler();
    DigitValue(s[2 * j]);
    var high := if 2 * j + 1 < |s| then Digit(s[2 * j + 1]) else 15;
    if 2 * j + 1 < |s| { DigitValue(s[2 * j + 1]); }
    TwoNibbles(Digit(s[2 * j]), high);
  }

  lemma DigitValue(c: char)
    requires '0' <= c <= '9'
    ensures Digit(c) as int == (c - '0') as int < 10
  {
  }

  lemma TwoNibbles(x: Byte, y: Byte)
    requires x < 16 && y < 16
    ensures OrByte(x, ShlByte(y, 4)) as int == x as int + 16 * y as int
  {
    hide OrByte, ShlByte;
    NibblesOf(x, y);
  }

  /** Decoding gives the string back exactly when BCD can carry it: in particular
      for every decimal string, of even or odd length, and for no string with a
      character outside ASCII. */
  lemma BcdRoundTrip(s: string)
    ensures BcdDigits(BcdOctets(s)) == s <==> BcdOk(s)
  {
    if forall i | 0 <= i < |s| :: s[i] < 128 as char {
      AsciiOctetsAre(s);
      AsciiRoundTrip(s);
    } else {
      var i :| 0 <= i < |s| && s[i] >= 128 as char;
      var d := BcdDigits(BcdOctets(s));
      assert |d| > i ==> d[i] < 128 as char;
    }
  }

  method EncodeBCDLowNibbleFirst(digits: string) returns (out: Bytes)
    ensures out == BcdOctets(digits)
  {
    hide OrByte, ShlByte, Digit, NibbleAt;
    var length := ByteLength(digits);
    var buf := new Byte[(length + 1) / 2](_ => 0);
    forall j | 0 <= j < buf.Length ensures buf[j] == OctetAt(digits, 0, j) { NoneYet(digits, j); }
    var i := 0;
    for k := 0 to |digits|
      invariant i == Start(digits, k) <= length
      invariant forall j | 0 <= j < buf.Length :: buf[j] == OctetAt(digits, k, j)
    {
      StartBelow(digits, k);
      var d := Digit(digits[k]);
      ghost var before := buf[..];
      if i % 2 == 0 {
        buf[i / 2] := d;
      } else {
        buf[i / 2] := OrByte(buf[i / 2], ShlByte(d, 4));
      }
      forall j | 0 <= j < buf.Length ensures buf[j] == OctetAt(digits, k + 1, j) {
        assert before[j] == OctetAt(digits, k, j);
        CharacterLands(digits, k, j);
      }
      i := i + Width(digits[k]);
    }
    if length % 2 == 1 {
      buf[buf.Length - 1] := OrByte(buf[buf.Length - 1], 0xF0);
    }
    assert buf[..] == BcdOctets(digits);
    out := buf[..];
  }

  /** `len` of the Go string */
  method ByteLength(s: string) returns (n: nat)
    ensures n == Start(s, |s|)
  {
    n := 0;
    for k := 0 to |s|
      invariant n == Start(s, k)
    {
      n := n + Width(s[k]);
    }
  }

  lemma NoneYet(s: string, j: nat)
    ensures OctetAt(s, 0, j) == 0
  {
    hide OrByte, ShlByte;
    OrZero(0);
  }

  lemma {:induction false} StartBelow(s: string, k: nat)
    requires k < |s|
    ensures Start(s, k) < Start(s, k + 1) <= Start(s, |s|)
    decreases |s| - k
  {
    if k + 1 < |s| { StartBelow(s, k + 1); }
  }

  /** What character k does to octet j */
  lemma CharacterLands(s: string, k: nat, j: nat)
    requires k < |s|
    ensures var i := Start(s, k);
            OctetAt(s, k + 1, j)
            == if j != i / 2 then OctetAt(s, k, j)
               else if i % 2 == 0 then Digit(s[k]) else OrByte(OctetAt(s, k, j), ShlByte(Digit(s[k]), 4))
  {
    hide OrByte, ShlByte, Digit;
    var i := Start(s, k);
    NothingBeyond(s, k, i);
    NothingBeyond(s, k, i + 1);
    OrZero(Digit(s[k]));
    OrZero(NibbleAt(s, k, 2 * j));
  }

  lemma {:induction false} DigitsSnoc(b: Bytes, x: Byte)
    ensures BcdDigits(b + [x]) == BcdDigits(b) + OctetDigits(x)
  {
    hide OctetDigits;
    if b == [] {
      assert (b + [x])[1..] == [] && OctetDigits(x) + [] == [] + OctetDigits(x) == OctetDigits(x);
    } else {
      DigitsSnoc(b[1..], x);
      assert (b + [x])[1..] == b[1..] + [x];
    }
  }

  method DecodeBCDLowNibbleFirst(b: Bytes) returns (out: AsciiString)
    ensures out == BcdDigits(b)
  {
    assert BcdDigits(b[..0]) == [];
    hide DigitChar, BcdDigits;
    out := [];
    for i := 0 to |b|
      invariant out == BcdDigits(b[..i])
    {
      DigitsSnoc(b[..i], b[i]);
      assert b[..i] + [b[i]] == b[..i + 1];
      out := out + [DigitChar(b[i] % 16)];
      var high := b[i] / 16;
      if high != 15 {
        out := out + [DigitChar(high)];
      }
      assert out == BcdDigits(b[..i]) + OctetDigits(b[i]);
    }
    assert b[..|b|] == b;
  }
}
