/** The codecs of include/sentinel/events/utils/hex.hpp: hexadecimal and decimal text against
    32-byte big-endian integers. Each loop is proved against a function of its input, and what
    that function means as a number is proved here as lemmas. */
module Hex {
  import opened Results
  import opened Numbers

  type Word = s: seq<byte> | |s| == 32 witness seq(32, _ => 0)

  /** The integer a big-endian byte sequence stands for. */
  function BE(s: seq<byte>): nat {
    Value(s, 256)
  }

  lemma WordBound(w: Word)
    ensures BE(w) < TWO_256
  {
    ValueBound(w, 256);
    WidthBounds();
  }

  // ---------------------------------------------------------------- hexadecimal text

  function HexNibble(c: char): (r: Option<nat>)
    ensures r.Some? ==> r.value < 16
  {
    if '0' <= c <= '9' then Some(c as int - '0' as int)
    else if 'a' <= c <= 'f' then Some(c as int - 'a' as int + 10)
    else if 'A' <= c <= 'F' then Some(c as int - 'A' as int + 10)
    else None
  }

  function NibbleChar(d: nat): (c: char)
    requires d < 16
    ensures HexNibble(c) == Some(d)
  {
    if d < 10 then ('0' as int + d) as char else ('a' as int + (d - 10)) as char
  }

  const LOWER_DIGITS: string := "0123456789abcdef"
  const UPPER_DIGITS: string := "0123456789ABCDEF"

  /** The digit characters, written out. */
  lemma NibbleMeaning(c: char, d: nat)
    requires d < 16
    ensures HexNibble(c) == Some(d) <==> c == LOWER_DIGITS[d] || c == UPPER_DIGITS[d]
    ensures NibbleChar(d) == LOWER_DIGITS[d]
  {
    SameAlphabet(d);
    if HexNibble(c) == Some(d) {
      assert c == LOWER_DIGITS[d] || c == UPPER_DIGITS[d];
    }
  }

  lemma SameAlphabet(d: nat)
    requires d < 16
    ensures LOWER_DIGITS[d] == if d < 10 then ('0' as int + d) as char else ('a' as int + (d - 10)) as char
    ensures UPPER_DIGITS[d] == if d < 10 then ('0' as int + d) as char else ('A' as int + (d - 10)) as char
  {
  }

  /** Characters that are digits in either case. */
  predicate IsHexChar(c: char) {
    c in LOWER_DIGITS || c in UPPER_DIGITS
  }

  lemma HexCharReads(c: char)
    ensures HexNibble(c).Some? <==> IsHexChar(c)
  {
    if HexNibble(c).Some? {
      NibbleMeaning(c, HexNibble(c).value);
    }
    if c in LOWER_DIGITS {
      var d :| 0 <= d < 16 && LOWER_DIGITS[d] == c;
      NibbleMeaning(c, d);
    }
    if c in UPPER_DIGITS {
      var d :| 0 <= d < 16 && UPPER_DIGITS[d] == c;
      NibbleMeaning(c, d);
    }
  }

  predicate AllHex(s: string) {
    forall i :: 0 <= i < |s| ==> HexNibble(s[i]).Some?
  }

  predicate HasPrefix(s: string) {
    |s| >= 2 && s[0] == '0' && s[1] == 'x'
  }

  function HexDigits(s: string): (d: seq<nat>)
    requires AllHex(s)
    ensures |d| == |s| && InBase(d, 16)
    ensures forall i :: 0 <= i < |s| ==> d[i] == HexNibble(s[i]).value
  {
    seq(|s|, i requires 0 <= i < |s| => HexNibble(s[i]).value)
  }

  /** The number hexadecimal text writes. */
  function HexValue(s: string): nat
    requires AllHex(s)
  {
    Value(HexDigits(s), 16)
  }

  /** Two characters to a byte, from the left. */
  function HexBytes(s: string): (b: seq<byte>)
    requires AllHex(s) && |s| % 2 == 0
    ensures |b| == |s| / 2
  {
    seq(|s| / 2, i requires 0 <= i < |s| / 2 => HexNibble(s[2 * i]).value * 16 + HexNibble(s[2 * i + 1]).value)
  }

  lemma HexBytesValue(s: string)
    requires AllHex(s) && |s| % 2 == 0
    ensures BE(HexBytes(s)) == HexValue(s)
  {
    PairValue(HexBytes(s), HexDigits(s));
  }

  lemma {:induction false} PairValue(b: seq<byte>, d: seq<nat>)
    requires |d| == 2 * |b|
    requires forall i :: 0 <= i < |b| ==> b[i] == d[2 * i] * 16 + d[2 * i + 1]
    ensures BE(b) == Value(d, 16)
  {
    if b != [] {
      var hi := d[..|d| - 1];
      PairValue(b[..|b| - 1], hi[..|hi| - 1]);
    }
  }

  lemma HexValueSnoc(s: string, c: char)
    requires AllHex(s) && HexNibble(c).Some?
    ensures AllHex(s + [c]) && HexValue(s + [c]) == HexValue(s) * 16 + HexNibble(c).value
  {
    assert HexDigits(s + [c]) == HexDigits(s) + [HexNibble(c).value];
    ValueSnoc(HexDigits(s), HexNibble(c).value, 16);
  }

  lemma ShiftIn(v: nat, n: nat)
    requires n < 16
    ensures (v % TWO_64) * 16 % TWO_64 + n == (v * 16 + n) % TWO_64
  {
  }

  /** The outcome of reading a quantity: overflowing high digits fall off the 64-bit register. */
  function HexUint64(hex: string): Result<uint64> {
    if |hex| < 3 || !HasPrefix(hex) then Failure(MissingHexPrefix)
    else if !AllHex(hex[2..]) then Failure(InvalidHexCharacter)
    else Success(HexValue(hex[2..]) % TWO_64)
  }

  /** A quantity is 0x and at least one digit in either case; it fails for want of the prefix, or
      else at a character that is no digit, and its value is the number modulo 2^64. */
  lemma Uint64Meaning(s: string)
    ensures HexUint64(s).Success? <==>
            |s| >= 3 && "0x" <= s && forall i :: 2 <= i < |s| ==> IsHexChar(s[i])
    ensures HexUint64(s) == Failure(MissingHexPrefix) <==> !(|s| >= 3 && "0x" <= s)
    ensures HexUint64(s).Failure? ==> HexUint64(s).error in {MissingHexPrefix, InvalidHexCharacter}
    ensures HexUint64(s).Success? ==> AllHex(s[2..]) && HexUint64(s).value == HexValue(s[2..]) % TWO_64
  {
    if |s| >= 3 {
      TailIsHex(s);
    }
  }

  lemma TailIsHex(s: string)
    requires |s| >= 2
    ensures AllHex(s[2..]) <==> forall i :: 2 <= i < |s| ==> IsHexChar(s[i])
  {
    forall i | 2 <= i < |s|
      ensures HexNibble(s[i]).Some? <==> IsHexChar(s[i])
      ensures s[2..][i - 2] == s[i]
    {
      HexCharReads(s[i]);
    }
    if forall i :: 2 <= i < |s| ==> IsHexChar(s[i]) {
      forall j | 0 <= j < |s| - 2
        ensures HexNibble(s[2..][j]).Some?
      {
        assert s[2..][j] == s[j + 2];
      }
    }
  }

  method ParseHexUint64(hex: string) returns (r: Result<uint64>)
    ensures r == HexUint64(hex)
  {
    if |hex| < 3 || !HasPrefix(hex) {
      return Failure(MissingHexPrefix);
    }
    var val: uint64 := 0;
    var i := 2;
    while i < |hex|
      invariant 2 <= i <= |hex|
      invariant AllHex(hex[2..i])
      invariant val == HexValue(hex[2..i]) % TWO_64
    {
      var n := HexNibble(hex[i]);
      if n.None? {
        assert hex[2..][i - 2] == hex[i];
        return Failure(InvalidHexCharacter);
      }
      assert hex[2..i + 1] == hex[2..i] + [hex[i]];
      HexValueSnoc(hex[2..i], hex[i]);
      ShiftIn(HexValue(hex[2..i]), n.value);
      // val << 4 in a 64-bit register; the low four bits are then free for the nibble
      val := val * 16 % TWO_64 + n.value;
      i := i + 1;
    }
    assert hex[2..i] == hex[2..];
    return Success(val);
  }

  /** Text written as an EIP-1474 Quantity: 0x, then digits with no leading zero. */
  function ToHexQuantity(v: uint64): string {
    "0x" + HexText(Digits(v, 16))
  }

  function HexText(d: seq<nat>): (s: string)
    requires InBase(d, 16)
    ensures |s| == |d| && AllHex(s) && HexDigits(s) == d
  {
    seq(|d|, i requires 0 <= i < |d| => NibbleChar(d[i]))
  }

  /** Every 64-bit number comes back from its quantity. */
  lemma QuantityRoundTrip(v: uint64)
    ensures HexUint64(ToHexQuantity(v)) == Success(v)
  {
    var d := Digits(v, 16);
    ReadBack(d);
    ValueOfDigits(v, 16);
    SmallModulus(v, TWO_64);
  }

  lemma SmallModulus(v: nat, m: nat)
    requires v < m
    ensures v % m == v
  {
  }

  lemma ReadBack(d: seq<nat>)
    requires InBase(d, 16) && d != []
    ensures HexUint64("0x" + HexText(d)) == Success(Value(d, 16) % TWO_64)
  {
    assert ("0x" + HexText(d))[2..] == HexText(d);
  }

  /** No shorter text is read as the same number. */
  lemma QuantityIsShortest(v: uint64, s: string)
    requires HexUint64(s) == Success(v)
    ensures |ToHexQuantity(v)| <= |s|
  {
    var d := HexDigits(s[2..]);
    ValueBound(d, 16);
    DivIdentity(HexValue(s[2..]), TWO_64);
    assert v <= HexValue(s[2..]);
    DigitsLength(v, 16, |d|);
  }

  /** The outcome of filling a byte array of n elements from hexadecimal text. Characters past
      the ones that fit are never looked at. */
  function HexPrefix(hex: string, n: nat): (r: Result<seq<byte>>)
    ensures r.Success? ==> |r.value| <= n
  {
    if !HasPrefix(hex) then Failure(MissingHexPrefix)
    else if |hex| % 2 != 0 then Failure(OddHexLength)
    else
      var k := if (|hex| - 2) / 2 < n then (|hex| - 2) / 2 else n;
      if AllHex(hex[2..2 + 2 * k]) then Success(HexBytes(hex[2..2 + 2 * k]))
      else Failure(InvalidHexCharacter)
  }

  predicate PairReads(hex: string, i: nat)
    requires 2 * i + 3 < |hex|
  {
    HexNibble(hex[2 + i * 2]).Some? && HexNibble(hex[2 + i * 2 + 1]).Some?
  }

  function PairByte(hex: string, i: nat): byte
    requires 2 * i + 3 < |hex| && PairReads(hex, i)
  {
    HexNibble(hex[2 + i * 2]).value * 16 + HexNibble(hex[2 + i * 2 + 1]).value
  }

  /** The first of the pairs i..k that writes no byte; k when they all do. */
  function FirstBadPair(hex: string, i: nat, k: nat): (b: nat)
    requires i <= k && 2 * k + 2 <= |hex|
    ensures i <= b <= k
    ensures forall j :: i <= j < b ==> PairReads(hex, j)
    ensures b < k ==> !PairReads(hex, b)
    decreases k - i
  {
    if i == k || !PairReads(hex, i) then i else FirstBadPair(hex, i + 1, k)
  }

  /** How many elements of an array of n are overwritten. */
  function Overwritten(hex: string, n: nat): (k: nat)
    ensures k <= n && 2 * k <= |hex|
    ensures HasPrefix(hex) ==> 2 * k + 2 <= |hex|
    ensures forall j :: 0 <= j < k ==> 2 * j + 3 < |hex| && PairReads(hex, j)
  {
    if !HasPrefix(hex) || |hex| % 2 != 0 then 0
    else FirstBadPair(hex, 0, if (|hex| - 2) / 2 < n then (|hex| - 2) / 2 else n)
  }

  /** Fills the front of the array and leaves the rest of it as it was; a failure at a bad pair
      leaves the bytes before it written. */
  method ParseHexBytes(hex: string, out: array<byte>) returns (r: Result<()>)
    modifies out
    ensures r.Success? <==> HexPrefix(hex, out.Length).Success?
    ensures r.Failure? ==> r.error == HexPrefix(hex, out.Length).error
    ensures forall j :: 0 <= j < out.Length ==>
              out[j] == if j < Overwritten(hex, out.Length) then PairByte(hex, j) else old(out[j])
    ensures r.Success? ==>
              var b := HexPrefix(hex, out.Length).value;
              out[..] == b + old(out[..])[|b|..]
  {
    if !HasPrefix(hex) {
      return Failure(MissingHexPrefix);
    }
    if |hex| % 2 != 0 {
      return Failure(OddHexLength);
    }
    var k := if (|hex| - 2) / 2 < out.Length then (|hex| - 2) / 2 else out.Length;
    var ok := FillPairs(hex, k, out);
    PairsAreText(hex, k);
    if !ok {
      return Failure(InvalidHexCharacter);
    }
    FilledFront(hex, k, old(out[..]), out[..]);
    return Success(());
  }

  /** The loop over the first k pairs; it stops at the first that does not write a byte. */
  method FillPairs(hex: string, k: nat, out: array<byte>) returns (ok: bool)
    requires k <= out.Length && 2 * k + 2 <= |hex|
    modifies out
    ensures ok <==> FirstBadPair(hex, 0, k) == k
    ensures forall j :: 0 <= j < out.Length ==>
              out[j] == if j < FirstBadPair(hex, 0, k) then PairByte(hex, j) else old(out[j])
  {
    hide HexNibble;
    var i := 0;
    while i < k
      invariant 0 <= i <= k
      invariant FirstBadPair(hex, i, k) == FirstBadPair(hex, 0, k)
      invariant forall j :: 0 <= j < i ==> out[j] == PairByte(hex, j)
      invariant forall j :: i <= j < out.Length ==> out[j] == old(out[j])
    {
      var high, low := HexNibble(hex[2 + i * 2]), HexNibble(hex[2 + i * 2 + 1]);
      if high.None? || low.None? {
        return false;
      }
      out[i] := high.value * 16 + low.value;
      i := i + 1;
    }
    return true;
  }

  lemma PairsAreText(hex: string, k: nat)
    requires 2 * k + 2 <= |hex|
    ensures FirstBadPair(hex, 0, k) == k <==> AllHex(hex[2..2 + 2 * k])
  {
    var b, text := FirstBadPair(hex, 0, k), hex[2..2 + 2 * k];
    if b < k {
      assert text[2 * b] == hex[2 + b * 2] && text[2 * b + 1] == hex[2 + b * 2 + 1];
    } else {
      forall j | 0 <= j < 2 * k
        ensures HexNibble(text[j]).Some?
      {
        assert PairReads(hex, j / 2);
      }
    }
  }

  lemma FilledFront(hex: string, k: nat, before: seq<byte>, after: seq<byte>)
    requires 2 * k + 2 <= |hex| && AllHex(hex[2..2 + 2 * k]) && k <= |before| == |after|
    requires forall j :: 0 <= j < k ==> PairReads(hex, j) && after[j] == PairByte(hex, j)
    requires forall j :: k <= j < |after| ==> after[j] == before[j]
    ensures after == HexBytes(hex[2..2 + 2 * k]) + before[k..]
  {
    hide PairByte, PairReads, HexBytes, AllHex;
    var front := HexBytes(hex[2..2 + 2 * k]);
    forall j | 0 <= j < k
      ensures after[j] == front[j]
    {
      TextByte(hex, k, j);
    }
    FrontAndRest(front, before, after);
  }

  lemma FrontAndRest(front: seq<byte>, before: seq<byte>, after: seq<byte>)
    requires |front| <= |before| == |after|
    requires forall j :: 0 <= j < |front| ==> after[j] == front[j]
    requires forall j :: |front| <= j < |after| ==> after[j] == before[j]
    ensures after == front + before[|front|..]
  {
  }

  lemma TextByte(hex: string, k: nat, j: nat)
    requires 2 * k + 2 <= |hex| && AllHex(hex[2..2 + 2 * k]) && j < k
    ensures PairReads(hex, j) && HexBytes(hex[2..2 + 2 * k])[j] == PairByte(hex, j)
  {
    hide HexNibble;
    var text := hex[2..2 + 2 * k];
    assert text[2 * j] == hex[2 + j * 2] && text[2 * j + 1] == hex[2 + j * 2 + 1];
  }

  function HexCheck(hex: string): Result<()> {
    if !HasPrefix(hex) then Failure(MissingHexPrefix)
    else if |hex| % 2 != 0 then Failure(OddHexLength)
    else if !AllHex(hex[2..]) then Failure(InvalidHexCharacter)
    else Success(())
  }

  /** Checked text is 0x and pairs of digits in either case; the faults are told apart in that
      order. */
  lemma HexCheckMeaning(s: string)
    ensures HexCheck(s).Success? <==> "0x" <= s && |s| % 2 == 0 && forall i :: 2 <= i < |s| ==> IsHexChar(s[i])
    ensures HexCheck(s) == Failure(MissingHexPrefix) <==> !("0x" <= s)
    ensures HexCheck(s) == Failure(OddHexLength) <==> "0x" <= s && |s| % 2 != 0
    ensures HexCheck(s).Failure? ==> HexCheck(s).error in {MissingHexPrefix, OddHexLength, InvalidHexCharacter}
  {
    if |s| >= 2 {
      TailIsHex(s);
    }
  }

  /** An array of n elements is filled from text with the prefix and an even length whose first n
      pairs, or all if there are fewer, are digits. */
  lemma HexPrefixMeaning(s: string, n: nat)
    ensures HexPrefix(s, n).Success? <==>
            "0x" <= s && |s| % 2 == 0 && forall i :: 2 <= i < |s| && i < 2 + 2 * n ==> IsHexChar(s[i])
    ensures HexPrefix(s, n) == Failure(MissingHexPrefix) <==> !("0x" <= s)
    ensures HexPrefix(s, n) == Failure(OddHexLength) <==> "0x" <= s && |s| % 2 != 0
    ensures HexPrefix(s, n).Failure? ==> HexPrefix(s, n).error in {MissingHexPrefix, OddHexLength, InvalidHexCharacter}
  {
    if "0x" <= s && |s| % 2 == 0 {
      hide AllHex, IsHexChar, HexBytes;
      var k := if (|s| - 2) / 2 < n then (|s| - 2) / 2 else n;
      var t := s[..2 + 2 * k];
      assert t[2..] == s[2..2 + 2 * k];
      assert forall i :: 2 <= i < |t| ==> t[i] == s[i];
      TailIsHex(t);
    }
  }

  lemma HexPrefixValue(s: string, n: nat)
    requires HexPrefix(s, n).Success?
    ensures var k := if |s| < 2 + 2 * n then (|s| - 2) / 2 else n;
            AllHex(s[2..2 + 2 * k]) && HexPrefix(s, n).value == HexBytes(s[2..2 + 2 * k])
  {
    hide AllHex, HexBytes;
  }

  method ValidateHex(hex: string) returns (r: Result<()>)
    ensures r == HexCheck(hex)
  {
    if !HasPrefix(hex) {
      return Failure(MissingHexPrefix);
    }
    if |hex| % 2 != 0 {
      return Failure(OddHexLength);
    }
    var i := 2;
    while i < |hex|
      invariant 2 <= i <= |hex|
      invariant AllHex(hex[2..i])
    {
      if HexNibble(hex[i]).None? {
        assert hex[2..][i - 2] == hex[i];
        return Failure(InvalidHexCharacter);
      }
      assert hex[2..i + 1] == hex[2..i] + [hex[i]];
      i := i + 1;
    }
    assert hex[2..i] == hex[2..];
    return Success(());
  }

  // ---------------------------------------------------------------- bytes as lower-case text

  /** Two lower-case characters per byte. */
  function HexOf(b: seq<byte>): (s: string)
    ensures |s| == 2 * |b| && LowerHex(s)
  {
    seq(2 * |b|, i requires 0 <= i < 2 * |b| => NibbleChar(if i % 2 == 0 then b[i / 2] / 16 else b[i / 2] % 16))
  }

  predicate LowerHex(s: string) {
    forall i :: 0 <= i < |s| ==> '0' <= s[i] <= '9' || 'a' <= s[i] <= 'f'
  }

  /** The loop every rule runs to print an address. */
  method AddressToHex(addr: seq<byte>) returns (s: string)
    ensures s == "0x" + HexOf(addr)
  {
    s := "0x";
    for i := 0 to |addr|
      invariant s == "0x" + HexOf(addr[..i])
    {
      var b := addr[i];
      assert HexOf(addr[..i + 1]) == HexOf(addr[..i]) + [NibbleChar(b / 16), NibbleChar(b % 16)];
      s := s + [NibbleChar(b / 16), NibbleChar(b % 16)];
    }
    assert addr[..|addr|] == addr;
  }

  /** Reading the printed bytes gives them back. */
  lemma HexOfThenBytes(b: seq<byte>)
    ensures AllHex(HexOf(b)) && HexBytes(HexOf(b)) == b
  {
    hide HexNibble, NibbleChar;
    var s := HexOf(b);
    forall j | 0 <= j < |s|
      ensures HexNibble(s[j]).Some?
    {
    }
    forall i | 0 <= i < |b|
      ensures HexBytes(s)[i] == b[i]
    {
      assert (2 * i) / 2 == i && (2 * i + 1) / 2 == i;
      assert s[2 * i] == NibbleChar(b[i] / 16) && s[2 * i + 1] == NibbleChar(b[i] % 16);
    }
  }

  /** Printing the bytes that lower-case text writes gives the text back. */
  lemma BytesThenHexOf(s: string)
    requires LowerHex(s) && |s| % 2 == 0
    ensures AllHex(s) && HexOf(HexBytes(s)) == s
  {
    hide HexNibble, NibbleChar;
    forall i | 0 <= i < |s|
      ensures HexNibble(s[i]).Some?
    {
      LowerIsCanonical(s[i]);
    }
    var b := HexBytes(s);
    forall i | 0 <= i < |s|
      ensures HexOf(b)[i] == s[i]
    {
      var k := i / 2;
      assert b[k] == HexNibble(s[2 * k]).value * 16 + HexNibble(s[2 * k + 1]).value;
      LowerPair(s[2 * k], s[2 * k + 1]);
      assert i == 2 * k || i == 2 * k + 1;
    }
  }

  /** A byte written by two lower-case digits prints as those two digits. */
  lemma LowerPair(high: char, low: char)
    requires LowerHex([high, low])
    ensures HexNibble(high).Some? && HexNibble(low).Some?
    ensures var b := HexNibble(high).value * 16 + HexNibble(low).value;
            NibbleChar(b / 16) == high && NibbleChar(b % 16) == low
  {
    assert [high, low][0] == high && [high, low][1] == low;
    LowerIsCanonical(high);
    LowerIsCanonical(low);
    hide HexNibble, NibbleChar;
    NibblePair(HexNibble(high).value, HexNibble(low).value);
  }

  lemma NibblePair(high: nat, low: nat)
    requires high < 16 && low < 16
    ensures (high * 16 + low) / 16 == high && (high * 16 + low) % 16 == low
  {
  }

  lemma LowerIsCanonical(c: char)
    requires '0' <= c <= '9' || 'a' <= c <= 'f'
    ensures HexNibble(c).Some? && NibbleChar(HexNibble(c).value) == c
  {
  }

  // ---------------------------------------------------------------- order of 32-byte values

  /** memcmp over two buffers of one length: the difference at the first byte that differs. */
  function MemCmp(a: seq<byte>, b: seq<byte>): int
    requires |a| == |b|
  {
    if a == [] then 0
    else if a[0] != b[0] then a[0] - b[0]
    else MemCmp(a[1..], b[1..])
  }

  function GreaterBe256(lhs: seq<byte>, rhs: seq<byte>): bool
    requires |lhs| == |rhs|
  {
    MemCmp(lhs, rhs) > 0
  }

  lemma {:induction false} MemCmpIsNumeric(a: seq<byte>, b: seq<byte>)
    requires |a| == |b|
    ensures MemCmp(a, b) > 0 <==> BE(a) > BE(b)
    ensures MemCmp(a, b) == 0 <==> a == b
  {
    if a != [] {
      var s, t := a[1..], b[1..];
      MemCmpIsNumeric(s, t);
      assert a == [a[0]] + s && b == [b[0]] + t;
      SplitFirst(a);
      SplitFirst(b);
      ValueBound(s, 256);
      ValueBound(t, 256);
      if a[0] > b[0] {
        LeadingByte(a[0], b[0], BE(s), BE(t), Pow(256, |s|));
      } else if a[0] < b[0] {
        LeadingByte(b[0], a[0], BE(t), BE(s), Pow(256, |s|));
      }
    }
  }

  lemma LeadingByte(x: nat, y: nat, s: nat, t: nat, p: nat)
    requires x > y && t < p
    ensures x * p + s > y * p + t
  {
    MulMonotone(y + 1, x, p);
  }

  lemma SplitFirst(a: seq<byte>)
    requires a != []
    ensures BE(a) == a[0] * Pow(256, |a| - 1) + BE(a[1..])
  {
    assert a == [a[0]] + a[1..];
    ValueConcat([a[0]], a[1..], 256);
    assert [a[0]][..0] == [];
    assert Value([a[0]], 256) == a[0];
  }

  /** Comparing the bytes is comparing the numbers. */
  lemma GreaterIsNumeric(lhs: Word, rhs: Word)
    ensures GreaterBe256(lhs, rhs) <==> BE(lhs) > BE(rhs)
  {
    MemCmpIsNumeric(lhs, rhs);
  }

  // ---------------------------------------------------------------- decimal text

  predicate IsDecimalDigit(c: char) {
    '0' <= c <= '9'
  }

  predicate AllDecimal(s: string) {
    forall i :: 0 <= i < |s| ==> IsDecimalDigit(s[i])
  }

  function DecimalDigits(s: string): (d: seq<nat>)
    requires AllDecimal(s)
    ensures |d| == |s| && InBase(d, 10)
    ensures forall i :: 0 <= i < |s| ==> d[i] == s[i] as int - '0' as int
  {
    seq(|s|, i requires 0 <= i < |s| => s[i] as int - '0' as int)
  }

  /** The decimal digits, written out. */
  lemma DigitMeaning(c: char, d: nat)
    requires d < 10
    ensures IsDecimalDigit(c) <==> c in "0123456789"
    ensures DecimalText([d]) == ["0123456789"[d]] && DecimalDigits(DecimalText([d])) == [d]
  {
    if IsDecimalDigit(c) {
      assert "0123456789"[c as int - '0' as int] == c;
    }
  }

  /** The number decimal text writes. */
  function DecimalValue(s: string): nat
    requires AllDecimal(s)
  {
    Value(DecimalDigits(s), 10)
  }

  function DecimalText(d: seq<nat>): (s: string)
    requires InBase(d, 10)
    ensures |s| == |d| && AllDecimal(s) && DecimalDigits(s) == d
  {
    seq(|d|, i requires 0 <= i < |d| => ('0' as int + d[i]) as char)
  }

  /** The canonical decimal numeral of n. */
  function Decimal(n: nat): (s: string)
    ensures |s| > 0 && AllDecimal(s)
  {
    DecimalText(Digits(n, 10))
  }

  function Reversed(s: string): (r: string)
    ensures |r| == |s|
  {
    seq(|s|, i requires 0 <= i < |s| => s[|s| - 1 - i])
  }

  /** One pass over the buffer from the most significant byte: divides the number it holds by
      ten in place. No quotient overflows its byte. */
  method DivideByTen(buffer: array<byte>) returns (remainder: nat, isZero: bool)
    modifies buffer
    ensures remainder < 10
    ensures old(BE(buffer[..])) == BE(buffer[..]) * 10 + remainder
    ensures isZero <==> BE(buffer[..]) == 0
  {
    ghost var before := buffer[..];
    remainder, isZero := 0, true;
    for i := 0 to buffer.Length
      invariant remainder < 10
      invariant buffer[i..] == before[i..]
      invariant BE(before[..i]) == BE(buffer[..i]) * 10 + remainder
      invariant isZero <==> BE(buffer[..i]) == 0
    {
      ghost var done := buffer[..i];
      assert buffer[i] == before[i];
      var num := remainder * 256 + buffer[i];
      buffer[i] := num / 10;
      remainder := num % 10;
      if buffer[i] != 0 {
        isZero := false;
      }
      assert before[..i + 1][..i] == before[..i];
      assert buffer[..i + 1][..i] == done;
    }
    assert before[..buffer.Length] == before && buffer[..buffer.Length] == buffer[..];
  }

  /** Prints a 32-byte integer in decimal: its canonical numeral, digit by digit from the right. */
  method Uint256BeToDecimal(data: Word) returns (text: string)
    ensures text == Decimal(BE(data))
  {
    var buffer := new byte[32](i requires 0 <= i < 32 => data[i]);
    assert buffer[..] == data;
    var isZero := true;
    for i := 0 to 32
      invariant isZero
      invariant BE(buffer[..i]) == 0
    {
      assert buffer[..i + 1][..i] == buffer[..i];
      if buffer[i] != 0 {
        isZero := false;
        PrefixNonZero(data, i);
        break;
      }
    }
    if isZero {
      assert buffer[..32] == buffer[..];
      assert Decimal(0) == "0";
      return "0";
    }
    text := PrintDigits(buffer);
  }

  /** The digit loop: prints the number the buffer holds, emptying the buffer. */
  method PrintDigits(buffer: array<byte>) returns (text: string)
    requires BE(buffer[..]) > 0
    modifies buffer
    ensures text == Decimal(old(BE(buffer[..])))
  {
    var result := "";
    var isZero := false;
    ghost var n, rest := BE(buffer[..]), BE(buffer[..]);
    while !isZero
      invariant rest == BE(buffer[..])
      invariant isZero <==> rest == 0
      invariant PrintedSoFar(n, rest, result)
      decreases rest
    {
      var remainder: nat;
      remainder, isZero := DivideByTen(buffer);
      PrintOne(n, rest, BE(buffer[..]), remainder, result);
      rest := BE(buffer[..]);
      result := result + [('0' as int + remainder) as char];
    }
    return Reversed(result);
  }

  /** The low digits of n are printed, last one first; rest is what is left of n. */
  ghost predicate PrintedSoFar(n: nat, rest: nat, result: string) {
    Decimal(n) == (if rest == 0 then "" else Decimal(rest)) + Reversed(result)
  }

  lemma PrintOne(n: nat, before: nat, rest: nat, remainder: nat, result: string)
    requires before > 0 && remainder < 10 && before == rest * 10 + remainder
    requires PrintedSoFar(n, before, result)
    ensures PrintedSoFar(n, rest, result + [('0' as int + remainder) as char])
  {
    hide Decimal, Reversed;
    var c := ('0' as int + remainder) as char;
    DecimalSnoc(rest, remainder);
    ReversedSnoc(result, c);
  }

  lemma ReversedSnoc(s: string, c: char)
    ensures Reversed(s + [c]) == [c] + Reversed(s)
  {
  }

  lemma DecimalSnoc(rest: nat, digit: nat)
    requires digit < 10
    ensures Decimal(rest * 10 + digit) == (if rest == 0 then "" else Decimal(rest)) + [('0' as int + digit) as char]
  {
    var n := rest * 10 + digit;
    assert n / 10 == rest && n % 10 == digit;
    if rest > 0 {
      assert Digits(n, 10) == Digits(rest, 10) + [digit];
    }
  }

  lemma PrefixNonZero(data: seq<byte>, i: nat)
    requires i < |data| && data[i] != 0
    ensures BE(data) > 0
  {
    if BE(data) == 0 {
      var q := data[..|data| - 1];
      if i < |q| {
        PrefixNonZero(q, i);
      }
    }
  }

  /** Reading decimal text left to right, stopping at the first character that is not a digit
      or the first prefix that no longer fits in 256 bits. */
  function ReadDecimal(s: string): Result<nat> {
    if s == "" then Success(0)
    else
      var n :- ReadDecimal(s[..|s| - 1]);
      var c := s[|s| - 1];
      if !IsDecimalDigit(c) then Failure(InvalidDecimalDigit)
      else if n * 10 + (c as int - '0' as int) >= TWO_256 then Failure(DecimalTooLarge)
      else Success(n * 10 + (c as int - '0' as int))
  }

  /** Parses decimal text into 32 bytes by multiplying the array by ten in place for each digit. */
  method DecimalToBe256(decimal: string) returns (r: Result<Word>)
    ensures r == DecimalToWord(decimal)
  {
    var result := new byte[32](_ => 0);
    ZeroWord(result[..]);
    var k := 0;
    while k < |decimal|
      invariant 0 <= k <= |decimal|
      invariant ReadDecimal(decimal[..k]) == Success(BE(result[..]))
    {
      var c := decimal[k];
      assert decimal[..k + 1][..k] == decimal[..k];
      if !IsDecimalDigit(c) {
        FailedPrefix(decimal, k + 1);
        return Failure(InvalidDecimalDigit);
      }
      var carry := MultiplyByTenAndAdd(result, c as int - '0' as int);
      WordBound(result[..]);
      if carry > 0 {
        FailedPrefix(decimal, k + 1);
        return Failure(DecimalTooLarge);
      }
      k := k + 1;
    }
    assert decimal[..k] == decimal;
    WordBound(result[..]);
    WordOfValue(result[..]);
    return Success(result[..]);
  }

  /** The inner loop of the parser: result * 10 + digit, from the least significant byte, with
      a carry that never exceeds 9. */
  method MultiplyByTenAndAdd(result: array<byte>, digit: nat) returns (carry: nat)
    requires result.Length == 32 && digit <= 9
    modifies result
    ensures carry <= 9
    ensures old(BE(result[..])) * 10 + digit == carry * TWO_256 + BE(result[..])
  {
    ghost var before := result[..];
    carry := digit;
    assert before[32..] == [] && Multiplied([], [], digit, digit);
    hide Multiplied, BE;
    var i := 31;
    while i >= 0
      invariant -1 <= i <= 31
      invariant carry <= 9
      invariant result[..i + 1] == before[..i + 1]
      invariant Multiplied(before[i + 1..], result[i + 1..], digit, carry)
    {
      ghost var done := result[i + 1..];
      var val := result[i] * 10 + carry;
      assert result[i] == before[i];
      result[i] := val % 256;
      MultiplyByte(before[i], before[i + 1..], done, digit, carry);
      assert before[i..] == [before[i]] + before[i + 1..] && result[i..] == [val % 256] + done;
      carry := val / 256;
      i := i - 1;
    }
    assert before[0..] == before && result[0..] == result[..];
    MultipliedWord(before, result[..], digit, carry);
  }

  /** The low bytes times ten plus the digit, with what did not fit in the carry. */
  ghost predicate Multiplied(before: seq<byte>, after: seq<byte>, digit: nat, carry: nat) {
    |before| == |after| && BE(before) * 10 + digit == carry * Pow(256, |after|) + BE(after)
  }

  lemma MultiplyByte(x: byte, before: seq<byte>, after: seq<byte>, digit: nat, carry: nat)
    requires Multiplied(before, after, digit, carry)
    ensures var val := x * 10 + carry;
            Multiplied([x] + before, [val % 256] + after, digit, val / 256)
  {
    var val := x * 10 + carry;
    var b, a := [x] + before, [val % 256] + after;
    assert b[1..] == before && a[1..] == after;
    SplitFirst(b);
    SplitFirst(a);
    CarryStep(x, BE(before), BE(after), Pow(256, |after|), digit, carry);
  }

  lemma MultipliedWord(before: Word, after: Word, digit: nat, carry: nat)
    requires Multiplied(before, after, digit, carry)
    ensures BE(before) * 10 + digit == carry * TWO_256 + BE(after)
  {
    WidthBounds();
  }

  lemma CarryStep(x: nat, rest: nat, done: nat, p: nat, digit: nat, carry: nat)
    requires rest * 10 + digit == carry * p + done
    ensures var val := x * 10 + carry;
            (x * p + rest) * 10 + digit == (val / 256) * (256 * p) + ((val % 256) * p + done)
  {
    var val := x * 10 + carry;
    var q, m := val / 256, val % 256;
    MulAssociates(q, 256, p);
    assert val * p == (q * 256) * p + m * p by {
      assert val == q * 256 + m;
    }
    assert val * p == (x * p) * 10 + carry * p;
  }

  lemma ZeroWord(w: seq<byte>)
    requires forall i :: 0 <= i < |w| ==> w[i] == 0
    ensures BE(w) == 0
  {
    if w != [] {
      ZeroWord(w[..|w| - 1]);
    }
  }

  lemma {:induction false} FailedPrefix(s: string, k: nat)
    requires k <= |s| && ReadDecimal(s[..k]).Failure?
    ensures ReadDecimal(s) == ReadDecimal(s[..k])
  {
    if k == |s| {
      assert s[..k] == s;
    } else {
      var q := s[..|s| - 1];
      assert q[..k] == s[..k];
      FailedPrefix(q, k);
    }
  }

  /** The word of an integer below 2^256. */
  function WordOf(n: nat): (w: Word) {
    Padded(n, 256, 32)
  }

  lemma ValueOfWord(n: nat)
    requires n < TWO_256
    ensures BE(WordOf(n)) == n
  {
    WidthBounds();
    ValueOfPadded(n, 256, 32);
  }

  lemma WordOfValue(w: Word)
    ensures WordOf(BE(w)) == w
  {
    WordBound(w);
    ValueOfWord(BE(w));
    ValueInjective(WordOf(BE(w)), w, 256);
  }

  function DecimalToWord(s: string): Result<Word> {
    match ReadDecimal(s)
    case Success(n) => Success(WordOf(n))
    case Failure(e) => Failure(e)
  }

  /** The parser accepts exactly the digit strings below 2^256, and reads their value. */
  lemma {:induction false} ReadDecimalMeaning(s: string)
    ensures ReadDecimal(s).Success? <==> AllDecimal(s) && DecimalValue(s) < TWO_256
    ensures ReadDecimal(s).Success? ==> ReadDecimal(s).value == DecimalValue(s)
  {
    if s != "" {
      var q := s[..|s| - 1];
      ReadDecimalMeaning(q);
      if AllDecimal(s) {
        assert DecimalDigits(s)[..|s| - 1] == DecimalDigits(q);
      } else if AllDecimal(q) {
        assert !IsDecimalDigit(s[|s| - 1]);
      }
    }
  }

  /** Where a reading fails: just after the longest prefix that still reads. */
  lemma {:induction false} FirstFailure(s: string) returns (k: nat)
    requires ReadDecimal(s).Failure?
    ensures k < |s| && ReadDecimal(s[..k]).Success? && ReadDecimal(s[..k + 1]) == ReadDecimal(s)
  {
    var q := s[..|s| - 1];
    if ReadDecimal(q).Success? {
      k := |q|;
      assert s[..k + 1] == s;
    } else {
      k := FirstFailure(q);
      assert q[..k] == s[..k] && q[..k + 1] == s[..k + 1];
    }
  }

  /** A character that is no digit, after digits that still fit. */
  ghost predicate BadAt(s: string, k: nat) {
    k < |s| && !IsDecimalDigit(s[k]) && AllDecimal(s[..k]) && DecimalValue(s[..k]) < TWO_256
  }

  /** A bad character is the failure exactly when the digits before it still fit. */
  lemma InvalidDigitMeaning(s: string)
    ensures ReadDecimal(s) == Failure(InvalidDecimalDigit) <==> exists k: nat :: BadAt(s, k)
  {
    hide ReadDecimal, BadAt;
    if ReadDecimal(s) == Failure(InvalidDecimalDigit) {
      FirstBadDigit(s);
    }
    forall k: nat | BadAt(s, k)
      ensures ReadDecimal(s) == Failure(InvalidDecimalDigit)
    {
      BadDigitFails(s, k);
    }
  }

  lemma FirstBadDigit(s: string)
    requires ReadDecimal(s) == Failure(InvalidDecimalDigit)
    ensures exists k: nat :: BadAt(s, k)
  {
    hide DecimalValue;
    var k := FirstFailure(s);
    assert s[..k + 1][..k] == s[..k];
    ReadDecimalMeaning(s[..k]);
    assert BadAt(s, k);
  }

  lemma BadDigitFails(s: string, k: nat)
    requires BadAt(s, k)
    ensures ReadDecimal(s) == Failure(InvalidDecimalDigit)
  {
    hide DecimalValue;
    ReadDecimalMeaning(s[..k]);
    assert s[..k + 1][..k] == s[..k];
    FailedPrefix(s, k + 1);
  }

  lemma DigitsOverflowOnly(s: string)
    requires AllDecimal(s)
    ensures ReadDecimal(s) != Failure(InvalidDecimalDigit)
  {
    if ReadDecimal(s).Failure? {
      var k := FirstFailure(s);
      assert s[..k + 1][..k] == s[..k];
    }
  }

  /** Overflow is the failure exactly when some all-digit prefix reaches 2^256. */
  lemma TooLargeMeaning(s: string)
    ensures ReadDecimal(s) == Failure(DecimalTooLarge) <==>
            exists k :: 0 <= k <= |s| && AllDecimal(s[..k]) && DecimalValue(s[..k]) >= TWO_256
  {
    if ReadDecimal(s) == Failure(DecimalTooLarge) {
      OverflowingPrefix(s);
    }
    forall k | 0 <= k <= |s| && AllDecimal(s[..k]) && DecimalValue(s[..k]) >= TWO_256
      ensures ReadDecimal(s) == Failure(DecimalTooLarge)
    {
      ReadDecimalMeaning(s[..k]);
      DigitsOverflowOnly(s[..k]);
      NoOtherFailure(s[..k]);
      FailedPrefix(s, k);
    }
  }

  lemma OverflowingPrefix(s: string)
    requires ReadDecimal(s) == Failure(DecimalTooLarge)
    ensures exists k :: 0 <= k <= |s| && AllDecimal(s[..k]) && DecimalValue(s[..k]) >= TWO_256
  {
    hide ReadDecimal, DecimalValue;
    var k := FirstFailure(s);
    var t := s[..k + 1];
    assert t[..k] == s[..k];
    LastDigitIsOne(t);
    ReadDecimalMeaning(s[..k]);
    ReadDecimalMeaning(t);
    assert t == s[..k] + [t[k]];
    assert AllDecimal(s[..k + 1]) && DecimalValue(s[..k + 1]) >= TWO_256;
  }

  lemma LastDigitIsOne(s: string)
    requires s != ""
    requires ReadDecimal(s) == Failure(DecimalTooLarge) && ReadDecimal(s[..|s| - 1]).Success?
    ensures IsDecimalDigit(s[|s| - 1])
  {
  }

  lemma {:induction false} NoOtherFailure(s: string)
    ensures ReadDecimal(s).Failure? ==> ReadDecimal(s).error in {InvalidDecimalDigit, DecimalTooLarge}
  {
    if s != "" {
      NoOtherFailure(s[..|s| - 1]);
    }
  }

  /** Printing then parsing returns the same 32 bytes, for every word. */
  lemma PrintThenParse(w: Word)
    ensures DecimalToWord(Decimal(BE(w))) == Success(w)
  {
    ValueOfDigits(BE(w), 10);
    WordBound(w);
    ReadDecimalMeaning(Decimal(BE(w)));
    WordOfValue(w);
  }

  /** Parsing then printing returns the text without its leading zeros. */
  lemma ParseThenPrint(s: string)
    requires DecimalToWord(s).Success?
    ensures AllDecimal(s)
    ensures DecimalDigits(Decimal(BE(DecimalToWord(s).value))) == Strip(DecimalDigits(s))
  {
    ReadDecimalMeaning(s);
    ValueOfWord(ReadDecimal(s).value);
    DigitsStrip(DecimalDigits(s), 10);
  }

  /** The printed numeral has no leading zero, writes the value, and fits in 78 characters. */
  lemma DecimalIsCanonical(w: Word)
    ensures DecimalValue(Decimal(BE(w))) == BE(w)
    ensures |Decimal(BE(w))| == 1 || Decimal(BE(w))[0] != '0'
    ensures |Decimal(BE(w))| <= 78
  {
    var d := Digits(BE(w), 10);
    ValueOfDigits(BE(w), 10);
    WordBound(w);
    TenTo78();
    DigitsLength(BE(w), 10, 78);
    assert DecimalDigits(Decimal(BE(w)))[0] == d[0];
  }

  lemma DecimalInjective(m: nat, n: nat)
    requires Decimal(m) == Decimal(n)
    ensures m == n
  {
    DigitsInjective(m, n, 10);
  }

  // ---------------------------------------------------------------- 64-bit to 32 bytes

  /** (value >> 8i) & 0xFF */
  function ByteAt(value: nat, i: nat): byte {
    value / Pow(256, i) % 256
  }

  ghost predicate LowBytes(value: nat, b: seq<byte>) {
    BE(b) == value % Pow(256, |b|)
  }

  /** Writes the eight low bytes from the right; the value is unchanged. */
  method ToBe256(value: uint64) returns (result: Word)
    ensures result == WordOf(value)
  {
    var bytes := new byte[32](_ => 0);
    var i := 0;
    assert bytes[32..] == [];
    while i < 8
      invariant 0 <= i <= 8
      invariant forall j :: 0 <= j < 32 - i ==> bytes[j] == 0
      invariant LowBytes(value, bytes[32 - i..])
    {
      ghost var done := bytes[32 - i..];
      bytes[31 - i] := ByteAt(value, i);
      assert bytes[31 - i..] == [ByteAt(value, i)] + done;
      PushByte(value, done);
      i := i + 1;
    }
    HighBytesZero(bytes[..]);
    assert bytes[..][24..] == bytes[24..];
    WidthBounds();
    SmallModulus(value, TWO_64);
    WordOfValue(bytes[..]);
    return bytes[..];
  }

  lemma HighBytesZero(w: Word)
    requires forall j :: 0 <= j < 24 ==> w[j] == 0
    ensures BE(w) == BE(w[24..])
  {
    ZeroWord(w[..24]);
    ValueConcat(w[..24], w[24..], 256);
    assert w == w[..24] + w[24..];
  }

  lemma PushByte(value: nat, done: seq<byte>)
    requires LowBytes(value, done)
    ensures LowBytes(value, [ByteAt(value, |done|)] + done)
  {
    var longer := [ByteAt(value, |done|)] + done;
    SplitFirst(longer);
    assert longer[1..] == done;
    NextByte(value, Pow(256, |done|));
  }

  lemma NextByte(n: nat, p: nat)
    requires p > 0
    ensures n % (256 * p) == (n / p % 256) * p + n % p
  {
    var q, m := n / p, n % p;
    var h, l := q / 256, q % 256;
    HornerBound(l, m, p, 256);
    assert n == h * (256 * p) + (l * p + m) by {
      DivIdentity(n, p);
      MulAssociates(h, 256, p);
      assert q == h * 256 + l;
    }
    assert 256 * p == p * 256;
    DivMod(h, l * p + m, 256 * p);
  }

  /** Folds eight bytes into a 64-bit register, from the left: no byte is shifted out. */
  method FoldUint64(bytes: seq<byte>) returns (v: uint64)
    requires |bytes| == 8
    ensures v == BE(bytes)
  {
    var acc: nat := 0;
    for i := 0 to 8
      invariant acc == BE(bytes[..i]) < Pow(256, i)
    {
      assert bytes[..i + 1] == bytes[..i] + [bytes[i]];
      ValueSnoc(bytes[..i], bytes[i], 256);
      HornerBound(acc, bytes[i], 256, Pow(256, i));
      acc := acc * 256 + bytes[i];
    }
    WidthBounds();
    assert bytes[..8] == bytes;
    return acc;
  }
}
