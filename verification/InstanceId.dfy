/** Instance identifiers: UUID version 7 of section 5.7 of RFC 9562, written over
    a buffer of random bytes. */
module InstanceId {
  import opened Model
  import opened Text

  const BUFFER := 16

  // ------------------------------------------------------------------- bytes

  type byte = b: int | 0 <= b < 256

  predicate IsHexDigit(c: char) { '0' <= c <= '9' || 'a' <= c <= 'f' }

  function HexDigit(n: nat): (c: char)
    requires n < 16
    ensures IsHexDigit(c)
  {
    "0123456789abcdef"[n]
  }

  lemma HexDigitsAscend(m: nat, n: nat)
    requires m < 16 && n < 16
    ensures m < n <==> HexDigit(m) < HexDigit(n)
    ensures m == n <==> HexDigit(m) == HexDigit(n)
  {
  }

  function High(b: byte): (n: nat)
    ensures n < 16
  {
    b / 16
  }

  function Low(b: byte): (n: nat)
    ensures n < 16
  {
    b % 16
  }

  /** One of the digits of hex.EncodeToString. */
  function HexAt(bytes: seq<byte>, at: nat): (c: char)
    requires at < 2 * |bytes|
    ensures IsHexDigit(c)
  {
    HexDigit(if at % 2 == 0 then High(bytes[at / 2]) else Low(bytes[at / 2]))
  }

  /** hex.EncodeToString */
  function Hex(bytes: seq<byte>): (s: string)
    ensures |s| == 2 * |bytes| && forall i :: 0 <= i < |s| ==> s[i] == HexAt(bytes, i)
  {
    seq(2 * |bytes|, i requires 0 <= i < 2 * |bytes| => HexAt(bytes, i))
  }

  /** The digits of a byte order as the byte does. */
  lemma ByDigits(a: byte, b: byte)
    ensures a == b <==> HexDigit(High(a)) == HexDigit(High(b)) && HexDigit(Low(a)) == HexDigit(Low(b))
    ensures (a < b <==>
               || HexDigit(High(a)) < HexDigit(High(b))
               || (HexDigit(High(a)) == HexDigit(High(b)) && HexDigit(Low(a)) < HexDigit(Low(b))))
  {
    hide HexDigit;
    HexDigitsAscend(High(a), High(b));
    HexDigitsAscend(Low(a), Low(b));
  }

  // ---------------------------------------------------------------- stamping

  /** `millis` without its last 5 - k bytes. */
  function Shifted(millis: nat, k: nat): nat
    requires k < 6
    decreases 6 - k
  {
    if k == 5 then millis else Shifted(millis, k + 1) / 256
  }

  function TimeByte(millis: nat, k: nat): byte
    requires k < 6
  {
    Shifted(millis, k) % 256
  }

  /** On a byte, `b & 0x0f | 0x70`. */
  function WithVersion(b: byte): byte { b % 0x10 + 0x70 }

  /** On a byte, `b & 0x3f | 0x80`. */
  function WithVariant(b: byte): byte { b % 0x40 + 0x80 }

  function StampedByte(random: seq<byte>, millis: nat, k: nat): byte
    requires k < |random|
  {
    if k < 6 then TimeByte(millis, k)
    else if k == 6 then WithVersion(random[6])
    else if k == 8 then WithVariant(random[8])
    else random[k]
  }

  /** Random bytes with time, version and variant written over them. */
  function Stamped(random: seq<byte>, millis: nat): (bytes: seq<byte>)
    requires |random| == BUFFER
    ensures |bytes| == BUFFER && forall k :: 0 <= k < BUFFER ==> bytes[k] == StampedByte(random, millis, k)
  {
    seq(BUFFER, k requires 0 <= k < BUFFER => StampedByte(random, millis, k))
  }

  lemma ShiftsByDivision(millis: nat)
    ensures Shifted(millis, 5) == millis && Shifted(millis, 4) == millis / 0x100
              && Shifted(millis, 3) == millis / 0x1_0000
    ensures Shifted(millis, 2) == millis / 0x100_0000 && Shifted(millis, 1) == millis / 0x1_0000_0000
    ensures Shifted(millis, 0) == millis / 0x100_0000_0000
  {
    assert Shifted(millis, 3) == Shifted(millis, 4) / 256;
    assert Shifted(millis, 2) == Shifted(millis, 3) / 256;
    assert Shifted(millis, 1) == Shifted(millis, 2) / 256;
  }

  lemma OneMoreByte(n: nat, unit: nat)
    requires unit in {0x100, 0x1_0000, 0x100_0000, 0x1_0000_0000, 0x100_0000_0000}
    ensures n % (unit * 0x100) == n / unit % 0x100 * unit + n % unit
  {
  }

  lemma TimeInBytes(millis: nat)
    ensures millis / 0x100_0000_0000 % 0x100 * 0x100_0000_0000 + millis / 0x1_0000_0000 % 0x100 * 0x1_0000_0000
            + millis / 0x100_0000 % 0x100 * 0x100_0000 + millis / 0x1_0000 % 0x100 * 0x1_0000
            + millis / 0x100 % 0x100 * 0x100 + millis % 0x100 == millis % 0x1_0000_0000_0000
  {
    OneMoreByte(millis, 0x100);
    OneMoreByte(millis, 0x1_0000);
    OneMoreByte(millis, 0x100_0000);
    OneMoreByte(millis, 0x1_0000_0000);
    OneMoreByte(millis, 0x100_0000_0000);
  }

  /** `millis >> 8 * n` drops n bytes, and conversion to a byte keeps the last. */
  method Stamp(buffer: array<byte>, millis: nat)
    requires buffer.Length == BUFFER
    modifies buffer
    ensures buffer[..] == Stamped(old(buffer[..]), millis)
    ensures buffer[0] as int * 0x100_0000_0000 + buffer[1] as int * 0x1_0000_0000 + buffer[2] as int * 0x100_0000
            + buffer[3] as int * 0x1_0000 + buffer[4] as int * 0x100 + buffer[5] == millis % 0x1_0000_0000_0000
    ensures buffer[6] / 0x10 == 7 && buffer[6] % 0x10 == old(buffer[6]) % 0x10
    ensures buffer[8] / 0x40 == 2 && buffer[8] % 0x40 == old(buffer[8]) % 0x40
    ensures forall k :: k == 7 || 9 <= k < 16 ==> buffer[k] == old(buffer[k])
  {
    ShiftsByDivision(millis);
    TimeInBytes(millis);
    hide Shifted;
    buffer[0] := millis / 0x100_0000_0000 % 0x100;
    buffer[1] := millis / 0x1_0000_0000 % 0x100;
    buffer[2] := millis / 0x100_0000 % 0x100;
    buffer[3] := millis / 0x1_0000 % 0x100;
    buffer[4] := millis / 0x100 % 0x100;
    buffer[5] := millis % 0x100;
    buffer[6] := buffer[6] % 0x10 + 0x70;
    buffer[8] := buffer[8] % 0x40 + 0x80;
  }

  // -------------------------------------------------------------------- text

  /** 32 hexadecimal digits in groups of 8-4-4-4-12. */
  function Grouped(encoded: string): (s: string)
    requires |encoded| == 2 * BUFFER
    ensures |s| == 36
  {
    encoded[0..8] + "-" + encoded[8..12] + "-" + encoded[12..16] + "-" + encoded[16..20] + "-" + encoded[20..32]
  }

  /** Where a digit stands among the groups. */
  function Column(digit: nat): nat {
    digit + (if digit < 8 then 0 else if digit < 12 then 1 else if digit < 16 then 2 else if digit < 20 then 3 else 4)
  }

  lemma GroupedAt(encoded: string, digit: nat)
    requires digit < |encoded| == 2 * BUFFER
    ensures Grouped(encoded)[Column(digit)] == encoded[digit]
  {
  }

  lemma DashAt(encoded: string, i: nat)
    requires |encoded| == 2 * BUFFER && i in {8, 13, 18, 23}
    ensures Grouped(encoded)[i] == '-'
  {
  }

  function IdText(random: seq<byte>, millis: nat): (s: string)
    requires |random| == BUFFER
    ensures |s| == 36
  {
    Grouped(Hex(Stamped(random, millis)))
  }

  /** A new identifier from whatever the random source answered. */
  method NewInstanceId(entropy: Option<seq<byte>>, millis: nat) returns (id: Option<string>)
    requires entropy.Some? ==> |entropy.value| == BUFFER
    ensures id == if entropy.None? then None else Some(IdText(entropy.value, millis))
  {
    if entropy.None? {
      return None;
    }
    var random := entropy.value;
    var buffer := new byte[BUFFER](i requires 0 <= i < BUFFER => random[i]);
    assert buffer[..] == random;
    Stamp(buffer, millis);
    var encoded := Hex(buffer[..]);
    return Some(Grouped(encoded));
  }

  /** The text of an identifier. */
  predicate IsInstanceId(s: string) {
    && |s| == 36
    && forall i :: 0 <= i < 36 ==>
         if i in {8, 13, 18, 23} then s[i] == '-' else IsHexDigit(s[i])
  }

  lemma InstanceIdIsTrimmed(s: string)
    requires IsInstanceId(s)
    ensures TrimSpace(s) == s
  {
    assert IsHexDigit(s[0]) && IsHexDigit(s[35]);
    TrimSpaceFixes(s);
  }

  // -------------------------------------------------------------- properties

  lemma VersionAndVariantBits(b: byte)
    ensures HexDigit(High(WithVersion(b))) == '7'
    ensures HexDigit(High(WithVariant(b))) in {'8', '9', 'a', 'b'}
  {
    assert High(WithVersion(b)) == 7;
    assert 8 <= High(WithVariant(b)) <= 11;
  }

  /** Whatever the random bytes, the text has the layout, version 7 and the variant
      of section 4.1 of RFC 9562. */
  lemma IdHasTheLayout(random: seq<byte>, millis: nat)
    requires |random| == BUFFER
    ensures IsInstanceId(IdText(random, millis))
    ensures IdText(random, millis)[14] == '7'
    ensures IdText(random, millis)[19] in {'8', '9', 'a', 'b'}
  {
    hide Grouped, HexDigit, High, Low, TimeByte, WithVersion, WithVariant;
    var bytes := Stamped(random, millis);
    var encoded := Hex(bytes);
    VersionAndVariantBits(random[6]);
    VersionAndVariantBits(random[8]);
    assert encoded[12] == HexDigit(High(bytes[6])) && encoded[16] == HexDigit(High(bytes[8]));
    GroupedAt(encoded, 12);
    GroupedAt(encoded, 16);
    forall i | 0 <= i < 36
      ensures if i in {8, 13, 18, 23} then Grouped(encoded)[i] == '-' else IsHexDigit(Grouped(encoded)[i])
    {
      if i !in {8, 13, 18, 23} {
        var dashes := if i < 8 then 0 else if i < 13 then 1 else if i < 18 then 2 else if i < 23 then 3 else 4;
        GroupedAt(encoded, i - dashes);
      } else {
        DashAt(encoded, i);
      }
    }
  }

  /** Bytes read as one big-endian number. */
  function Number(bytes: seq<byte>): nat {
    if bytes == [] then 0 else 256 * Number(bytes[..|bytes| - 1]) + bytes[|bytes| - 1]
  }

  lemma {:induction false} NumberOfTimeBytes(bytes: seq<byte>, millis: nat, n: nat)
    requires n < 6 && |bytes| > n && forall k :: 0 <= k < 6 && k < |bytes| ==> bytes[k] == TimeByte(millis, k)
    requires Shifted(millis, 0) < 256
    ensures Number(bytes[..n + 1]) == Shifted(millis, n)
  {
    assert bytes[..n + 1][..n] == bytes[..n];
    if n == 0 {
      assert Number(bytes[..0]) == 0;
    } else {
      NumberOfTimeBytes(bytes, millis, n - 1);
    }
  }

  /** The first 48 bits decode to the clock, up to the year 10889. */
  lemma TimeReadsBack(random: seq<byte>, millis: nat)
    requires |random| == BUFFER && millis < 0x1_0000_0000_0000
    ensures Number(Stamped(random, millis)[..6]) == millis
  {
    ShiftsByDivision(millis);
    NumberOfTimeBytes(Stamped(random, millis), millis, 5);
  }

  lemma {:induction false} ShiftsKeepOrder(m: nat, n: nat, k: nat)
    requires k < 6 && m <= n < 0x1_0000_0000_0000
    ensures Shifted(m, k) <= Shifted(n, k)
    decreases 6 - k
  {
    if k < 5 {
      ShiftsKeepOrder(m, n, k + 1);
    }
  }

  lemma LastByteDecides(m: nat, n: nat)
    requires m / 256 == n / 256 && m < n
    ensures m % 256 < n % 256
  {
  }

  lemma FirstShiftDifference(m: nat, n: nat) returns (k: nat)
    requires m != n
    ensures k < 6 && Shifted(m, k) != Shifted(n, k)
    ensures forall i :: 0 <= i < k ==> Shifted(m, i) == Shifted(n, i)
  {
    assert Shifted(m, 5) != Shifted(n, 5);
    hide Shifted;
    k := 0;
    while Shifted(m, k) == Shifted(n, k)
      invariant 0 <= k < 6
      invariant forall i :: 0 <= i < k ==> Shifted(m, i) == Shifted(n, i)
      decreases 6 - k
    {
      k := k + 1;
    }
  }

  lemma TopByte(millis: nat)
    requires millis < 0x1_0000_0000_0000
    ensures Shifted(millis, 0) < 256
  {
    ShiftsByDivision(millis);
  }

  lemma FirstTimeDifference(m: nat, n: nat) returns (k: nat)
    requires m < n < 0x1_0000_0000_0000
    ensures k < 6 && TimeByte(m, k) < TimeByte(n, k)
    ensures forall i :: 0 <= i < k ==> TimeByte(m, i) == TimeByte(n, i)
  {
    TopByte(m);
    TopByte(n);
    k := FirstShiftDifference(m, n);
    assert k > 0 ==> Shifted(m, k - 1) == Shifted(n, k - 1);
    ShiftsKeepOrder(m, n, k);
    assert Shifted(m, k) / 256 == Shifted(n, k) / 256;
    hide Shifted;
    LastByteDecides(Shifted(m, k), Shifted(n, k));
  }

  lemma TextsPartAt(h: string, h': string, digit: nat)
    requires |h| == |h'| == 2 * BUFFER && digit < 12
    requires h[..digit] == h'[..digit] && h[digit] < h'[digit]
    ensures Less(Grouped(h), Grouped(h'))
  {
    var s, s', at := Grouped(h), Grouped(h'), Column(digit);
    GroupedAt(h, digit);
    GroupedAt(h', digit);
    forall i | 0 <= i < at ensures s[i] == s'[i] {
      if i != 8 {
        var before := if i < 8 then i else i - 1;
        GroupedAt(h, before);
        GroupedAt(h', before);
        assert h[before] == h[..digit][before] == h'[..digit][before];
      }
    }
    assert s[..at] == s'[..at];
    LessAtFirstDifference(s, s', at);
  }

  /** An identifier made at an earlier millisecond sorts before one made later. */
  lemma EarlierIdsSortFirst(random: seq<byte>, millis: nat, random': seq<byte>, millis': nat)
    requires |random| == BUFFER && |random'| == BUFFER
    requires millis < millis' < 0x1_0000_0000_0000
    ensures Less(IdText(random, millis), IdText(random', millis'))
  {
    hide HexDigit, High, Low, TimeByte, WithVersion, WithVariant, Grouped;
    var b, b' := Stamped(random, millis), Stamped(random', millis');
    var k := FirstTimeDifference(millis, millis');
    assert b[k] == TimeByte(millis, k) && b'[k] == TimeByte(millis', k);
    ByDigits(b[k], b'[k]);
    var digit := if HexDigit(High(b[k])) != HexDigit(High(b'[k])) then 2 * k else 2 * k + 1;
    var h, h' := Hex(b), Hex(b');
    assert h[digit] == HexAt(b, digit) && h'[digit] == HexAt(b', digit);
    forall i | 0 <= i < digit ensures h[i] == h'[i] {
      if i / 2 < k {
        assert b[i / 2] == TimeByte(millis, i / 2) && b'[i / 2] == TimeByte(millis', i / 2);
      }
      assert h[i] == HexAt(b, i) && h'[i] == HexAt(b', i);
    }
    assert h[..digit] == h'[..digit];
    TextsPartAt(h, h', digit);
  }

  lemma TextDeterminesBytes(b: seq<byte>, b': seq<byte>)
    requires |b| == BUFFER && |b'| == BUFFER
    ensures Grouped(Hex(b)) == Grouped(Hex(b')) <==> b == b'
  {
    hide HexDigit, High, Low, Grouped;
    var h, h' := Hex(b), Hex(b');
    if Grouped(h) == Grouped(h') {
      forall k | 0 <= k < BUFFER ensures b[k] == b'[k] {
        forall d | 2 * k <= d < 2 * k + 2 ensures HexAt(b, d) == HexAt(b', d) {
          GroupedAt(h, d);
          GroupedAt(h', d);
        }
        assert HexAt(b, 2 * k) == HexAt(b', 2 * k) && HexAt(b, 2 * k + 1) == HexAt(b', 2 * k + 1);
        ByDigits(b[k], b'[k]);
      }
    }
  }

  lemma SameKeptBits(a: byte, b: byte)
    ensures WithVersion(a) == WithVersion(b) <==> a % 0x10 == b % 0x10
    ensures WithVariant(a) == WithVariant(b) <==> a % 0x40 == b % 0x40
  {
  }

  /** The bits of the random bytes that survive. */
  predicate SameRandomBits(random: seq<byte>, random': seq<byte>)
    requires |random| == BUFFER && |random'| == BUFFER
  {
    && random[6] % 0x10 == random'[6] % 0x10
    && random[7] == random'[7]
    && random[8] % 0x40 == random'[8] % 0x40
    && random[9..] == random'[9..]
  }

  lemma KeptBitsReadBack(random: seq<byte>, random': seq<byte>, millis: nat)
    requires |random| == BUFFER && |random'| == BUFFER
    ensures Stamped(random, millis) == Stamped(random', millis) <==> SameRandomBits(random, random')
  {
    hide TimeByte, WithVersion, WithVariant;
    SameKeptBits(random[6], random'[6]);
    SameKeptBits(random[8], random'[8]);
    var b, b' := Stamped(random, millis), Stamped(random', millis);
    assert forall k :: 9 <= k < BUFFER ==> random[k] == random[9..][k - 9] && random'[k] == random'[9..][k - 9];
    if b == b' {
      forall k | 6 <= k < BUFFER ensures StampedByte(random, millis, k) == StampedByte(random', millis, k) {
        assert b[k] == b'[k];
      }
      assert StampedByte(random, millis, 6) == StampedByte(random', millis, 6);
      assert StampedByte(random, millis, 7) == StampedByte(random', millis, 7);
      assert StampedByte(random, millis, 8) == StampedByte(random', millis, 8);
      assert forall k :: 9 <= k < BUFFER ==> StampedByte(random, millis, k) == random[k];
    }
  }

  /** Two identifiers clash exactly when they were made in the same millisecond and
      agree on the 74 random bits that are kept. */
  lemma IdsClashExactlyWhen(random: seq<byte>, millis: nat, random': seq<byte>, millis': nat)
    requires |random| == BUFFER && |random'| == BUFFER
    requires millis < 0x1_0000_0000_0000 && millis' < 0x1_0000_0000_0000
    ensures IdText(random, millis) == IdText(random', millis') <==> millis == millis' && SameRandomBits(random, random')
  {
    TextDeterminesBytes(Stamped(random, millis), Stamped(random', millis'));
    TimeReadsBack(random, millis);
    TimeReadsBack(random', millis');
    hide Grouped, Hex, Stamped, Number;
    KeptBitsReadBack(random, random', millis);
  }

  // ---------------------------------------------------------------- read back

  function DigitValue(c: char): nat {
    if '0' <= c <= '9' then c as nat - '0' as nat else if 'a' <= c <= 'f' then c as nat - 'a' as nat + 10 else 0
  }

  function WithoutDashes(s: string): string {
    if s == "" then ""
    else WithoutDashes(s[..|s| - 1]) + (if s[|s| - 1] == '-' then "" else [s[|s| - 1]])
  }

  /** The bytes that pairs of hexadecimal digits stand for. */
  function Bytes(digits: string): (bytes: seq<int>)
    ensures |bytes| == |digits| / 2
    ensures forall k :: 0 <= k < |bytes| ==> bytes[k] == PairValue(digits, k)
  {
    seq(|digits| / 2, k requires 0 <= k < |digits| / 2 => PairValue(digits, k))
  }

  function PairValue(digits: string, k: nat): nat
    requires 2 * k + 1 < |digits|
  {
    16 * DigitValue(digits[2 * k]) + DigitValue(digits[2 * k + 1])
  }

  lemma {:induction false} WithoutDashesConcat(a: string, b: string)
    ensures WithoutDashes(a + b) == WithoutDashes(a) + WithoutDashes(b)
  {
    if b == "" {
      assert a + b == a;
    } else {
      assert (a + b)[..|a + b| - 1] == a + b[..|b| - 1];
      WithoutDashesConcat(a, b[..|b| - 1]);
    }
  }

  lemma {:induction false} NoDashesToDrop(s: string)
    requires forall c :: c in s ==> IsHexDigit(c)
    ensures WithoutDashes(s) == s
  {
    if s != "" {
      var init, last := s[..|s| - 1], s[|s| - 1];
      assert s == init + [last] && last in s;
      NoDashesToDrop(init);
    }
  }

  lemma DashIsDropped(before: string, digits: string)
    requires forall c :: c in digits ==> IsHexDigit(c)
    ensures WithoutDashes(before + "-" + digits) == WithoutDashes(before) + digits
  {
    assert WithoutDashes("-") == "" by { assert "-"[..0] == ""; }
    NoDashesToDrop(digits);
    hide WithoutDashes;
    WithoutDashesConcat(before, "-");
    WithoutDashesConcat(before + "-", digits);
  }

  lemma UngroupedIs(encoded: string)
    requires |encoded| == 2 * BUFFER && forall c :: c in encoded ==> IsHexDigit(c)
    ensures WithoutDashes(Grouped(encoded)) == encoded
  {
    hide WithoutDashes, IsHexDigit;
    var a := encoded[0..8];
    NoDashesToDrop(a);
    DashIsDropped(a, encoded[8..12]);
    var b := a + "-" + encoded[8..12];
    DashIsDropped(b, encoded[12..16]);
    var c := b + "-" + encoded[12..16];
    DashIsDropped(c, encoded[16..20]);
    DashIsDropped(c + "-" + encoded[16..20], encoded[20..32]);
    assert encoded == a + encoded[8..12] + encoded[12..16] + encoded[16..20] + encoded[20..32];
  }

  lemma HexReadsBack(bytes: seq<byte>)
    ensures Bytes(Hex(bytes)) == bytes
  {
    hide HexDigit, DigitValue;
    forall k | 0 <= k < |bytes|
      ensures PairValue(Hex(bytes), k) == bytes[k]
    {
      assert Hex(bytes)[2 * k] == HexAt(bytes, 2 * k) && Hex(bytes)[2 * k + 1] == HexAt(bytes, 2 * k + 1);
      DigitReadsBack(High(bytes[k]));
      DigitReadsBack(Low(bytes[k]));
    }
    hide PairValue, Hex;
  }

  lemma DigitReadsBack(n: nat)
    requires n < 16
    ensures DigitValue(HexDigit(n)) == n
  {
  }

  /** The time modulo 2^48, big-endian, then the version before the low half of the seventh
      random byte, the variant before the low six bits of the ninth, and the other random
      bytes. */
  predicate Carries(b: seq<int>, random: seq<byte>, millis: nat)
    requires |random| == BUFFER
  {
    && |b| == 16
    && b[0] * 0x100_0000_0000 + b[1] * 0x1_0000_0000 + b[2] * 0x100_0000 + b[3] * 0x1_0000 + b[4] * 0x100 + b[5]
    == millis % 0x1_0000_0000_0000
    && b[6] == 0x70 + random[6] % 0x10 && b[7] == random[7] && b[8] == 0x80 + random[8] % 0x40
    && forall k :: 9 <= k < 16 ==> b[k] == random[k]
  }

  lemma StampCarries(random: seq<byte>, millis: nat)
    requires |random| == BUFFER
    ensures Carries(Stamped(random, millis), random, millis)
  {
    ShiftsByDivision(millis);
    TimeInBytes(millis);
    hide Shifted;
    assert forall k :: 0 <= k < 16 ==> Stamped(random, millis)[k] == StampedByte(random, millis, k);
  }

  /** The text of an identifier, its dashes left out, decodes to 16 bytes that carry time,
      version, variant and randomness. */
  lemma IdReadsBack(random: seq<byte>, millis: nat)
    requires |random| == BUFFER
    ensures Carries(Bytes(WithoutDashes(IdText(random, millis))), random, millis)
  {
    hide Carries, Hex, Grouped, WithoutDashes, Bytes;
    var stamped := Stamped(random, millis);
    HexReadsBack(stamped);
    assert forall c :: c in Hex(stamped) ==> IsHexDigit(c);
    UngroupedIs(Hex(stamped));
    StampCarries(random, millis);
  }
}
