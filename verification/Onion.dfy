/**
  The onion v3 address codec of internal/shared/onion.go: 32 key bytes, two
  checksum bytes and the version byte 3, written in lower-case base32 (section
  6 of RFC 4648) before ".onion" (section 6 "ONIONADDRESS" of Tor rend-spec-v3).

  SHA3-256 is a parameter: any function from byte strings to 32 bytes.
 */
module Onion {
  import opened Text

  type Hash = seq<int> -> seq<int>

  ghost predicate AreBytes(s: seq<int>) { forall i | 0 <= i < |s| :: 0 <= s[i] < 256 }
  ghost predicate AreDigits(s: seq<int>) { forall i | 0 <= i < |s| :: 0 <= s[i] < 32 }
  ghost predicate IsHash(sha: Hash) { forall s :: |sha(s)| == 32 && AreBytes(sha(s)) }
  ghost predicate IsKey(key: seq<int>) { |key| == 32 && AreBytes(key) }

  // ------------------------------------------------------------------
  // Base32, five bytes to eight digits and back, as shifts and masks.

  function EncodeGroup(b: seq<int>): seq<int>
    requires |b| == 5
  {
    [ b[0] / 8,
      b[0] % 8 * 4 + b[1] / 64,
      b[1] / 2 % 32,
      b[1] % 2 * 16 + b[2] / 16,
      b[2] % 16 * 2 + b[3] / 128,
      b[3] / 4 % 32,
      b[3] % 4 * 8 + b[4] / 32,
      b[4] % 32 ]
  }

  function DecodeGroup(d: seq<int>): seq<int>
    requires |d| == 8
  {
    [ d[0] * 8 + d[1] / 4,
      d[1] % 4 * 64 + d[2] * 2 + d[3] / 16,
      d[3] % 16 * 16 + d[4] / 2,
      d[4] % 2 * 128 + d[5] * 4 + d[6] / 8,
      d[6] % 8 * 32 + d[7] ]
  }

  function Value(s: seq<int>, base: int): int {
    if s == [] then 0 else Value(s[..|s| - 1], base) * base + s[|s| - 1]
  }

  lemma {:induction false} Value5(s: seq<int>)
    requires |s| == 5
    ensures Value(s, 256) == (((s[0] * 256 + s[1]) * 256 + s[2]) * 256 + s[3]) * 256 + s[4]
  {
    assert s[..4][..3] == s[..3] && s[..3][..2] == s[..2] && s[..2][..1] == s[..1] && s[..1][..0] == [];
    assert Value(s[..1], 256) == s[0];
    assert Value(s[..2], 256) == s[0] * 256 + s[1];
    assert Value(s[..3], 256) == (s[0] * 256 + s[1]) * 256 + s[2];
  }

  lemma {:induction false} Value8(s: seq<int>)
    requires |s| == 8
    ensures Value(s, 32) ==
              ((((((s[0] * 32 + s[1]) * 32 + s[2]) * 32 + s[3]) * 32 + s[4]) * 32 + s[5]) * 32 + s[6]) * 32 + s[7]
  {
    assert s[..7][..6] == s[..6] && s[..6][..5] == s[..5] && s[..5][..4] == s[..4];
    assert s[..4][..3] == s[..3] && s[..3][..2] == s[..2] && s[..2][..1] == s[..1] && s[..1][..0] == [];
    assert Value(s[..1], 32) == s[0];
    assert Value(s[..2], 32) == s[0] * 32 + s[1];
    assert Value(s[..3], 32) == (s[0] * 32 + s[1]) * 32 + s[2];
    assert Value(s[..4], 32) == ((s[0] * 32 + s[1]) * 32 + s[2]) * 32 + s[3];
    assert Value(s[..5], 32) == (((s[0] * 32 + s[1]) * 32 + s[2]) * 32 + s[3]) * 32 + s[4];
    assert Value(s[..6], 32) == ((((s[0] * 32 + s[1]) * 32 + s[2]) * 32 + s[3]) * 32 + s[4]) * 32 + s[5];
  }

  /** q bits above, r bits below: the shift and the mask take them apart again. */
  lemma ShiftMask2(q: int, r: int) requires 0 <= r < 2 ensures (q * 2 + r) / 2 == q && (q * 2 + r) % 2 == r {}
  lemma ShiftMask4(q: int, r: int) requires 0 <= r < 4 ensures (q * 4 + r) / 4 == q && (q * 4 + r) % 4 == r {}
  lemma ShiftMask8(q: int, r: int) requires 0 <= r < 8 ensures (q * 8 + r) / 8 == q && (q * 8 + r) % 8 == r {}
  lemma ShiftMask16(q: int, r: int) requires 0 <= r < 16 ensures (q * 16 + r) / 16 == q && (q * 16 + r) % 16 == r {}
  lemma ShiftMask32(q: int, r: int) requires 0 <= r < 32 ensures (q * 32 + r) / 32 == q && (q * 32 + r) % 32 == r {}

  lemma Parts2(b: int) requires 0 <= b < 256 ensures b == b / 64 * 64 + b / 2 % 32 * 2 + b % 2 && 0 <= b / 64 < 4 {}
  lemma Parts4(b: int) requires 0 <= b < 256 ensures b == b / 128 * 128 + b / 4 % 32 * 4 + b % 4 && 0 <= b / 128 < 2 {}
  lemma Parts8(b: int) requires 0 <= b < 256 ensures b == b / 8 * 8 + b % 8 && 0 <= b / 8 < 32 {}
  lemma Parts16(b: int) requires 0 <= b < 256 ensures b == b / 16 * 16 + b % 16 && 0 <= b / 16 < 16 {}
  lemma Parts32(b: int) requires 0 <= b < 256 ensures b == b / 32 * 32 + b % 32 && 0 <= b / 32 < 8 {}

  /** A group of eight digits is the same 40-bit number as its five bytes. */
  lemma {:induction false} GroupIsOneNumber(b: seq<int>)
    requires |b| == 5 && AreBytes(b)
    ensures AreDigits(EncodeGroup(b))
    ensures Value(EncodeGroup(b), 32) == Value(b, 256)
  {
    Value5(b);
    Value8(EncodeGroup(b));
    Parts8(b[0]);
    Parts2(b[1]);
    Parts16(b[2]);
    Parts4(b[3]);
    Parts32(b[4]);
  }

  lemma {:induction false} GroupRoundTrip(b: seq<int>)
    requires |b| == 5 && AreBytes(b)
    ensures AreDigits(EncodeGroup(b)) && DecodeGroup(EncodeGroup(b)) == b
  {
    GroupIsOneNumber(b);
    var r := DecodeGroup(EncodeGroup(b));
    assert r[0] == b[0] && r[1] == b[1] by { JoinSecond(b[0], b[1], b[2]); }
    assert r[2] == b[2] by { JoinSecond(b[0], b[1], b[2]); JoinFourth(b[2], b[3], b[4]); }
    assert r[3] == b[3] && r[4] == b[4] by { JoinFourth(b[2], b[3], b[4]); Parts32(b[4]); }
  }

  /** The digits that meet in the first three bytes put those bytes together again. */
  lemma {:induction false} JoinSecond(b0: int, b1: int, b2: int)
    requires 0 <= b0 < 256 && 0 <= b1 < 256 && 0 <= b2 < 256
    ensures var d1, d3 := b0 % 8 * 4 + b1 / 64, b1 % 2 * 16 + b2 / 16;
            && 0 <= d1 < 32 && 0 <= d3 < 32 && 0 <= b0 / 8 < 32
            && b0 / 8 * 8 + d1 / 4 == b0
            && d1 % 4 * 64 + b1 / 2 % 32 * 2 + d3 / 16 == b1
            && d3 % 16 == b2 / 16
  {
    Parts8(b0);
    Parts2(b1);
    Parts16(b2);
    ShiftMask4(b0 % 8, b1 / 64);
    ShiftMask16(b1 % 2, b2 / 16);
  }

  lemma {:induction false} JoinFourth(b2: int, b3: int, b4: int)
    requires 0 <= b2 < 256 && 0 <= b3 < 256 && 0 <= b4 < 256
    ensures var d4, d6 := b2 % 16 * 2 + b3 / 128, b3 % 4 * 8 + b4 / 32;
            && 0 <= d4 < 32 && 0 <= d6 < 32
            && b2 / 16 * 16 + d4 / 2 == b2
            && d4 % 2 * 128 + b3 / 4 % 32 * 4 + d6 / 8 == b3
            && d6 % 8 == b4 / 32
  {
    Parts16(b2);
    Parts4(b3);
    Parts32(b4);
    ShiftMask2(b2 % 16, b3 / 128);
    ShiftMask8(b3 % 4, b4 / 32);
  }

  /** The bytes that DecodeGroup makes of the digits, taken apart again. */
  lemma {:induction false} SplitSecond(d1: int, d2: int, d3: int)
    requires 0 <= d1 < 32 && 0 <= d2 < 32 && 0 <= d3 < 32
    ensures var b := d1 % 4 * 64 + d2 * 2 + d3 / 16;
            0 <= b < 256 && b / 64 == d1 % 4 && b / 2 % 32 == d2 && b % 2 == d3 / 16
  {
    ShiftMask2(d1 % 4 * 32 + d2, d3 / 16);
    ShiftMask32(d1 % 4, d2);
  }

  lemma {:induction false} SplitFourth(d4: int, d5: int, d6: int)
    requires 0 <= d4 < 32 && 0 <= d5 < 32 && 0 <= d6 < 32
    ensures var b := d4 % 2 * 128 + d5 * 4 + d6 / 8;
            0 <= b < 256 && b / 128 == d4 % 2 && b / 4 % 32 == d5 && b % 4 == d6 / 8
  {
    ShiftMask4(d4 % 2 * 32 + d5, d6 / 8);
    ShiftMask32(d4 % 2, d5);
  }

  lemma {:induction false} FirstHalfBack(d: seq<int>)
    requires |d| == 8 && AreDigits(d)
    ensures var e := EncodeGroup(DecodeGroup(d));
            e[0] == d[0] && e[1] == d[1] && e[2] == d[2] && e[3] == d[3]
  {
    ShiftMask8(d[0], d[1] / 4);
    SplitSecond(d[1], d[2], d[3]);
    ShiftMask16(d[3] % 16, d[4] / 2);
  }

  lemma {:induction false} SecondHalfBack(d: seq<int>)
    requires |d| == 8 && AreDigits(d)
    ensures var e := EncodeGroup(DecodeGroup(d));
            e[4] == d[4] && e[5] == d[5] && e[6] == d[6] && e[7] == d[7]
  {
    ShiftMask16(d[3] % 16, d[4] / 2);
    SplitFourth(d[4], d[5], d[6]);
    ShiftMask32(d[6] % 8, d[7]);
  }

  lemma {:induction false} DecodesToBytes(d: seq<int>)
    requires |d| == 8 && AreDigits(d)
    ensures AreBytes(DecodeGroup(d))
  {
    SplitSecond(d[1], d[2], d[3]);
    SplitFourth(d[4], d[5], d[6]);
  }

  lemma {:induction false} GroupRoundTripBack(d: seq<int>)
    requires |d| == 8 && AreDigits(d)
    ensures AreBytes(DecodeGroup(d)) && EncodeGroup(DecodeGroup(d)) == d
  {
    DecodesToBytes(d);
    FirstHalfBack(d);
    SecondHalfBack(d);
  }

  function Encode(bytes: seq<int>): (r: seq<int>)
    requires |bytes| % 5 == 0
    ensures |r| * 5 == |bytes| * 8 && |r| % 8 == 0
  {
    if bytes == [] then [] else EncodeGroup(bytes[..5]) + Encode(bytes[5..])
  }

  function Decode(digits: seq<int>): (r: seq<int>)
    requires |digits| % 8 == 0
    ensures |r| * 8 == |digits| * 5 && |r| % 5 == 0
  {
    if digits == [] then [] else DecodeGroup(digits[..8]) + Decode(digits[8..])
  }

  lemma {:induction false} DecodeEncode(bytes: seq<int>)
    requires |bytes| % 5 == 0 && AreBytes(bytes)
    ensures AreDigits(Encode(bytes)) && Decode(Encode(bytes)) == bytes
    decreases |bytes|
  {
    if bytes != [] {
      GroupRoundTrip(bytes[..5]);
      DecodeEncode(bytes[5..]);
      assert Encode(bytes)[..8] == EncodeGroup(bytes[..5]);
      assert Encode(bytes)[8..] == Encode(bytes[5..]);
    }
  }

  lemma {:induction false} EncodeDecode(digits: seq<int>)
    requires |digits| % 8 == 0 && AreDigits(digits)
    ensures AreBytes(Decode(digits)) && Encode(Decode(digits)) == digits
    decreases |digits|
  {
    if digits != [] {
      GroupRoundTripBack(digits[..8]);
      EncodeDecode(digits[8..]);
      assert Decode(digits)[..5] == DecodeGroup(digits[..8]);
      assert Decode(digits)[5..] == Decode(digits[8..]);
    }
  }

  // ------------------------------------------------------------------
  // Characters.

  /** The RFC 4648 alphabet A-Z2-7. */
  function DigitChar(d: int): char
    requires 0 <= d < 32
  {
    if d < 26 then 'A' + d as char else '2' + (d - 26) as char
  }

  predicate IsStdChar(c: char) { 'A' <= c <= 'Z' || '2' <= c <= '7' }

  function CharDigit(c: char): (d: int)
    requires IsStdChar(c)
    ensures 0 <= d < 32 && DigitChar(d) == c
  {
    if 'A' <= c <= 'Z' then (c - 'A') as int else (c - '2') as int + 26
  }

  predicate IsAddressChar(c: char) { 'a' <= c <= 'z' || '2' <= c <= '7' }

  ghost predicate AreAddressChars(s: string) { forall i | 0 <= i < |s| :: IsAddressChar(s[i]) }

  function ToChars(digits: seq<int>): (s: string)
    requires forall i | 0 <= i < |digits| :: 0 <= digits[i] < 32
    ensures |s| == |digits|
  {
    seq(|digits|, i requires 0 <= i < |digits| => DigitChar(digits[i]))
  }

  function ToDigits(s: string): (r: seq<int>)
    requires forall i | 0 <= i < |s| :: IsStdChar(s[i])
    ensures |r| == |s| && AreDigits(r)
  {
    seq(|s|, i requires 0 <= i < |s| => CharDigit(s[i]))
  }

  /** Printing digits in lower case and reading them back through upper case is the identity. */
  lemma {:induction false} CharsRoundTrip(digits: seq<int>)
    requires AreDigits(digits)
    ensures var s := LowerAll(ToChars(digits));
            && AreAddressChars(s) && LowerAll(s) == s
            && (forall i | 0 <= i < |s| :: IsStdChar(UpperAll(s)[i]))
            && ToDigits(UpperAll(s)) == digits
  {
    var s := LowerAll(ToChars(digits));
    var u := UpperAll(s);
    forall i | 0 <= i < |digits|
      ensures IsAddressChar(s[i]) && Lower(s[i]) == s[i] && u[i] == DigitChar(digits[i]) && IsStdChar(u[i])
    {}
  }

  lemma {:induction false} CharsRoundTripBack(s: string)
    requires AreAddressChars(s)
    ensures (forall i | 0 <= i < |s| :: IsStdChar(UpperAll(s)[i]))
            && LowerAll(ToChars(ToDigits(UpperAll(s)))) == s
  {
    var u := UpperAll(s);
    forall i | 0 <= i < |s|
      ensures IsStdChar(u[i]) && Lower(u[i]) == s[i]
    {}
  }

  // ------------------------------------------------------------------
  // Base32 text.

  /** The lower-case text of whole groups of bytes. */
  function TextOf(bytes: seq<int>): (r: string)
    requires |bytes| % 5 == 0 && AreBytes(bytes)
    ensures |r| * 5 == |bytes| * 8 && |r| % 8 == 0 && AreAddressChars(r)
  {
    DecodeEncode(bytes);
    CharsRoundTrip(Encode(bytes));
    LowerAll(ToChars(Encode(bytes)))
  }

  function BytesOf(s: string): (r: seq<int>)
    requires |s| % 8 == 0 && AreAddressChars(s)
    ensures |r| * 8 == |s| * 5 && |r| % 5 == 0 && AreBytes(r)
  {
    CharsRoundTripBack(s);
    EncodeDecode(ToDigits(UpperAll(s)));
    Decode(ToDigits(UpperAll(s)))
  }

  lemma {:induction false} BytesOfText(bytes: seq<int>)
    requires |bytes| % 5 == 0 && AreBytes(bytes)
    ensures BytesOf(TextOf(bytes)) == bytes
  {
    DecodeEncode(bytes);
    CharsRoundTrip(Encode(bytes));
  }

  lemma {:induction false} TextOfBytes(s: string)
    requires |s| % 8 == 0 && AreAddressChars(s)
    ensures TextOf(BytesOf(s)) == s
  {
    CharsRoundTripBack(s);
    EncodeDecode(ToDigits(UpperAll(s)));
  }

  /** A way of writing 35 bytes as 56 characters and of reading them. */
  datatype Codec = Codec(text: seq<int> -> string, bytes: string -> seq<int>)

  ghost predicate Inverts(c: Codec) {
    && (forall b | |b| == 35 && AreBytes(b) ::
          |c.text(b)| == 56 && AreAddressChars(c.text(b)) && c.bytes(c.text(b)) == b)
    && (forall s | |s| == 56 && AreAddressChars(s) ::
          |c.bytes(s)| == 35 && AreBytes(c.bytes(s)) && c.text(c.bytes(s)) == s)
  }

  ghost function Base32(): Codec {
    Codec(b => if |b| % 5 == 0 && AreBytes(b) then TextOf(b) else "",
          s => if |s| % 8 == 0 && AreAddressChars(s) then BytesOf(s) else [])
  }

  lemma {:induction false} Base32Inverts()
    ensures Inverts(Base32())
  {
    forall b: seq<int> | |b| == 35 && AreBytes(b)
      ensures |Base32().text(b)| == 56 && AreAddressChars(Base32().text(b)) && Base32().bytes(Base32().text(b)) == b
    {
      BytesOfText(b);
    }
    forall s: string | |s| == 56 && AreAddressChars(s)
      ensures |Base32().bytes(s)| == 35 && AreBytes(Base32().bytes(s)) && Base32().text(Base32().bytes(s)) == s
    {
      TextOfBytes(s);
    }
  }

  // ------------------------------------------------------------------
  // The address, in any such writing.

  const SUFFIX: string := ".onion"
  const VERSION: int := 3

  function AsciiBytes(s: string): seq<int> { seq(|s|, i requires 0 <= i < |s| => s[i] as int) }

  function Checksum(key: seq<int>, sha: Hash): seq<int> {
    sha(AsciiBytes(".onion checksum") + key + [VERSION])
  }

  function Payload(key: seq<int>, sha: Hash): seq<int>
    requires |Checksum(key, sha)| >= 2
  {
    key + [Checksum(key, sha)[0], Checksum(key, sha)[1], VERSION]
  }

  predicate HasSuffix(s: string) { |s| >= |SUFFIX| && s[|s| - |SUFFIX|..] == SUFFIX }

  function Prefix(addr: string): string
    requires HasSuffix(addr)
  {
    addr[..|addr| - |SUFFIX|]
  }

  /** The address is 56 base32 characters and the suffix. */
  ghost predicate WellFormed(addr: string) {
    HasSuffix(addr) && |Prefix(addr)| == 56 && AreAddressChars(Prefix(addr))
  }

  ghost function AddressIn(c: Codec, key: seq<int>, sha: Hash): string
    requires IsKey(key) && IsHash(sha)
  {
    c.text(Payload(key, sha)) + SUFFIX
  }

  /** The checksum and version bytes of a decoded address are the right ones for its key. */
  ghost predicate Consistent(d: seq<int>, sha: Hash)
    requires IsHash(sha)
  {
    |d| == 35 && d[34] == VERSION && d[32] == Checksum(d[..32], sha)[0] && d[33] == Checksum(d[..32], sha)[1]
  }

  lemma {:induction false} PayloadIsConsistent(key: seq<int>, sha: Hash)
    requires IsKey(key) && IsHash(sha)
    ensures var p := Payload(key, sha);
            |p| == 35 && AreBytes(p) && p[..32] == key && Consistent(p, sha)
  {
    assert AreBytes(Checksum(key, sha));
    assert Payload(key, sha)[..32] == key;
  }

  lemma {:induction false} ConsistentIsPayload(d: seq<int>, sha: Hash)
    requires AreBytes(d) && IsHash(sha) && Consistent(d, sha)
    ensures IsKey(d[..32]) && Payload(d[..32], sha) == d
  {}

  /** A built address is well formed and carries its payload. */
  lemma {:induction false} AddressCarries(c: Codec, key: seq<int>, sha: Hash)
    requires Inverts(c) && IsKey(key) && IsHash(sha)
    ensures WellFormed(AddressIn(c, key, sha)) && c.bytes(Prefix(AddressIn(c, key, sha))) == Payload(key, sha)
  {
    PayloadIsConsistent(key, sha);
    var addr := AddressIn(c, key, sha);
    assert Prefix(addr) == c.text(Payload(key, sha));
    assert addr[|addr| - |SUFFIX|..] == SUFFIX;
  }

  /** A well-formed, consistent text is the address of the key it carries. */
  lemma {:induction false} CarriedIsAddress(c: Codec, addr: string, sha: Hash)
    requires Inverts(c) && IsHash(sha) && WellFormed(addr)
    requires Consistent(c.bytes(Prefix(addr)), sha)
    ensures var key := c.bytes(Prefix(addr))[..32]; IsKey(key) && addr == AddressIn(c, key, sha)
  {
    ConsistentIsPayload(c.bytes(Prefix(addr)), sha);
    assert addr == Prefix(addr) + SUFFIX;
  }

  // ------------------------------------------------------------------
  // The address in base32.

  /** The text of the address of key. */
  ghost function Address(key: seq<int>, sha: Hash): string
    requires IsKey(key) && IsHash(sha)
  {
    AddressIn(Base32(), key, sha)
  }

  /** What a well-formed address carries. */
  ghost function DecodedOf(addr: string): (r: seq<int>)
    ensures WellFormed(addr) ==> |r| == 35 && AreBytes(r)
  {
    Base32Inverts();
    if WellFormed(addr) then Base32().bytes(Prefix(addr)) else []
  }

  lemma {:induction false} AddressIsWellFormed(key: seq<int>, sha: Hash)
    requires IsKey(key) && IsHash(sha)
    ensures WellFormed(Address(key, sha)) && DecodedOf(Address(key, sha)) == Payload(key, sha)
  {
    Base32Inverts();
    AddressCarries(Base32(), key, sha);
  }

  lemma {:induction false} ConsistentIsAddress(addr: string, sha: Hash)
    requires IsHash(sha)
    ensures WellFormed(addr) && Consistent(DecodedOf(addr), sha) ==>
              IsKey(DecodedOf(addr)[..32]) && addr == Address(DecodedOf(addr)[..32], sha)
  {
    Base32Inverts();
    if WellFormed(addr) && Consistent(DecodedOf(addr), sha) {
      CarriedIsAddress(Base32(), addr, sha);
    }
  }

  /** Two keys never share an address. */
  lemma {:induction false} AddressInjective(k1: seq<int>, k2: seq<int>, sha: Hash)
    requires IsKey(k1) && IsKey(k2) && IsHash(sha)
    ensures Address(k1, sha) == Address(k2, sha) ==> k1 == k2
  {
    AddressIsWellFormed(k1, sha);
    AddressIsWellFormed(k2, sha);
    PayloadIsConsistent(k1, sha);
    PayloadIsConsistent(k2, sha);
  }

  lemma {:induction false} ConsistentIffAddress(addr: string, sha: Hash)
    requires IsHash(sha)
    ensures WellFormed(addr) && Consistent(DecodedOf(addr), sha) <==>
              exists key | IsKey(key) :: addr == Address(key, sha)
  {
    if WellFormed(addr) && Consistent(DecodedOf(addr), sha) {
      ConsistentIsAddress(addr, sha);
    }
    forall key | IsKey(key) && addr == Address(key, sha)
      ensures WellFormed(addr) && Consistent(DecodedOf(addr), sha)
    {
      AddressIsWellFormed(key, sha);
      PayloadIsConsistent(key, sha);
    }
  }

  // ------------------------------------------------------------------
  // The format, byte by byte.

  /** The digits are written a to z and then 2 to 7. */
  lemma {:induction false} DigitsAreWritten(bytes: seq<int>, i: nat)
    requires |bytes| % 5 == 0 && AreBytes(bytes) && i < |TextOf(bytes)|
    ensures |Encode(bytes)| == |TextOf(bytes)| && 0 <= Encode(bytes)[i] < 32
    ensures TextOf(bytes)[i] as int == if Encode(bytes)[i] < 26 then 97 + Encode(bytes)[i] else 24 + Encode(bytes)[i]
  {
    DecodeEncode(bytes);
  }

  /** What follows the key: two bytes of the hash of ".onion checksum", the key and the version, and the version, 3. */
  ghost predicate Trailer(d: seq<int>, key: seq<int>, sha: Hash) {
    var sum := sha(Codes(".onion checksum") + key + [3]);
    |sum| >= 2 && d == key + [sum[0], sum[1], 3]
  }

  ghost function Codes(s: string): (r: seq<int>)
    ensures |r| == |s| && forall i | 0 <= i < |s| :: r[i] == s[i] as int
  {
    if s == "" then [] else Codes(s[..|s| - 1]) + [s[|s| - 1] as int]
  }

  lemma {:induction false} PayloadTrails(key: seq<int>, sha: Hash)
    requires IsHash(sha)
    ensures Trailer(Payload(key, sha), key, sha)
  {
    var name := ".onion checksum";
    assert AsciiBytes(name) == Codes(name);
  }

  /** An address is 56 characters for those 35 bytes, and ".onion". */
  lemma {:induction false} AddressSays(key: seq<int>, sha: Hash)
    requires IsKey(key) && IsHash(sha)
    ensures var addr := Address(key, sha);
            |addr| == 62 && addr[56..] == ".onion" && Trailer(DecodedOf(addr), key, sha)
  {
    AddressIsWellFormed(key, sha);
    PayloadTrails(key, sha);
  }

  // ------------------------------------------------------------------
  // The program.

  datatype BuildResult = BadKeyLength | Built(addr: string)

  method BuildOnionV3(pubkey: seq<int>, sha: Hash) returns (r: BuildResult)
    requires IsHash(sha) && AreBytes(pubkey)
    ensures r == if |pubkey| == 32 then Built(Address(pubkey, sha)) else BadKeyLength
    ensures r.Built? ==> |r.addr| == 62 && r.addr[56..] == ".onion" && Trailer(DecodedOf(r.addr), pubkey, sha)
  {
    if |pubkey| != 32 {
      return BadKeyLength;
    }
    var sum := Checksum(pubkey, sha);
    var payload := pubkey;
    payload := payload + [sum[0], sum[1], VERSION];
    PayloadIsConsistent(pubkey, sha);
    AddressSays(pubkey, sha);
    return Built(TextOf(payload) + SUFFIX);
  }

  datatype Verdict =
    | Valid | Empty | BadSuffix | BadLength | NotLowercase | BadBase32 | V2Deprecated | BadVersion | BadChecksum

  /** The accepted texts are exactly the addresses of 32-byte keys; each rejection has its own cause. */
  method ValidateOnionV3(addr: string, sha: Hash) returns (v: Verdict)
    requires IsHash(sha)
    ensures v.Valid? <==> exists key | IsKey(key) :: addr == Address(key, sha)
    ensures v.Empty? <==> addr == ""
    ensures v.BadSuffix? <==> addr != "" && !HasSuffix(addr)
    ensures v.BadSuffix? <==> addr != "" && (|addr| < 6 || addr[|addr| - 6..] != ".onion")
    ensures v.V2Deprecated? <==> HasSuffix(addr) && |Prefix(addr)| in {16, 22}
    ensures v.BadLength? <==> HasSuffix(addr) && |Prefix(addr)| !in {16, 22, 56}
    ensures v.NotLowercase? <==> HasSuffix(addr) && |Prefix(addr)| == 56 && LowerAll(Prefix(addr)) != Prefix(addr)
    ensures v.BadVersion? <==> WellFormed(addr) && DecodedOf(addr)[34] != VERSION
    ensures v.BadChecksum? <==>
              WellFormed(addr) && DecodedOf(addr)[34] == VERSION && !Consistent(DecodedOf(addr), sha)
  {
    ConsistentIffAddress(addr, sha);
    if addr == "" {
      return Empty;
    }
    if !HasSuffix(addr) {
      return BadSuffix;
    }
    var prefix := addr[..|addr| - |SUFFIX|];
    if |prefix| == 0 {
      return BadLength;
    }
    if |prefix| == 16 || |prefix| == 22 {
      return V2Deprecated;
    }
    if |prefix| != 56 {
      return BadLength;
    }
    LowerCaseAddress(prefix);
    if LowerAll(prefix) != prefix {
      return NotLowercase;
    }
    var ok := AllAddressChars(prefix);
    if !ok {
      return BadBase32;
    }
    DecodedIs(addr);
    v := CheckPayload(BytesOf(prefix), sha);
  }

  /** The character loop. */
  method AllAddressChars(prefix: string) returns (ok: bool)
    ensures ok == AreAddressChars(prefix)
  {
    for i := 0 to |prefix|
      invariant forall j | 0 <= j < i :: IsAddressChar(prefix[j])
    {
      if !IsAddressChar(prefix[i]) {
        return false;
      }
    }
    return true;
  }

  /** Version and checksum of the decoded bytes. */
  method CheckPayload(decoded: seq<int>, sha: Hash) returns (v: Verdict)
    requires |decoded| == 35 && IsHash(sha)
    ensures v.Valid? <==> Consistent(decoded, sha)
    ensures v.BadVersion? <==> decoded[34] != VERSION
    ensures v.BadChecksum? <==> decoded[34] == VERSION && !Consistent(decoded, sha)
    ensures v.Valid? || v.BadVersion? || v.BadChecksum?
  {
    if decoded[34] != VERSION {
      return BadVersion;
    }
    var sum := Checksum(decoded[..32], sha);
    if sum[0] != decoded[32] || sum[1] != decoded[33] {
      return BadChecksum;
    }
    return Valid;
  }

  lemma {:induction false} DecodedIs(addr: string)
    requires WellFormed(addr)
    ensures DecodedOf(addr) == BytesOf(Prefix(addr))
  {}

  lemma {:induction false} LowerCaseAddress(s: string)
    ensures AreAddressChars(s) ==> LowerAll(s) == s
  {}
}
