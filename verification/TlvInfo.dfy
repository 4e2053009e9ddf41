/**
 The ONIE TlvInfo image of chassis/sonic_platform/eeprom.py: the validator of the
 cached image, the decode loop, and a printer to set them against.
 */
module TlvInfo {
  import opened Bytes
  import opened Wrappers
  import Crc32

  const HEADER: seq<byte> := [0x54, 0x6C, 0x76, 0x49, 0x6E, 0x66, 0x6F]
  const VERSION: byte := 1
  const CRC_CODE: byte := 0xFE
  const VENDOR_EXT: byte := 0xFD
  const HDR_LEN: nat := 11
  const MIN_LEN: nat := 17
  const WORD: nat := 0x1_0000_0000

  /** binascii.crc32 is library code: the format is described for any checksum, and instantiated at the end. */
  type Checksum = seq<byte> -> nat

  /** binascii.crc32(data) & 0xFFFFFFFF */
  function Sum(crc32: Checksum, data: seq<byte>): (n: nat)
    ensures n < WORD
  {
    crc32(data) % WORD
  }

  datatype Tlv = Tlv(code: byte, value: seq<byte>)

  // ---------------------------------------------------------------- numbers in bytes

  function Val(b: byte): (n: nat) {
    b as nat
  }

  function ByteOf(n: nat): (b: byte)
    requires n < 256
  {
    n as byte
  }

  /** struct.unpack(">H") */
  function Be16(hi: byte, lo: byte): nat {
    Val(hi) * 256 + Val(lo)
  }

  /** struct.pack(">H") */
  function PutBe16(n: nat): (s: seq<byte>)
    requires n < 0x1_0000
    ensures |s| == 2 && Be16(s[0], s[1]) == n
  {
    [ByteOf(n / 256), ByteOf(n % 256)]
  }

  lemma PutBe16Names(hi: byte, lo: byte)
    ensures Be16(hi, lo) < 0x1_0000 && PutBe16(Be16(hi, lo)) == [hi, lo]
  {
    assert Be16(hi, lo) / 256 == Val(hi) && Be16(hi, lo) % 256 == Val(lo);
  }

  /** struct.unpack(">I") */
  function Be32(s: seq<byte>): nat
    requires |s| == 4
  {
    Be16(s[0], s[1]) * 0x1_0000 + Be16(s[2], s[3])
  }

  /** struct.pack(">I") */
  function PutBe32(n: nat): (s: seq<byte>)
    requires n < WORD
    ensures |s| == 4 && Be32(s) == n
  {
    PutBe16(n / 0x1_0000) + PutBe16(n % 0x1_0000)
  }

  lemma PutBe32Names(s: seq<byte>)
    requires |s| == 4
    ensures Be32(s) < WORD && PutBe32(Be32(s)) == s
  {
    PutBe16Names(s[0], s[1]);
    PutBe16Names(s[2], s[3]);
    assert Be32(s) / 0x1_0000 == Be16(s[0], s[1]) && Be32(s) % 0x1_0000 == Be16(s[2], s[3]);
  }

  // ---------------------------------------------------------------- images as lists of TLVs

  predicate AllFit(ts: seq<Tlv>) {
    forall t :: t in ts ==> |t.value| < 256
  }

  function TlvBytes(t: Tlv): (s: seq<byte>)
    requires |t.value| < 256
    ensures |s| == 2 + |t.value|
  {
    [t.code, ByteOf(|t.value|)] + t.value
  }

  function BodyBytes(ts: seq<Tlv>): seq<byte>
    requires AllFit(ts)
  {
    if ts == [] then [] else
      assert ts[0] in ts;
      TlvBytes(ts[0]) + BodyBytes(ts[1..])
  }

  /** The TLVs cover the body exactly, without gap or remainder. */
  predicate Tiles(ts: seq<Tlv>, body: seq<byte>) {
    AllFit(ts) && BodyBytes(ts) == body
  }

  predicate CrcShapesOk(ts: seq<Tlv>) {
    forall t :: t in ts && t.code == CRC_CODE ==> |t.value| == 4
  }

  /** The value of the last CRC TLV, if there is one. */
  function LastCrc(ts: seq<Tlv>): Option<nat>
    requires CrcShapesOk(ts)
  {
    if ts == [] then None
    else if ts[|ts| - 1].code == CRC_CODE then Some(Be32(ts[|ts| - 1].value))
    else LastCrc(ts[..|ts| - 1])
  }

  predicate HeaderOk(data: seq<byte>) {
    && |data| >= MIN_LEN
    && data[..7] == HEADER
    && data[8] == VERSION
    && Be16(data[9], data[10]) + HDR_LEN == |data|
  }

  /** The list's CRCs are well shaped and the last one is the checksum of all but the last four bytes of the image. */
  predicate CrcOk(crc32: Checksum, ts: seq<Tlv>, data: seq<byte>)
    requires |data| >= 4
  {
    CrcShapesOk(ts) && LastCrc(ts) == Some(Sum(crc32, data[..|data| - 4]))
  }

  /** What a valid image is. */
  ghost predicate Accepted(crc32: Checksum, data: seq<byte>) {
    HeaderOk(data) && exists ts: seq<Tlv> :: Tiles(ts, data[HDR_LEN..]) && CrcOk(crc32, ts, data)
  }

  // ---------------------------------------------------------------- a body tiles in at most one way

  lemma {:induction false} BodyAppend(a: seq<Tlv>, b: seq<Tlv>)
    requires AllFit(a) && AllFit(b)
    ensures AllFit(a + b) && BodyBytes(a + b) == BodyBytes(a) + BodyBytes(b)
  {
    if a == [] {
      assert a + b == b;
    } else {
      assert (a + b)[1..] == a[1..] + b;
      BodyAppend(a[1..], b);
      assert a[0] in a;
      assert TlvBytes(a[0]) + (BodyBytes(a[1..]) + BodyBytes(b)) == BodyBytes(a) + BodyBytes(b);
    }
  }

  /** Where one tiling has got to, any other tiling of the same bytes has been. */
  lemma {:induction false} TilingsAgree(ts: seq<Tlv>, us: seq<Tlv>)
    requires AllFit(ts) && AllFit(us) && BodyBytes(ts) <= BodyBytes(us)
    ensures ts <= us
  {
    if ts != [] {
      assert ts[0] in ts;
      assert |BodyBytes(us)| > 0;
      assert us[0] in us;
      var a, b := TlvBytes(ts[0]), TlvBytes(us[0]);
      assert BodyBytes(us)[0] == a[0] == b[0];
      assert BodyBytes(us)[1] == a[1] == b[1];
      assert BodyBytes(us)[..|a|] == a == b;
      assert ts[0].value == a[2..] && us[0].value == b[2..];
      assert BodyBytes(ts)[|a|..] == BodyBytes(ts[1..]) && BodyBytes(us)[|a|..] == BodyBytes(us[1..]);
      TilingsAgree(ts[1..], us[1..]);
    }
  }

  lemma TilingUnique(ts: seq<Tlv>, us: seq<Tlv>, body: seq<byte>)
    requires Tiles(ts, body) && Tiles(us, body)
    ensures ts == us
  {
    TilingsAgree(ts, us);
    TilingsAgree(us, ts);
  }

  /** The TLV that the bytes at a position of the body spell out. */
  predicate RoomAt(body: seq<byte>, at: nat) {
    at + 2 <= |body| && at + 2 + Val(body[at + 1]) <= |body|
  }

  function TlvAt(body: seq<byte>, at: nat): (t: Tlv)
    requires RoomAt(body, at)
  {
    Tlv(body[at], body[at + 2..at + 2 + Val(body[at + 1])])
  }

  lemma TlvBytesAt(body: seq<byte>, at: nat)
    requires RoomAt(body, at)
    ensures |TlvAt(body, at).value| == Val(body[at + 1])
    ensures TlvBytes(TlvAt(body, at)) == body[at..at + 2 + Val(body[at + 1])]
  {
  }

  lemma BytesOfOne(t: Tlv)
    requires |t.value| < 256
    ensures AllFit([t]) && BodyBytes([t]) == TlvBytes(t)
  {
    assert [t][1..] == [];
  }

  /** A tiling of a non-empty body begins with the TLV its first bytes spell out. */
  lemma HeadTlv(us: seq<Tlv>, body: seq<byte>)
    requires Tiles(us, body) && body != []
    ensures us != [] && RoomAt(body, 0) && us[0] == TlvAt(body, 0)
  {
    assert us[0] in us;
    var t := TlvBytes(us[0]);
    assert body[..|t|] == t;
    assert body[0] == t[0] && body[1] == t[1];
    assert us[0].value == t[2..] == body[2..|t|];
  }

  lemma TlvAtShifts(body: seq<byte>, at: nat)
    requires at <= |body| && RoomAt(body[at..], 0)
    ensures RoomAt(body, at) && TlvAt(body, at) == TlvAt(body[at..], 0)
  {
    assert body[at..][1] == body[at + 1];
  }

  lemma PartsFit(us: seq<Tlv>, n: nat)
    requires AllFit(us) && n <= |us|
    ensures AllFit(us[..n]) && AllFit(us[n..])
  {
    assert forall t :: t in us[..n] || t in us[n..] ==> t in us;
  }

  lemma BodyCut(us: seq<Tlv>, n: nat)
    requires AllFit(us) && n <= |us|
    ensures AllFit(us[..n]) && AllFit(us[n..]) && BodyBytes(us) == BodyBytes(us[..n]) + BodyBytes(us[n..])
  {
    PartsFit(us, n);
    BodyOf(us, us[..n], us[n..]);
  }

  lemma BodyOf(us: seq<Tlv>, a: seq<Tlv>, b: seq<Tlv>)
    requires us == a + b && AllFit(a) && AllFit(b)
    ensures AllFit(us) && BodyBytes(us) == BodyBytes(a) + BodyBytes(b)
  {
    BodyAppend(a, b);
  }

  lemma RestBytes(us: seq<Tlv>, n: nat, body: seq<byte>, at: nat)
    requires Tiles(us, body) && n <= |us| && at <= |body| && AllFit(us[..n]) && BodyBytes(us[..n]) == body[..at]
    ensures Tiles(us[n..], body[at..])
  {
    BodyCut(us, n);
    DropPrefix(body, at, BodyBytes(us[n..]));
  }

  /** Two tilings that agree up to a position leave the rest to be tiled. */
  lemma RestTiles(ts: seq<Tlv>, us: seq<Tlv>, body: seq<byte>, at: nat)
    requires AllFit(ts) && Tiles(us, body) && at <= |body| && BodyBytes(ts) == body[..at]
    ensures |ts| <= |us| && ts == us[..|ts|] && Tiles(us[|ts|..], body[at..])
  {
    TilingsAgree(ts, us);
    assert us[..|ts|] == ts;
    RestBytes(us, |ts|, body, at);
  }

  lemma DropPrefix<T>(s: seq<T>, at: nat, rest: seq<T>)
    requires at <= |s| && s == s[..at] + rest
    ensures rest == s[at..]
  {
  }

  /** Any tiling of the whole body goes on, after a part it shares with another list, with the TLV that comes next. */
  lemma NextTlv(ts: seq<Tlv>, us: seq<Tlv>, body: seq<byte>, at: nat)
    requires AllFit(ts) && Tiles(us, body) && at < |body| && BodyBytes(ts) == body[..at]
    ensures |ts| < |us| && ts == us[..|ts|] && RoomAt(body, at) && us[|ts|] == TlvAt(body, at)
  {
    RestTiles(ts, us, body, at);
    HeadTlv(us[|ts|..], body[at..]);
    TlvAtShifts(body, at);
  }

  lemma GrowTiling(ts: seq<Tlv>, body: seq<byte>, at: nat)
    requires AllFit(ts) && RoomAt(body, at) && BodyBytes(ts) == body[..at]
    ensures AllFit(ts + [TlvAt(body, at)])
    ensures BodyBytes(ts + [TlvAt(body, at)]) == body[..at + 2 + Val(body[at + 1])]
  {
    TlvBytesAt(body, at);
    BytesOfOne(TlvAt(body, at));
    BodyAppend(ts, [TlvAt(body, at)]);
  }

  lemma LastCrcAppend(ts: seq<Tlv>, t: Tlv)
    requires CrcShapesOk(ts) && (t.code == CRC_CODE ==> |t.value| == 4)
    ensures CrcShapesOk(ts + [t])
    ensures LastCrc(ts + [t]) == if t.code == CRC_CODE then Some(Be32(t.value)) else LastCrc(ts)
  {
    assert (ts + [t])[..|ts|] == ts;
  }

  // ---------------------------------------------------------------- the validator

  /** The same TLV, seen from the start of the image. */
  lemma TlvInImage(data: seq<byte>, offset: nat)
    requires HDR_LEN <= offset <= |data|
    ensures RoomAt(data[HDR_LEN..], offset - HDR_LEN) <==> RoomAt(data, offset)
    ensures RoomAt(data, offset) ==>
              TlvAt(data[HDR_LEN..], offset - HDR_LEN) == TlvAt(data, offset) && data[HDR_LEN..][offset - HDR_LEN + 1] == data[offset + 1]
  {
    if offset + 1 < |data| {
      var body, at, n := data[HDR_LEN..], offset - HDR_LEN, Val(data[offset + 1]);
      assert body[at] == data[offset] && body[at + 1] == data[offset + 1];
      if offset + 2 + n <= |data| { assert body[at + 2..at + 2 + n] == data[offset + 2..offset + 2 + n]; }
    }
  }

  lemma ExtendTiling(ts: seq<Tlv>, body: seq<byte>, at: nat)
    requires AllFit(ts) && RoomAt(body, at) && BodyBytes(ts) == body[..at] && CrcShapesOk(ts)
    requires var t := TlvAt(body, at); t.code == CRC_CODE ==> |t.value| == 4
    ensures var t := TlvAt(body, at);
      && AllFit(ts + [t]) && BodyBytes(ts + [t]) == body[..at + 2 + Val(body[at + 1])]
      && CrcShapesOk(ts + [t])
      && LastCrc(ts + [t]) == if t.code == CRC_CODE then Some(Be32(t.value)) else LastCrc(ts)
  {
    GrowTiling(ts, body, at);
    LastCrcAppend(ts, TlvAt(body, at));
  }

  /** The valid images, given one tiling of the body, or given that a tiling cannot go on. */
  lemma AcceptedByTiling(crc32: Checksum, data: seq<byte>, ts: seq<Tlv>)
    requires HeaderOk(data) && Tiles(ts, data[HDR_LEN..])
    ensures Accepted(crc32, data) <==> CrcOk(crc32, ts, data)
  {
    forall us | Tiles(us, data[HDR_LEN..]) ensures us == ts { TilingUnique(us, ts, data[HDR_LEN..]); }
  }

  lemma RejectedWithin(crc32: Checksum, data: seq<byte>, ts: seq<Tlv>, at: nat)
    requires HeaderOk(data) && AllFit(ts) && at < |data| - HDR_LEN && BodyBytes(ts) == data[HDR_LEN..][..at]
    requires RoomAt(data[HDR_LEN..], at) ==> var t := TlvAt(data[HDR_LEN..], at); t.code == CRC_CODE && |t.value| != 4
    ensures !Accepted(crc32, data)
  {
    forall us | Tiles(us, data[HDR_LEN..])
      ensures !CrcOk(crc32, us, data)
    {
      NextTlv(ts, us, data[HDR_LEN..], at);
      assert us[|ts|] in us;
    }
  }

  /** validate_eeprom_cache, from the file's contents on: it accepts exactly the valid images. */
  method Validate(crc32: Checksum, data: seq<byte>) returns (ok: bool)
    ensures ok <==> Accepted(crc32, data)
  {
    if |data| < MIN_LEN { return false; }
    if data[0..7] != HEADER { return false; }
    if data[8] != VERSION { return false; }
    var totalLen := Be16(data[9], data[10]);
    if totalLen + HDR_LEN != |data| { return false; }
    ghost var body := data[HDR_LEN..];
    ghost var ts: seq<Tlv> := [];
    var offset := HDR_LEN;
    var crcExpected: Option<nat> := None;
    while offset < |data|
      invariant HDR_LEN <= offset <= |data|
      invariant AllFit(ts) && BodyBytes(ts) == body[..offset - HDR_LEN]
      invariant CrcShapesOk(ts) && crcExpected == LastCrc(ts)
    {
      ghost var at := offset - HDR_LEN;
      TlvInImage(data, offset);
      if offset + 2 > |data| {
        RejectedWithin(crc32, data, ts, at);
        return false;
      }
      var tlvType := data[offset];
      var tlvLen := Val(data[offset + 1]);
      offset := offset + 2;
      if offset + tlvLen > |data| {
        RejectedWithin(crc32, data, ts, at);
        return false;
      }
      var tlvValue := data[offset..offset + tlvLen];
      offset := offset + tlvLen;
      if tlvType == CRC_CODE {
        if tlvLen != 4 {
          RejectedWithin(crc32, data, ts, at);
          return false;
        }
        crcExpected := Some(Be32(tlvValue));
      }
      ExtendTiling(ts, body, at);
      ts := ts + [Tlv(tlvType, tlvValue)];
    }
    assert body[..offset - HDR_LEN] == body;
    AcceptedByTiling(crc32, data, ts);
    if crcExpected.None? { return false; }
    var crcCalc := Sum(crc32, data[0..|data| - 4]);
    assert data[0..|data| - 4] == data[..|data| - 4];
    return crcCalc == crcExpected.value;
  }

  // ---------------------------------------------------------------- the smallest images, byte by byte

  /** Seventeen bytes that hold nothing but a checksum: all but the spare eighth byte is settled. */
  predicate JustSealed(crc32: Checksum, data: seq<byte>)
    requires |data| == 17
  {
    && data[..7] == [84, 108, 118, 73, 110, 102, 111]
    && data[8..13] == [1, 0, 6, 254, 4]
    && data[13] as int * 16777216 + data[14] as int * 65536 + data[15] as int * 256 + data[16] as int == crc32(data[..13]) % 4294967296
  }

  lemma CrcSomewhere(ts: seq<Tlv>) returns (k: nat)
    requires CrcShapesOk(ts) && LastCrc(ts).Some?
    ensures k < |ts| && ts[k].code == CRC_CODE && |ts[k].value| == 4
  {
    if NoCrc(ts) { NoCrcMeansNone(ts); }
    var t :| t in ts && t.code == CRC_CODE;
    k :| 0 <= k < |ts| && ts[k] == t;
  }

  lemma TwoBytesAtLeast(ts: seq<Tlv>)
    requires AllFit(ts)
    ensures ts != [] ==> |BodyBytes(ts)| >= 2
  {
    if ts != [] { assert ts[0] in ts; }
  }

  /** A body of six bytes with a checksum in it is the checksum. */
  lemma OnlyTheChecksum(ts: seq<Tlv>, body: seq<byte>)
    requires |body| == 6 && Tiles(ts, body) && CrcShapesOk(ts) && LastCrc(ts).Some?
    ensures body[..2] == [254, 4] && ts == [Tlv(254, body[2..])]
  {
    var k := CrcSomewhere(ts);
    HeadTlv(ts, body);
    BodyCut(ts, 1);
    BytesOfOne(ts[0]);
    assert ts[..1] == [ts[0]] && ts[0] in ts;
    if k > 0 {
      HasRoomForFour(ts[1..], k - 1);
    } else {
      TwoBytesAtLeast(ts[1..]);
      assert ts == [ts[0]] + ts[1..];
    }
  }

  /** The smallest valid images, in plain numbers: the magic, the version, the length, the code and the checksum are as they must be, and nothing else is asked. */
  lemma SmallestImageIff(crc32: Checksum, data: seq<byte>)
    requires |data| == 17
    ensures Accepted(crc32, data) <==> JustSealed(crc32, data)
  {
    var body, t := data[11..], Tlv(254, data[13..]);
    assert data[..17 - 4] == data[..13] && data[8..13] == [data[8], data[9], data[10], data[11], data[12]];
    assert body[..2] == [data[11], data[12]] && body[2..] == data[13..];
    if HeaderOk(data) && exists ts: seq<Tlv> :: Tiles(ts, data[HDR_LEN..]) && CrcOk(crc32, ts, data) {
      var ts: seq<Tlv> :| Tiles(ts, data[HDR_LEN..]) && CrcOk(crc32, ts, data);
      OnlyTheChecksum(ts, body);
    }
    if JustSealed(crc32, data) {
      BytesOfOne(t);
      assert TlvBytes(t) == [254, 4] + data[13..] == body;
      assert Tiles([t], body) && LastCrc([t]) == Some(Be32(t.value));
      assert data[9] == data[8..13][1] && data[10] == data[8..13][2];
    }
  }

  // ---------------------------------------------------------------- the decode loop

  /** is_valid_tlv: the two header bytes and the whole value fit. */
  predicate ValidTlv(e: seq<byte>) {
    |e| >= 2 && 2 + Val(e[1]) <= |e|
  }

  /** A decoded list up to and including its first CRC TLV. */
  function ThroughFirstCrc(ts: seq<Tlv>): seq<Tlv> {
    if ts == [] then [] else if ts[0].code == CRC_CODE then [ts[0]] else [ts[0]] + ThroughFirstCrc(ts[1..])
  }

  /** A dictionary filled in order: a later TLV of the same code overwrites. */
  function Dict(ts: seq<Tlv>): map<byte, seq<byte>> {
    if ts == [] then map[] else Dict(ts[..|ts| - 1])[ts[|ts| - 1].code := ts[|ts| - 1].value]
  }

  /** What it holds: under each code that occurs, the value of the last TLV with that code. */
  lemma {:induction false} DictHoldsLast(ts: seq<Tlv>, code: byte)
    ensures code in Dict(ts) <==> exists k :: 0 <= k < |ts| && ts[k].code == code
    ensures code in Dict(ts) ==> exists k :: 0 <= k < |ts| && ts[k].code == code && ts[k].value == Dict(ts)[code] && forall m :: k < m < |ts| ==> ts[m].code != code
  {
    if ts != [] {
      var shorter, last := ts[..|ts| - 1], ts[|ts| - 1];
      DictHoldsLast(shorter, code);
      if last.code == code {
        assert ts[|ts| - 1].code == code && ts[|ts| - 1].value == Dict(ts)[code];
      } else if code in Dict(shorter) {
        var k :| 0 <= k < |shorter| && shorter[k].code == code && shorter[k].value == Dict(shorter)[code] && forall m :: k < m < |shorter| ==> shorter[m].code != code;
        assert ts[k] == shorter[k] && forall m :: k < m < |shorter| ==> ts[m] == shorter[m];
      } else {
        assert forall k :: 0 <= k < |shorter| ==> ts[k] == shorter[k];
      }
    }
  }

  predicate HasCrc(ts: seq<Tlv>) {
    exists t :: t in ts && t.code == CRC_CODE
  }

  /** Lines 93-96 raise on a vendor extension without its four-byte number, or with text that is not ASCII. */
  predicate BadVendor(t: Tlv) {
    t.code == VENDOR_EXT && (|t.value| < 4 || exists i :: 4 <= i < |t.value| && t.value[i] >= 128)
  }

  /** In the bytes themselves: code 0xFD, and a length below four or a byte from 128 on behind the four of the number. */
  predicate SpellsBadVendor(data: seq<byte>, at: nat) {
    && at + 2 <= |data| && data[at] == 0xFD
    && (data[at + 1] < 4 || exists j :: at + 6 <= j < at + 2 + data[at + 1] as int && j < |data| && data[j] >= 128)
  }

  lemma BadVendorSpelled(data: seq<byte>, at: nat)
    requires RoomAt(data, at)
    ensures BadVendor(TlvAt(data, at)) <==> SpellsBadVendor(data, at)
  {
    var t := TlvAt(data, at);
    assert forall i :: 0 <= i < |t.value| ==> t.value[i] == data[at + 2 + i];
    if SpellsBadVendor(data, at) && data[at + 1] >= 4 {
      var j :| at + 6 <= j < at + 2 + data[at + 1] as int && j < |data| && data[j] >= 128;
      assert t.value[j - at - 2] >= 128;
    }
  }

  predicate Decodable(ts: seq<Tlv>) {
    forall t :: t in ts ==> !BadVendor(t)
  }

  /**
   The decode loop of Eeprom.__init__ on any image whose header has been checked:
   what it visited, its dictionary, and whether a vendor extension made it raise.
   */
  method Decode(eeprom: seq<byte>) returns (raised: bool, visited: seq<Tlv>, dict: map<byte, seq<byte>>)
    requires |eeprom| >= HDR_LEN
    ensures dict == Dict(visited) && Decodable(visited)
    ensures AllFit(visited) && BodyBytes(visited) <= eeprom[HDR_LEN..]
    // it stops at the first CRC, or else as soon as there is no further TLV to be had, or a bad vendor extension comes next
    ensures NoCrc(visited) ==>
              var index := HDR_LEN + |BodyBytes(visited)|;
              if raised then !Ends(eeprom, index) && SpellsBadVendor(eeprom, index) else Ends(eeprom, index)
    ensures !NoCrc(visited) ==> !raised && visited[|visited| - 1].code == CRC_CODE && NoCrc(visited[..|visited| - 1])
    ensures LengthOk(eeprom) ==>
              forall ts :: Tiles(ts, eeprom[HDR_LEN..]) && HasCrc(ts) && CrcShapesOk(ts) ==>
                && (raised <==> !Decodable(ThroughFirstCrc(ts)))
                && (!raised ==> visited == ThroughFirstCrc(ts))
  {
    raised, dict, visited := false, map[], [];
    var totalLength := Be16(eeprom[9], eeprom[10]);
    var index := HDR_LEN;
    var end := HDR_LEN + totalLength;
    ghost var body := eeprom[HDR_LEN..];
    while index + 2 < |eeprom| && index < end
      invariant HDR_LEN <= index <= |eeprom|
      invariant AllFit(visited) && BodyBytes(visited) == body[..index - HDR_LEN]
      invariant dict == Dict(visited) && NoCrc(visited) && Decodable(visited)
      decreases |eeprom| - index
    {
      ghost var at := index - HDR_LEN;
      TlvInImage(eeprom, index);
      if !ValidTlv(eeprom[index..]) { break; }
      var tlv := Tlv(eeprom[index], eeprom[index + 2..index + 2 + Val(eeprom[index + 1])]);
      if BadVendor(tlv) {
        BadVendorSpelled(eeprom, index);
        BadVendorStops(visited, body, at);
        raised := true;
        return;
      }
      VisitOne(visited, body, at);
      ghost var before := visited;
      dict := dict[tlv.code := tlv.value];
      visited := visited + [tlv];
      if tlv.code == CRC_CODE {
        assert visited[..|visited| - 1] == before && tlv in visited;
        return;
      }
      index := index + 2 + Val(eeprom[index + 1]);
    }
    if LengthOk(eeprom) { LoopEndsOnlyWithoutCrc(visited, body, index - HDR_LEN); }
  }

  /** A bad vendor extension that comes before any CRC is among the TLVs to be decoded, however the body tiles. */
  lemma BadVendorStops(seen: seq<Tlv>, body: seq<byte>, at: nat)
    requires AllFit(seen) && NoCrc(seen) && RoomAt(body, at) && BodyBytes(seen) == body[..at] && BadVendor(TlvAt(body, at))
    ensures forall ts :: Tiles(ts, body) ==> !Decodable(ThroughFirstCrc(ts))
  {
    forall ts | Tiles(ts, body)
      ensures !Decodable(ThroughFirstCrc(ts))
    {
      NextTlv(seen, ts, body, at);
      ReachedByDecoding(ts, |seen|);
    }
  }

  lemma {:induction false} ReachedByDecoding(ts: seq<Tlv>, k: nat)
    requires k < |ts| && NoCrc(ts[..k])
    ensures ts[k] in ThroughFirstCrc(ts)
  {
    if k > 0 {
      assert ts[..k][0] == ts[0] && ts[1..][..k - 1] == ts[..k][1..];
      ReachedByDecoding(ts[1..], k - 1);
    }
  }

  /** No TLV can be read at this position: fewer than three bytes left, the stated length used up, or a value that does not fit. */
  predicate Ends(eeprom: seq<byte>, index: nat)
    requires |eeprom| >= HDR_LEN
  {
    index + 2 >= |eeprom| || index >= HDR_LEN + Be16(eeprom[9], eeprom[10]) || !ValidTlv(eeprom[index..])
  }

  lemma DecodableMore(ts: seq<Tlv>, t: Tlv)
    requires Decodable(ts) && !BadVendor(t)
    ensures Decodable(ts + [t])
  {
    assert forall u :: u in ts + [t] ==> u in ts || u == t;
  }

  /** One turn of the decode loop. */
  lemma VisitOne(seen: seq<Tlv>, body: seq<byte>, at: nat)
    requires AllFit(seen) && NoCrc(seen) && RoomAt(body, at) && BodyBytes(seen) == body[..at]
    requires Decodable(seen) && !BadVendor(TlvAt(body, at))
    ensures var t := TlvAt(body, at);
      && Decodable(seen + [t]) && AllFit(seen + [t]) && BodyBytes(seen + [t]) == body[..at + 2 + Val(body[at + 1])]
      && Dict(seen + [t]) == Dict(seen)[t.code := t.value]
      && (t.code != CRC_CODE ==> NoCrc(seen + [t]))
      && (t.code == CRC_CODE ==> forall ts :: Tiles(ts, body) ==> seen + [t] == ThroughFirstCrc(ts))
  {
    var t := TlvAt(body, at);
    GrowTiling(seen, body, at);
    DecodableMore(seen, t);
    assert (seen + [t])[..|seen|] == seen;
    if t.code == CRC_CODE {
      forall ts | Tiles(ts, body)
        ensures seen + [t] == ThroughFirstCrc(ts)
      {
        NextTlv(seen, ts, body, at);
        FirstCrcFound(ts, seen, t);
      }
    }
  }

  lemma LoopEndsOnlyWithoutCrc(seen: seq<Tlv>, body: seq<byte>, at: nat)
    requires AllFit(seen) && NoCrc(seen) && at <= |body| && BodyBytes(seen) == body[..at]
    requires at + 6 > |body| || !RoomAt(body, at)
    ensures forall ts :: Tiles(ts, body) && HasCrc(ts) ==> !CrcShapesOk(ts)
  {
    forall ts | Tiles(ts, body) && HasCrc(ts)
      ensures !CrcShapesOk(ts)
    {
      if CrcShapesOk(ts) { LoopEndsOnlyAfterCrc(seen, ts, body, at); }
    }
  }

  predicate LengthOk(eeprom: seq<byte>)
    requires |eeprom| >= HDR_LEN
  {
    Be16(eeprom[9], eeprom[10]) + HDR_LEN == |eeprom|
  }

  predicate NoCrc(ts: seq<Tlv>) {
    forall t :: t in ts ==> t.code != CRC_CODE
  }

  lemma {:induction false} HasRoomForFour(ts: seq<Tlv>, k: nat)
    requires AllFit(ts) && k < |ts| && |ts[k].value| == 4
    ensures |BodyBytes(ts)| >= 6
  {
    assert ts[0] in ts;
    if k > 0 { HasRoomForFour(ts[1..], k - 1); }
  }

  /** A body that tiles, with a CRC of the right size in it, cannot run out before the CRC. */
  lemma LoopEndsOnlyAfterCrc(seen: seq<Tlv>, ts: seq<Tlv>, body: seq<byte>, at: nat)
    requires AllFit(seen) && NoCrc(seen) && at <= |body| && BodyBytes(seen) == body[..at]
    requires Tiles(ts, body) && HasCrc(ts) && CrcShapesOk(ts)
    ensures at + 6 <= |body| && RoomAt(body, at)
  {
    RestTiles(seen, ts, body, at);
    var rest := ts[|seen|..];
    var k :| 0 <= k < |ts| && ts[k].code == CRC_CODE;
    assert forall i :: 0 <= i < |seen| ==> seen[i] in seen && seen[i] == ts[i];
    assert rest[k - |seen|] == ts[k] && ts[k] in ts;
    HasRoomForFour(rest, k - |seen|);
    NextTlv(seen, ts, body, at);
  }

  lemma FirstCrcFound(ts: seq<Tlv>, before: seq<Tlv>, t: Tlv)
    requires |before| < |ts| && before == ts[..|before|] && ts[|before|] == t && t.code == CRC_CODE
    requires forall b :: b in before ==> b.code != CRC_CODE
    ensures ThroughFirstCrc(ts) == before + [t]
  {
    if before != [] {
      assert before[0] in before;
      FirstCrcFound(ts[1..], before[1..], t);
    }
  }

  // ---------------------------------------------------------------- the printer

  predicate Printable(ts: seq<Tlv>) {
    AllFit(ts) && NoCrc(ts) && |BodyBytes(ts)| + 6 < 0x1_0000
  }

  /** Everything up to the four bytes of the checksum, the checksum's own type and length included. */
  function Unsealed(ts: seq<Tlv>): seq<byte>
    requires Printable(ts)
  {
    HEADER + [0, VERSION] + PutBe16(|BodyBytes(ts)| + 6) + BodyBytes(ts) + [CRC_CODE, 4]
  }

  function CrcTlv(crc32: Checksum, ts: seq<Tlv>): Tlv
    requires Printable(ts)
  {
    Tlv(CRC_CODE, PutBe32(Sum(crc32, Unsealed(ts))))
  }

  /** The image of a list of TLVs: header, length, the TLVs and the checksum. */
  function Encode(crc32: Checksum, ts: seq<Tlv>): seq<byte>
    requires Printable(ts)
  {
    Unsealed(ts) + PutBe32(Sum(crc32, Unsealed(ts)))
  }

  lemma NoCrcMeansNone(ts: seq<Tlv>)
    requires NoCrc(ts) && CrcShapesOk(ts)
    ensures LastCrc(ts) == None
  {
    if ts != [] {
      assert ts[|ts| - 1] in ts;
      NoCrcMeansNone(ts[..|ts| - 1]);
    }
  }

  lemma EncodedTiles(crc32: Checksum, ts: seq<Tlv>)
    requires Printable(ts)
    ensures HeaderOk(Encode(crc32, ts)) && Tiles(ts + [CrcTlv(crc32, ts)], Encode(crc32, ts)[HDR_LEN..])
    ensures Encode(crc32, ts)[..|Encode(crc32, ts)| - 4] == Unsealed(ts)
  {
    var t := CrcTlv(crc32, ts);
    BytesOfOne(t);
    BodyAppend(ts, [t]);
    assert TlvBytes(t) == [CRC_CODE, 4] + t.value;
    assert Encode(crc32, ts)[HDR_LEN..] == BodyBytes(ts) + ([CRC_CODE, 4] + t.value);
  }

  /** Print, then validate: every printable list gives an accepted image. */
  lemma EncodeIsAccepted(crc32: Checksum, ts: seq<Tlv>)
    requires Printable(ts)
    ensures Accepted(crc32, Encode(crc32, ts))
  {
    EncodedTiles(crc32, ts);
    NoCrcMeansNone(ts);
    LastCrcAppend(ts, CrcTlv(crc32, ts));
    assert CrcOk(crc32, ts + [CrcTlv(crc32, ts)], Encode(crc32, ts));
  }

  lemma ThroughCrcAppend(ts: seq<Tlv>, t: Tlv)
    requires NoCrc(ts) && t.code == CRC_CODE
    ensures ThroughFirstCrc(ts + [t]) == ts + [t]
  {
    if ts == [] {
      assert [t][1..] == [];
    } else {
      assert ts[0] in ts;
      assert (ts + [t])[1..] == ts[1..] + [t];
      ThroughCrcAppend(ts[1..], t);
    }
  }

  /**
   Print, then decode: on the image of a list the loop visits exactly the list, in
   order, and then the checksum, unless the list has a bad vendor extension, which
   makes it raise.
   */
  method DecodePrinted(crc32: Checksum, eeprom: seq<byte>, ghost ts: seq<Tlv>) returns (raised: bool, visited: seq<Tlv>, dict: map<byte, seq<byte>>)
    requires Printable(ts) && eeprom == Encode(crc32, ts)
    ensures raised <==> !Decodable(ts)
    ensures !raised ==> visited == ts + [CrcTlv(crc32, ts)] && dict == Dict(visited)
  {
    EncodedTiles(crc32, ts);
    ThroughCrcAppend(ts, CrcTlv(crc32, ts));
    assert CrcTlv(crc32, ts) in ts + [CrcTlv(crc32, ts)];
    assert forall t :: t in ts ==> t in ts + [CrcTlv(crc32, ts)];
    raised, visited, dict := Decode(eeprom);
  }

  /** The body of an accepted image whose one checksum comes last. */
  lemma SealedBody(crc32: Checksum, data: seq<byte>, ts: seq<Tlv>, c: Tlv)
    requires Accepted(crc32, data) && Tiles(ts + [c], data[HDR_LEN..]) && NoCrc(ts) && c.code == CRC_CODE
    ensures Printable(ts) && |c.value| == 4 && |data| == HDR_LEN + |BodyBytes(ts)| + 6
    ensures data[HDR_LEN..] == BodyBytes(ts) + [CRC_CODE, 4] + c.value
    ensures Be32(c.value) == Sum(crc32, data[..|data| - 4])
  {
    AcceptedByTiling(crc32, data, ts + [c]);
    assert forall t :: t in ts ==> t in ts + [c];
    assert c in ts + [c];
    LastCrcAppend(ts, c);
    BytesOfOne(c);
    BodyAppend(ts, [c]);
    assert TlvBytes(c) == [CRC_CODE, 4] + c.value;
    PutBe16Names(data[9], data[10]);
  }

  lemma FirstEleven<T>(s: seq<T>)
    requires |s| >= 11
    ensures s[..11] == s[..7] + [s[7], s[8]] + [s[9], s[10]]
  {
  }

  lemma Resealed<T>(s: seq<T>, head: seq<T>, body: seq<T>, mark: seq<T>, tail: seq<T>)
    requires |s| >= 11 && |tail| == 4 && s[..11] == head && s[11..] == body + mark + tail
    ensures s == head + body + mark + tail && s[..|s| - 4] == head + body + mark
  {
    assert s == s[..11] + s[11..];
  }

  lemma HeaderBytes(data: seq<byte>)
    requires HeaderOk(data) && data[7] == 0
    ensures |data| - HDR_LEN < 0x1_0000 && data[..HDR_LEN] == HEADER + [0, VERSION] + PutBe16(|data| - HDR_LEN)
  {
    PutBe16Names(data[9], data[10]);
    FirstEleven(data);
  }

  /** Read, then print: an accepted image whose one checksum comes last, and whose spare header byte is zero, is the image of its list. */
  lemma AcceptedIsEncoded(crc32: Checksum, data: seq<byte>, ts: seq<Tlv>, c: Tlv)
    requires Accepted(crc32, data) && Tiles(ts + [c], data[HDR_LEN..]) && NoCrc(ts) && c.code == CRC_CODE && data[7] == 0
    ensures Printable(ts) && Encode(crc32, ts) == data
  {
    SealedBody(crc32, data, ts, c);
    HeaderBytes(data);
    PutBe32Names(c.value);
    Resealed(data, HEADER + [0, VERSION] + PutBe16(|BodyBytes(ts)| + 6), BodyBytes(ts), [CRC_CODE, 4], c.value);
  }
}
