/**
 What the validator of the TlvInfo image makes of corrupted images: exactly which
 changes of one byte, or of a few in a row, it catches.
 */
module TlvCorruption {
  import opened Bytes
  import opened TlvInfo
  import opened Wrappers
  import Crc32

  /** Equal lengths, and differences only within four positions from w on. */
  predicate BurstAt<T(==)>(x: seq<T>, y: seq<T>, w: nat) {
    |x| == |y| && w + 4 <= |x| && x[..w] == y[..w] && x[w + 4..] == y[w + 4..]
  }

  lemma BurstSplits<T>(x: seq<T>, y: seq<T>, w: nat)
    requires BurstAt(x, y, w)
    ensures x == x[..w] + x[w..w + 4] + x[w + 4..] && y == x[..w] + y[w..w + 4] + x[w + 4..]
    ensures x != y ==> x[w..w + 4] != y[w..w + 4]
  {
    assert y == y[..w] + y[w..w + 4] + y[w + 4..];
  }

  /** A checksum that no burst of up to four bytes leaves unchanged. */
  ghost predicate SeesBursts(crc32: Checksum) {
    forall x: seq<byte>, y: seq<byte>, w: nat :: BurstAt(x, y, w) && x != y ==> Sum(crc32, x) != Sum(crc32, y)
  }

  lemma SumsDiffer(crc32: Checksum, x: seq<byte>, y: seq<byte>)
    requires crc32(x) < WORD && crc32(y) < WORD && crc32(x) != crc32(y)
    ensures Sum(crc32, x) != Sum(crc32, y)
  {
  }

  lemma IeeeSeesBurst(x: seq<byte>, y: seq<byte>, w: nat)
    requires BurstAt(x, y, w) && x != y
    ensures Sum(Crc32.Ieee, x) != Sum(Crc32.Ieee, y)
  {
    BurstSplits(x, y, w);
    Crc32.BurstChangesIeee(x[..w], x[w..w + 4], y[w..w + 4], x[w + 4..]);
    SumsDiffer(Crc32.Ieee, x, y);
  }

  /** The CRC-32 of IEEE 802.3 is one. */
  lemma IeeeCrcSeesBursts()
    ensures SeesBursts(Crc32.Ieee)
  {
    forall x: seq<byte>, y: seq<byte>, w: nat | BurstAt(x, y, w) && x != y
      ensures Sum(Crc32.Ieee, x) != Sum(Crc32.Ieee, y)
    {
      IeeeSeesBurst(x, y, w);
    }
  }

  /** The list with the value of its j-th TLV replaced. */
  function Revalued(ts: seq<Tlv>, j: nat, v: seq<byte>): seq<Tlv>
    requires j < |ts|
  {
    ts[j := Tlv(ts[j].code, v)]
  }

  lemma {:induction false} RevaluedCrc(ts: seq<Tlv>, j: nat, v: seq<byte>)
    requires j < |ts| && ts[j].code != CRC_CODE
    ensures CrcShapesOk(Revalued(ts, j, v)) == CrcShapesOk(ts)
    ensures CrcShapesOk(ts) ==> LastCrc(Revalued(ts, j, v)) == LastCrc(ts)
    decreases |ts|
  {
    var us := Revalued(ts, j, v);
    assert forall i :: 0 <= i < |ts| && i != j ==> us[i] == ts[i];
    assert forall t :: t in ts && t.code == CRC_CODE ==> t in us;
    assert forall t :: t in us && t.code == CRC_CODE ==> t in ts;
    if j < |ts| - 1 {
      assert us[..|us| - 1] == Revalued(ts[..|ts| - 1], j, v);
      RevaluedCrc(ts[..|ts| - 1], j, v);
    } else {
      assert us[..|us| - 1] == ts[..|ts| - 1];
    }
  }

  /** Where the value of the j-th TLV starts in the body. */
  ghost function ValueAt(ts: seq<Tlv>, j: nat): nat
    requires j < |ts| && AllFit(ts[..j])
  {
    |BodyBytes(ts[..j])| + 2
  }

  lemma BodySplits(ts: seq<Tlv>, j: nat)
    requires AllFit(ts) && j < |ts|
    ensures AllFit(ts[..j]) && |ts[j].value| < 256 && AllFit(ts[j + 1..])
    ensures BodyBytes(ts) == BodyBytes(ts[..j]) + TlvBytes(ts[j]) + BodyBytes(ts[j + 1..])
  {
    assert ts[j] in ts;
    BodyCut(ts, j);
    BodyCut(ts, j + 1);
    assert ts[j..][1..] == ts[j + 1..];
    Associate(BodyBytes(ts[..j]), TlvBytes(ts[j]), BodyBytes(ts[j + 1..]));
  }

  lemma Associate<T>(a: seq<T>, b: seq<T>, c: seq<T>)
    ensures a + (b + c) == a + b + c
  {
  }

  /** Replacing the value within a text that is head, two bytes, value and rest. */
  lemma Spliced<T>(s: seq<T>, head: seq<T>, two: seq<T>, value: seq<T>, v: seq<T>, rest: seq<T>)
    requires s == head + (two + value) + rest && |two| == 2 && |v| == |value|
    ensures var at := |head| + 2;
            at + |v| <= |s| && s[at..at + |v|] == value && s[..at] + v + s[at + |v|..] == head + (two + v) + rest
  {
  }

  lemma RevaluedTiles(ts: seq<Tlv>, j: nat, v: seq<byte>, body: seq<byte>)
    requires Tiles(ts, body) && j < |ts| && |v| == |ts[j].value|
    ensures AllFit(ts[..j]) && ValueAt(ts, j) + |v| <= |body|
    ensures body[ValueAt(ts, j)..ValueAt(ts, j) + |v|] == ts[j].value
    ensures Tiles(Revalued(ts, j, v), body[..ValueAt(ts, j)] + v + body[ValueAt(ts, j) + |v|..])
  {
    var us := Revalued(ts, j, v);
    assert forall u :: u in us ==> u in ts || u == us[j];
    assert ts[j] in ts;
    BodySplits(ts, j);
    BodySplits(us, j);
    assert us[..j] == ts[..j] && us[j + 1..] == ts[j + 1..];
    Spliced(body, BodyBytes(ts[..j]), [ts[j].code, ByteOf(|v|)], ts[j].value, v, BodyBytes(ts[j + 1..]));
  }

  lemma Rehung<T>(data: seq<T>, at: nat, v: seq<T>)
    requires 11 <= at && at + |v| <= |data|
    ensures var d := data[..at] + v + data[at + |v|..];
            |d| == |data| && d[..11] == data[..11] && d[11..] == data[11..][..at - 11] + v + data[11..][at - 11 + |v|..]
  {
  }

  /** The image with the value of its j-th TLV replaced by one of the same length. */
  ghost function Corrupted(data: seq<byte>, ts: seq<Tlv>, j: nat, v: seq<byte>): seq<byte>
    requires |data| >= HDR_LEN && Tiles(ts, data[HDR_LEN..]) && j < |ts| && |v| == |ts[j].value|
  {
    RevaluedTiles(ts, j, v, data[HDR_LEN..]);
    var at := HDR_LEN + ValueAt(ts, j);
    data[..at] + v + data[at + |v|..]
  }

  lemma HeaderKept(data: seq<byte>, d: seq<byte>)
    requires HeaderOk(data) && |d| == |data| && d[..HDR_LEN] == data[..HDR_LEN]
    ensures HeaderOk(d)
  {
    assert d[..7] == d[..11][..7] == data[..11][..7] == data[..7];
    assert forall i :: 0 <= i < 11 ==> d[i] == d[..11][i] && data[i] == data[..11][i];
  }

  /** Changing a value that is not a checksum leaves only the checksum comparison to decide. */
  lemma CorruptionUpToCrc(crc32: Checksum, data: seq<byte>, ts: seq<Tlv>, j: nat, v: seq<byte>)
    requires Accepted(crc32, data) && Tiles(ts, data[HDR_LEN..]) && j < |ts| && ts[j].code != CRC_CODE && |v| == |ts[j].value|
    ensures var d := Corrupted(data, ts, j, v);
            |d| == |data| && (Accepted(crc32, d) <==> Sum(crc32, d[..|d| - 4]) == Sum(crc32, data[..|data| - 4]))
  {
    var d := Corrupted(data, ts, j, v);
    RevaluedTiles(ts, j, v, data[HDR_LEN..]);
    RevaluedCrc(ts, j, v);
    Rehung(data, HDR_LEN + ValueAt(ts, j), v);
    AcceptedByTiling(crc32, data, ts);
    HeaderKept(data, d);
    AcceptedByTiling(crc32, d, Revalued(ts, j, v));
  }

  /**
   Corrupting one byte of a value, other than of a checksum, in an accepted image:
   the result is still accepted exactly when the byte is one of the image's last
   four, which the checksum does not cover.
   */
  lemma OneByteCorruption(crc32: Checksum, data: seq<byte>, ts: seq<Tlv>, j: nat, k: nat, b: byte)
    requires SeesBursts(crc32) && Accepted(crc32, data) && Tiles(ts, data[HDR_LEN..]) && j < |ts| && ts[j].code != CRC_CODE
    requires k < |ts[j].value| && b != ts[j].value[k]
    ensures AllFit(ts[..j])
    ensures Accepted(crc32, Corrupted(data, ts, j, ts[j].value[k := b])) <==> HDR_LEN + ValueAt(ts, j) + k >= |data| - 4
  {
    var v := ts[j].value[k := b];
    OneByteInPlace(data, ts, j, k, b);
    CorruptionUpToCrc(crc32, data, ts, j, v);
    OneByteSum(crc32, data, Corrupted(data, ts, j, v), HDR_LEN + ValueAt(ts, j) + k, |data| - 4);
  }

  /** Two sequences that differ in one position. */
  predicate DifferAt<T(==)>(x: seq<T>, y: seq<T>, p: nat) {
    |x| == |y| && p < |x| && x[p] != y[p] && x[..p] == y[..p] && x[p + 1..] == y[p + 1..]
  }

  /** Where the value of the j-th TLV is in the image. */
  lemma ValueInPlace(data: seq<byte>, ts: seq<Tlv>, j: nat)
    requires |data| >= HDR_LEN && Tiles(ts, data[HDR_LEN..]) && j < |ts|
    ensures AllFit(ts[..j])
    ensures var at := HDR_LEN + ValueAt(ts, j); at + |ts[j].value| <= |data| && data[at..at + |ts[j].value|] == ts[j].value
  {
    RevaluedTiles(ts, j, ts[j].value, data[HDR_LEN..]);
    SliceOfSlice(data, HDR_LEN + ValueAt(ts, j), |ts[j].value|);
  }

  lemma OneByteInPlace(data: seq<byte>, ts: seq<Tlv>, j: nat, k: nat, b: byte)
    requires |data| >= HDR_LEN && Tiles(ts, data[HDR_LEN..]) && j < |ts| && k < |ts[j].value| && b != ts[j].value[k]
    ensures AllFit(ts[..j])
    ensures DifferAt(data, Corrupted(data, ts, j, ts[j].value[k := b]), HDR_LEN + ValueAt(ts, j) + k)
  {
    ValueInPlace(data, ts, j);
    OneByteApart(data, HDR_LEN + ValueAt(ts, j), ts[j].value, k, b);
  }

  lemma OneByteApart<T>(data: seq<T>, at: nat, value: seq<T>, k: nat, b: T)
    requires at + |value| <= |data| && data[at..at + |value|] == value && k < |value| && b != value[k]
    ensures DifferAt(data, data[..at] + value[k := b] + data[at + |value|..], at + k)
  {
    assert data[at + k] == data[at..at + |value|][k];
    assert data == data[..at] + value + data[at + |value|..];
  }

  lemma OneByteSum(crc32: Checksum, x: seq<byte>, y: seq<byte>, p: nat, n: nat)
    requires SeesBursts(crc32) && DifferAt(x, y, p) && 4 <= n <= |x|
    ensures Sum(crc32, y[..n]) == Sum(crc32, x[..n]) <==> p >= n
  {
    if p < n {
      OneByteWindow(x, y, p, n);
      assert BurstAt(x[..n], y[..n], Window(p, n));
    } else {
      assert y[..n] == y[..p][..n] && x[..n] == x[..p][..n];
    }
  }

  lemma SliceOfSlice<T>(s: seq<T>, at: nat, n: nat)
    requires 11 <= at && at + n <= |s|
    ensures s[11..][at - 11..at - 11 + n] == s[at..at + n]
  {
  }

  /** Four positions ending by n, around or after w. */
  function Window(w: nat, n: nat): nat
    requires n >= 4
  {
    if w + 4 <= n then w else n - 4
  }

  lemma OneByteWindow<T>(x: seq<T>, y: seq<T>, p: nat, n: nat)
    requires DifferAt(x, y, p) && p < n && 4 <= n <= |x|
    ensures BurstAt(x[..n], y[..n], Window(p, n)) && x[..n] != y[..n]
  {
    assert forall i :: 0 <= i < p ==> x[i] == x[..p][i] && y[i] == y[..p][i];
    assert forall i :: p < i < |x| ==> x[i] == x[p + 1..][i - p - 1] && y[i] == y[p + 1..][i - p - 1];
    assert x[..n][p] != y[..n][p];
  }

  /** With the checksum last, as the format requires, every corruption of up to four bytes in a row of a value is caught. */
  lemma BurstCorruptionCaught(crc32: Checksum, data: seq<byte>, ts: seq<Tlv>, j: nat, v: seq<byte>, w: nat)
    requires SeesBursts(crc32) && Accepted(crc32, data) && Tiles(ts, data[HDR_LEN..]) && j < |ts| && ts[j].code != CRC_CODE
    requires |v| == |ts[j].value| && v != ts[j].value
    requires ts[|ts| - 1].code == CRC_CODE
    requires AllFit(ts[..j]) && BurstAt(data, Corrupted(data, ts, j, v), w)
    ensures !Accepted(crc32, Corrupted(data, ts, j, v))
  {
    AcceptedByTiling(crc32, data, ts);
    BurstChangesSum(crc32, data, ts, j, v, w);
    CorruptionUpToCrc(crc32, data, ts, j, v);
  }

  lemma BurstChangesSum(crc32: Checksum, data: seq<byte>, ts: seq<Tlv>, j: nat, v: seq<byte>, w: nat)
    requires SeesBursts(crc32) && |data| >= MIN_LEN && Tiles(ts, data[HDR_LEN..]) && CrcShapesOk(ts)
    requires j < |ts| - 1 && ts[|ts| - 1].code == CRC_CODE && |v| == |ts[j].value| && v != ts[j].value
    requires AllFit(ts[..j]) && BurstAt(data, Corrupted(data, ts, j, v), w)
    ensures Sum(crc32, Corrupted(data, ts, j, v)[..|data| - 4]) != Sum(crc32, data[..|data| - 4])
  {
    ChangeBeforeSeal(data, ts, j, v);
    BurstSum(crc32, data, Corrupted(data, ts, j, v), w, |data| - 4);
  }

  lemma ChangeBeforeSeal(data: seq<byte>, ts: seq<Tlv>, j: nat, v: seq<byte>)
    requires |data| >= MIN_LEN && Tiles(ts, data[HDR_LEN..]) && CrcShapesOk(ts)
    requires j < |ts| - 1 && ts[|ts| - 1].code == CRC_CODE && |v| == |ts[j].value| && v != ts[j].value
    ensures AllFit(ts[..j])
    ensures var d := Corrupted(data, ts, j, v); |d| == |data| && d[..|data| - 4] != data[..|data| - 4] && d[|data| - 4..] == data[|data| - 4..]
  {
    ValueInPlace(data, ts, j);
    ValueBeforeSeal(ts, j);
    SubstitutionShows(data, HDR_LEN + ValueAt(ts, j), v, ts[j].value, |data| - 4);
  }

  lemma BurstSum(crc32: Checksum, x: seq<byte>, y: seq<byte>, w: nat, n: nat)
    requires SeesBursts(crc32) && BurstAt(x, y, w) && 4 <= n <= |x| && x[n..] == y[n..] && x[..n] != y[..n]
    ensures Sum(crc32, x[..n]) != Sum(crc32, y[..n])
  {
    PrefixBurst(x, y, w, n);
    assert BurstAt(x[..n], y[..n], Window(w, n));
  }

  lemma SubstitutionShows<T>(s: seq<T>, at: nat, v: seq<T>, value: seq<T>, n: nat)
    requires |v| == |value| && at + |v| <= n <= |s| && s[at..at + |v|] == value && v != value
    ensures var d := s[..at] + v + s[at + |v|..]; d[..n] != s[..n] && d[n..] == s[n..]
  {
    var d := s[..at] + v + s[at + |v|..];
    assert d[..n][at..at + |v|] == v;
    assert s[..n][at..at + |v|] == value;
  }

  /** A burst in a text whose end is untouched is a burst in the text without its end. */
  lemma PrefixBurst<T>(x: seq<T>, y: seq<T>, w: nat, n: nat)
    requires BurstAt(x, y, w) && 4 <= n <= |x| && x[n..] == y[n..]
    ensures BurstAt(x[..n], y[..n], Window(w, n))
  {
    assert forall i :: w + 4 <= i < |x| ==> x[i] == x[w + 4..][i - w - 4] && y[i] == y[w + 4..][i - w - 4];
    assert forall i :: n <= i < |x| ==> x[i] == x[n..][i - n] && y[i] == y[n..][i - n];
    assert forall i :: 0 <= i < w ==> x[i] == x[..w][i] && y[i] == y[..w][i];
    assert x[..n][..Window(w, n)] == y[..n][..Window(w, n)];
  }

  lemma ValueBeforeSeal(ts: seq<Tlv>, j: nat)
    requires AllFit(ts) && CrcShapesOk(ts) && j < |ts| - 1 && ts[|ts| - 1].code == CRC_CODE
    ensures AllFit(ts[..j]) && ValueAt(ts, j) + |ts[j].value| + 6 <= |BodyBytes(ts)|
  {
    BodySplits(ts, j);
    var rest := ts[j + 1..];
    assert rest[|rest| - 1] == ts[|ts| - 1] && ts[|ts| - 1] in ts;
    HasRoomForFour(rest, |rest| - 1);
  }

  /** With the IEEE checksum: one changed byte of a value, outside the image's last four bytes, and no other, is caught. */
  lemma IeeeOneByteCorruption(data: seq<byte>, ts: seq<Tlv>, j: nat, k: nat, b: byte)
    requires Accepted(Crc32.Ieee, data) && Tiles(ts, data[HDR_LEN..]) && j < |ts| && ts[j].code != CRC_CODE
    requires k < |ts[j].value| && b != ts[j].value[k]
    ensures AllFit(ts[..j])
    ensures Accepted(Crc32.Ieee, Corrupted(data, ts, j, ts[j].value[k := b])) <==> HDR_LEN + ValueAt(ts, j) + k >= |data| - 4
  {
    IeeeCrcSeesBursts();
    OneByteCorruption(Crc32.Ieee, data, ts, j, k, b);
  }

  // ---------------------------------------------------------------- any byte but a length

  /** Where the j-th TLV starts in the body. */
  ghost function StartOf(ts: seq<Tlv>, j: nat): nat
    requires j <= |ts| && AllFit(ts)
  {
    BodyCut(ts, j);
    |BodyBytes(ts[..j])|
  }

  /** Every byte of a body is in one of its TLVs. */
  lemma {:induction false} Locate(ts: seq<Tlv>, q: nat) returns (j: nat)
    requires AllFit(ts) && q < |BodyBytes(ts)|
    ensures j < |ts| && StartOf(ts, j) <= q < StartOf(ts, j) + 2 + |ts[j].value|
  {
    j := |ts| - 1;
    BodySplits(ts, j);
    if q < StartOf(ts, j) {
      var shorter := ts[..j];
      j := Locate(shorter, q);
      assert shorter[..j] == ts[..j];
    }
  }

  lemma Spliced3<T>(x: seq<T>, y: seq<T>, at: nat, n: nat)
    requires |x| == |y| && at + n <= |x| && x[..at] == y[..at] && x[at + n..] == y[at + n..]
    ensures y == x[..at] + y[at..at + n] + x[at + n..]
  {
  }

  lemma SliceAfter<T>(s: seq<T>, a: seq<T>, m: seq<T>, z: seq<T>)
    requires s == a + m + z
    ensures |a| + |m| <= |s| && s[..|a|] == a && s[|a|..|a| + |m|] == m && s[|a| + |m|..] == z
  {
  }

  /** A body changed within one TLV, but not in its length, tiles with that TLV read anew. */
  lemma PatchedTiles(ts: seq<Tlv>, j: nat, body: seq<byte>, body': seq<byte>)
    requires Tiles(ts, body) && j < |ts| && |body'| == |body|
    requires var at, n := StartOf(ts, j), 2 + |ts[j].value|;
             at + n <= |body| && body'[..at] == body[..at] && body'[at + n..] == body[at + n..] && body'[at + 1] == body[at + 1]
    ensures var at := StartOf(ts, j);
            RoomAt(body', at) && |TlvAt(body', at).value| == |ts[j].value| && Tiles(ts[j := TlvAt(body', at)], body')
  {
    var at, n := StartOf(ts, j), 2 + |ts[j].value|;
    BodySplits(ts, j);
    SliceAfter(body, BodyBytes(ts[..j]), TlvBytes(ts[j]), BodyBytes(ts[j + 1..]));
    assert body[at + 1] == TlvBytes(ts[j])[1];
    TlvBytesAt(body', at);
    var us := ts[j := TlvAt(body', at)];
    assert forall u :: u in us ==> u in ts || u == us[j];
    assert us[..j] == ts[..j] && us[j + 1..] == ts[j + 1..];
    BodySplits(us, j);
    Spliced3(body, body', at, n);
  }

  /** An image whose one CRC comes last, and where in it that CRC starts. */
  ghost predicate Sealed(crc32: Checksum, data: seq<byte>, ts: seq<Tlv>, c: Tlv) {
    Accepted(crc32, data) && Tiles(ts + [c], data[HDR_LEN..]) && NoCrc(ts) && c.code == CRC_CODE
  }

  lemma SealedShape(crc32: Checksum, data: seq<byte>, ts: seq<Tlv>, c: Tlv)
    requires Sealed(crc32, data, ts, c)
    ensures AllFit(ts) && |c.value| == 4 && |data| == HDR_LEN + |BodyBytes(ts)| + 6 && StartOf(ts + [c], |ts|) == |BodyBytes(ts)|
    ensures Be32(c.value) == Sum(crc32, data[..|data| - 4])
  {
    SealedBody(crc32, data, ts, c);
    assert (ts + [c])[..|ts|] == ts;
  }

  /** With one byte of the header changed, other than the seventh, the header is wrong. */
  lemma HeaderByteCaught(data: seq<byte>, d: seq<byte>, p: nat)
    requires HeaderOk(data) && DifferAt(data, d, p) && p < HDR_LEN && p != 7
    ensures !HeaderOk(d)
  {
    if p < 7 {
      assert d[..7][p] != data[..7][p];
    } else if p != 8 && HeaderOk(d) {
      SameByte(data, d, p, if p == 9 then 10 else 9);
    }
  }

  lemma DifferWithin<T>(x: seq<T>, y: seq<T>, p: nat, from: nat)
    requires DifferAt(x, y, p) && from <= p
    ensures DifferAt(x[from..], y[from..], p - from)
  {
    assert x[from..][p - from + 1..] == x[p + 1..] && y[from..][p - from + 1..] == y[p + 1..];
    assert x[from..][..p - from] == x[..p][from..] && y[from..][..p - from] == y[..p][from..];
  }

  lemma SameByte<T>(x: seq<T>, y: seq<T>, p: nat, i: nat)
    requires DifferAt(x, y, p) && i < |x| && i != p
    ensures x[i] == y[i]
  {
    if i < p { assert x[..p][i] == y[..p][i]; } else { assert x[p + 1..][i - p - 1] == y[p + 1..][i - p - 1]; }
  }

  /** The header of an image changed in its body, or in the byte the validator does not look at, still passes. */
  lemma HeaderStays(data: seq<byte>, d: seq<byte>, p: nat)
    requires HeaderOk(data) && DifferAt(data, d, p) && (p == 7 || p >= HDR_LEN)
    ensures HeaderOk(d)
  {
    forall i | 0 <= i < HDR_LEN && i != p ensures data[i] == d[i] { SameByte(data, d, p, i); }
    assert d[..7] == data[..7];
  }

  /** A change the checksum covers, in an image that still tiles with the same CRC at the end. */
  lemma CoveredChangeCaught(crc32: Checksum, data: seq<byte>, ts: seq<Tlv>, c: Tlv, us: seq<Tlv>, d: seq<byte>, p: nat)
    requires SeesBursts(crc32) && Sealed(crc32, data, ts, c) && DifferAt(data, d, p) && p < |data| - 4
    requires HeaderOk(d) && Tiles(us + [c], d[HDR_LEN..])
    ensures !Accepted(crc32, d)
  {
    SealedShape(crc32, data, ts, c);
    AcceptedByTiling(crc32, d, us + [c]);
    if CrcShapesOk(us + [c]) {
      assert forall u :: u in us ==> u in us + [c];
      LastCrcAppend(us, c);
      OneByteSum(crc32, data, d, p, |data| - 4);
    }
  }

  lemma BeforeLast(ts: seq<Tlv>, c: Tlv, j: nat)
    requires AllFit(ts + [c]) && AllFit(ts) && j < |ts|
    ensures StartOf(ts + [c], j) == StartOf(ts, j)
  {
    assert (ts + [c])[..j] == ts[..j];
  }

  lemma UpdateBeforeLast<T>(s: seq<T>, c: T, j: nat, x: T)
    requires j < |s|
    ensures (s + [c])[j := x] == s[j := x] + [c]
  {
  }

  lemma SameAround<T>(x: seq<T>, y: seq<T>, p: nat, at: nat, n: nat)
    requires DifferAt(x, y, p) && at <= p < at + n <= |x|
    ensures y[..at] == x[..at] && y[at + n..] == x[at + n..]
  {
    forall i | 0 <= i < |x| && i != p ensures x[i] == y[i] { SameByte(x, y, p, i); }
  }

  /** A body with one byte of a TLV changed, but not its length, and not in the last TLV, still ends with that one. */
  lemma Retiled(ts: seq<Tlv>, c: Tlv, j: nat, body: seq<byte>, body': seq<byte>, q: nat) returns (us: seq<Tlv>)
    requires Tiles(ts + [c], body) && AllFit(ts) && j < |ts| && DifferAt(body, body', q)
    requires StartOf(ts, j) <= q < StartOf(ts, j) + 2 + |ts[j].value| && q != StartOf(ts, j) + 1
    ensures Tiles(us + [c], body')
  {
    var at, n := StartOf(ts, j), 2 + |ts[j].value|;
    BeforeLast(ts, c, j);
    BodySplits(ts + [c], j);
    SameAround(body, body', q, at, n);
    SameByte(body, body', q, at + 1);
    PatchedTiles(ts + [c], j, body, body');
    us := ts[j := TlvAt(body', at)];
    UpdateBeforeLast(ts, c, j, TlvAt(body', at));
  }

  /** A byte of the type or the value of a TLV other than the CRC. */
  lemma BodyByteCaught(crc32: Checksum, data: seq<byte>, ts: seq<Tlv>, c: Tlv, d: seq<byte>, p: nat)
    requires SeesBursts(crc32) && Sealed(crc32, data, ts, c) && DifferAt(data, d, p)
    requires HDR_LEN <= p && AllFit(ts) && p < HDR_LEN + |BodyBytes(ts)|
    requires forall j :: 0 <= j < |ts| ==> p != HDR_LEN + StartOf(ts, j) + 1
    ensures !Accepted(crc32, d)
  {
    SealedShape(crc32, data, ts, c);
    HeaderStays(data, d, p);
    DifferWithin(data, d, p, HDR_LEN);
    var j := Locate(ts, p - HDR_LEN);
    var us := Retiled(ts, c, j, data[HDR_LEN..], d[HDR_LEN..], p - HDR_LEN);
    CoveredChangeCaught(crc32, data, ts, c, us, d, p);
  }

  /** A body with the last TLV's type or value changed in one byte ends with another TLV of the same size. */
  lemma RetiledCrc(ts: seq<Tlv>, c: Tlv, body: seq<byte>, body': seq<byte>, q: nat) returns (t: Tlv)
    requires Tiles(ts + [c], body) && AllFit(ts) && |c.value| == 4 && DifferAt(body, body', q)
    requires q >= |BodyBytes(ts)| && q != |BodyBytes(ts)| + 1
    ensures |t.value| == 4 && Tiles(ts + [t], body')
  {
    var all, at := ts + [c], |BodyBytes(ts)|;
    assert all[..|ts|] == ts;
    TailBytes(ts, c, body);
    SameAround(body, body', q, at, 6);
    SameByte(body, body', q, at + 1);
    PatchedTiles(all, |ts|, body, body');
    t := TlvAt(body', at);
    assert all[|ts| := t] == ts + [t];
  }

  /** A byte of the CRC itself: its type, its length, or its value. */
  lemma CrcByteCaught(crc32: Checksum, data: seq<byte>, ts: seq<Tlv>, c: Tlv, d: seq<byte>, p: nat)
    requires SeesBursts(crc32) && Sealed(crc32, data, ts, c) && DifferAt(data, d, p)
    requires AllFit(ts) && p >= HDR_LEN + |BodyBytes(ts)|
    ensures !Accepted(crc32, d)
  {
    SealedShape(crc32, data, ts, c);
    HeaderStays(data, d, p);
    var at := |BodyBytes(ts)|;
    DifferWithin(data, d, p, HDR_LEN);
    SameAround(data[HDR_LEN..], d[HDR_LEN..], p - HDR_LEN, at, 6);
    if p == HDR_LEN + at + 1 {
      CrcLengthCaught(crc32, data, ts, c, d, p);
    } else {
      var t := RetiledCrc(ts, c, data[HDR_LEN..], d[HDR_LEN..], p - HDR_LEN);
      ChangedCrcCaught(crc32, data, ts, c, t, d, p);
    }
  }

  /** The last six bytes of a body that ends with a TLV of four. */
  lemma TailBytes(ts: seq<Tlv>, t: Tlv, body: seq<byte>)
    requires Tiles(ts + [t], body) && AllFit(ts) && |t.value| == 4
    ensures var at := |BodyBytes(ts)|;
            |body| == at + 6 && body[..at] == BodyBytes(ts) && body[at] == t.code && body[at + 1] == 4 && body[at + 2..] == t.value
  {
    BytesOfOne(t);
    BodyAppend(ts, [t]);
    SliceAfter(body, BodyBytes(ts), TlvBytes(t), []);
    assert body[|BodyBytes(ts)|..] == TlvBytes(t);
  }

  lemma CrcLengthCaught(crc32: Checksum, data: seq<byte>, ts: seq<Tlv>, c: Tlv, d: seq<byte>, p: nat)
    requires Sealed(crc32, data, ts, c) && DifferAt(data, d, p) && AllFit(ts) && p == HDR_LEN + |BodyBytes(ts)| + 1
    requires HeaderOk(d) && d[HDR_LEN..][..|BodyBytes(ts)|] == data[HDR_LEN..][..|BodyBytes(ts)|]
    ensures !Accepted(crc32, d)
  {
    SealedShape(crc32, data, ts, c);
    TailBytes(ts, c, data[HDR_LEN..]);
    DifferWithin(data, d, p, HDR_LEN);
    LengthMismatch(crc32, d, ts, d[HDR_LEN..], data[HDR_LEN..], p - HDR_LEN - 1);
  }

  lemma LengthMismatch(crc32: Checksum, d: seq<byte>, ts: seq<Tlv>, body': seq<byte>, body: seq<byte>, at: nat)
    requires HeaderOk(d) && body' == d[HDR_LEN..] && AllFit(ts) && at == |BodyBytes(ts)| && |body'| == |body| == at + 6
    requires body[..at] == body'[..at] == BodyBytes(ts) && body[at] == CRC_CODE && body[at + 1] == 4 && DifferAt(body, body', at + 1)
    ensures !Accepted(crc32, d)
  {
    SameByte(body, body', at + 1, at);
    if RoomAt(body', at) { TlvBytesAt(body', at); }
    RejectedWithin(crc32, d, ts, at);
  }

  lemma ChangedCrcCaught(crc32: Checksum, data: seq<byte>, ts: seq<Tlv>, c: Tlv, t: Tlv, d: seq<byte>, p: nat)
    requires SeesBursts(crc32) && Sealed(crc32, data, ts, c) && DifferAt(data, d, p)
    requires AllFit(ts) && p >= HDR_LEN + |BodyBytes(ts)| && |t.value| == 4 && HeaderOk(d) && Tiles(ts + [t], d[HDR_LEN..])
    ensures !Accepted(crc32, d)
  {
    SealedShape(crc32, data, ts, c);
    AcceptedByTiling(crc32, d, ts + [t]);
    NoCrcMeansNone(ts);
    LastCrcAppend(ts, t);
    if t.code == CRC_CODE {
      TailBytes(ts, c, data[HDR_LEN..]);
      TailBytes(ts, t, d[HDR_LEN..]);
      ChangeIsInValue(data, d, p, |BodyBytes(ts)|);
      OneByteSum(crc32, data, d, p, |data| - 4);
      PutBe32Names(t.value);
      PutBe32Names(c.value);
    }
  }

  /** A change behind the last six bytes' type and length is a change of their value. */
  lemma ChangeIsInValue(data: seq<byte>, d: seq<byte>, p: nat, at: nat)
    requires DifferAt(data, d, p) && |data| == HDR_LEN + at + 6 && p >= HDR_LEN + at
    requires data[HDR_LEN..][at] == d[HDR_LEN..][at] && data[HDR_LEN..][at + 1] == d[HDR_LEN..][at + 1]
    ensures p >= |data| - 4 && data[HDR_LEN..][at + 2..] != d[HDR_LEN..][at + 2..]
  {
    if p >= |data| - 4 {
      assert data[HDR_LEN..][at + 2..][p - HDR_LEN - at - 2] == data[p];
      assert d[HDR_LEN..][at + 2..][p - HDR_LEN - at - 2] == d[p];
    }
  }

  /**
   An image whose one CRC comes last: changing any one byte at all, other than the
   length of a TLV before the CRC, makes the validator reject.
   */
  lemma AnyByteCaught(crc32: Checksum, data: seq<byte>, ts: seq<Tlv>, c: Tlv, d: seq<byte>, p: nat)
    requires SeesBursts(crc32) && Sealed(crc32, data, ts, c) && DifferAt(data, d, p) && AllFit(ts)
    requires forall j :: 0 <= j < |ts| ==> p != HDR_LEN + StartOf(ts, j) + 1
    ensures !Accepted(crc32, d)
  {
    SealedShape(crc32, data, ts, c);
    if p == 7 {
      HeaderStays(data, d, p);
      forall i | 0 <= i < |data| && i != p ensures data[i] == d[i] { SameByte(data, d, p, i); }
      assert d[HDR_LEN..] == data[HDR_LEN..];
      CoveredChangeCaught(crc32, data, ts, c, ts, d, p);
    } else if p < HDR_LEN {
      HeaderByteCaught(data, d, p);
    } else if p < HDR_LEN + |BodyBytes(ts)| {
      BodyByteCaught(crc32, data, ts, c, d, p);
    } else {
      CrcByteCaught(crc32, data, ts, c, d, p);
    }
  }

  /** The same, with the CRC-32 of IEEE 802.3 itself. */
  lemma IeeeAnyByteCaught(data: seq<byte>, ts: seq<Tlv>, c: Tlv, d: seq<byte>, p: nat)
    requires Sealed(Crc32.Ieee, data, ts, c) && DifferAt(data, d, p) && AllFit(ts)
    requires forall j :: 0 <= j < |ts| ==> p != HDR_LEN + StartOf(ts, j) + 1
    ensures !Accepted(Crc32.Ieee, d)
  {
    IeeeCrcSeesBursts();
    AnyByteCaught(Crc32.Ieee, data, ts, c, d, p);
  }

  // ---------------------------------------------------------------- lengths

  lemma StartsAscend(ts: seq<Tlv>, j: nat)
    requires AllFit(ts) && j < |ts|
    ensures StartOf(ts, j + 1) == StartOf(ts, j) + 2 + |ts[j].value|
  {
    assert ts[..j + 1][..j] == ts[..j];
    BodySplits(ts[..j + 1], j);
    assert ts[..j + 1][j + 1..] == [];
  }

  lemma {:induction false} LaterStarts(ts: seq<Tlv>, j: nat, m: nat)
    requires AllFit(ts) && j < m <= |ts|
    ensures StartOf(ts, m) >= StartOf(ts, j) + 2
    decreases m
  {
    StartsAscend(ts, m - 1);
    if m - 1 > j { LaterStarts(ts, j, m - 1); }
  }

  /**
   What a changed length does to the tiling: the TLVs before it stay, its own keeps
   its type and takes the new length, and the next one starts accordingly.
   */
  lemma LengthChangeRetiles(ts: seq<Tlv>, body: seq<byte>, us: seq<Tlv>, body': seq<byte>, j: nat)
    requires Tiles(ts, body) && j < |ts| && Tiles(us, body') && DifferAt(body, body', StartOf(ts, j) + 1)
    ensures j < |us| && us[..j] == ts[..j] && us[j].code == ts[j].code
    ensures |us[j].value| == Val(body'[StartOf(ts, j) + 1])
    ensures StartOf(us, j) == StartOf(ts, j) && StartOf(us, j + 1) == StartOf(ts, j) + 2 + Val(body'[StartOf(ts, j) + 1])
  {
    var at := StartOf(ts, j);
    BodySplits(ts, j);
    SliceAfter(body, BodyBytes(ts[..j]), TlvBytes(ts[j]), BodyBytes(ts[j + 1..]));
    SameAround(body, body', at + 1, at, 2);
    SameByte(body, body', at + 1, at);
    NextTlv(ts[..j], us, body', at);
    TlvBytesAt(body', at);
    StartsAscend(us, j);
    assert body[at] == TlvBytes(ts[j])[0];
  }

  /** Two tilings that come to the same position of bodies that are the same from there on go on alike. */
  lemma MeetingTilingsAgree(ts: seq<Tlv>, body: seq<byte>, n: nat, us: seq<Tlv>, body': seq<byte>, m: nat)
    requires Tiles(ts, body) && Tiles(us, body') && n <= |ts| && m <= |us|
    requires StartOf(ts, n) == StartOf(us, m) <= |body| == |body'| && body[StartOf(ts, n)..] == body'[StartOf(ts, n)..]
    ensures ts[n..] == us[m..]
  {
    BodyCut(ts, n);
    BodyCut(us, m);
    RestBytes(ts, n, body, StartOf(ts, n));
    RestBytes(us, m, body', StartOf(us, m));
    TilingUnique(ts[n..], us[m..], body[StartOf(ts, n)..]);
  }

  /** After the j-th TLV no TLV of the one list starts where one of the other does. */
  ghost predicate NeverMeet(us: seq<Tlv>, ts: seq<Tlv>, j: nat)
    requires AllFit(us) && AllFit(ts)
  {
    forall m, n :: j < m < |us| && j < n < |ts| ==> StartOf(us, m) != StartOf(ts, n)
  }

  lemma MeetingIsCaught(crc32: Checksum, data: seq<byte>, ts: seq<Tlv>, c: Tlv, d: seq<byte>, j: nat, us: seq<Tlv>, m: nat, n: nat)
    requires SeesBursts(crc32) && Sealed(crc32, data, ts, c) && AllFit(ts) && j < |ts|
    requires DifferAt(data, d, HDR_LEN + StartOf(ts + [c], j) + 1) && Tiles(us, d[HDR_LEN..])
    requires j < m < |us| && j < n <= |ts| && StartOf(us, m) == StartOf(ts + [c], n)
    ensures !Accepted(crc32, d)
  {
    var all, p := ts + [c], HDR_LEN + StartOf(ts + [c], j) + 1;
    SealedShape(crc32, data, ts, c);
    BeforeLast(ts, c, j);
    StartInBody(ts, j);
    HeaderStays(data, d, p);
    DifferWithin(data, d, p, HDR_LEN);
    LaterStarts(all, j, n);
    StartWithin(all, n);
    SameAfter(data[HDR_LEN..], d[HDR_LEN..], p - HDR_LEN, StartOf(all, n));
    MeetingTilingsAgree(all, data[HDR_LEN..], n, us, d[HDR_LEN..], m);
    assert all[n..][|all| - n - 1] == c;
    assert us == us[..|us| - 1] + [c];
    CoveredChangeCaught(crc32, data, ts, c, us[..|us| - 1], d, p);
  }

  lemma StartWithin(ts: seq<Tlv>, n: nat)
    requires AllFit(ts) && n <= |ts|
    ensures StartOf(ts, n) <= |BodyBytes(ts)|
  {
    BodyCut(ts, n);
  }

  lemma StartInBody(ts: seq<Tlv>, j: nat)
    requires AllFit(ts) && j < |ts|
    ensures StartOf(ts, j) + 2 <= |BodyBytes(ts)|
  {
    BodySplits(ts, j);
  }

  lemma SameAfter<T>(x: seq<T>, y: seq<T>, p: nat, b: nat)
    requires DifferAt(x, y, p) && p < b <= |x|
    ensures x[b..] == y[b..]
  {
    assert x[b..] == x[p + 1..][b - p - 1..] && y[b..] == y[p + 1..][b - p - 1..];
  }

  /** If the result is accepted, the new boundaries never meet the old ones again. */
  lemma AcceptedNeverMeets(crc32: Checksum, data: seq<byte>, ts: seq<Tlv>, c: Tlv, d: seq<byte>, j: nat, us: seq<Tlv>)
    requires SeesBursts(crc32) && Sealed(crc32, data, ts, c) && AllFit(ts) && j < |ts| && AllFit(ts + [c])
    requires DifferAt(data, d, HDR_LEN + StartOf(ts + [c], j) + 1) && Tiles(us, d[HDR_LEN..]) && Accepted(crc32, d)
    ensures NeverMeet(us, ts + [c], j)
  {
    forall m, n | j < m < |us| && j < n <= |ts|
      ensures StartOf(us, m) != StartOf(ts + [c], n)
    {
      if StartOf(us, m) == StartOf(ts + [c], n) { MeetingIsCaught(crc32, data, ts, c, d, j, us, m, n); }
    }
  }

  /** Nor does it end with the CRC it had. */
  lemma AcceptedEndsAnew(crc32: Checksum, data: seq<byte>, ts: seq<Tlv>, c: Tlv, d: seq<byte>, j: nat, us: seq<Tlv>)
    requires SeesBursts(crc32) && Sealed(crc32, data, ts, c) && AllFit(ts) && j < |ts|
    requires DifferAt(data, d, HDR_LEN + StartOf(ts, j) + 1) && Tiles(us, d[HDR_LEN..]) && Accepted(crc32, d)
    ensures us != [] ==> us[|us| - 1] != c
  {
    if us != [] && us[|us| - 1] == c {
      SealedShape(crc32, data, ts, c);
      assert us == us[..|us| - 1] + [c];
      StartInBody(ts, j);
      CoveredChangeCaught(crc32, data, ts, c, us[..|us| - 1], d, HDR_LEN + StartOf(ts, j) + 1);
    }
  }

  /**
   A changed length before the CRC moves later boundaries.  With the body tiling anew,
   the image is still accepted if and only if the new boundaries never meet the old
   ones again, the old CRC's included, and the last CRC that they make out is well
   shaped, like all others, and matches.
   */
  lemma LengthChangeSeenIff(crc32: Checksum, data: seq<byte>, ts: seq<Tlv>, c: Tlv, d: seq<byte>, j: nat, us: seq<Tlv>)
    requires SeesBursts(crc32) && Sealed(crc32, data, ts, c) && AllFit(ts) && j < |ts|
    requires DifferAt(data, d, HDR_LEN + StartOf(ts, j) + 1) && Tiles(us, d[HDR_LEN..])
    ensures AllFit(ts + [c])
    ensures Accepted(crc32, d) <==>
            NeverMeet(us, ts + [c], j) && CrcShapesOk(us) && LastCrc(us) == Some(Sum(crc32, d[..|d| - 4]))
    ensures Accepted(crc32, d) ==> us != [] && us[|us| - 1] != c
  {
    SealedShape(crc32, data, ts, c);
    BeforeLast(ts, c, j);
    HeaderStays(data, d, HDR_LEN + StartOf(ts, j) + 1);
    AcceptedByTiling(crc32, d, us);
    if Accepted(crc32, d) {
      AcceptedNeverMeets(crc32, data, ts, c, d, j, us);
      AcceptedEndsAnew(crc32, data, ts, c, d, j, us);
    }
  }

  // ---------------------------------------------------------------- what does go unseen

  const ZERO: seq<byte> := [0, 0, 0, 0]

  /** The image of a list of TLVs as it stands, sealed or not. */
  function Image(ts: seq<Tlv>): seq<byte>
    requires AllFit(ts) && |BodyBytes(ts)| < 0x1_0000
  {
    HEADER + [0, VERSION] + PutBe16(|BodyBytes(ts)|) + BodyBytes(ts)
  }

  lemma ImageOk(ts: seq<Tlv>)
    requires AllFit(ts) && 6 <= |BodyBytes(ts)| < 0x1_0000
    ensures HeaderOk(Image(ts)) && Image(ts)[HDR_LEN..] == BodyBytes(ts)
  {
    var head := HEADER + [0, VERSION] + PutBe16(|BodyBytes(ts)|);
    assert Image(ts)[..HDR_LEN] == head;
    assert forall i :: 0 <= i < HDR_LEN ==> Image(ts)[i] == head[i];
    assert Image(ts)[..7] == HEADER;
  }

  lemma SumZero(crc32: Checksum, x: seq<byte>)
    requires crc32(x) == 0
    ensures Sum(crc32, x) == 0
  {
  }

  lemma BodyOfTwo(a: Tlv, b: Tlv)
    requires |a.value| < 256 && |b.value| < 256
    ensures AllFit([a, b]) && BodyBytes([a, b]) == TlvBytes(a) + TlvBytes(b)
  {
    BytesOfOne(a);
    BytesOfOne(b);
    assert [a, b] == [a] + [b];
    BodyAppend([a], [b]);
  }

  /** A CRC in front of one other TLV is the last one. */
  lemma CrcBeforeLast(ts: seq<Tlv>, c: Tlv, t: Tlv)
    requires NoCrc(ts) && c.code == CRC_CODE && |c.value| == 4 && t.code != CRC_CODE
    ensures CrcShapesOk(ts + [c] + [t]) && LastCrc(ts + [c] + [t]) == Some(Be32(c.value))
  {
    LastCrcAppend(ts, c);
    LastCrcAppend(ts + [c], t);
  }

  /** An image of two TLVs, the CRC first, is accepted if everything but the last four bytes has that checksum. */
  lemma CrcFirstAccepted(crc32: Checksum, c: Tlv, t: Tlv)
    requires c.code == CRC_CODE && |c.value| == 4 && t.code != CRC_CODE && 4 <= |t.value| < 256
    requires AllFit([c, t]) && |BodyBytes([c, t])| == 8 + |t.value|
    requires var data := Image([c, t]); Sum(crc32, data[..|data| - 4]) == Be32(c.value)
    ensures Accepted(crc32, Image([c, t])) && Tiles([c, t], Image([c, t])[HDR_LEN..])
  {
    ImageOk([c, t]);
    CrcBeforeLast([], c, t);
    assert [] + [c] + [t] == [c, t];
    AcceptedByTiling(crc32, Image([c, t]), [c, t]);
  }

  const UNCOVERED_HEAD: seq<byte> := HEADER + [0, VERSION] + PutBe16(16) + [CRC_CODE, 4] + ZERO + [0x21, 8]

  function Uncovered(s: seq<byte>): seq<Tlv> {
    [Tlv(CRC_CODE, ZERO), Tlv(0x21, s + ZERO)]
  }

  lemma UncoveredTiled(s: seq<byte>)
    requires |s| == 4
    ensures var ts := Uncovered(s);
            AllFit(ts) && |BodyBytes(ts)| == 16 && Image(ts) == UNCOVERED_HEAD + s + ZERO
  {
    BodyOfTwo(Tlv(CRC_CODE, ZERO), Tlv(0x21, s + ZERO));
  }

  /** The image of a CRC of value 0 and then a TLV of type 0x21 and value s and four zeros. */
  lemma UncoveredAccepted(crc32: Checksum, s: seq<byte>)
    requires |s| == 4 && crc32(UNCOVERED_HEAD + s) == 0
    ensures var ts := Uncovered(s);
            AllFit(ts) && |BodyBytes(ts)| == 16 && Accepted(crc32, Image(ts)) && Tiles(ts, Image(ts)[HDR_LEN..])
  {
    var c, t := Tlv(CRC_CODE, ZERO), Tlv(0x21, s + ZERO);
    UncoveredTiled(s);
    assert (UNCOVERED_HEAD + s + ZERO)[..|UNCOVERED_HEAD + s|] == UNCOVERED_HEAD + s;
    SumZero(crc32, UNCOVERED_HEAD + s);
    ZeroIsZero();
    CrcFirstAccepted(crc32, c, t);
  }

  lemma ZeroIsZero()
    ensures Be32(ZERO) == 0
  {
  }

  /** Where an accepted image ends with a TLV that is no checksum, its last four bytes can become anything. */
  lemma LastFourUnseen(crc32: Checksum, data: seq<byte>, ts: seq<Tlv>, k: nat, b: byte)
    requires SeesBursts(crc32) && Accepted(crc32, data) && Tiles(ts, data[HDR_LEN..]) && ts != []
    requires var t := ts[|ts| - 1]; t.code != CRC_CODE && |t.value| >= 4 && k < 4 && b != t.value[|t.value| - 4 + k]
    ensures var t := ts[|ts| - 1]; Accepted(crc32, Corrupted(data, ts, |ts| - 1, t.value[|t.value| - 4 + k := b]))
  {
    var j := |ts| - 1;
    BodySplits(ts, j);
    OneByteCorruption(crc32, data, ts, j, |ts[j].value| - 4 + k, b);
  }

  lemma UncoveredUnseen(crc32: Checksum, s: seq<byte>, k: nat, b: byte)
    requires SeesBursts(crc32) && |s| == 4 && crc32(UNCOVERED_HEAD + s) == 0 && k < 4 && b != 0
    ensures AllFit(Uncovered(s)) && |BodyBytes(Uncovered(s))| == 16
    ensures var data := Image(Uncovered(s));
      && Accepted(crc32, data) && |data| == 27 && Tiles(Uncovered(s), data[HDR_LEN..])
      && Accepted(crc32, Corrupted(data, Uncovered(s), 1, (s + ZERO)[4 + k := b]))
  {
    UncoveredAccepted(crc32, s);
    LastFourUnseen(crc32, Image(Uncovered(s)), Uncovered(s), k, b);
  }

  /**
   The unseen change is real: an image of 27 bytes, accepted with the CRC-32 of IEEE
   802.3, whose CRC is not last, and which stays accepted when one of its last four
   bytes, no matter which, becomes anything else.
   */
  lemma UnseenChangeHappens(k: nat, b: byte) returns (data: seq<byte>, ts: seq<Tlv>)
    requires k < 4 && b != 0
    ensures Accepted(Crc32.Ieee, data) && Tiles(ts, data[HDR_LEN..]) && |ts| == 2 && |data| == 27
    ensures ts[1].code != CRC_CODE && |ts[1].value| == 8 && ts[1].value[4..] == ZERO
    ensures Accepted(Crc32.Ieee, Corrupted(data, ts, 1, ts[1].value[4 + k := b]))
  {
    var s := Crc32.IeeeReachesZero(UNCOVERED_HEAD, []);
    assert UNCOVERED_HEAD + s + [] == UNCOVERED_HEAD + s;
    IeeeCrcSeesBursts();
    UncoveredUnseen(Crc32.Ieee, s, k, b);
    ts := Uncovered(s);
    data := Image(ts);
  }

  // ---------------------------------------------------------------- a length among them

  const INNER: seq<byte> := [0xFE, 4, 0, 0, 0, 0, 0x23, 6]

  /** Four TLVs, the second to last a CRC of value 0, end with that as their last CRC. */
  lemma LastOfFour(b: Tlv, e: Tlv, c: Tlv, f: Tlv)
    requires b.code != CRC_CODE && e.code != CRC_CODE && f.code != CRC_CODE && c == Tlv(CRC_CODE, ZERO)
    ensures CrcShapesOk([b, e, c, f]) && LastCrc([b, e, c, f]) == Some(0)
  {
    CrcBeforeLast([b, e], c, f);
    assert [b, e] + [c] + [f] == [b, e, c, f];
    ZeroIsZero();
  }

  lemma BodyOfFour(b: Tlv, e: Tlv, c: Tlv, f: Tlv)
    requires |b.value| < 256 && |e.value| < 256 && |c.value| < 256 && |f.value| < 256
    ensures AllFit([b, e, c, f]) && BodyBytes([b, e, c, f]) == TlvBytes(b) + TlvBytes(e) + TlvBytes(c) + TlvBytes(f)
  {
    BodyOfTwo(b, e);
    BodyOfTwo(c, f);
    assert [b, e, c, f] == [b, e] + [c, f];
    BodyAppend([b, e], [c, f]);
    assert TlvBytes(b) + TlvBytes(e) + (TlvBytes(c) + TlvBytes(f)) == TlvBytes(b) + TlvBytes(e) + TlvBytes(c) + TlvBytes(f);
  }

  /** The image [0x22: s], [0x21: INNER] with its seal, and the same with the second length set to 0. */
  function Nested(s: seq<byte>, length: byte, seal: seq<byte>): seq<byte>
    requires |s| == |seal| == 4
  {
    HEADER + [0, VERSION] + PutBe16(22) + [0x22, 4] + s + [0x21, length] + INNER + [CRC_CODE, 4] + seal
  }

  lemma NestedSealed(s: seq<byte>, seal: seq<byte>)
    requires |s| == |seal| == 4
    ensures var ts := [Tlv(0x22, s), Tlv(0x21, INNER)];
            Printable(ts) && |BodyBytes(ts)| == 16 && Unsealed(ts) + seal == Nested(s, 8, seal)
  {
    BodyOfTwo(Tlv(0x22, s), Tlv(0x21, INNER));
  }

  lemma NestedRetiled(s: seq<byte>, seal: seq<byte>)
    requires |s| == |seal| == 4
    ensures var us := [Tlv(0x22, s), Tlv(0x21, []), Tlv(CRC_CODE, ZERO), Tlv(0x23, [CRC_CODE, 4] + seal)];
            AllFit(us) && |BodyBytes(us)| == 22 && Image(us) == Nested(s, 0, seal)
  {
    BodyOfFour(Tlv(0x22, s), Tlv(0x21, []), Tlv(CRC_CODE, ZERO), Tlv(0x23, [CRC_CODE, 4] + seal));
  }

  lemma NestedDiffer(s: seq<byte>, seal: seq<byte>)
    requires |s| == |seal| == 4
    ensures DifferAt(Nested(s, 8, seal), Nested(s, 0, seal), 18)
  {
    var a := HEADER + [0, VERSION] + PutBe16(22) + [0x22, 4] + s + [0x21];
    var z := INNER + [CRC_CODE, 4] + seal;
    assert Nested(s, 8, seal) == a + [8] + z && Nested(s, 0, seal) == a + [0] + z;
  }

  const NESTED_HEAD: seq<byte> := HEADER + [0, VERSION] + PutBe16(22) + [0x22, 4]
  const NESTED_TAIL: seq<byte> := [0x21, 0] + INNER + [CRC_CODE, 4]

  lemma NestedAccepted(crc32: Checksum, s: seq<byte>, seal: seq<byte>)
    requires |s| == |seal| == 4
    requires crc32(NESTED_HEAD + s + NESTED_TAIL) == 0
    ensures Accepted(crc32, Nested(s, 0, seal))
  {
    var us := [Tlv(0x22, s), Tlv(0x21, []), Tlv(CRC_CODE, ZERO), Tlv(0x23, [CRC_CODE, 4] + seal)];
    var d := Nested(s, 0, seal);
    NestedRetiled(s, seal);
    ImageOk(us);
    LastOfFour(us[0], us[1], us[2], us[3]);
    assert d[..|d| - 4] == NESTED_HEAD + s + NESTED_TAIL;
    SumZero(crc32, d[..|d| - 4]);
    AcceptedByTiling(crc32, d, us);
  }

  /** Its sound counterpart, with the second length as it was, is the print of two TLVs. */
  lemma NestedOriginal(crc32: Checksum, s: seq<byte>) returns (seal: seq<byte>)
    requires |s| == 4
    ensures |seal| == 4
    ensures var ts := [Tlv(0x22, s), Tlv(0x21, INNER)];
            AllFit(ts) && StartOf(ts, 1) == 6 && Sealed(crc32, Nested(s, 8, seal), ts, Tlv(CRC_CODE, seal))
  {
    var ts := [Tlv(0x22, s), Tlv(0x21, INNER)];
    NestedSealed(s, ZERO);
    EncodeIsAccepted(crc32, ts);
    EncodedTiles(crc32, ts);
    seal := CrcTlv(crc32, ts).value;
    NestedSealed(s, seal);
    assert ts[..1] == [ts[0]];
    BytesOfOne(ts[0]);
  }

  /**
   The unseen length is real too: an accepted image with its one CRC last that stays
   accepted, with the CRC-32 of IEEE 802.3, when one length is set to zero.
   */
  lemma UnseenLengthHappens() returns (data: seq<byte>, ts: seq<Tlv>, c: Tlv, d: seq<byte>, j: nat)
    ensures Sealed(Crc32.Ieee, data, ts, c) && AllFit(ts) && j < |ts|
    ensures DifferAt(data, d, HDR_LEN + StartOf(ts, j) + 1) && d[HDR_LEN + StartOf(ts, j) + 1] == 0
    ensures Accepted(Crc32.Ieee, d)
  {
    var s := Crc32.IeeeReachesZero(NESTED_HEAD, NESTED_TAIL);
    var seal := NestedOriginal(Crc32.Ieee, s);
    ts, c, j := [Tlv(0x22, s), Tlv(0x21, INNER)], Tlv(CRC_CODE, seal), 1;
    data, d := Nested(s, 8, seal), Nested(s, 0, seal);
    NestedDiffer(s, seal);
    NestedAccepted(Crc32.Ieee, s, seal);
  }
}
