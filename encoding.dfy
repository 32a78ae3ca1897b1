/** Byte-level formats between the host and the kernel: the 41-byte lane
    record of the results buffer (flag, big-endian u64 nonce, 32-byte event
    id), the lower-case hex rendering of an event id, and the split of the
    base nonce into two 32-bit kernel arguments. */
module Encoding {

  type Byte = b: int | 0 <= b < 256

  const TWO32: nat := 0x1_0000_0000
  const TWO64: nat := 0x1_0000_0000_0000_0000

  type U32 = x: int | 0 <= x < 0x1_0000_0000
  type U64 = x: int | 0 <= x < 0x1_0000_0000_0000_0000

  /** A SHA-256 digest, the raw form of a Nostr event id. */
  type Digest = s: seq<Byte> | |s| == 32 witness seq(32, _ => 0)

  // ---------------------------------------------------------------------
  // Big-endian integers (`binary.BigEndian.Uint64`)
  // ---------------------------------------------------------------------

  function Pow256(k: nat): (r: nat)
    ensures r >= 1
  {
    if k == 0 then 1 else 256 * Pow256(k - 1)
  }

  lemma Pow256Of8()
    ensures Pow256(8) == TWO64
  {
  }

  /** The value of a byte string read most significant byte first. */
  function BigEndian(b: seq<Byte>): (n: nat)
    ensures n < Pow256(|b|)
  {
    if b == [] then 0 else BigEndian(b[..|b| - 1]) * 256 + b[|b| - 1]
  }

  /** The k-byte big-endian form of n (its k low-order bytes). */
  function ToBigEndian(n: nat, k: nat): (b: seq<Byte>)
    ensures |b| == k
  {
    if k == 0 then [] else ToBigEndian(n / 256, k - 1) + [n % 256]
  }

  lemma {:induction false} BigEndianOfToBigEndian(n: nat, k: nat)
    requires n < Pow256(k)
    ensures BigEndian(ToBigEndian(n, k)) == n
  {
    if k > 0 {
      var q, r := n / 256, n % 256;
      var b := ToBigEndian(n, k);
      assert n == q * 256 + r;
      assert q < Pow256(k - 1) by {
        assert Pow256(k) == 256 * Pow256(k - 1);
      }
      assert b == ToBigEndian(q, k - 1) + [r];
      assert b[..k - 1] == ToBigEndian(q, k - 1);
      BigEndianOfToBigEndian(q, k - 1);
      assert BigEndian(b) == BigEndian(b[..k - 1]) * 256 + r;
    }
  }

  lemma {:induction false} ToBigEndianOfBigEndian(b: seq<Byte>)
    ensures ToBigEndian(BigEndian(b), |b|) == b
  {
    if b != [] {
      var p := b[..|b| - 1];
      ToBigEndianOfBigEndian(p);
      assert (BigEndian(p) * 256 + b[|b| - 1]) / 256 == BigEndian(p);
      assert b == p + [b[|b| - 1]];
    }
  }

  // ---------------------------------------------------------------------
  // Lane records of the results buffer (main.go:839-841, 997-1003)
  // ---------------------------------------------------------------------

  const RecordSize: nat := 41

  /** What one lane reports: flag 1 means "candidate found". */
  datatype LaneRecord = LaneRecord(flag: Byte, nonce: U64, id: Digest)

  /** Lane record layout: flag at byte 0, nonce big-endian at 1..9, id at 9..41. */
  function EncodeRecord(r: LaneRecord): (b: seq<Byte>)
    ensures |b| == RecordSize
  {
    [r.flag] + ToBigEndian(r.nonce, 8) + r.id
  }

  /** The host's reading of one 41-byte record. */
  function DecodeRecord(b: seq<Byte>): LaneRecord
    requires |b| == RecordSize
  {
    Pow256Of8();
    LaneRecord(b[0], BigEndian(b[1..9]), b[9..41])
  }

  lemma RecordRoundTrip(r: LaneRecord)
    ensures DecodeRecord(EncodeRecord(r)) == r
  {
    var b := EncodeRecord(r);
    Pow256Of8();
    assert b[1..9] == ToBigEndian(r.nonce, 8);
    BigEndianOfToBigEndian(r.nonce, 8);
    assert b[9..41] == r.id;
  }

  lemma BytesRoundTrip(b: seq<Byte>)
    requires |b| == RecordSize
    ensures EncodeRecord(DecodeRecord(b)) == b
  {
    ToBigEndianOfBigEndian(b[1..9]);
    assert b == [b[0]] + b[1..9] + b[9..41];
  }

  /** The results buffer: the records of lanes 0, 1, ... back to back. */
  function Records(rs: seq<LaneRecord>): seq<Byte>
  {
    if rs == [] then [] else Records(rs[..|rs| - 1]) + EncodeRecord(rs[|rs| - 1])
  }

  /** Lane i's record occupies bytes [41i, 41i + 41) of the buffer. */
  lemma {:induction false} RecordsLayout(rs: seq<LaneRecord>, i: nat)
    requires i < |rs|
    ensures |Records(rs)| == RecordSize * |rs|
    ensures Records(rs)[RecordSize * i .. RecordSize * i + RecordSize] == EncodeRecord(rs[i])
  {
    RecordsLength(rs);
    var p := rs[..|rs| - 1];
    RecordsLength(p);
    if i < |rs| - 1 {
      RecordsLayout(p, i);
      assert Records(rs)[RecordSize * i .. RecordSize * i + RecordSize]
          == Records(p)[RecordSize * i .. RecordSize * i + RecordSize];
      assert p[i] == rs[i];
    }
  }

  lemma {:induction false} RecordsLength(rs: seq<LaneRecord>)
    ensures |Records(rs)| == RecordSize * |rs|
  {
    if rs != [] {
      RecordsLength(rs[..|rs| - 1]);
    }
  }

  // ---------------------------------------------------------------------
  // Lower-case hex (`fmt.Sprintf("%02x", b)` per byte, main.go:61-64)
  // ---------------------------------------------------------------------

  /** The lower-case hex digit of a value below 16. */
  function HexDigit(d: nat): char
    requires d < 16
  {
    if d < 10 then ('0' as int + d) as char else ('a' as int + d - 10) as char
  }

  function HexByte(b: Byte): string
  {
    [HexDigit(b / 16), HexDigit(b % 16)]
  }

  /** The hex rendering of a byte string, two characters per byte. */
  function Hex(bs: seq<Byte>): string
  {
    if bs == [] then "" else Hex(bs[..|bs| - 1]) + HexByte(bs[|bs| - 1])
  }

  predicate IsHexChar(c: char)
  {
    '0' <= c <= '9' || 'a' <= c <= 'f'
  }

  predicate IsLowerHex(s: string)
  {
    forall i :: 0 <= i < |s| ==> IsHexChar(s[i])
  }

  function HexValue(c: char): (v: nat)
    requires IsHexChar(c)
    ensures v < 16 && HexDigit(v) == c
  {
    if '0' <= c <= '9' then c as int - '0' as int else c as int - 'a' as int + 10
  }

  lemma HexDigitValue(d: nat)
    requires d < 16
    ensures IsHexChar(HexDigit(d)) && HexValue(HexDigit(d)) == d
  {
  }

  /** The hex text is lower case, two characters per byte. */
  lemma {:induction false} HexShape(bs: seq<Byte>)
    ensures |Hex(bs)| == 2 * |bs|
    ensures IsLowerHex(Hex(bs))
  {
    if bs != [] {
      var p := bs[..|bs| - 1];
      var b := bs[|bs| - 1];
      HexShape(p);
      HexDigitValue(b / 16);
      HexDigitValue(b % 16);
      var s := Hex(p) + HexByte(b);
      forall i | 0 <= i < |s| ensures IsHexChar(s[i]) {
        if i < |Hex(p)| { assert s[i] == Hex(p)[i]; }
      }
    }
  }

  /** A byte is recovered from its two hex digits. */
  lemma HexByteInjective(a: Byte, b: Byte)
    requires HexByte(a) == HexByte(b)
    ensures a == b
  {
    HexDigitValue(a / 16);
    HexDigitValue(a % 16);
    HexDigitValue(b / 16);
    HexDigitValue(b % 16);
    assert HexByte(a)[0] == HexByte(b)[0] && HexByte(a)[1] == HexByte(b)[1];
  }

  /** Distinct byte strings have distinct hex renderings, so comparing ids
      as hex text is comparing the ids. */
  lemma {:induction false} HexInjective(a: seq<Byte>, b: seq<Byte>)
    requires Hex(a) == Hex(b)
    ensures a == b
  {
    HexShape(a);
    HexShape(b);
    if a != [] {
      var pa, pb := a[..|a| - 1], b[..|b| - 1];
      var ha, hb := Hex(pa), Hex(pb);
      HexShape(pa);
      HexShape(pb);
      assert Hex(a) == ha + HexByte(a[|a| - 1]);
      assert Hex(b) == hb + HexByte(b[|b| - 1]);
      assert Hex(a)[..|ha|] == ha && Hex(b)[..|hb|] == hb;
      assert Hex(a)[|ha|..] == HexByte(a[|a| - 1]) && Hex(b)[|hb|..] == HexByte(b[|b| - 1]);
      HexInjective(pa, pb);
      HexByteInjective(a[|a| - 1], b[|b| - 1]);
      assert a == pa + [a[|a| - 1]] && b == pb + [b[|b| - 1]];
    }
  }

  /** The hex loop of validateNonce and of the final output. */
  method HexEncode(bs: seq<Byte>) returns (s: string)
    ensures s == Hex(bs)
  {
    s := "";
    for i := 0 to |bs|
      invariant s == Hex(bs[..i])
    {
      assert bs[..i + 1][..i] == bs[..i];
      s := s + HexByte(bs[i]);
    }
    assert bs[..|bs|] == bs;
  }

  // ---------------------------------------------------------------------
  // Base nonce as two 32-bit kernel arguments (main.go:954-955)
  // ---------------------------------------------------------------------

  /** `uint32(n & 0xFFFFFFFF)` and `uint32((n >> 32) & 0xFFFFFFFF)` for
      n >= 0: the low and the high 32-bit words. */
  function SplitNonce(n: nat): (U32, U32)
  {
    (n % TWO32, (n / TWO32) % TWO32)
  }

  /** The inverse of SplitNonce: (high << 32) | low. */
  function JoinNonce(low: U32, high: U32): U64
  {
    high * TWO32 + low
  }

  /** Splitting a 64-bit nonce and joining the halves gives it back; a
      joined pair splits back into the same halves. */
  lemma SplitJoin(n: nat, low: U32, high: U32)
    ensures n < TWO64 ==> JoinNonce(SplitNonce(n).0, SplitNonce(n).1) == n
    ensures SplitNonce(JoinNonce(low, high)) == (low, high)
  {
    if n < TWO64 {
      assert n / TWO32 < TWO32;
    }
    var j := high * TWO32 + low;
    assert j / TWO32 == high;
  }
}
