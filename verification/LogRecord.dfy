/** Records of the kernel log as bytes: a 16-byte header, the text, the dictionary, and padding to four bytes. */
module LogRecord {

  type Byte = b: int | 0 <= b < 256

  const HEADER := 16
  const LOG_ALIGN := 4

  /** n in k bytes, low byte first. */
  function LittleEndian(n: nat, k: nat): (s: seq<Byte>)
    ensures |s| == k
  {
    if k == 0 then [] else [n % 256] + LittleEndian(n / 256, k - 1)
  }

  function FromLittleEndian(s: seq<Byte>): nat
  {
    if s == [] then 0 else s[0] + 256 * FromLittleEndian(s[1..])
  }

  function Range(k: nat): nat { if k == 0 then 1 else 256 * Range(k - 1) }

  lemma {:induction false} LittleEndianRoundTrip(n: nat, k: nat)
    requires n < Range(k)
    ensures FromLittleEndian(LittleEndian(n, k)) == n
  {
    if k > 0 {
      LittleEndianRoundTrip(n / 256, k - 1);
      assert LittleEndian(n, k)[1..] == LittleEndian(n / 256, k - 1);
    }
  }

  datatype Record = Record(ts: nat, facility: Byte, flags: nat, level: nat, text: seq<Byte>, dict: seq<Byte>)

  function Unpadded(r: Record): nat { HEADER + |r.text| + |r.dict| }

  /** The bytes that round a size up to the alignment: -size in the low bits. */
  function PadLength(size: nat): nat { (LOG_ALIGN - size % LOG_ALIGN) % LOG_ALIGN }

  function Size(r: Record): nat { Unpadded(r) + PadLength(Unpadded(r)) }

  /** Every field fits its place in the header. */
  ghost predicate Fits(r: Record)
  {
    r.ts < Range(8) && r.flags < 32 && r.level < 8 && Size(r) < 0x10000
  }

  function Zeros(n: nat): (s: seq<Byte>)
    ensures |s| == n && forall i :: 0 <= i < n ==> s[i] == 0
  {
    if n == 0 then [] else [0] + Zeros(n - 1)
  }

  /** Flags in the low five bits, level in the high three. */
  function FlagByte(flags: nat, level: nat): Byte
    requires flags < 32 && level < 8
  {
    level * 32 + flags
  }

  function Header(r: Record): (s: seq<Byte>)
    requires r.flags < 32 && r.level < 8
    ensures |s| == HEADER
  {
    LittleEndian(r.ts, 8) + LittleEndian(Size(r), 2) + LittleEndian(|r.text|, 2) + LittleEndian(|r.dict|, 2)
    + [r.facility] + [FlagByte(r.flags, r.level)]
  }

  function Encode(r: Record): (s: seq<Byte>)
    requires r.flags < 32 && r.level < 8
    ensures |s| == Size(r)
  {
    Header(r) + r.text + r.dict + Zeros(PadLength(Unpadded(r)))
  }

  // --- reading ---------------------------------------------------------------------------------------

  function LengthAt(buf: seq<Byte>, at: nat): nat
    requires at + HEADER <= |buf|
  {
    FromLittleEndian(buf[at + 8..at + 10])
  }

  function TextLengthAt(buf: seq<Byte>, at: nat): nat
    requires at + HEADER <= |buf|
  {
    FromLittleEndian(buf[at + 10..at + 12])
  }

  function DictLengthAt(buf: seq<Byte>, at: nat): nat
    requires at + HEADER <= |buf|
  {
    FromLittleEndian(buf[at + 12..at + 14])
  }

  /** The record at an address, if its parts lie inside the buffer. */
  predicate Readable(buf: seq<Byte>, at: nat)
  {
    at + HEADER <= |buf| && at + HEADER + TextLengthAt(buf, at) + DictLengthAt(buf, at) <= |buf|
  }

  function RecordAt(buf: seq<Byte>, at: nat): Record
    requires Readable(buf, at)
  {
    var text := at + HEADER;
    var dict := text + TextLengthAt(buf, at);
    Record(FromLittleEndian(buf[at..at + 8]), buf[at + 14], buf[at + 15] % 32, buf[at + 15] / 32,
           buf[text..dict], buf[dict..dict + DictLengthAt(buf, at)])
  }

  ghost predicate Holds(buf: seq<Byte>, at: nat, r: Record)
  {
    Fits(r) && at + Size(r) <= |buf| && buf[at..at + Size(r)] == Encode(r)
  }

  lemma RangeOfTwo()
    ensures Range(2) == 0x10000
  {
    assert Range(1) == 256;
  }

  lemma SliceOfSlice<T>(s: seq<T>, at: nat, len: nat, i: nat, j: nat)
    requires i <= j <= len && at + len <= |s|
    ensures s[at..at + len][i..j] == s[at + i..at + j]
  {
    var part := s[at..at + len];
    forall k | 0 <= k < j - i
      ensures part[i..j][k] == s[at + i..at + j][k]
    {
      assert part[i..j][k] == part[i + k];
    }
    assert part[i..j] == s[at + i..at + j];
  }

  lemma HeaderParts(r: Record)
    requires r.flags < 32 && r.level < 8
    ensures Header(r)[0..8] == LittleEndian(r.ts, 8) && Header(r)[8..10] == LittleEndian(Size(r), 2)
    ensures Header(r)[10..12] == LittleEndian(|r.text|, 2) && Header(r)[12..14] == LittleEndian(|r.dict|, 2)
    ensures Header(r)[14] == r.facility && Header(r)[15] == FlagByte(r.flags, r.level)
  {
  }

  lemma EncodeParts(r: Record)
    requires r.flags < 32 && r.level < 8
    ensures Encode(r)[..HEADER] == Header(r)
    ensures Encode(r)[HEADER..HEADER + |r.text|] == r.text
    ensures Encode(r)[HEADER + |r.text|..Unpadded(r)] == r.dict
  {
  }

  lemma HeaderHeld(buf: seq<Byte>, at: nat, r: Record)
    requires Holds(buf, at, r)
    ensures buf[at..at + HEADER] == Header(r)
  {
    EncodeParts(r);
    SliceOfSlice(buf, at, Size(r), 0, HEADER);
  }

  lemma LengthsHeld(buf: seq<Byte>, at: nat, r: Record)
    requires Holds(buf, at, r)
    ensures LengthAt(buf, at) == Size(r) && TextLengthAt(buf, at) == |r.text| && DictLengthAt(buf, at) == |r.dict|
  {
    HeaderHeld(buf, at, r);
    HeaderParts(r);
    RangeOfTwo();
    SliceOfSlice(buf, at, HEADER, 8, 10);
    SliceOfSlice(buf, at, HEADER, 10, 12);
    SliceOfSlice(buf, at, HEADER, 12, 14);
    LittleEndianRoundTrip(Size(r), 2);
    LittleEndianRoundTrip(|r.text|, 2);
    LittleEndianRoundTrip(|r.dict|, 2);
  }

  lemma BodyHeld(buf: seq<Byte>, at: nat, r: Record)
    requires Holds(buf, at, r)
    ensures buf[at + HEADER..at + HEADER + |r.text|] == r.text
    ensures buf[at + HEADER + |r.text|..at + Unpadded(r)] == r.dict
  {
    EncodeParts(r);
    SliceOfSlice(buf, at, Size(r), HEADER, HEADER + |r.text|);
    SliceOfSlice(buf, at, Size(r), HEADER + |r.text|, Unpadded(r));
  }

  lemma FixedHeld(buf: seq<Byte>, at: nat, r: Record)
    requires Holds(buf, at, r)
    ensures FromLittleEndian(buf[at..at + 8]) == r.ts
    ensures buf[at + 14] == r.facility && buf[at + 15] == FlagByte(r.flags, r.level)
  {
    HeaderHeld(buf, at, r);
    HeaderParts(r);
    SliceOfSlice(buf, at, HEADER, 0, 8);
    LittleEndianRoundTrip(r.ts, 8);
    assert buf[at..at + HEADER][14] == buf[at + 14];
    assert buf[at..at + HEADER][15] == buf[at + 15];
  }

  /** Reading back what was stored gives the record. */
  lemma ReadBack(buf: seq<Byte>, at: nat, r: Record)
    requires Holds(buf, at, r)
    ensures Readable(buf, at) && RecordAt(buf, at) == r && LengthAt(buf, at) == Size(r)
  {
    LengthsHeld(buf, at, r);
    BodyHeld(buf, at, r);
    FixedHeld(buf, at, r);
  }
}
