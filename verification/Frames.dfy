/** Frames of the serial protocol: printing into a buffer, and parsing with a checksum taken over
    the frame as it would be printed again. */
module Frames {
  import opened Crc
  import opened CrcDetection
  import opened CrcDistance

  const HEADER: seq<bv8> := [0xEB, 0x90, 0xEB, 0x90]

  const CONTROL: bv16 := 1
  const REQUEST_DATA: bv16 := 3
  const TRANSPORT_DATA: bv16 := 5

  const SHORT_SIZE: nat := 16
  const DATA_SIZE: nat := 530
  const DATA_LEN_MAX: nat := 512

  function Size(n: bv16): nat {
    n as nat
  }

  /** `id` is the union of the command number of a control frame and the file number of any other.
      Only data frames carry a payload; `data` holds its `dataLen` meaningful bytes. */
  datatype Frame =
    | Short(header: seq<bv8>, address: bv16, frameType: bv16, id: bv32, nFrame: bv16)
    | Data(header: seq<bv8>, address: bv16, id: bv32, nFrame: bv16, dataLen: bv16, data: seq<bv8>)
  {
    predicate Valid() {
      && |header| == 4
      && (Short? ==> frameType != TRANSPORT_DATA)
      && (Data? ==> Size(dataLen) == |data| <= DATA_LEN_MAX)
    }

    function Type(): bv16 {
      if Short? then frameType else TRANSPORT_DATA
    }
  }

  // ---- Little-endian fields ----

  function Le16(w: bv16): (s: seq<bv8>)
    ensures |s| == 2
  {
    [Low(w), High(w)]
  }

  function Le32(w: bv32): (s: seq<bv8>)
    ensures |s| == 4
  {
    [(w & 0xFF) as bv8, ((w >> 8) & 0xFF) as bv8, ((w >> 16) & 0xFF) as bv8, (w >> 24) as bv8]
  }

  function FromLe16(s: seq<bv8>): bv16
    requires |s| == 2
  {
    Word(s[1], s[0])
  }

  function FromLe32(s: seq<bv8>): bv32
    requires |s| == 4
  {
    ((s[3] as bv32) << 24) | ((s[2] as bv32) << 16) | ((s[1] as bv32) << 8) | (s[0] as bv32)
  }

  lemma Le16RoundTrip(w: bv16, s: seq<bv8>)
    requires |s| == 2
    ensures FromLe16(Le16(w)) == w && Le16(FromLe16(s)) == s
  {
    WordParts(w, s[0], s[1]);
  }

  lemma Le32RoundTrip(w: bv32, s: seq<bv8>)
    requires |s| == 4
    ensures FromLe32(Le32(w)) == w && Le32(FromLe32(s)) == s
  {
  }

  // ---- What is printed ----

  /** The fields that every frame starts with. */
  function Fields(f: Frame): (s: seq<bv8>)
    requires |f.header| == 4
    ensures |s| == 14
  {
    f.header + Le16(f.address) + Le16(f.Type()) + Le32(f.id) + Le16(f.nFrame)
  }

  /** The frame without its checksum, printed over what the buffer held before. */
  function Body(f: Frame, before: seq<bv8>): (s: seq<bv8>)
    requires f.Valid() && (f.Data? ==> DATA_SIZE - 2 <= |before|)
    ensures |s| == if f.Data? then DATA_SIZE - 2 else SHORT_SIZE - 2
  {
    if f.Short? then Fields(f) else
      var n := Size(f.dataLen);
      Fields(f) + Le16(f.dataLen) + f.data + before[16 + n..DATA_SIZE - 2]
  }

  function Printed(f: Frame, before: seq<bv8>): seq<bv8>
    requires f.Valid() && (f.Data? ==> DATA_SIZE - 2 <= |before|)
  {
    Body(f, before) + Le16(SerialCrc(Body(f, before)))
  }

  // ---- What is parsed ----

  /** The control or request frame spelled by sixteen bytes. */
  function ShortFields(b: seq<bv8>): Frame
    requires 14 <= |b|
  {
    Short(b[..4], FromLe16(b[4..6]), FromLe16(b[6..8]), FromLe32(b[8..12]), FromLe16(b[12..14]))
  }

  predicate IsShort(b: seq<bv8>) {
    8 <= |b| && b[..4] == HEADER && FromLe16(b[6..8]) in {CONTROL, REQUEST_DATA}
  }

  predicate IsData(b: seq<bv8>) {
    8 <= |b| && b[..4] == HEADER && FromLe16(b[6..8]) == TRANSPORT_DATA
  }

  predicate AcceptsShort(b: seq<bv8>)
    requires 16 <= |b|
  {
    IsShort(b) && SerialCrc(b[..14]) == FromLe16(b[14..16])
  }

  /** The data frame the parser reads: length and payload first, then the numbers. */
  function DataFields(b: seq<bv8>): Frame
    requires DATA_SIZE <= |b|
    requires Size(FromLe16(b[8..10])) <= DATA_LEN_MAX
  {
    Data(b[..4], FromLe16(b[4..6]), FromLe32(b[522..526]), FromLe16(b[526..528]),
         FromLe16(b[8..10]), b[10..10 + Size(FromLe16(b[8..10]))])
  }

  /** What the parser returns: nothing, or a frame. A length beyond the payload field makes it write past the end of
      that field, after which nothing can be said. */
  datatype Parsing = Null | Parsed(frame: Frame) | Overrun

  /** The answer for a data frame when the scratch buffer happens to hold `memory`. */
  function DataOutcome(b: seq<bv8>, memory: seq<bv8>): Parsing
    requires DATA_SIZE <= |b| && |memory| == DATA_SIZE - 2
  {
    if DATA_LEN_MAX < Size(FromLe16(b[8..10])) then Overrun
    else if SerialCrc(Body(DataFields(b), memory)) == FromLe16(b[528..530]) then Parsed(DataFields(b))
    else Null
  }

  /** As many bytes as the parser reads of a buffer with this header and this type. */
  predicate LongEnough(b: seq<bv8>) {
    && 4 <= |b|
    && (b[..4] == HEADER ==> 8 <= |b|)
    && (IsShort(b) ==> SHORT_SIZE <= |b|)
    && (IsData(b) ==> DATA_SIZE <= |b|)
  }

  function Parse(b: seq<bv8>, memory: seq<bv8>): Parsing
    requires LongEnough(b) && |memory| == DATA_SIZE - 2
  {
    if IsShort(b) then if AcceptsShort(b) then Parsed(ShortFields(b)) else Null
    else if IsData(b) then DataOutcome(b, memory)
    else Null
  }

  // ---- Printing ----

  method Copy(dst: array<bv8>, at: nat, src: seq<bv8>) returns (end: nat)
    requires at + |src| <= dst.Length
    modifies dst
    ensures end == at + |src|
    ensures dst[..end] == old(dst[..at]) + src
    ensures forall j | end <= j < dst.Length :: dst[j] == old(dst[j])
  {
    end := at;
    for i := 0 to |src|
      invariant end == at + i
      invariant dst[..end] == old(dst[..at]) + src[..i]
      invariant forall j | end <= j < dst.Length :: dst[j] == old(dst[j])
    {
      dst[end] := src[i];
      end := end + 1;
      assert dst[..end] == dst[..end - 1] + [src[i]];
    }
  }

  /** The part of the printing that all types of frame share. */
  method CopyFields(frame: Frame, bitStream: array<bv8>) returns (p: nat)
    requires |frame.header| == 4 && 14 <= bitStream.Length
    modifies bitStream
    ensures p == 14 && bitStream[..p] == Fields(frame)
    ensures forall j | p <= j < bitStream.Length :: bitStream[j] == old(bitStream[j])
  {
    hide Le16;
    hide Le32;
    p := Copy(bitStream, 0, frame.header);
    p := Copy(bitStream, p, Le16(frame.address));
    p := Copy(bitStream, p, Le16(frame.Type()));
    p := Copy(bitStream, p, Le32(frame.id));
    p := Copy(bitStream, p, Le16(frame.nFrame));
  }

  /** The length and the payload of a data frame. The payload area is skipped, not filled, beyond the payload. */
  method CopyPayload(frame: Frame, bitStream: array<bv8>, at: nat) returns (p: nat)
    requires frame.Valid() && frame.Data? && at == 14 && DATA_SIZE - 2 <= bitStream.Length
    modifies bitStream
    ensures p == DATA_SIZE - 2
    ensures bitStream[..p] == old(bitStream[..at]) + Le16(frame.dataLen) + frame.data
                              + old(bitStream[..])[16 + |frame.data|..p]
    ensures forall j | p <= j < bitStream.Length :: bitStream[j] == old(bitStream[j])
  {
    hide Le16;
    hide Size;
    ghost var before := bitStream[..];
    p := Copy(bitStream, at, Le16(frame.dataLen));
    var q := Copy(bitStream, p, frame.data);
    p := p + DATA_LEN_MAX;
    assert bitStream[q..p] == before[q..p];
    assert bitStream[..p] == bitStream[..q] + bitStream[q..p];
  }

  method FrameWithoutCheckSum(frame: Frame, bitStream: array<bv8>) returns (size: nat)
    requires frame.Valid()
    requires (if frame.Data? then DATA_SIZE - 2 else SHORT_SIZE - 2) <= bitStream.Length
    modifies bitStream
    ensures size == if frame.Data? then DATA_SIZE - 2 else SHORT_SIZE - 2
    ensures bitStream[..size] == Body(frame, old(bitStream[..]))
    ensures forall j | size <= j < bitStream.Length :: bitStream[j] == old(bitStream[j])
  {
    hide Le16;
    hide Fields;
    hide Size;
    ghost var before := bitStream[..];
    size := CopyFields(frame, bitStream);
    if frame.Data? {
      ghost var middle := bitStream[..];
      size := CopyPayload(frame, bitStream, size);
      assert middle[16 + |frame.data|..size] == before[16 + |frame.data|..size];
    }
  }

  method FrameToBitStream(frame: Frame, bitStream: array<bv8>) returns (size: nat)
    requires frame.Valid()
    requires (if frame.Data? then DATA_SIZE else SHORT_SIZE) <= bitStream.Length
    modifies bitStream
    ensures size == if frame.Data? then DATA_SIZE else SHORT_SIZE
    ensures bitStream[..size] == Printed(frame, old(bitStream[..]))
    ensures forall j | size <= j < bitStream.Length :: bitStream[j] == old(bitStream[j])
  {
    size := FrameWithoutCheckSum(frame, bitStream);
    var checkSum := Crc16(bitStream, size);
    size := Copy(bitStream, size, Le16(checkSum));
  }

  // ---- Parsing ----

  /** Null for a wrong header, a type that is not implemented, or a checksum that does not match
      the frame printed again into a scratch buffer. That buffer is not initialised; `memory` is what it holds. */
  method BitStreamToFrame(bitStream: array<bv8>, memory: seq<bv8>) returns (r: Parsing)
    requires |memory| == DATA_SIZE - 2
    requires LongEnough(bitStream[..])
    ensures r == Parse(bitStream[..], memory)
  {
    hide FromLe16;
    hide FromLe32;
    hide SerialCrc;
    hide Le16;
    hide Le32;
    hide Size;
    ghost var b := bitStream[..];
    assert b[..4] == bitStream[..4];
    if bitStream[..4] != HEADER {
      return Null;
    }
    assert b[6..8] == bitStream[6..8];
    var frameType := FromLe16(bitStream[6..8]);
    if frameType == CONTROL || frameType == REQUEST_DATA {
      assert IsShort(b) && !IsData(b);
      var frame := Short(bitStream[..4], FromLe16(bitStream[4..6]), frameType,
                         FromLe32(bitStream[8..12]), FromLe16(bitStream[12..14]));
      assert frame == ShortFields(b) by {
        SameSlices(bitStream, b);
      }
      var checkSum := FromLe16(bitStream[14..16]);
      var temp := new bv8[SHORT_SIZE - 2](i requires 0 <= i < SHORT_SIZE - 2 => memory[i]);
      var size := FrameWithoutCheckSum(frame, temp);
      var check := Crc16(temp, size);
      FieldsAreBytes(b);
      assert b[14..16] == bitStream[14..16];
      return if checkSum != check then Null else Parsed(frame);
    }
    if frameType == TRANSPORT_DATA {
      assert IsData(b) && !IsShort(b);
      assert b[8..10] == bitStream[8..10] && b[528..530] == bitStream[528..530];
      var dataLen := FromLe16(bitStream[8..10]);
      if DATA_LEN_MAX < Size(dataLen) {
        return Overrun;
      }
      var frame := Data(bitStream[..4], FromLe16(bitStream[4..6]), FromLe32(bitStream[522..526]),
                        FromLe16(bitStream[526..528]), dataLen, bitStream[10..10 + Size(dataLen)]);
      assert frame == DataFields(b) by {
        assert b[4..6] == bitStream[4..6] && b[522..526] == bitStream[522..526];
        assert b[526..528] == bitStream[526..528];
      }
      var checkSum := FromLe16(bitStream[528..530]);
      var temp := new bv8[DATA_SIZE - 2](i requires 0 <= i < |memory| => memory[i]);
      assert temp[..] == memory;
      var size := FrameWithoutCheckSum(frame, temp);
      var check := Crc16(temp, size);
      r := if checkSum != check then Null else Parsed(frame);
      assert r == DataOutcome(b, memory);
      return r;
    }
    assert !IsShort(b) && !IsData(b);
    return Null;
  }

  lemma SameSlices(a: array<bv8>, b: seq<bv8>)
    requires b == a[..] && 14 <= |b|
    ensures b[4..6] == a[4..6] && b[6..8] == a[6..8] && b[8..12] == a[8..12] && b[12..14] == a[12..14]
  {
  }

  // ---- The parser, byte by byte ----

  /** The numbers of the types, spelled out. */
  lemma TypeBytes(s: seq<bv8>)
    requires |s| == 2
    ensures FromLe16(s) == CONTROL <==> s == [0x01, 0x00]
    ensures FromLe16(s) == REQUEST_DATA <==> s == [0x03, 0x00]
    ensures FromLe16(s) == TRANSPORT_DATA <==> s == [0x05, 0x00]
  {
    Le16RoundTrip(0, s);
    assert Le16(1) == [0x01, 0x00] && Le16(3) == [0x03, 0x00] && Le16(5) == [0x05, 0x00];
  }

  lemma HeaderBytes()
    ensures HEADER == [0xEB, 0x90, 0xEB, 0x90]
  {
  }

  lemma WordIs(b: seq<bv8>, i: nat)
    requires i + 2 <= |b|
    ensures FromLe16(b[i..i + 2]) == Word(b[i + 1], b[i])
  {
    hide Word;
  }

  lemma WordSize(hi: bv8, lo: bv8)
    ensures Size(Word(hi, lo)) == lo as nat + 256 * (hi as nat)
  {
  }

  /** Four bytes, the most significant one first. */
  function Long(b3: bv8, b2: bv8, b1: bv8, b0: bv8): bv32 {
    ((b3 as bv32) << 24) | ((b2 as bv32) << 16) | ((b1 as bv32) << 8) | (b0 as bv32)
  }

  lemma LongIs(b: seq<bv8>, i: nat)
    requires i + 4 <= |b|
    ensures FromLe32(b[i..i + 4]) == Long(b[i + 3], b[i + 2], b[i + 1], b[i])
  {
  }

  lemma ShortFieldsAre(b: seq<bv8>)
    requires 14 <= |b|
    ensures ShortFields(b) == Short(b[..4], Word(b[5], b[4]), Word(b[7], b[6]), Long(b[11], b[10], b[9], b[8]),
                                    Word(b[13], b[12]))
  {
    hide Word;
    hide Long;
    hide FromLe16;
    hide FromLe32;
    WordIs(b, 4);
    WordIs(b, 6);
    LongIs(b, 8);
    WordIs(b, 12);
  }

  /** Which branch the parser takes, by the bytes. */
  lemma BranchBytes(b: seq<bv8>)
    requires 8 <= |b|
    ensures IsShort(b) <==> b[..4] == [0xEB, 0x90, 0xEB, 0x90] && (b[6..8] == [0x01, 0x00] || b[6..8] == [0x03, 0x00])
    ensures IsData(b) <==> b[..4] == [0xEB, 0x90, 0xEB, 0x90] && b[6..8] == [0x05, 0x00]
  {
    TypeBytes(b[6..8]);
    HeaderBytes();
    hide FromLe16;
  }

  /** A buffer with another type than 05 00: it is parsed if and only if it starts with the header, the type is 01 00 or
      03 00, and its first sixteen bytes divide without remainder; then into these fields. */
  lemma ShortBytesParsed(b: seq<bv8>, memory: seq<bv8>)
    requires 16 <= |b| && |memory| == 528 && b[6..8] != [0x05, 0x00]
    ensures LongEnough(b)
    ensures Parse(b, memory)
         == if b[..4] == [0xEB, 0x90, 0xEB, 0x90] && (b[6..8] == [0x01, 0x00] || b[6..8] == [0x03, 0x00])
               && SerialCrc(b[..16]) == 0
            then Parsed(Short([0xEB, 0x90, 0xEB, 0x90], Word(b[5], b[4]), Word(b[7], b[6]),
                              Long(b[11], b[10], b[9], b[8]), Word(b[13], b[12])))
            else Null
  {
    hide Word;
    hide Long;
    BranchBytes(b);
    ShortFieldsAre(b);
    AcceptsShortBytes(b);
    hide FromLe16;
    hide ShortFields;
    hide AcceptsShort;
    hide SerialCrc;
    hide IsShort;
    hide IsData;
  }

  lemma AcceptsShortBytes(b: seq<bv8>)
    requires 16 <= |b|
    ensures AcceptsShort(b) <==> IsShort(b) && SerialCrc(b[..16]) == 0
  {
    var s := b[..16];
    assert s[..4] == b[..4] && s[6..8] == b[6..8] && s[..14] == b[..14] && s[14..16] == b[14..16];
    AcceptsIsResidue(s);
    hide FromLe16;
    hide SerialCrc;
  }

  /** A wrong header, and with the right one any other type, gives nothing, however short the buffer is. */
  lemma OtherBytesRefused(b: seq<bv8>, memory: seq<bv8>)
    requires 4 <= |b| && |memory| == 528
    requires b[..4] == [0xEB, 0x90, 0xEB, 0x90] ==>
               8 <= |b| && b[6..8] != [0x01, 0x00] && b[6..8] != [0x03, 0x00] && b[6..8] != [0x05, 0x00]
    ensures LongEnough(b) && Parse(b, memory) == Null
  {
    HeaderBytes();
    if 8 <= |b| {
      BranchBytes(b);
    }
    hide FromLe16;
    hide SerialCrc;
  }

  /** Every buffer of type 05 00: an overrun if and only if bytes 8 and 9 spell more than 512; otherwise nothing if the
      checksum of the frame printed again is not in the last two bytes, and these fields if it is. */
  lemma DataBytesParsed(b: seq<bv8>, memory: seq<bv8>)
    requires 530 <= |b| && |memory| == 528 && b[..4] == [0xEB, 0x90, 0xEB, 0x90] && b[6..8] == [0x05, 0x00]
    ensures LongEnough(b)
    ensures var n := b[8] as nat + 256 * (b[9] as nat);
            Parse(b, memory)
            == if 512 < n then Overrun
               else if SerialCrc(b[..8] + b[522..528] + b[8..10 + n] + memory[16 + n..])
                       == Word(b[529], b[528])
               then Parsed(Data([0xEB, 0x90, 0xEB, 0x90], Word(b[5], b[4]), Long(b[525], b[524], b[523], b[522]),
                                Word(b[527], b[526]), Word(b[9], b[8]), b[10..10 + n]))
               else Null
  {
    assert DATA_SIZE == 530 && DATA_LEN_MAX == 512;
    hide *;
    BranchBytes(b);
    LengthBytes(b);
    ParseIs(b, memory);
    WordIs(b, 528);
    var n := b[8] as nat + 256 * (b[9] as nat);
    if n <= 512 {
      DataFieldsBytes(b);
      BodyBytes(b, memory);
    }
  }

  lemma LengthBytes(b: seq<bv8>)
    requires 10 <= |b|
    ensures FromLe16(b[8..10]) == Word(b[9], b[8])
    ensures Size(FromLe16(b[8..10])) == b[8] as nat + 256 * (b[9] as nat)
  {
    hide *;
    WordIs(b, 8);
    WordSize(b[9], b[8]);
  }

  lemma ParseIs(b: seq<bv8>, memory: seq<bv8>)
    requires 530 <= |b| && |memory| == 528 && IsData(b) && !IsShort(b)
    ensures LongEnough(b)
    ensures Parse(b, memory)
         == if 512 < Size(FromLe16(b[8..10])) then Overrun
            else if SerialCrc(Body(DataFields(b), memory)) == FromLe16(b[528..530]) then Parsed(DataFields(b))
            else Null
  {
    hide FromLe16;
    hide SerialCrc;
    hide Size;
    hide Body;
    hide DataFields;
  }

  lemma DataFieldsBytes(b: seq<bv8>)
    requires 530 <= |b| && b[8] as nat + 256 * (b[9] as nat) <= 512 && b[..4] == [0xEB, 0x90, 0xEB, 0x90]
    ensures Size(FromLe16(b[8..10])) <= 512
    ensures DataFields(b)
         == Data([0xEB, 0x90, 0xEB, 0x90], Word(b[5], b[4]), Long(b[525], b[524], b[523], b[522]),
                 Word(b[527], b[526]), Word(b[9], b[8]), b[10..10 + (b[8] as nat + 256 * (b[9] as nat))])
  {
    hide *;
    LengthBytes(b);
    DataFieldsAre(b);
    WordIs(b, 4);
    LongIs(b, 522);
    WordIs(b, 526);
  }

  lemma FieldsAreValid(b: seq<bv8>, n: nat)
    requires 530 <= |b| && Size(FromLe16(b[8..10])) == n <= 512
    ensures DataFields(b).Valid() && DataFields(b).Data?
  {
    hide FromLe16;
    hide FromLe32;
    hide Size;
  }

  /** The frame that is printed again, in slices of what was read. */
  lemma BodyBytes(b: seq<bv8>, memory: seq<bv8>)
    requires 530 <= |b| && |memory| == 528 && b[6..8] == [0x05, 0x00]
    requires b[8] as nat + 256 * (b[9] as nat) <= 512
    ensures Size(FromLe16(b[8..10])) <= 512
    ensures var n := b[8] as nat + 256 * (b[9] as nat);
            Body(DataFields(b), memory) == b[..8] + b[522..528] + b[8..10 + n] + memory[16 + n..]
  {
    assert DATA_SIZE == 530 && DATA_LEN_MAX == 512;
    hide *;
    var n := b[8] as nat + 256 * (b[9] as nat);
    LengthBytes(b);
    DataFieldsAre(b);
    TypeBytes(b[6..8]);
    Le16RoundTrip(0, b[4..6]);
    Le16RoundTrip(0, b[6..8]);
    Le16RoundTrip(0, b[8..10]);
    Le32RoundTrip(0, b[522..526]);
    Le16RoundTrip(0, b[526..528]);
    FieldsAreValid(b, n);
    BodyOf(DataFields(b), b, memory, n);
  }

  lemma BodyOf(f: Frame, b: seq<bv8>, memory: seq<bv8>, n: nat)
    requires f.Valid() && f.Data? && 530 <= |b| && |memory| == 528 && Size(f.dataLen) == n <= 512
    requires f.header == b[..4] && Le16(f.address) == b[4..6] && Le16(TRANSPORT_DATA) == b[6..8]
    requires Le32(f.id) == b[522..526] && Le16(f.nFrame) == b[526..528]
    requires Le16(f.dataLen) == b[8..10] && f.data == b[10..10 + n]
    ensures Body(f, memory) == b[..8] + b[522..528] + b[8..10 + n] + memory[16 + n..]
  {
    hide *;
    BodyIs(f, memory);
    Slices(b, memory, n);
  }

  lemma BodyIs(f: Frame, before: seq<bv8>)
    requires f.Valid() && f.Data? && |before| == 528
    ensures Body(f, before) == f.header + Le16(f.address) + Le16(TRANSPORT_DATA) + Le32(f.id) + Le16(f.nFrame)
                             + Le16(f.dataLen) + f.data + before[16 + Size(f.dataLen)..]
  {
    assert before[16 + Size(f.dataLen)..528] == before[16 + Size(f.dataLen)..];
    hide Le16;
    hide Le32;
    hide Size;
  }

  lemma Slices(b: seq<bv8>, memory: seq<bv8>, n: nat)
    requires 530 <= |b| && |memory| == 528 && n <= 512
    ensures b[..4] + b[4..6] + b[6..8] + b[522..526] + b[526..528] + b[8..10] + b[10..10 + n] + memory[16 + n..]
         == b[..8] + b[522..528] + b[8..10 + n] + memory[16 + n..]
  {
    assert b[..8] == b[..4] + b[4..6] + b[6..8];
    assert b[522..528] == b[522..526] + b[526..528];
    assert b[8..10 + n] == b[8..10] + b[10..10 + n];
    var left, rest := b[..8], memory[16 + n..];
    assert left + b[522..526] + b[526..528] == left + b[522..528];
    assert left + b[522..528] + b[8..10] + b[10..10 + n] == left + b[522..528] + b[8..10 + n];
  }

  // ---- Theorems about control and request frames ----

  /** The prefix that the parser prints again is the prefix it has read. */
  lemma FieldsAreBytes(b: seq<bv8>)
    requires 14 <= |b|
    ensures Fields(Short(b[..4], FromLe16(b[4..6]), FromLe16(b[6..8]), FromLe32(b[8..12]), FromLe16(b[12..14])))
         == b[..14]
  {
    Le16RoundTrip(0, b[4..6]);
    Le16RoundTrip(0, b[6..8]);
    Le32RoundTrip(0, b[8..12]);
    Le16RoundTrip(0, b[12..14]);
    hide Le16;
    hide Le32;
    hide FromLe16;
    hide FromLe32;
    assert b[..14] == b[..4] + b[4..6] + b[6..8] + b[8..12] + b[12..14];
  }

  /** Parsing inverts printing, for all values of all fields and whatever the buffer held. */
  lemma ParseInvertsPrint(f: Frame, before: seq<bv8>)
    requires f.Short? && f.header == HEADER && f.frameType in {CONTROL, REQUEST_DATA}
    ensures var b := Printed(f, before);
            |b| == SHORT_SIZE && AcceptsShort(b) && ShortFields(b) == f
  {
    var b := Printed(f, before);
    var crc := SerialCrc(Fields(f));
    assert b == Fields(f) + Le16(crc);
    hide SerialCrc;
    hide Le16;
    hide Le32;
    hide FromLe16;
    hide FromLe32;
    assert b[..4] == HEADER && b[4..6] == Le16(f.address) && b[6..8] == Le16(f.frameType);
    assert b[8..12] == Le32(f.id) && b[12..14] == Le16(f.nFrame) && b[14..16] == Le16(crc) && b[..14] == Fields(f);
    Le16RoundTrip(f.address, b[4..6]);
    Le16RoundTrip(f.frameType, b[6..8]);
    Le32RoundTrip(f.id, b[8..12]);
    Le16RoundTrip(f.nFrame, b[12..14]);
    Le16RoundTrip(crc, b[14..16]);
  }

  /** Printing inverts parsing, on every sixteen bytes that the parser accepts. */
  lemma PrintInvertsParse(b: seq<bv8>, before: seq<bv8>)
    requires |b| == SHORT_SIZE && AcceptsShort(b)
    ensures ShortFields(b).Valid() && Printed(ShortFields(b), before) == b
  {
    FieldsAreBytes(b);
    Le16RoundTrip(0, b[14..16]);
    hide Le16;
    hide Le32;
    hide FromLe16;
    hide FromLe32;
    hide SerialCrc;
    assert b == b[..14] + b[14..16];
  }

  /** The last two bytes are the checksum of the rest. */
  predicate ChecksOut(b: seq<bv8>)
    requires 2 <= |b|
  {
    SerialCrc(b[..|b| - 2]) == FromLe16(b[|b| - 2..])
  }

  lemma ChecksOutIsResidue(b: seq<bv8>)
    requires 2 <= |b|
    ensures ChecksOut(b) <==> SerialCrc(b) == 0
  {
    var k := |b| - 2;
    ResidueIsZero(b[..k], b[k], b[k + 1]);
    assert b == b[..k] + [b[k]] + [b[k + 1]];
    hide SerialCrc;
    hide Word;
  }

  /** Accepted frames are exactly the well-typed ones that divide without remainder. */
  lemma AcceptsIsResidue(b: seq<bv8>)
    requires |b| == SHORT_SIZE
    ensures AcceptsShort(b) <==> IsShort(b) && SerialCrc(b) == 0
  {
    ChecksOutIsResidue(b);
    assert b[14..16] == b[14..];
    hide SerialCrc;
    hide FromLe16;
  }

  /** A valid control or request frame, altered anywhere within sixteen consecutive bits, is no longer accepted,
      even if the alteration is to its type or to its checksum. */
  lemma TamperingDetected(b: seq<bv8>, altered: seq<bv8>, at: nat)
    requires |b| == SHORT_SIZE && AcceptsShort(b)
    requires DifferInBurst(b, altered, at) && altered != b
    ensures !AcceptsShort(altered)
  {
    AcceptsIsResidue(b);
    AcceptsIsResidue(altered);
    BurstDetected(b, altered, at);
  }

  /** Nor is one with up to three altered bits anywhere. */
  lemma ThreeBitsDetected(b: seq<bv8>, altered: seq<bv8>)
    requires |b| == |altered| == SHORT_SIZE && AcceptsShort(b)
    requires 1 <= Weight(Errors(b, altered)) <= 3
    ensures !AcceptsShort(altered)
  {
    AcceptsIsResidue(b);
    AcceptsIsResidue(altered);
    ThreeErrorsDetected(b, altered);
  }

  /** Nor is one with an odd number of altered bits. */
  lemma OddTamperingDetected(b: seq<bv8>, altered: seq<bv8>)
    requires |b| == |altered| == SHORT_SIZE && AcceptsShort(b)
    requires OddBits(PlusBits(MessageBits(b), MessageBits(altered)))
    ensures !AcceptsShort(altered)
  {
    AcceptsIsResidue(b);
    AcceptsIsResidue(altered);
    OddErrorDetected(b, altered);
  }

  predicate Turns(s: bv16, b: bv8, t: bv16) {
    Fed(s, b) == t
  }

  lemma CrcTurn(message: seq<bv8>, b: bv8, s: bv16, t: bv16) returns (longer: seq<bv8>)
    requires SerialCrc(message) == s && Turns(s, b, t)
    ensures longer == message + [b] && SerialCrc(longer) == t
  {
    hide EightSteps;
    hide Plus;
    SerialCrcSnoc(message, b);
    longer := message + [b];
  }

  lemma ExampleTurns()
    ensures Turns(0xFFFF, 0xEB, 0x0FFF)
         && Turns(0x0FFF, 0x90, 0x2C4F)
         && Turns(0x2C4F, 0xEB, 0xBB2D)
         && Turns(0xBB2D, 0x90, 0x717B)
  {
  }

  lemma MoreTurns()
    ensures Turns(0x717B, 0x01, 0xE3F0)
         && Turns(0xE3F0, 0x00, 0x44E3)
         && Turns(0x44E3, 0x03, 0x8845)
         && Turns(0x8845, 0x00, 0xF349)
         && Turns(0xF349, 0x01, 0x36F3)
         && Turns(0x36F3, 0x00, 0x4576)
         && Turns(0x4576, 0x00, 0xE6C4)
         && Turns(0xE6C4, 0x00, 0x93E7)
         && Turns(0x93E7, 0x2A, 0x9552)
         && Turns(0x9552, 0x00, 0xFD14)
    ensures SerialCrc([]) == 0xFFFF
  {
  }

  lemma ExampleCrc()
    ensures SerialCrc([0xEB, 0x90, 0xEB, 0x90, 0x01, 0x00, 0x03, 0x00, 0x01, 0x00, 0x00, 0x00, 0x2A, 0x00]) == 0xFD14
  {
    ExampleTurns();
    MoreTurns();
    hide *;
    var m: seq<bv8> := [];
    m := CrcTurn(m, 0xEB, 0xFFFF, 0x0FFF);
    m := CrcTurn(m, 0x90, 0x0FFF, 0x2C4F);
    m := CrcTurn(m, 0xEB, 0x2C4F, 0xBB2D);
    m := CrcTurn(m, 0x90, 0xBB2D, 0x717B);
    m := CrcTurn(m, 0x01, 0x717B, 0xE3F0);
    m := CrcTurn(m, 0x00, 0xE3F0, 0x44E3);
    m := CrcTurn(m, 0x03, 0x44E3, 0x8845);
    m := CrcTurn(m, 0x00, 0x8845, 0xF349);
    m := CrcTurn(m, 0x01, 0xF349, 0x36F3);
    m := CrcTurn(m, 0x00, 0x36F3, 0x4576);
    m := CrcTurn(m, 0x00, 0x4576, 0xE6C4);
    m := CrcTurn(m, 0x00, 0xE6C4, 0x93E7);
    m := CrcTurn(m, 0x2A, 0x93E7, 0x9552);
    m := CrcTurn(m, 0x00, 0x9552, 0xFD14);
    assert m == [0xEB, 0x90, 0xEB, 0x90, 0x01, 0x00, 0x03, 0x00, 0x01, 0x00, 0x00, 0x00, 0x2A, 0x00];
  }

  /** The request for frame 42 of file 1, byte for byte. */
  lemma RequestExample(before: seq<bv8>)
    ensures Printed(Short(HEADER, 1, REQUEST_DATA, 1, 42), before)
         == [0xEB, 0x90, 0xEB, 0x90, 0x01, 0x00, 0x03, 0x00, 0x01, 0x00, 0x00, 0x00, 0x2A, 0x00, 0x14, 0xFD]
  {
    ExampleCrc();
    ExampleFields();
    hide Le16;
    hide Le32;
    hide SerialCrc;
    assert Fields(Short(HEADER, 1, REQUEST_DATA, 1, 42))
        == [0xEB, 0x90, 0xEB, 0x90, 0x01, 0x00, 0x03, 0x00, 0x01, 0x00, 0x00, 0x00, 0x2A, 0x00];
  }

  lemma ExampleFields()
    ensures Le16(1) == [1, 0] && Le16(3) == [3, 0] && Le32(1) == [1, 0, 0, 0] && Le16(42) == [0x2A, 0]
    ensures Le16(0xFD14) == [0x14, 0xFD]
  {
  }

  // ---- Data frames ----

  /** The payload area of a printed data frame. */
  function Payload(f: Frame, before: seq<bv8>): (s: seq<bv8>)
    requires f.Valid() && f.Data? && |before| == DATA_SIZE - 2
    ensures |s| == DATA_LEN_MAX
  {
    f.data + before[16 + Size(f.dataLen)..]
  }

  /** What follows the low half of the file number in print: what the parser takes for the payload. */
  function Tail(f: Frame, before: seq<bv8>): (s: seq<bv8>)
    requires f.Valid() && f.Data? && |before| == DATA_SIZE - 2
    ensures |s| == 6 + DATA_LEN_MAX
  {
    Le32(f.id)[2..] + Le16(f.nFrame) + Le16(f.dataLen) + Payload(f, before)
  }

  /** The printed frame, cut where the parser cuts it. */
  lemma WhereTheParserCuts(f: Frame, before: seq<bv8>)
    requires f.Valid() && f.Data? && |before| == DATA_SIZE - 2
    ensures var b := Printed(f, before);
            && |b| == DATA_SIZE && b[..4] == f.header && b[4..6] == Le16(f.address)
            && b[6..8] == Le16(TRANSPORT_DATA) && b[8..10] == Le32(f.id)[..2]
            && b[10..528] == Tail(f, before) && b[..528] == Body(f, before)
            && b[528..530] == Le16(SerialCrc(Body(f, before)))
  {
    hide Le16;
    hide Le32;
    hide SerialCrc;
    hide Size;
    var crc := Le16(SerialCrc(Body(f, before)));
    assert before[16 + Size(f.dataLen)..DATA_SIZE - 2] == before[16 + Size(f.dataLen)..];
    assert Printed(f, before) == Body(f, before) + crc;
    assert Body(f, before) == f.header + Le16(f.address) + Le16(TRANSPORT_DATA) + Le32(f.id) + Le16(f.nFrame)
                            + Le16(f.dataLen) + f.data + before[16 + Size(f.dataLen)..];
    assert Tail(f, before)
        == Le32(f.id)[2..] + Le16(f.nFrame) + Le16(f.dataLen) + (f.data + before[16 + Size(f.dataLen)..]);
    Regroup(f.header, Le16(f.address), Le16(TRANSPORT_DATA), Le32(f.id), Le16(f.nFrame), Le16(f.dataLen),
            f.data, before[16 + Size(f.dataLen)..]);
    hide *;
    Cuts(f.header, Le16(f.address), Le16(TRANSPORT_DATA), Le32(f.id)[..2], Tail(f, before), crc);
  }

  lemma Regroup(a: seq<bv8>, b: seq<bv8>, c: seq<bv8>, d: seq<bv8>,
                e: seq<bv8>, g: seq<bv8>, h: seq<bv8>, i: seq<bv8>)
    requires 2 <= |d|
    ensures a + b + c + d + e + g + h + i == a + b + c + d[..2] + (d[2..] + e + g + (h + i))
  {
    assert d == d[..2] + d[2..];
    var left := a + b + c;
    assert left + d == left + d[..2] + d[2..];
    assert left + d + e == left + d[..2] + (d[2..] + e);
    assert left + d + e + g == left + d[..2] + (d[2..] + e + g);
    assert left + d + e + g + h + i == left + d[..2] + (d[2..] + e + g) + (h + i);
  }

  lemma Cuts(a: seq<bv8>, b: seq<bv8>, c: seq<bv8>, d: seq<bv8>, e: seq<bv8>, g: seq<bv8>)
    requires |a| == 4 && |b| == |c| == |d| == |g| == 2 && |e| == 518
    ensures var s := a + b + c + d + e + g;
            && |s| == 530 && s[..4] == a && s[4..6] == b && s[6..8] == c && s[8..10] == d && s[10..528] == e
            && s[..528] == a + b + c + d + e && s[528..530] == g
  {
  }

  /** A data frame read by the document: numbers, length, payload. */
  function DocumentedFields(b: seq<bv8>): Frame
    requires |b| == DATA_SIZE && Size(FromLe16(b[14..16])) <= DATA_LEN_MAX
  {
    Data(b[..4], FromLe16(b[4..6]), FromLe32(b[8..12]), FromLe16(b[12..14]), FromLe16(b[14..16]),
         b[16..16 + Size(FromLe16(b[14..16]))])
  }

  /** The printed data frame has the documented layout: whoever reads it by the document gets every field back. */
  lemma DataFrameAsDocumented(f: Frame, before: seq<bv8>)
    requires f.Valid() && f.Data? && |before| == DATA_SIZE - 2
    ensures var b := Printed(f, before);
            && |b| == 530 && b[..4] == f.header && b[6..8] == [0x05, 0x00] && ChecksOut(b)
            && Size(FromLe16(b[14..16])) == |f.data| <= DATA_LEN_MAX && DocumentedFields(b) == f
            && b[16 + |f.data|..528] == before[16 + |f.data|..]
  {
    var b := Printed(f, before);
    DocumentedSlices(f, before);
    assert b[528..] == b[528..530];
    hide *;
    ReadByDocument(f, b);
    TypeBytes(b[6..8]);
    ReadBack(TRANSPORT_DATA);
    ReadBack(SerialCrc(b[..528]));
    ChecksOutIs(b);
  }

  /** The printed frame, cut where the document cuts it. */
  lemma DocumentedSlices(f: Frame, before: seq<bv8>)
    requires f.Valid() && f.Data? && |before| == DATA_SIZE - 2
    ensures var b := Printed(f, before);
            && |b| == 530 && b[..4] == f.header && b[4..6] == Le16(f.address) && b[6..8] == Le16(TRANSPORT_DATA)
            && b[8..12] == Le32(f.id) && b[12..14] == Le16(f.nFrame) && b[14..16] == Le16(f.dataLen)
            && |f.data| == Size(f.dataLen) <= 512
            && b[16..16 + |f.data|] == f.data && b[16 + |f.data|..528] == before[16 + |f.data|..]
            && b[528..530] == Le16(SerialCrc(b[..528]))
  {
    hide *;
    Sizes();
    TailParts(f, before);
    WhereTheParserCuts(f, before);
    assert Body(f, before) == Printed(f, before)[..528];
    DocumentedParts(Printed(f, before), Le32(f.id), Le16(f.nFrame), Le16(f.dataLen), f.data, before[16 + |f.data|..]);
  }

  lemma Sizes()
    ensures DATA_SIZE == 530 && DATA_LEN_MAX == 512
  {
  }

  lemma ReadByDocument(f: Frame, b: seq<bv8>)
    requires f.Data? && |b| == 530 && |f.data| == Size(f.dataLen) <= 512
    requires b[..4] == f.header && b[4..6] == Le16(f.address) && b[8..12] == Le32(f.id)
    requires b[12..14] == Le16(f.nFrame) && b[14..16] == Le16(f.dataLen) && b[16..16 + |f.data|] == f.data
    ensures FromLe16(b[14..16]) == f.dataLen && DocumentedFields(b) == f
  {
    hide *;
    ReadBack(f.address);
    ReadBack(f.nFrame);
    ReadBack(f.dataLen);
    Le32RoundTrip(f.id, [0, 0, 0, 0]);
    DocumentedIs(b);
  }

  lemma DocumentedIs(b: seq<bv8>)
    requires |b| == 530 && Size(FromLe16(b[14..16])) <= 512
    ensures DocumentedFields(b) == Data(b[..4], FromLe16(b[4..6]), FromLe32(b[8..12]), FromLe16(b[12..14]),
                                        FromLe16(b[14..16]), b[16..16 + Size(FromLe16(b[14..16]))])
  {
  }

  lemma ReadBack(w: bv16)
    ensures FromLe16(Le16(w)) == w
  {
    Le16RoundTrip(w, [0, 0]);
  }

  lemma ChecksOutIs(b: seq<bv8>)
    requires |b| == DATA_SIZE
    ensures ChecksOut(b) <==> SerialCrc(b[..528]) == FromLe16(b[528..])
  {
  }

  lemma TailParts(f: Frame, before: seq<bv8>)
    requires f.Valid() && f.Data? && |before| == DATA_SIZE - 2
    ensures |f.data| == Size(f.dataLen) <= DATA_LEN_MAX
    ensures Tail(f, before)
         == Le32(f.id)[2..] + Le16(f.nFrame) + Le16(f.dataLen) + (f.data + before[16 + Size(f.dataLen)..])
  {
  }

  lemma DocumentedParts(b: seq<bv8>, id: seq<bv8>, nFrame: seq<bv8>, len: seq<bv8>, data: seq<bv8>, rest: seq<bv8>)
    requires |b| == 530 && |id| == 4 && |nFrame| == |len| == 2 && |data| + |rest| == 512
    requires b[8..10] == id[..2] && b[10..528] == id[2..] + nFrame + len + (data + rest)
    ensures b[8..12] == id && b[12..14] == nFrame && b[14..16] == len
    ensures b[16..16 + |data|] == data && b[16 + |data|..528] == rest
  {
    var t := id[2..] + nFrame + len + (data + rest);
    Inner(b, 10, 528, 0, 2);
    Inner(b, 10, 528, 2, 4);
    Inner(b, 10, 528, 4, 6);
    Inner(b, 10, 528, 6, 6 + |data|);
    Inner(b, 10, 528, 6 + |data|, 518);
    assert b[8..12] == b[8..10] + b[10..12] && t[0..2] == id[2..] && id == id[..2] + id[2..];
    assert t[2..4] == nFrame && t[4..6] == len && t[6..6 + |data|] == data && t[6 + |data|..518] == rest;
  }

  lemma Inner(b: seq<bv8>, low: nat, high: nat, i: nat, j: nat)
    requires i <= j && low + j <= high <= |b|
    ensures b[low..high][i..j] == b[low + i..low + j]
  {
    var inner, outer := b[low..high][i..j], b[low + i..low + j];
    forall k | 0 <= k < j - i ensures inner[k] == outer[k] {
      assert inner[k] == b[low..high][i + k] == b[low + i + k];
    }
    assert |inner| == |outer|;
  }

  /** And altered within sixteen consecutive bits, or in up to three bits anywhere, it no longer checks out. */
  lemma DataTamperingDetected(f: Frame, before: seq<bv8>, altered: seq<bv8>, at: nat)
    requires f.Valid() && f.Data? && |before| == DATA_SIZE - 2 && |altered| == DATA_SIZE
    requires var b := Printed(f, before);
             && |b| == DATA_SIZE && altered != b
             && (DifferInBurst(b, altered, at) || 1 <= Weight(Errors(b, altered)) <= 3)
    ensures !ChecksOut(altered)
  {
    var b := Printed(f, before);
    DataFrameAsDocumented(f, before);
    hide *;
    ChecksOutIsResidue(b);
    ChecksOutIsResidue(altered);
    if 1 <= Weight(Errors(b, altered)) <= 3 {
      ThreeErrorsDetected(b, altered);
    } else {
      BurstDetected(b, altered, at);
    }
  }

  /** The parser takes the length from where the printer has put the file number, and the numbers from the end of
      the payload. This is when that makes no difference. */
  predicate SpellsItself(f: Frame, before: seq<bv8>)
    requires f.Valid() && f.Data? && |before| == DATA_SIZE - 2
  {
    && Le16(f.dataLen) == Le32(f.id)[..2]
    && f.data == Tail(f, before)[..Size(f.dataLen)]
    && Le32(f.id) == Payload(f, before)[506..510]
    && Le16(f.nFrame) == Payload(f, before)[510..]
  }

  function LowHalf(w: bv32): bv16 {
    (w & 0xFFFF) as bv16
  }

  lemma LowHalfIs(w: bv32)
    ensures FromLe16(Le32(w)[..2]) == LowHalf(w)
  {
  }

  /** Where the parser looks for the length it finds the low half of the file number; beyond 512 it would copy more
      than the payload field of its frame can hold. Otherwise this is what it makes of the frame, field by field. */
  lemma DataMisread(f: Frame, before: seq<bv8>)
    requires f.Valid() && f.Data? && |before| == DATA_SIZE - 2
    ensures var b, n := Printed(f, before), LowHalf(f.id);
            && |b| == DATA_SIZE && FromLe16(b[8..10]) == n
            && (Size(n) <= DATA_LEN_MAX ==>
                  DataFields(b) == Data(f.header, f.address, FromLe32(Payload(f, before)[506..510]),
                                        FromLe16(Payload(f, before)[510..]), n, Tail(f, before)[..Size(n)]))
  {
    var b, n := Printed(f, before), LowHalf(f.id);
    assert DATA_LEN_MAX == 512 && DATA_SIZE == 530;
    hide *;
    LowHalfIs(f.id);
    MisreadSlices(f, before, 0);
    if Size(n) <= DATA_LEN_MAX {
      MisreadSlices(f, before, Size(n));
      Misread(f, b, n, Tail(f, before)[..Size(n)], Payload(f, before)[506..510], Payload(f, before)[510..]);
    }
  }

  lemma Misread(f: Frame, b: seq<bv8>, n: bv16, data: seq<bv8>, id: seq<bv8>, nFrame: seq<bv8>)
    requires |b| == 530 && |id| == 4 && |nFrame| == 2 && FromLe16(b[8..10]) == n && Size(n) <= 512
    requires b[..4] == f.header && b[4..6] == Le16(f.address) && b[10..10 + Size(n)] == data
    requires b[522..526] == id && b[526..528] == nFrame
    ensures DataFields(b) == Data(f.header, f.address, FromLe32(id), FromLe16(nFrame), n, data)
  {
    hide *;
    ReadBack(f.address);
    DataFieldsAre(b);
  }

  lemma MisreadSlices(f: Frame, before: seq<bv8>, n: nat)
    requires f.Valid() && f.Data? && |before| == DATA_SIZE - 2 && n <= 512
    ensures var b := Printed(f, before);
            && |b| == 530 && b[..4] == f.header && b[4..6] == Le16(f.address) && b[8..10] == Le32(f.id)[..2]
            && b[10..10 + n] == Tail(f, before)[..n]
            && b[522..526] == Payload(f, before)[506..510] && b[526..528] == Payload(f, before)[510..]
  {
    WhereTheParserCuts(f, before);
    TailEnd(f, before);
    hide *;
    var b := Printed(f, before);
    Inner(b, 10, 528, 512, 516);
    Inner(b, 10, 528, 516, 518);
    Inner(b, 10, 528, 0, n);
  }

  lemma TailEnd(f: Frame, before: seq<bv8>)
    requires f.Valid() && f.Data? && |before| == DATA_SIZE - 2
    ensures Tail(f, before)[512..516] == Payload(f, before)[506..510]
    ensures Tail(f, before)[516..518] == Payload(f, before)[510..]
  {
    hide Le16;
    hide Le32;
    hide Payload;
  }

  lemma DataFieldsAre(b: seq<bv8>)
    requires 530 <= |b| && Size(FromLe16(b[8..10])) <= 512
    ensures DataFields(b) == Data(b[..4], FromLe16(b[4..6]), FromLe32(b[522..526]), FromLe16(b[526..528]),
                                  FromLe16(b[8..10]), b[10..10 + Size(FromLe16(b[8..10]))])
  {
  }

  lemma SameFields(f: Frame, before: seq<bv8>, n: bv16)
    requires f.Valid() && f.Data? && |before| == DATA_SIZE - 2
    requires n == LowHalf(f.id)
    ensures SpellsItself(f, before) <==>
            Size(n) <= DATA_LEN_MAX
            && f == Data(f.header, f.address, FromLe32(Payload(f, before)[506..510]),
                         FromLe16(Payload(f, before)[510..]), n, Tail(f, before)[..Size(n)])
  {
    LowHalfIs(f.id);
    Le16RoundTrip(f.dataLen, Le32(f.id)[..2]);
    Le16RoundTrip(f.nFrame, Payload(f, before)[510..]);
    Le32RoundTrip(f.id, Payload(f, before)[506..510]);
    hide LowHalf;
    hide Le16;
    hide Le32;
    hide FromLe16;
    hide FromLe32;
    hide Size;
    hide Payload;
    hide Tail;
  }

  /** The frame, printed into a buffer that held `before` and parsed by means of one that held `memory`, comes back. */
  predicate Returns(f: Frame, before: seq<bv8>, memory: seq<bv8>)
    requires f.Valid() && f.Data? && |before| == |memory| == DATA_SIZE - 2
  {
    var b := Printed(f, before);
    |b| == DATA_SIZE && DataOutcome(b, memory) == Parsed(f)
  }

  /** What the payload leaves of its area in the print buffer and in the parser's own has one checksum. */
  predicate PaddingsAgree(f: Frame, before: seq<bv8>, memory: seq<bv8>)
    requires f.Valid() && f.Data? && |before| == |memory| == DATA_SIZE - 2
  {
    SerialCrc(before[16 + |f.data|..]) == SerialCrc(memory[16 + |f.data|..])
  }

  lemma PaddingsDecide(f: Frame, before: seq<bv8>, memory: seq<bv8>)
    requires f.Valid() && f.Data? && |before| == |memory| == DATA_SIZE - 2
    ensures PaddingsAgree(f, before, memory) <==> SerialCrc(Body(f, memory)) == SerialCrc(Body(f, before))
  {
    hide Fields;
    hide Le16;
    hide SerialCrc;
    var head := Fields(f) + Le16(f.dataLen) + f.data;
    var k := 16 + |f.data|;
    assert before[k..] == before[k..DATA_SIZE - 2] && memory[k..] == memory[k..DATA_SIZE - 2];
    CommonStart(head, before[k..], memory[k..]);
  }

  /** A printed data frame comes back exactly when it spells itself and the buffers agree on what it leaves unset. */
  lemma DataRoundTrip(f: Frame, before: seq<bv8>, memory: seq<bv8>)
    requires f.Valid() && f.Data? && f.header == HEADER && |before| == |memory| == DATA_SIZE - 2
    ensures IsData(Printed(f, before))
    ensures Returns(f, before, memory) <==> SpellsItself(f, before) && PaddingsAgree(f, before, memory)
  {
    PaddingsDecide(f, before, memory);
    var b, crc := Printed(f, before), SerialCrc(Body(f, before));
    WhereTheParserCuts(f, before);
    ReadBack(TRANSPORT_DATA);
    ReadBack(crc);
    DataMisread(f, before);
    SameFields(f, before, LowHalf(f.id));
    hide SerialCrc;
    hide Body;
    hide Le16;
    hide Le32;
    hide FromLe16;
    hide FromLe32;
    hide LowHalf;
    hide Printed;
    hide Payload;
    hide Tail;
    hide Size;
    hide SpellsItself;
    hide DataFields;
    hide PaddingsAgree;
  }

  /** A frame with a full payload leaves nothing unset. */
  lemma FullFrameReturns(f: Frame, before: seq<bv8>, memory: seq<bv8>)
    requires f.Valid() && f.Data? && f.header == HEADER && |before| == |memory| == DATA_SIZE - 2
    requires |f.data| == DATA_LEN_MAX
    ensures Returns(f, before, memory) <==> SpellsItself(f, before)
  {
    DataRoundTrip(f, before, memory);
    hide SpellsItself;
    hide Returns;
    hide SerialCrc;
    assert before[528..] == memory[528..];
  }

  /** The empty frame 0 of file 0. */
  predicate IsEmptyFrame(f: Frame) {
    f.Data? && f.id == 0 && f.nFrame == 0 && f.dataLen == 0
  }

  /** A full frame that consists of its own length, over and over. */
  predicate IsOwnLength(f: Frame) {
    && f.Data? && f.id == 0x0200_0200 && f.nFrame == 0x0200 && f.dataLen == 0x0200
    && forall i | 0 <= i < |f.data| :: f.data[i] == if i % 2 == 0 then 0 else 2
  }

  /** Printed into zeros, of all data frames two come back: one always, and one if the parser's buffer passes for
      zeros too. */
  lemma TwoFramesReturn(f: Frame, zeros: seq<bv8>, memory: seq<bv8>)
    requires f.Valid() && f.Data? && f.header == HEADER && |zeros| == |memory| == DATA_SIZE - 2
    requires forall i | 0 <= i < |zeros| :: zeros[i] == 0
    ensures Returns(f, zeros, memory) <==>
            IsOwnLength(f) || (IsEmptyFrame(f) && SerialCrc(zeros[16..]) == SerialCrc(memory[16..]))
  {
    WhichFrame(f);
    hide *;
    DataRoundTrip(f, zeros, memory);
    WhoSpellsItself(f, zeros);
    if IsOwnLength(f) {
      FullFrameReturns(f, zeros, memory);
    } else if IsEmptyFrame(f) {
      PaddingsOfEmpty(f, zeros, memory);
    }
  }

  lemma WhichFrame(f: Frame)
    requires f.Valid() && f.Data?
    ensures IsOwnLength(f) ==> |f.data| == DATA_LEN_MAX
    ensures IsEmptyFrame(f) ==> |f.data| == 0
  {
  }

  lemma PaddingsOfEmpty(f: Frame, before: seq<bv8>, memory: seq<bv8>)
    requires f.Valid() && f.Data? && |before| == |memory| == DATA_SIZE - 2 && |f.data| == 0
    ensures PaddingsAgree(f, before, memory) <==> SerialCrc(before[16..]) == SerialCrc(memory[16..])
  {
    hide SerialCrc;
  }

  /** The frame of lengths comes back whatever either buffer held. */
  lemma OwnLengthReturns(f: Frame, before: seq<bv8>, memory: seq<bv8>)
    requires f.Valid() && f.Data? && f.header == HEADER && |before| == |memory| == DATA_SIZE - 2
    requires IsOwnLength(f)
    ensures Returns(f, before, memory)
  {
    WhichFrame(f);
    hide *;
    OwnLengthSpells(f, before);
    FullFrameReturns(f, before, memory);
  }

  // ---- Solving for the frames that spell themselves ----

  lemma {:induction false} Periodic(head: seq<bv8>, data: seq<bv8>, rest: seq<bv8>, j: nat)
    requires |head| == 6 && data == (head + data + rest)[..|data|] && j < |data|
    ensures data[j] == head[j % 6]
  {
    var t := head + data + rest;
    assert data[j] == t[j];
    if 6 <= j {
      assert t[j] == data[j - 6];
      Periodic(head, data, rest, j - 6);
    }
  }

  /** The numbers that the parser finds at the end of a payload which repeats the six bytes before it. */
  lemma EndOfPayload(head: seq<bv8>, data: seq<bv8>, rest: seq<bv8>)
    requires |head| == 6 && data == (head + data + rest)[..|data|]
    requires |data| + |rest| == 512 && forall i | 0 <= i < |rest| :: rest[i] == 0
    requires (data + rest)[506..510] == head[4..] + head[..2] && (data + rest)[510..] == head[2..4]
    ensures |data| < 512 ==> head[5] == 0
    ensures |data| <= 506 ==> head[..2] == head[2..4] == head[4..] == [0, 0]
    ensures |data| == 512 ==> head[..2] == head[2..4] == head[4..]
  {
    var p := data + rest;
    assert p[506] == head[4] && p[507] == head[5] && p[508] == head[0] && p[509] == head[1] by {
      assert p[506..510][0] == p[506] && p[506..510][1] == p[507];
      assert p[506..510][2] == p[508] && p[506..510][3] == p[509];
    }
    assert p[510] == head[2] && p[511] == head[3] by {
      assert p[510..][0] == p[510] && p[510..][1] == p[511];
    }
    if 507 < |data| {
      Periodic(head, data, rest, 507);
    }
    if |data| == 512 {
      Periodic(head, data, rest, 506);
      Periodic(head, data, rest, 508);
      Periodic(head, data, rest, 509);
      Periodic(head, data, rest, 510);
      Periodic(head, data, rest, 511);
    }
  }

  /** The six bytes that the payload follows, from the parser's point of view. */
  function Head(f: Frame): (s: seq<bv8>)
    requires f.Data?
    ensures |s| == 6
  {
    Le32(f.id)[2..] + Le16(f.nFrame) + Le16(f.dataLen)
  }

  lemma HeadParts(f: Frame)
    requires f.Data?
    ensures Head(f)[..2] == Le32(f.id)[2..] && Head(f)[2..4] == Le16(f.nFrame) && Head(f)[4..] == Le16(f.dataLen)
    ensures Le32(f.id) == Le32(f.id)[..2] + Head(f)[..2]
    ensures Head(f)[5] == Le16(f.dataLen)[1]
  {
    hide Le16;
    hide Le32;
  }

  lemma SpellsIs(f: Frame, before: seq<bv8>)
    requires f.Valid() && f.Data? && |before| == DATA_SIZE - 2
    ensures |f.data| == Size(f.dataLen) <= 512
    ensures var rest := before[16 + |f.data|..];
            |rest| == 512 - |f.data|
            && (SpellsItself(f, before) <==>
                  && Le16(f.dataLen) == Le32(f.id)[..2]
                  && f.data == (Head(f) + f.data + rest)[..|f.data|]
                  && Le32(f.id) == (f.data + rest)[506..510]
                  && Le16(f.nFrame) == (f.data + rest)[510..])
  {
    hide Le16;
    hide Le32;
    hide Size;
    var rest := before[16 + |f.data|..];
    assert Tail(f, before) == Head(f) + f.data + rest;
  }

  lemma ShortBytes(n: bv16)
    ensures Le16(n)[1] == 0 ==> Size(n) < 256
    ensures Le16(n) == [0, 0] <==> n == 0
    ensures Le16(n) == [0, 2] <==> n == 0x0200
    ensures Size(n) == 0 <==> n == 0
    ensures Size(n) == 512 <==> n == 0x0200
  {
    Le16RoundTrip(n, [0, 0]);
    Le16RoundTrip(n, [0, 2]);
    UpperByteZero(n);
    SizeIs(n);
    assert FromLe16([0, 0]) == 0 && FromLe16([0, 2]) == 0x0200;
  }

  lemma UpperByteZero(n: bv16)
    ensures Le16(n)[1] == 0 ==> Size(n) < 256
  {
    if Le16(n)[1] == 0 {
      assert n < 256;
    }
  }

  lemma SizeIs(n: bv16)
    ensures Size(n) == 0 <==> n == 0
    ensures Size(n) == 512 <==> n == 0x0200
  {
  }

  lemma LongBytes(w: bv32)
    ensures Le32(w) == [0, 0, 0, 0] <==> w == 0
    ensures Le32(w) == [0, 2, 0, 2] <==> w == 0x0200_0200
  {
    Le32RoundTrip(w, [0, 0, 0, 0]);
    Le32RoundTrip(w, [0, 2, 0, 2]);
    assert FromLe32([0, 0, 0, 0]) == 0 && FromLe32([0, 2, 0, 2]) == 0x0200_0200;
  }

  /** What spelling itself means for the bytes alone. */
  lemma SpellsBytes(f: Frame, zeros: seq<bv8>)
    requires f.Valid() && f.Data? && |zeros| == DATA_SIZE - 2
    requires forall i | 0 <= i < |zeros| :: zeros[i] == 0
    requires SpellsItself(f, zeros)
    ensures var head := Head(f);
            && (|f.data| < 512 ==> head[5] == 0)
            && (|f.data| <= 506 ==> head[..2] == head[2..4] == head[4..] == [0, 0])
            && (|f.data| == 512 ==> head[..2] == head[2..4] == head[4..])
            && Le32(f.id) == head[4..] + head[..2]
            && f.data == (head + f.data + zeros[16 + |f.data|..])[..|f.data|]
  {
    SpellsIs(f, zeros);
    HeadParts(f);
    var head, rest := Head(f), zeros[16 + |f.data|..];
    assert forall i | 0 <= i < |rest| :: rest[i] == zeros[16 + |f.data| + i];
    hide *;
    assert Le32(f.id) == head[4..] + head[..2];
    EndOfPayload(head, f.data, rest);
  }

  lemma SpellsOneOfTwo(f: Frame, zeros: seq<bv8>)
    requires f.Valid() && f.Data? && |zeros| == DATA_SIZE - 2
    requires forall i | 0 <= i < |zeros| :: zeros[i] == 0
    requires SpellsItself(f, zeros)
    ensures IsEmptyFrame(f) || IsOwnLength(f)
  {
    SpellsIs(f, zeros);
    hide *;
    SpellsBytes(f, zeros);
    HeadParts(f);
    ShortBytes(f.dataLen);
    if |f.data| == 512 {
      RepeatsItself(Head(f), f.data, zeros[16 + |f.data|..]);
      OwnLengthFrom(f);
    } else {
      EmptyFrom(f);
    }
  }

  lemma OwnLengthFrom(f: Frame)
    requires f.Data? && Head(f)[..2] == Head(f)[2..4] == Head(f)[4..] && f.dataLen == 0x0200
    requires Le32(f.id) == Head(f)[4..] + Head(f)[..2]
    requires forall i | 0 <= i < |f.data| :: f.data[i] == if i % 2 == 0 then 0 else 2
    ensures IsOwnLength(f)
  {
    hide *;
    HeadParts(f);
    ShortBytes(f.dataLen);
    ShortBytes(f.nFrame);
    LongBytes(f.id);
    OwnLengthIs(f);
    assert Le32(f.id) == [0, 2] + [0, 2] == [0, 2, 0, 2];
  }

  lemma EmptyFrom(f: Frame)
    requires f.Data? && Head(f)[..2] == Head(f)[2..4] == Head(f)[4..] == [0, 0]
    requires Le32(f.id) == Head(f)[4..] + Head(f)[..2]
    ensures IsEmptyFrame(f)
  {
    hide *;
    HeadParts(f);
    ShortBytes(f.dataLen);
    ShortBytes(f.nFrame);
    LongBytes(f.id);
    EmptyIs(f);
    assert Le32(f.id) == [0, 0] + [0, 0] == [0, 0, 0, 0];
  }

  lemma RepeatsItself(head: seq<bv8>, data: seq<bv8>, rest: seq<bv8>)
    requires |head| == 6 && data == (head + data + rest)[..|data|]
    requires head[..2] == head[2..4] == head[4..] == [0, 2]
    ensures forall i | 0 <= i < |data| :: data[i] == if i % 2 == 0 then 0 else 2
  {
    HeadBytes(head);
    forall i | 0 <= i < |data| ensures data[i] == if i % 2 == 0 then 0 else 2 {
      Periodic(head, data, rest, i);
      SixIsEven(i);
    }
  }

  lemma HeadBytes(head: seq<bv8>)
    requires |head| == 6 && head[..2] == head[2..4] == head[4..] == [0, 2]
    ensures forall k | 0 <= k < 6 :: head[k] == if k % 2 == 0 then 0 else 2
  {
    assert head[0] == head[..2][0] && head[1] == head[..2][1];
    assert head[2] == head[2..4][0] && head[3] == head[2..4][1];
    assert head[4] == head[4..][0] && head[5] == head[4..][1];
  }

  lemma SixIsEven(i: nat)
    ensures 0 <= i % 6 < 6 && i % 6 % 2 == i % 2
  {
    var q, r := i / 6, i % 6;
    assert i == 2 * (3 * q + r / 2) + r % 2;
  }

  lemma OwnLengthIs(f: Frame)
    ensures IsOwnLength(f) <==>
            && f.Data? && f.id == 0x0200_0200 && f.nFrame == 0x0200 && f.dataLen == 0x0200
            && forall i | 0 <= i < |f.data| :: f.data[i] == if i % 2 == 0 then 0 else 2
  {
  }

  lemma EmptyIs(f: Frame)
    ensures IsEmptyFrame(f) <==> f.Data? && f.id == 0 && f.nFrame == 0 && f.dataLen == 0
  {
  }

  lemma WhoSpellsItself(f: Frame, zeros: seq<bv8>)
    requires f.Valid() && f.Data?
    requires |zeros| == DATA_SIZE - 2 && forall i | 0 <= i < |zeros| :: zeros[i] == 0
    ensures SpellsItself(f, zeros) <==> IsEmptyFrame(f) || IsOwnLength(f)
  {
    hide *;
    if SpellsItself(f, zeros) {
      SpellsOneOfTwo(f, zeros);
    }
    if IsEmptyFrame(f) {
      EmptySpells(f, zeros);
    }
    if IsOwnLength(f) {
      OwnLengthSpells(f, zeros);
    }
  }

  lemma EmptySpells(f: Frame, zeros: seq<bv8>)
    requires f.Valid() && f.Data? && |zeros| == DATA_SIZE - 2
    requires forall i | 0 <= i < |zeros| :: zeros[i] == 0
    requires IsEmptyFrame(f)
    ensures SpellsItself(f, zeros)
  {
    SpellsIs(f, zeros);
    EmptyIs(f);
    ShortBytes(f.dataLen);
    ShortBytes(f.nFrame);
    LongBytes(f.id);
    hide *;
    var rest := zeros[16..];
    assert f.data == [] && zeros[16 + |f.data|..] == rest && f.data + rest == rest;
    assert rest[506..510] == [0, 0, 0, 0] && rest[510..] == [0, 0];
    assert [0 as bv8, 0, 0, 0][..2] == [0, 0];
  }

  /** The full frame fills the payload area, so what the buffer held does not matter. */
  lemma OwnLengthSpells(f: Frame, before: seq<bv8>)
    requires f.Valid() && f.Data? && |before| == DATA_SIZE - 2 && IsOwnLength(f)
    ensures SpellsItself(f, before)
  {
    SpellsIs(f, before);
    OwnLengthIs(f);
    HeadParts(f);
    ShortBytes(f.dataLen);
    ShortBytes(f.nFrame);
    LongBytes(f.id);
    hide *;
    var rest := before[16 + |f.data|..];
    assert rest == [] && f.data + rest == f.data;
    assert [0 as bv8, 2, 0, 2][..2] == [0, 2] && [0 as bv8, 2, 0, 2][2..] == [0, 2];
    OwnLengthRepeats(Head(f), f.data, rest);
  }

  lemma OwnLengthRepeats(head: seq<bv8>, data: seq<bv8>, rest: seq<bv8>)
    requires |head| == 6 && head[..2] == head[2..4] == head[4..] == [0, 2] && |data| == 512
    requires forall i | 0 <= i < |data| :: data[i] == if i % 2 == 0 then 0 else 2
    ensures data == (head + data + rest)[..|data|]
    ensures data[506..510] == [0, 2, 0, 2] && data[510..] == [0, 2]
  {
    HeadBytes(head);
    var t := head + data + rest;
    forall j | 0 <= j < 512 ensures data[j] == t[j] {
      assert t[j] == if j < 6 then head[j] else data[j - 6];
    }
    assert data == t[..512];
  }
}
