/** The 121-bit trace record. The board driver packs its fields into two 64-bit
    registers; the replay programs unpack them from sixteen little-endian bytes. */
module TraceCodec {
  import opened Trace

  const RECORD_SIZE := 16

  datatype Fields = Fields(
    op: bv3, id: bv4, vaddr: bv48, vaddrValid: bool, value: bv64, valueValid: bool)
  {
    /** The record the replay machines work on. */
    function ToRecord(): Record {
      Record(op as int, id as int, vaddr as int, vaddrValid, value as int, valueValid)
    }
  }

  // --------------------------------------------------------------------- Encoder

  function Flag(b: bool): bv64 { if b then 1 else 0 }

  /** Register a: address, id, operation, address flag, low byte of the value. */
  function WordA(op: bv8, id: bv8, vaddr: bv64, vaddrValid: bool, value: bv64): bv64 {
    (vaddr & 0xFFFF_FFFF_FFFF) | ((id & 0xF) as bv64 << 48) | ((op & 0x7) as bv64 << 52)
    | (Flag(vaddrValid) << 55) | ((value & 0xFF) << 56)
  }

  /** Register b: the other seven bytes of the value, value flag. */
  function WordB(value: bv64, valueValid: bool): bv64 {
    ((value >> 8) & 0x00FF_FFFF_FFFF_FFFF) | (Flag(valueValid) << 56)
  }

  method BuildA(op: bv8, id: bv8, vaddr: bv64, vaddrValid: bool, value: bv64) returns (a: bv64)
    ensures a == WordA(op, id, vaddr, vaddrValid, value)
  {
    a := 0 | (vaddr & 0xFFFF_FFFF_FFFF);
    a := a | ((id & 0xF) as bv64 << 48);
    a := a | ((op & 0x7) as bv64 << 52);
    a := a | (Flag(vaddrValid) << 55);
    a := a | ((value & 0xFF) << 56);
  }

  method BuildB(value: bv64, valueValid: bool) returns (b: bv64)
    ensures b == WordB(value, valueValid)
  {
    b := 0 | ((value >> 8) & 0x00FF_FFFF_FFFF_FFFF);
    b := b | (Flag(valueValid) << 56);
  }

  // ----------------------------------------------------------------------- Bytes

  function Low(w: bv64): bv8 { (w & 0xFF) as bv8 }

  function WordBytes(w: bv64): (s: seq<bv8>)
    ensures |s| == 8
  {
    [Low(w), Low(w >> 8), Low(w >> 16), Low(w >> 24), Low(w >> 32), Low(w >> 40), Low(w >> 48), Low(w >> 56)]
  }

  /** A record in a trace file: both registers, least significant byte first. */
  function RecordBytes(a: bv64, b: bv64): (s: seq<bv8>)
    ensures |s| == RECORD_SIZE
  {
    WordBytes(a) + WordBytes(b)
  }

  // --------------------------------------------------------------------- Decoder

  /** Six bytes, least significant first. */
  function Six(b0: bv8, b1: bv8, b2: bv8, b3: bv8, b4: bv8, b5: bv8): bv64 {
    (b0 as bv64) | ((b1 as bv64) << 8) | ((b2 as bv64) << 16) | ((b3 as bv64) << 24)
    | ((b4 as bv64) << 32) | ((b5 as bv64) << 40)
  }

  function Eight(b0: bv8, b1: bv8, b2: bv8, b3: bv8, b4: bv8, b5: bv8, b6: bv8, b7: bv8): bv64 {
    Six(b0, b1, b2, b3, b4, b5) | ((b6 as bv64) << 48) | ((b7 as bv64) << 56)
  }

  function Address(s: seq<bv8>): bv64
    requires |s| == RECORD_SIZE
  {
    Six(s[0], s[1], s[2], s[3], s[4], s[5])
  }

  function Value(s: seq<bv8>): bv64
    requires |s| == RECORD_SIZE
  {
    Eight(s[7], s[8], s[9], s[10], s[11], s[12], s[13], s[14])
  }

  /** Six bytes never reach beyond bit 47. */
  lemma SixFits(b0: bv8, b1: bv8, b2: bv8, b3: bv8, b4: bv8, b5: bv8)
    ensures Six(b0, b1, b2, b3, b4, b5) <= 0xFFFF_FFFF_FFFF
  {
  }

  /** The fields from the tag byte, the assembled words and the last byte. */
  function Unpack(tag: bv8, vaddr: bv64, value: bv64, last: bv8): Fields
    requires vaddr <= 0xFFFF_FFFF_FFFF
  {
    Fields(((tag >> 4) & 0x07) as bv3, (tag & 0x0F) as bv4, vaddr as bv48, (tag >> 7) & 0x01 == 1,
           value, last & 0x01 == 1)
  }

  function Decode(s: seq<bv8>): Fields
    requires |s| == RECORD_SIZE
  {
    SixFits(s[0], s[1], s[2], s[3], s[4], s[5]);
    Unpack(s[6], Address(s), Value(s), s[15])
  }

  /** A byte at place n: shifted by 8 * n bits. */
  function AtPlace(x: bv8, n: nat): bv64
    requires n < 8
  {
    match n
    case 0 => x as bv64
    case 1 => (x as bv64) << 8
    case 2 => (x as bv64) << 16
    case 3 => (x as bv64) << 24
    case 4 => (x as bv64) << 32
    case 5 => (x as bv64) << 40
    case 6 => (x as bv64) << 48
    case 7 => (x as bv64) << 56
  }

  /** The first n bytes as a number, least significant first. */
  function Assembled(s: seq<bv8>, n: nat): bv64
    requires n <= |s| && n <= 8
  {
    if n == 0 then 0 else Assembled(s, n - 1) | AtPlace(s[n - 1], n - 1)
  }

  lemma OneMore(s: seq<bv8>, n: nat)
    requires n < |s| && n < 8
    ensures Assembled(s, n + 1) == Assembled(s, n) | AtPlace(s[n], n)
  {
  }

  lemma SixAssembled(s: seq<bv8>)
    requires |s| >= 6
    ensures Assembled(s, 6) == Six(s[0], s[1], s[2], s[3], s[4], s[5])
  {
    assert Assembled(s, 1) == s[0] as bv64;
    assert Assembled(s, 2) == Assembled(s, 1) | ((s[1] as bv64) << 8);
    assert Assembled(s, 3) == Assembled(s, 2) | ((s[2] as bv64) << 16);
    assert Assembled(s, 4) == Assembled(s, 3) | ((s[3] as bv64) << 24);
    assert Assembled(s, 5) == Assembled(s, 4) | ((s[4] as bv64) << 32);
  }

  lemma EightFromSix(x: bv64, b0: bv8, b1: bv8, b2: bv8, b3: bv8, b4: bv8, b5: bv8, b6: bv8, b7: bv8)
    requires x == Six(b0, b1, b2, b3, b4, b5)
    ensures x | AtPlace(b6, 6) | AtPlace(b7, 7) == Eight(b0, b1, b2, b3, b4, b5, b6, b7)
  {
  }

  lemma EightAssembled(s: seq<bv8>, n: nat)
    requires |s| == 8 == n
    ensures Assembled(s, n) == Eight(s[0], s[1], s[2], s[3], s[4], s[5], s[6], s[7])
  {
    var x := Assembled(s, n - 2);
    OneMore(s, n - 2);
    OneMore(s, n - 1);
    SixAssembled(s);
    EightFromSix(x, s[0], s[1], s[2], s[3], s[4], s[5], s[6], s[7]);
  }

  method DecodeAddress(s: seq<bv8>) returns (vaddr: bv64)
    requires |s| == RECORD_SIZE
    ensures vaddr == Address(s)
  {
    vaddr := 0;
    for i := 0 to 6
      invariant vaddr == Assembled(s, i)
    {
      vaddr := vaddr | AtPlace(s[i], i);
    }
    SixAssembled(s);
  }

  method DecodeValue(s: seq<bv8>) returns (value: bv64)
    requires |s| == RECORD_SIZE
    ensures value == Value(s)
  {
    value := 0;
    for i := 0 to 8
      invariant value == Assembled(s[7..15], i)
    {
      value := value | AtPlace(s[7 + i], i);
    }
    EightAssembled(s[7..15], 8);
  }

  method DecodeRecord(buffer: seq<bv8>) returns (fields: Fields)
    requires |buffer| == RECORD_SIZE
    ensures fields == Decode(buffer)
  {
    var vaddr := DecodeAddress(buffer);
    var byte6 := buffer[6];
    var id, op, vVal := byte6 & 0x0F, (byte6 >> 4) & 0x07, (byte6 >> 7) & 0x01;
    var value := DecodeValue(buffer);
    var valVal := buffer[15] & 0x01;
    SixFits(buffer[0], buffer[1], buffer[2], buffer[3], buffer[4], buffer[5]);
    fields := Fields(op as bv3, id as bv4, vaddr as bv48, vVal == 1, value, valVal == 1);
  }

  // ------------------------------------------------------------------ Round trips

  lemma AddressBits(op: bv8, id: bv8, vaddr: bv64, vaddrValid: bool, value: bv64)
    ensures var a := WordA(op, id, vaddr, vaddrValid, value);
            Six(Low(a), Low(a >> 8), Low(a >> 16), Low(a >> 24), Low(a >> 32), Low(a >> 40))
            == vaddr & 0xFFFF_FFFF_FFFF
  {
    var a := WordA(op, id, vaddr, vaddrValid, value);
    assert a & 0xFFFF_FFFF_FFFF == vaddr & 0xFFFF_FFFF_FFFF;
    SixOfWord(a);
  }

  lemma SixOfWord(w: bv64)
    ensures Six(Low(w), Low(w >> 8), Low(w >> 16), Low(w >> 24), Low(w >> 32), Low(w >> 40)) == w & 0xFFFF_FFFF_FFFF
  {
  }

  lemma TagBits(op: bv8, id: bv8, vaddr: bv64, vaddrValid: bool, value: bv64)
    ensures var tag := Low(WordA(op, id, vaddr, vaddrValid, value) >> 48);
            && tag & 0x0F == id & 0x0F
            && (tag >> 4) & 0x07 == op & 0x07
            && ((tag >> 7) & 0x01 == 1 <==> vaddrValid)
  {
  }

  lemma ValueBits(op: bv8, id: bv8, vaddr: bv64, vaddrValid: bool, value: bv64, valueValid: bool)
    ensures var a, b := WordA(op, id, vaddr, vaddrValid, value), WordB(value, valueValid);
            && Eight(Low(a >> 56), Low(b), Low(b >> 8), Low(b >> 16), Low(b >> 24), Low(b >> 32), Low(b >> 40),
                     Low(b >> 48)) == value
  {
    HighByteOfA(op, id, vaddr, vaddrValid, value);
    HighBytesOfB(value, valueValid);
    ValueOfWords(WordA(op, id, vaddr, vaddrValid, value), WordB(value, valueValid), value);
  }

  lemma ValueOfWords(a: bv64, b: bv64, value: bv64)
    requires a >> 56 == value & 0xFF && b << 8 == (value >> 8) << 8
    ensures Eight(Low(a >> 56), Low(b), Low(b >> 8), Low(b >> 16), Low(b >> 24), Low(b >> 32), Low(b >> 40),
                  Low(b >> 48)) == value
  {
    EightOfWords(a, b);
    Halves(value);
  }

  lemma HighBytesOfB(value: bv64, valueValid: bool)
    ensures WordB(value, valueValid) << 8 == (value >> 8) << 8
  {
  }

  lemma Halves(value: bv64)
    ensures (value & 0xFF) | ((value >> 8) << 8) == value
  {
  }

  lemma EightOfWords(a: bv64, b: bv64)
    ensures Eight(Low(a >> 56), Low(b), Low(b >> 8), Low(b >> 16), Low(b >> 24), Low(b >> 32), Low(b >> 40),
                  Low(b >> 48)) == (a >> 56) | (b << 8)
  {
  }

  lemma HighByteOfA(op: bv8, id: bv8, vaddr: bv64, vaddrValid: bool, value: bv64)
    ensures WordA(op, id, vaddr, vaddrValid, value) >> 56 == value & 0xFF
  {
  }

  lemma FlagBit(value: bv64, valueValid: bool)
    ensures Low(WordB(value, valueValid) >> 56) & 0x01 == 1 <==> valueValid
  {
  }

  /** Decoding what the driver built gives every field back, cut to its width. */
  lemma DecodeEncode(op: bv8, id: bv8, vaddr: bv64, vaddrValid: bool, value: bv64, valueValid: bool)
    ensures Decode(RecordBytes(WordA(op, id, vaddr, vaddrValid, value), WordB(value, valueValid))) ==
            Fields((op & 0x7) as bv3, (id & 0xF) as bv4, (vaddr & 0xFFFF_FFFF_FFFF) as bv48,
                   vaddrValid, value, valueValid)
  {
    AddressBits(op, id, vaddr, vaddrValid, value);
    TagBits(op, id, vaddr, vaddrValid, value);
    ValueBits(op, id, vaddr, vaddrValid, value, valueValid);
    FlagBit(value, valueValid);
  }

  lemma HighBitsOfB(value: bv64, valueValid: bool)
    ensures WordB(value, valueValid) & 0xFE00_0000_0000_0000 == 0
  {
  }

  /** The two registers carry every field, cut to its width, to the decoder; the
      other seven bits are zero. */
  method BuildTrace(op: bv8, id: bv8, vaddr: bv64, vaddrValid: bool, value: bv64, valueValid: bool)
      returns (a: bv64, b: bv64)
    ensures Decode(RecordBytes(a, b)) ==
            Fields((op & 0x7) as bv3, (id & 0xF) as bv4, (vaddr & 0xFFFF_FFFF_FFFF) as bv48,
                   vaddrValid, value, valueValid)
    ensures b & 0xFE00_0000_0000_0000 == 0
  {
    a := BuildA(op, id, vaddr, vaddrValid, value);
    b := BuildB(value, valueValid);
    HighBitsOfB(value, valueValid);
    DecodeEncode(op, id, vaddr, vaddrValid, value, valueValid);
  }

  /** The driver's encoding of decoded fields. */
  function Encode(f: Fields): (s: seq<bv8>)
    ensures |s| == RECORD_SIZE
  {
    RecordBytes(WordA(f.op as bv8, f.id as bv8, f.vaddr as bv64, f.vaddrValid, f.value), WordB(f.value, f.valueValid))
  }

  lemma FieldsBack(op: bv3, id: bv4, vaddr: bv48, vaddrValid: bool, value: bv64, valueValid: bool)
    ensures var a := WordA(op as bv8, id as bv8, vaddr as bv64, vaddrValid, value);
            var b := WordB(value, valueValid);
            && ((Low(a >> 48) >> 4) & 0x07) as bv3 == op
            && (Low(a >> 48) & 0x0F) as bv4 == id
            && ((Low(a >> 48) >> 7) & 0x01 == 1 <==> vaddrValid)
            && (Low(b >> 56) & 0x01 == 1 <==> valueValid)
  {
  }

  lemma NarrowBack(vaddr: bv48)
    ensures (vaddr as bv64) & 0xFFFF_FFFF_FFFF == vaddr as bv64 <= 0xFFFF_FFFF_FFFF
    ensures (vaddr as bv64) as bv48 == vaddr
  {
  }

  lemma AddressBack(op: bv3, id: bv4, vaddr: bv48, vaddrValid: bool, value: bv64)
    ensures var a := WordA(op as bv8, id as bv8, vaddr as bv64, vaddrValid, value);
            var x := Six(Low(a), Low(a >> 8), Low(a >> 16), Low(a >> 24), Low(a >> 32), Low(a >> 40));
            x <= 0xFFFF_FFFF_FFFF && x as bv48 == vaddr
  {
    AddressBits(op as bv8, id as bv8, vaddr as bv64, vaddrValid, value);
    NarrowBack(vaddr);
  }

  lemma DecodeOfEncode(f: Fields)
    ensures Decode(Encode(f)) == f
  {
    FieldsBack(f.op, f.id, f.vaddr, f.vaddrValid, f.value, f.valueValid);
    AddressBack(f.op, f.id, f.vaddr, f.vaddrValid, f.value);
    ValueBits(f.op as bv8, f.id as bv8, f.vaddr as bv64, f.vaddrValid, f.value, f.valueValid);
  }

  lemma SixIsInjective(b0: bv8, b1: bv8, b2: bv8, b3: bv8, b4: bv8, b5: bv8,
                       c0: bv8, c1: bv8, c2: bv8, c3: bv8, c4: bv8, c5: bv8)
    requires Six(b0, b1, b2, b3, b4, b5) == Six(c0, c1, c2, c3, c4, c5)
    ensures b0 == c0 && b1 == c1 && b2 == c2 && b3 == c3 && b4 == c4 && b5 == c5
  {
  }

  lemma EightIsInjective(b0: bv8, b1: bv8, b2: bv8, b3: bv8, b4: bv8, b5: bv8, b6: bv8, b7: bv8,
                         c0: bv8, c1: bv8, c2: bv8, c3: bv8, c4: bv8, c5: bv8, c6: bv8, c7: bv8)
    requires Eight(b0, b1, b2, b3, b4, b5, b6, b7) == Eight(c0, c1, c2, c3, c4, c5, c6, c7)
    ensures b0 == c0 && b1 == c1 && b2 == c2 && b3 == c3 && b4 == c4 && b5 == c5 && b6 == c6 && b7 == c7
  {
  }

  lemma UnpackIsInjective(tag: bv8, vaddr: bv64, value: bv64, last: bv8,
                          tag': bv8, vaddr': bv64, value': bv64, last': bv8)
    requires vaddr <= 0xFFFF_FFFF_FFFF && vaddr' <= 0xFFFF_FFFF_FFFF
    requires last & 0xFE == 0 && last' & 0xFE == 0
    requires Unpack(tag, vaddr, value, last) == Unpack(tag', vaddr', value', last')
    ensures tag == tag' && vaddr == vaddr' && value == value' && last == last'
  {
  }

  /** The seven unused bits apart, a record has one encoding. */
  lemma DecodeIsInjective(s: seq<bv8>, t: seq<bv8>)
    requires |s| == |t| == RECORD_SIZE && s[15] & 0xFE == 0 && t[15] & 0xFE == 0
    requires Decode(s) == Decode(t)
    ensures s == t
  {
    SixFits(s[0], s[1], s[2], s[3], s[4], s[5]);
    SixFits(t[0], t[1], t[2], t[3], t[4], t[5]);
    UnpackIsInjective(s[6], Address(s), Value(s), s[15], t[6], Address(t), Value(t), t[15]);
    SixIsInjective(s[0], s[1], s[2], s[3], s[4], s[5], t[0], t[1], t[2], t[3], t[4], t[5]);
    EightIsInjective(s[7], s[8], s[9], s[10], s[11], s[12], s[13], s[14],
                     t[7], t[8], t[9], t[10], t[11], t[12], t[13], t[14]);
  }

  /** Sixteen bytes are the encoding of their own decoding exactly when their
      seven unused bits are zero. */
  lemma EncodeDecode(s: seq<bv8>)
    requires |s| == RECORD_SIZE
    ensures Encode(Decode(s)) == s <==> s[15] & 0xFE == 0
  {
    var f := Decode(s);
    UnusedBits(f);
    if s[15] & 0xFE == 0 {
      DecodeOfEncode(f);
      DecodeIsInjective(Encode(f), s);
    }
  }

  lemma UnusedBits(f: Fields)
    ensures Encode(f)[15] & 0xFE == 0
  {
  }

  // ----------------------------------------------------------------- Whole files

  /** What a trace file means: whole records from the front, a tail that is too
      short for one is not read. */
  function Records(bytes: seq<bv8>): seq<Record> {
    if |bytes| < RECORD_SIZE then []
    else [Decode(bytes[..RECORD_SIZE]).ToRecord()] + Records(bytes[RECORD_SIZE..])
  }

  function EncodeAll(fs: seq<Fields>): seq<bv8> {
    if fs == [] then [] else Encode(fs[0]) + EncodeAll(fs[1..])
  }

  lemma FirstRecord(f: Fields, s: seq<bv8>, rest: seq<bv8>)
    requires s == Encode(f)
    ensures Records(s + rest) == [f.ToRecord()] + Records(rest)
  {
    assert (s + rest)[..RECORD_SIZE] == s && (s + rest)[RECORD_SIZE..] == rest;
    DecodeOfEncode(f);
  }

  /** A file written with the driver's encoding, even with a partial record
      behind it, reads back as the records that were written. */
  lemma {:induction false} FileRoundTrip(fs: seq<Fields>, tail: seq<bv8>)
    requires |tail| < RECORD_SIZE
    ensures |Records(EncodeAll(fs) + tail)| == |fs|
    ensures forall i :: 0 <= i < |fs| ==> Records(EncodeAll(fs) + tail)[i] == fs[i].ToRecord()
  {
    if fs == [] {
      assert EncodeAll(fs) + tail == tail;
    } else {
      FirstRecord(fs[0], Encode(fs[0]), EncodeAll(fs[1..]) + tail);
      assert EncodeAll(fs) + tail == Encode(fs[0]) + (EncodeAll(fs[1..]) + tail);
      FileRoundTrip(fs[1..], tail);
    }
  }

  /** Reads the file record by record. */
  method ReadRecords(bytes: seq<bv8>) returns (records: seq<Record>)
    ensures records == Records(bytes)
  {
    records := [];
    var pos := 0;
    while pos + RECORD_SIZE <= |bytes|
      invariant 0 <= pos <= |bytes|
      invariant Records(bytes) == records + Records(bytes[pos..])
    {
      var fields := DecodeRecord(bytes[pos..pos + RECORD_SIZE]);
      assert bytes[pos..][..RECORD_SIZE] == bytes[pos..pos + RECORD_SIZE];
      assert bytes[pos..][RECORD_SIZE..] == bytes[pos + RECORD_SIZE..];
      records := records + [fields.ToRecord()];
      pos := pos + RECORD_SIZE;
    }
  }
}
