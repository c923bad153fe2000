/** The trace file in plain numbers: what each record says, byte by byte, without
    shifts, masks or field types. */
module TraceBytes {
  import opened Trace
  import opened TraceCodec

  // A byte above n others adds itself at its place value.

  lemma Place1(x: bv64, b: bv8)
    requires x < 0x100
    ensures (x | ((b as bv64) << 8)) as int == x as int + 0x100 * (b as int)
    ensures x | ((b as bv64) << 8) < 0x1_0000
  {
  }

  lemma Place2(x: bv64, b: bv8)
    requires x < 0x1_0000
    ensures (x | ((b as bv64) << 16)) as int == x as int + 0x1_0000 * (b as int)
    ensures x | ((b as bv64) << 16) < 0x100_0000
  {
  }

  lemma Place3(x: bv64, b: bv8)
    requires x < 0x100_0000
    ensures (x | ((b as bv64) << 24)) as int == x as int + 0x100_0000 * (b as int)
    ensures x | ((b as bv64) << 24) < 0x1_0000_0000
  {
  }

  lemma Place4(x: bv64, b: bv8)
    requires x < 0x1_0000_0000
    ensures (x | ((b as bv64) << 32)) as int == x as int + 0x1_0000_0000 * (b as int)
    ensures x | ((b as bv64) << 32) < 0x100_0000_0000
  {
  }

  lemma Place5(x: bv64, b: bv8)
    requires x < 0x100_0000_0000
    ensures (x | ((b as bv64) << 40)) as int == x as int + 0x100_0000_0000 * (b as int)
    ensures x | ((b as bv64) << 40) < 0x1_0000_0000_0000
  {
  }

  lemma Place6(x: bv64, b: bv8)
    requires x < 0x1_0000_0000_0000
    ensures (x | ((b as bv64) << 48)) as int == x as int + 0x1_0000_0000_0000 * (b as int)
    ensures x | ((b as bv64) << 48) < 0x100_0000_0000_0000
  {
  }

  lemma Place7(x: bv64, b: bv8)
    requires x < 0x100_0000_0000_0000
    ensures (x | ((b as bv64) << 56)) as int == x as int + 0x100_0000_0000_0000 * (b as int)
  {
  }

  // So do the bytes of a number, one after the other.

  lemma TwoAdd(y: bv64, x: bv64, b0: bv8, b1: bv8)
    requires x == (b0 as bv64)
    requires y == x | ((b1 as bv64) << 8)
    ensures y < 0x1_0000
    ensures y as int == b0 as int + 0x100 * (b1 as int)
  {
    Place1(x, b1);
  }

  lemma ThreeAdd(y: bv64, x: bv64, b0: bv8, b1: bv8, b2: bv8)
    requires x == (b0 as bv64) | ((b1 as bv64) << 8)
    requires y == x | ((b2 as bv64) << 16)
    ensures y < 0x100_0000
    ensures y as int == b0 as int + 0x100 * (b1 as int) + 0x1_0000 * (b2 as int)
  {
    var w := (b0 as bv64);
    TwoAdd(x, w, b0, b1);
    Place2(x, b2);
  }

  lemma FourAdd(y: bv64, x: bv64, b0: bv8, b1: bv8, b2: bv8, b3: bv8)
    requires x == (b0 as bv64) | ((b1 as bv64) << 8) | ((b2 as bv64) << 16)
    requires y == x | ((b3 as bv64) << 24)
    ensures y < 0x1_0000_0000
    ensures y as int == b0 as int + 0x100 * (b1 as int) + 0x1_0000 * (b2 as int) + 0x100_0000 * (b3 as int)
  {
    var w := (b0 as bv64) | ((b1 as bv64) << 8);
    ThreeAdd(x, w, b0, b1, b2);
    Place3(x, b3);
  }

  lemma FiveAdd(y: bv64, x: bv64, b0: bv8, b1: bv8, b2: bv8, b3: bv8, b4: bv8)
    requires x == (b0 as bv64) | ((b1 as bv64) << 8) | ((b2 as bv64) << 16) | ((b3 as bv64) << 24)
    requires y == x | ((b4 as bv64) << 32)
    ensures y < 0x100_0000_0000
    ensures y as int == b0 as int + 0x100 * (b1 as int) + 0x1_0000 * (b2 as int) + 0x100_0000 * (b3 as int)
                        + 0x1_0000_0000 * (b4 as int)
  {
    var w := (b0 as bv64) | ((b1 as bv64) << 8) | ((b2 as bv64) << 16);
    FourAdd(x, w, b0, b1, b2, b3);
    Place4(x, b4);
  }

  lemma SixAdd(y: bv64, x: bv64, b0: bv8, b1: bv8, b2: bv8, b3: bv8, b4: bv8, b5: bv8)
    requires x == (b0 as bv64) | ((b1 as bv64) << 8) | ((b2 as bv64) << 16) | ((b3 as bv64) << 24) | ((b4 as bv64)
             << 32)
    requires y == x | ((b5 as bv64) << 40)
    ensures y < 0x1_0000_0000_0000
    ensures y as int == b0 as int + 0x100 * (b1 as int) + 0x1_0000 * (b2 as int) + 0x100_0000 * (b3 as int)
                        + 0x1_0000_0000 * (b4 as int) + 0x100_0000_0000 * (b5 as int)
  {
    var w := (b0 as bv64) | ((b1 as bv64) << 8) | ((b2 as bv64) << 16) | ((b3 as bv64) << 24);
    FiveAdd(x, w, b0, b1, b2, b3, b4);
    Place5(x, b5);
  }

  lemma SixParts(b0: bv8, b1: bv8, b2: bv8, b3: bv8, b4: bv8, b5: bv8) returns (y: bv64, x: bv64)
    ensures y == Six(b0, b1, b2, b3, b4, b5) && y == x | ((b5 as bv64) << 40)
    ensures x == (b0 as bv64) | ((b1 as bv64) << 8) | ((b2 as bv64) << 16) | ((b3 as bv64) << 24) | ((b4 as bv64) << 32)
  {
    y := Six(b0, b1, b2, b3, b4, b5);
    x := (b0 as bv64) | ((b1 as bv64) << 8) | ((b2 as bv64) << 16) | ((b3 as bv64) << 24) | ((b4 as bv64) << 32);
  }

  lemma EightIsSixAndTwo(b0: bv8, b1: bv8, b2: bv8, b3: bv8, b4: bv8, b5: bv8, b6: bv8, b7: bv8)
    ensures Eight(b0, b1, b2, b3, b4, b5, b6, b7) ==
            Six(b0, b1, b2, b3, b4, b5) | ((b6 as bv64) << 48) | ((b7 as bv64) << 56)
  {
  }

  lemma SixInNumbers(b0: bv8, b1: bv8, b2: bv8, b3: bv8, b4: bv8, b5: bv8) returns (y: bv64)
    ensures y == Six(b0, b1, b2, b3, b4, b5) && y < 0x1_0000_0000_0000
    ensures y as int
            == b0 as int + 0x100 * (b1 as int) + 0x1_0000 * (b2 as int) + 0x100_0000 * (b3 as int)
               + 0x1_0000_0000 * (b4 as int) + 0x100_0000_0000 * (b5 as int)
  {
    var x;
    y, x := SixParts(b0, b1, b2, b3, b4, b5);
    SixAdd(y, x, b0, b1, b2, b3, b4, b5);
  }

  lemma EightInNumbers(b0: bv8, b1: bv8, b2: bv8, b3: bv8, b4: bv8, b5: bv8, b6: bv8, b7: bv8) returns (y: bv64)
    ensures y == Eight(b0, b1, b2, b3, b4, b5, b6, b7)
    ensures y as int
            == b0 as int + 0x100 * (b1 as int) + 0x1_0000 * (b2 as int) + 0x100_0000 * (b3 as int)
               + 0x1_0000_0000 * (b4 as int) + 0x100_0000_0000 * (b5 as int)
               + 0x1_0000_0000_0000 * (b6 as int) + 0x100_0000_0000_0000 * (b7 as int)
  {
    var x := SixInNumbers(b0, b1, b2, b3, b4, b5);
    y := TwoMore(x, b6, b7);
    EightIsSixAndTwo(b0, b1, b2, b3, b4, b5, b6, b7);
  }

  lemma TwoMore(x: bv64, b6: bv8, b7: bv8) returns (y: bv64)
    requires x < 0x1_0000_0000_0000
    ensures y == x | ((b6 as bv64) << 48) | ((b7 as bv64) << 56)
    ensures y as int == x as int + 0x1_0000_0000_0000 * (b6 as int) + 0x100_0000_0000_0000 * (b7 as int)
  {
    var w := PutSixth(x, b6);
    y := PutSeventh(w, b7);
  }

  lemma PutSixth(x: bv64, b: bv8) returns (y: bv64)
    requires x < 0x1_0000_0000_0000
    ensures y == x | ((b as bv64) << 48) && y < 0x100_0000_0000_0000
    ensures y as int == x as int + 0x1_0000_0000_0000 * (b as int)
  {
    Place6(x, b);
    y := x | ((b as bv64) << 48);
  }

  lemma PutSeventh(x: bv64, b: bv8) returns (y: bv64)
    requires x < 0x100_0000_0000_0000
    ensures y == x | ((b as bv64) << 56)
    ensures y as int == x as int + 0x100_0000_0000_0000 * (b as int)
  {
    Place7(x, b);
    y := x | ((b as bv64) << 56);
  }

  lemma AddressInNumbers(s: seq<bv8>)
    requires |s| == 16
    ensures Decode(s).vaddr as int
            == s[0] as int + 0x100 * (s[1] as int) + 0x1_0000 * (s[2] as int) + 0x100_0000 * (s[3] as int)
               + 0x1_0000_0000 * (s[4] as int) + 0x100_0000_0000 * (s[5] as int)
  {
    AddressOf(Address(s), s[6], Value(s), s[15]);
    var y := SixInNumbers(s[0], s[1], s[2], s[3], s[4], s[5]);
  }

  lemma ValueInNumbers(s: seq<bv8>)
    requires |s| == 16
    ensures Decode(s).value as int
            == s[7] as int + 0x100 * (s[8] as int) + 0x1_0000 * (s[9] as int) + 0x100_0000 * (s[10] as int)
               + 0x1_0000_0000 * (s[11] as int) + 0x100_0000_0000 * (s[12] as int)
               + 0x1_0000_0000_0000 * (s[13] as int) + 0x100_0000_0000_0000 * (s[14] as int)
  {
    var y := EightInNumbers(s[7], s[8], s[9], s[10], s[11], s[12], s[13], s[14]);
  }

  lemma TagInNumbers(tag: bv8, last: bv8)
    ensures ((tag & 0x0F) as bv4) as int == (tag as int) % 16
    ensures (((tag >> 4) & 0x07) as bv3) as int == (tag as int) / 16 % 8
    ensures (tag >> 7) & 0x01 == 1 <==> tag as int >= 128
    ensures last & 0x01 == 1 <==> (last as int) % 2 == 1
  {
  }

  lemma NarrowInNumbers(x: bv64)
    requires x <= 0xFFFF_FFFF_FFFF
    ensures (x as bv48) as int == x as int
  {
  }

  lemma AddressOf(x: bv64, tag: bv8, value: bv64, last: bv8)
    ensures x <= 0xFFFF_FFFF_FFFF ==> Unpack(tag, x, value, last).vaddr as int == x as int
  {
    if x <= 0xFFFF_FFFF_FFFF {
      NarrowInNumbers(x);
    }
  }

  lemma Tagged(s: seq<bv8>)
    requires |s| == 16
    ensures var f := Decode(s);
            && f.id as int == (s[6] as int) % 16 && f.op as int == (s[6] as int) / 16 % 8
            && (f.vaddrValid <==> s[6] as int >= 128) && (f.valueValid <==> (s[15] as int) % 2 == 1)
  {
    TagInNumbers(s[6], s[15]);
  }

  /** Record k of a file is made of the bytes from 16 * k on. */
  lemma {:induction false} RecordAt(bytes: seq<bv8>, k: nat)
    requires 16 * k + 16 <= |bytes|
    ensures k < |Records(bytes)| && Records(bytes)[k] == Decode(bytes[16 * k..16 * k + 16]).ToRecord()
    decreases k
  {
    if k > 0 {
      RecordAt(bytes[16..], k - 1);
      Shifted(bytes, 16 * k);
    }
  }

  lemma Shifted(bytes: seq<bv8>, i: nat)
    requires 16 <= i && i + 16 <= |bytes|
    ensures bytes[16..][i - 16..i] == bytes[i..i + 16]
  {
  }

  lemma {:induction false} RecordCount(bytes: seq<bv8>)
    ensures |Records(bytes)| == |bytes| / 16
  {
    if |bytes| >= 16 {
      RecordCount(bytes[16..]);
    }
  }

  /** The k-th record of a file: a 48-bit address and a 64-bit value, least
      significant byte first, four bits of id, three of operation, and two flags. */
  lemma FileInNumbers(bytes: seq<bv8>, k: nat)
    requires k < |bytes| / 16
    ensures |Records(bytes)| == |bytes| / 16
    ensures var r, i := Records(bytes)[k], 16 * k;
            && r.vaddr == bytes[i] as int + 0x100 * (bytes[i+1] as int) + 0x1_0000 * (bytes[i+2] as int)
                          + 0x100_0000 * (bytes[i+3] as int) + 0x1_0000_0000 * (bytes[i+4] as int)
                          + 0x100_0000_0000 * (bytes[i+5] as int)
            && r.value == bytes[i+7] as int + 0x100 * (bytes[i+8] as int) + 0x1_0000 * (bytes[i+9] as int)
                          + 0x100_0000 * (bytes[i+10] as int) + 0x1_0000_0000 * (bytes[i+11] as int)
                          + 0x100_0000_0000 * (bytes[i+12] as int)
                          + 0x1_0000_0000_0000 * (bytes[i+13] as int)
                          + 0x100_0000_0000_0000 * (bytes[i+14] as int)
            && r.id == (bytes[i+6] as int) % 16 && r.op == (bytes[i+6] as int) / 16 % 8
            && (r.vaddrValid <==> bytes[i+6] as int >= 128) && (r.valueValid <==> (bytes[i+15] as int) % 2 == 1)
  {
    var s := bytes[16 * k..16 * k + 16];
    RecordCount(bytes);
    RecordAt(bytes, k);
    AddressInNumbers(s);
    ValueInNumbers(s);
    Tagged(s);
  }
}
