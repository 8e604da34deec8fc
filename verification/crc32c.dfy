/**
 CRC32c: the table-driven loop of checksumCrc32C, the bit-by-bit division it stands for,
 and what that says about which messages can collide.
 */
module Crc32c {

  // ------- the table and the loop -------

  /** Entries 16 * r to 16 * r + 15 of the table. */
  function Row(r: nat): (row: seq<bv32>)
    requires r < 16
    ensures |row| == 16
  {
    match r
    case 0 => [0x00000000, 0xF26B8303, 0xE13B70F7, 0x1350F3F4,
               0xC79A971F, 0x35F1141C, 0x26A1E7E8, 0xD4CA64EB,
               0x8AD958CF, 0x78B2DBCC, 0x6BE22838, 0x9989AB3B,
               0x4D43CFD0, 0xBF284CD3, 0xAC78BF27, 0x5E133C24]
    case 1 => [0x105EC76F, 0xE235446C, 0xF165B798, 0x030E349B,
               0xD7C45070, 0x25AFD373, 0x36FF2087, 0xC494A384,
               0x9A879FA0, 0x68EC1CA3, 0x7BBCEF57, 0x89D76C54,
               0x5D1D08BF, 0xAF768BBC, 0xBC267848, 0x4E4DFB4B]
    case 2 => [0x20BD8EDE, 0xD2D60DDD, 0xC186FE29, 0x33ED7D2A,
               0xE72719C1, 0x154C9AC2, 0x061C6936, 0xF477EA35,
               0xAA64D611, 0x580F5512, 0x4B5FA6E6, 0xB93425E5,
               0x6DFE410E, 0x9F95C20D, 0x8CC531F9, 0x7EAEB2FA]
    case 3 => [0x30E349B1, 0xC288CAB2, 0xD1D83946, 0x23B3BA45,
               0xF779DEAE, 0x05125DAD, 0x1642AE59, 0xE4292D5A,
               0xBA3A117E, 0x4851927D, 0x5B016189, 0xA96AE28A,
               0x7DA08661, 0x8FCB0562, 0x9C9BF696, 0x6EF07595]
    case 4 => [0x417B1DBC, 0xB3109EBF, 0xA0406D4B, 0x522BEE48,
               0x86E18AA3, 0x748A09A0, 0x67DAFA54, 0x95B17957,
               0xCBA24573, 0x39C9C670, 0x2A993584, 0xD8F2B687,
               0x0C38D26C, 0xFE53516F, 0xED03A29B, 0x1F682198]
    case 5 => [0x5125DAD3, 0xA34E59D0, 0xB01EAA24, 0x42752927,
               0x96BF4DCC, 0x64D4CECF, 0x77843D3B, 0x85EFBE38,
               0xDBFC821C, 0x2997011F, 0x3AC7F2EB, 0xC8AC71E8,
               0x1C661503, 0xEE0D9600, 0xFD5D65F4, 0x0F36E6F7]
    case 6 => [0x61C69362, 0x93AD1061, 0x80FDE395, 0x72966096,
               0xA65C047D, 0x5437877E, 0x4767748A, 0xB50CF789,
               0xEB1FCBAD, 0x197448AE, 0x0A24BB5A, 0xF84F3859,
               0x2C855CB2, 0xDEEEDFB1, 0xCDBE2C45, 0x3FD5AF46]
    case 7 => [0x7198540D, 0x83F3D70E, 0x90A324FA, 0x62C8A7F9,
               0xB602C312, 0x44694011, 0x5739B3E5, 0xA55230E6,
               0xFB410CC2, 0x092A8FC1, 0x1A7A7C35, 0xE811FF36,
               0x3CDB9BDD, 0xCEB018DE, 0xDDE0EB2A, 0x2F8B6829]
    case 8 => [0x82F63B78, 0x709DB87B, 0x63CD4B8F, 0x91A6C88C,
               0x456CAC67, 0xB7072F64, 0xA457DC90, 0x563C5F93,
               0x082F63B7, 0xFA44E0B4, 0xE9141340, 0x1B7F9043,
               0xCFB5F4A8, 0x3DDE77AB, 0x2E8E845F, 0xDCE5075C]
    case 9 => [0x92A8FC17, 0x60C37F14, 0x73938CE0, 0x81F80FE3,
               0x55326B08, 0xA759E80B, 0xB4091BFF, 0x466298FC,
               0x1871A4D8, 0xEA1A27DB, 0xF94AD42F, 0x0B21572C,
               0xDFEB33C7, 0x2D80B0C4, 0x3ED04330, 0xCCBBC033]
    case 10 => [0xA24BB5A6, 0x502036A5, 0x4370C551, 0xB11B4652,
                0x65D122B9, 0x97BAA1BA, 0x84EA524E, 0x7681D14D,
                0x2892ED69, 0xDAF96E6A, 0xC9A99D9E, 0x3BC21E9D,
                0xEF087A76, 0x1D63F975, 0x0E330A81, 0xFC588982]
    case 11 => [0xB21572C9, 0x407EF1CA, 0x532E023E, 0xA145813D,
                0x758FE5D6, 0x87E466D5, 0x94B49521, 0x66DF1622,
                0x38CC2A06, 0xCAA7A905, 0xD9F75AF1, 0x2B9CD9F2,
                0xFF56BD19, 0x0D3D3E1A, 0x1E6DCDEE, 0xEC064EED]
    case 12 => [0xC38D26C4, 0x31E6A5C7, 0x22B65633, 0xD0DDD530,
                0x0417B1DB, 0xF67C32D8, 0xE52CC12C, 0x1747422F,
                0x49547E0B, 0xBB3FFD08, 0xA86F0EFC, 0x5A048DFF,
                0x8ECEE914, 0x7CA56A17, 0x6FF599E3, 0x9D9E1AE0]
    case 13 => [0xD3D3E1AB, 0x21B862A8, 0x32E8915C, 0xC083125F,
                0x144976B4, 0xE622F5B7, 0xF5720643, 0x07198540,
                0x590AB964, 0xAB613A67, 0xB831C993, 0x4A5A4A90,
                0x9E902E7B, 0x6CFBAD78, 0x7FAB5E8C, 0x8DC0DD8F]
    case 14 => [0xE330A81A, 0x115B2B19, 0x020BD8ED, 0xF0605BEE,
                0x24AA3F05, 0xD6C1BC06, 0xC5914FF2, 0x37FACCF1,
                0x69E9F0D5, 0x9B8273D6, 0x88D28022, 0x7AB90321,
                0xAE7367CA, 0x5C18E4C9, 0x4F48173D, 0xBD23943E]
    case _ => [0xF36E6F75, 0x0105EC76, 0x12551F82, 0xE03E9C81,
                0x34F4F86A, 0xC69F7B69, 0xD5CF889D, 0x27A40B9E,
                0x79B737BA, 0x8BDCB4B9, 0x988C474D, 0x6AE7C44E,
                0xBE2DA0A5, 0x4C4623A6, 0x5F16D052, 0xAD7D5351]
  }

  /** `crc_c[i]` */
  function Entry(i: bv32): bv32
    requires i < 0x100
  {
    Nibble(i & 0xF);
    Nibble(i >> 4);
    Row((i >> 4) as nat)[(i & 0xF) as nat]
  }

  lemma Nibble(x: bv32)
    requires x < 0x10
    ensures (x as nat) < 16 && ((x as nat) as bv32) == x
  {
  }

  /** `CRC32C(c, d)` */
  function TableStep(c: bv32, d: bv8): bv32 {
    (c >> 8) ^ Entry((c ^ (d as bv32)) & 0xFF)
  }

  function Run(c: bv32, m: seq<bv8>): bv32
    decreases m
  {
    if m == [] then c else Run(TableStep(c, m[0]), m[1..])
  }

  /** The bytes of a word in the opposite order. */
  function SwapBytes(x: bv32): bv32 {
    ((x & 0xFF) << 24) | (((x >> 8) & 0xFF) << 16) | (((x >> 16) & 0xFF) << 8) | ((x >> 24) & 0xFF)
  }

  /** The final complement and byte swap. */
  function Finished(c: bv32): bv32 { SwapBytes(!c) }

  method ChecksumCrc32C(buffer: array<bv8>) returns (crc32: bv32)
    ensures crc32 == Finished(Run(0xFFFF_FFFF, buffer[..]))
  {
    hide TableStep, SwapBytes;
    crc32 := 0xFFFF_FFFF;
    assert buffer[0..] == buffer[..];
    for i := 0 to buffer.Length
      invariant Run(crc32, buffer[i..]) == Run(0xFFFF_FFFF, buffer[..])
    {
      assert buffer[i..][1..] == buffer[i + 1..];
      crc32 := TableStep(crc32, buffer[i]);
    }
    assert buffer[buffer.Length..] == [];
    var result := !crc32;
    crc32 := SwapBytes(result);
  }

  // ------- one bit at a time -------

  function Xor(a: bv32, b: bv32): bv32 { a ^ b }

  /** One step of the reflected shift register; the constant is the CRC32c polynomial,
      end for end. */
  function BitStep(c: bv32): bv32 {
    if c & 1 == 1 then (c >> 1) ^ 0x82F6_3B78 else c >> 1
  }

  function Steps(n: nat, c: bv32): bv32 {
    if n == 0 then c else Steps(n - 1, BitStep(c))
  }

  lemma XorAssociates(a: bv32, b: bv32, c: bv32)
    ensures Xor(Xor(a, b), c) == Xor(a, Xor(b, c))
  {
  }

  lemma XorCommutes(a: bv32, b: bv32)
    ensures Xor(a, b) == Xor(b, a)
  {
  }

  lemma OddOdd(a: bv32, b: bv32)
    requires a & 1 == 1 && b & 1 == 1
    ensures BitStep(a ^ b) == BitStep(a) ^ BitStep(b)
  {
    assert (a ^ b) & 1 == (a & 1) ^ (b & 1);
  }

  lemma OddEven(a: bv32, b: bv32)
    requires a & 1 == 1 && b & 1 == 0
    ensures BitStep(a ^ b) == BitStep(a) ^ BitStep(b)
  {
    assert (a ^ b) & 1 == (a & 1) ^ (b & 1);
  }

  lemma EvenEven(a: bv32, b: bv32)
    requires a & 1 == 0 && b & 1 == 0
    ensures BitStep(a ^ b) == BitStep(a) ^ BitStep(b)
  {
    assert (a ^ b) & 1 == (a & 1) ^ (b & 1);
  }

  lemma OddOrEven(a: bv32)
    ensures a & 1 == 0 || a & 1 == 1
  {
  }

  lemma BitStepLinear(a: bv32, b: bv32)
    ensures BitStep(Xor(a, b)) == Xor(BitStep(a), BitStep(b))
  {
    hide BitStep;
    OddOrEven(a);
    OddOrEven(b);
    if a & 1 == 1 {
      if b & 1 == 1 { OddOdd(a, b); } else { OddEven(a, b); }
    } else {
      if b & 1 == 1 { OddEven(b, a); } else { EvenEven(a, b); }
    }
  }

  lemma {:induction false} StepsLinear(n: nat, a: bv32, b: bv32)
    ensures Steps(n, Xor(a, b)) == Xor(Steps(n, a), Steps(n, b))
  {
    hide BitStep, Xor;
    if n > 0 {
      BitStepLinear(a, b);
      StepsLinear(n - 1, BitStep(a), BitStep(b));
    }
  }

  lemma {:induction false} StepsSum(m: nat, n: nat, c: bv32)
    ensures Steps(m + n, c) == Steps(n, Steps(m, c))
    decreases m
  {
    hide BitStep;
    if m > 0 { StepsSum(m - 1, n, BitStep(c)); }
  }

  /** A zero bit is shifted out unchanged. */
  lemma ShiftBit(n: nat, w: bv32)
    requires w & 1 == 0
    ensures Steps(n + 1, w) == Steps(n, w >> 1)
  {
  }

  lemma LowBits(w: bv32)
    ensures w & 3 == 0 ==> w & 1 == 0 && (w >> 1) & 1 == 0 && (w >> 1) >> 1 == w >> 2
    ensures w & 0xF == 0 ==> w & 3 == 0 && (w >> 2) & 3 == 0 && (w >> 2) >> 2 == w >> 4
    ensures w & 0xFF == 0 ==> w & 0xF == 0 && (w >> 4) & 0xF == 0 && (w >> 4) >> 4 == w >> 8
  {
  }

  lemma ShiftPair(n: nat, w: bv32)
    requires w & 3 == 0
    ensures Steps(n + 2, w) == Steps(n, w >> 2)
  {
    hide BitStep, Steps;
    LowBits(w);
    ShiftBit(n + 1, w);
    ShiftBit(n, w >> 1);
  }

  lemma ShiftNibble(n: nat, w: bv32)
    requires w & 0xF == 0
    ensures Steps(n + 4, w) == Steps(n, w >> 4)
  {
    hide BitStep, Steps;
    LowBits(w);
    ShiftPair(n + 2, w);
    ShiftPair(n, w >> 2);
  }

  /** A byte of zeros is shifted out unchanged. */
  lemma ShiftByte(w: bv32)
    requires w & 0xFF == 0
    ensures Steps(8, w) == w >> 8
  {
    hide BitStep;
    LowBits(w);
    ShiftNibble(4, w);
    ShiftNibble(0, w >> 4);
  }

  // ------- the table holds eight steps -------

  function Eight(c: bv32): bv32 {
    BitStep(BitStep(BitStep(BitStep(BitStep(BitStep(BitStep(BitStep(c))))))))
  }

  lemma EightIsSteps(c: bv32)
    ensures Eight(c) == Steps(8, c)
  {
    hide BitStep;
    StepsSum(4, 4, c);
    FourSteps(c);
    FourSteps(Steps(4, c));
  }

  lemma FourSteps(c: bv32)
    ensures Steps(4, c) == BitStep(BitStep(BitStep(BitStep(c))))
  {
    hide BitStep;
    StepsSum(2, 2, c);
    TwoSteps(c);
    TwoSteps(Steps(2, c));
  }

  lemma TwoSteps(c: bv32)
    ensures Steps(2, c) == BitStep(BitStep(c))
  {
    hide BitStep;
    assert Steps(2, c) == Steps(1, BitStep(c)) == Steps(0, BitStep(BitStep(c)));
  }

  lemma FirstColumn(r: nat)
    requires r < 16
    ensures Row(r)[0] == Eight((r as bv32) << 4)
  {
    if r < 8 { FirstColumnLow(r); } else { FirstColumnHigh(r); }
  }

  lemma FirstRow(k: nat)
    requires k < 16
    ensures Row(0)[k] == Eight(k as bv32)
  {
    if k < 8 { FirstRowLow(k); } else { FirstRowHigh(k); }
  }

  lemma FirstRowLow(k: nat)
    requires k < 8
    ensures Row(0)[k] == Eight(k as bv32)
  {
    match k { case 0 => case 1 => case 2 => case 3 => case 4 => case 5 => case 6 => case _ => }
  }

  lemma FirstRowHigh(k: nat)
    requires 8 <= k < 16
    ensures Row(0)[k] == Eight(k as bv32)
  {
    match k { case 8 => case 9 => case 10 => case 11 => case 12 => case 13 => case 14 => case _ => }
  }

  lemma FirstColumnLow(r: nat)
    requires r < 8
    ensures Row(r)[0] == Eight((r as bv32) << 4)
  {
    match r { case 0 => case 1 => case 2 => case 3 => case 4 => case 5 => case 6 => case _ => }
  }

  lemma FirstColumnHigh(r: nat)
    requires 8 <= r < 16
    ensures Row(r)[0] == Eight((r as bv32) << 4)
  {
    match r { case 8 => case 9 => case 10 => case 11 => case 12 => case 13 => case 14 => case _ => }
  }

  function XorRow(row: seq<bv32>, c: bv32): seq<bv32>
    requires |row| == 16
  {
    [row[0] ^ c, row[1] ^ c, row[2] ^ c, row[3] ^ c, row[4] ^ c, row[5] ^ c, row[6] ^ c, row[7] ^ c,
     row[8] ^ c, row[9] ^ c, row[10] ^ c, row[11] ^ c, row[12] ^ c, row[13] ^ c, row[14] ^ c, row[15] ^ c]
  }

  lemma RowsFrom0()
    ensures Row(0) == XorRow(Row(0), Row(0)[0])
    ensures Row(1) == XorRow(Row(0), Row(1)[0])
    ensures Row(2) == XorRow(Row(0), Row(2)[0])
    ensures Row(3) == XorRow(Row(0), Row(3)[0])
  {
  }

  lemma RowsFrom4()
    ensures Row(4) == XorRow(Row(0), Row(4)[0])
    ensures Row(5) == XorRow(Row(0), Row(5)[0])
    ensures Row(6) == XorRow(Row(0), Row(6)[0])
    ensures Row(7) == XorRow(Row(0), Row(7)[0])
  {
  }

  lemma RowsFrom8()
    ensures Row(8) == XorRow(Row(0), Row(8)[0])
    ensures Row(9) == XorRow(Row(0), Row(9)[0])
    ensures Row(10) == XorRow(Row(0), Row(10)[0])
    ensures Row(11) == XorRow(Row(0), Row(11)[0])
  {
  }

  lemma RowsFrom12()
    ensures Row(12) == XorRow(Row(0), Row(12)[0])
    ensures Row(13) == XorRow(Row(0), Row(13)[0])
    ensures Row(14) == XorRow(Row(0), Row(14)[0])
    ensures Row(15) == XorRow(Row(0), Row(15)[0])
  {
  }

  /** Each row of the table is the first one, shifted by a constant. */
  lemma RowsAreXors(r: nat)
    requires r < 16
    ensures Row(r) == XorRow(Row(0), Row(r)[0])
  {
    hide Row, XorRow;
    if r < 4 {
      RowsFrom0();
    } else if r < 8 {
      RowsFrom4();
    } else if r < 12 {
      RowsFrom8();
    } else {
      RowsFrom12();
    }
  }

  lemma XorRowAt(row: seq<bv32>, c: bv32, k: nat)
    requires |row| == 16 && k < 16
    ensures XorRow(row, c)[k] == Xor(row[k], c)
  {
    match k {
      case 0 => case 1 => case 2 => case 3 => case 4 => case 5 => case 6 => case 7 =>
      case 8 => case 9 => case 10 => case 11 => case 12 => case 13 => case 14 => case _ =>
    }
  }

  lemma SplitByte(i: bv32)
    requires i < 0x100
    ensures i & 0xF < 0x10 && i >> 4 < 0x10 && i == Xor(i & 0xF, (i >> 4) << 4)
  {
  }

  /** Every one of the 256 entries holds eight steps of the shift register. */
  lemma EntryIsEightSteps(i: bv32)
    requires i < 0x100
    ensures Entry(i) == Steps(8, i)
  {
    hide Xor, BitStep, Steps, Row, XorRow, Eight;
    SplitByte(i);
    NibbleEntry(i & 0xF, i >> 4);
  }

  lemma NibbleEntry(lo: bv32, hi: bv32)
    requires lo < 0x10 && hi < 0x10
    ensures (hi as nat) < 16 && (lo as nat) < 16
    ensures Row(hi as nat)[lo as nat] == Steps(8, Xor(lo, hi << 4))
  {
    hide Xor, BitStep, Steps, Row, XorRow, Eight;
    Nibble(lo);
    Nibble(hi);
    RowsAreXors(hi as nat);
    XorRowAt(Row(0), Row(hi as nat)[0], lo as nat);
    FirstRow(lo as nat);
    FirstColumn(hi as nat);
    EightIsSteps(lo);
    EightIsSteps(hi << 4);
    StepsLinear(8, lo, hi << 4);
  }

  lemma LowByte(x: bv32)
    ensures x & 0xFF < 0x100 && (x & 0xFFFF_FF00) & 0xFF == 0
    ensures x == Xor(x & 0xFFFF_FF00, x & 0xFF)
  {
  }

  lemma HighBytes(c: bv32, d: bv32)
    requires d < 0x100
    ensures ((c ^ d) & 0xFFFF_FF00) >> 8 == c >> 8
  {
    assert (c ^ d) >> 8 == (c >> 8) ^ (d >> 8);
    assert d >> 8 == 0;
    assert ((c ^ d) & 0xFFFF_FF00) >> 8 == (c ^ d) >> 8;
  }

  lemma SplitWord(c: bv32, d: bv32)
    requires d < 0x100
    ensures (c ^ d) & 0xFF < 0x100 && ((c ^ d) & 0xFFFF_FF00) & 0xFF == 0
    ensures ((c ^ d) & 0xFFFF_FF00) >> 8 == c >> 8
    ensures Xor(c, d) == Xor((c ^ d) & 0xFFFF_FF00, (c ^ d) & 0xFF)
  {
    assert Xor(c, d) == c ^ d;
    hide Xor;
    LowByte(c ^ d);
    HighBytes(c, d);
  }

  lemma TableStepWord(c: bv32, d: bv32)
    requires d < 0x100
    ensures (c ^ d) & 0xFF < 0x100
    ensures Xor(c >> 8, Entry((c ^ d) & 0xFF)) == Steps(8, Xor(c, d))
  {
    hide Xor, BitStep, Steps, Entry;
    SplitWord(c, d);
    ShiftByte((c ^ d) & 0xFFFF_FF00);
    EntryIsEightSteps((c ^ d) & 0xFF);
    StepsLinear(8, (c ^ d) & 0xFFFF_FF00, (c ^ d) & 0xFF);
  }

  lemma ByteWord(d: bv8)
    ensures d as bv32 < 0x100
  {
  }

  lemma TableStepParts(c: bv32, d: bv8)
    ensures TableStep(c, d) == Xor(c >> 8, Entry((c ^ (d as bv32)) & 0xFF))
  {
    hide Entry;
  }

  /** One table step is eight bit steps, for every state and byte. */
  lemma TableStepIsEightSteps(c: bv32, d: bv8)
    ensures TableStep(c, d) == Steps(8, Xor(c, d as bv32))
  {
    hide BitStep, Steps, Entry, Xor, TableStep;
    ByteWord(d);
    TableStepParts(c, d);
    TableStepWord(c, d as bv32);
  }
}
