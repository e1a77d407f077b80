/** The checksum of the memory command: a table-driven CRC-32, compared with the CRC computed one bit at a time. */
module Crc32 {
  /** The polynomial of section 8 of RFC 1952, with its bits in reverse order. */
  const POLY: bv32 := 0xedb88320

  /** One bit of the message enters the register at its low end. */
  function BitStep(c: bv32, bit: bool): bv32 {
    var t := if bit then Xor(c, 1) else c;
    if Odd(t) then Xor(Half(t), POLY) else Half(t)
  }

  /** The register after a sequence of bits. */
  function BitCrc(c: bv32, bits: seq<bool>): bv32 {
    if bits == [] then c else BitStep(BitCrc(c, bits[..|bits| - 1]), bits[|bits| - 1])
  }

  /** The bits of a byte, the lowest first. */
  function BitsOf(b: bv8): (r: seq<bool>)
    ensures |r| == 8
  {
    [b & 1 != 0, b & 2 != 0, b & 4 != 0, b & 8 != 0, b & 16 != 0, b & 32 != 0, b & 64 != 0, b & 128 != 0]
  }

  function Message(bytes: seq<bv8>): seq<bool> {
    if bytes == [] then [] else Message(bytes[..|bytes| - 1]) + BitsOf(bytes[|bytes| - 1])
  }

  /** The CRC-32 of a message: all ones at the start, and complemented at the end. */
  function Crc(bytes: seq<bv8>): bv32 {
    Xor(BitCrc(0xffffffff, Message(bytes)), 0xffffffff)
  }

  const ROW0: seq<bv32> := [
    0x00000000, 0x77073096, 0xee0e612c, 0x990951ba, 0x076dc419, 0x706af48f, 0xe963a535, 0x9e6495a3,
    0x0edb8832, 0x79dcb8a4, 0xe0d5e91e, 0x97d2d988, 0x09b64c2b, 0x7eb17cbd, 0xe7b82d07, 0x90bf1d91
  ]

  const ROW1: seq<bv32> := [
    0x1db71064, 0x6ab020f2, 0xf3b97148, 0x84be41de, 0x1adad47d, 0x6ddde4eb, 0xf4d4b551, 0x83d385c7,
    0x136c9856, 0x646ba8c0, 0xfd62f97a, 0x8a65c9ec, 0x14015c4f, 0x63066cd9, 0xfa0f3d63, 0x8d080df5
  ]

  const ROW2: seq<bv32> := [
    0x3b6e20c8, 0x4c69105e, 0xd56041e4, 0xa2677172, 0x3c03e4d1, 0x4b04d447, 0xd20d85fd, 0xa50ab56b,
    0x35b5a8fa, 0x42b2986c, 0xdbbbc9d6, 0xacbcf940, 0x32d86ce3, 0x45df5c75, 0xdcd60dcf, 0xabd13d59
  ]

  const ROW3: seq<bv32> := [
    0x26d930ac, 0x51de003a, 0xc8d75180, 0xbfd06116, 0x21b4f4b5, 0x56b3c423, 0xcfba9599, 0xb8bda50f,
    0x2802b89e, 0x5f058808, 0xc60cd9b2, 0xb10be924, 0x2f6f7c87, 0x58684c11, 0xc1611dab, 0xb6662d3d
  ]

  const ROW4: seq<bv32> := [
    0x76dc4190, 0x01db7106, 0x98d220bc, 0xefd5102a, 0x71b18589, 0x06b6b51f, 0x9fbfe4a5, 0xe8b8d433,
    0x7807c9a2, 0x0f00f934, 0x9609a88e, 0xe10e9818, 0x7f6a0dbb, 0x086d3d2d, 0x91646c97, 0xe6635c01
  ]

  const ROW5: seq<bv32> := [
    0x6b6b51f4, 0x1c6c6162, 0x856530d8, 0xf262004e, 0x6c0695ed, 0x1b01a57b, 0x8208f4c1, 0xf50fc457,
    0x65b0d9c6, 0x12b7e950, 0x8bbeb8ea, 0xfcb9887c, 0x62dd1ddf, 0x15da2d49, 0x8cd37cf3, 0xfbd44c65
  ]

  const ROW6: seq<bv32> := [
    0x4db26158, 0x3ab551ce, 0xa3bc0074, 0xd4bb30e2, 0x4adfa541, 0x3dd895d7, 0xa4d1c46d, 0xd3d6f4fb,
    0x4369e96a, 0x346ed9fc, 0xad678846, 0xda60b8d0, 0x44042d73, 0x33031de5, 0xaa0a4c5f, 0xdd0d7cc9
  ]

  const ROW7: seq<bv32> := [
    0x5005713c, 0x270241aa, 0xbe0b1010, 0xc90c2086, 0x5768b525, 0x206f85b3, 0xb966d409, 0xce61e49f,
    0x5edef90e, 0x29d9c998, 0xb0d09822, 0xc7d7a8b4, 0x59b33d17, 0x2eb40d81, 0xb7bd5c3b, 0xc0ba6cad
  ]

  const ROW8: seq<bv32> := [
    0xedb88320, 0x9abfb3b6, 0x03b6e20c, 0x74b1d29a, 0xead54739, 0x9dd277af, 0x04db2615, 0x73dc1683,
    0xe3630b12, 0x94643b84, 0x0d6d6a3e, 0x7a6a5aa8, 0xe40ecf0b, 0x9309ff9d, 0x0a00ae27, 0x7d079eb1
  ]

  const ROW9: seq<bv32> := [
    0xf00f9344, 0x8708a3d2, 0x1e01f268, 0x6906c2fe, 0xf762575d, 0x806567cb, 0x196c3671, 0x6e6b06e7,
    0xfed41b76, 0x89d32be0, 0x10da7a5a, 0x67dd4acc, 0xf9b9df6f, 0x8ebeeff9, 0x17b7be43, 0x60b08ed5
  ]

  const ROW10: seq<bv32> := [
    0xd6d6a3e8, 0xa1d1937e, 0x38d8c2c4, 0x4fdff252, 0xd1bb67f1, 0xa6bc5767, 0x3fb506dd, 0x48b2364b,
    0xd80d2bda, 0xaf0a1b4c, 0x36034af6, 0x41047a60, 0xdf60efc3, 0xa867df55, 0x316e8eef, 0x4669be79
  ]

  const ROW11: seq<bv32> := [
    0xcb61b38c, 0xbc66831a, 0x256fd2a0, 0x5268e236, 0xcc0c7795, 0xbb0b4703, 0x220216b9, 0x5505262f,
    0xc5ba3bbe, 0xb2bd0b28, 0x2bb45a92, 0x5cb36a04, 0xc2d7ffa7, 0xb5d0cf31, 0x2cd99e8b, 0x5bdeae1d
  ]

  const ROW12: seq<bv32> := [
    0x9b64c2b0, 0xec63f226, 0x756aa39c, 0x026d930a, 0x9c0906a9, 0xeb0e363f, 0x72076785, 0x05005713,
    0x95bf4a82, 0xe2b87a14, 0x7bb12bae, 0x0cb61b38, 0x92d28e9b, 0xe5d5be0d, 0x7cdcefb7, 0x0bdbdf21
  ]

  const ROW13: seq<bv32> := [
    0x86d3d2d4, 0xf1d4e242, 0x68ddb3f8, 0x1fda836e, 0x81be16cd, 0xf6b9265b, 0x6fb077e1, 0x18b74777,
    0x88085ae6, 0xff0f6a70, 0x66063bca, 0x11010b5c, 0x8f659eff, 0xf862ae69, 0x616bffd3, 0x166ccf45
  ]

  const ROW14: seq<bv32> := [
    0xa00ae278, 0xd70dd2ee, 0x4e048354, 0x3903b3c2, 0xa7672661, 0xd06016f7, 0x4969474d, 0x3e6e77db,
    0xaed16a4a, 0xd9d65adc, 0x40df0b66, 0x37d83bf0, 0xa9bcae53, 0xdebb9ec5, 0x47b2cf7f, 0x30b5ffe9
  ]

  const ROW15: seq<bv32> := [
    0xbdbdf21c, 0xcabac28a, 0x53b39330, 0x24b4a3a6, 0xbad03605, 0xcdd70693, 0x54de5729, 0x23d967bf,
    0xb3667a2e, 0xc4614ab8, 0x5d681b02, 0x2a6f2b94, 0xb40bbe37, 0xc30c8ea1, 0x5a05df1b, 0x2d02ef8d
  ]

  /** The table, as sixteen rows of sixteen. */
  const ROWS: seq<seq<bv32>> := [ROW0, ROW1, ROW2, ROW3, ROW4, ROW5, ROW6, ROW7, ROW8, ROW9, ROW10, ROW11, ROW12, ROW13, ROW14, ROW15]

  function Row(h: nat): (r: seq<bv32>)
    requires h < 16
    ensures |r| == 16
  {
    ROWS[h]
  }

  function Entry(i: bv32): bv32
    requires i < 256
  {
    Nibbles(i);
    Row(Digit(i >> 4))[Digit(i & 15)]
  }

  lemma Column(l: bv32)
    requires l < 16
    ensures 0 <= l as int < 16
  {
  }

  // ---------------------------------------------------------------- zero steps

  function Xor(a: bv32, b: bv32): bv32 {
    a ^ b
  }

  predicate Odd(c: bv32) {
    c & 1 == 1
  }

  function Half(c: bv32): bv32 {
    c >> 1
  }

  /** A step in which the message is zero. */
  function ZeroStep(c: bv32): bv32 {
    if Odd(c) then Xor(Half(c), POLY) else Half(c)
  }

  function Steps(n: nat, c: bv32): bv32 {
    if n == 0 then c else ZeroStep(Steps(n - 1, c))
  }

  lemma OddXor(a: bv32, b: bv32)
    ensures Odd(Xor(a, b)) <==> (Odd(a) <==> !Odd(b))
  {
  }

  lemma HalfXor(a: bv32, b: bv32)
    ensures Half(Xor(a, b)) == Xor(Half(a), Half(b))
  {
  }

  lemma XorTwice(a: bv32, b: bv32, p: bv32)
    ensures Xor(Xor(a, p), Xor(b, p)) == Xor(a, b)
  {
    assert (a ^ p) ^ (b ^ p) == a ^ b;
  }

  lemma XorFirst(a: bv32, b: bv32, p: bv32)
    ensures Xor(Xor(a, p), b) == Xor(Xor(a, b), p)
  {
    hide Xor;
    XorCommutes(Xor(a, p), b);
    XorSecond(b, a, p);
    XorCommutes(a, b);
  }

  lemma XorCommutes(a: bv32, b: bv32)
    ensures Xor(a, b) == Xor(b, a)
  {
  }

  lemma XorSecond(a: bv32, b: bv32, p: bv32)
    ensures Xor(a, Xor(b, p)) == Xor(Xor(a, b), p)
  {
    assert a ^ (b ^ p) == (a ^ b) ^ p;
  }

  lemma ZeroStepIsLinear(a: bv32, b: bv32)
    ensures ZeroStep(Xor(a, b)) == Xor(ZeroStep(a), ZeroStep(b))
  {
    hide Xor, Odd, Half;
    OddXor(a, b);
    HalfXor(a, b);
    XorTwice(Half(a), Half(b), POLY);
    XorFirst(Half(a), Half(b), POLY);
    XorSecond(Half(a), Half(b), POLY);
  }

  lemma {:induction false} StepsAreLinear(n: nat, a: bv32, b: bv32)
    ensures Steps(n, Xor(a, b)) == Xor(Steps(n, a), Steps(n, b))
  {
    hide Xor, ZeroStep;
    if n > 0 {
      StepsAreLinear(n - 1, a, b);
      ZeroStepIsLinear(Steps(n - 1, a), Steps(n - 1, b));
    }
  }

  lemma EightSteps(c: bv32)
    ensures Steps(8, c) == ZeroStep(ZeroStep(ZeroStep(ZeroStep(ZeroStep(ZeroStep(ZeroStep(ZeroStep(c))))))))
  {
    hide ZeroStep;
    assert Steps(0, c) == c;
    assert Steps(1, c) == ZeroStep(Steps(0, c)) && Steps(2, c) == ZeroStep(Steps(1, c));
    assert Steps(3, c) == ZeroStep(Steps(2, c)) && Steps(4, c) == ZeroStep(Steps(3, c));
    assert Steps(5, c) == ZeroStep(Steps(4, c)) && Steps(6, c) == ZeroStep(Steps(5, c));
    assert Steps(7, c) == ZeroStep(Steps(6, c));
  }

  // -------------------------------------------------- the table entries are right

  /** The remainders of the eight bits of a byte. */
  const POWERS: seq<bv32> := [0x77073096, 0xee0e612c, 0x076dc419, 0x0edb8832, 0x1db71064, 0x3b6e20c8, 0x76dc4190, 0xedb88320]

  lemma PowerStep(k: nat)
    requires k < 8
    ensures POWERS[k] == ZeroStep(if k == 7 then 1 else POWERS[k + 1])
  {
  }

  /** A bit moves down to the lowest place, leaves the polynomial behind, and that is stepped on. */
  lemma {:induction false} PowerSteps(k: nat, n: nat)
    requires k < n <= 8
    ensures Steps(n, PLACE[k]) == POWERS[8 + k - n]
  {
    hide Steps, ZeroStep;
    StepsNext(n, PLACE[k]);
    PowerStep(8 + k - n);
    if n == k + 1 {
      PlaceMovesDown(k, k);
    } else {
      PowerSteps(k, n - 1);
    }
  }

  /** The lower half of an index picks the column, the upper half the row: both count as if the other were zero. */
  lemma LowNibble(l: bv32)
    requires l < 16
    ensures 0 <= l as int < 16 && ROW0[l as int] == Steps(8, l)
  {
    hide Steps;
    PowerSteps(0, 8);
    PowerSteps(1, 8);
    PowerSteps(2, 8);
    PowerSteps(3, 8);
    StepsOfNothing(8);
    StepsAreLinear(8, 2, 1);
    StepsAreLinear(8, 4, 1);
    StepsAreLinear(8, 4, 2);
    StepsAreLinear(8, 6, 1);
    StepsAreLinear(8, 8, 1);
    StepsAreLinear(8, 8, 2);
    StepsAreLinear(8, 10, 1);
    StepsAreLinear(8, 8, 4);
    StepsAreLinear(8, 12, 1);
    StepsAreLinear(8, 12, 2);
    StepsAreLinear(8, 14, 1);
  }

  /** Each row begins with the remainder of its first index ... */
  lemma RowBegins(h: bv32)
    requires h < 16
    ensures Row(Digit(h))[0] == Steps(8, h << 4)
  {
    hide Steps;
    PowerSteps(4, 8);
    PowerSteps(5, 8);
    PowerSteps(6, 8);
    PowerSteps(7, 8);
    StepsOfNothing(8);
    StepsAreLinear(8, 32, 16);
    StepsAreLinear(8, 64, 16);
    StepsAreLinear(8, 64, 32);
    StepsAreLinear(8, 96, 16);
    StepsAreLinear(8, 128, 16);
    StepsAreLinear(8, 128, 32);
    StepsAreLinear(8, 160, 16);
    StepsAreLinear(8, 128, 64);
    StepsAreLinear(8, 192, 16);
    StepsAreLinear(8, 192, 32);
    StepsAreLinear(8, 224, 16);
  }

  /** ... and repeats the first row from there. */
  predicate Repeats(row: seq<bv32>, l: nat)
    requires l < 16 == |row|
  {
    row[l] == Xor(row[0], ROW0[l])
  }

  lemma RowsRepeat(l: bv32)
    requires l < 16
    ensures var k := Digit(l);
            && Repeats(ROW0, k) && Repeats(ROW1, k) && Repeats(ROW2, k) && Repeats(ROW3, k) && Repeats(ROW4, k)
            && Repeats(ROW5, k) && Repeats(ROW6, k) && Repeats(ROW7, k) && Repeats(ROW8, k) && Repeats(ROW9, k)
            && Repeats(ROW10, k) && Repeats(ROW11, k) && Repeats(ROW12, k) && Repeats(ROW13, k) && Repeats(ROW14, k)
            && Repeats(ROW15, k)
  {
  }

  lemma RowRepeats(h: nat, l: bv32)
    requires h < 16 && l < 16
    ensures Repeats(Row(h), Digit(l))
  {
    hide Repeats;
    RowsRepeat(l);
  }

  function Digit(l: bv32): nat
    requires l < 16
    ensures Digit(l) < 16
  {
    Column(l);
    l as int
  }

  lemma Nibbles(i: bv32)
    requires i < 256
    ensures i & 15 < 16 && i >> 4 < 16 && i == Xor((i >> 4) << 4, i & 15)
  {
  }

  /** Every entry is the remainder of its index after eight steps. */
  lemma EntryIsRight(i: bv32)
    requires i < 256
    ensures Entry(i) == Steps(8, i)
  {
    hide Steps, Row, Xor;
    Nibbles(i);
    EntryInRow(i >> 4, i & 15);
  }

  lemma EntryInRow(h: bv32, l: bv32)
    requires h < 16 && l < 16
    ensures Row(Digit(h))[Digit(l)] == Steps(8, Xor(h << 4, l))
  {
    hide Steps, Xor, Row;
    RowBegins(h);
    RowRepeats(Digit(h), l);
    LowNibble(l);
    StepsAreLinear(8, h << 4, l);
  }

  lemma ZeroXor(l: bv32)
    ensures Xor(0, l) == l
  {
  }

  // ------------------------------------------------------------ a byte at a time

  lemma HighPartSteps(x: bv32)
    ensures ZeroStep(ZeroStep(ZeroStep(ZeroStep(ZeroStep(ZeroStep(ZeroStep(ZeroStep(x & 0xffffff00)))))))) == x >> 8
  {
  }

  lemma HighPart(x: bv32)
    ensures Steps(8, x & 0xffffff00) == x >> 8
  {
    hide ZeroStep, Steps;
    EightSteps(x & 0xffffff00);
    HighPartSteps(x);
  }

  lemma SplitLow(x: bv32)
    ensures x == Xor(x & 0xff, x & 0xffffff00)
  {
  }

  lemma LowByte(x: bv32)
    ensures x & 0xff < 256
  {
  }

  /** The low byte goes through the table, the rest moves down. */
  lemma ByteThroughTable(x: bv32, low: bv32, high: bv32)
    requires low == x & 0xff && high == x >> 8
    ensures low < 256 && Steps(8, x) == Xor(Entry(low), high)
  {
    LowByte(x);
    SplitLow(x);
    HighPart(x);
    TableStep(x, low, x & 0xffffff00, high);
  }

  lemma TableStep(x: bv32, low: bv32, rest: bv32, high: bv32)
    requires low < 256 && x == Xor(low, rest) && Steps(8, rest) == high
    ensures Steps(8, x) == Xor(Entry(low), high)
  {
    hide Steps, Entry, Xor;
    EntryIsRight(low);
    StepsAreLinear(8, low, rest);
  }

  /** The bit that enters `k` steps later, in its place before those steps. */
  const PLACE: seq<bv32> := [1, 2, 4, 8, 16, 32, 64, 128]

  lemma {:induction false} PlaceMovesDown(k: nat, n: nat)
    requires n <= k < 8
    ensures Steps(n, PLACE[k]) == PLACE[k - n]
  {
    hide Steps;
    if n == 0 {
      StepsZero(PLACE[k]);
    } else {
      PlaceMovesDown(k, n - 1);
      StepsNext(n, PLACE[k]);
    }
  }

  lemma StepsZero(c: bv32)
    ensures Steps(0, c) == c
  {
  }

  lemma StepsNext(n: nat, c: bv32)
    requires n > 0
    ensures Steps(n, c) == ZeroStep(Steps(n - 1, c))
  {
  }

  lemma {:induction false} StepsOfNothing(n: nat)
    ensures Steps(n, 0) == 0
  {
    if n > 0 {
      StepsOfNothing(n - 1);
    }
  }

  /** The first `k` bits, mixed in at their places. */
  function Mixed(r: seq<bool>, k: nat): bv32
    requires k <= |r| == 8
  {
    if k == 0 then 0 else Xor(Mixed(r, k - 1), if r[k - 1] then PLACE[k - 1] else 0)
  }

  function BitAt(b: bool, k: nat): bv32
    requires k < 8
  {
    if b then PLACE[k] else 0
  }

  lemma Delay(x: bv32, bit: bool, k: nat)
    requires k < 8
    ensures Steps(k, Xor(x, BitAt(bit, k))) == Xor(Steps(k, x), BitAt(bit, 0))
  {
    hide Steps, Xor;
    StepsAreLinear(k, x, BitAt(bit, k));
    if bit {
      PlaceMovesDown(k, k);
    } else {
      StepsOfNothing(k);
    }
  }

  lemma StepIsZeroStep(c: bv32, bit: bool)
    ensures BitStep(c, bit) == ZeroStep(Xor(c, BitAt(bit, 0)))
  {
    hide Xor, Odd, Half;
    XorNothing(c);
  }

  lemma XorAssociates(a: bv32, b: bv32, c: bv32)
    ensures Xor(Xor(a, b), c) == Xor(a, Xor(b, c))
  {
  }

  lemma XorNothing(a: bv32)
    ensures Xor(a, 0) == a
  {
  }

  /** Feeding bits is the same as mixing them in at their places first and feeding zeros. */
  lemma {:induction false} FeedingIsMixing(c: bv32, r: seq<bool>, k: nat)
    requires k <= |r| == 8
    ensures BitCrc(c, r[..k]) == Steps(k, Xor(c, Mixed(r, k)))
  {
    hide Xor, ZeroStep, BitStep;
    if k == 0 {
      XorNothing(c);
    } else {
      var x, bit := Xor(c, Mixed(r, k - 1)), r[k - 1];
      FeedingIsMixing(c, r, k - 1);
      assert r[..k][..k - 1] == r[..k - 1];
      StepIsZeroStep(Steps(k - 1, x), bit);
      Delay(x, bit, k - 1);
      XorAssociates(c, Mixed(r, k - 1), BitAt(bit, k - 1));
      StepsNext(k, Xor(x, BitAt(bit, k - 1)));
    }
  }

  lemma MixedByte(b: bv8)
    ensures Mixed(BitsOf(b), 8) == b as bv32
  {
    var r := BitsOf(b);
    assert Mixed(r, 1) == if r[0] then 1 else 0;
    assert Mixed(r, 2) == Mixed(r, 1) ^ if r[1] then 2 else 0;
    assert Mixed(r, 3) == Mixed(r, 2) ^ if r[2] then 4 else 0;
    assert Mixed(r, 4) == Mixed(r, 3) ^ if r[3] then 8 else 0;
    assert Mixed(r, 5) == Mixed(r, 4) ^ if r[4] then 16 else 0;
    assert Mixed(r, 6) == Mixed(r, 5) ^ if r[5] then 32 else 0;
    assert Mixed(r, 7) == Mixed(r, 6) ^ if r[6] then 64 else 0;
    assert Mixed(r, 8) == Mixed(r, 7) ^ if r[7] then 128 else 0;
  }

  lemma EightBits(c: bv32, b: bv8)
    ensures BitCrc(c, BitsOf(b)) == Steps(8, Xor(c, b as bv32))
  {
    hide Xor, Steps, BitCrc, Mixed;
    var r := BitsOf(b);
    FeedingIsMixing(c, r, 8);
    MixedByte(b);
    assert r[..8] == r;
  }

  lemma {:induction false} BitCrcConcat(c: bv32, a: seq<bool>, b: seq<bool>)
    ensures BitCrc(c, a + b) == BitCrc(BitCrc(c, a), b)
  {
    hide BitStep;
    if b == [] {
      assert a + b == a;
    } else {
      BitCrcConcat(c, a, b[..|b| - 1]);
      assert (a + b)[..|a + b| - 1] == a + b[..|b| - 1];
    }
  }

  /** One byte more. */
  lemma NextByte(c: bv32, bytes: seq<bv8>, n: nat)
    requires n < |bytes|
    ensures BitCrc(c, Message(bytes[..n + 1])) == Steps(8, Xor(BitCrc(c, Message(bytes[..n])), bytes[n] as bv32))
  {
    hide Steps, BitsOf, BitCrc, Xor;
    assert bytes[..n + 1][..n] == bytes[..n];
    BitCrcConcat(c, Message(bytes[..n]), BitsOf(bytes[n]));
    EightBits(BitCrc(c, Message(bytes[..n])), bytes[n]);
  }

  /** The table-driven loop computes the CRC of every byte sequence. */
  method Crc32Of(bytes: seq<bv8>) returns (crc: bv32)
    ensures crc == Crc(bytes)
  {
    hide BitCrc, Message, Steps, Xor;
    crc := 0;
    crc := Xor(crc, 0xffffffff);
    ZeroXor(0xffffffff);
    EmptyMessage(crc, bytes);
    var w := 0;
    while w < |bytes|
      invariant w <= |bytes| && crc == BitCrc(0xffffffff, Message(bytes[..w]))
    {
      NextByte(0xffffffff, bytes, w);
      crc := TableUpdate(crc, bytes[w]);
      w := w + 1;
    }
    assert bytes[..w] == bytes;
    crc := Xor(crc, 0xffffffff);
  }

  /** One turn of the loop. */
  method TableUpdate(crc: bv32, b: bv8) returns (next: bv32)
    ensures next == Steps(8, Xor(crc, b as bv32))
  {
    hide Entry, Steps;
    var x := crc ^ (b as bv32);
    ShiftedByte(crc, b);
    ByteThroughTable(x, x & 0xff, crc >> 8);
    next := Xor(Entry(x & 0xff), crc >> 8);
  }

  lemma EmptyMessage(c: bv32, bytes: seq<bv8>)
    ensures BitCrc(c, Message(bytes[..0])) == c
  {
  }

  lemma ShiftedByte(c: bv32, b: bv8)
    ensures (c ^ (b as bv32)) >> 8 == c >> 8
  {
  }
}
