/** The table-driven CRC-32 of the frame check, against bit-at-a-time division. */
module Crc32 {
  /** The 802.3 polynomial, reflected: bit 31 - e is set for every exponent e below 32. */
  const POLY: bv32 := 0xEDB88320

  // Registers as polynomials with binary coefficients.

  /** Addition. */
  function Plus(x: bv32, y: bv32): bv32 {
    x ^ y
  }

  function Half(x: bv32): bv32 {
    x >> 1
  }

  predicate Odd(x: bv32) {
    x & 1 == 1
  }

  /** One bit of reflected division. */
  function Shift(c: bv32): bv32 {
    if Odd(c) then Plus(Half(c), POLY) else Half(c)
  }

  /** Eight bits. */
  function Shift8(c: bv32): bv32 {
    Shift(Shift(Shift(Shift(Shift(Shift(Shift(Shift(c))))))))
  }

  /** crc32_ccitt_table, in eight parts. */
  const TABLE0: seq<bv32> := [
    0x00000000, 0x77073096, 0xee0e612c, 0x990951ba, 0x076dc419, 0x706af48f, 0xe963a535, 0x9e6495a3,
    0x0edb8832, 0x79dcb8a4, 0xe0d5e91e, 0x97d2d988, 0x09b64c2b, 0x7eb17cbd, 0xe7b82d07, 0x90bf1d91,
    0x1db71064, 0x6ab020f2, 0xf3b97148, 0x84be41de, 0x1adad47d, 0x6ddde4eb, 0xf4d4b551, 0x83d385c7,
    0x136c9856, 0x646ba8c0, 0xfd62f97a, 0x8a65c9ec, 0x14015c4f, 0x63066cd9, 0xfa0f3d63, 0x8d080df5
  ]

  const TABLE1: seq<bv32> := [
    0x3b6e20c8, 0x4c69105e, 0xd56041e4, 0xa2677172, 0x3c03e4d1, 0x4b04d447, 0xd20d85fd, 0xa50ab56b,
    0x35b5a8fa, 0x42b2986c, 0xdbbbc9d6, 0xacbcf940, 0x32d86ce3, 0x45df5c75, 0xdcd60dcf, 0xabd13d59,
    0x26d930ac, 0x51de003a, 0xc8d75180, 0xbfd06116, 0x21b4f4b5, 0x56b3c423, 0xcfba9599, 0xb8bda50f,
    0x2802b89e, 0x5f058808, 0xc60cd9b2, 0xb10be924, 0x2f6f7c87, 0x58684c11, 0xc1611dab, 0xb6662d3d
  ]

  const TABLE2: seq<bv32> := [
    0x76dc4190, 0x01db7106, 0x98d220bc, 0xefd5102a, 0x71b18589, 0x06b6b51f, 0x9fbfe4a5, 0xe8b8d433,
    0x7807c9a2, 0x0f00f934, 0x9609a88e, 0xe10e9818, 0x7f6a0dbb, 0x086d3d2d, 0x91646c97, 0xe6635c01,
    0x6b6b51f4, 0x1c6c6162, 0x856530d8, 0xf262004e, 0x6c0695ed, 0x1b01a57b, 0x8208f4c1, 0xf50fc457,
    0x65b0d9c6, 0x12b7e950, 0x8bbeb8ea, 0xfcb9887c, 0x62dd1ddf, 0x15da2d49, 0x8cd37cf3, 0xfbd44c65
  ]

  const TABLE3: seq<bv32> := [
    0x4db26158, 0x3ab551ce, 0xa3bc0074, 0xd4bb30e2, 0x4adfa541, 0x3dd895d7, 0xa4d1c46d, 0xd3d6f4fb,
    0x4369e96a, 0x346ed9fc, 0xad678846, 0xda60b8d0, 0x44042d73, 0x33031de5, 0xaa0a4c5f, 0xdd0d7cc9,
    0x5005713c, 0x270241aa, 0xbe0b1010, 0xc90c2086, 0x5768b525, 0x206f85b3, 0xb966d409, 0xce61e49f,
    0x5edef90e, 0x29d9c998, 0xb0d09822, 0xc7d7a8b4, 0x59b33d17, 0x2eb40d81, 0xb7bd5c3b, 0xc0ba6cad
  ]

  const TABLE4: seq<bv32> := [
    0xedb88320, 0x9abfb3b6, 0x03b6e20c, 0x74b1d29a, 0xead54739, 0x9dd277af, 0x04db2615, 0x73dc1683,
    0xe3630b12, 0x94643b84, 0x0d6d6a3e, 0x7a6a5aa8, 0xe40ecf0b, 0x9309ff9d, 0x0a00ae27, 0x7d079eb1,
    0xf00f9344, 0x8708a3d2, 0x1e01f268, 0x6906c2fe, 0xf762575d, 0x806567cb, 0x196c3671, 0x6e6b06e7,
    0xfed41b76, 0x89d32be0, 0x10da7a5a, 0x67dd4acc, 0xf9b9df6f, 0x8ebeeff9, 0x17b7be43, 0x60b08ed5
  ]

  const TABLE5: seq<bv32> := [
    0xd6d6a3e8, 0xa1d1937e, 0x38d8c2c4, 0x4fdff252, 0xd1bb67f1, 0xa6bc5767, 0x3fb506dd, 0x48b2364b,
    0xd80d2bda, 0xaf0a1b4c, 0x36034af6, 0x41047a60, 0xdf60efc3, 0xa867df55, 0x316e8eef, 0x4669be79,
    0xcb61b38c, 0xbc66831a, 0x256fd2a0, 0x5268e236, 0xcc0c7795, 0xbb0b4703, 0x220216b9, 0x5505262f,
    0xc5ba3bbe, 0xb2bd0b28, 0x2bb45a92, 0x5cb36a04, 0xc2d7ffa7, 0xb5d0cf31, 0x2cd99e8b, 0x5bdeae1d
  ]

  const TABLE6: seq<bv32> := [
    0x9b64c2b0, 0xec63f226, 0x756aa39c, 0x026d930a, 0x9c0906a9, 0xeb0e363f, 0x72076785, 0x05005713,
    0x95bf4a82, 0xe2b87a14, 0x7bb12bae, 0x0cb61b38, 0x92d28e9b, 0xe5d5be0d, 0x7cdcefb7, 0x0bdbdf21,
    0x86d3d2d4, 0xf1d4e242, 0x68ddb3f8, 0x1fda836e, 0x81be16cd, 0xf6b9265b, 0x6fb077e1, 0x18b74777,
    0x88085ae6, 0xff0f6a70, 0x66063bca, 0x11010b5c, 0x8f659eff, 0xf862ae69, 0x616bffd3, 0x166ccf45
  ]

  const TABLE7: seq<bv32> := [
    0xa00ae278, 0xd70dd2ee, 0x4e048354, 0x3903b3c2, 0xa7672661, 0xd06016f7, 0x4969474d, 0x3e6e77db,
    0xaed16a4a, 0xd9d65adc, 0x40df0b66, 0x37d83bf0, 0xa9bcae53, 0xdebb9ec5, 0x47b2cf7f, 0x30b5ffe9,
    0xbdbdf21c, 0xcabac28a, 0x53b39330, 0x24b4a3a6, 0xbad03605, 0xcdd70693, 0x54de5729, 0x23d967bf,
    0xb3667a2e, 0xc4614ab8, 0x5d681b02, 0x2a6f2b94, 0xb40bbe37, 0xc30c8ea1, 0x5a05df1b, 0x2d02ef8d
  ]

  function Joined(t: seq<seq<bv32>>): seq<bv32>
    requires |t| == 8
  {
    t[0] + t[1] + t[2] + t[3] + t[4] + t[5] + t[6] + t[7]
  }

  const PARTS: seq<seq<bv32>> := [TABLE0, TABLE1, TABLE2, TABLE3, TABLE4, TABLE5, TABLE6, TABLE7]

  const TABLE: seq<bv32> := Joined(PARTS)

  lemma JoinedAt(t: seq<seq<bv32>>, q: nat, k: nat)
    requires |t| == 8 && q < 8 && k < 32 && forall j :: 0 <= j < 8 ==> |t[j]| == 32
    ensures |Joined(t)| == 256 && Joined(t)[32 * q + k] == t[q][k]
  {
  }

  lemma Part0(i: bv32)
    requires 0 <= i < 32
    ensures |TABLE0| == 32 && TABLE0[i as int] == Shift8(i)
  {
  }

  lemma Part1(i: bv32)
    requires 32 <= i < 64
    ensures |TABLE1| == 32 && TABLE1[i as int - 32] == Shift8(i)
  {
    assert (i - 32) as int == i as int - 32;
  }

  lemma Part2(i: bv32)
    requires 64 <= i < 96
    ensures |TABLE2| == 32 && TABLE2[i as int - 64] == Shift8(i)
  {
    assert (i - 64) as int == i as int - 64;
  }

  lemma Part3(i: bv32)
    requires 96 <= i < 128
    ensures |TABLE3| == 32 && TABLE3[i as int - 96] == Shift8(i)
  {
    assert (i - 96) as int == i as int - 96;
  }

  lemma Part4(i: bv32)
    requires 128 <= i < 160
    ensures |TABLE4| == 32 && TABLE4[i as int - 128] == Shift8(i)
  {
    assert (i - 128) as int == i as int - 128;
  }

  lemma Part5(i: bv32)
    requires 160 <= i < 192
    ensures |TABLE5| == 32 && TABLE5[i as int - 160] == Shift8(i)
  {
    assert (i - 160) as int == i as int - 160;
  }

  lemma Part6(i: bv32)
    requires 192 <= i < 224
    ensures |TABLE6| == 32 && TABLE6[i as int - 192] == Shift8(i)
  {
    assert (i - 192) as int == i as int - 192;
  }

  lemma Part7(i: bv32)
    requires 224 <= i < 256
    ensures |TABLE7| == 32 && TABLE7[i as int - 224] == Shift8(i)
  {
    assert (i - 224) as int == i as int - 224;
  }

  lemma LowerHalf(i: bv32)
    requires i < 128
    ensures |TABLE| == 256 && TABLE[i as int] == Shift8(i)
  {
    hide Shift8, Joined;
    PartLengths();
    if i < 32 {
      Part0(i);
      JoinedAt(PARTS, 0, i as int - 0);
    } else if i < 64 {
      Part1(i);
      JoinedAt(PARTS, 1, i as int - 32);
    } else if i < 96 {
      Part2(i);
      JoinedAt(PARTS, 2, i as int - 64);
    } else {
      Part3(i);
      JoinedAt(PARTS, 3, i as int - 96);
    }
  }

  lemma UpperHalf(i: bv32)
    requires 128 <= i < 256
    ensures |TABLE| == 256 && TABLE[i as int] == Shift8(i)
  {
    hide Shift8, Joined;
    PartLengths();
    if i < 160 {
      Part4(i);
      JoinedAt(PARTS, 4, i as int - 128);
    } else if i < 192 {
      Part5(i);
      JoinedAt(PARTS, 5, i as int - 160);
    } else if i < 224 {
      Part6(i);
      JoinedAt(PARTS, 6, i as int - 192);
    } else {
      Part7(i);
      JoinedAt(PARTS, 7, i as int - 224);
    }
  }

  /** Every entry of the table is its index, shifted eight times. */
  lemma TableExact(i: bv32)
    requires i < 256
    ensures |TABLE| == 256 && TABLE[i as int] == Shift8(i)
  {
    hide Shift8, TABLE;
    if i < 128 {
      LowerHalf(i);
    } else {
      UpperHalf(i);
    }
  }

  lemma PartLengths()
    ensures |PARTS| == 8 && forall j :: 0 <= j < 8 ==> |PARTS[j]| == 32
  {
  }

  // ---------- bit-at-a-time division ----------

  /** Divide one more message bit. */
  function FeedBit(c: bv32, bit: bool): bv32 {
    if Odd(c) != bit then Plus(Half(c), POLY) else Half(c)
  }

  /** The low n bits of b go in, least significant first. */
  function FeedBits(c: bv32, b: bv32, n: nat): bv32
    decreases n
  {
    if n == 0 then c else FeedBits(FeedBit(c, Odd(b)), Half(b), n - 1)
  }

  /** Bit-at-a-time division of a message: the reference. */
  function Feed(c: bv32, bytes: seq<bv8>): bv32
    decreases |bytes|
  {
    if bytes == [] then c else FeedBits(Feed(c, bytes[..|bytes| - 1]), bytes[|bytes| - 1] as bv32, 8)
  }

  /** n bits of division without new message bits. */
  function Shifts(c: bv32, n: nat): bv32
    decreases n
  {
    if n == 0 then c else Shifts(Shift(c), n - 1)
  }

  function Halves(c: bv32, n: nat): bv32
    decreases n
  {
    if n == 0 then c else Halves(Half(c), n - 1)
  }

  lemma XorShift(x: bv32, y: bv32, a: bv32, b: bv32)
    requires a == x >> 1 && b == y >> 1
    ensures (x ^ y) >> 1 == a ^ b
  {
  }

  lemma XorHalf(x: bv32, y: bv32)
    ensures Half(x ^ y) == Half(x) ^ Half(y)
  {
    XorShift(x, y, x >> 1, y >> 1);
  }

  lemma PlusHalf(x: bv32, y: bv32)
    ensures Half(Plus(x, y)) == Plus(Half(x), Half(y))
  {
    hide Half;
    XorHalf(x, y);
  }

  lemma PlusOdd(x: bv32, y: bv32)
    ensures Odd(Plus(x, y)) <==> Odd(x) != Odd(y)
  {
  }

  lemma PlusAssociates(x: bv32, y: bv32, z: bv32)
    ensures Plus(Plus(x, y), z) == Plus(x, Plus(y, z))
  {
  }

  lemma PlusCommutes(x: bv32, y: bv32)
    ensures Plus(x, y) == Plus(y, x)
  {
  }

  lemma PlusLaws(x: bv32, y: bv32, p: bv32)
    ensures Plus(Plus(x, p), Plus(y, p)) == Plus(x, y)
    ensures Plus(Plus(x, p), y) == Plus(Plus(x, y), p)
    ensures Plus(x, Plus(y, p)) == Plus(Plus(x, y), p)
  {
    hide Plus;
    PlusAssociates(x, y, p);
    PlusCommutes(y, p);
    PlusAssociates(x, p, y);
    PlusAssociates(Plus(x, y), p, p);
    PlusAssociates(Plus(x, p), y, p);
    PlusZero(p);
    PlusZero(Plus(x, y));
  }

  lemma PlusZero(c: bv32)
    ensures Plus(c, 0) == c && Plus(0, c) == c && Plus(c, c) == 0
  {
  }

  /** Division is linear. */
  lemma ShiftLinear(x: bv32, y: bv32)
    ensures Shift(Plus(x, y)) == Plus(Shift(x), Shift(y))
  {
    hide Plus, Half, Odd;
    PlusHalf(x, y);
    PlusOdd(x, y);
    PlusLaws(Half(x), Half(y), POLY);
  }

  lemma {:induction false} ShiftsLinear(x: bv32, y: bv32, n: nat)
    ensures Shifts(Plus(x, y), n) == Plus(Shifts(x, n), Shifts(y, n))
    decreases n
  {
    hide Shift, Plus;
    if n > 0 {
      ShiftLinear(x, y);
      ShiftsLinear(Shift(x), Shift(y), n - 1);
    }
  }

  /** A bit fed in is the same as the bit added to the register's low end. */
  lemma FeedBitShift(c: bv32, b: bv32)
    ensures Plus(FeedBit(c, Odd(b)), Half(b)) == Shift(Plus(c, b))
  {
    hide Plus, Half, Odd;
    PlusHalf(c, b);
    PlusOdd(c, b);
    PlusLaws(Half(c), Half(b), POLY);
  }

  /** Feeding bits one at a time is adding them all first and shifting. */
  lemma {:induction false} FeedIsShifts(c: bv32, b: bv32, n: nat)
    requires Halves(b, n) == 0
    ensures FeedBits(c, b, n) == Shifts(Plus(c, b), n)
    decreases n
  {
    hide FeedBit, Shift, Plus, Half, Odd;
    if n == 0 {
      PlusZero(c);
    } else {
      FeedBitShift(c, b);
      FeedIsShifts(FeedBit(c, Odd(b)), Half(b), n - 1);
    }
  }

  /** Shifting a register whose low n bits are zero only moves the rest down. */
  lemma {:induction false} ShiftsZeros(c: bv32, n: nat)
    requires LowZeros(c, n)
    ensures Shifts(c, n) == Halves(c, n)
    decreases n
  {
    hide Plus, Half, Odd;
    if n > 0 {
      ShiftsZeros(Half(c), n - 1);
    }
  }

  predicate LowZeros(c: bv32, n: nat)
    decreases n
  {
    n == 0 || (!Odd(c) && LowZeros(Half(c), n - 1))
  }

  lemma ByteSplit(x: bv32)
    ensures x == Plus(x & 0xff, x & 0xffffff00)
  {
  }

  /** a is y with n zero bits below. */
  predicate Rises(a: bv32, n: nat, y: bv32) {
    LowZeros(a, n) && Halves(a, n) == y
  }

  lemma Rise(a: bv32, b: bv32, n: nat, y: bv32)
    requires a >> 1 == b && a & 1 == 0 && Rises(b, n, y)
    ensures Rises(a, n + 1, y)
  {
  }

  lemma Up0(y: bv32)
    ensures Rises(y << 0, 0, y)
  {
  }

  lemma Up1(y: bv32)
    requires y <= 0xffffff
    ensures Rises(y << 1, 1, y)
  {
    hide Rises;
    Up0(y);
    Rise(y << 1, y << 0, 0, y);
  }

  lemma Up2(y: bv32)
    requires y <= 0xffffff
    ensures Rises(y << 2, 2, y)
  {
    hide Rises;
    Up1(y);
    Rise(y << 2, y << 1, 1, y);
  }

  lemma Up3(y: bv32)
    requires y <= 0xffffff
    ensures Rises(y << 3, 3, y)
  {
    hide Rises;
    Up2(y);
    Rise(y << 3, y << 2, 2, y);
  }

  lemma Up4(y: bv32)
    requires y <= 0xffffff
    ensures Rises(y << 4, 4, y)
  {
    hide Rises;
    Up3(y);
    Rise(y << 4, y << 3, 3, y);
  }

  lemma Up5(y: bv32)
    requires y <= 0xffffff
    ensures Rises(y << 5, 5, y)
  {
    hide Rises;
    Up4(y);
    Rise(y << 5, y << 4, 4, y);
  }

  lemma Up6(y: bv32)
    requires y <= 0xffffff
    ensures Rises(y << 6, 6, y)
  {
    hide Rises;
    Up5(y);
    Rise(y << 6, y << 5, 5, y);
  }

  lemma Up7(y: bv32)
    requires y <= 0xffffff
    ensures Rises(y << 7, 7, y)
  {
    hide Rises;
    Up6(y);
    Rise(y << 7, y << 6, 6, y);
  }

  lemma Up8(y: bv32)
    requires y <= 0xffffff
    ensures Rises(y << 8, 8, y)
  {
    hide Rises;
    Up7(y);
    Rise(y << 8, y << 7, 7, y);
  }

  lemma DownUp(x: bv32)
    ensures x & 0xffffff00 == (x >> 8) << 8 && x >> 8 <= 0xffffff
  {
  }

  lemma HighZeros(x: bv32)
    ensures LowZeros(x & 0xffffff00, 8) && Halves(x & 0xffffff00, 8) == x >> 8
  {
    hide LowZeros, Halves;
    DownUp(x);
    Up8(x >> 8);
  }

  lemma ByteFits(b: bv8)
    ensures Halves(b as bv32, 8) == 0
  {
  }

  lemma ShiftsEight(c: bv32)
    ensures Shifts(c, 8) == Shift8(c)
  {
    hide Shift;
  }

  lemma HighPart(c: bv32, b: bv8)
    ensures Plus(c, b as bv32) >> 8 == c >> 8
  {
  }

  lemma TableIndex(c: bv32, b: bv8, i: bv32)
    requires i == Plus(c, b as bv32) & 0xff
    ensures i < 256 && |TABLE| == 256 && Plus(TABLE[i as int], c >> 8) == FeedBits(c, b as bv32, 8)
  {
    hide Shift8, FeedBits, Shift, Shifts, Halves, LowZeros, Plus, TABLE;
    var x := Plus(c, b as bv32);
    TableExact(i);
    ByteFits(b);
    FeedIsShifts(c, b as bv32, 8);
    ByteSplit(x);
    HighZeros(x);
    ShiftsLinear(i, x & 0xffffff00, 8);
    ShiftsEight(i);
    ShiftsZeros(x & 0xffffff00, 8);
    HighPart(c, b);
  }

  lemma PlusIsXor(x: bv32, y: bv32)
    ensures Plus(x, y) == x ^ y
  {
  }

  /** One round of the table loop is eight rounds of bit division. */
  lemma TableStep(c: bv32, b: bv8)
    ensures |TABLE| == 256 && (c ^ (b as bv32)) & 0xff < 256
    ensures TABLE[((c ^ (b as bv32)) & 0xff) as int] ^ (c >> 8) == FeedBits(c, b as bv32, 8)
  {
    hide FeedBits, Plus, TABLE;
    var i := (c ^ (b as bv32)) & 0xff;
    PlusIsXor(c, b as bv32);
    TableIndex(c, b, i);
    PlusIsXor(TABLE[i as int], c >> 8);
  }
  /** The body of the loop of crc32_ccitt_seed. */
  function Round(c: bv32, b: bv8): bv32 {
    TableStep(c, b);
    TABLE[((c ^ (b as bv32)) & 0xff) as int] ^ (c >> 8)
  }

  lemma RoundExact(c: bv32, b: bv8)
    ensures Round(c, b) == FeedBits(c, b as bv32, 8)
  {
    hide FeedBits, TABLE;
    TableStep(c, b);
  }

  lemma RoundFeeds(c: bv32, bytes: seq<bv8>, b: bv8)
    ensures Feed(c, bytes + [b]) == Round(Feed(c, bytes), b)
  {
    hide FeedBits, Round, Feed;
    FeedSnoc(c, bytes, b);
    RoundExact(Feed(c, bytes), b);
  }

  function Not(c: bv32): bv32 {
    !c
  }

  lemma FeedNone(c: bv32)
    ensures Feed(c, []) == c
  {
  }

  /** `crc32_ccitt_seed`: the table-driven loop computes bit-at-a-time division, for every buffer and seed. */
  method Crc32CcittSeed(buf: array<bv8>, len: nat, seed: bv32) returns (crc: bv32)
    requires len <= buf.Length
    ensures crc == Not(Feed(seed, buf[..len]))
  {
    hide Feed, Not, Round;
    var crc32 := seed;
    var i := 0;
    FeedNone(seed);
    assert buf[..0] == [];
    while i < len
      invariant i <= len && crc32 == Feed(seed, buf[..i])
    {
      RoundFeeds(seed, buf[..i], buf[i]);
      assert buf[..i + 1] == buf[..i] + [buf[i]];
      crc32 := Round(crc32, buf[i]);
      i := i + 1;
    }
    return Not(crc32);
  }

  const SEED: bv32 := 0xFFFFFFFF

  /** The frame check sequence of a message. */
  function Crc(bytes: seq<bv8>): bv32 {
    Not(Feed(SEED, bytes))
  }

  /** `crc32_ccitt`. */
  method Crc32Ccitt(buf: array<bv8>, len: nat) returns (crc: bv32)
    requires len <= buf.Length
    ensures crc == Crc(buf[..len])
  {
    crc := Crc32CcittSeed(buf, len, SEED);
  }

  function LowByte(c: bv32): bv8 {
    (c & 0xff) as bv8
  }

  /** `crc32_802`: the four bytes of the CRC, in the opposite order. */
  method Crc32Of802(buf: array<bv8>, len: nat) returns (crc: bv32)
    requires len <= buf.Length
    ensures crc == Extract32(WireBytes(Crc(buf[..len])))
  {
    hide Crc, LowByte, Extract32, WireBytes;
    crc := Crc32Ccitt(buf, len);
    ReverseExtract(crc);
    crc := ((LowByte(crc) as bv32) << 24) | ((LowByte(crc >> 8) as bv32) << 16)
        | ((LowByte(crc >> 16) as bv32) << 8) | (LowByte(crc >> 24) as bv32);
  }

  /** The CRC as it travels: least significant byte first. */
  function WireBytes(c: bv32): (w: seq<bv8>)
    ensures |w| == 4
  {
    [LowByte(c), LowByte(c >> 8), LowByte(c >> 16), LowByte(c >> 24)]
  }

  /** EXTRACT_32BITS: four bytes, most significant first. */
  function Extract32(w: seq<bv8>): bv32
    requires |w| == 4
  {
    ((w[0] as bv32) << 24) | ((w[1] as bv32) << 16) | ((w[2] as bv32) << 8) | (w[3] as bv32)
  }

  lemma ReverseExtract(c: bv32)
    ensures ((LowByte(c) as bv32) << 24) | ((LowByte(c >> 8) as bv32) << 16)
          | ((LowByte(c >> 16) as bv32) << 8) | (LowByte(c >> 24) as bv32) == Extract32(WireBytes(c))
  {
    hide LowByte;
  }

  // ---------- what the check detects ----------

  lemma FeedSnoc(c: bv32, bytes: seq<bv8>, b: bv8)
    ensures Feed(c, bytes + [b]) == FeedBits(Feed(c, bytes), b as bv32, 8)
  {
    assert (bytes + [b])[..|bytes|] == bytes;
  }

  lemma {:induction false} FeedAppend(c: bv32, m: seq<bv8>, n: seq<bv8>)
    ensures Feed(c, m + n) == Feed(Feed(c, m), n)
    decreases |n|
  {
    if n == [] {
      assert m + n == m;
    } else {
      var init, b := n[..|n| - 1], n[|n| - 1];
      FeedAppend(c, m, init);
      FeedSnoc(c, m + init, b);
      assert m + n == m + init + [b];
    }
  }

  lemma FeedByte(c: bv32, b: bv8)
    ensures FeedBits(c, b as bv32, 8) == Shifts(Plus(c, b as bv32), 8)
  {
    hide FeedBits, Shifts, Halves, Plus;
    ByteFits(b);
    FeedIsShifts(c, b as bv32, 8);
  }

  /** Only the zero register shifts to zero: the polynomial has a constant term. */
  lemma ShiftKernel(z: bv32)
    requires Shift(z) == 0
    ensures z == 0
  {
  }

  lemma {:induction false} ShiftsKernel(z: bv32, n: nat)
    requires Shifts(z, n) == 0
    ensures z == 0
    decreases n
  {
    hide Shift;
    if n > 0 {
      ShiftsKernel(Shift(z), n - 1);
      ShiftKernel(z);
    }
  }

  lemma PlusCancels(x: bv32, y: bv32)
    ensures Plus(x, y) == 0 <==> x == y
  {
  }

  lemma ShiftsInjective(x: bv32, y: bv32, n: nat)
    requires Shifts(x, n) == Shifts(y, n)
    ensures x == y
  {
    hide Plus, Shifts;
    ShiftsLinear(x, y, n);
    PlusCancels(Shifts(x, n), Shifts(y, n));
    ShiftsKernel(Plus(x, y), n);
    PlusCancels(x, y);
  }

  lemma PlusInjective(x: bv32, y: bv32, b: bv32)
    requires Plus(x, b) == Plus(y, b)
    ensures x == y
  {
  }

  /** Different registers stay different under the same bytes. */
  lemma {:induction false} FeedInjective(x: bv32, y: bv32, bytes: seq<bv8>)
    requires Feed(x, bytes) == Feed(y, bytes)
    ensures x == y
    decreases |bytes|
  {
    hide FeedBits, Plus, Shifts;
    if bytes != [] {
      var init, b := bytes[..|bytes| - 1], bytes[|bytes| - 1];
      FeedByte(Feed(x, init), b);
      FeedByte(Feed(y, init), b);
      ShiftsInjective(Plus(Feed(x, init), b as bv32), Plus(Feed(y, init), b as bv32), 8);
      PlusInjective(Feed(x, init), Feed(y, init), b as bv32);
      FeedInjective(x, y, init);
    }
  }

  lemma {:induction false} ShiftsAdd(c: bv32, m: nat, n: nat)
    ensures Shifts(c, m + n) == Shifts(Shifts(c, m), n)
    decreases m
  {
    hide Shift;
    if m > 0 {
      ShiftsAdd(Shift(c), m - 1, n);
    }
  }

  function Up(x: bv32): bv32 {
    x << 8
  }

  /** x fits into n bytes. */
  predicate Fits(x: bv32, n: nat) {
    (n == 0 ==> x == 0) && (n == 1 ==> x <= 0xff) && (n == 2 ==> x <= 0xffff) && (n == 3 ==> x <= 0xffffff)
  }

  /** Up to four bytes as a word, the first lowest. */
  function Word(w: seq<bv8>): bv32
    requires |w| <= 4
  {
    if w == [] then 0 else Plus(w[0] as bv32, Up(Word(w[1..])))
  }

  lemma FitsAbove(b: bv8, r: bv32, n: nat)
    requires n < 4 && Fits(r, n)
    ensures Fits(Plus(b as bv32, Up(r)), n + 1) && r <= 0xffffff
  {
  }

  lemma {:induction false} WordFits(w: seq<bv8>)
    requires |w| <= 4
    ensures Fits(Word(w), |w|) && (|w| < 4 ==> Word(w) <= 0xffffff)
    decreases |w|
  {
    hide Plus, Up, Fits;
    if w == [] {
      FitsNone();
    } else {
      WordFits(w[1..]);
      FitsAbove(w[0], Word(w[1..]), |w| - 1);
    }
    if |w| < 4 {
      FitsAbove(0, Word(w), |w|);
    }
  }

  lemma FitsNone()
    ensures Fits(0, 0)
  {
  }

  lemma BytesApart(a: bv8, x: bv32, b: bv8, y: bv32)
    requires x <= 0xffffff && y <= 0xffffff && Plus(a as bv32, Up(x)) == Plus(b as bv32, Up(y))
    ensures a == b && x == y
  {
  }

  lemma {:induction false} WordInjective(w: seq<bv8>, v: seq<bv8>)
    requires |w| == |v| <= 4 && Word(w) == Word(v)
    ensures w == v
    decreases |w|
  {
    hide Plus, Up, Fits;
    if w != [] {
      WordFits(w[1..]);
      WordFits(v[1..]);
      BytesApart(w[0], Word(w[1..]), v[0], Word(v[1..]));
      WordInjective(w[1..], v[1..]);
    }
  }

  lemma HighByteShifts(y: bv32)
    requires y <= 0xffffff
    ensures Shifts(Up(y), 8) == y
  {
    hide Shifts, Halves, LowZeros;
    Up8(y);
    ShiftsZeros(y << 8, 8);
  }

  /** Feeding up to four bytes is adding them as one word and shifting. */
  lemma {:induction false} FeedWord(c: bv32, w: seq<bv8>)
    requires |w| <= 4
    ensures Feed(c, w) == Shifts(Plus(c, Word(w)), 8 * |w|)
    decreases |w|
  {
    hide FeedBits, Plus, Shifts, Feed, Up, Fits;
    if w == [] {
      FeedNone(c);
      PlusZero(c);
      ShiftsNone(c);
    } else {
      var first, rest := w[0], w[1..];
      FeedFirst(c, w);
      FeedWord(Feed(c, [first]), rest);
      WordFits(rest);
      FirstUp(c, first, Word(rest));
      ShiftsAdd(Plus(c, Word(w)), 8, 8 * |rest|);
    }
  }

  lemma FeedFirst(c: bv32, w: seq<bv8>)
    requires w != []
    ensures Feed(c, w) == Feed(Feed(c, [w[0]]), w[1..])
  {
    hide Feed;
    assert w == [w[0]] + w[1..];
    FeedAppend(c, [w[0]], w[1..]);
  }

  lemma FirstUp(c: bv32, first: bv8, r: bv32)
    requires r <= 0xffffff
    ensures Plus(Feed(c, [first]), r) == Shifts(Plus(c, Plus(first as bv32, Up(r))), 8)
  {
    hide FeedBits, Plus, Shifts, Feed, Up;
    assert [] + [first] == [first];
    FeedSnoc(c, [], first);
    FeedNone(c);
    FeedByte(c, first);
    HighByteShifts(r);
    ShiftsLinear(Plus(c, first as bv32), Up(r), 8);
    PlusAssociates(c, first as bv32, Up(r));
  }

  lemma ShiftsNone(c: bv32)
    ensures Shifts(c, 0) == c
  {
  }

  /** Two messages that differ only within four consecutive bytes never have the same CRC. */
  lemma BurstDetected(seed: bv32, before: seq<bv8>, w: seq<bv8>, v: seq<bv8>, after: seq<bv8>)
    requires |w| == |v| <= 4 && w != v
    ensures Feed(seed, before + w + after) != Feed(seed, before + v + after)
  {
    hide Feed, Word, Plus, Shifts;
    var r := Feed(seed, before);
    FeedAppend(seed, before + w, after);
    FeedAppend(seed, before + v, after);
    FeedAppend(seed, before, w);
    FeedAppend(seed, before, v);
    if Feed(seed, before + w + after) == Feed(seed, before + v + after) {
      FeedInjective(Feed(r, w), Feed(r, v), after);
      FeedWord(r, w);
      FeedWord(r, v);
      ShiftsInjective(Plus(r, Word(w)), Plus(r, Word(v)), 8 * |w|);
      PlusLeft(r, Word(w), Word(v));
      WordInjective(w, v);
    }
  }

  lemma PlusLeft(r: bv32, x: bv32, y: bv32)
    requires Plus(r, x) == Plus(r, y)
    ensures x == y
  {
  }

  // ---------- the check of a received frame ----------

  /** What the register holds after a good frame, check sequence included. */
  const RESIDUE: bv32 := 0xDEBB20E3

  lemma ResidueExact()
    ensures Shifts(0xffffffff, 32) == RESIDUE
  {
    hide Shift8, Shifts;
    ShiftsAdd(0xffffffff, 8, 24);
    ShiftsEight(0xffffffff);
    ShiftsAdd(0x2dfd1072, 8, 16);
    ShiftsEight(0x2dfd1072);
    ShiftsAdd(0xbe26ed00, 8, 8);
    ShiftsEight(0xbe26ed00);
    ShiftsEight(0x00be26ed);
    FourRounds();
  }

  lemma FourRounds()
    ensures Shift8(0xffffffff) == 0x2dfd1072 && Shift8(0x2dfd1072) == 0xbe26ed00
    ensures Shift8(0xbe26ed00) == 0x00be26ed && Shift8(0x00be26ed) == RESIDUE
  {
  }

  lemma WordOfFour(w: seq<bv8>)
    requires |w| == 4
    ensures Word(w) == Plus(w[0] as bv32, Up(Plus(w[1] as bv32, Up(Plus(w[2] as bv32, Up(Plus(w[3] as bv32, Up(0))))))))
  {
    hide Plus, Up;
    assert w[1..][1..] == w[2..] && w[2..][1..] == w[3..] && w[3..][1..] == [];
    assert Word(w[3..]) == Plus(w[3] as bv32, Up(0));
    assert Word(w[2..]) == Plus(w[2] as bv32, Up(Word(w[3..])));
  }

  lemma WordOfWire(c: bv32)
    ensures Word(WireBytes(c)) == c
  {
    hide LowByte, Plus, Up, Word;
    WordOfFour(WireBytes(c));
    FourBytes(c);
  }

  lemma FourBytes(c: bv32)
    ensures Plus(LowByte(c) as bv32, Up(Plus(LowByte(c >> 8) as bv32, Up(Plus(LowByte(c >> 16) as bv32,
              Up(Plus(LowByte(c >> 24) as bv32, Up(0)))))))) == c
  {
  }

  lemma PlusNot(r: bv32)
    ensures Plus(r, Not(r)) == 0xffffffff
  {
  }

  /** The register ends at the residue exactly when the message's own CRC follows it, low byte first. */
  lemma ResidueIff(bytes: seq<bv8>, t: seq<bv8>)
    requires |t| == 4
    ensures Feed(SEED, bytes + t) == RESIDUE <==> t == WireBytes(Crc(bytes))
  {
    hide Feed, Word, Plus, Shifts, WireBytes, Not;
    var r := Feed(SEED, bytes);
    FeedAppend(SEED, bytes, t);
    FeedWord(r, t);
    ResidueExact();
    PlusNot(r);
    WordOfWire(Crc(bytes));
    if Feed(SEED, bytes + t) == RESIDUE {
      ShiftsInjective(Plus(r, Word(t)), 0xffffffff, 32);
      PlusLeft(r, Word(t), Not(r));
      WordInjective(t, WireBytes(Crc(bytes)));
    }
  }

  lemma ExtractParts(w: seq<bv8>)
    requires |w| == 4
    ensures w[0] as bv32 == Extract32(w) >> 24 && w[1] as bv32 == (Extract32(w) >> 16) & 0xff
    ensures w[2] as bv32 == (Extract32(w) >> 8) & 0xff && w[3] as bv32 == Extract32(w) & 0xff
  {
  }

  lemma SameByte(a: bv8, b: bv8)
    requires a as bv32 == b as bv32
    ensures a == b
  {
  }

  lemma ExtractInjective(w: seq<bv8>, v: seq<bv8>)
    requires |w| == |v| == 4 && Extract32(w) == Extract32(v)
    ensures w == v
  {
    hide Extract32;
    ExtractParts(w);
    ExtractParts(v);
    SameByte(w[0], v[0]);
    SameByte(w[1], v[1]);
    SameByte(w[2], v[2]);
    SameByte(w[3], v[3]);
  }

  /** The check of handle_80211: the last four bytes, most significant first, against crc32_802 of the rest. */
  predicate FcsOk(packet: seq<bv8>)
    requires |packet| >= 4
  {
    Extract32(packet[|packet| - 4..]) == Extract32(WireBytes(Crc(packet[..|packet| - 4])))
  }

  /** The check accepts exactly the frames that divide to the residue. */
  lemma FcsOkIff(packet: seq<bv8>)
    requires |packet| >= 4
    ensures FcsOk(packet) <==> Feed(SEED, packet) == RESIDUE
  {
    hide Feed, Extract32, WireBytes, Crc;
    var body, t := packet[..|packet| - 4], packet[|packet| - 4..];
    assert packet == body + t;
    ResidueIff(body, t);
    if FcsOk(packet) {
      ExtractInjective(t, WireBytes(Crc(body)));
    }
  }

  /** Corrupting any four consecutive bytes of a good frame, check sequence included, makes the check fail. */
  lemma CorruptionCaught(before: seq<bv8>, w: seq<bv8>, v: seq<bv8>, after: seq<bv8>)
    requires |w| == |v| <= 4 && w != v && |before| + |w| + |after| >= 4
    requires FcsOk(before + w + after)
    ensures !FcsOk(before + v + after)
  {
    hide FcsOk, Feed;
    FcsOkIff(before + w + after);
    FcsOkIff(before + v + after);
    BurstDetected(SEED, before, w, v, after);
  }
}
