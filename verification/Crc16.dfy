/** The table-driven crc16 of the cluster client, against the bit-by-bit definition. */
module Crc16 {
  import opened ByteStrings

  type u16 = bv16

  /** crc16tab, sixteen entries to a row. */
  const TABLE: seq<seq<u16>> := [
    [0x0000, 0x1021, 0x2042, 0x3063, 0x4084, 0x50a5, 0x60c6, 0x70e7,
     0x8108, 0x9129, 0xa14a, 0xb16b, 0xc18c, 0xd1ad, 0xe1ce, 0xf1ef],
    [0x1231, 0x0210, 0x3273, 0x2252, 0x52b5, 0x4294, 0x72f7, 0x62d6,
     0x9339, 0x8318, 0xb37b, 0xa35a, 0xd3bd, 0xc39c, 0xf3ff, 0xe3de],
    [0x2462, 0x3443, 0x0420, 0x1401, 0x64e6, 0x74c7, 0x44a4, 0x5485,
     0xa56a, 0xb54b, 0x8528, 0x9509, 0xe5ee, 0xf5cf, 0xc5ac, 0xd58d],
    [0x3653, 0x2672, 0x1611, 0x0630, 0x76d7, 0x66f6, 0x5695, 0x46b4,
     0xb75b, 0xa77a, 0x9719, 0x8738, 0xf7df, 0xe7fe, 0xd79d, 0xc7bc],
    [0x48c4, 0x58e5, 0x6886, 0x78a7, 0x0840, 0x1861, 0x2802, 0x3823,
     0xc9cc, 0xd9ed, 0xe98e, 0xf9af, 0x8948, 0x9969, 0xa90a, 0xb92b],
    [0x5af5, 0x4ad4, 0x7ab7, 0x6a96, 0x1a71, 0x0a50, 0x3a33, 0x2a12,
     0xdbfd, 0xcbdc, 0xfbbf, 0xeb9e, 0x9b79, 0x8b58, 0xbb3b, 0xab1a],
    [0x6ca6, 0x7c87, 0x4ce4, 0x5cc5, 0x2c22, 0x3c03, 0x0c60, 0x1c41,
     0xedae, 0xfd8f, 0xcdec, 0xddcd, 0xad2a, 0xbd0b, 0x8d68, 0x9d49],
    [0x7e97, 0x6eb6, 0x5ed5, 0x4ef4, 0x3e13, 0x2e32, 0x1e51, 0x0e70,
     0xff9f, 0xefbe, 0xdfdd, 0xcffc, 0xbf1b, 0xaf3a, 0x9f59, 0x8f78],
    [0x9188, 0x81a9, 0xb1ca, 0xa1eb, 0xd10c, 0xc12d, 0xf14e, 0xe16f,
     0x1080, 0x00a1, 0x30c2, 0x20e3, 0x5004, 0x4025, 0x7046, 0x6067],
    [0x83b9, 0x9398, 0xa3fb, 0xb3da, 0xc33d, 0xd31c, 0xe37f, 0xf35e,
     0x02b1, 0x1290, 0x22f3, 0x32d2, 0x4235, 0x5214, 0x6277, 0x7256],
    [0xb5ea, 0xa5cb, 0x95a8, 0x8589, 0xf56e, 0xe54f, 0xd52c, 0xc50d,
     0x34e2, 0x24c3, 0x14a0, 0x0481, 0x7466, 0x6447, 0x5424, 0x4405],
    [0xa7db, 0xb7fa, 0x8799, 0x97b8, 0xe75f, 0xf77e, 0xc71d, 0xd73c,
     0x26d3, 0x36f2, 0x0691, 0x16b0, 0x6657, 0x7676, 0x4615, 0x5634],
    [0xd94c, 0xc96d, 0xf90e, 0xe92f, 0x99c8, 0x89e9, 0xb98a, 0xa9ab,
     0x5844, 0x4865, 0x7806, 0x6827, 0x18c0, 0x08e1, 0x3882, 0x28a3],
    [0xcb7d, 0xdb5c, 0xeb3f, 0xfb1e, 0x8bf9, 0x9bd8, 0xabbb, 0xbb9a,
     0x4a75, 0x5a54, 0x6a37, 0x7a16, 0x0af1, 0x1ad0, 0x2ab3, 0x3a92],
    [0xfd2e, 0xed0f, 0xdd6c, 0xcd4d, 0xbdaa, 0xad8b, 0x9de8, 0x8dc9,
     0x7c26, 0x6c07, 0x5c64, 0x4c45, 0x3ca2, 0x2c83, 0x1ce0, 0x0cc1],
    [0xef1f, 0xff3e, 0xcf5d, 0xdf7c, 0xaf9b, 0xbfba, 0x8fd9, 0x9ff8,
     0x6e17, 0x7e36, 0x4e55, 0x5e74, 0x2e93, 0x3eb2, 0x0ed1, 0x1ef0]
  ]

  // ----- the definition: polynomial 0x1021, most significant bit first, initial value 0 -----

  function BitStep(x: u16): u16 {
    if x & 0x8000 != 0 then (x << 1) ^ 0x1021 else x << 1
  }

  function Step2(x: u16): u16 {
    BitStep(BitStep(x))
  }

  function Step4(x: u16): u16 {
    Step2(Step2(x))
  }

  /** Eight bits shifted through the register. */
  function ByteStep(x: u16): u16 {
    Step4(Step4(x))
  }

  /** CRC16 of the Redis Cluster specification, "Key distribution model". */
  function CrcOf(s: Bytes): u16 {
    if s == [] then 0
    else ByteStep(CrcOf(s[..|s| - 1]) ^ ((s[|s| - 1] as u16) << 8))
  }

  // ----- several bits at once -----

  /** Product with the polynomial, for a factor small enough not to be reduced. */
  function Times(n: u16): u16 {
    n ^ (n << 5) ^ (n << 12)
  }

  lemma OneBit(v: u16)
    ensures BitStep(v) == (v << 1) ^ Times(v >> 15)
  {
    if v & 0x8000 == 0 {
      assert v >> 15 == 0;
    } else {
      assert v >> 15 == 1;
    }
  }

  lemma TwoBits(v: u16)
    ensures Step2(v) == (v << 2) ^ Times(v >> 14)
  {
    hide BitStep;
    OneBit(v);
    OneBit((v << 1) ^ Times(v >> 15));
  }

  lemma FourBits(v: u16)
    ensures Step4(v) == (v << 4) ^ Times(v >> 12)
  {
    hide Step2;
    TwoBits(v);
    TwoBits((v << 2) ^ Times(v >> 14));
  }

  /** What the top byte, as two nibbles, contributes to the register eight bits later. */
  function Contribution(hi: u16, lo: u16): u16 {
    (Times(hi) << 4) ^ Times(lo ^ (Times(hi) >> 12))
  }

  /** The register moves up by a byte and takes in a contribution. */
  function TakeIn(v: u16, e: u16): u16 {
    (v << 8) ^ e
  }

  lemma TwoNibbles(v: u16, w: u16)
    requires w == (v << 4) ^ Times(v >> 12)
    ensures (w << 4) ^ Times(w >> 12) == TakeIn(v, Contribution(v >> 12, (v >> 8) & 0xf))
  {
  }

  lemma EightBits(v: u16)
    ensures ByteStep(v) == TakeIn(v, Contribution(v >> 12, (v >> 8) & 0xf))
  {
    hide Step4, Times, TakeIn, Contribution;
    FourBits(v);
    FourBits(Step4(v));
    TwoNibbles(v, Step4(v));
  }

  // ----- the table -----

  function Nibble(x: u16): (n: int)
    requires x < 16
    ensures 0 <= n < 16
  {
    x as int
  }

  /** All 256 entries. */
  lemma TableIsContribution(hi: u16, lo: u16)
    requires hi < 16 && lo < 16
    ensures TABLE[Nibble(hi)][Nibble(lo)] == Contribution(hi, lo)
  {
    assert lo in {0, 1, 2, 3, 4, 5, 6, 7, 8, 9, 10, 11, 12, 13, 14, 15};
    if
    case hi == 0 =>
    case hi == 1 =>
    case hi == 2 =>
    case hi == 3 =>
    case hi == 4 =>
    case hi == 5 =>
    case hi == 6 =>
    case hi == 7 =>
    case hi == 8 =>
    case hi == 9 =>
    case hi == 10 =>
    case hi == 11 =>
    case hi == 12 =>
    case hi == 13 =>
    case hi == 14 =>
    case hi == 15 =>
  }

  /** The table step that the source makes for the next byte b. */
  function TableStep(crc: u16, b: u16): u16 {
    var x := ((crc >> 8) ^ b) & 0xff;
    TakeIn(crc, TABLE[Nibble(x >> 4)][Nibble(x & 0xf)])
  }

  lemma TableStepIsByteStep(crc: u16, b: u16)
    ensures TableStep(crc, b) == ByteStep(crc ^ (b << 8))
  {
    hide ByteStep, Contribution, TakeIn;
    var x, v := ((crc >> 8) ^ b) & 0xff, crc ^ (b << 8);
    EightBits(v);
    Indices(crc, b, v, x);
    TableIsContribution(x >> 4, x & 0xf);
    SameLowByte(crc, b, TABLE[Nibble(x >> 4)][Nibble(x & 0xf)]);
  }

  lemma Indices(crc: u16, b: u16, v: u16, x: u16)
    requires v == crc ^ (b << 8) && x == ((crc >> 8) ^ b) & 0xff
    ensures v >> 12 == x >> 4 && (v >> 8) & 0xf == x & 0xf
  {
  }

  lemma SameLowByte(crc: u16, b: u16, e: u16)
    ensures TakeIn(crc ^ (b << 8), e) == TakeIn(crc, e)
  {
  }

  /** crc16: the table-driven loop computes the bit-by-bit CRC of every byte string. */
  method Crc(buf: Bytes) returns (crc: u16)
    ensures crc == CrcOf(buf)
  {
    hide ByteStep, TableStep;
    crc := 0;
    for i := 0 to |buf|
      invariant crc == CrcOf(buf[..i])
    {
      TableStepIsByteStep(crc, buf[i] as u16);
      crc := TableStep(crc, buf[i] as u16);
      assert buf[..i + 1][..i] == buf[..i];
    }
    assert buf[..|buf|] == buf;
  }

  const MAX_CLUSTER_HSLOT: u16 := 16383

  /** Masking is reduction modulo the number of slots. */
  function SlotOf(crc: u16): (slot: nat)
    ensures slot < 16384
    ensures slot == SlotNumber(crc % 16384)
  {
    MaskIsModulo(crc);
    SlotNumber(crc & MAX_CLUSTER_HSLOT)
  }

  /** calc_hslot_crc16_cluster */
  function HashSlot(key: Bytes): (slot: nat)
    ensures slot < 16384
  {
    SlotOf(CrcOf(key))
  }

  lemma MaskIsModulo(x: u16)
    ensures x & MAX_CLUSTER_HSLOT == x % 16384 < 16384
  {
  }

  function SlotNumber(x: u16): (slot: nat)
    requires x < 16384
    ensures slot < 16384
  {
    x as int
  }
}
