/** Words as polynomials over the two-element field, modulo the checksum's polynomial. */
module CrcWords {
  type Word = bv32

  function Xor(a: Word, b: Word): Word {
    a ^ b
  }

  function Double(r: Word): Word {
    r << 1
  }

  function Carry(r: Word): Word {
    if r & 0x80000000 != 0 then 0x04c10db7 else 0
  }

  /** Multiplication by x modulo the polynomial. */
  function Shift(r: Word): Word {
    Xor(Double(r), Carry(r))
  }

  /** Multiplication by a power of x. */
  function Shifts(r: Word, n: nat): Word {
    if n == 0 then r else Shift(Shifts(r, n - 1))
  }

  lemma XorAssoc(a: Word, b: Word, c: Word)
    ensures Xor(Xor(a, b), c) == Xor(a, Xor(b, c))
  {
  }

  lemma XorComm(a: Word, b: Word)
    ensures Xor(a, b) == Xor(b, a)
  {
  }

  lemma XorSelf(x: Word)
    ensures Xor(x, x) == 0 && Xor(0, x) == x
  {
  }

  lemma XorZero(x: Word, y: Word)
    ensures Xor(x, y) == 0 <==> x == y
  {
    XorSelf(x);
    XorSelf(y);
    XorAssoc(x, y, y);
    XorComm(x, 0);
  }

  lemma Exchange(a: Word, b: Word, c: Word, d: Word)
    ensures Xor(Xor(a, b), Xor(c, d)) == Xor(Xor(a, c), Xor(b, d))
  {
    XorAssoc(a, b, Xor(c, d));
    XorAssoc(b, c, d);
    XorComm(b, c);
    XorAssoc(c, b, d);
    XorAssoc(a, c, Xor(b, d));
  }

  lemma DoubleLinear(x: Word, y: Word)
    ensures Double(Xor(x, y)) == Xor(Double(x), Double(y))
  {
  }

  /** The carry without a branch. */
  function CarryMask(r: Word): Word {
    (0 - (r >> 31)) & 0x04c10db7
  }

  lemma CarryIsMask(r: Word)
    ensures Carry(r) == CarryMask(r)
  {
  }

  lemma MaskLinear(x: Word, y: Word)
    ensures CarryMask(Xor(x, y)) == Xor(CarryMask(x), CarryMask(y))
  {
  }

  lemma CarryLinear(x: Word, y: Word)
    ensures Carry(Xor(x, y)) == Xor(Carry(x), Carry(y))
  {
    CarryIsMask(x);
    CarryIsMask(y);
    CarryIsMask(Xor(x, y));
    MaskLinear(x, y);
  }

  lemma ShiftLinear(x: Word, y: Word)
    ensures Shift(Xor(x, y)) == Xor(Shift(x), Shift(y))
  {
    DoubleLinear(x, y);
    CarryLinear(x, y);
    Exchange(Double(x), Carry(x), Double(y), Carry(y));
  }

  lemma {:induction false} ShiftsLinear(x: Word, y: Word, n: nat)
    ensures Shifts(Xor(x, y), n) == Xor(Shifts(x, n), Shifts(y, n))
  {
    if n > 0 {
      ShiftsLinear(x, y, n - 1);
      ShiftLinear(Shifts(x, n - 1), Shifts(y, n - 1));
    }
  }

  lemma {:induction false} ShiftsAdd(x: Word, m: nat, n: nat)
    ensures Shifts(Shifts(x, m), n) == Shifts(x, m + n)
  {
    if n > 0 { ShiftsAdd(x, m, n - 1); }
  }
}

/** The Rockchip checksum: a table-driven CRC, and the division it computes. */
module Crc {
  import opened CrcWords

  type Byte = bv8

  function Row0(j: Byte): Word {
    match j
    case 0 => 0x00000000 case 1 => 0x04c10db7 case 2 => 0x09821b6e case 3 => 0x0d4316d9
    case 4 => 0x130436dc case 5 => 0x17c53b6b case 6 => 0x1a862db2 case 7 => 0x1e472005
    case 8 => 0x26086db8 case 9 => 0x22c9600f case 10 => 0x2f8a76d6 case 11 => 0x2b4b7b61
    case 12 => 0x350c5b64 case 13 => 0x31cd56d3 case 14 => 0x3c8e400a case _ => 0x384f4dbd
  }

  function Row1(j: Byte): Word {
    match j
    case 0 => 0x4c10db70 case 1 => 0x48d1d6c7 case 2 => 0x4592c01e case 3 => 0x4153cda9
    case 4 => 0x5f14edac case 5 => 0x5bd5e01b case 6 => 0x5696f6c2 case 7 => 0x5257fb75
    case 8 => 0x6a18b6c8 case 9 => 0x6ed9bb7f case 10 => 0x639aada6 case 11 => 0x675ba011
    case 12 => 0x791c8014 case 13 => 0x7ddd8da3 case 14 => 0x709e9b7a case _ => 0x745f96cd
  }

  function Row2(j: Byte): Word {
    match j
    case 0 => 0x9821b6e0 case 1 => 0x9ce0bb57 case 2 => 0x91a3ad8e case 3 => 0x9562a039
    case 4 => 0x8b25803c case 5 => 0x8fe48d8b case 6 => 0x82a79b52 case 7 => 0x866696e5
    case 8 => 0xbe29db58 case 9 => 0xbae8d6ef case 10 => 0xb7abc036 case 11 => 0xb36acd81
    case 12 => 0xad2ded84 case 13 => 0xa9ece033 case 14 => 0xa4aff6ea case _ => 0xa06efb5d
  }

  function Row3(j: Byte): Word {
    match j
    case 0 => 0xd4316d90 case 1 => 0xd0f06027 case 2 => 0xddb376fe case 3 => 0xd9727b49
    case 4 => 0xc7355b4c case 5 => 0xc3f456fb case 6 => 0xceb74022 case 7 => 0xca764d95
    case 8 => 0xf2390028 case 9 => 0xf6f80d9f case 10 => 0xfbbb1b46 case 11 => 0xff7a16f1
    case 12 => 0xe13d36f4 case 13 => 0xe5fc3b43 case 14 => 0xe8bf2d9a case _ => 0xec7e202d
  }

  function Row4(j: Byte): Word {
    match j
    case 0 => 0x34826077 case 1 => 0x30436dc0 case 2 => 0x3d007b19 case 3 => 0x39c176ae
    case 4 => 0x278656ab case 5 => 0x23475b1c case 6 => 0x2e044dc5 case 7 => 0x2ac54072
    case 8 => 0x128a0dcf case 9 => 0x164b0078 case 10 => 0x1b0816a1 case 11 => 0x1fc91b16
    case 12 => 0x018e3b13 case 13 => 0x054f36a4 case 14 => 0x080c207d case _ => 0x0ccd2dca
  }

  function Row5(j: Byte): Word {
    match j
    case 0 => 0x7892bb07 case 1 => 0x7c53b6b0 case 2 => 0x7110a069 case 3 => 0x75d1adde
    case 4 => 0x6b968ddb case 5 => 0x6f57806c case 6 => 0x621496b5 case 7 => 0x66d59b02
    case 8 => 0x5e9ad6bf case 9 => 0x5a5bdb08 case 10 => 0x5718cdd1 case 11 => 0x53d9c066
    case 12 => 0x4d9ee063 case 13 => 0x495fedd4 case 14 => 0x441cfb0d case _ => 0x40ddf6ba
  }

  function Row6(j: Byte): Word {
    match j
    case 0 => 0xaca3d697 case 1 => 0xa862db20 case 2 => 0xa521cdf9 case 3 => 0xa1e0c04e
    case 4 => 0xbfa7e04b case 5 => 0xbb66edfc case 6 => 0xb625fb25 case 7 => 0xb2e4f692
    case 8 => 0x8aabbb2f case 9 => 0x8e6ab698 case 10 => 0x8329a041 case 11 => 0x87e8adf6
    case 12 => 0x99af8df3 case 13 => 0x9d6e8044 case 14 => 0x902d969d case _ => 0x94ec9b2a
  }

  function Row7(j: Byte): Word {
    match j
    case 0 => 0xe0b30de7 case 1 => 0xe4720050 case 2 => 0xe9311689 case 3 => 0xedf01b3e
    case 4 => 0xf3b73b3b case 5 => 0xf776368c case 6 => 0xfa352055 case 7 => 0xfef42de2
    case 8 => 0xc6bb605f case 9 => 0xc27a6de8 case 10 => 0xcf397b31 case 11 => 0xcbf87686
    case 12 => 0xd5bf5683 case 13 => 0xd17e5b34 case 14 => 0xdc3d4ded case _ => 0xd8fc405a
  }

  function Row8(j: Byte): Word {
    match j
    case 0 => 0x6904c0ee case 1 => 0x6dc5cd59 case 2 => 0x6086db80 case 3 => 0x6447d637
    case 4 => 0x7a00f632 case 5 => 0x7ec1fb85 case 6 => 0x7382ed5c case 7 => 0x7743e0eb
    case 8 => 0x4f0cad56 case 9 => 0x4bcda0e1 case 10 => 0x468eb638 case 11 => 0x424fbb8f
    case 12 => 0x5c089b8a case 13 => 0x58c9963d case 14 => 0x558a80e4 case _ => 0x514b8d53
  }

  function Row9(j: Byte): Word {
    match j
    case 0 => 0x25141b9e case 1 => 0x21d51629 case 2 => 0x2c9600f0 case 3 => 0x28570d47
    case 4 => 0x36102d42 case 5 => 0x32d120f5 case 6 => 0x3f92362c case 7 => 0x3b533b9b
    case 8 => 0x031c7626 case 9 => 0x07dd7b91 case 10 => 0x0a9e6d48 case 11 => 0x0e5f60ff
    case 12 => 0x101840fa case 13 => 0x14d94d4d case 14 => 0x199a5b94 case _ => 0x1d5b5623
  }

  function RowA(j: Byte): Word {
    match j
    case 0 => 0xf125760e case 1 => 0xf5e47bb9 case 2 => 0xf8a76d60 case 3 => 0xfc6660d7
    case 4 => 0xe22140d2 case 5 => 0xe6e04d65 case 6 => 0xeba35bbc case 7 => 0xef62560b
    case 8 => 0xd72d1bb6 case 9 => 0xd3ec1601 case 10 => 0xdeaf00d8 case 11 => 0xda6e0d6f
    case 12 => 0xc4292d6a case 13 => 0xc0e820dd case 14 => 0xcdab3604 case _ => 0xc96a3bb3
  }

  function RowB(j: Byte): Word {
    match j
    case 0 => 0xbd35ad7e case 1 => 0xb9f4a0c9 case 2 => 0xb4b7b610 case 3 => 0xb076bba7
    case 4 => 0xae319ba2 case 5 => 0xaaf09615 case 6 => 0xa7b380cc case 7 => 0xa3728d7b
    case 8 => 0x9b3dc0c6 case 9 => 0x9ffccd71 case 10 => 0x92bfdba8 case 11 => 0x967ed61f
    case 12 => 0x8839f61a case 13 => 0x8cf8fbad case 14 => 0x81bbed74 case _ => 0x857ae0c3
  }

  function RowC(j: Byte): Word {
    match j
    case 0 => 0x5d86a099 case 1 => 0x5947ad2e case 2 => 0x5404bbf7 case 3 => 0x50c5b640
    case 4 => 0x4e829645 case 5 => 0x4a439bf2 case 6 => 0x47008d2b case 7 => 0x43c1809c
    case 8 => 0x7b8ecd21 case 9 => 0x7f4fc096 case 10 => 0x720cd64f case 11 => 0x76cddbf8
    case 12 => 0x688afbfd case 13 => 0x6c4bf64a case 14 => 0x6108e093 case _ => 0x65c9ed24
  }

  function RowD(j: Byte): Word {
    match j
    case 0 => 0x11967be9 case 1 => 0x1557765e case 2 => 0x18146087 case 3 => 0x1cd56d30
    case 4 => 0x02924d35 case 5 => 0x06534082 case 6 => 0x0b10565b case 7 => 0x0fd15bec
    case 8 => 0x379e1651 case 9 => 0x335f1be6 case 10 => 0x3e1c0d3f case 11 => 0x3add0088
    case 12 => 0x249a208d case 13 => 0x205b2d3a case 14 => 0x2d183be3 case _ => 0x29d93654
  }

  function RowE(j: Byte): Word {
    match j
    case 0 => 0xc5a71679 case 1 => 0xc1661bce case 2 => 0xcc250d17 case 3 => 0xc8e400a0
    case 4 => 0xd6a320a5 case 5 => 0xd2622d12 case 6 => 0xdf213bcb case 7 => 0xdbe0367c
    case 8 => 0xe3af7bc1 case 9 => 0xe76e7676 case 10 => 0xea2d60af case 11 => 0xeeec6d18
    case 12 => 0xf0ab4d1d case 13 => 0xf46a40aa case 14 => 0xf9295673 case _ => 0xfde85bc4
  }

  function RowF(j: Byte): Word {
    match j
    case 0 => 0x89b7cd09 case 1 => 0x8d76c0be case 2 => 0x8035d667 case 3 => 0x84f4dbd0
    case 4 => 0x9ab3fbd5 case 5 => 0x9e72f662 case 6 => 0x9331e0bb case 7 => 0x97f0ed0c
    case 8 => 0xafbfa0b1 case 9 => 0xab7ead06 case 10 => 0xa63dbbdf case 11 => 0xa2fcb668
    case 12 => 0xbcbb966d case 13 => 0xb87a9bda case 14 => 0xb5398d03 case _ => 0xb1f880b4
  }

  /** The lookup table, sixteen entries to the row. */
  function Entry(i: Byte): Word {
    var j := i & 0x0f;
    match i >> 4
    case 0 => Row0(j)
    case 1 => Row1(j)
    case 2 => Row2(j)
    case 3 => Row3(j)
    case 4 => Row4(j)
    case 5 => Row5(j)
    case 6 => Row6(j)
    case 7 => Row7(j)
    case 8 => Row8(j)
    case 9 => Row9(j)
    case 10 => RowA(j)
    case 11 => RowB(j)
    case 12 => RowC(j)
    case 13 => RowD(j)
    case 14 => RowE(j)
    case _ => RowF(j)
  }

  // ---------- bit by bit ----------

  function Shift8(r: Word): Word {
    Shift(Shift(Shift(Shift(Shift(Shift(Shift(Shift(r))))))))
  }

  function Top(b: Byte): Word {
    (b as Word) << 24
  }

  /** One byte: it goes in at the top, and eight bits are divided out. */
  function StepByte(crc: Word, b: Byte): Word {
    Shift8(Xor(crc, Top(b)))
  }

  /** The checksum, bit by bit. */
  function Crc(crc: Word, buf: seq<Byte>): Word {
    if buf == [] then crc else StepByte(Crc(crc, buf[..|buf| - 1]), buf[|buf| - 1])
  }

  lemma Shift8Unrolls(r: Word)
    ensures Shift8(r) == Shifts(r, 8)
  {
    assert Shifts(r, 2) == Shift(Shifts(r, 1)) == Shift(Shift(r));
    assert Shifts(r, 4) == Shift(Shifts(r, 3)) == Shift(Shift(Shifts(r, 2)));
    assert Shifts(r, 6) == Shift(Shifts(r, 5)) == Shift(Shift(Shifts(r, 4)));
    assert Shifts(r, 8) == Shift(Shifts(r, 7)) == Shift(Shift(Shifts(r, 6)));
  }

  lemma Shift8Linear(x: Word, y: Word)
    ensures Shift8(Xor(x, y)) == Xor(Shift8(x), Shift8(y))
  {
    Shift8Unrolls(x);
    Shift8Unrolls(y);
    Shift8Unrolls(Xor(x, y));
    ShiftsLinear(x, y, 8);
  }

  /** Without bits at the top nothing is divided out. */
  lemma LowShift(r: Word)
    requires r & 0xff000000 == 0
    ensures Shift8(r) == r << 8
  {
  }

  // ---------- the table ----------

  lemma Row0Exact(j: Byte)
    requires j & 0xf0 == 0
    ensures Row0(j) == Shift8(Top(0x00 | j))
  {
  }

  lemma Row1Exact(j: Byte)
    requires j & 0xf0 == 0
    ensures Row1(j) == Shift8(Top(0x10 | j))
  {
  }

  lemma Row2Exact(j: Byte)
    requires j & 0xf0 == 0
    ensures Row2(j) == Shift8(Top(0x20 | j))
  {
  }

  lemma Row3Exact(j: Byte)
    requires j & 0xf0 == 0
    ensures Row3(j) == Shift8(Top(0x30 | j))
  {
  }

  lemma Row4Exact(j: Byte)
    requires j & 0xf0 == 0
    ensures Row4(j) == Shift8(Top(0x40 | j))
  {
  }

  lemma Row5Exact(j: Byte)
    requires j & 0xf0 == 0
    ensures Row5(j) == Shift8(Top(0x50 | j))
  {
  }

  lemma Row6Exact(j: Byte)
    requires j & 0xf0 == 0
    ensures Row6(j) == Shift8(Top(0x60 | j))
  {
  }

  lemma Row7Exact(j: Byte)
    requires j & 0xf0 == 0
    ensures Row7(j) == Shift8(Top(0x70 | j))
  {
  }

  lemma Row8Exact(j: Byte)
    requires j & 0xf0 == 0
    ensures Row8(j) == Shift8(Top(0x80 | j))
  {
  }

  lemma Row9Exact(j: Byte)
    requires j & 0xf0 == 0
    ensures Row9(j) == Shift8(Top(0x90 | j))
  {
  }

  lemma RowAExact(j: Byte)
    requires j & 0xf0 == 0
    ensures RowA(j) == Shift8(Top(0xA0 | j))
  {
  }

  lemma RowBExact(j: Byte)
    requires j & 0xf0 == 0
    ensures RowB(j) == Shift8(Top(0xB0 | j))
  {
  }

  lemma RowCExact(j: Byte)
    requires j & 0xf0 == 0
    ensures RowC(j) == Shift8(Top(0xC0 | j))
  {
  }

  lemma RowDExact(j: Byte)
    requires j & 0xf0 == 0
    ensures RowD(j) == Shift8(Top(0xD0 | j))
  {
  }

  lemma RowEExact(j: Byte)
    requires j & 0xf0 == 0
    ensures RowE(j) == Shift8(Top(0xE0 | j))
  {
  }

  lemma RowFExact(j: Byte)
    requires j & 0xf0 == 0
    ensures RowF(j) == Shift8(Top(0xF0 | j))
  {
  }

  lemma Entries0(i: Byte)
    requires 0x00 <= i <= 0x3F
    ensures Entry(i) == Shift8(Top(i))
  {
    var j := i & 0x0f;
    if i >> 4 == 0 { Row0Exact(j); }
    if i >> 4 == 1 { Row1Exact(j); }
    if i >> 4 == 2 { Row2Exact(j); }
    if i >> 4 == 3 { Row3Exact(j); }
  }

  lemma Entries4(i: Byte)
    requires 0x40 <= i <= 0x7F
    ensures Entry(i) == Shift8(Top(i))
  {
    var j := i & 0x0f;
    if i >> 4 == 4 { Row4Exact(j); }
    if i >> 4 == 5 { Row5Exact(j); }
    if i >> 4 == 6 { Row6Exact(j); }
    if i >> 4 == 7 { Row7Exact(j); }
  }

  lemma Entries8(i: Byte)
    requires 0x80 <= i <= 0xBF
    ensures Entry(i) == Shift8(Top(i))
  {
    var j := i & 0x0f;
    if i >> 4 == 8 { Row8Exact(j); }
    if i >> 4 == 9 { Row9Exact(j); }
    if i >> 4 == 10 { RowAExact(j); }
    if i >> 4 == 11 { RowBExact(j); }
  }

  lemma EntriesC(i: Byte)
    requires 0xC0 <= i <= 0xFF
    ensures Entry(i) == Shift8(Top(i))
  {
    var j := i & 0x0f;
    if i >> 4 == 12 { RowCExact(j); }
    if i >> 4 == 13 { RowDExact(j); }
    if i >> 4 == 14 { RowEExact(j); }
    if i >> 4 == 15 { RowFExact(j); }
  }

  /** Each entry is what eight steps make of its index. */
  lemma EntryIsShift(i: Byte)
    ensures Entry(i) == Shift8(Top(i))
  {
    if i < 0x40 {
      Entries0(i);
    } else if i < 0x80 {
      Entries4(i);
    } else if i < 0xC0 {
      Entries8(i);
    } else {
      EntriesC(i);
    }
  }

  function High(crc: Word): Byte {
    (crc >> 24) as Byte
  }

  function Low(crc: Word): Word {
    crc & 0x00ffffff
  }

  function XorByte(a: Byte, b: Byte): Byte {
    a ^ b
  }

  lemma Halves(crc: Word, b: Byte)
    ensures Xor(crc, Top(b)) == Xor(Top(XorByte(High(crc), b)), Low(crc))
    ensures Low(crc) & 0xff000000 == 0 && Low(crc) << 8 == crc << 8
  {
  }

  function TableStep(crc: Word, b: Byte): Word {
    Xor(crc << 8, Entry(XorByte(High(crc), b)))
  }

  /** One lookup does what eight bit steps do. */
  lemma TableStepIsStepByte(crc: Word, b: Byte)
    ensures TableStep(crc, b) == StepByte(crc, b)
  {
    var i := XorByte(High(crc), b);
    Halves(crc, b);
    Shift8Linear(Top(i), Low(crc));
    LowShift(Low(crc));
    EntryIsShift(i);
    XorComm(crc << 8, Entry(i));
  }

  /** The loop over the bytes of a buffer. */
  method Rkcrc(crc0: Word, buf: array<Byte>, size: nat) returns (crc: Word)
    requires size <= buf.Length
    ensures crc == Crc(crc0, buf[..size])
  {
    crc := crc0;
    var b := 0;
    while b < size
      invariant b <= size && crc == Crc(crc0, buf[..b])
    {
      assert buf[..b + 1][..b] == buf[..b];
      TableStepIsStepByte(crc, buf[b]);
      crc := TableStep(crc, buf[b]);
      b := b + 1;
    }
  }

  // ---------- what is computed ----------

  /** The remainder of a message, read as a polynomial, by long division: each byte
      multiplies by x^8 and adds the byte. `r` stands for what came before. */
  function Remainder(r: Word, buf: seq<Byte>): Word {
    if buf == [] then r else Xor(Shift8(Remainder(r, buf[..|buf| - 1])), buf[|buf| - 1] as Word)
  }

  /** A byte multiplied by x^32 is the byte at the top multiplied by x^8. */
  lemma ByteUp(b: Byte)
    ensures Shifts(b as Word, 32) == Shift8(Top(b))
  {
    var w := b as Word;
    LowShift(w);
    LowShift(w << 8);
    LowShift(w << 16);
    Shift8Unrolls(w);
    Shift8Unrolls(w << 8);
    Shift8Unrolls(w << 16);
    Shift8Unrolls(Top(b));
    ShiftsAdd(w, 8, 8);
    ShiftsAdd(w, 16, 8);
    ShiftsAdd(w, 24, 8);
  }

  /** The checksum of a message is the remainder of the message times x^32. */
  lemma {:induction false} CrcIsRemainder(r: Word, buf: seq<Byte>)
    ensures Crc(Shifts(r, 32), buf) == Shifts(Remainder(r, buf), 32)
  {
    if buf != [] {
      var n := |buf| - 1;
      CrcIsRemainder(r, buf[..n]);
      StepIsDivision(Remainder(r, buf[..n]), buf[n]);
    }
  }

  lemma ShiftsCommute(r: Word)
    ensures Shift8(Shifts(r, 32)) == Shifts(Shift8(r), 32)
  {
    Shift8Unrolls(r);
    Shift8Unrolls(Shifts(r, 32));
    ShiftsAdd(r, 32, 8);
    ShiftsAdd(r, 8, 32);
  }

  lemma StepIsDivision(r: Word, b: Byte)
    ensures StepByte(Shifts(r, 32), b) == Shifts(Xor(Shift8(r), b as Word), 32)
  {
    Shift8Linear(Shifts(r, 32), Top(b));
    ShiftsCommute(r);
    ByteUp(b);
    ShiftsLinear(Shift8(r), b as Word, 32);
  }

  function Up(c: Word): Word {
    c << 8
  }

  /** The bytes of a checksum, the highest first. */
  function BigEndian(c: Word): seq<Byte> {
    [High(c), High(Up(c)), High(Up(Up(c))), High(Up(Up(Up(c))))]
  }

  lemma ClearTop(c: Word)
    ensures Xor(c, Top(High(c))) & 0xff000000 == 0 && Xor(c, Top(High(c))) << 8 == c << 8
  {
  }

  lemma StepOwnByte(c: Word)
    ensures StepByte(c, High(c)) == Up(c)
  {
    ClearTop(c);
    LowShift(Xor(c, Top(High(c))));
  }

  lemma CrcSnoc(crc: Word, buf: seq<Byte>, b: Byte)
    ensures Crc(crc, buf + [b]) == StepByte(Crc(crc, buf), b)
  {
    assert (buf + [b])[..|buf|] == buf;
  }

  lemma TwoMore(crc: Word, buf: seq<Byte>, b0: Byte, b1: Byte)
    ensures Crc(crc, buf + [b0, b1]) == StepByte(StepByte(Crc(crc, buf), b0), b1)
  {
    CrcSnoc(crc, buf, b0);
    CrcSnoc(crc, buf + [b0], b1);
    assert buf + [b0, b1] == buf + [b0] + [b1];
  }

  lemma FourMore(crc: Word, buf: seq<Byte>, b0: Byte, b1: Byte, b2: Byte, b3: Byte, c: Word)
    requires c == StepByte(StepByte(Crc(crc, buf), b0), b1)
    ensures Crc(crc, buf + [b0, b1, b2, b3]) == StepByte(StepByte(c, b2), b3)
  {
    TwoMore(crc, buf, b0, b1);
    TwoMore(crc, buf + [b0, b1], b2, b3);
    assert buf + [b0, b1, b2, b3] == buf + [b0, b1] + [b2, b3];
  }

  lemma AllOut(c: Word)
    ensures Up(Up(Up(Up(c)))) == 0
  {
  }

  lemma TwoOwnBytes(c: Word)
    ensures StepByte(StepByte(c, High(c)), High(Up(c))) == Up(Up(c))
  {
    StepOwnByte(c);
    StepOwnByte(Up(c));
  }

  /** Appending a message's checksum, highest byte first, leaves the residue 0. */
  lemma ResidueIsZero(crc: Word, buf: seq<Byte>)
    ensures Crc(crc, buf + BigEndian(Crc(crc, buf))) == 0
  {
    var c := Crc(crc, buf);
    var d := Up(Up(c));
    TwoOwnBytes(c);
    TwoOwnBytes(d);
    AllOut(c);
    FourMore(crc, buf, High(c), High(Up(c)), High(d), High(Up(d)), d);
  }

  // ---------- one damaged byte is noticed ----------

  lemma ShiftInjective(x: Word)
    ensures Shift(x) == 0 ==> x == 0
  {
  }

  lemma {:induction false} ShiftsInjective(x: Word, y: Word, n: nat)
    requires Shifts(x, n) == Shifts(y, n)
    ensures x == y
  {
    if n > 0 {
      var u, v := Shifts(x, n - 1), Shifts(y, n - 1);
      ShiftLinear(u, v);
      XorZero(Shift(u), Shift(v));
      ShiftInjective(Xor(u, v));
      XorZero(u, v);
      ShiftsInjective(x, y, n - 1);
    }
  }

  lemma XorSame(x: Word, y: Word, b: Byte)
    ensures Xor(x, Top(b)) == Xor(y, Top(b)) ==> x == y
  {
  }

  lemma TopDiffers(x: Word, b: Byte, b': Byte)
    ensures Xor(x, Top(b)) == Xor(x, Top(b')) ==> b == b'
  {
  }

  lemma StepInjective(x: Word, y: Word, b: Byte, b': Byte)
    requires StepByte(x, b) == StepByte(y, b')
    ensures b == b' ==> x == y
    ensures x == y ==> b == b'
  {
    Shift8Unrolls(Xor(x, Top(b)));
    Shift8Unrolls(Xor(y, Top(b')));
    ShiftsInjective(Xor(x, Top(b)), Xor(y, Top(b')), 8);
    XorSame(x, y, b);
    TopDiffers(x, b, b');
  }

  /** Two messages that differ in one byte have different checksums. */
  lemma {:induction false} OneByteNoticed(crc: Word, a: seq<Byte>, i: nat, b: Byte)
    requires i < |a| && a[i] != b
    ensures Crc(crc, a) != Crc(crc, a[i := b])
  {
    var n := |a| - 1;
    var a' := a[i := b];
    if i == n {
      assert a'[..n] == a[..n];
      if Crc(crc, a) == Crc(crc, a') { StepInjective(Crc(crc, a[..n]), Crc(crc, a'[..n]), a[n], b); }
    } else {
      assert a'[..n] == a[..n][i := b];
      OneByteNoticed(crc, a[..n], i, b);
      if Crc(crc, a) == Crc(crc, a') { StepInjective(Crc(crc, a[..n]), Crc(crc, a'[..n]), a[n], a[n]); }
    }
  }
}
