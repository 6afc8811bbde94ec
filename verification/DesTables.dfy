/** The combined tables des_SPtrans and des_skb, crypt/des_impl.c:19-302, and their entries: a word of des_SPtrans has
the four bits of an output of a standard S-box at four places, a word of des_skb the six bits of its index at
six places. */
module DesTables {
  import D = Des
  import opened DesFips
  import opened StandardBoxes

  /** Eight entries of a table, a line of its text. */
  datatype Line = Line(x0: bv32, x1: bv32, x2: bv32, x3: bv32, x4: bv32, x5: bv32, x6: bv32, x7: bv32) {
    function At(b: nat): bv32
    {
      if b == 0 then x0 else if b == 1 then x1 else if b == 2 then x2 else if b == 3 then x3
      else if b == 4 then x4 else if b == 5 then x5 else if b == 6 then x6 else x7
    }
  }

  // ----- des_SPtrans, line by line -----

  function Sp1(a: nat): Line
  {
    match a
    case 0 => Line(0x00820200, 0x00020000, 0x80800000, 0x80820200, 0x00800000, 0x80020200, 0x80020000, 0x80800000)
    case 1 => Line(0x80020200, 0x00820200, 0x00820000, 0x80000200, 0x80800200, 0x00800000, 0x00000000, 0x80020000)
    case 2 => Line(0x00020000, 0x80000000, 0x00800200, 0x00020200, 0x80820200, 0x00820000, 0x80000200, 0x00800200)
    case 3 => Line(0x80000000, 0x00000200, 0x00020200, 0x80820000, 0x00000200, 0x80800200, 0x80820000, 0x00000000)
    case 4 => Line(0x00000000, 0x80820200, 0x00800200, 0x80020000, 0x00820200, 0x00020000, 0x80000200, 0x00800200)
    case 5 => Line(0x80820000, 0x00000200, 0x00020200, 0x80800000, 0x80020200, 0x80000000, 0x80800000, 0x00820000)
    case 6 => Line(0x80820200, 0x00020200, 0x00820000, 0x80800200, 0x00800000, 0x80000200, 0x80020000, 0x00000000)
    case _ => Line(0x00020000, 0x00800000, 0x80800200, 0x00820200, 0x80000000, 0x80820000, 0x00000200, 0x80020200)
  }

  function Sp2(a: nat): Line
  {
    match a
    case 0 => Line(0x10042004, 0x00000000, 0x00042000, 0x10040000, 0x10000004, 0x00002004, 0x10002000, 0x00042000)
    case 1 => Line(0x00002000, 0x10040004, 0x00000004, 0x10002000, 0x00040004, 0x10042000, 0x10040000, 0x00000004)
    case 2 => Line(0x00040000, 0x10002004, 0x10040004, 0x00002000, 0x00042004, 0x10000000, 0x00000000, 0x00040004)
    case 3 => Line(0x10002004, 0x00042004, 0x10042000, 0x10000004, 0x10000000, 0x00040000, 0x00002004, 0x10042004)
    case 4 => Line(0x00040004, 0x10042000, 0x10002000, 0x00042004, 0x10042004, 0x00040004, 0x10000004, 0x00000000)
    case 5 => Line(0x10000000, 0x00002004, 0x00040000, 0x10040004, 0x00002000, 0x10000000, 0x00042004, 0x10002004)
    case 6 => Line(0x10042000, 0x00002000, 0x00000000, 0x10000004, 0x00000004, 0x10042004, 0x00042000, 0x10040000)
    case _ => Line(0x10040004, 0x00040000, 0x00002004, 0x10002000, 0x10002004, 0x00000004, 0x10040000, 0x00042000)
  }

  function Sp3(a: nat): Line
  {
    match a
    case 0 => Line(0x41000000, 0x01010040, 0x00000040, 0x41000040, 0x40010000, 0x01000000, 0x41000040, 0x00010040)
    case 1 => Line(0x01000040, 0x00010000, 0x01010000, 0x40000000, 0x41010040, 0x40000040, 0x40000000, 0x41010000)
    case 2 => Line(0x00000000, 0x40010000, 0x01010040, 0x00000040, 0x40000040, 0x41010040, 0x00010000, 0x41000000)
    case 3 => Line(0x41010000, 0x01000040, 0x40010040, 0x01010000, 0x00010040, 0x00000000, 0x01000000, 0x40010040)
    case 4 => Line(0x01010040, 0x00000040, 0x40000000, 0x00010000, 0x40000040, 0x40010000, 0x01010000, 0x41000040)
    case 5 => Line(0x00000000, 0x01010040, 0x00010040, 0x41010000, 0x40010000, 0x01000000, 0x41010040, 0x40000000)
    case 6 => Line(0x40010040, 0x41000000, 0x01000000, 0x41010040, 0x00010000, 0x01000040, 0x41000040, 0x00010040)
    case _ => Line(0x01000040, 0x00000000, 0x41010000, 0x40000040, 0x41000000, 0x40010040, 0x00000040, 0x01010000)
  }

  function Sp4(a: nat): Line
  {
    match a
    case 0 => Line(0x00100402, 0x04000400, 0x00000002, 0x04100402, 0x00000000, 0x04100000, 0x04000402, 0x00100002)
    case 1 => Line(0x04100400, 0x04000002, 0x04000000, 0x00000402, 0x04000002, 0x00100402, 0x00100000, 0x04000000)
    case 2 => Line(0x04100002, 0x00100400, 0x00000400, 0x00000002, 0x00100400, 0x04000402, 0x04100000, 0x00000400)
    case 3 => Line(0x00000402, 0x00000000, 0x00100002, 0x04100400, 0x04000400, 0x04100002, 0x04100402, 0x00100000)
    case 4 => Line(0x04100002, 0x00000402, 0x00100000, 0x04000002, 0x00100400, 0x04000400, 0x00000002, 0x04100000)
    case 5 => Line(0x04000402, 0x00000000, 0x00000400, 0x00100002, 0x00000000, 0x04100002, 0x04100400, 0x00000400)
    case 6 => Line(0x04000000, 0x04100402, 0x00100402, 0x00100000, 0x04100402, 0x00000002, 0x04000400, 0x00100402)
    case _ => Line(0x00100002, 0x00100400, 0x04100000, 0x04000402, 0x00000402, 0x04000000, 0x04000002, 0x04100400)
  }

  function Sp5(a: nat): Line
  {
    match a
    case 0 => Line(0x02000000, 0x00004000, 0x00000100, 0x02004108, 0x02004008, 0x02000100, 0x00004108, 0x02004000)
    case 1 => Line(0x00004000, 0x00000008, 0x02000008, 0x00004100, 0x02000108, 0x02004008, 0x02004100, 0x00000000)
    case 2 => Line(0x00004100, 0x02000000, 0x00004008, 0x00000108, 0x02000100, 0x00004108, 0x00000000, 0x02000008)
    case 3 => Line(0x00000008, 0x02000108, 0x02004108, 0x00004008, 0x02004000, 0x00000100, 0x00000108, 0x02004100)
    case 4 => Line(0x02004100, 0x02000108, 0x00004008, 0x02004000, 0x00004000, 0x00000008, 0x02000008, 0x02000100)
    case 5 => Line(0x02000000, 0x00004100, 0x02004108, 0x00000000, 0x00004108, 0x02000000, 0x00000100, 0x00004008)
    case 6 => Line(0x02000108, 0x00000100, 0x00000000, 0x02004108, 0x02004008, 0x02004100, 0x00000108, 0x00004000)
    case _ => Line(0x00004100, 0x02004008, 0x02000100, 0x00000108, 0x00000008, 0x00004108, 0x02004000, 0x02000008)
  }

  function Sp6(a: nat): Line
  {
    match a
    case 0 => Line(0x20000010, 0x00080010, 0x00000000, 0x20080800, 0x00080010, 0x00000800, 0x20000810, 0x00080000)
    case 1 => Line(0x00000810, 0x20080810, 0x00080800, 0x20000000, 0x20000800, 0x20000010, 0x20080000, 0x00080810)
    case 2 => Line(0x00080000, 0x20000810, 0x20080010, 0x00000000, 0x00000800, 0x00000010, 0x20080800, 0x20080010)
    case 3 => Line(0x20080810, 0x20080000, 0x20000000, 0x00000810, 0x00000010, 0x00080800, 0x00080810, 0x20000800)
    case 4 => Line(0x00000810, 0x20000000, 0x20000800, 0x00080810, 0x20080800, 0x00080010, 0x00000000, 0x20000800)
    case 5 => Line(0x20000000, 0x00000800, 0x20080010, 0x00080000, 0x00080010, 0x20080810, 0x00080800, 0x00000010)
    case 6 => Line(0x20080810, 0x00080800, 0x00080000, 0x20000810, 0x20000010, 0x20080000, 0x00080810, 0x00000000)
    case _ => Line(0x00000800, 0x20000010, 0x20000810, 0x20080800, 0x20080000, 0x00000810, 0x00000010, 0x20080010)
  }

  function Sp7(a: nat): Line
  {
    match a
    case 0 => Line(0x00001000, 0x00000080, 0x00400080, 0x00400001, 0x00401081, 0x00001001, 0x00001080, 0x00000000)
    case 1 => Line(0x00400000, 0x00400081, 0x00000081, 0x00401000, 0x00000001, 0x00401080, 0x00401000, 0x00000081)
    case 2 => Line(0x00400081, 0x00001000, 0x00001001, 0x00401081, 0x00000000, 0x00400080, 0x00400001, 0x00001080)
    case 3 => Line(0x00401001, 0x00001081, 0x00401080, 0x00000001, 0x00001081, 0x00401001, 0x00000080, 0x00400000)
    case 4 => Line(0x00001081, 0x00401000, 0x00401001, 0x00000081, 0x00001000, 0x00000080, 0x00400000, 0x00401001)
    case 5 => Line(0x00400081, 0x00001081, 0x00001080, 0x00000000, 0x00000080, 0x00400001, 0x00000001, 0x00400080)
    case 6 => Line(0x00000000, 0x00400081, 0x00400080, 0x00001080, 0x00000081, 0x00001000, 0x00401081, 0x00400000)
    case _ => Line(0x00401080, 0x00000001, 0x00001001, 0x00401081, 0x00400001, 0x00401080, 0x00401000, 0x00001001)
  }

  function Sp8(a: nat): Line
  {
    match a
    case 0 => Line(0x08200020, 0x08208000, 0x00008020, 0x00000000, 0x08008000, 0x00200020, 0x08200000, 0x08208020)
    case 1 => Line(0x00000020, 0x08000000, 0x00208000, 0x00008020, 0x00208020, 0x08008020, 0x08000020, 0x08200000)
    case 2 => Line(0x00008000, 0x00208020, 0x00200020, 0x08008000, 0x08208020, 0x08000020, 0x00000000, 0x00208000)
    case 3 => Line(0x08000000, 0x00200000, 0x08008020, 0x08200020, 0x00200000, 0x00008000, 0x08208000, 0x00000020)
    case 4 => Line(0x00200000, 0x00008000, 0x08000020, 0x08208020, 0x00008020, 0x08000000, 0x00000000, 0x00208000)
    case 5 => Line(0x08200020, 0x08008020, 0x08008000, 0x00200020, 0x08208000, 0x00000020, 0x00200020, 0x08008000)
    case 6 => Line(0x08208020, 0x00200000, 0x08200000, 0x08000020, 0x00208000, 0x00008020, 0x08008020, 0x08200000)
    case _ => Line(0x00000020, 0x08208000, 0x00208020, 0x00000000, 0x08000000, 0x08200020, 0x00008000, 0x00208020)
  }

  // ----- des_skb, line by line -----

  function Skb1(a: nat): Line
  {
    match a
    case 0 => Line(0x00000000, 0x00000010, 0x20000000, 0x20000010, 0x00010000, 0x00010010, 0x20010000, 0x20010010)
    case 1 => Line(0x00000800, 0x00000810, 0x20000800, 0x20000810, 0x00010800, 0x00010810, 0x20010800, 0x20010810)
    case 2 => Line(0x00000020, 0x00000030, 0x20000020, 0x20000030, 0x00010020, 0x00010030, 0x20010020, 0x20010030)
    case 3 => Line(0x00000820, 0x00000830, 0x20000820, 0x20000830, 0x00010820, 0x00010830, 0x20010820, 0x20010830)
    case 4 => Line(0x00080000, 0x00080010, 0x20080000, 0x20080010, 0x00090000, 0x00090010, 0x20090000, 0x20090010)
    case 5 => Line(0x00080800, 0x00080810, 0x20080800, 0x20080810, 0x00090800, 0x00090810, 0x20090800, 0x20090810)
    case 6 => Line(0x00080020, 0x00080030, 0x20080020, 0x20080030, 0x00090020, 0x00090030, 0x20090020, 0x20090030)
    case _ => Line(0x00080820, 0x00080830, 0x20080820, 0x20080830, 0x00090820, 0x00090830, 0x20090820, 0x20090830)
  }

  function Skb2(a: nat): Line
  {
    match a
    case 0 => Line(0x00000000, 0x02000000, 0x00002000, 0x02002000, 0x00200000, 0x02200000, 0x00202000, 0x02202000)
    case 1 => Line(0x00000004, 0x02000004, 0x00002004, 0x02002004, 0x00200004, 0x02200004, 0x00202004, 0x02202004)
    case 2 => Line(0x00000400, 0x02000400, 0x00002400, 0x02002400, 0x00200400, 0x02200400, 0x00202400, 0x02202400)
    case 3 => Line(0x00000404, 0x02000404, 0x00002404, 0x02002404, 0x00200404, 0x02200404, 0x00202404, 0x02202404)
    case 4 => Line(0x10000000, 0x12000000, 0x10002000, 0x12002000, 0x10200000, 0x12200000, 0x10202000, 0x12202000)
    case 5 => Line(0x10000004, 0x12000004, 0x10002004, 0x12002004, 0x10200004, 0x12200004, 0x10202004, 0x12202004)
    case 6 => Line(0x10000400, 0x12000400, 0x10002400, 0x12002400, 0x10200400, 0x12200400, 0x10202400, 0x12202400)
    case _ => Line(0x10000404, 0x12000404, 0x10002404, 0x12002404, 0x10200404, 0x12200404, 0x10202404, 0x12202404)
  }

  function Skb3(a: nat): Line
  {
    match a
    case 0 => Line(0x00000000, 0x00000001, 0x00040000, 0x00040001, 0x01000000, 0x01000001, 0x01040000, 0x01040001)
    case 1 => Line(0x00000002, 0x00000003, 0x00040002, 0x00040003, 0x01000002, 0x01000003, 0x01040002, 0x01040003)
    case 2 => Line(0x00000200, 0x00000201, 0x00040200, 0x00040201, 0x01000200, 0x01000201, 0x01040200, 0x01040201)
    case 3 => Line(0x00000202, 0x00000203, 0x00040202, 0x00040203, 0x01000202, 0x01000203, 0x01040202, 0x01040203)
    case 4 => Line(0x08000000, 0x08000001, 0x08040000, 0x08040001, 0x09000000, 0x09000001, 0x09040000, 0x09040001)
    case 5 => Line(0x08000002, 0x08000003, 0x08040002, 0x08040003, 0x09000002, 0x09000003, 0x09040002, 0x09040003)
    case 6 => Line(0x08000200, 0x08000201, 0x08040200, 0x08040201, 0x09000200, 0x09000201, 0x09040200, 0x09040201)
    case _ => Line(0x08000202, 0x08000203, 0x08040202, 0x08040203, 0x09000202, 0x09000203, 0x09040202, 0x09040203)
  }

  function Skb4(a: nat): Line
  {
    match a
    case 0 => Line(0x00000000, 0x00100000, 0x00000100, 0x00100100, 0x00000008, 0x00100008, 0x00000108, 0x00100108)
    case 1 => Line(0x00001000, 0x00101000, 0x00001100, 0x00101100, 0x00001008, 0x00101008, 0x00001108, 0x00101108)
    case 2 => Line(0x04000000, 0x04100000, 0x04000100, 0x04100100, 0x04000008, 0x04100008, 0x04000108, 0x04100108)
    case 3 => Line(0x04001000, 0x04101000, 0x04001100, 0x04101100, 0x04001008, 0x04101008, 0x04001108, 0x04101108)
    case 4 => Line(0x00020000, 0x00120000, 0x00020100, 0x00120100, 0x00020008, 0x00120008, 0x00020108, 0x00120108)
    case 5 => Line(0x00021000, 0x00121000, 0x00021100, 0x00121100, 0x00021008, 0x00121008, 0x00021108, 0x00121108)
    case 6 => Line(0x04020000, 0x04120000, 0x04020100, 0x04120100, 0x04020008, 0x04120008, 0x04020108, 0x04120108)
    case _ => Line(0x04021000, 0x04121000, 0x04021100, 0x04121100, 0x04021008, 0x04121008, 0x04021108, 0x04121108)
  }

  function Skb5(a: nat): Line
  {
    match a
    case 0 => Line(0x00000000, 0x10000000, 0x00010000, 0x10010000, 0x00000004, 0x10000004, 0x00010004, 0x10010004)
    case 1 => Line(0x20000000, 0x30000000, 0x20010000, 0x30010000, 0x20000004, 0x30000004, 0x20010004, 0x30010004)
    case 2 => Line(0x00100000, 0x10100000, 0x00110000, 0x10110000, 0x00100004, 0x10100004, 0x00110004, 0x10110004)
    case 3 => Line(0x20100000, 0x30100000, 0x20110000, 0x30110000, 0x20100004, 0x30100004, 0x20110004, 0x30110004)
    case 4 => Line(0x00001000, 0x10001000, 0x00011000, 0x10011000, 0x00001004, 0x10001004, 0x00011004, 0x10011004)
    case 5 => Line(0x20001000, 0x30001000, 0x20011000, 0x30011000, 0x20001004, 0x30001004, 0x20011004, 0x30011004)
    case 6 => Line(0x00101000, 0x10101000, 0x00111000, 0x10111000, 0x00101004, 0x10101004, 0x00111004, 0x10111004)
    case _ => Line(0x20101000, 0x30101000, 0x20111000, 0x30111000, 0x20101004, 0x30101004, 0x20111004, 0x30111004)
  }

  function Skb6(a: nat): Line
  {
    match a
    case 0 => Line(0x00000000, 0x08000000, 0x00000008, 0x08000008, 0x00000400, 0x08000400, 0x00000408, 0x08000408)
    case 1 => Line(0x00020000, 0x08020000, 0x00020008, 0x08020008, 0x00020400, 0x08020400, 0x00020408, 0x08020408)
    case 2 => Line(0x00000001, 0x08000001, 0x00000009, 0x08000009, 0x00000401, 0x08000401, 0x00000409, 0x08000409)
    case 3 => Line(0x00020001, 0x08020001, 0x00020009, 0x08020009, 0x00020401, 0x08020401, 0x00020409, 0x08020409)
    case 4 => Line(0x02000000, 0x0a000000, 0x02000008, 0x0a000008, 0x02000400, 0x0a000400, 0x02000408, 0x0a000408)
    case 5 => Line(0x02020000, 0x0a020000, 0x02020008, 0x0a020008, 0x02020400, 0x0a020400, 0x02020408, 0x0a020408)
    case 6 => Line(0x02000001, 0x0a000001, 0x02000009, 0x0a000009, 0x02000401, 0x0a000401, 0x02000409, 0x0a000409)
    case _ => Line(0x02020001, 0x0a020001, 0x02020009, 0x0a020009, 0x02020401, 0x0a020401, 0x02020409, 0x0a020409)
  }

  function Skb7(a: nat): Line
  {
    match a
    case 0 => Line(0x00000000, 0x00000100, 0x00080000, 0x00080100, 0x01000000, 0x01000100, 0x01080000, 0x01080100)
    case 1 => Line(0x00000010, 0x00000110, 0x00080010, 0x00080110, 0x01000010, 0x01000110, 0x01080010, 0x01080110)
    case 2 => Line(0x00200000, 0x00200100, 0x00280000, 0x00280100, 0x01200000, 0x01200100, 0x01280000, 0x01280100)
    case 3 => Line(0x00200010, 0x00200110, 0x00280010, 0x00280110, 0x01200010, 0x01200110, 0x01280010, 0x01280110)
    case 4 => Line(0x00000200, 0x00000300, 0x00080200, 0x00080300, 0x01000200, 0x01000300, 0x01080200, 0x01080300)
    case 5 => Line(0x00000210, 0x00000310, 0x00080210, 0x00080310, 0x01000210, 0x01000310, 0x01080210, 0x01080310)
    case 6 => Line(0x00200200, 0x00200300, 0x00280200, 0x00280300, 0x01200200, 0x01200300, 0x01280200, 0x01280300)
    case _ => Line(0x00200210, 0x00200310, 0x00280210, 0x00280310, 0x01200210, 0x01200310, 0x01280210, 0x01280310)
  }

  function Skb8(a: nat): Line
  {
    match a
    case 0 => Line(0x00000000, 0x04000000, 0x00040000, 0x04040000, 0x00000002, 0x04000002, 0x00040002, 0x04040002)
    case 1 => Line(0x00002000, 0x04002000, 0x00042000, 0x04042000, 0x00002002, 0x04002002, 0x00042002, 0x04042002)
    case 2 => Line(0x00000020, 0x04000020, 0x00040020, 0x04040020, 0x00000022, 0x04000022, 0x00040022, 0x04040022)
    case 3 => Line(0x00002020, 0x04002020, 0x00042020, 0x04042020, 0x00002022, 0x04002022, 0x00042022, 0x04042022)
    case 4 => Line(0x00000800, 0x04000800, 0x00040800, 0x04040800, 0x00000802, 0x04000802, 0x00040802, 0x04040802)
    case 5 => Line(0x00002800, 0x04002800, 0x00042800, 0x04042800, 0x00002802, 0x04002802, 0x00042802, 0x04042802)
    case 6 => Line(0x00000820, 0x04000820, 0x00040820, 0x04040820, 0x00000822, 0x04000822, 0x00040822, 0x04040822)
    case _ => Line(0x00002820, 0x04002820, 0x00042820, 0x04042820, 0x00002822, 0x04002822, 0x00042822, 0x04042822)
  }

  // ----- Words made of single bits -----

  function One(q: nat): bv32
    requires q < 32
  {
    (1 as bv32) << q
  }

  lemma OneBit(q: nat, p: nat)
    requires p < 32 && q < 32
    ensures Bit(One(q), p) == (p == q)
  {
    if q < 4 {} else if q < 8 {} else if q < 12 {} else if q < 16 {}
    else if q < 20 {} else if q < 24 {} else if q < 28 {} else {}
  }

  function Pick(b: bool, q: nat): bv32
    requires q < 32
  {
    if b then One(q) else 0
  }

  lemma PickBit(b: bool, q: nat, p: nat)
    requires p < 32 && q < 32
    ensures Bit(Pick(b, q), p) == (b && p == q)
  {
    OneBit(q, p);
    hide One;
    assert Bit(0, p) == false;
  }

  /** The four bits of an S-box output, each at its place. */
  function Four(y: nat, p0: nat, p1: nat, p2: nat, p3: nat): bv32
    requires p0 < 32 && p1 < 32 && p2 < 32 && p3 < 32
  {
    D.Or(D.Or(D.Or(Pick(y / 8 % 2 == 1, p0), Pick(y / 4 % 2 == 1, p1)), Pick(y / 2 % 2 == 1, p2)), Pick(y % 2 == 1, p3))
  }

  lemma FourBit(y: nat, p0: nat, p1: nat, p2: nat, p3: nat, p: nat)
    requires p0 < 32 && p1 < 32 && p2 < 32 && p3 < 32 && p < 32
    ensures Bit(Four(y, p0, p1, p2, p3), p)
         == ((y / 8 % 2 == 1 && p == p0) || (y / 4 % 2 == 1 && p == p1)
             || (y / 2 % 2 == 1 && p == p2) || (y % 2 == 1 && p == p3))
  {
    hide Bit;
    hide D.Or;
    hide Pick;
    var a, b := Pick(y / 8 % 2 == 1, p0), Pick(y / 4 % 2 == 1, p1);
    var c, d := Pick(y / 2 % 2 == 1, p2), Pick(y % 2 == 1, p3);
    PickBit(y / 8 % 2 == 1, p0, p);
    PickBit(y / 4 % 2 == 1, p1, p);
    PickBit(y / 2 % 2 == 1, p2, p);
    PickBit(y % 2 == 1, p3, p);
    OrBit(a, b, p);
    OrBit(D.Or(a, b), c, p);
    OrBit(D.Or(D.Or(a, b), c), d, p);
  }

  /** The three bits of a digit, each at its place. */
  function Three(y: nat, p0: nat, p1: nat, p2: nat): bv32
    requires p0 < 32 && p1 < 32 && p2 < 32
  {
    D.Or(D.Or(Pick(y % 2 == 1, p0), Pick(y / 2 % 2 == 1, p1)), Pick(y / 4 % 2 == 1, p2))
  }

  lemma ThreeBit(y: nat, p0: nat, p1: nat, p2: nat, p: nat)
    requires p0 < 32 && p1 < 32 && p2 < 32 && p < 32
    ensures Bit(Three(y, p0, p1, p2), p)
         == ((y % 2 == 1 && p == p0) || (y / 2 % 2 == 1 && p == p1) || (y / 4 % 2 == 1 && p == p2))
  {
    hide Bit;
    hide D.Or;
    hide Pick;
    var a, b, c := Pick(y % 2 == 1, p0), Pick(y / 2 % 2 == 1, p1), Pick(y / 4 % 2 == 1, p2);
    PickBit(y % 2 == 1, p0, p);
    PickBit(y / 2 % 2 == 1, p1, p);
    PickBit(y / 4 % 2 == 1, p2, p);
    OrBit(a, b, p);
    OrBit(D.Or(a, b), c, p);
  }

  // ----- Every entry of des_SPtrans -----

  /** Four rows of sixteen numbers. */
  predicate Box(s: seq<seq<nat>>) { |s| == 4 && |s[0]| == |s[1]| == |s[2]| == |s[3]| == 16 }

  /** The eight entries of a line: bit 0 of an index chooses between the rows r and r + 2, bits 1 and 2 add 8 and 4 to
      the column c. */
  predicate LineIs(o: Line, s: seq<seq<nat>>, r: nat, c: nat, p0: nat, p1: nat, p2: nat, p3: nat)
    requires Box(s) && r < 2 && c < 4 && p0 < 32 && p1 < 32 && p2 < 32 && p3 < 32
  {
    && o.x0 == Four(s[r][c], p0, p1, p2, p3) && o.x1 == Four(s[r + 2][c], p0, p1, p2, p3)
    && o.x2 == Four(s[r][c + 8], p0, p1, p2, p3) && o.x3 == Four(s[r + 2][c + 8], p0, p1, p2, p3)
    && o.x4 == Four(s[r][c + 4], p0, p1, p2, p3) && o.x5 == Four(s[r + 2][c + 4], p0, p1, p2, p3)
    && o.x6 == Four(s[r][c + 12], p0, p1, p2, p3) && o.x7 == Four(s[r + 2][c + 12], p0, p1, p2, p3)
  }

  function Out1(y: nat): bv32 { Four(y, 9, 17, 23, 31) }

  lemma Entries1()
    ensures Box(S1)
    ensures Sp1(0).x0 == Out1(S1[0][0]) && Sp1(0).x1 == Out1(S1[2][0]) && Sp1(0).x2 == Out1(S1[0][8])
    ensures Sp1(0).x3 == Out1(S1[2][8]) && Sp1(0).x4 == Out1(S1[0][4]) && Sp1(0).x5 == Out1(S1[2][4])
    ensures Sp1(0).x6 == Out1(S1[0][12]) && Sp1(0).x7 == Out1(S1[2][12])
    ensures Sp1(1).x0 == Out1(S1[0][2]) && Sp1(1).x1 == Out1(S1[2][2]) && Sp1(1).x2 == Out1(S1[0][10])
    ensures Sp1(1).x3 == Out1(S1[2][10]) && Sp1(1).x4 == Out1(S1[0][6]) && Sp1(1).x5 == Out1(S1[2][6])
    ensures Sp1(1).x6 == Out1(S1[0][14]) && Sp1(1).x7 == Out1(S1[2][14])
    ensures Sp1(2).x0 == Out1(S1[0][1]) && Sp1(2).x1 == Out1(S1[2][1]) && Sp1(2).x2 == Out1(S1[0][9])
    ensures Sp1(2).x3 == Out1(S1[2][9]) && Sp1(2).x4 == Out1(S1[0][5]) && Sp1(2).x5 == Out1(S1[2][5])
    ensures Sp1(2).x6 == Out1(S1[0][13]) && Sp1(2).x7 == Out1(S1[2][13])
    ensures Sp1(3).x0 == Out1(S1[0][3]) && Sp1(3).x1 == Out1(S1[2][3]) && Sp1(3).x2 == Out1(S1[0][11])
    ensures Sp1(3).x3 == Out1(S1[2][11]) && Sp1(3).x4 == Out1(S1[0][7]) && Sp1(3).x5 == Out1(S1[2][7])
    ensures Sp1(3).x6 == Out1(S1[0][15]) && Sp1(3).x7 == Out1(S1[2][15])
    ensures Sp1(4).x0 == Out1(S1[1][0]) && Sp1(4).x1 == Out1(S1[3][0]) && Sp1(4).x2 == Out1(S1[1][8])
    ensures Sp1(4).x3 == Out1(S1[3][8]) && Sp1(4).x4 == Out1(S1[1][4]) && Sp1(4).x5 == Out1(S1[3][4])
    ensures Sp1(4).x6 == Out1(S1[1][12]) && Sp1(4).x7 == Out1(S1[3][12])
    ensures Sp1(5).x0 == Out1(S1[1][2]) && Sp1(5).x1 == Out1(S1[3][2]) && Sp1(5).x2 == Out1(S1[1][10])
    ensures Sp1(5).x3 == Out1(S1[3][10]) && Sp1(5).x4 == Out1(S1[1][6]) && Sp1(5).x5 == Out1(S1[3][6])
    ensures Sp1(5).x6 == Out1(S1[1][14]) && Sp1(5).x7 == Out1(S1[3][14])
    ensures Sp1(6).x0 == Out1(S1[1][1]) && Sp1(6).x1 == Out1(S1[3][1]) && Sp1(6).x2 == Out1(S1[1][9])
    ensures Sp1(6).x3 == Out1(S1[3][9]) && Sp1(6).x4 == Out1(S1[1][5]) && Sp1(6).x5 == Out1(S1[3][5])
    ensures Sp1(6).x6 == Out1(S1[1][13]) && Sp1(6).x7 == Out1(S1[3][13])
    ensures Sp1(7).x0 == Out1(S1[1][3]) && Sp1(7).x1 == Out1(S1[3][3]) && Sp1(7).x2 == Out1(S1[1][11])
    ensures Sp1(7).x3 == Out1(S1[3][11]) && Sp1(7).x4 == Out1(S1[1][7]) && Sp1(7).x5 == Out1(S1[3][7])
    ensures Sp1(7).x6 == Out1(S1[1][15]) && Sp1(7).x7 == Out1(S1[3][15])
  {
  }

  lemma LowLines1()
    ensures Box(S1)
    ensures LineIs(Sp1(0), S1, 0, 0, 9, 17, 23, 31)
    ensures LineIs(Sp1(1), S1, 0, 2, 9, 17, 23, 31)
    ensures LineIs(Sp1(2), S1, 0, 1, 9, 17, 23, 31)
    ensures LineIs(Sp1(3), S1, 0, 3, 9, 17, 23, 31)
  {
    Entries1();
    hide S1;
    hide Sp1;
    hide Four;
  }

  lemma HighLines1()
    ensures Box(S1)
    ensures LineIs(Sp1(4), S1, 1, 0, 9, 17, 23, 31)
    ensures LineIs(Sp1(5), S1, 1, 2, 9, 17, 23, 31)
    ensures LineIs(Sp1(6), S1, 1, 1, 9, 17, 23, 31)
    ensures LineIs(Sp1(7), S1, 1, 3, 9, 17, 23, 31)
  {
    Entries1();
    hide S1;
    hide Sp1;
    hide Four;
  }

  function Out2(y: nat): bv32 { Four(y, 13, 28, 2, 18) }

  lemma Entries2()
    ensures Box(S2)
    ensures Sp2(0).x0 == Out2(S2[0][0]) && Sp2(0).x1 == Out2(S2[2][0]) && Sp2(0).x2 == Out2(S2[0][8])
    ensures Sp2(0).x3 == Out2(S2[2][8]) && Sp2(0).x4 == Out2(S2[0][4]) && Sp2(0).x5 == Out2(S2[2][4])
    ensures Sp2(0).x6 == Out2(S2[0][12]) && Sp2(0).x7 == Out2(S2[2][12])
    ensures Sp2(1).x0 == Out2(S2[0][2]) && Sp2(1).x1 == Out2(S2[2][2]) && Sp2(1).x2 == Out2(S2[0][10])
    ensures Sp2(1).x3 == Out2(S2[2][10]) && Sp2(1).x4 == Out2(S2[0][6]) && Sp2(1).x5 == Out2(S2[2][6])
    ensures Sp2(1).x6 == Out2(S2[0][14]) && Sp2(1).x7 == Out2(S2[2][14])
    ensures Sp2(2).x0 == Out2(S2[0][1]) && Sp2(2).x1 == Out2(S2[2][1]) && Sp2(2).x2 == Out2(S2[0][9])
    ensures Sp2(2).x3 == Out2(S2[2][9]) && Sp2(2).x4 == Out2(S2[0][5]) && Sp2(2).x5 == Out2(S2[2][5])
    ensures Sp2(2).x6 == Out2(S2[0][13]) && Sp2(2).x7 == Out2(S2[2][13])
    ensures Sp2(3).x0 == Out2(S2[0][3]) && Sp2(3).x1 == Out2(S2[2][3]) && Sp2(3).x2 == Out2(S2[0][11])
    ensures Sp2(3).x3 == Out2(S2[2][11]) && Sp2(3).x4 == Out2(S2[0][7]) && Sp2(3).x5 == Out2(S2[2][7])
    ensures Sp2(3).x6 == Out2(S2[0][15]) && Sp2(3).x7 == Out2(S2[2][15])
    ensures Sp2(4).x0 == Out2(S2[1][0]) && Sp2(4).x1 == Out2(S2[3][0]) && Sp2(4).x2 == Out2(S2[1][8])
    ensures Sp2(4).x3 == Out2(S2[3][8]) && Sp2(4).x4 == Out2(S2[1][4]) && Sp2(4).x5 == Out2(S2[3][4])
    ensures Sp2(4).x6 == Out2(S2[1][12]) && Sp2(4).x7 == Out2(S2[3][12])
    ensures Sp2(5).x0 == Out2(S2[1][2]) && Sp2(5).x1 == Out2(S2[3][2]) && Sp2(5).x2 == Out2(S2[1][10])
    ensures Sp2(5).x3 == Out2(S2[3][10]) && Sp2(5).x4 == Out2(S2[1][6]) && Sp2(5).x5 == Out2(S2[3][6])
    ensures Sp2(5).x6 == Out2(S2[1][14]) && Sp2(5).x7 == Out2(S2[3][14])
    ensures Sp2(6).x0 == Out2(S2[1][1]) && Sp2(6).x1 == Out2(S2[3][1]) && Sp2(6).x2 == Out2(S2[1][9])
    ensures Sp2(6).x3 == Out2(S2[3][9]) && Sp2(6).x4 == Out2(S2[1][5]) && Sp2(6).x5 == Out2(S2[3][5])
    ensures Sp2(6).x6 == Out2(S2[1][13]) && Sp2(6).x7 == Out2(S2[3][13])
    ensures Sp2(7).x0 == Out2(S2[1][3]) && Sp2(7).x1 == Out2(S2[3][3]) && Sp2(7).x2 == Out2(S2[1][11])
    ensures Sp2(7).x3 == Out2(S2[3][11]) && Sp2(7).x4 == Out2(S2[1][7]) && Sp2(7).x5 == Out2(S2[3][7])
    ensures Sp2(7).x6 == Out2(S2[1][15]) && Sp2(7).x7 == Out2(S2[3][15])
  {
  }

  lemma LowLines2()
    ensures Box(S2)
    ensures LineIs(Sp2(0), S2, 0, 0, 13, 28, 2, 18)
    ensures LineIs(Sp2(1), S2, 0, 2, 13, 28, 2, 18)
    ensures LineIs(Sp2(2), S2, 0, 1, 13, 28, 2, 18)
    ensures LineIs(Sp2(3), S2, 0, 3, 13, 28, 2, 18)
  {
    Entries2();
    hide S2;
    hide Sp2;
    hide Four;
  }

  lemma HighLines2()
    ensures Box(S2)
    ensures LineIs(Sp2(4), S2, 1, 0, 13, 28, 2, 18)
    ensures LineIs(Sp2(5), S2, 1, 2, 13, 28, 2, 18)
    ensures LineIs(Sp2(6), S2, 1, 1, 13, 28, 2, 18)
    ensures LineIs(Sp2(7), S2, 1, 3, 13, 28, 2, 18)
  {
    Entries2();
    hide S2;
    hide Sp2;
    hide Four;
  }

  function Out3(y: nat): bv32 { Four(y, 24, 16, 30, 6) }

  lemma Entries3()
    ensures Box(S3)
    ensures Sp3(0).x0 == Out3(S3[0][0]) && Sp3(0).x1 == Out3(S3[2][0]) && Sp3(0).x2 == Out3(S3[0][8])
    ensures Sp3(0).x3 == Out3(S3[2][8]) && Sp3(0).x4 == Out3(S3[0][4]) && Sp3(0).x5 == Out3(S3[2][4])
    ensures Sp3(0).x6 == Out3(S3[0][12]) && Sp3(0).x7 == Out3(S3[2][12])
    ensures Sp3(1).x0 == Out3(S3[0][2]) && Sp3(1).x1 == Out3(S3[2][2]) && Sp3(1).x2 == Out3(S3[0][10])
    ensures Sp3(1).x3 == Out3(S3[2][10]) && Sp3(1).x4 == Out3(S3[0][6]) && Sp3(1).x5 == Out3(S3[2][6])
    ensures Sp3(1).x6 == Out3(S3[0][14]) && Sp3(1).x7 == Out3(S3[2][14])
    ensures Sp3(2).x0 == Out3(S3[0][1]) && Sp3(2).x1 == Out3(S3[2][1]) && Sp3(2).x2 == Out3(S3[0][9])
    ensures Sp3(2).x3 == Out3(S3[2][9]) && Sp3(2).x4 == Out3(S3[0][5]) && Sp3(2).x5 == Out3(S3[2][5])
    ensures Sp3(2).x6 == Out3(S3[0][13]) && Sp3(2).x7 == Out3(S3[2][13])
    ensures Sp3(3).x0 == Out3(S3[0][3]) && Sp3(3).x1 == Out3(S3[2][3]) && Sp3(3).x2 == Out3(S3[0][11])
    ensures Sp3(3).x3 == Out3(S3[2][11]) && Sp3(3).x4 == Out3(S3[0][7]) && Sp3(3).x5 == Out3(S3[2][7])
    ensures Sp3(3).x6 == Out3(S3[0][15]) && Sp3(3).x7 == Out3(S3[2][15])
    ensures Sp3(4).x0 == Out3(S3[1][0]) && Sp3(4).x1 == Out3(S3[3][0]) && Sp3(4).x2 == Out3(S3[1][8])
    ensures Sp3(4).x3 == Out3(S3[3][8]) && Sp3(4).x4 == Out3(S3[1][4]) && Sp3(4).x5 == Out3(S3[3][4])
    ensures Sp3(4).x6 == Out3(S3[1][12]) && Sp3(4).x7 == Out3(S3[3][12])
    ensures Sp3(5).x0 == Out3(S3[1][2]) && Sp3(5).x1 == Out3(S3[3][2]) && Sp3(5).x2 == Out3(S3[1][10])
    ensures Sp3(5).x3 == Out3(S3[3][10]) && Sp3(5).x4 == Out3(S3[1][6]) && Sp3(5).x5 == Out3(S3[3][6])
    ensures Sp3(5).x6 == Out3(S3[1][14]) && Sp3(5).x7 == Out3(S3[3][14])
    ensures Sp3(6).x0 == Out3(S3[1][1]) && Sp3(6).x1 == Out3(S3[3][1]) && Sp3(6).x2 == Out3(S3[1][9])
    ensures Sp3(6).x3 == Out3(S3[3][9]) && Sp3(6).x4 == Out3(S3[1][5]) && Sp3(6).x5 == Out3(S3[3][5])
    ensures Sp3(6).x6 == Out3(S3[1][13]) && Sp3(6).x7 == Out3(S3[3][13])
    ensures Sp3(7).x0 == Out3(S3[1][3]) && Sp3(7).x1 == Out3(S3[3][3]) && Sp3(7).x2 == Out3(S3[1][11])
    ensures Sp3(7).x3 == Out3(S3[3][11]) && Sp3(7).x4 == Out3(S3[1][7]) && Sp3(7).x5 == Out3(S3[3][7])
    ensures Sp3(7).x6 == Out3(S3[1][15]) && Sp3(7).x7 == Out3(S3[3][15])
  {
  }

  lemma LowLines3()
    ensures Box(S3)
    ensures LineIs(Sp3(0), S3, 0, 0, 24, 16, 30, 6)
    ensures LineIs(Sp3(1), S3, 0, 2, 24, 16, 30, 6)
    ensures LineIs(Sp3(2), S3, 0, 1, 24, 16, 30, 6)
    ensures LineIs(Sp3(3), S3, 0, 3, 24, 16, 30, 6)
  {
    Entries3();
    hide S3;
    hide Sp3;
    hide Four;
  }

  lemma HighLines3()
    ensures Box(S3)
    ensures LineIs(Sp3(4), S3, 1, 0, 24, 16, 30, 6)
    ensures LineIs(Sp3(5), S3, 1, 2, 24, 16, 30, 6)
    ensures LineIs(Sp3(6), S3, 1, 1, 24, 16, 30, 6)
    ensures LineIs(Sp3(7), S3, 1, 3, 24, 16, 30, 6)
  {
    Entries3();
    hide S3;
    hide Sp3;
    hide Four;
  }

  function Out4(y: nat): bv32 { Four(y, 26, 20, 10, 1) }

  lemma Entries4()
    ensures Box(S4)
    ensures Sp4(0).x0 == Out4(S4[0][0]) && Sp4(0).x1 == Out4(S4[2][0]) && Sp4(0).x2 == Out4(S4[0][8])
    ensures Sp4(0).x3 == Out4(S4[2][8]) && Sp4(0).x4 == Out4(S4[0][4]) && Sp4(0).x5 == Out4(S4[2][4])
    ensures Sp4(0).x6 == Out4(S4[0][12]) && Sp4(0).x7 == Out4(S4[2][12])
    ensures Sp4(1).x0 == Out4(S4[0][2]) && Sp4(1).x1 == Out4(S4[2][2]) && Sp4(1).x2 == Out4(S4[0][10])
    ensures Sp4(1).x3 == Out4(S4[2][10]) && Sp4(1).x4 == Out4(S4[0][6]) && Sp4(1).x5 == Out4(S4[2][6])
    ensures Sp4(1).x6 == Out4(S4[0][14]) && Sp4(1).x7 == Out4(S4[2][14])
    ensures Sp4(2).x0 == Out4(S4[0][1]) && Sp4(2).x1 == Out4(S4[2][1]) && Sp4(2).x2 == Out4(S4[0][9])
    ensures Sp4(2).x3 == Out4(S4[2][9]) && Sp4(2).x4 == Out4(S4[0][5]) && Sp4(2).x5 == Out4(S4[2][5])
    ensures Sp4(2).x6 == Out4(S4[0][13]) && Sp4(2).x7 == Out4(S4[2][13])
    ensures Sp4(3).x0 == Out4(S4[0][3]) && Sp4(3).x1 == Out4(S4[2][3]) && Sp4(3).x2 == Out4(S4[0][11])
    ensures Sp4(3).x3 == Out4(S4[2][11]) && Sp4(3).x4 == Out4(S4[0][7]) && Sp4(3).x5 == Out4(S4[2][7])
    ensures Sp4(3).x6 == Out4(S4[0][15]) && Sp4(3).x7 == Out4(S4[2][15])
    ensures Sp4(4).x0 == Out4(S4[1][0]) && Sp4(4).x1 == Out4(S4[3][0]) && Sp4(4).x2 == Out4(S4[1][8])
    ensures Sp4(4).x3 == Out4(S4[3][8]) && Sp4(4).x4 == Out4(S4[1][4]) && Sp4(4).x5 == Out4(S4[3][4])
    ensures Sp4(4).x6 == Out4(S4[1][12]) && Sp4(4).x7 == Out4(S4[3][12])
    ensures Sp4(5).x0 == Out4(S4[1][2]) && Sp4(5).x1 == Out4(S4[3][2]) && Sp4(5).x2 == Out4(S4[1][10])
    ensures Sp4(5).x3 == Out4(S4[3][10]) && Sp4(5).x4 == Out4(S4[1][6]) && Sp4(5).x5 == Out4(S4[3][6])
    ensures Sp4(5).x6 == Out4(S4[1][14]) && Sp4(5).x7 == Out4(S4[3][14])
    ensures Sp4(6).x0 == Out4(S4[1][1]) && Sp4(6).x1 == Out4(S4[3][1]) && Sp4(6).x2 == Out4(S4[1][9])
    ensures Sp4(6).x3 == Out4(S4[3][9]) && Sp4(6).x4 == Out4(S4[1][5]) && Sp4(6).x5 == Out4(S4[3][5])
    ensures Sp4(6).x6 == Out4(S4[1][13]) && Sp4(6).x7 == Out4(S4[3][13])
    ensures Sp4(7).x0 == Out4(S4[1][3]) && Sp4(7).x1 == Out4(S4[3][3]) && Sp4(7).x2 == Out4(S4[1][11])
    ensures Sp4(7).x3 == Out4(S4[3][11]) && Sp4(7).x4 == Out4(S4[1][7]) && Sp4(7).x5 == Out4(S4[3][7])
    ensures Sp4(7).x6 == Out4(S4[1][15]) && Sp4(7).x7 == Out4(S4[3][15])
  {
  }

  lemma LowLines4()
    ensures Box(S4)
    ensures LineIs(Sp4(0), S4, 0, 0, 26, 20, 10, 1)
    ensures LineIs(Sp4(1), S4, 0, 2, 26, 20, 10, 1)
    ensures LineIs(Sp4(2), S4, 0, 1, 26, 20, 10, 1)
    ensures LineIs(Sp4(3), S4, 0, 3, 26, 20, 10, 1)
  {
    Entries4();
    hide S4;
    hide Sp4;
    hide Four;
  }

  lemma HighLines4()
    ensures Box(S4)
    ensures LineIs(Sp4(4), S4, 1, 0, 26, 20, 10, 1)
    ensures LineIs(Sp4(5), S4, 1, 2, 26, 20, 10, 1)
    ensures LineIs(Sp4(6), S4, 1, 1, 26, 20, 10, 1)
    ensures LineIs(Sp4(7), S4, 1, 3, 26, 20, 10, 1)
  {
    Entries4();
    hide S4;
    hide Sp4;
    hide Four;
  }

  function Out5(y: nat): bv32 { Four(y, 8, 14, 25, 3) }

  lemma Entries5()
    ensures Box(S5)
    ensures Sp5(0).x0 == Out5(S5[0][0]) && Sp5(0).x1 == Out5(S5[2][0]) && Sp5(0).x2 == Out5(S5[0][8])
    ensures Sp5(0).x3 == Out5(S5[2][8]) && Sp5(0).x4 == Out5(S5[0][4]) && Sp5(0).x5 == Out5(S5[2][4])
    ensures Sp5(0).x6 == Out5(S5[0][12]) && Sp5(0).x7 == Out5(S5[2][12])
    ensures Sp5(1).x0 == Out5(S5[0][2]) && Sp5(1).x1 == Out5(S5[2][2]) && Sp5(1).x2 == Out5(S5[0][10])
    ensures Sp5(1).x3 == Out5(S5[2][10]) && Sp5(1).x4 == Out5(S5[0][6]) && Sp5(1).x5 == Out5(S5[2][6])
    ensures Sp5(1).x6 == Out5(S5[0][14]) && Sp5(1).x7 == Out5(S5[2][14])
    ensures Sp5(2).x0 == Out5(S5[0][1]) && Sp5(2).x1 == Out5(S5[2][1]) && Sp5(2).x2 == Out5(S5[0][9])
    ensures Sp5(2).x3 == Out5(S5[2][9]) && Sp5(2).x4 == Out5(S5[0][5]) && Sp5(2).x5 == Out5(S5[2][5])
    ensures Sp5(2).x6 == Out5(S5[0][13]) && Sp5(2).x7 == Out5(S5[2][13])
    ensures Sp5(3).x0 == Out5(S5[0][3]) && Sp5(3).x1 == Out5(S5[2][3]) && Sp5(3).x2 == Out5(S5[0][11])
    ensures Sp5(3).x3 == Out5(S5[2][11]) && Sp5(3).x4 == Out5(S5[0][7]) && Sp5(3).x5 == Out5(S5[2][7])
    ensures Sp5(3).x6 == Out5(S5[0][15]) && Sp5(3).x7 == Out5(S5[2][15])
    ensures Sp5(4).x0 == Out5(S5[1][0]) && Sp5(4).x1 == Out5(S5[3][0]) && Sp5(4).x2 == Out5(S5[1][8])
    ensures Sp5(4).x3 == Out5(S5[3][8]) && Sp5(4).x4 == Out5(S5[1][4]) && Sp5(4).x5 == Out5(S5[3][4])
    ensures Sp5(4).x6 == Out5(S5[1][12]) && Sp5(4).x7 == Out5(S5[3][12])
    ensures Sp5(5).x0 == Out5(S5[1][2]) && Sp5(5).x1 == Out5(S5[3][2]) && Sp5(5).x2 == Out5(S5[1][10])
    ensures Sp5(5).x3 == Out5(S5[3][10]) && Sp5(5).x4 == Out5(S5[1][6]) && Sp5(5).x5 == Out5(S5[3][6])
    ensures Sp5(5).x6 == Out5(S5[1][14]) && Sp5(5).x7 == Out5(S5[3][14])
    ensures Sp5(6).x0 == Out5(S5[1][1]) && Sp5(6).x1 == Out5(S5[3][1]) && Sp5(6).x2 == Out5(S5[1][9])
    ensures Sp5(6).x3 == Out5(S5[3][9]) && Sp5(6).x4 == Out5(S5[1][5]) && Sp5(6).x5 == Out5(S5[3][5])
    ensures Sp5(6).x6 == Out5(S5[1][13]) && Sp5(6).x7 == Out5(S5[3][13])
    ensures Sp5(7).x0 == Out5(S5[1][3]) && Sp5(7).x1 == Out5(S5[3][3]) && Sp5(7).x2 == Out5(S5[1][11])
    ensures Sp5(7).x3 == Out5(S5[3][11]) && Sp5(7).x4 == Out5(S5[1][7]) && Sp5(7).x5 == Out5(S5[3][7])
    ensures Sp5(7).x6 == Out5(S5[1][15]) && Sp5(7).x7 == Out5(S5[3][15])
  {
  }

  lemma LowLines5()
    ensures Box(S5)
    ensures LineIs(Sp5(0), S5, 0, 0, 8, 14, 25, 3)
    ensures LineIs(Sp5(1), S5, 0, 2, 8, 14, 25, 3)
    ensures LineIs(Sp5(2), S5, 0, 1, 8, 14, 25, 3)
    ensures LineIs(Sp5(3), S5, 0, 3, 8, 14, 25, 3)
  {
    Entries5();
    hide S5;
    hide Sp5;
    hide Four;
  }

  lemma HighLines5()
    ensures Box(S5)
    ensures LineIs(Sp5(4), S5, 1, 0, 8, 14, 25, 3)
    ensures LineIs(Sp5(5), S5, 1, 2, 8, 14, 25, 3)
    ensures LineIs(Sp5(6), S5, 1, 1, 8, 14, 25, 3)
    ensures LineIs(Sp5(7), S5, 1, 3, 8, 14, 25, 3)
  {
    Entries5();
    hide S5;
    hide Sp5;
    hide Four;
  }

  function Out6(y: nat): bv32 { Four(y, 4, 29, 11, 19) }

  lemma Entries6()
    ensures Box(S6)
    ensures Sp6(0).x0 == Out6(S6[0][0]) && Sp6(0).x1 == Out6(S6[2][0]) && Sp6(0).x2 == Out6(S6[0][8])
    ensures Sp6(0).x3 == Out6(S6[2][8]) && Sp6(0).x4 == Out6(S6[0][4]) && Sp6(0).x5 == Out6(S6[2][4])
    ensures Sp6(0).x6 == Out6(S6[0][12]) && Sp6(0).x7 == Out6(S6[2][12])
    ensures Sp6(1).x0 == Out6(S6[0][2]) && Sp6(1).x1 == Out6(S6[2][2]) && Sp6(1).x2 == Out6(S6[0][10])
    ensures Sp6(1).x3 == Out6(S6[2][10]) && Sp6(1).x4 == Out6(S6[0][6]) && Sp6(1).x5 == Out6(S6[2][6])
    ensures Sp6(1).x6 == Out6(S6[0][14]) && Sp6(1).x7 == Out6(S6[2][14])
    ensures Sp6(2).x0 == Out6(S6[0][1]) && Sp6(2).x1 == Out6(S6[2][1]) && Sp6(2).x2 == Out6(S6[0][9])
    ensures Sp6(2).x3 == Out6(S6[2][9]) && Sp6(2).x4 == Out6(S6[0][5]) && Sp6(2).x5 == Out6(S6[2][5])
    ensures Sp6(2).x6 == Out6(S6[0][13]) && Sp6(2).x7 == Out6(S6[2][13])
    ensures Sp6(3).x0 == Out6(S6[0][3]) && Sp6(3).x1 == Out6(S6[2][3]) && Sp6(3).x2 == Out6(S6[0][11])
    ensures Sp6(3).x3 == Out6(S6[2][11]) && Sp6(3).x4 == Out6(S6[0][7]) && Sp6(3).x5 == Out6(S6[2][7])
    ensures Sp6(3).x6 == Out6(S6[0][15]) && Sp6(3).x7 == Out6(S6[2][15])
    ensures Sp6(4).x0 == Out6(S6[1][0]) && Sp6(4).x1 == Out6(S6[3][0]) && Sp6(4).x2 == Out6(S6[1][8])
    ensures Sp6(4).x3 == Out6(S6[3][8]) && Sp6(4).x4 == Out6(S6[1][4]) && Sp6(4).x5 == Out6(S6[3][4])
    ensures Sp6(4).x6 == Out6(S6[1][12]) && Sp6(4).x7 == Out6(S6[3][12])
    ensures Sp6(5).x0 == Out6(S6[1][2]) && Sp6(5).x1 == Out6(S6[3][2]) && Sp6(5).x2 == Out6(S6[1][10])
    ensures Sp6(5).x3 == Out6(S6[3][10]) && Sp6(5).x4 == Out6(S6[1][6]) && Sp6(5).x5 == Out6(S6[3][6])
    ensures Sp6(5).x6 == Out6(S6[1][14]) && Sp6(5).x7 == Out6(S6[3][14])
    ensures Sp6(6).x0 == Out6(S6[1][1]) && Sp6(6).x1 == Out6(S6[3][1]) && Sp6(6).x2 == Out6(S6[1][9])
    ensures Sp6(6).x3 == Out6(S6[3][9]) && Sp6(6).x4 == Out6(S6[1][5]) && Sp6(6).x5 == Out6(S6[3][5])
    ensures Sp6(6).x6 == Out6(S6[1][13]) && Sp6(6).x7 == Out6(S6[3][13])
    ensures Sp6(7).x0 == Out6(S6[1][3]) && Sp6(7).x1 == Out6(S6[3][3]) && Sp6(7).x2 == Out6(S6[1][11])
    ensures Sp6(7).x3 == Out6(S6[3][11]) && Sp6(7).x4 == Out6(S6[1][7]) && Sp6(7).x5 == Out6(S6[3][7])
    ensures Sp6(7).x6 == Out6(S6[1][15]) && Sp6(7).x7 == Out6(S6[3][15])
  {
  }

  lemma LowLines6()
    ensures Box(S6)
    ensures LineIs(Sp6(0), S6, 0, 0, 4, 29, 11, 19)
    ensures LineIs(Sp6(1), S6, 0, 2, 4, 29, 11, 19)
    ensures LineIs(Sp6(2), S6, 0, 1, 4, 29, 11, 19)
    ensures LineIs(Sp6(3), S6, 0, 3, 4, 29, 11, 19)
  {
    Entries6();
    hide S6;
    hide Sp6;
    hide Four;
  }

  lemma HighLines6()
    ensures Box(S6)
    ensures LineIs(Sp6(4), S6, 1, 0, 4, 29, 11, 19)
    ensures LineIs(Sp6(5), S6, 1, 2, 4, 29, 11, 19)
    ensures LineIs(Sp6(6), S6, 1, 1, 4, 29, 11, 19)
    ensures LineIs(Sp6(7), S6, 1, 3, 4, 29, 11, 19)
  {
    Entries6();
    hide S6;
    hide Sp6;
    hide Four;
  }

  function Out7(y: nat): bv32 { Four(y, 0, 12, 22, 7) }

  lemma Entries7()
    ensures Box(S7)
    ensures Sp7(0).x0 == Out7(S7[0][0]) && Sp7(0).x1 == Out7(S7[2][0]) && Sp7(0).x2 == Out7(S7[0][8])
    ensures Sp7(0).x3 == Out7(S7[2][8]) && Sp7(0).x4 == Out7(S7[0][4]) && Sp7(0).x5 == Out7(S7[2][4])
    ensures Sp7(0).x6 == Out7(S7[0][12]) && Sp7(0).x7 == Out7(S7[2][12])
    ensures Sp7(1).x0 == Out7(S7[0][2]) && Sp7(1).x1 == Out7(S7[2][2]) && Sp7(1).x2 == Out7(S7[0][10])
    ensures Sp7(1).x3 == Out7(S7[2][10]) && Sp7(1).x4 == Out7(S7[0][6]) && Sp7(1).x5 == Out7(S7[2][6])
    ensures Sp7(1).x6 == Out7(S7[0][14]) && Sp7(1).x7 == Out7(S7[2][14])
    ensures Sp7(2).x0 == Out7(S7[0][1]) && Sp7(2).x1 == Out7(S7[2][1]) && Sp7(2).x2 == Out7(S7[0][9])
    ensures Sp7(2).x3 == Out7(S7[2][9]) && Sp7(2).x4 == Out7(S7[0][5]) && Sp7(2).x5 == Out7(S7[2][5])
    ensures Sp7(2).x6 == Out7(S7[0][13]) && Sp7(2).x7 == Out7(S7[2][13])
    ensures Sp7(3).x0 == Out7(S7[0][3]) && Sp7(3).x1 == Out7(S7[2][3]) && Sp7(3).x2 == Out7(S7[0][11])
    ensures Sp7(3).x3 == Out7(S7[2][11]) && Sp7(3).x4 == Out7(S7[0][7]) && Sp7(3).x5 == Out7(S7[2][7])
    ensures Sp7(3).x6 == Out7(S7[0][15]) && Sp7(3).x7 == Out7(S7[2][15])
    ensures Sp7(4).x0 == Out7(S7[1][0]) && Sp7(4).x1 == Out7(S7[3][0]) && Sp7(4).x2 == Out7(S7[1][8])
    ensures Sp7(4).x3 == Out7(S7[3][8]) && Sp7(4).x4 == Out7(S7[1][4]) && Sp7(4).x5 == Out7(S7[3][4])
    ensures Sp7(4).x6 == Out7(S7[1][12]) && Sp7(4).x7 == Out7(S7[3][12])
    ensures Sp7(5).x0 == Out7(S7[1][2]) && Sp7(5).x1 == Out7(S7[3][2]) && Sp7(5).x2 == Out7(S7[1][10])
    ensures Sp7(5).x3 == Out7(S7[3][10]) && Sp7(5).x4 == Out7(S7[1][6]) && Sp7(5).x5 == Out7(S7[3][6])
    ensures Sp7(5).x6 == Out7(S7[1][14]) && Sp7(5).x7 == Out7(S7[3][14])
    ensures Sp7(6).x0 == Out7(S7[1][1]) && Sp7(6).x1 == Out7(S7[3][1]) && Sp7(6).x2 == Out7(S7[1][9])
    ensures Sp7(6).x3 == Out7(S7[3][9]) && Sp7(6).x4 == Out7(S7[1][5]) && Sp7(6).x5 == Out7(S7[3][5])
    ensures Sp7(6).x6 == Out7(S7[1][13]) && Sp7(6).x7 == Out7(S7[3][13])
    ensures Sp7(7).x0 == Out7(S7[1][3]) && Sp7(7).x1 == Out7(S7[3][3]) && Sp7(7).x2 == Out7(S7[1][11])
    ensures Sp7(7).x3 == Out7(S7[3][11]) && Sp7(7).x4 == Out7(S7[1][7]) && Sp7(7).x5 == Out7(S7[3][7])
    ensures Sp7(7).x6 == Out7(S7[1][15]) && Sp7(7).x7 == Out7(S7[3][15])
  {
  }

  lemma LowLines7()
    ensures Box(S7)
    ensures LineIs(Sp7(0), S7, 0, 0, 0, 12, 22, 7)
    ensures LineIs(Sp7(1), S7, 0, 2, 0, 12, 22, 7)
    ensures LineIs(Sp7(2), S7, 0, 1, 0, 12, 22, 7)
    ensures LineIs(Sp7(3), S7, 0, 3, 0, 12, 22, 7)
  {
    Entries7();
    hide S7;
    hide Sp7;
    hide Four;
  }

  lemma HighLines7()
    ensures Box(S7)
    ensures LineIs(Sp7(4), S7, 1, 0, 0, 12, 22, 7)
    ensures LineIs(Sp7(5), S7, 1, 2, 0, 12, 22, 7)
    ensures LineIs(Sp7(6), S7, 1, 1, 0, 12, 22, 7)
    ensures LineIs(Sp7(7), S7, 1, 3, 0, 12, 22, 7)
  {
    Entries7();
    hide S7;
    hide Sp7;
    hide Four;
  }

  function Out8(y: nat): bv32 { Four(y, 5, 27, 15, 21) }

  lemma Entries8()
    ensures Box(S8)
    ensures Sp8(0).x0 == Out8(S8[0][0]) && Sp8(0).x1 == Out8(S8[2][0]) && Sp8(0).x2 == Out8(S8[0][8])
    ensures Sp8(0).x3 == Out8(S8[2][8]) && Sp8(0).x4 == Out8(S8[0][4]) && Sp8(0).x5 == Out8(S8[2][4])
    ensures Sp8(0).x6 == Out8(S8[0][12]) && Sp8(0).x7 == Out8(S8[2][12])
    ensures Sp8(1).x0 == Out8(S8[0][2]) && Sp8(1).x1 == Out8(S8[2][2]) && Sp8(1).x2 == Out8(S8[0][10])
    ensures Sp8(1).x3 == Out8(S8[2][10]) && Sp8(1).x4 == Out8(S8[0][6]) && Sp8(1).x5 == Out8(S8[2][6])
    ensures Sp8(1).x6 == Out8(S8[0][14]) && Sp8(1).x7 == Out8(S8[2][14])
    ensures Sp8(2).x0 == Out8(S8[0][1]) && Sp8(2).x1 == Out8(S8[2][1]) && Sp8(2).x2 == Out8(S8[0][9])
    ensures Sp8(2).x3 == Out8(S8[2][9]) && Sp8(2).x4 == Out8(S8[0][5]) && Sp8(2).x5 == Out8(S8[2][5])
    ensures Sp8(2).x6 == Out8(S8[0][13]) && Sp8(2).x7 == Out8(S8[2][13])
    ensures Sp8(3).x0 == Out8(S8[0][3]) && Sp8(3).x1 == Out8(S8[2][3]) && Sp8(3).x2 == Out8(S8[0][11])
    ensures Sp8(3).x3 == Out8(S8[2][11]) && Sp8(3).x4 == Out8(S8[0][7]) && Sp8(3).x5 == Out8(S8[2][7])
    ensures Sp8(3).x6 == Out8(S8[0][15]) && Sp8(3).x7 == Out8(S8[2][15])
    ensures Sp8(4).x0 == Out8(S8[1][0]) && Sp8(4).x1 == Out8(S8[3][0]) && Sp8(4).x2 == Out8(S8[1][8])
    ensures Sp8(4).x3 == Out8(S8[3][8]) && Sp8(4).x4 == Out8(S8[1][4]) && Sp8(4).x5 == Out8(S8[3][4])
    ensures Sp8(4).x6 == Out8(S8[1][12]) && Sp8(4).x7 == Out8(S8[3][12])
    ensures Sp8(5).x0 == Out8(S8[1][2]) && Sp8(5).x1 == Out8(S8[3][2]) && Sp8(5).x2 == Out8(S8[1][10])
    ensures Sp8(5).x3 == Out8(S8[3][10]) && Sp8(5).x4 == Out8(S8[1][6]) && Sp8(5).x5 == Out8(S8[3][6])
    ensures Sp8(5).x6 == Out8(S8[1][14]) && Sp8(5).x7 == Out8(S8[3][14])
    ensures Sp8(6).x0 == Out8(S8[1][1]) && Sp8(6).x1 == Out8(S8[3][1]) && Sp8(6).x2 == Out8(S8[1][9])
    ensures Sp8(6).x3 == Out8(S8[3][9]) && Sp8(6).x4 == Out8(S8[1][5]) && Sp8(6).x5 == Out8(S8[3][5])
    ensures Sp8(6).x6 == Out8(S8[1][13]) && Sp8(6).x7 == Out8(S8[3][13])
    ensures Sp8(7).x0 == Out8(S8[1][3]) && Sp8(7).x1 == Out8(S8[3][3]) && Sp8(7).x2 == Out8(S8[1][11])
    ensures Sp8(7).x3 == Out8(S8[3][11]) && Sp8(7).x4 == Out8(S8[1][7]) && Sp8(7).x5 == Out8(S8[3][7])
    ensures Sp8(7).x6 == Out8(S8[1][15]) && Sp8(7).x7 == Out8(S8[3][15])
  {
  }

  lemma LowLines8()
    ensures Box(S8)
    ensures LineIs(Sp8(0), S8, 0, 0, 5, 27, 15, 21)
    ensures LineIs(Sp8(1), S8, 0, 2, 5, 27, 15, 21)
    ensures LineIs(Sp8(2), S8, 0, 1, 5, 27, 15, 21)
    ensures LineIs(Sp8(3), S8, 0, 3, 5, 27, 15, 21)
  {
    Entries8();
    hide S8;
    hide Sp8;
    hide Four;
  }

  lemma HighLines8()
    ensures Box(S8)
    ensures LineIs(Sp8(4), S8, 1, 0, 5, 27, 15, 21)
    ensures LineIs(Sp8(5), S8, 1, 2, 5, 27, 15, 21)
    ensures LineIs(Sp8(6), S8, 1, 1, 5, 27, 15, 21)
    ensures LineIs(Sp8(7), S8, 1, 3, 5, 27, 15, 21)
  {
    Entries8();
    hide S8;
    hide Sp8;
    hide Four;
  }

  // ----- Every entry of des_skb -----

  /** The eight entries of line a: the bits of the place in the line, and those of a. */
  predicate CodesAre(o: Line, a: nat, p0: nat, p1: nat, p2: nat, p3: nat, p4: nat, p5: nat)
    requires p0 < 32 && p1 < 32 && p2 < 32 && p3 < 32 && p4 < 32 && p5 < 32
  {
    var u := Three(a, p3, p4, p5);
    && o.x0 == D.Or(Three(0, p0, p1, p2), u) && o.x1 == D.Or(Three(1, p0, p1, p2), u)
    && o.x2 == D.Or(Three(2, p0, p1, p2), u) && o.x3 == D.Or(Three(3, p0, p1, p2), u)
    && o.x4 == D.Or(Three(4, p0, p1, p2), u) && o.x5 == D.Or(Three(5, p0, p1, p2), u)
    && o.x6 == D.Or(Three(6, p0, p1, p2), u) && o.x7 == D.Or(Three(7, p0, p1, p2), u)
  }

  function In1(a: nat, b: nat): bv32 { D.Or(Three(b, 4, 29, 16), Three(a, 11, 5, 19)) }

  lemma Codes1()
    ensures Skb1(0).x0 == In1(0, 0) && Skb1(0).x1 == In1(0, 1) && Skb1(0).x2 == In1(0, 2) && Skb1(0).x3 == In1(0, 3)
    ensures Skb1(0).x4 == In1(0, 4) && Skb1(0).x5 == In1(0, 5) && Skb1(0).x6 == In1(0, 6) && Skb1(0).x7 == In1(0, 7)
    ensures Skb1(1).x0 == In1(1, 0) && Skb1(1).x1 == In1(1, 1) && Skb1(1).x2 == In1(1, 2) && Skb1(1).x3 == In1(1, 3)
    ensures Skb1(1).x4 == In1(1, 4) && Skb1(1).x5 == In1(1, 5) && Skb1(1).x6 == In1(1, 6) && Skb1(1).x7 == In1(1, 7)
    ensures Skb1(2).x0 == In1(2, 0) && Skb1(2).x1 == In1(2, 1) && Skb1(2).x2 == In1(2, 2) && Skb1(2).x3 == In1(2, 3)
    ensures Skb1(2).x4 == In1(2, 4) && Skb1(2).x5 == In1(2, 5) && Skb1(2).x6 == In1(2, 6) && Skb1(2).x7 == In1(2, 7)
    ensures Skb1(3).x0 == In1(3, 0) && Skb1(3).x1 == In1(3, 1) && Skb1(3).x2 == In1(3, 2) && Skb1(3).x3 == In1(3, 3)
    ensures Skb1(3).x4 == In1(3, 4) && Skb1(3).x5 == In1(3, 5) && Skb1(3).x6 == In1(3, 6) && Skb1(3).x7 == In1(3, 7)
    ensures Skb1(4).x0 == In1(4, 0) && Skb1(4).x1 == In1(4, 1) && Skb1(4).x2 == In1(4, 2) && Skb1(4).x3 == In1(4, 3)
    ensures Skb1(4).x4 == In1(4, 4) && Skb1(4).x5 == In1(4, 5) && Skb1(4).x6 == In1(4, 6) && Skb1(4).x7 == In1(4, 7)
    ensures Skb1(5).x0 == In1(5, 0) && Skb1(5).x1 == In1(5, 1) && Skb1(5).x2 == In1(5, 2) && Skb1(5).x3 == In1(5, 3)
    ensures Skb1(5).x4 == In1(5, 4) && Skb1(5).x5 == In1(5, 5) && Skb1(5).x6 == In1(5, 6) && Skb1(5).x7 == In1(5, 7)
    ensures Skb1(6).x0 == In1(6, 0) && Skb1(6).x1 == In1(6, 1) && Skb1(6).x2 == In1(6, 2) && Skb1(6).x3 == In1(6, 3)
    ensures Skb1(6).x4 == In1(6, 4) && Skb1(6).x5 == In1(6, 5) && Skb1(6).x6 == In1(6, 6) && Skb1(6).x7 == In1(6, 7)
    ensures Skb1(7).x0 == In1(7, 0) && Skb1(7).x1 == In1(7, 1) && Skb1(7).x2 == In1(7, 2) && Skb1(7).x3 == In1(7, 3)
    ensures Skb1(7).x4 == In1(7, 4) && Skb1(7).x5 == In1(7, 5) && Skb1(7).x6 == In1(7, 6) && Skb1(7).x7 == In1(7, 7)
  {
  }

  lemma CodeLines1()
    ensures CodesAre(Skb1(0), 0, 4, 29, 16, 11, 5, 19)
    ensures CodesAre(Skb1(1), 1, 4, 29, 16, 11, 5, 19)
    ensures CodesAre(Skb1(2), 2, 4, 29, 16, 11, 5, 19)
    ensures CodesAre(Skb1(3), 3, 4, 29, 16, 11, 5, 19)
    ensures CodesAre(Skb1(4), 4, 4, 29, 16, 11, 5, 19)
    ensures CodesAre(Skb1(5), 5, 4, 29, 16, 11, 5, 19)
    ensures CodesAre(Skb1(6), 6, 4, 29, 16, 11, 5, 19)
    ensures CodesAre(Skb1(7), 7, 4, 29, 16, 11, 5, 19)
  {
    Codes1();
    hide Skb1;
    hide Three;
    hide D.Or;
  }

  function In2(a: nat, b: nat): bv32 { D.Or(Three(b, 25, 13, 21), Three(a, 2, 10, 28)) }

  lemma Codes2()
    ensures Skb2(0).x0 == In2(0, 0) && Skb2(0).x1 == In2(0, 1) && Skb2(0).x2 == In2(0, 2) && Skb2(0).x3 == In2(0, 3)
    ensures Skb2(0).x4 == In2(0, 4) && Skb2(0).x5 == In2(0, 5) && Skb2(0).x6 == In2(0, 6) && Skb2(0).x7 == In2(0, 7)
    ensures Skb2(1).x0 == In2(1, 0) && Skb2(1).x1 == In2(1, 1) && Skb2(1).x2 == In2(1, 2) && Skb2(1).x3 == In2(1, 3)
    ensures Skb2(1).x4 == In2(1, 4) && Skb2(1).x5 == In2(1, 5) && Skb2(1).x6 == In2(1, 6) && Skb2(1).x7 == In2(1, 7)
    ensures Skb2(2).x0 == In2(2, 0) && Skb2(2).x1 == In2(2, 1) && Skb2(2).x2 == In2(2, 2) && Skb2(2).x3 == In2(2, 3)
    ensures Skb2(2).x4 == In2(2, 4) && Skb2(2).x5 == In2(2, 5) && Skb2(2).x6 == In2(2, 6) && Skb2(2).x7 == In2(2, 7)
    ensures Skb2(3).x0 == In2(3, 0) && Skb2(3).x1 == In2(3, 1) && Skb2(3).x2 == In2(3, 2) && Skb2(3).x3 == In2(3, 3)
    ensures Skb2(3).x4 == In2(3, 4) && Skb2(3).x5 == In2(3, 5) && Skb2(3).x6 == In2(3, 6) && Skb2(3).x7 == In2(3, 7)
    ensures Skb2(4).x0 == In2(4, 0) && Skb2(4).x1 == In2(4, 1) && Skb2(4).x2 == In2(4, 2) && Skb2(4).x3 == In2(4, 3)
    ensures Skb2(4).x4 == In2(4, 4) && Skb2(4).x5 == In2(4, 5) && Skb2(4).x6 == In2(4, 6) && Skb2(4).x7 == In2(4, 7)
    ensures Skb2(5).x0 == In2(5, 0) && Skb2(5).x1 == In2(5, 1) && Skb2(5).x2 == In2(5, 2) && Skb2(5).x3 == In2(5, 3)
    ensures Skb2(5).x4 == In2(5, 4) && Skb2(5).x5 == In2(5, 5) && Skb2(5).x6 == In2(5, 6) && Skb2(5).x7 == In2(5, 7)
    ensures Skb2(6).x0 == In2(6, 0) && Skb2(6).x1 == In2(6, 1) && Skb2(6).x2 == In2(6, 2) && Skb2(6).x3 == In2(6, 3)
    ensures Skb2(6).x4 == In2(6, 4) && Skb2(6).x5 == In2(6, 5) && Skb2(6).x6 == In2(6, 6) && Skb2(6).x7 == In2(6, 7)
    ensures Skb2(7).x0 == In2(7, 0) && Skb2(7).x1 == In2(7, 1) && Skb2(7).x2 == In2(7, 2) && Skb2(7).x3 == In2(7, 3)
    ensures Skb2(7).x4 == In2(7, 4) && Skb2(7).x5 == In2(7, 5) && Skb2(7).x6 == In2(7, 6) && Skb2(7).x7 == In2(7, 7)
  {
  }

  lemma CodeLines2()
    ensures CodesAre(Skb2(0), 0, 25, 13, 21, 2, 10, 28)
    ensures CodesAre(Skb2(1), 1, 25, 13, 21, 2, 10, 28)
    ensures CodesAre(Skb2(2), 2, 25, 13, 21, 2, 10, 28)
    ensures CodesAre(Skb2(3), 3, 25, 13, 21, 2, 10, 28)
    ensures CodesAre(Skb2(4), 4, 25, 13, 21, 2, 10, 28)
    ensures CodesAre(Skb2(5), 5, 25, 13, 21, 2, 10, 28)
    ensures CodesAre(Skb2(6), 6, 25, 13, 21, 2, 10, 28)
    ensures CodesAre(Skb2(7), 7, 25, 13, 21, 2, 10, 28)
  {
    Codes2();
    hide Skb2;
    hide Three;
    hide D.Or;
  }

  function In3(a: nat, b: nat): bv32 { D.Or(Three(b, 0, 18, 24), Three(a, 1, 9, 27)) }

  lemma Codes3()
    ensures Skb3(0).x0 == In3(0, 0) && Skb3(0).x1 == In3(0, 1) && Skb3(0).x2 == In3(0, 2) && Skb3(0).x3 == In3(0, 3)
    ensures Skb3(0).x4 == In3(0, 4) && Skb3(0).x5 == In3(0, 5) && Skb3(0).x6 == In3(0, 6) && Skb3(0).x7 == In3(0, 7)
    ensures Skb3(1).x0 == In3(1, 0) && Skb3(1).x1 == In3(1, 1) && Skb3(1).x2 == In3(1, 2) && Skb3(1).x3 == In3(1, 3)
    ensures Skb3(1).x4 == In3(1, 4) && Skb3(1).x5 == In3(1, 5) && Skb3(1).x6 == In3(1, 6) && Skb3(1).x7 == In3(1, 7)
    ensures Skb3(2).x0 == In3(2, 0) && Skb3(2).x1 == In3(2, 1) && Skb3(2).x2 == In3(2, 2) && Skb3(2).x3 == In3(2, 3)
    ensures Skb3(2).x4 == In3(2, 4) && Skb3(2).x5 == In3(2, 5) && Skb3(2).x6 == In3(2, 6) && Skb3(2).x7 == In3(2, 7)
    ensures Skb3(3).x0 == In3(3, 0) && Skb3(3).x1 == In3(3, 1) && Skb3(3).x2 == In3(3, 2) && Skb3(3).x3 == In3(3, 3)
    ensures Skb3(3).x4 == In3(3, 4) && Skb3(3).x5 == In3(3, 5) && Skb3(3).x6 == In3(3, 6) && Skb3(3).x7 == In3(3, 7)
    ensures Skb3(4).x0 == In3(4, 0) && Skb3(4).x1 == In3(4, 1) && Skb3(4).x2 == In3(4, 2) && Skb3(4).x3 == In3(4, 3)
    ensures Skb3(4).x4 == In3(4, 4) && Skb3(4).x5 == In3(4, 5) && Skb3(4).x6 == In3(4, 6) && Skb3(4).x7 == In3(4, 7)
    ensures Skb3(5).x0 == In3(5, 0) && Skb3(5).x1 == In3(5, 1) && Skb3(5).x2 == In3(5, 2) && Skb3(5).x3 == In3(5, 3)
    ensures Skb3(5).x4 == In3(5, 4) && Skb3(5).x5 == In3(5, 5) && Skb3(5).x6 == In3(5, 6) && Skb3(5).x7 == In3(5, 7)
    ensures Skb3(6).x0 == In3(6, 0) && Skb3(6).x1 == In3(6, 1) && Skb3(6).x2 == In3(6, 2) && Skb3(6).x3 == In3(6, 3)
    ensures Skb3(6).x4 == In3(6, 4) && Skb3(6).x5 == In3(6, 5) && Skb3(6).x6 == In3(6, 6) && Skb3(6).x7 == In3(6, 7)
    ensures Skb3(7).x0 == In3(7, 0) && Skb3(7).x1 == In3(7, 1) && Skb3(7).x2 == In3(7, 2) && Skb3(7).x3 == In3(7, 3)
    ensures Skb3(7).x4 == In3(7, 4) && Skb3(7).x5 == In3(7, 5) && Skb3(7).x6 == In3(7, 6) && Skb3(7).x7 == In3(7, 7)
  {
  }

  lemma CodeLines3()
    ensures CodesAre(Skb3(0), 0, 0, 18, 24, 1, 9, 27)
    ensures CodesAre(Skb3(1), 1, 0, 18, 24, 1, 9, 27)
    ensures CodesAre(Skb3(2), 2, 0, 18, 24, 1, 9, 27)
    ensures CodesAre(Skb3(3), 3, 0, 18, 24, 1, 9, 27)
    ensures CodesAre(Skb3(4), 4, 0, 18, 24, 1, 9, 27)
    ensures CodesAre(Skb3(5), 5, 0, 18, 24, 1, 9, 27)
    ensures CodesAre(Skb3(6), 6, 0, 18, 24, 1, 9, 27)
    ensures CodesAre(Skb3(7), 7, 0, 18, 24, 1, 9, 27)
  {
    Codes3();
    hide Skb3;
    hide Three;
    hide D.Or;
  }

  function In4(a: nat, b: nat): bv32 { D.Or(Three(b, 20, 8, 3), Three(a, 12, 26, 17)) }

  lemma Codes4()
    ensures Skb4(0).x0 == In4(0, 0) && Skb4(0).x1 == In4(0, 1) && Skb4(0).x2 == In4(0, 2) && Skb4(0).x3 == In4(0, 3)
    ensures Skb4(0).x4 == In4(0, 4) && Skb4(0).x5 == In4(0, 5) && Skb4(0).x6 == In4(0, 6) && Skb4(0).x7 == In4(0, 7)
    ensures Skb4(1).x0 == In4(1, 0) && Skb4(1).x1 == In4(1, 1) && Skb4(1).x2 == In4(1, 2) && Skb4(1).x3 == In4(1, 3)
    ensures Skb4(1).x4 == In4(1, 4) && Skb4(1).x5 == In4(1, 5) && Skb4(1).x6 == In4(1, 6) && Skb4(1).x7 == In4(1, 7)
    ensures Skb4(2).x0 == In4(2, 0) && Skb4(2).x1 == In4(2, 1) && Skb4(2).x2 == In4(2, 2) && Skb4(2).x3 == In4(2, 3)
    ensures Skb4(2).x4 == In4(2, 4) && Skb4(2).x5 == In4(2, 5) && Skb4(2).x6 == In4(2, 6) && Skb4(2).x7 == In4(2, 7)
    ensures Skb4(3).x0 == In4(3, 0) && Skb4(3).x1 == In4(3, 1) && Skb4(3).x2 == In4(3, 2) && Skb4(3).x3 == In4(3, 3)
    ensures Skb4(3).x4 == In4(3, 4) && Skb4(3).x5 == In4(3, 5) && Skb4(3).x6 == In4(3, 6) && Skb4(3).x7 == In4(3, 7)
    ensures Skb4(4).x0 == In4(4, 0) && Skb4(4).x1 == In4(4, 1) && Skb4(4).x2 == In4(4, 2) && Skb4(4).x3 == In4(4, 3)
    ensures Skb4(4).x4 == In4(4, 4) && Skb4(4).x5 == In4(4, 5) && Skb4(4).x6 == In4(4, 6) && Skb4(4).x7 == In4(4, 7)
    ensures Skb4(5).x0 == In4(5, 0) && Skb4(5).x1 == In4(5, 1) && Skb4(5).x2 == In4(5, 2) && Skb4(5).x3 == In4(5, 3)
    ensures Skb4(5).x4 == In4(5, 4) && Skb4(5).x5 == In4(5, 5) && Skb4(5).x6 == In4(5, 6) && Skb4(5).x7 == In4(5, 7)
    ensures Skb4(6).x0 == In4(6, 0) && Skb4(6).x1 == In4(6, 1) && Skb4(6).x2 == In4(6, 2) && Skb4(6).x3 == In4(6, 3)
    ensures Skb4(6).x4 == In4(6, 4) && Skb4(6).x5 == In4(6, 5) && Skb4(6).x6 == In4(6, 6) && Skb4(6).x7 == In4(6, 7)
    ensures Skb4(7).x0 == In4(7, 0) && Skb4(7).x1 == In4(7, 1) && Skb4(7).x2 == In4(7, 2) && Skb4(7).x3 == In4(7, 3)
    ensures Skb4(7).x4 == In4(7, 4) && Skb4(7).x5 == In4(7, 5) && Skb4(7).x6 == In4(7, 6) && Skb4(7).x7 == In4(7, 7)
  {
  }

  lemma CodeLines4()
    ensures CodesAre(Skb4(0), 0, 20, 8, 3, 12, 26, 17)
    ensures CodesAre(Skb4(1), 1, 20, 8, 3, 12, 26, 17)
    ensures CodesAre(Skb4(2), 2, 20, 8, 3, 12, 26, 17)
    ensures CodesAre(Skb4(3), 3, 20, 8, 3, 12, 26, 17)
    ensures CodesAre(Skb4(4), 4, 20, 8, 3, 12, 26, 17)
    ensures CodesAre(Skb4(5), 5, 20, 8, 3, 12, 26, 17)
    ensures CodesAre(Skb4(6), 6, 20, 8, 3, 12, 26, 17)
    ensures CodesAre(Skb4(7), 7, 20, 8, 3, 12, 26, 17)
  {
    Codes4();
    hide Skb4;
    hide Three;
    hide D.Or;
  }

  function In5(a: nat, b: nat): bv32 { D.Or(Three(b, 28, 16, 2), Three(a, 29, 20, 12)) }

  lemma Codes5()
    ensures Skb5(0).x0 == In5(0, 0) && Skb5(0).x1 == In5(0, 1) && Skb5(0).x2 == In5(0, 2) && Skb5(0).x3 == In5(0, 3)
    ensures Skb5(0).x4 == In5(0, 4) && Skb5(0).x5 == In5(0, 5) && Skb5(0).x6 == In5(0, 6) && Skb5(0).x7 == In5(0, 7)
    ensures Skb5(1).x0 == In5(1, 0) && Skb5(1).x1 == In5(1, 1) && Skb5(1).x2 == In5(1, 2) && Skb5(1).x3 == In5(1, 3)
    ensures Skb5(1).x4 == In5(1, 4) && Skb5(1).x5 == In5(1, 5) && Skb5(1).x6 == In5(1, 6) && Skb5(1).x7 == In5(1, 7)
    ensures Skb5(2).x0 == In5(2, 0) && Skb5(2).x1 == In5(2, 1) && Skb5(2).x2 == In5(2, 2) && Skb5(2).x3 == In5(2, 3)
    ensures Skb5(2).x4 == In5(2, 4) && Skb5(2).x5 == In5(2, 5) && Skb5(2).x6 == In5(2, 6) && Skb5(2).x7 == In5(2, 7)
    ensures Skb5(3).x0 == In5(3, 0) && Skb5(3).x1 == In5(3, 1) && Skb5(3).x2 == In5(3, 2) && Skb5(3).x3 == In5(3, 3)
    ensures Skb5(3).x4 == In5(3, 4) && Skb5(3).x5 == In5(3, 5) && Skb5(3).x6 == In5(3, 6) && Skb5(3).x7 == In5(3, 7)
    ensures Skb5(4).x0 == In5(4, 0) && Skb5(4).x1 == In5(4, 1) && Skb5(4).x2 == In5(4, 2) && Skb5(4).x3 == In5(4, 3)
    ensures Skb5(4).x4 == In5(4, 4) && Skb5(4).x5 == In5(4, 5) && Skb5(4).x6 == In5(4, 6) && Skb5(4).x7 == In5(4, 7)
    ensures Skb5(5).x0 == In5(5, 0) && Skb5(5).x1 == In5(5, 1) && Skb5(5).x2 == In5(5, 2) && Skb5(5).x3 == In5(5, 3)
    ensures Skb5(5).x4 == In5(5, 4) && Skb5(5).x5 == In5(5, 5) && Skb5(5).x6 == In5(5, 6) && Skb5(5).x7 == In5(5, 7)
    ensures Skb5(6).x0 == In5(6, 0) && Skb5(6).x1 == In5(6, 1) && Skb5(6).x2 == In5(6, 2) && Skb5(6).x3 == In5(6, 3)
    ensures Skb5(6).x4 == In5(6, 4) && Skb5(6).x5 == In5(6, 5) && Skb5(6).x6 == In5(6, 6) && Skb5(6).x7 == In5(6, 7)
    ensures Skb5(7).x0 == In5(7, 0) && Skb5(7).x1 == In5(7, 1) && Skb5(7).x2 == In5(7, 2) && Skb5(7).x3 == In5(7, 3)
    ensures Skb5(7).x4 == In5(7, 4) && Skb5(7).x5 == In5(7, 5) && Skb5(7).x6 == In5(7, 6) && Skb5(7).x7 == In5(7, 7)
  {
  }

  lemma CodeLines5()
    ensures CodesAre(Skb5(0), 0, 28, 16, 2, 29, 20, 12)
    ensures CodesAre(Skb5(1), 1, 28, 16, 2, 29, 20, 12)
    ensures CodesAre(Skb5(2), 2, 28, 16, 2, 29, 20, 12)
    ensures CodesAre(Skb5(3), 3, 28, 16, 2, 29, 20, 12)
    ensures CodesAre(Skb5(4), 4, 28, 16, 2, 29, 20, 12)
    ensures CodesAre(Skb5(5), 5, 28, 16, 2, 29, 20, 12)
    ensures CodesAre(Skb5(6), 6, 28, 16, 2, 29, 20, 12)
    ensures CodesAre(Skb5(7), 7, 28, 16, 2, 29, 20, 12)
  {
    Codes5();
    hide Skb5;
    hide Three;
    hide D.Or;
  }

  function In6(a: nat, b: nat): bv32 { D.Or(Three(b, 27, 3, 10), Three(a, 17, 0, 25)) }

  lemma Codes6()
    ensures Skb6(0).x0 == In6(0, 0) && Skb6(0).x1 == In6(0, 1) && Skb6(0).x2 == In6(0, 2) && Skb6(0).x3 == In6(0, 3)
    ensures Skb6(0).x4 == In6(0, 4) && Skb6(0).x5 == In6(0, 5) && Skb6(0).x6 == In6(0, 6) && Skb6(0).x7 == In6(0, 7)
    ensures Skb6(1).x0 == In6(1, 0) && Skb6(1).x1 == In6(1, 1) && Skb6(1).x2 == In6(1, 2) && Skb6(1).x3 == In6(1, 3)
    ensures Skb6(1).x4 == In6(1, 4) && Skb6(1).x5 == In6(1, 5) && Skb6(1).x6 == In6(1, 6) && Skb6(1).x7 == In6(1, 7)
    ensures Skb6(2).x0 == In6(2, 0) && Skb6(2).x1 == In6(2, 1) && Skb6(2).x2 == In6(2, 2) && Skb6(2).x3 == In6(2, 3)
    ensures Skb6(2).x4 == In6(2, 4) && Skb6(2).x5 == In6(2, 5) && Skb6(2).x6 == In6(2, 6) && Skb6(2).x7 == In6(2, 7)
    ensures Skb6(3).x0 == In6(3, 0) && Skb6(3).x1 == In6(3, 1) && Skb6(3).x2 == In6(3, 2) && Skb6(3).x3 == In6(3, 3)
    ensures Skb6(3).x4 == In6(3, 4) && Skb6(3).x5 == In6(3, 5) && Skb6(3).x6 == In6(3, 6) && Skb6(3).x7 == In6(3, 7)
    ensures Skb6(4).x0 == In6(4, 0) && Skb6(4).x1 == In6(4, 1) && Skb6(4).x2 == In6(4, 2) && Skb6(4).x3 == In6(4, 3)
    ensures Skb6(4).x4 == In6(4, 4) && Skb6(4).x5 == In6(4, 5) && Skb6(4).x6 == In6(4, 6) && Skb6(4).x7 == In6(4, 7)
    ensures Skb6(5).x0 == In6(5, 0) && Skb6(5).x1 == In6(5, 1) && Skb6(5).x2 == In6(5, 2) && Skb6(5).x3 == In6(5, 3)
    ensures Skb6(5).x4 == In6(5, 4) && Skb6(5).x5 == In6(5, 5) && Skb6(5).x6 == In6(5, 6) && Skb6(5).x7 == In6(5, 7)
    ensures Skb6(6).x0 == In6(6, 0) && Skb6(6).x1 == In6(6, 1) && Skb6(6).x2 == In6(6, 2) && Skb6(6).x3 == In6(6, 3)
    ensures Skb6(6).x4 == In6(6, 4) && Skb6(6).x5 == In6(6, 5) && Skb6(6).x6 == In6(6, 6) && Skb6(6).x7 == In6(6, 7)
    ensures Skb6(7).x0 == In6(7, 0) && Skb6(7).x1 == In6(7, 1) && Skb6(7).x2 == In6(7, 2) && Skb6(7).x3 == In6(7, 3)
    ensures Skb6(7).x4 == In6(7, 4) && Skb6(7).x5 == In6(7, 5) && Skb6(7).x6 == In6(7, 6) && Skb6(7).x7 == In6(7, 7)
  {
  }

  lemma CodeLines6()
    ensures CodesAre(Skb6(0), 0, 27, 3, 10, 17, 0, 25)
    ensures CodesAre(Skb6(1), 1, 27, 3, 10, 17, 0, 25)
    ensures CodesAre(Skb6(2), 2, 27, 3, 10, 17, 0, 25)
    ensures CodesAre(Skb6(3), 3, 27, 3, 10, 17, 0, 25)
    ensures CodesAre(Skb6(4), 4, 27, 3, 10, 17, 0, 25)
    ensures CodesAre(Skb6(5), 5, 27, 3, 10, 17, 0, 25)
    ensures CodesAre(Skb6(6), 6, 27, 3, 10, 17, 0, 25)
    ensures CodesAre(Skb6(7), 7, 27, 3, 10, 17, 0, 25)
  {
    Codes6();
    hide Skb6;
    hide Three;
    hide D.Or;
  }

  function In7(a: nat, b: nat): bv32 { D.Or(Three(b, 8, 19, 24), Three(a, 4, 21, 9)) }

  lemma Codes7()
    ensures Skb7(0).x0 == In7(0, 0) && Skb7(0).x1 == In7(0, 1) && Skb7(0).x2 == In7(0, 2) && Skb7(0).x3 == In7(0, 3)
    ensures Skb7(0).x4 == In7(0, 4) && Skb7(0).x5 == In7(0, 5) && Skb7(0).x6 == In7(0, 6) && Skb7(0).x7 == In7(0, 7)
    ensures Skb7(1).x0 == In7(1, 0) && Skb7(1).x1 == In7(1, 1) && Skb7(1).x2 == In7(1, 2) && Skb7(1).x3 == In7(1, 3)
    ensures Skb7(1).x4 == In7(1, 4) && Skb7(1).x5 == In7(1, 5) && Skb7(1).x6 == In7(1, 6) && Skb7(1).x7 == In7(1, 7)
    ensures Skb7(2).x0 == In7(2, 0) && Skb7(2).x1 == In7(2, 1) && Skb7(2).x2 == In7(2, 2) && Skb7(2).x3 == In7(2, 3)
    ensures Skb7(2).x4 == In7(2, 4) && Skb7(2).x5 == In7(2, 5) && Skb7(2).x6 == In7(2, 6) && Skb7(2).x7 == In7(2, 7)
    ensures Skb7(3).x0 == In7(3, 0) && Skb7(3).x1 == In7(3, 1) && Skb7(3).x2 == In7(3, 2) && Skb7(3).x3 == In7(3, 3)
    ensures Skb7(3).x4 == In7(3, 4) && Skb7(3).x5 == In7(3, 5) && Skb7(3).x6 == In7(3, 6) && Skb7(3).x7 == In7(3, 7)
    ensures Skb7(4).x0 == In7(4, 0) && Skb7(4).x1 == In7(4, 1) && Skb7(4).x2 == In7(4, 2) && Skb7(4).x3 == In7(4, 3)
    ensures Skb7(4).x4 == In7(4, 4) && Skb7(4).x5 == In7(4, 5) && Skb7(4).x6 == In7(4, 6) && Skb7(4).x7 == In7(4, 7)
    ensures Skb7(5).x0 == In7(5, 0) && Skb7(5).x1 == In7(5, 1) && Skb7(5).x2 == In7(5, 2) && Skb7(5).x3 == In7(5, 3)
    ensures Skb7(5).x4 == In7(5, 4) && Skb7(5).x5 == In7(5, 5) && Skb7(5).x6 == In7(5, 6) && Skb7(5).x7 == In7(5, 7)
    ensures Skb7(6).x0 == In7(6, 0) && Skb7(6).x1 == In7(6, 1) && Skb7(6).x2 == In7(6, 2) && Skb7(6).x3 == In7(6, 3)
    ensures Skb7(6).x4 == In7(6, 4) && Skb7(6).x5 == In7(6, 5) && Skb7(6).x6 == In7(6, 6) && Skb7(6).x7 == In7(6, 7)
    ensures Skb7(7).x0 == In7(7, 0) && Skb7(7).x1 == In7(7, 1) && Skb7(7).x2 == In7(7, 2) && Skb7(7).x3 == In7(7, 3)
    ensures Skb7(7).x4 == In7(7, 4) && Skb7(7).x5 == In7(7, 5) && Skb7(7).x6 == In7(7, 6) && Skb7(7).x7 == In7(7, 7)
  {
  }

  lemma CodeLines7()
    ensures CodesAre(Skb7(0), 0, 8, 19, 24, 4, 21, 9)
    ensures CodesAre(Skb7(1), 1, 8, 19, 24, 4, 21, 9)
    ensures CodesAre(Skb7(2), 2, 8, 19, 24, 4, 21, 9)
    ensures CodesAre(Skb7(3), 3, 8, 19, 24, 4, 21, 9)
    ensures CodesAre(Skb7(4), 4, 8, 19, 24, 4, 21, 9)
    ensures CodesAre(Skb7(5), 5, 8, 19, 24, 4, 21, 9)
    ensures CodesAre(Skb7(6), 6, 8, 19, 24, 4, 21, 9)
    ensures CodesAre(Skb7(7), 7, 8, 19, 24, 4, 21, 9)
  {
    Codes7();
    hide Skb7;
    hide Three;
    hide D.Or;
  }

  function In8(a: nat, b: nat): bv32 { D.Or(Three(b, 26, 18, 1), Three(a, 13, 5, 11)) }

  lemma Codes8()
    ensures Skb8(0).x0 == In8(0, 0) && Skb8(0).x1 == In8(0, 1) && Skb8(0).x2 == In8(0, 2) && Skb8(0).x3 == In8(0, 3)
    ensures Skb8(0).x4 == In8(0, 4) && Skb8(0).x5 == In8(0, 5) && Skb8(0).x6 == In8(0, 6) && Skb8(0).x7 == In8(0, 7)
    ensures Skb8(1).x0 == In8(1, 0) && Skb8(1).x1 == In8(1, 1) && Skb8(1).x2 == In8(1, 2) && Skb8(1).x3 == In8(1, 3)
    ensures Skb8(1).x4 == In8(1, 4) && Skb8(1).x5 == In8(1, 5) && Skb8(1).x6 == In8(1, 6) && Skb8(1).x7 == In8(1, 7)
    ensures Skb8(2).x0 == In8(2, 0) && Skb8(2).x1 == In8(2, 1) && Skb8(2).x2 == In8(2, 2) && Skb8(2).x3 == In8(2, 3)
    ensures Skb8(2).x4 == In8(2, 4) && Skb8(2).x5 == In8(2, 5) && Skb8(2).x6 == In8(2, 6) && Skb8(2).x7 == In8(2, 7)
    ensures Skb8(3).x0 == In8(3, 0) && Skb8(3).x1 == In8(3, 1) && Skb8(3).x2 == In8(3, 2) && Skb8(3).x3 == In8(3, 3)
    ensures Skb8(3).x4 == In8(3, 4) && Skb8(3).x5 == In8(3, 5) && Skb8(3).x6 == In8(3, 6) && Skb8(3).x7 == In8(3, 7)
    ensures Skb8(4).x0 == In8(4, 0) && Skb8(4).x1 == In8(4, 1) && Skb8(4).x2 == In8(4, 2) && Skb8(4).x3 == In8(4, 3)
    ensures Skb8(4).x4 == In8(4, 4) && Skb8(4).x5 == In8(4, 5) && Skb8(4).x6 == In8(4, 6) && Skb8(4).x7 == In8(4, 7)
    ensures Skb8(5).x0 == In8(5, 0) && Skb8(5).x1 == In8(5, 1) && Skb8(5).x2 == In8(5, 2) && Skb8(5).x3 == In8(5, 3)
    ensures Skb8(5).x4 == In8(5, 4) && Skb8(5).x5 == In8(5, 5) && Skb8(5).x6 == In8(5, 6) && Skb8(5).x7 == In8(5, 7)
    ensures Skb8(6).x0 == In8(6, 0) && Skb8(6).x1 == In8(6, 1) && Skb8(6).x2 == In8(6, 2) && Skb8(6).x3 == In8(6, 3)
    ensures Skb8(6).x4 == In8(6, 4) && Skb8(6).x5 == In8(6, 5) && Skb8(6).x6 == In8(6, 6) && Skb8(6).x7 == In8(6, 7)
    ensures Skb8(7).x0 == In8(7, 0) && Skb8(7).x1 == In8(7, 1) && Skb8(7).x2 == In8(7, 2) && Skb8(7).x3 == In8(7, 3)
    ensures Skb8(7).x4 == In8(7, 4) && Skb8(7).x5 == In8(7, 5) && Skb8(7).x6 == In8(7, 6) && Skb8(7).x7 == In8(7, 7)
  {
  }

  lemma CodeLines8()
    ensures CodesAre(Skb8(0), 0, 26, 18, 1, 13, 5, 11)
    ensures CodesAre(Skb8(1), 1, 26, 18, 1, 13, 5, 11)
    ensures CodesAre(Skb8(2), 2, 26, 18, 1, 13, 5, 11)
    ensures CodesAre(Skb8(3), 3, 26, 18, 1, 13, 5, 11)
    ensures CodesAre(Skb8(4), 4, 26, 18, 1, 13, 5, 11)
    ensures CodesAre(Skb8(5), 5, 26, 18, 1, 13, 5, 11)
    ensures CodesAre(Skb8(6), 6, 26, 18, 1, 13, 5, 11)
    ensures CodesAre(Skb8(7), 7, 26, 18, 1, 13, 5, 11)
  {
    Codes8();
    hide Skb8;
    hide Three;
    hide D.Or;
  }
}
