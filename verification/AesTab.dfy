/** The constant byte tables of the cipher, entry for entry.

    A table is a function from its index to its entry, one function for each row of sixteen.  Gf.dfy
    proves that the entries are those of FIPS-197. */
module AesTab {

  /** One of sixteen by the low four bits of the index. */
  function Low(x: bv8, e0: bv8, e1: bv8, e2: bv8, e3: bv8, e4: bv8, e5: bv8, e6: bv8, e7: bv8,
               e8: bv8, e9: bv8, e10: bv8, e11: bv8, e12: bv8, e13: bv8, e14: bv8, e15: bv8): bv8
  {
    if x & 0x08 == 0 then
      if x & 0x04 == 0 then
        if x & 0x02 == 0 then (if x & 0x01 == 0 then e0 else e1) else (if x & 0x01 == 0 then e2 else e3)
      else
        if x & 0x02 == 0 then (if x & 0x01 == 0 then e4 else e5) else (if x & 0x01 == 0 then e6 else e7)
    else
      if x & 0x04 == 0 then
        if x & 0x02 == 0 then (if x & 0x01 == 0 then e8 else e9) else (if x & 0x01 == 0 then e10 else e11)
      else
        if x & 0x02 == 0 then (if x & 0x01 == 0 then e12 else e13) else (if x & 0x01 == 0 then e14 else e15)
  }

  /** One of sixteen by the high four bits. */
  function High(x: bv8, e0: bv8, e1: bv8, e2: bv8, e3: bv8, e4: bv8, e5: bv8, e6: bv8, e7: bv8,
                e8: bv8, e9: bv8, e10: bv8, e11: bv8, e12: bv8, e13: bv8, e14: bv8, e15: bv8): bv8
  {
    if x & 0x80 == 0 then
      if x & 0x40 == 0 then
        if x & 0x20 == 0 then (if x & 0x10 == 0 then e0 else e1) else (if x & 0x10 == 0 then e2 else e3)
      else
        if x & 0x20 == 0 then (if x & 0x10 == 0 then e4 else e5) else (if x & 0x10 == 0 then e6 else e7)
    else
      if x & 0x40 == 0 then
        if x & 0x20 == 0 then (if x & 0x10 == 0 then e8 else e9) else (if x & 0x10 == 0 then e10 else e11)
      else
        if x & 0x20 == 0 then (if x & 0x10 == 0 then e12 else e13) else (if x & 0x10 == 0 then e14 else e15)
  }

  // `s_box`.

  function SBoxRow0(x: bv8): bv8 {
    Low(x, 0x63, 0x7c, 0x77, 0x7b, 0xf2, 0x6b, 0x6f, 0xc5,
           0x30, 0x01, 0x67, 0x2b, 0xfe, 0xd7, 0xab, 0x76)
  }

  function SBoxRow1(x: bv8): bv8 {
    Low(x, 0xca, 0x82, 0xc9, 0x7d, 0xfa, 0x59, 0x47, 0xf0,
           0xad, 0xd4, 0xa2, 0xaf, 0x9c, 0xa4, 0x72, 0xc0)
  }

  function SBoxRow2(x: bv8): bv8 {
    Low(x, 0xb7, 0xfd, 0x93, 0x26, 0x36, 0x3f, 0xf7, 0xcc,
           0x34, 0xa5, 0xe5, 0xf1, 0x71, 0xd8, 0x31, 0x15)
  }

  function SBoxRow3(x: bv8): bv8 {
    Low(x, 0x04, 0xc7, 0x23, 0xc3, 0x18, 0x96, 0x05, 0x9a,
           0x07, 0x12, 0x80, 0xe2, 0xeb, 0x27, 0xb2, 0x75)
  }

  function SBoxRow4(x: bv8): bv8 {
    Low(x, 0x09, 0x83, 0x2c, 0x1a, 0x1b, 0x6e, 0x5a, 0xa0,
           0x52, 0x3b, 0xd6, 0xb3, 0x29, 0xe3, 0x2f, 0x84)
  }

  function SBoxRow5(x: bv8): bv8 {
    Low(x, 0x53, 0xd1, 0x00, 0xed, 0x20, 0xfc, 0xb1, 0x5b,
           0x6a, 0xcb, 0xbe, 0x39, 0x4a, 0x4c, 0x58, 0xcf)
  }

  function SBoxRow6(x: bv8): bv8 {
    Low(x, 0xd0, 0xef, 0xaa, 0xfb, 0x43, 0x4d, 0x33, 0x85,
           0x45, 0xf9, 0x02, 0x7f, 0x50, 0x3c, 0x9f, 0xa8)
  }

  function SBoxRow7(x: bv8): bv8 {
    Low(x, 0x51, 0xa3, 0x40, 0x8f, 0x92, 0x9d, 0x38, 0xf5,
           0xbc, 0xb6, 0xda, 0x21, 0x10, 0xff, 0xf3, 0xd2)
  }

  function SBoxRow8(x: bv8): bv8 {
    Low(x, 0xcd, 0x0c, 0x13, 0xec, 0x5f, 0x97, 0x44, 0x17,
           0xc4, 0xa7, 0x7e, 0x3d, 0x64, 0x5d, 0x19, 0x73)
  }

  function SBoxRow9(x: bv8): bv8 {
    Low(x, 0x60, 0x81, 0x4f, 0xdc, 0x22, 0x2a, 0x90, 0x88,
           0x46, 0xee, 0xb8, 0x14, 0xde, 0x5e, 0x0b, 0xdb)
  }

  function SBoxRowA(x: bv8): bv8 {
    Low(x, 0xe0, 0x32, 0x3a, 0x0a, 0x49, 0x06, 0x24, 0x5c,
           0xc2, 0xd3, 0xac, 0x62, 0x91, 0x95, 0xe4, 0x79)
  }

  function SBoxRowB(x: bv8): bv8 {
    Low(x, 0xe7, 0xc8, 0x37, 0x6d, 0x8d, 0xd5, 0x4e, 0xa9,
           0x6c, 0x56, 0xf4, 0xea, 0x65, 0x7a, 0xae, 0x08)
  }

  function SBoxRowC(x: bv8): bv8 {
    Low(x, 0xba, 0x78, 0x25, 0x2e, 0x1c, 0xa6, 0xb4, 0xc6,
           0xe8, 0xdd, 0x74, 0x1f, 0x4b, 0xbd, 0x8b, 0x8a)
  }

  function SBoxRowD(x: bv8): bv8 {
    Low(x, 0x70, 0x3e, 0xb5, 0x66, 0x48, 0x03, 0xf6, 0x0e,
           0x61, 0x35, 0x57, 0xb9, 0x86, 0xc1, 0x1d, 0x9e)
  }

  function SBoxRowE(x: bv8): bv8 {
    Low(x, 0xe1, 0xf8, 0x98, 0x11, 0x69, 0xd9, 0x8e, 0x94,
           0x9b, 0x1e, 0x87, 0xe9, 0xce, 0x55, 0x28, 0xdf)
  }

  function SBoxRowF(x: bv8): bv8 {
    Low(x, 0x8c, 0xa1, 0x89, 0x0d, 0xbf, 0xe6, 0x42, 0x68,
           0x41, 0x99, 0x2d, 0x0f, 0xb0, 0x54, 0xbb, 0x16)
  }

  function SBox(x: bv8): bv8 {
    High(x, SBoxRow0(x), SBoxRow1(x), SBoxRow2(x), SBoxRow3(x),
            SBoxRow4(x), SBoxRow5(x), SBoxRow6(x), SBoxRow7(x),
            SBoxRow8(x), SBoxRow9(x), SBoxRowA(x), SBoxRowB(x),
            SBoxRowC(x), SBoxRowD(x), SBoxRowE(x), SBoxRowF(x))
  }

  // `inv_s_box`.

  function InvSBoxRow0(x: bv8): bv8 {
    Low(x, 0x52, 0x09, 0x6a, 0xd5, 0x30, 0x36, 0xa5, 0x38,
           0xbf, 0x40, 0xa3, 0x9e, 0x81, 0xf3, 0xd7, 0xfb)
  }

  function InvSBoxRow1(x: bv8): bv8 {
    Low(x, 0x7c, 0xe3, 0x39, 0x82, 0x9b, 0x2f, 0xff, 0x87,
           0x34, 0x8e, 0x43, 0x44, 0xc4, 0xde, 0xe9, 0xcb)
  }

  function InvSBoxRow2(x: bv8): bv8 {
    Low(x, 0x54, 0x7b, 0x94, 0x32, 0xa6, 0xc2, 0x23, 0x3d,
           0xee, 0x4c, 0x95, 0x0b, 0x42, 0xfa, 0xc3, 0x4e)
  }

  function InvSBoxRow3(x: bv8): bv8 {
    Low(x, 0x08, 0x2e, 0xa1, 0x66, 0x28, 0xd9, 0x24, 0xb2,
           0x76, 0x5b, 0xa2, 0x49, 0x6d, 0x8b, 0xd1, 0x25)
  }

  function InvSBoxRow4(x: bv8): bv8 {
    Low(x, 0x72, 0xf8, 0xf6, 0x64, 0x86, 0x68, 0x98, 0x16,
           0xd4, 0xa4, 0x5c, 0xcc, 0x5d, 0x65, 0xb6, 0x92)
  }

  function InvSBoxRow5(x: bv8): bv8 {
    Low(x, 0x6c, 0x70, 0x48, 0x50, 0xfd, 0xed, 0xb9, 0xda,
           0x5e, 0x15, 0x46, 0x57, 0xa7, 0x8d, 0x9d, 0x84)
  }

  function InvSBoxRow6(x: bv8): bv8 {
    Low(x, 0x90, 0xd8, 0xab, 0x00, 0x8c, 0xbc, 0xd3, 0x0a,
           0xf7, 0xe4, 0x58, 0x05, 0xb8, 0xb3, 0x45, 0x06)
  }

  function InvSBoxRow7(x: bv8): bv8 {
    Low(x, 0xd0, 0x2c, 0x1e, 0x8f, 0xca, 0x3f, 0x0f, 0x02,
           0xc1, 0xaf, 0xbd, 0x03, 0x01, 0x13, 0x8a, 0x6b)
  }

  function InvSBoxRow8(x: bv8): bv8 {
    Low(x, 0x3a, 0x91, 0x11, 0x41, 0x4f, 0x67, 0xdc, 0xea,
           0x97, 0xf2, 0xcf, 0xce, 0xf0, 0xb4, 0xe6, 0x73)
  }

  function InvSBoxRow9(x: bv8): bv8 {
    Low(x, 0x96, 0xac, 0x74, 0x22, 0xe7, 0xad, 0x35, 0x85,
           0xe2, 0xf9, 0x37, 0xe8, 0x1c, 0x75, 0xdf, 0x6e)
  }

  function InvSBoxRowA(x: bv8): bv8 {
    Low(x, 0x47, 0xf1, 0x1a, 0x71, 0x1d, 0x29, 0xc5, 0x89,
           0x6f, 0xb7, 0x62, 0x0e, 0xaa, 0x18, 0xbe, 0x1b)
  }

  function InvSBoxRowB(x: bv8): bv8 {
    Low(x, 0xfc, 0x56, 0x3e, 0x4b, 0xc6, 0xd2, 0x79, 0x20,
           0x9a, 0xdb, 0xc0, 0xfe, 0x78, 0xcd, 0x5a, 0xf4)
  }

  function InvSBoxRowC(x: bv8): bv8 {
    Low(x, 0x1f, 0xdd, 0xa8, 0x33, 0x88, 0x07, 0xc7, 0x31,
           0xb1, 0x12, 0x10, 0x59, 0x27, 0x80, 0xec, 0x5f)
  }

  function InvSBoxRowD(x: bv8): bv8 {
    Low(x, 0x60, 0x51, 0x7f, 0xa9, 0x19, 0xb5, 0x4a, 0x0d,
           0x2d, 0xe5, 0x7a, 0x9f, 0x93, 0xc9, 0x9c, 0xef)
  }

  function InvSBoxRowE(x: bv8): bv8 {
    Low(x, 0xa0, 0xe0, 0x3b, 0x4d, 0xae, 0x2a, 0xf5, 0xb0,
           0xc8, 0xeb, 0xbb, 0x3c, 0x83, 0x53, 0x99, 0x61)
  }

  function InvSBoxRowF(x: bv8): bv8 {
    Low(x, 0x17, 0x2b, 0x04, 0x7e, 0xba, 0x77, 0xd6, 0x26,
           0xe1, 0x69, 0x14, 0x63, 0x55, 0x21, 0x0c, 0x7d)
  }

  function InvSBox(x: bv8): bv8 {
    High(x, InvSBoxRow0(x), InvSBoxRow1(x), InvSBoxRow2(x), InvSBoxRow3(x),
            InvSBoxRow4(x), InvSBoxRow5(x), InvSBoxRow6(x), InvSBoxRow7(x),
            InvSBoxRow8(x), InvSBoxRow9(x), InvSBoxRowA(x), InvSBoxRowB(x),
            InvSBoxRowC(x), InvSBoxRowD(x), InvSBoxRowE(x), InvSBoxRowF(x))
  }

  /** `rcon_tab`: the one byte that is not zero in each word, the lowest. */
  const RCON_LENGTH := 29

  function RconTab(i: nat): bv8
    requires i < RCON_LENGTH
  {
    match i
    case 0 => 0x01 case 1 => 0x02 case 2 => 0x04 case 3 => 0x08
    case 4 => 0x10 case 5 => 0x20 case 6 => 0x40 case 7 => 0x80
    case 8 => 0x1b case 9 => 0x36 case 10 => 0x6c case 11 => 0xd8
    case 12 => 0xab case 13 => 0x4d case 14 => 0x9a case 15 => 0x2f
    case 16 => 0x5e case 17 => 0xbc case 18 => 0x63 case 19 => 0xc6
    case 20 => 0x97 case 21 => 0x35 case 22 => 0x6a case 23 => 0xd4
    case 24 => 0xb3 case 25 => 0x7d case 26 => 0xfa case 27 => 0xef
    case _ => 0xc5
  }
}
