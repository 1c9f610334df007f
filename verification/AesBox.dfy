// The S-box of AES and its inverse: the low bytes of the tables e4 and d4 in
// src/blockcipher/ciphers/aes/aes.c, sixteen values at a time.

module AesBox {
  import opened Bytes

  // ---------------------------------------------------------------- the S-box

  function S0(x: Byte): Byte {
    if x == 0x00 then 0x63 else if x == 0x01 then 0x7c else if x == 0x02 then 0x77 else if x == 0x03 then 0x7b else
    if x == 0x04 then 0xf2 else if x == 0x05 then 0x6b else if x == 0x06 then 0x6f else if x == 0x07 then 0xc5 else
    if x == 0x08 then 0x30 else if x == 0x09 then 0x01 else if x == 0x0a then 0x67 else if x == 0x0b then 0x2b else
    if x == 0x0c then 0xfe else if x == 0x0d then 0xd7 else if x == 0x0e then 0xab else 0x76
  }

  function S1(x: Byte): Byte {
    if x == 0x10 then 0xca else if x == 0x11 then 0x82 else if x == 0x12 then 0xc9 else if x == 0x13 then 0x7d else
    if x == 0x14 then 0xfa else if x == 0x15 then 0x59 else if x == 0x16 then 0x47 else if x == 0x17 then 0xf0 else
    if x == 0x18 then 0xad else if x == 0x19 then 0xd4 else if x == 0x1a then 0xa2 else if x == 0x1b then 0xaf else
    if x == 0x1c then 0x9c else if x == 0x1d then 0xa4 else if x == 0x1e then 0x72 else 0xc0
  }

  function S2(x: Byte): Byte {
    if x == 0x20 then 0xb7 else if x == 0x21 then 0xfd else if x == 0x22 then 0x93 else if x == 0x23 then 0x26 else
    if x == 0x24 then 0x36 else if x == 0x25 then 0x3f else if x == 0x26 then 0xf7 else if x == 0x27 then 0xcc else
    if x == 0x28 then 0x34 else if x == 0x29 then 0xa5 else if x == 0x2a then 0xe5 else if x == 0x2b then 0xf1 else
    if x == 0x2c then 0x71 else if x == 0x2d then 0xd8 else if x == 0x2e then 0x31 else 0x15
  }

  function S3(x: Byte): Byte {
    if x == 0x30 then 0x04 else if x == 0x31 then 0xc7 else if x == 0x32 then 0x23 else if x == 0x33 then 0xc3 else
    if x == 0x34 then 0x18 else if x == 0x35 then 0x96 else if x == 0x36 then 0x05 else if x == 0x37 then 0x9a else
    if x == 0x38 then 0x07 else if x == 0x39 then 0x12 else if x == 0x3a then 0x80 else if x == 0x3b then 0xe2 else
    if x == 0x3c then 0xeb else if x == 0x3d then 0x27 else if x == 0x3e then 0xb2 else 0x75
  }

  function S4(x: Byte): Byte {
    if x == 0x40 then 0x09 else if x == 0x41 then 0x83 else if x == 0x42 then 0x2c else if x == 0x43 then 0x1a else
    if x == 0x44 then 0x1b else if x == 0x45 then 0x6e else if x == 0x46 then 0x5a else if x == 0x47 then 0xa0 else
    if x == 0x48 then 0x52 else if x == 0x49 then 0x3b else if x == 0x4a then 0xd6 else if x == 0x4b then 0xb3 else
    if x == 0x4c then 0x29 else if x == 0x4d then 0xe3 else if x == 0x4e then 0x2f else 0x84
  }

  function S5(x: Byte): Byte {
    if x == 0x50 then 0x53 else if x == 0x51 then 0xd1 else if x == 0x52 then 0x00 else if x == 0x53 then 0xed else
    if x == 0x54 then 0x20 else if x == 0x55 then 0xfc else if x == 0x56 then 0xb1 else if x == 0x57 then 0x5b else
    if x == 0x58 then 0x6a else if x == 0x59 then 0xcb else if x == 0x5a then 0xbe else if x == 0x5b then 0x39 else
    if x == 0x5c then 0x4a else if x == 0x5d then 0x4c else if x == 0x5e then 0x58 else 0xcf
  }

  function S6(x: Byte): Byte {
    if x == 0x60 then 0xd0 else if x == 0x61 then 0xef else if x == 0x62 then 0xaa else if x == 0x63 then 0xfb else
    if x == 0x64 then 0x43 else if x == 0x65 then 0x4d else if x == 0x66 then 0x33 else if x == 0x67 then 0x85 else
    if x == 0x68 then 0x45 else if x == 0x69 then 0xf9 else if x == 0x6a then 0x02 else if x == 0x6b then 0x7f else
    if x == 0x6c then 0x50 else if x == 0x6d then 0x3c else if x == 0x6e then 0x9f else 0xa8
  }

  function S7(x: Byte): Byte {
    if x == 0x70 then 0x51 else if x == 0x71 then 0xa3 else if x == 0x72 then 0x40 else if x == 0x73 then 0x8f else
    if x == 0x74 then 0x92 else if x == 0x75 then 0x9d else if x == 0x76 then 0x38 else if x == 0x77 then 0xf5 else
    if x == 0x78 then 0xbc else if x == 0x79 then 0xb6 else if x == 0x7a then 0xda else if x == 0x7b then 0x21 else
    if x == 0x7c then 0x10 else if x == 0x7d then 0xff else if x == 0x7e then 0xf3 else 0xd2
  }

  function S8(x: Byte): Byte {
    if x == 0x80 then 0xcd else if x == 0x81 then 0x0c else if x == 0x82 then 0x13 else if x == 0x83 then 0xec else
    if x == 0x84 then 0x5f else if x == 0x85 then 0x97 else if x == 0x86 then 0x44 else if x == 0x87 then 0x17 else
    if x == 0x88 then 0xc4 else if x == 0x89 then 0xa7 else if x == 0x8a then 0x7e else if x == 0x8b then 0x3d else
    if x == 0x8c then 0x64 else if x == 0x8d then 0x5d else if x == 0x8e then 0x19 else 0x73
  }

  function S9(x: Byte): Byte {
    if x == 0x90 then 0x60 else if x == 0x91 then 0x81 else if x == 0x92 then 0x4f else if x == 0x93 then 0xdc else
    if x == 0x94 then 0x22 else if x == 0x95 then 0x2a else if x == 0x96 then 0x90 else if x == 0x97 then 0x88 else
    if x == 0x98 then 0x46 else if x == 0x99 then 0xee else if x == 0x9a then 0xb8 else if x == 0x9b then 0x14 else
    if x == 0x9c then 0xde else if x == 0x9d then 0x5e else if x == 0x9e then 0x0b else 0xdb
  }

  function SA(x: Byte): Byte {
    if x == 0xa0 then 0xe0 else if x == 0xa1 then 0x32 else if x == 0xa2 then 0x3a else if x == 0xa3 then 0x0a else
    if x == 0xa4 then 0x49 else if x == 0xa5 then 0x06 else if x == 0xa6 then 0x24 else if x == 0xa7 then 0x5c else
    if x == 0xa8 then 0xc2 else if x == 0xa9 then 0xd3 else if x == 0xaa then 0xac else if x == 0xab then 0x62 else
    if x == 0xac then 0x91 else if x == 0xad then 0x95 else if x == 0xae then 0xe4 else 0x79
  }

  function SB(x: Byte): Byte {
    if x == 0xb0 then 0xe7 else if x == 0xb1 then 0xc8 else if x == 0xb2 then 0x37 else if x == 0xb3 then 0x6d else
    if x == 0xb4 then 0x8d else if x == 0xb5 then 0xd5 else if x == 0xb6 then 0x4e else if x == 0xb7 then 0xa9 else
    if x == 0xb8 then 0x6c else if x == 0xb9 then 0x56 else if x == 0xba then 0xf4 else if x == 0xbb then 0xea else
    if x == 0xbc then 0x65 else if x == 0xbd then 0x7a else if x == 0xbe then 0xae else 0x08
  }

  function SC(x: Byte): Byte {
    if x == 0xc0 then 0xba else if x == 0xc1 then 0x78 else if x == 0xc2 then 0x25 else if x == 0xc3 then 0x2e else
    if x == 0xc4 then 0x1c else if x == 0xc5 then 0xa6 else if x == 0xc6 then 0xb4 else if x == 0xc7 then 0xc6 else
    if x == 0xc8 then 0xe8 else if x == 0xc9 then 0xdd else if x == 0xca then 0x74 else if x == 0xcb then 0x1f else
    if x == 0xcc then 0x4b else if x == 0xcd then 0xbd else if x == 0xce then 0x8b else 0x8a
  }

  function SD(x: Byte): Byte {
    if x == 0xd0 then 0x70 else if x == 0xd1 then 0x3e else if x == 0xd2 then 0xb5 else if x == 0xd3 then 0x66 else
    if x == 0xd4 then 0x48 else if x == 0xd5 then 0x03 else if x == 0xd6 then 0xf6 else if x == 0xd7 then 0x0e else
    if x == 0xd8 then 0x61 else if x == 0xd9 then 0x35 else if x == 0xda then 0x57 else if x == 0xdb then 0xb9 else
    if x == 0xdc then 0x86 else if x == 0xdd then 0xc1 else if x == 0xde then 0x1d else 0x9e
  }

  function SE(x: Byte): Byte {
    if x == 0xe0 then 0xe1 else if x == 0xe1 then 0xf8 else if x == 0xe2 then 0x98 else if x == 0xe3 then 0x11 else
    if x == 0xe4 then 0x69 else if x == 0xe5 then 0xd9 else if x == 0xe6 then 0x8e else if x == 0xe7 then 0x94 else
    if x == 0xe8 then 0x9b else if x == 0xe9 then 0x1e else if x == 0xea then 0x87 else if x == 0xeb then 0xe9 else
    if x == 0xec then 0xce else if x == 0xed then 0x55 else if x == 0xee then 0x28 else 0xdf
  }

  function SF(x: Byte): Byte {
    if x == 0xf0 then 0x8c else if x == 0xf1 then 0xa1 else if x == 0xf2 then 0x89 else if x == 0xf3 then 0x0d else
    if x == 0xf4 then 0xbf else if x == 0xf5 then 0xe6 else if x == 0xf6 then 0x42 else if x == 0xf7 then 0x68 else
    if x == 0xf8 then 0x41 else if x == 0xf9 then 0x99 else if x == 0xfa then 0x2d else if x == 0xfb then 0x0f else
    if x == 0xfc then 0xb0 else if x == 0xfd then 0x54 else if x == 0xfe then 0xbb else 0x16
  }

  function S(x: Byte): Byte {
    if x < 0x10 then S0(x) else if x < 0x20 then S1(x) else if x < 0x30 then S2(x) else if x < 0x40 then S3(x) else
    if x < 0x50 then S4(x) else if x < 0x60 then S5(x) else if x < 0x70 then S6(x) else if x < 0x80 then S7(x) else
    if x < 0x90 then S8(x) else if x < 0xa0 then S9(x) else if x < 0xb0 then SA(x) else if x < 0xc0 then SB(x) else
    if x < 0xd0 then SC(x) else if x < 0xe0 then SD(x) else if x < 0xf0 then SE(x) else SF(x)
  }

  // ---------------------------------------------------------------- its inverse

  function Si0(x: Byte): Byte {
    if x == 0x00 then 0x52 else if x == 0x01 then 0x09 else if x == 0x02 then 0x6a else if x == 0x03 then 0xd5 else
    if x == 0x04 then 0x30 else if x == 0x05 then 0x36 else if x == 0x06 then 0xa5 else if x == 0x07 then 0x38 else
    if x == 0x08 then 0xbf else if x == 0x09 then 0x40 else if x == 0x0a then 0xa3 else if x == 0x0b then 0x9e else
    if x == 0x0c then 0x81 else if x == 0x0d then 0xf3 else if x == 0x0e then 0xd7 else 0xfb
  }

  function Si1(x: Byte): Byte {
    if x == 0x10 then 0x7c else if x == 0x11 then 0xe3 else if x == 0x12 then 0x39 else if x == 0x13 then 0x82 else
    if x == 0x14 then 0x9b else if x == 0x15 then 0x2f else if x == 0x16 then 0xff else if x == 0x17 then 0x87 else
    if x == 0x18 then 0x34 else if x == 0x19 then 0x8e else if x == 0x1a then 0x43 else if x == 0x1b then 0x44 else
    if x == 0x1c then 0xc4 else if x == 0x1d then 0xde else if x == 0x1e then 0xe9 else 0xcb
  }

  function Si2(x: Byte): Byte {
    if x == 0x20 then 0x54 else if x == 0x21 then 0x7b else if x == 0x22 then 0x94 else if x == 0x23 then 0x32 else
    if x == 0x24 then 0xa6 else if x == 0x25 then 0xc2 else if x == 0x26 then 0x23 else if x == 0x27 then 0x3d else
    if x == 0x28 then 0xee else if x == 0x29 then 0x4c else if x == 0x2a then 0x95 else if x == 0x2b then 0x0b else
    if x == 0x2c then 0x42 else if x == 0x2d then 0xfa else if x == 0x2e then 0xc3 else 0x4e
  }

  function Si3(x: Byte): Byte {
    if x == 0x30 then 0x08 else if x == 0x31 then 0x2e else if x == 0x32 then 0xa1 else if x == 0x33 then 0x66 else
    if x == 0x34 then 0x28 else if x == 0x35 then 0xd9 else if x == 0x36 then 0x24 else if x == 0x37 then 0xb2 else
    if x == 0x38 then 0x76 else if x == 0x39 then 0x5b else if x == 0x3a then 0xa2 else if x == 0x3b then 0x49 else
    if x == 0x3c then 0x6d else if x == 0x3d then 0x8b else if x == 0x3e then 0xd1 else 0x25
  }

  function Si4(x: Byte): Byte {
    if x == 0x40 then 0x72 else if x == 0x41 then 0xf8 else if x == 0x42 then 0xf6 else if x == 0x43 then 0x64 else
    if x == 0x44 then 0x86 else if x == 0x45 then 0x68 else if x == 0x46 then 0x98 else if x == 0x47 then 0x16 else
    if x == 0x48 then 0xd4 else if x == 0x49 then 0xa4 else if x == 0x4a then 0x5c else if x == 0x4b then 0xcc else
    if x == 0x4c then 0x5d else if x == 0x4d then 0x65 else if x == 0x4e then 0xb6 else 0x92
  }

  function Si5(x: Byte): Byte {
    if x == 0x50 then 0x6c else if x == 0x51 then 0x70 else if x == 0x52 then 0x48 else if x == 0x53 then 0x50 else
    if x == 0x54 then 0xfd else if x == 0x55 then 0xed else if x == 0x56 then 0xb9 else if x == 0x57 then 0xda else
    if x == 0x58 then 0x5e else if x == 0x59 then 0x15 else if x == 0x5a then 0x46 else if x == 0x5b then 0x57 else
    if x == 0x5c then 0xa7 else if x == 0x5d then 0x8d else if x == 0x5e then 0x9d else 0x84
  }

  function Si6(x: Byte): Byte {
    if x == 0x60 then 0x90 else if x == 0x61 then 0xd8 else if x == 0x62 then 0xab else if x == 0x63 then 0x00 else
    if x == 0x64 then 0x8c else if x == 0x65 then 0xbc else if x == 0x66 then 0xd3 else if x == 0x67 then 0x0a else
    if x == 0x68 then 0xf7 else if x == 0x69 then 0xe4 else if x == 0x6a then 0x58 else if x == 0x6b then 0x05 else
    if x == 0x6c then 0xb8 else if x == 0x6d then 0xb3 else if x == 0x6e then 0x45 else 0x06
  }

  function Si7(x: Byte): Byte {
    if x == 0x70 then 0xd0 else if x == 0x71 then 0x2c else if x == 0x72 then 0x1e else if x == 0x73 then 0x8f else
    if x == 0x74 then 0xca else if x == 0x75 then 0x3f else if x == 0x76 then 0x0f else if x == 0x77 then 0x02 else
    if x == 0x78 then 0xc1 else if x == 0x79 then 0xaf else if x == 0x7a then 0xbd else if x == 0x7b then 0x03 else
    if x == 0x7c then 0x01 else if x == 0x7d then 0x13 else if x == 0x7e then 0x8a else 0x6b
  }

  function Si8(x: Byte): Byte {
    if x == 0x80 then 0x3a else if x == 0x81 then 0x91 else if x == 0x82 then 0x11 else if x == 0x83 then 0x41 else
    if x == 0x84 then 0x4f else if x == 0x85 then 0x67 else if x == 0x86 then 0xdc else if x == 0x87 then 0xea else
    if x == 0x88 then 0x97 else if x == 0x89 then 0xf2 else if x == 0x8a then 0xcf else if x == 0x8b then 0xce else
    if x == 0x8c then 0xf0 else if x == 0x8d then 0xb4 else if x == 0x8e then 0xe6 else 0x73
  }

  function Si9(x: Byte): Byte {
    if x == 0x90 then 0x96 else if x == 0x91 then 0xac else if x == 0x92 then 0x74 else if x == 0x93 then 0x22 else
    if x == 0x94 then 0xe7 else if x == 0x95 then 0xad else if x == 0x96 then 0x35 else if x == 0x97 then 0x85 else
    if x == 0x98 then 0xe2 else if x == 0x99 then 0xf9 else if x == 0x9a then 0x37 else if x == 0x9b then 0xe8 else
    if x == 0x9c then 0x1c else if x == 0x9d then 0x75 else if x == 0x9e then 0xdf else 0x6e
  }

  function SiA(x: Byte): Byte {
    if x == 0xa0 then 0x47 else if x == 0xa1 then 0xf1 else if x == 0xa2 then 0x1a else if x == 0xa3 then 0x71 else
    if x == 0xa4 then 0x1d else if x == 0xa5 then 0x29 else if x == 0xa6 then 0xc5 else if x == 0xa7 then 0x89 else
    if x == 0xa8 then 0x6f else if x == 0xa9 then 0xb7 else if x == 0xaa then 0x62 else if x == 0xab then 0x0e else
    if x == 0xac then 0xaa else if x == 0xad then 0x18 else if x == 0xae then 0xbe else 0x1b
  }

  function SiB(x: Byte): Byte {
    if x == 0xb0 then 0xfc else if x == 0xb1 then 0x56 else if x == 0xb2 then 0x3e else if x == 0xb3 then 0x4b else
    if x == 0xb4 then 0xc6 else if x == 0xb5 then 0xd2 else if x == 0xb6 then 0x79 else if x == 0xb7 then 0x20 else
    if x == 0xb8 then 0x9a else if x == 0xb9 then 0xdb else if x == 0xba then 0xc0 else if x == 0xbb then 0xfe else
    if x == 0xbc then 0x78 else if x == 0xbd then 0xcd else if x == 0xbe then 0x5a else 0xf4
  }

  function SiC(x: Byte): Byte {
    if x == 0xc0 then 0x1f else if x == 0xc1 then 0xdd else if x == 0xc2 then 0xa8 else if x == 0xc3 then 0x33 else
    if x == 0xc4 then 0x88 else if x == 0xc5 then 0x07 else if x == 0xc6 then 0xc7 else if x == 0xc7 then 0x31 else
    if x == 0xc8 then 0xb1 else if x == 0xc9 then 0x12 else if x == 0xca then 0x10 else if x == 0xcb then 0x59 else
    if x == 0xcc then 0x27 else if x == 0xcd then 0x80 else if x == 0xce then 0xec else 0x5f
  }

  function SiD(x: Byte): Byte {
    if x == 0xd0 then 0x60 else if x == 0xd1 then 0x51 else if x == 0xd2 then 0x7f else if x == 0xd3 then 0xa9 else
    if x == 0xd4 then 0x19 else if x == 0xd5 then 0xb5 else if x == 0xd6 then 0x4a else if x == 0xd7 then 0x0d else
    if x == 0xd8 then 0x2d else if x == 0xd9 then 0xe5 else if x == 0xda then 0x7a else if x == 0xdb then 0x9f else
    if x == 0xdc then 0x93 else if x == 0xdd then 0xc9 else if x == 0xde then 0x9c else 0xef
  }

  function SiE(x: Byte): Byte {
    if x == 0xe0 then 0xa0 else if x == 0xe1 then 0xe0 else if x == 0xe2 then 0x3b else if x == 0xe3 then 0x4d else
    if x == 0xe4 then 0xae else if x == 0xe5 then 0x2a else if x == 0xe6 then 0xf5 else if x == 0xe7 then 0xb0 else
    if x == 0xe8 then 0xc8 else if x == 0xe9 then 0xeb else if x == 0xea then 0xbb else if x == 0xeb then 0x3c else
    if x == 0xec then 0x83 else if x == 0xed then 0x53 else if x == 0xee then 0x99 else 0x61
  }

  function SiF(x: Byte): Byte {
    if x == 0xf0 then 0x17 else if x == 0xf1 then 0x2b else if x == 0xf2 then 0x04 else if x == 0xf3 then 0x7e else
    if x == 0xf4 then 0xba else if x == 0xf5 then 0x77 else if x == 0xf6 then 0xd6 else if x == 0xf7 then 0x26 else
    if x == 0xf8 then 0xe1 else if x == 0xf9 then 0x69 else if x == 0xfa then 0x14 else if x == 0xfb then 0x63 else
    if x == 0xfc then 0x55 else if x == 0xfd then 0x21 else if x == 0xfe then 0x0c else 0x7d
  }

  function Si(x: Byte): Byte {
    if x < 0x10 then Si0(x) else if x < 0x20 then Si1(x) else if x < 0x30 then Si2(x) else if x < 0x40 then Si3(x) else
    if x < 0x50 then Si4(x) else if x < 0x60 then Si5(x) else if x < 0x70 then Si6(x) else if x < 0x80 then Si7(x) else
    if x < 0x90 then Si8(x) else if x < 0xa0 then Si9(x) else if x < 0xb0 then SiA(x) else if x < 0xc0 then SiB(x) else
    if x < 0xd0 then SiC(x) else if x < 0xe0 then SiD(x) else if x < 0xf0 then SiE(x) else SiF(x)
  }

  // ---------------------------------------------------------------- they are inverse to each other

  lemma Back0()
    ensures Si(0x63) == 0x00 && Si(0x7c) == 0x01 && Si(0x77) == 0x02 && Si(0x7b) == 0x03
    ensures Si(0xf2) == 0x04 && Si(0x6b) == 0x05 && Si(0x6f) == 0x06 && Si(0xc5) == 0x07
    ensures Si(0x30) == 0x08 && Si(0x01) == 0x09 && Si(0x67) == 0x0a && Si(0x2b) == 0x0b
    ensures Si(0xfe) == 0x0c && Si(0xd7) == 0x0d && Si(0xab) == 0x0e && Si(0x76) == 0x0f
  {
  }

  lemma Inverse0(x: Byte)
    requires 0x00 <= x <= 0x0f
    ensures Si(S0(x)) == x
  {
    hide Si;
    Back0();
  }

  lemma Back1()
    ensures Si(0xca) == 0x10 && Si(0x82) == 0x11 && Si(0xc9) == 0x12 && Si(0x7d) == 0x13
    ensures Si(0xfa) == 0x14 && Si(0x59) == 0x15 && Si(0x47) == 0x16 && Si(0xf0) == 0x17
    ensures Si(0xad) == 0x18 && Si(0xd4) == 0x19 && Si(0xa2) == 0x1a && Si(0xaf) == 0x1b
    ensures Si(0x9c) == 0x1c && Si(0xa4) == 0x1d && Si(0x72) == 0x1e && Si(0xc0) == 0x1f
  {
  }

  lemma Inverse1(x: Byte)
    requires 0x10 <= x <= 0x1f
    ensures Si(S1(x)) == x
  {
    hide Si;
    Back1();
  }

  lemma Back2()
    ensures Si(0xb7) == 0x20 && Si(0xfd) == 0x21 && Si(0x93) == 0x22 && Si(0x26) == 0x23
    ensures Si(0x36) == 0x24 && Si(0x3f) == 0x25 && Si(0xf7) == 0x26 && Si(0xcc) == 0x27
    ensures Si(0x34) == 0x28 && Si(0xa5) == 0x29 && Si(0xe5) == 0x2a && Si(0xf1) == 0x2b
    ensures Si(0x71) == 0x2c && Si(0xd8) == 0x2d && Si(0x31) == 0x2e && Si(0x15) == 0x2f
  {
  }

  lemma Inverse2(x: Byte)
    requires 0x20 <= x <= 0x2f
    ensures Si(S2(x)) == x
  {
    hide Si;
    Back2();
  }

  lemma Back3()
    ensures Si(0x04) == 0x30 && Si(0xc7) == 0x31 && Si(0x23) == 0x32 && Si(0xc3) == 0x33
    ensures Si(0x18) == 0x34 && Si(0x96) == 0x35 && Si(0x05) == 0x36 && Si(0x9a) == 0x37
    ensures Si(0x07) == 0x38 && Si(0x12) == 0x39 && Si(0x80) == 0x3a && Si(0xe2) == 0x3b
    ensures Si(0xeb) == 0x3c && Si(0x27) == 0x3d && Si(0xb2) == 0x3e && Si(0x75) == 0x3f
  {
  }

  lemma Inverse3(x: Byte)
    requires 0x30 <= x <= 0x3f
    ensures Si(S3(x)) == x
  {
    hide Si;
    Back3();
  }

  lemma Back4()
    ensures Si(0x09) == 0x40 && Si(0x83) == 0x41 && Si(0x2c) == 0x42 && Si(0x1a) == 0x43
    ensures Si(0x1b) == 0x44 && Si(0x6e) == 0x45 && Si(0x5a) == 0x46 && Si(0xa0) == 0x47
    ensures Si(0x52) == 0x48 && Si(0x3b) == 0x49 && Si(0xd6) == 0x4a && Si(0xb3) == 0x4b
    ensures Si(0x29) == 0x4c && Si(0xe3) == 0x4d && Si(0x2f) == 0x4e && Si(0x84) == 0x4f
  {
  }

  lemma Inverse4(x: Byte)
    requires 0x40 <= x <= 0x4f
    ensures Si(S4(x)) == x
  {
    hide Si;
    Back4();
  }

  lemma Back5()
    ensures Si(0x53) == 0x50 && Si(0xd1) == 0x51 && Si(0x00) == 0x52 && Si(0xed) == 0x53
    ensures Si(0x20) == 0x54 && Si(0xfc) == 0x55 && Si(0xb1) == 0x56 && Si(0x5b) == 0x57
    ensures Si(0x6a) == 0x58 && Si(0xcb) == 0x59 && Si(0xbe) == 0x5a && Si(0x39) == 0x5b
    ensures Si(0x4a) == 0x5c && Si(0x4c) == 0x5d && Si(0x58) == 0x5e && Si(0xcf) == 0x5f
  {
  }

  lemma Inverse5(x: Byte)
    requires 0x50 <= x <= 0x5f
    ensures Si(S5(x)) == x
  {
    hide Si;
    Back5();
  }

  lemma Back6()
    ensures Si(0xd0) == 0x60 && Si(0xef) == 0x61 && Si(0xaa) == 0x62 && Si(0xfb) == 0x63
    ensures Si(0x43) == 0x64 && Si(0x4d) == 0x65 && Si(0x33) == 0x66 && Si(0x85) == 0x67
    ensures Si(0x45) == 0x68 && Si(0xf9) == 0x69 && Si(0x02) == 0x6a && Si(0x7f) == 0x6b
    ensures Si(0x50) == 0x6c && Si(0x3c) == 0x6d && Si(0x9f) == 0x6e && Si(0xa8) == 0x6f
  {
  }

  lemma Inverse6(x: Byte)
    requires 0x60 <= x <= 0x6f
    ensures Si(S6(x)) == x
  {
    hide Si;
    Back6();
  }

  lemma Back7()
    ensures Si(0x51) == 0x70 && Si(0xa3) == 0x71 && Si(0x40) == 0x72 && Si(0x8f) == 0x73
    ensures Si(0x92) == 0x74 && Si(0x9d) == 0x75 && Si(0x38) == 0x76 && Si(0xf5) == 0x77
    ensures Si(0xbc) == 0x78 && Si(0xb6) == 0x79 && Si(0xda) == 0x7a && Si(0x21) == 0x7b
    ensures Si(0x10) == 0x7c && Si(0xff) == 0x7d && Si(0xf3) == 0x7e && Si(0xd2) == 0x7f
  {
  }

  lemma Inverse7(x: Byte)
    requires 0x70 <= x <= 0x7f
    ensures Si(S7(x)) == x
  {
    hide Si;
    Back7();
  }

  lemma Back8()
    ensures Si(0xcd) == 0x80 && Si(0x0c) == 0x81 && Si(0x13) == 0x82 && Si(0xec) == 0x83
    ensures Si(0x5f) == 0x84 && Si(0x97) == 0x85 && Si(0x44) == 0x86 && Si(0x17) == 0x87
    ensures Si(0xc4) == 0x88 && Si(0xa7) == 0x89 && Si(0x7e) == 0x8a && Si(0x3d) == 0x8b
    ensures Si(0x64) == 0x8c && Si(0x5d) == 0x8d && Si(0x19) == 0x8e && Si(0x73) == 0x8f
  {
  }

  lemma Inverse8(x: Byte)
    requires 0x80 <= x <= 0x8f
    ensures Si(S8(x)) == x
  {
    hide Si;
    Back8();
  }

  lemma Back9()
    ensures Si(0x60) == 0x90 && Si(0x81) == 0x91 && Si(0x4f) == 0x92 && Si(0xdc) == 0x93
    ensures Si(0x22) == 0x94 && Si(0x2a) == 0x95 && Si(0x90) == 0x96 && Si(0x88) == 0x97
    ensures Si(0x46) == 0x98 && Si(0xee) == 0x99 && Si(0xb8) == 0x9a && Si(0x14) == 0x9b
    ensures Si(0xde) == 0x9c && Si(0x5e) == 0x9d && Si(0x0b) == 0x9e && Si(0xdb) == 0x9f
  {
  }

  lemma Inverse9(x: Byte)
    requires 0x90 <= x <= 0x9f
    ensures Si(S9(x)) == x
  {
    hide Si;
    Back9();
  }

  lemma BackA()
    ensures Si(0xe0) == 0xa0 && Si(0x32) == 0xa1 && Si(0x3a) == 0xa2 && Si(0x0a) == 0xa3
    ensures Si(0x49) == 0xa4 && Si(0x06) == 0xa5 && Si(0x24) == 0xa6 && Si(0x5c) == 0xa7
    ensures Si(0xc2) == 0xa8 && Si(0xd3) == 0xa9 && Si(0xac) == 0xaa && Si(0x62) == 0xab
    ensures Si(0x91) == 0xac && Si(0x95) == 0xad && Si(0xe4) == 0xae && Si(0x79) == 0xaf
  {
  }

  lemma InverseA(x: Byte)
    requires 0xa0 <= x <= 0xaf
    ensures Si(SA(x)) == x
  {
    hide Si;
    BackA();
  }

  lemma BackB()
    ensures Si(0xe7) == 0xb0 && Si(0xc8) == 0xb1 && Si(0x37) == 0xb2 && Si(0x6d) == 0xb3
    ensures Si(0x8d) == 0xb4 && Si(0xd5) == 0xb5 && Si(0x4e) == 0xb6 && Si(0xa9) == 0xb7
    ensures Si(0x6c) == 0xb8 && Si(0x56) == 0xb9 && Si(0xf4) == 0xba && Si(0xea) == 0xbb
    ensures Si(0x65) == 0xbc && Si(0x7a) == 0xbd && Si(0xae) == 0xbe && Si(0x08) == 0xbf
  {
  }

  lemma InverseB(x: Byte)
    requires 0xb0 <= x <= 0xbf
    ensures Si(SB(x)) == x
  {
    hide Si;
    BackB();
  }

  lemma BackC()
    ensures Si(0xba) == 0xc0 && Si(0x78) == 0xc1 && Si(0x25) == 0xc2 && Si(0x2e) == 0xc3
    ensures Si(0x1c) == 0xc4 && Si(0xa6) == 0xc5 && Si(0xb4) == 0xc6 && Si(0xc6) == 0xc7
    ensures Si(0xe8) == 0xc8 && Si(0xdd) == 0xc9 && Si(0x74) == 0xca && Si(0x1f) == 0xcb
    ensures Si(0x4b) == 0xcc && Si(0xbd) == 0xcd && Si(0x8b) == 0xce && Si(0x8a) == 0xcf
  {
  }

  lemma InverseC(x: Byte)
    requires 0xc0 <= x <= 0xcf
    ensures Si(SC(x)) == x
  {
    hide Si;
    BackC();
  }

  lemma BackD()
    ensures Si(0x70) == 0xd0 && Si(0x3e) == 0xd1 && Si(0xb5) == 0xd2 && Si(0x66) == 0xd3
    ensures Si(0x48) == 0xd4 && Si(0x03) == 0xd5 && Si(0xf6) == 0xd6 && Si(0x0e) == 0xd7
    ensures Si(0x61) == 0xd8 && Si(0x35) == 0xd9 && Si(0x57) == 0xda && Si(0xb9) == 0xdb
    ensures Si(0x86) == 0xdc && Si(0xc1) == 0xdd && Si(0x1d) == 0xde && Si(0x9e) == 0xdf
  {
  }

  lemma InverseD(x: Byte)
    requires 0xd0 <= x <= 0xdf
    ensures Si(SD(x)) == x
  {
    hide Si;
    BackD();
  }

  lemma BackE()
    ensures Si(0xe1) == 0xe0 && Si(0xf8) == 0xe1 && Si(0x98) == 0xe2 && Si(0x11) == 0xe3
    ensures Si(0x69) == 0xe4 && Si(0xd9) == 0xe5 && Si(0x8e) == 0xe6 && Si(0x94) == 0xe7
    ensures Si(0x9b) == 0xe8 && Si(0x1e) == 0xe9 && Si(0x87) == 0xea && Si(0xe9) == 0xeb
    ensures Si(0xce) == 0xec && Si(0x55) == 0xed && Si(0x28) == 0xee && Si(0xdf) == 0xef
  {
  }

  lemma InverseE(x: Byte)
    requires 0xe0 <= x <= 0xef
    ensures Si(SE(x)) == x
  {
    hide Si;
    BackE();
  }

  lemma BackF()
    ensures Si(0x8c) == 0xf0 && Si(0xa1) == 0xf1 && Si(0x89) == 0xf2 && Si(0x0d) == 0xf3
    ensures Si(0xbf) == 0xf4 && Si(0xe6) == 0xf5 && Si(0x42) == 0xf6 && Si(0x68) == 0xf7
    ensures Si(0x41) == 0xf8 && Si(0x99) == 0xf9 && Si(0x2d) == 0xfa && Si(0x0f) == 0xfb
    ensures Si(0xb0) == 0xfc && Si(0x54) == 0xfd && Si(0xbb) == 0xfe && Si(0x16) == 0xff
  {
  }

  lemma InverseF(x: Byte)
    requires 0xf0 <= x <= 0xff
    ensures Si(SF(x)) == x
  {
    hide Si;
    BackF();
  }

  lemma SiOfS(x: Byte)
    ensures Si(S(x)) == x
  {
    hide Si, S0, S1, S2, S3, S4, S5, S6, S7, S8, S9, SA, SB, SC, SD, SE, SF;
    if x <= 0x0f {
      Inverse0(x);
    } else if x <= 0x1f {
      Inverse1(x);
    } else if x <= 0x2f {
      Inverse2(x);
    } else if x <= 0x3f {
      Inverse3(x);
    } else if x <= 0x4f {
      Inverse4(x);
    } else if x <= 0x5f {
      Inverse5(x);
    } else if x <= 0x6f {
      Inverse6(x);
    } else if x <= 0x7f {
      Inverse7(x);
    } else if x <= 0x8f {
      Inverse8(x);
    } else if x <= 0x9f {
      Inverse9(x);
    } else if x <= 0xaf {
      InverseA(x);
    } else if x <= 0xbf {
      InverseB(x);
    } else if x <= 0xcf {
      InverseC(x);
    } else if x <= 0xdf {
      InverseD(x);
    } else if x <= 0xef {
      InverseE(x);
    } else {
      InverseF(x);
    }
  }
}
