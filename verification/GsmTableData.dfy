/** The conversion tables of home-item/util.c, entry by entry.

    A C array is a function of its index here, in blocks of sixteen entries. The
    last arm of a block is never read: every table is used only up to its length,
    and GsmTables wraps each one in a sequence of that length. */
module GsmTableData {
  const GUND := 0xFFFF

  // struct codepoint
  datatype Codepoint = Cp(from: nat, to: nat)

  // GSM to Unicode, default alphabet
  function DefGsm(i: int): nat {
    if i < 16 then DefGsm0(i)
    else if i < 32 then DefGsm1(i)
    else if i < 48 then DefGsm2(i)
    else if i < 64 then DefGsm3(i)
    else if i < 80 then DefGsm4(i)
    else if i < 96 then DefGsm5(i)
    else if i < 112 then DefGsm6(i)
    else DefGsm7(i)
  }

  function DefGsm0(i: int): nat {
    match i
    case 0 => 0x0040 case 1 => 0x00A3 case 2 => 0x0024 case 3 => 0x00A5 case 4 => 0x00E8 case 5 => 0x00E9 case 6 => 0x00F9 case 7 => 0x00EC
    case 8 => 0x00F2 case 9 => 0x00C7 case 10 => 0x000A case 11 => 0x00D8 case 12 => 0x00F8 case 13 => 0x000D case 14 => 0x00C5 case 15 => 0x00E5
    case _ => GUND
  }

  function DefGsm1(i: int): nat {
    match i
    case 16 => 0x0394 case 17 => 0x005F case 18 => 0x03A6 case 19 => 0x0393 case 20 => 0x039B case 21 => 0x03A9 case 22 => 0x03A0 case 23 => 0x03A8
    case 24 => 0x03A3 case 25 => 0x0398 case 26 => 0x039E case 27 => 0x00A0 case 28 => 0x00C6 case 29 => 0x00E6 case 30 => 0x00DF case 31 => 0x00C9
    case _ => GUND
  }

  function DefGsm2(i: int): nat {
    match i
    case 32 => 0x0020 case 33 => 0x0021 case 34 => 0x0022 case 35 => 0x0023 case 36 => 0x00A4 case 37 => 0x0025 case 38 => 0x0026 case 39 => 0x0027
    case 40 => 0x0028 case 41 => 0x0029 case 42 => 0x002A case 43 => 0x002B case 44 => 0x002C case 45 => 0x002D case 46 => 0x002E case 47 => 0x002F
    case _ => GUND
  }

  function DefGsm3(i: int): nat {
    match i
    case 48 => 0x0030 case 49 => 0x0031 case 50 => 0x0032 case 51 => 0x0033 case 52 => 0x0034 case 53 => 0x0035 case 54 => 0x0036 case 55 => 0x0037
    case 56 => 0x0038 case 57 => 0x0039 case 58 => 0x003A case 59 => 0x003B case 60 => 0x003C case 61 => 0x003D case 62 => 0x003E case 63 => 0x003F
    case _ => GUND
  }

  function DefGsm4(i: int): nat {
    match i
    case 64 => 0x00A1 case 65 => 0x0041 case 66 => 0x0042 case 67 => 0x0043 case 68 => 0x0044 case 69 => 0x0045 case 70 => 0x0046 case 71 => 0x0047
    case 72 => 0x0048 case 73 => 0x0049 case 74 => 0x004A case 75 => 0x004B case 76 => 0x004C case 77 => 0x004D case 78 => 0x004E case 79 => 0x004F
    case _ => GUND
  }

  function DefGsm5(i: int): nat {
    match i
    case 80 => 0x0050 case 81 => 0x0051 case 82 => 0x0052 case 83 => 0x0053 case 84 => 0x0054 case 85 => 0x0055 case 86 => 0x0056 case 87 => 0x0057
    case 88 => 0x0058 case 89 => 0x0059 case 90 => 0x005A case 91 => 0x00C4 case 92 => 0x00D6 case 93 => 0x00D1 case 94 => 0x00DC case 95 => 0x00A7
    case _ => GUND
  }

  function DefGsm6(i: int): nat {
    match i
    case 96 => 0x00BF case 97 => 0x0061 case 98 => 0x0062 case 99 => 0x0063 case 100 => 0x0064 case 101 => 0x0065 case 102 => 0x0066 case 103 => 0x0067
    case 104 => 0x0068 case 105 => 0x0069 case 106 => 0x006A case 107 => 0x006B case 108 => 0x006C case 109 => 0x006D case 110 => 0x006E case 111 => 0x006F
    case _ => GUND
  }

  function DefGsm7(i: int): nat {
    match i
    case 112 => 0x0070 case 113 => 0x0071 case 114 => 0x0072 case 115 => 0x0073 case 116 => 0x0074 case 117 => 0x0075 case 118 => 0x0076 case 119 => 0x0077
    case 120 => 0x0078 case 121 => 0x0079 case 122 => 0x007A case 123 => 0x00E4 case 124 => 0x00F6 case 125 => 0x00F1 case 126 => 0x00FC case 127 => 0x00E0
    case _ => GUND
  }

  // GSM to Unicode, Turkish locking shift
  function TurGsm(i: int): nat {
    if i < 16 then TurGsm0(i)
    else if i < 32 then TurGsm1(i)
    else if i < 48 then TurGsm2(i)
    else if i < 64 then TurGsm3(i)
    else if i < 80 then TurGsm4(i)
    else if i < 96 then TurGsm5(i)
    else if i < 112 then TurGsm6(i)
    else TurGsm7(i)
  }

  function TurGsm0(i: int): nat {
    match i
    case 0 => 0x0040 case 1 => 0x00A3 case 2 => 0x0024 case 3 => 0x00A5 case 4 => 0x20AC case 5 => 0x00E9 case 6 => 0x00F9 case 7 => 0x0131
    case 8 => 0x00F2 case 9 => 0x00C7 case 10 => 0x000A case 11 => 0x011E case 12 => 0x011F case 13 => 0x000D case 14 => 0x00C5 case 15 => 0x00E5
    case _ => GUND
  }

  function TurGsm1(i: int): nat {
    match i
    case 16 => 0x0394 case 17 => 0x005F case 18 => 0x03A6 case 19 => 0x0393 case 20 => 0x039B case 21 => 0x03A9 case 22 => 0x03A0 case 23 => 0x03A8
    case 24 => 0x03A3 case 25 => 0x0398 case 26 => 0x039E case 27 => 0x00A0 case 28 => 0x015E case 29 => 0x015F case 30 => 0x00DF case 31 => 0x00C9
    case _ => GUND
  }

  function TurGsm2(i: int): nat {
    match i
    case 32 => 0x0020 case 33 => 0x0021 case 34 => 0x0022 case 35 => 0x0023 case 36 => 0x00A4 case 37 => 0x0025 case 38 => 0x0026 case 39 => 0x0027
    case 40 => 0x0028 case 41 => 0x0029 case 42 => 0x002A case 43 => 0x002B case 44 => 0x002C case 45 => 0x002D case 46 => 0x002E case 47 => 0x002F
    case _ => GUND
  }

  function TurGsm3(i: int): nat {
    match i
    case 48 => 0x0030 case 49 => 0x0031 case 50 => 0x0032 case 51 => 0x0033 case 52 => 0x0034 case 53 => 0x0035 case 54 => 0x0036 case 55 => 0x0037
    case 56 => 0x0038 case 57 => 0x0039 case 58 => 0x003A case 59 => 0x003B case 60 => 0x003C case 61 => 0x003D case 62 => 0x003E case 63 => 0x003F
    case _ => GUND
  }

  function TurGsm4(i: int): nat {
    match i
    case 64 => 0x0130 case 65 => 0x0041 case 66 => 0x0042 case 67 => 0x0043 case 68 => 0x0044 case 69 => 0x0045 case 70 => 0x0046 case 71 => 0x0047
    case 72 => 0x0048 case 73 => 0x0049 case 74 => 0x004A case 75 => 0x004B case 76 => 0x004C case 77 => 0x004D case 78 => 0x004E case 79 => 0x004F
    case _ => GUND
  }

  function TurGsm5(i: int): nat {
    match i
    case 80 => 0x0050 case 81 => 0x0051 case 82 => 0x0052 case 83 => 0x0053 case 84 => 0x0054 case 85 => 0x0055 case 86 => 0x0056 case 87 => 0x0057
    case 88 => 0x0058 case 89 => 0x0059 case 90 => 0x005A case 91 => 0x00C4 case 92 => 0x00D6 case 93 => 0x00D1 case 94 => 0x00DC case 95 => 0x00A7
    case _ => GUND
  }

  function TurGsm6(i: int): nat {
    match i
    case 96 => 0x00E7 case 97 => 0x0061 case 98 => 0x0062 case 99 => 0x0063 case 100 => 0x0064 case 101 => 0x0065 case 102 => 0x0066 case 103 => 0x0067
    case 104 => 0x0068 case 105 => 0x0069 case 106 => 0x006A case 107 => 0x006B case 108 => 0x006C case 109 => 0x006D case 110 => 0x006E case 111 => 0x006F
    case _ => GUND
  }

  function TurGsm7(i: int): nat {
    match i
    case 112 => 0x0070 case 113 => 0x0071 case 114 => 0x0072 case 115 => 0x0073 case 116 => 0x0074 case 117 => 0x0075 case 118 => 0x0076 case 119 => 0x0077
    case 120 => 0x0078 case 121 => 0x0079 case 122 => 0x007A case 123 => 0x00E4 case 124 => 0x00F6 case 125 => 0x00F1 case 126 => 0x00FC case 127 => 0x00E0
    case _ => GUND
  }

  // GSM to Unicode, Portuguese locking shift
  function PorGsm(i: int): nat {
    if i < 16 then PorGsm0(i)
    else if i < 32 then PorGsm1(i)
    else if i < 48 then PorGsm2(i)
    else if i < 64 then PorGsm3(i)
    else if i < 80 then PorGsm4(i)
    else if i < 96 then PorGsm5(i)
    else if i < 112 then PorGsm6(i)
    else PorGsm7(i)
  }

  function PorGsm0(i: int): nat {
    match i
    case 0 => 0x0040 case 1 => 0x00A3 case 2 => 0x0024 case 3 => 0x00A5 case 4 => 0x00EA case 5 => 0x00E9 case 6 => 0x00FA case 7 => 0x00ED
    case 8 => 0x00F3 case 9 => 0x00E7 case 10 => 0x000A case 11 => 0x00D4 case 12 => 0x00F4 case 13 => 0x000D case 14 => 0x00C1 case 15 => 0x00E1
    case _ => GUND
  }

  function PorGsm1(i: int): nat {
    match i
    case 16 => 0x0394 case 17 => 0x005F case 18 => 0x00AA case 19 => 0x00C7 case 20 => 0x00C0 case 21 => 0x221E case 22 => 0x005E case 23 => 0x005C
    case 24 => 0x20AC case 25 => 0x00D3 case 26 => 0x007C case 27 => 0x00A0 case 28 => 0x00C2 case 29 => 0x00E2 case 30 => 0x00CA case 31 => 0x00C9
    case _ => GUND
  }

  function PorGsm2(i: int): nat {
    match i
    case 32 => 0x0020 case 33 => 0x0021 case 34 => 0x0022 case 35 => 0x0023 case 36 => 0x00BA case 37 => 0x0025 case 38 => 0x0026 case 39 => 0x0027
    case 40 => 0x0028 case 41 => 0x0029 case 42 => 0x002A case 43 => 0x002B case 44 => 0x002C case 45 => 0x002D case 46 => 0x002E case 47 => 0x002F
    case _ => GUND
  }

  function PorGsm3(i: int): nat {
    match i
    case 48 => 0x0030 case 49 => 0x0031 case 50 => 0x0032 case 51 => 0x0033 case 52 => 0x0034 case 53 => 0x0035 case 54 => 0x0036 case 55 => 0x0037
    case 56 => 0x0038 case 57 => 0x0039 case 58 => 0x003A case 59 => 0x003B case 60 => 0x003C case 61 => 0x003D case 62 => 0x003E case 63 => 0x003F
    case _ => GUND
  }

  function PorGsm4(i: int): nat {
    match i
    case 64 => 0x00CD case 65 => 0x0041 case 66 => 0x0042 case 67 => 0x0043 case 68 => 0x0044 case 69 => 0x0045 case 70 => 0x0046 case 71 => 0x0047
    case 72 => 0x0048 case 73 => 0x0049 case 74 => 0x004A case 75 => 0x004B case 76 => 0x004C case 77 => 0x004D case 78 => 0x004E case 79 => 0x004F
    case _ => GUND
  }

  function PorGsm5(i: int): nat {
    match i
    case 80 => 0x0050 case 81 => 0x0051 case 82 => 0x0052 case 83 => 0x0053 case 84 => 0x0054 case 85 => 0x0055 case 86 => 0x0056 case 87 => 0x0057
    case 88 => 0x0058 case 89 => 0x0059 case 90 => 0x005A case 91 => 0x00C3 case 92 => 0x00D5 case 93 => 0x00DA case 94 => 0x00DC case 95 => 0x00A7
    case _ => GUND
  }

  function PorGsm6(i: int): nat {
    match i
    case 96 => 0x007E case 97 => 0x0061 case 98 => 0x0062 case 99 => 0x0063 case 100 => 0x0064 case 101 => 0x0065 case 102 => 0x0066 case 103 => 0x0067
    case 104 => 0x0068 case 105 => 0x0069 case 106 => 0x006A case 107 => 0x006B case 108 => 0x006C case 109 => 0x006D case 110 => 0x006E case 111 => 0x006F
    case _ => GUND
  }

  function PorGsm7(i: int): nat {
    match i
    case 112 => 0x0070 case 113 => 0x0071 case 114 => 0x0072 case 115 => 0x0073 case 116 => 0x0074 case 117 => 0x0075 case 118 => 0x0076 case 119 => 0x0077
    case 120 => 0x0078 case 121 => 0x0079 case 122 => 0x007A case 123 => 0x00E3 case 124 => 0x00F5 case 125 => 0x0060 case 126 => 0x00FC case 127 => 0x00E0
    case _ => GUND
  }

  // Unicode to GSM, default alphabet (U+00A0 is written as a space)
  function DefUnicode(i: int): Codepoint {
    if i < 16 then DefUnicode0(i)
    else if i < 32 then DefUnicode1(i)
    else if i < 48 then DefUnicode2(i)
    else if i < 64 then DefUnicode3(i)
    else if i < 80 then DefUnicode4(i)
    else if i < 96 then DefUnicode5(i)
    else if i < 112 then DefUnicode6(i)
    else DefUnicode7(i)
  }

  function DefUnicode0(i: int): Codepoint {
    match i
    case 0 => Cp(0x000A, 0x0A) case 1 => Cp(0x000D, 0x0D) case 2 => Cp(0x0020, 0x20) case 3 => Cp(0x0021, 0x21)
    case 4 => Cp(0x0022, 0x22) case 5 => Cp(0x0023, 0x23) case 6 => Cp(0x0024, 0x02) case 7 => Cp(0x0025, 0x25)
    case 8 => Cp(0x0026, 0x26) case 9 => Cp(0x0027, 0x27) case 10 => Cp(0x0028, 0x28) case 11 => Cp(0x0029, 0x29)
    case 12 => Cp(0x002A, 0x2A) case 13 => Cp(0x002B, 0x2B) case 14 => Cp(0x002C, 0x2C) case 15 => Cp(0x002D, 0x2D)
    case _ => Cp(GUND, GUND)
  }

  function DefUnicode1(i: int): Codepoint {
    match i
    case 16 => Cp(0x002E, 0x2E) case 17 => Cp(0x002F, 0x2F) case 18 => Cp(0x0030, 0x30) case 19 => Cp(0x0031, 0x31)
    case 20 => Cp(0x0032, 0x32) case 21 => Cp(0x0033, 0x33) case 22 => Cp(0x0034, 0x34) case 23 => Cp(0x0035, 0x35)
    case 24 => Cp(0x0036, 0x36) case 25 => Cp(0x0037, 0x37) case 26 => Cp(0x0038, 0x38) case 27 => Cp(0x0039, 0x39)
    case 28 => Cp(0x003A, 0x3A) case 29 => Cp(0x003B, 0x3B) case 30 => Cp(0x003C, 0x3C) case 31 => Cp(0x003D, 0x3D)
    case _ => Cp(GUND, GUND)
  }

  function DefUnicode2(i: int): Codepoint {
    match i
    case 32 => Cp(0x003E, 0x3E) case 33 => Cp(0x003F, 0x3F) case 34 => Cp(0x0040, 0x00) case 35 => Cp(0x0041, 0x41)
    case 36 => Cp(0x0042, 0x42) case 37 => Cp(0x0043, 0x43) case 38 => Cp(0x0044, 0x44) case 39 => Cp(0x0045, 0x45)
    case 40 => Cp(0x0046, 0x46) case 41 => Cp(0x0047, 0x47) case 42 => Cp(0x0048, 0x48) case 43 => Cp(0x0049, 0x49)
    case 44 => Cp(0x004A, 0x4A) case 45 => Cp(0x004B, 0x4B) case 46 => Cp(0x004C, 0x4C) case 47 => Cp(0x004D, 0x4D)
    case _ => Cp(GUND, GUND)
  }

  function DefUnicode3(i: int): Codepoint {
    match i
    case 48 => Cp(0x004E, 0x4E) case 49 => Cp(0x004F, 0x4F) case 50 => Cp(0x0050, 0x50) case 51 => Cp(0x0051, 0x51)
    case 52 => Cp(0x0052, 0x52) case 53 => Cp(0x0053, 0x53) case 54 => Cp(0x0054, 0x54) case 55 => Cp(0x0055, 0x55)
    case 56 => Cp(0x0056, 0x56) case 57 => Cp(0x0057, 0x57) case 58 => Cp(0x0058, 0x58) case 59 => Cp(0x0059, 0x59)
    case 60 => Cp(0x005A, 0x5A) case 61 => Cp(0x005F, 0x11) case 62 => Cp(0x0061, 0x61) case 63 => Cp(0x0062, 0x62)
    case _ => Cp(GUND, GUND)
  }

  function DefUnicode4(i: int): Codepoint {
    match i
    case 64 => Cp(0x0063, 0x63) case 65 => Cp(0x0064, 0x64) case 66 => Cp(0x0065, 0x65) case 67 => Cp(0x0066, 0x66)
    case 68 => Cp(0x0067, 0x67) case 69 => Cp(0x0068, 0x68) case 70 => Cp(0x0069, 0x69) case 71 => Cp(0x006A, 0x6A)
    case 72 => Cp(0x006B, 0x6B) case 73 => Cp(0x006C, 0x6C) case 74 => Cp(0x006D, 0x6D) case 75 => Cp(0x006E, 0x6E)
    case 76 => Cp(0x006F, 0x6F) case 77 => Cp(0x0070, 0x70) case 78 => Cp(0x0071, 0x71) case 79 => Cp(0x0072, 0x72)
    case _ => Cp(GUND, GUND)
  }

  function DefUnicode5(i: int): Codepoint {
    match i
    case 80 => Cp(0x0073, 0x73) case 81 => Cp(0x0074, 0x74) case 82 => Cp(0x0075, 0x75) case 83 => Cp(0x0076, 0x76)
    case 84 => Cp(0x0077, 0x77) case 85 => Cp(0x0078, 0x78) case 86 => Cp(0x0079, 0x79) case 87 => Cp(0x007A, 0x7A)
    case 88 => Cp(0x00A0, 0x20) case 89 => Cp(0x00A1, 0x40) case 90 => Cp(0x00A3, 0x01) case 91 => Cp(0x00A4, 0x24)
    case 92 => Cp(0x00A5, 0x03) case 93 => Cp(0x00A7, 0x5F) case 94 => Cp(0x00BF, 0x60) case 95 => Cp(0x00C4, 0x5B)
    case _ => Cp(GUND, GUND)
  }

  function DefUnicode6(i: int): Codepoint {
    match i
    case 96 => Cp(0x00C5, 0x0E) case 97 => Cp(0x00C6, 0x1C) case 98 => Cp(0x00C7, 0x09) case 99 => Cp(0x00C9, 0x1F)
    case 100 => Cp(0x00D1, 0x5D) case 101 => Cp(0x00D6, 0x5C) case 102 => Cp(0x00D8, 0x0B) case 103 => Cp(0x00DC, 0x5E)
    case 104 => Cp(0x00DF, 0x1E) case 105 => Cp(0x00E0, 0x7F) case 106 => Cp(0x00E4, 0x7B) case 107 => Cp(0x00E5, 0x0F)
    case 108 => Cp(0x00E6, 0x1D) case 109 => Cp(0x00E8, 0x04) case 110 => Cp(0x00E9, 0x05) case 111 => Cp(0x00EC, 0x07)
    case _ => Cp(GUND, GUND)
  }

  function DefUnicode7(i: int): Codepoint {
    match i
    case 112 => Cp(0x00F1, 0x7D) case 113 => Cp(0x00F2, 0x08) case 114 => Cp(0x00F6, 0x7C) case 115 => Cp(0x00F8, 0x0C)
    case 116 => Cp(0x00F9, 0x06) case 117 => Cp(0x00FC, 0x7E) case 118 => Cp(0x0393, 0x13) case 119 => Cp(0x0394, 0x10)
    case 120 => Cp(0x0398, 0x19) case 121 => Cp(0x039B, 0x14) case 122 => Cp(0x039E, 0x1A) case 123 => Cp(0x03A0, 0x16)
    case 124 => Cp(0x03A3, 0x18) case 125 => Cp(0x03A6, 0x12) case 126 => Cp(0x03A8, 0x17) case 127 => Cp(0x03A9, 0x15)
    case _ => Cp(GUND, GUND)
  }

  // Unicode to GSM, Turkish locking shift
  function TurUnicode(i: int): Codepoint {
    if i < 16 then TurUnicode0(i)
    else if i < 32 then TurUnicode1(i)
    else if i < 48 then TurUnicode2(i)
    else if i < 64 then TurUnicode3(i)
    else if i < 80 then TurUnicode4(i)
    else if i < 96 then TurUnicode5(i)
    else if i < 112 then TurUnicode6(i)
    else TurUnicode7(i)
  }

  function TurUnicode0(i: int): Codepoint {
    match i
    case 0 => Cp(0x000A, 0x0A) case 1 => Cp(0x000D, 0x0D) case 2 => Cp(0x0020, 0x20) case 3 => Cp(0x0021, 0x21)
    case 4 => Cp(0x0022, 0x22) case 5 => Cp(0x0023, 0x23) case 6 => Cp(0x0024, 0x02) case 7 => Cp(0x0025, 0x25)
    case 8 => Cp(0x0026, 0x26) case 9 => Cp(0x0027, 0x27) case 10 => Cp(0x0028, 0x28) case 11 => Cp(0x0029, 0x29)
    case 12 => Cp(0x002A, 0x2A) case 13 => Cp(0x002B, 0x2B) case 14 => Cp(0x002C, 0x2C) case 15 => Cp(0x002D, 0x2D)
    case _ => Cp(GUND, GUND)
  }

  function TurUnicode1(i: int): Codepoint {
    match i
    case 16 => Cp(0x002E, 0x2E) case 17 => Cp(0x002F, 0x2F) case 18 => Cp(0x0030, 0x30) case 19 => Cp(0x0031, 0x31)
    case 20 => Cp(0x0032, 0x32) case 21 => Cp(0x0033, 0x33) case 22 => Cp(0x0034, 0x34) case 23 => Cp(0x0035, 0x35)
    case 24 => Cp(0x0036, 0x36) case 25 => Cp(0x0037, 0x37) case 26 => Cp(0x0038, 0x38) case 27 => Cp(0x0039, 0x39)
    case 28 => Cp(0x003A, 0x3A) case 29 => Cp(0x003B, 0x3B) case 30 => Cp(0x003C, 0x3C) case 31 => Cp(0x003D, 0x3D)
    case _ => Cp(GUND, GUND)
  }

  function TurUnicode2(i: int): Codepoint {
    match i
    case 32 => Cp(0x003E, 0x3E) case 33 => Cp(0x003F, 0x3F) case 34 => Cp(0x0040, 0x00) case 35 => Cp(0x0041, 0x41)
    case 36 => Cp(0x0042, 0x42) case 37 => Cp(0x0043, 0x43) case 38 => Cp(0x0044, 0x44) case 39 => Cp(0x0045, 0x45)
    case 40 => Cp(0x0046, 0x46) case 41 => Cp(0x0047, 0x47) case 42 => Cp(0x0048, 0x48) case 43 => Cp(0x0049, 0x49)
    case 44 => Cp(0x004A, 0x4A) case 45 => Cp(0x004B, 0x4B) case 46 => Cp(0x004C, 0x4C) case 47 => Cp(0x004D, 0x4D)
    case _ => Cp(GUND, GUND)
  }

  function TurUnicode3(i: int): Codepoint {
    match i
    case 48 => Cp(0x004E, 0x4E) case 49 => Cp(0x004F, 0x4F) case 50 => Cp(0x0050, 0x50) case 51 => Cp(0x0051, 0x51)
    case 52 => Cp(0x0052, 0x52) case 53 => Cp(0x0053, 0x53) case 54 => Cp(0x0054, 0x54) case 55 => Cp(0x0055, 0x55)
    case 56 => Cp(0x0056, 0x56) case 57 => Cp(0x0057, 0x57) case 58 => Cp(0x0058, 0x58) case 59 => Cp(0x0059, 0x59)
    case 60 => Cp(0x005A, 0x5A) case 61 => Cp(0x005F, 0x11) case 62 => Cp(0x0061, 0x61) case 63 => Cp(0x0062, 0x62)
    case _ => Cp(GUND, GUND)
  }

  function TurUnicode4(i: int): Codepoint {
    match i
    case 64 => Cp(0x0063, 0x63) case 65 => Cp(0x0064, 0x64) case 66 => Cp(0x0065, 0x65) case 67 => Cp(0x0066, 0x66)
    case 68 => Cp(0x0067, 0x67) case 69 => Cp(0x0068, 0x68) case 70 => Cp(0x0069, 0x69) case 71 => Cp(0x006A, 0x6A)
    case 72 => Cp(0x006B, 0x6B) case 73 => Cp(0x006C, 0x6C) case 74 => Cp(0x006D, 0x6D) case 75 => Cp(0x006E, 0x6E)
    case 76 => Cp(0x006F, 0x6F) case 77 => Cp(0x0070, 0x70) case 78 => Cp(0x0071, 0x71) case 79 => Cp(0x0072, 0x72)
    case _ => Cp(GUND, GUND)
  }

  function TurUnicode5(i: int): Codepoint {
    match i
    case 80 => Cp(0x0073, 0x73) case 81 => Cp(0x0074, 0x74) case 82 => Cp(0x0075, 0x75) case 83 => Cp(0x0076, 0x76)
    case 84 => Cp(0x0077, 0x77) case 85 => Cp(0x0078, 0x78) case 86 => Cp(0x0079, 0x79) case 87 => Cp(0x007A, 0x7A)
    case 88 => Cp(0x00A0, 0x20) case 89 => Cp(0x00A3, 0x01) case 90 => Cp(0x00A4, 0x24) case 91 => Cp(0x00A5, 0x03)
    case 92 => Cp(0x00A7, 0x5F) case 93 => Cp(0x00C4, 0x5B) case 94 => Cp(0x00C5, 0x0E) case 95 => Cp(0x00C7, 0x09)
    case _ => Cp(GUND, GUND)
  }

  function TurUnicode6(i: int): Codepoint {
    match i
    case 96 => Cp(0x00C9, 0x1F) case 97 => Cp(0x00D1, 0x5D) case 98 => Cp(0x00D6, 0x5C) case 99 => Cp(0x00DC, 0x5E)
    case 100 => Cp(0x00DF, 0x1E) case 101 => Cp(0x00E0, 0x7F) case 102 => Cp(0x00E4, 0x7B) case 103 => Cp(0x00E5, 0x0F)
    case 104 => Cp(0x00E7, 0x60) case 105 => Cp(0x00E9, 0x05) case 106 => Cp(0x00F1, 0x7D) case 107 => Cp(0x00F2, 0x08)
    case 108 => Cp(0x00F6, 0x7C) case 109 => Cp(0x00F9, 0x06) case 110 => Cp(0x00FC, 0x7E) case 111 => Cp(0x011E, 0x0B)
    case _ => Cp(GUND, GUND)
  }

  function TurUnicode7(i: int): Codepoint {
    match i
    case 112 => Cp(0x011F, 0x0C) case 113 => Cp(0x0130, 0x40) case 114 => Cp(0x0131, 0x07) case 115 => Cp(0x015E, 0x1C)
    case 116 => Cp(0x015F, 0x1D) case 117 => Cp(0x0393, 0x13) case 118 => Cp(0x0394, 0x10) case 119 => Cp(0x0398, 0x19)
    case 120 => Cp(0x039B, 0x14) case 121 => Cp(0x039E, 0x1A) case 122 => Cp(0x03A0, 0x16) case 123 => Cp(0x03A3, 0x18)
    case 124 => Cp(0x03A6, 0x12) case 125 => Cp(0x03A8, 0x17) case 126 => Cp(0x03A9, 0x15) case 127 => Cp(0x20AC, 0x04)
    case _ => Cp(GUND, GUND)
  }

  // Unicode to GSM, Portuguese locking shift
  function PorUnicode(i: int): Codepoint {
    if i < 16 then PorUnicode0(i)
    else if i < 32 then PorUnicode1(i)
    else if i < 48 then PorUnicode2(i)
    else if i < 64 then PorUnicode3(i)
    else if i < 80 then PorUnicode4(i)
    else if i < 96 then PorUnicode5(i)
    else if i < 112 then PorUnicode6(i)
    else PorUnicode7(i)
  }

  function PorUnicode0(i: int): Codepoint {
    match i
    case 0 => Cp(0x000A, 0x0A) case 1 => Cp(0x000D, 0x0D) case 2 => Cp(0x0020, 0x20) case 3 => Cp(0x0021, 0x21)
    case 4 => Cp(0x0022, 0x22) case 5 => Cp(0x0023, 0x23) case 6 => Cp(0x0024, 0x02) case 7 => Cp(0x0025, 0x25)
    case 8 => Cp(0x0026, 0x26) case 9 => Cp(0x0027, 0x27) case 10 => Cp(0x0028, 0x28) case 11 => Cp(0x0029, 0x29)
    case 12 => Cp(0x002A, 0x2A) case 13 => Cp(0x002B, 0x2B) case 14 => Cp(0x002C, 0x2C) case 15 => Cp(0x002D, 0x2D)
    case _ => Cp(GUND, GUND)
  }

  function PorUnicode1(i: int): Codepoint {
    match i
    case 16 => Cp(0x002E, 0x2E) case 17 => Cp(0x002F, 0x2F) case 18 => Cp(0x0030, 0x30) case 19 => Cp(0x0031, 0x31)
    case 20 => Cp(0x0032, 0x32) case 21 => Cp(0x0033, 0x33) case 22 => Cp(0x0034, 0x34) case 23 => Cp(0x0035, 0x35)
    case 24 => Cp(0x0036, 0x36) case 25 => Cp(0x0037, 0x37) case 26 => Cp(0x0038, 0x38) case 27 => Cp(0x0039, 0x39)
    case 28 => Cp(0x003A, 0x3A) case 29 => Cp(0x003B, 0x3B) case 30 => Cp(0x003C, 0x3C) case 31 => Cp(0x003D, 0x3D)
    case _ => Cp(GUND, GUND)
  }

  function PorUnicode2(i: int): Codepoint {
    match i
    case 32 => Cp(0x003E, 0x3E) case 33 => Cp(0x003F, 0x3F) case 34 => Cp(0x0040, 0x00) case 35 => Cp(0x0041, 0x41)
    case 36 => Cp(0x0042, 0x42) case 37 => Cp(0x0043, 0x43) case 38 => Cp(0x0044, 0x44) case 39 => Cp(0x0045, 0x45)
    case 40 => Cp(0x0046, 0x46) case 41 => Cp(0x0047, 0x47) case 42 => Cp(0x0048, 0x48) case 43 => Cp(0x0049, 0x49)
    case 44 => Cp(0x004A, 0x4A) case 45 => Cp(0x004B, 0x4B) case 46 => Cp(0x004C, 0x4C) case 47 => Cp(0x004D, 0x4D)
    case _ => Cp(GUND, GUND)
  }

  function PorUnicode3(i: int): Codepoint {
    match i
    case 48 => Cp(0x004E, 0x4E) case 49 => Cp(0x004F, 0x4F) case 50 => Cp(0x0050, 0x50) case 51 => Cp(0x0051, 0x51)
    case 52 => Cp(0x0052, 0x52) case 53 => Cp(0x0053, 0x53) case 54 => Cp(0x0054, 0x54) case 55 => Cp(0x0055, 0x55)
    case 56 => Cp(0x0056, 0x56) case 57 => Cp(0x0057, 0x57) case 58 => Cp(0x0058, 0x58) case 59 => Cp(0x0059, 0x59)
    case 60 => Cp(0x005A, 0x5A) case 61 => Cp(0x005C, 0x17) case 62 => Cp(0x005E, 0x16) case 63 => Cp(0x005F, 0x11)
    case _ => Cp(GUND, GUND)
  }

  function PorUnicode4(i: int): Codepoint {
    match i
    case 64 => Cp(0x0060, 0x7D) case 65 => Cp(0x0061, 0x61) case 66 => Cp(0x0062, 0x62) case 67 => Cp(0x0063, 0x63)
    case 68 => Cp(0x0064, 0x64) case 69 => Cp(0x0065, 0x65) case 70 => Cp(0x0066, 0x66) case 71 => Cp(0x0067, 0x67)
    case 72 => Cp(0x0068, 0x68) case 73 => Cp(0x0069, 0x69) case 74 => Cp(0x006A, 0x6A) case 75 => Cp(0x006B, 0x6B)
    case 76 => Cp(0x006C, 0x6C) case 77 => Cp(0x006D, 0x6D) case 78 => Cp(0x006E, 0x6E) case 79 => Cp(0x006F, 0x6F)
    case _ => Cp(GUND, GUND)
  }

  function PorUnicode5(i: int): Codepoint {
    match i
    case 80 => Cp(0x0070, 0x70) case 81 => Cp(0x0071, 0x71) case 82 => Cp(0x0072, 0x72) case 83 => Cp(0x0073, 0x73)
    case 84 => Cp(0x0074, 0x74) case 85 => Cp(0x0075, 0x75) case 86 => Cp(0x0076, 0x76) case 87 => Cp(0x0077, 0x77)
    case 88 => Cp(0x0078, 0x78) case 89 => Cp(0x0079, 0x79) case 90 => Cp(0x007A, 0x7A) case 91 => Cp(0x007C, 0x1A)
    case 92 => Cp(0x007E, 0x60) case 93 => Cp(0x00A0, 0x20) case 94 => Cp(0x00A3, 0x01) case 95 => Cp(0x00A5, 0x03)
    case _ => Cp(GUND, GUND)
  }

  function PorUnicode6(i: int): Codepoint {
    match i
    case 96 => Cp(0x00A7, 0x5F) case 97 => Cp(0x00AA, 0x12) case 98 => Cp(0x00BA, 0x24) case 99 => Cp(0x00C0, 0x14)
    case 100 => Cp(0x00C1, 0x0E) case 101 => Cp(0x00C2, 0x1C) case 102 => Cp(0x00C3, 0x5B) case 103 => Cp(0x00C7, 0x13)
    case 104 => Cp(0x00C9, 0x1F) case 105 => Cp(0x00CA, 0x1E) case 106 => Cp(0x00CD, 0x40) case 107 => Cp(0x00D3, 0x19)
    case 108 => Cp(0x00D4, 0x0B) case 109 => Cp(0x00D5, 0x5C) case 110 => Cp(0x00DA, 0x5D) case 111 => Cp(0x00DC, 0x5E)
    case _ => Cp(GUND, GUND)
  }

  function PorUnicode7(i: int): Codepoint {
    match i
    case 112 => Cp(0x00E0, 0x7F) case 113 => Cp(0x00E1, 0x0F) case 114 => Cp(0x00E2, 0x1D) case 115 => Cp(0x00E3, 0x7B)
    case 116 => Cp(0x00E7, 0x09) case 117 => Cp(0x00E9, 0x05) case 118 => Cp(0x00EA, 0x04) case 119 => Cp(0x00ED, 0x07)
    case 120 => Cp(0x00F3, 0x08) case 121 => Cp(0x00F4, 0x0C) case 122 => Cp(0x00F5, 0x7C) case 123 => Cp(0x00FA, 0x06)
    case 124 => Cp(0x00FC, 0x7E) case 125 => Cp(0x0394, 0x10) case 126 => Cp(0x20AC, 0x18) case 127 => Cp(0x221E, 0x15)
    case _ => Cp(GUND, GUND)
  }

  // Septet after 0x1B to Unicode, default single shift
  function DefExtGsm(i: int): Codepoint {
    match i
    case 0 => Cp(0x000A, 0x0C) case 1 => Cp(0x0014, 0x5E) case 2 => Cp(0x001B, 0x20) case 3 => Cp(0x0028, 0x7B)
    case 4 => Cp(0x0029, 0x7D) case 5 => Cp(0x002F, 0x5C) case 6 => Cp(0x003C, 0x5B) case 7 => Cp(0x003D, 0x7E)
    case 8 => Cp(0x003E, 0x5D) case 9 => Cp(0x0040, 0x7C) case 10 => Cp(0x0065, 0x20AC)
    case _ => Cp(GUND, GUND)
  }

  // Unicode to 0x1B00 plus septet, default single shift
  function DefExtUnicode(i: int): Codepoint {
    match i
    case 0 => Cp(0x000C, 0x1B0A) case 1 => Cp(0x005B, 0x1B3C) case 2 => Cp(0x005C, 0x1B2F) case 3 => Cp(0x005D, 0x1B3E)
    case 4 => Cp(0x005E, 0x1B14) case 5 => Cp(0x007B, 0x1B28) case 6 => Cp(0x007C, 0x1B40) case 7 => Cp(0x007D, 0x1B29)
    case 8 => Cp(0x007E, 0x1B3D) case 9 => Cp(0x20AC, 0x1B65)
    case _ => Cp(GUND, GUND)
  }

  // Septet after 0x1B to Unicode, Turkish single shift
  function TurExtGsm(i: int): Codepoint {
    match i
    case 0 => Cp(0x000A, 0x0C) case 1 => Cp(0x0014, 0x5E) case 2 => Cp(0x001B, 0x20) case 3 => Cp(0x0028, 0x7B)
    case 4 => Cp(0x0029, 0x7D) case 5 => Cp(0x002F, 0x5C) case 6 => Cp(0x003C, 0x5B) case 7 => Cp(0x003D, 0x7E)
    case 8 => Cp(0x003E, 0x5D) case 9 => Cp(0x0040, 0x7C) case 10 => Cp(0x0047, 0x11E) case 11 => Cp(0x0049, 0x130)
    case 12 => Cp(0x0053, 0x15E) case 13 => Cp(0x0063, 0xE7) case 14 => Cp(0x0065, 0x20AC) case 15 => Cp(0x0067, 0x11F)
    case 16 => Cp(0x0069, 0x131) case 17 => Cp(0x0073, 0x15F)
    case _ => Cp(GUND, GUND)
  }

  // Unicode to 0x1B00 plus septet, Turkish single shift
  function TurExtUnicode(i: int): Codepoint {
    match i
    case 0 => Cp(0x000C, 0x1B0A) case 1 => Cp(0x005B, 0x1B3C) case 2 => Cp(0x005C, 0x1B2F) case 3 => Cp(0x005D, 0x1B3E)
    case 4 => Cp(0x005E, 0x1B14) case 5 => Cp(0x007B, 0x1B28) case 6 => Cp(0x007C, 0x1B40) case 7 => Cp(0x007D, 0x1B29)
    case 8 => Cp(0x007E, 0x1B3D) case 9 => Cp(0x00E7, 0x1B63) case 10 => Cp(0x011E, 0x1B47) case 11 => Cp(0x011F, 0x1B67)
    case 12 => Cp(0x0130, 0x1B49) case 13 => Cp(0x0131, 0x1B69) case 14 => Cp(0x015E, 0x1B53) case 15 => Cp(0x015F, 0x1B73)
    case 16 => Cp(0x20AC, 0x1B65)
    case _ => Cp(GUND, GUND)
  }

  // Septet after 0x1B to Unicode, Spanish single shift
  function SpaExtGsm(i: int): Codepoint {
    match i
    case 0 => Cp(0x0009, 0xE7) case 1 => Cp(0x000A, 0x0C) case 2 => Cp(0x0014, 0x5E) case 3 => Cp(0x001B, 0x20)
    case 4 => Cp(0x0028, 0x7B) case 5 => Cp(0x0029, 0x7D) case 6 => Cp(0x002F, 0x5C) case 7 => Cp(0x003C, 0x5B)
    case 8 => Cp(0x003D, 0x7E) case 9 => Cp(0x003E, 0x5D) case 10 => Cp(0x0040, 0x7C) case 11 => Cp(0x0041, 0xC1)
    case 12 => Cp(0x0049, 0xCD) case 13 => Cp(0x004F, 0xD3) case 14 => Cp(0x0055, 0xDA) case 15 => Cp(0x0061, 0xE1)
    case 16 => Cp(0x0065, 0x20AC) case 17 => Cp(0x0069, 0xED) case 18 => Cp(0x006F, 0xF3) case 19 => Cp(0x0075, 0xFA)
    case _ => Cp(GUND, GUND)
  }

  // Unicode to 0x1B00 plus septet, Spanish single shift
  function SpaExtUnicode(i: int): Codepoint {
    match i
    case 0 => Cp(0x000C, 0x1B0A) case 1 => Cp(0x005B, 0x1B3C) case 2 => Cp(0x005C, 0x1B2F) case 3 => Cp(0x005D, 0x1B3E)
    case 4 => Cp(0x005E, 0x1B14) case 5 => Cp(0x007B, 0x1B28) case 6 => Cp(0x007C, 0x1B40) case 7 => Cp(0x007D, 0x1B29)
    case 8 => Cp(0x007E, 0x1B3D) case 9 => Cp(0x00C1, 0x1B41) case 10 => Cp(0x00CD, 0x1B49) case 11 => Cp(0x00D3, 0x1B4F)
    case 12 => Cp(0x00DA, 0x1B55) case 13 => Cp(0x00E1, 0x1B61) case 14 => Cp(0x00E7, 0x1B09) case 15 => Cp(0x00ED, 0x1B69)
    case 16 => Cp(0x00F3, 0x1B6F) case 17 => Cp(0x00FA, 0x1B75) case 18 => Cp(0x20AC, 0x1B65)
    case _ => Cp(GUND, GUND)
  }

  // Septet after 0x1B to Unicode, Portuguese single shift
  function PorExtGsm(i: int): Codepoint {
    if i < 16 then PorExtGsm0(i)
    else if i < 32 then PorExtGsm1(i)
    else PorExtGsm2(i)
  }

  function PorExtGsm0(i: int): Codepoint {
    match i
    case 0 => Cp(0x0005, 0xEA) case 1 => Cp(0x0009, 0xE7) case 2 => Cp(0x000A, 0x0C) case 3 => Cp(0x000B, 0xD4)
    case 4 => Cp(0x000C, 0xF4) case 5 => Cp(0x000E, 0xC1) case 6 => Cp(0x000F, 0xE1) case 7 => Cp(0x0012, 0x3A6)
    case 8 => Cp(0x0013, 0x393) case 9 => Cp(0x0014, 0x5E) case 10 => Cp(0x0015, 0x3A9) case 11 => Cp(0x0016, 0x3A0)
    case 12 => Cp(0x0017, 0x3A8) case 13 => Cp(0x0018, 0x3A3) case 14 => Cp(0x0019, 0x398) case 15 => Cp(0x001B, 0x20)
    case _ => Cp(GUND, GUND)
  }

  function PorExtGsm1(i: int): Codepoint {
    match i
    case 16 => Cp(0x001F, 0xCA) case 17 => Cp(0x0028, 0x7B) case 18 => Cp(0x0029, 0x7D) case 19 => Cp(0x002F, 0x5C)
    case 20 => Cp(0x003C, 0x5B) case 21 => Cp(0x003D, 0x7E) case 22 => Cp(0x003E, 0x5D) case 23 => Cp(0x0040, 0x7C)
    case 24 => Cp(0x0041, 0xC0) case 25 => Cp(0x0049, 0xCD) case 26 => Cp(0x004F, 0xD3) case 27 => Cp(0x0055, 0xDA)
    case 28 => Cp(0x005B, 0xC3) case 29 => Cp(0x005C, 0xD5) case 30 => Cp(0x0061, 0xC2) case 31 => Cp(0x0065, 0x20AC)
    case _ => Cp(GUND, GUND)
  }

  function PorExtGsm2(i: int): Codepoint {
    match i
    case 32 => Cp(0x0069, 0xED) case 33 => Cp(0x006F, 0xF3) case 34 => Cp(0x0075, 0xFA) case 35 => Cp(0x007B, 0xE3)
    case 36 => Cp(0x007C, 0xF5) case 37 => Cp(0x007F, 0xE2)
    case _ => Cp(GUND, GUND)
  }

  // Unicode to 0x1B00 plus septet, Portuguese single shift
  function PorExtUnicode(i: int): Codepoint {
    if i < 16 then PorExtUnicode0(i)
    else if i < 32 then PorExtUnicode1(i)
    else PorExtUnicode2(i)
  }

  function PorExtUnicode0(i: int): Codepoint {
    match i
    case 0 => Cp(0x000C, 0x1B0A) case 1 => Cp(0x005B, 0x1B3C) case 2 => Cp(0x005C, 0x1B2F) case 3 => Cp(0x005D, 0x1B3E)
    case 4 => Cp(0x005E, 0x1B14) case 5 => Cp(0x007B, 0x1B28) case 6 => Cp(0x007C, 0x1B40) case 7 => Cp(0x007D, 0x1B29)
    case 8 => Cp(0x007E, 0x1B3D) case 9 => Cp(0x00C0, 0x1B41) case 10 => Cp(0x00C1, 0x1B0E) case 11 => Cp(0x00C2, 0x1B61)
    case 12 => Cp(0x00C3, 0x1B5B) case 13 => Cp(0x00CA, 0x1B1F) case 14 => Cp(0x00CD, 0x1B49) case 15 => Cp(0x00D3, 0x1B4F)
    case _ => Cp(GUND, GUND)
  }

  function PorExtUnicode1(i: int): Codepoint {
    match i
    case 16 => Cp(0x00D4, 0x1B0B) case 17 => Cp(0x00D5, 0x1B5C) case 18 => Cp(0x00DA, 0x1B55) case 19 => Cp(0x00E1, 0x1B0F)
    case 20 => Cp(0x00E2, 0x1B7F) case 21 => Cp(0x00E3, 0x1B7B) case 22 => Cp(0x00E7, 0x1B09) case 23 => Cp(0x00EA, 0x1B05)
    case 24 => Cp(0x00ED, 0x1B69) case 25 => Cp(0x00F3, 0x1B6F) case 26 => Cp(0x00F4, 0x1B0C) case 27 => Cp(0x00F5, 0x1B7C)
    case 28 => Cp(0x00FA, 0x1B75) case 29 => Cp(0x0393, 0x1B13) case 30 => Cp(0x0398, 0x1B19) case 31 => Cp(0x03A0, 0x1B16)
    case _ => Cp(GUND, GUND)
  }

  function PorExtUnicode2(i: int): Codepoint {
    match i
    case 32 => Cp(0x03A3, 0x1B18) case 33 => Cp(0x03A6, 0x1B12) case 34 => Cp(0x03A8, 0x1B17) case 35 => Cp(0x03A9, 0x1B15)
    case 36 => Cp(0x20AC, 0x1B65)
    case _ => Cp(GUND, GUND)
  }
}
