/** The 6502/6510 opcode table of the disassembler and assembler: for each of the 256 opcode
    bytes, the mnemonic, the addressing mode, the operand size in bytes and the kind of
    reference the instruction makes. Mnemonics from `BBS0` on are WDC extensions and the
    undocumented ("illegal") 6510 instructions. */
module Opcodes {

  import opened Words

  /** Addressing modes, in the order of the AM_ enumeration (AM_ZP_REL_X = 0 ... AM_ZP_Y = 13). */
  datatype Mode =
    | ZpRelX   // ($12,x)
    | Zp       // $12
    | Imm      // #$12
    | Abs      // $1234
    | ZpYRel   // ($12),y
    | ZpX      // $12,x
    | AbsY     // $1234,y
    | AbsX     // $1234,x
    | Rel      // ($1234), the indirect jump
    | Acc      // A
    | Non      // no operand
    | Branch   // relative branch target
    | ZpRelY   // ($12,y)
    | ZpY      // $12,y

  /** What the operand refers to (InstrRefType). */
  datatype RefKind = NoRef | DataArray | DataValue | Register | Flags | Code

  const MNEMONIC_COUNT: nat := 128

  /** Mnemonic numbers, the positions of the MNM_Base enumeration. */
  type Mnemonic = m: nat | m < MNEMONIC_COUNT

  datatype Entry = Entry(mnemonic: Mnemonic, mode: Mode, argSize: nat, ref: RefKind)

  /** The mnemonic spellings (`zsMNM`), by mnemonic number, sixteen to a row. */
  function Name(mn: Mnemonic): string
  {
    var col := mn % 16;
    match mn / 16
    case 0 => NameRow0(col)
    case 1 => NameRow1(col)
    case 2 => NameRow2(col)
    case 3 => NameRow3(col)
    case 4 => NameRow4(col)
    case 5 => NameRow5(col)
    case 6 => NameRow6(col)
    case 7 => NameRow7(col)
  }

  /** The spellings of mnemonics 0 to 15. */
  function NameRow0(col: Nibble): string
  {
    match col
    case 0 => "brk"
    case 1 => "ora"
    case 2 => "cop"
    case 3 => "tsb"
    case 4 => "asl"
    case 5 => "php"
    case 6 => "phd"
    case 7 => "bpl"
    case 8 => "trb"
    case 9 => "clc"
    case 10 => "inc"
    case 11 => "tcs"
    case 12 => "jsr"
    case 13 => "and"
    case 14 => "bit"
    case 15 => "rol"
  }

  /** The spellings of mnemonics 16 to 31. */
  function NameRow1(col: Nibble): string
  {
    match col
    case 0 => "plp"
    case 1 => "pld"
    case 2 => "bmi"
    case 3 => "sec"
    case 4 => "dec"
    case 5 => "tsc"
    case 6 => "rti"
    case 7 => "eor"
    case 8 => "wdm"
    case 9 => "mvp"
    case 10 => "lsr"
    case 11 => "pha"
    case 12 => "phk"
    case 13 => "jmp"
    case 14 => "bvc"
    case 15 => "mvn"
  }

  /** The spellings of mnemonics 32 to 47. */
  function NameRow2(col: Nibble): string
  {
    match col
    case 0 => "cli"
    case 1 => "phy"
    case 2 => "tcd"
    case 3 => "rts"
    case 4 => "adc"
    case 5 => "per"
    case 6 => "stz"
    case 7 => "ror"
    case 8 => "rtl"
    case 9 => "bvs"
    case 10 => "sei"
    case 11 => "ply"
    case 12 => "tdc"
    case 13 => "bra"
    case 14 => "sta"
    case 15 => "brl"
  }

  /** The spellings of mnemonics 48 to 63. */
  function NameRow3(col: Nibble): string
  {
    match col
    case 0 => "sty"
    case 1 => "stx"
    case 2 => "dey"
    case 3 => "txa"
    case 4 => "phb"
    case 5 => "bcc"
    case 6 => "tya"
    case 7 => "txs"
    case 8 => "txy"
    case 9 => "ldy"
    case 10 => "lda"
    case 11 => "ldx"
    case 12 => "tay"
    case 13 => "tax"
    case 14 => "plb"
    case 15 => "bcs"
  }

  /** The spellings of mnemonics 64 to 79. */
  function NameRow4(col: Nibble): string
  {
    match col
    case 0 => "clv"
    case 1 => "tsx"
    case 2 => "tyx"
    case 3 => "cpy"
    case 4 => "cmp"
    case 5 => "rep"
    case 6 => "iny"
    case 7 => "dex"
    case 8 => "wai"
    case 9 => "bne"
    case 10 => "pei"
    case 11 => "cld"
    case 12 => "phx"
    case 13 => "stp"
    case 14 => "cpx"
    case 15 => "sbc"
  }

  /** The spellings of mnemonics 80 to 95. */
  function NameRow5(col: Nibble): string
  {
    match col
    case 0 => "sep"
    case 1 => "inx"
    case 2 => "nop"
    case 3 => "xba"
    case 4 => "beq"
    case 5 => "pea"
    case 6 => "sed"
    case 7 => "plx"
    case 8 => "xce"
    case 9 => "???"
    case 10 => "pla"
    case 11 => "bbs0"
    case 12 => "bbs1"
    case 13 => "bbs2"
    case 14 => "bbs3"
    case 15 => "bbs4"
  }

  /** The spellings of mnemonics 96 to 111. */
  function NameRow6(col: Nibble): string
  {
    match col
    case 0 => "bbs5"
    case 1 => "bbs6"
    case 2 => "bbs7"
    case 3 => "bbr0"
    case 4 => "bbr1"
    case 5 => "bbr2"
    case 6 => "bbr3"
    case 7 => "bbr4"
    case 8 => "bbr5"
    case 9 => "bbr6"
    case 10 => "bbr7"
    case 11 => "ahx"
    case 12 => "anc"
    case 13 => "aac"
    case 14 => "alr"
    case 15 => "axs"
  }

  /** The spellings of mnemonics 112 to 127. */
  function NameRow7(col: Nibble): string
  {
    match col
    case 0 => "dcp"
    case 1 => "isc"
    case 2 => "lax"
    case 3 => "lax2"
    case 4 => "rla"
    case 5 => "rra"
    case 6 => "sre"
    case 7 => "sax"
    case 8 => "slo"
    case 9 => "xaa"
    case 10 => "arr"
    case 11 => "tas"
    case 12 => "shy"
    case 13 => "shx"
    case 14 => "las"
    case 15 => "sbi"
  }


  const BRK: Mnemonic := 0
  const ORA: Mnemonic := 1
  const COP: Mnemonic := 2
  const TSB: Mnemonic := 3
  const ASL: Mnemonic := 4
  const PHP: Mnemonic := 5
  const PHD: Mnemonic := 6
  const BPL: Mnemonic := 7
  const TRB: Mnemonic := 8
  const CLC: Mnemonic := 9
  const INC: Mnemonic := 10
  const TCS: Mnemonic := 11
  const JSR: Mnemonic := 12
  const AND: Mnemonic := 13
  const BIT: Mnemonic := 14
  const ROL: Mnemonic := 15
  const PLP: Mnemonic := 16
  const PLD: Mnemonic := 17
  const BMI: Mnemonic := 18
  const SEC: Mnemonic := 19
  const DEC: Mnemonic := 20
  const TSC: Mnemonic := 21
  const RTI: Mnemonic := 22
  const EOR: Mnemonic := 23
  const WDM: Mnemonic := 24
  const MVP: Mnemonic := 25
  const LSR: Mnemonic := 26
  const PHA: Mnemonic := 27
  const PHK: Mnemonic := 28
  const JMP: Mnemonic := 29
  const BVC: Mnemonic := 30
  const MVN: Mnemonic := 31
  const CLI: Mnemonic := 32
  const PHY: Mnemonic := 33
  const TCD: Mnemonic := 34
  const RTS: Mnemonic := 35
  const ADC: Mnemonic := 36
  const PER: Mnemonic := 37
  const STZ: Mnemonic := 38
  const ROR: Mnemonic := 39
  const RTL: Mnemonic := 40
  const BVS: Mnemonic := 41
  const SEI: Mnemonic := 42
  const PLY: Mnemonic := 43
  const TDC: Mnemonic := 44
  const BRA: Mnemonic := 45
  const STA: Mnemonic := 46
  const BRL: Mnemonic := 47
  const STY: Mnemonic := 48
  const STX: Mnemonic := 49
  const DEY: Mnemonic := 50
  const TXA: Mnemonic := 51
  const PHB: Mnemonic := 52
  const BCC: Mnemonic := 53
  const TYA: Mnemonic := 54
  const TXS: Mnemonic := 55
  const TXY: Mnemonic := 56
  const LDY: Mnemonic := 57
  const LDA: Mnemonic := 58
  const LDX: Mnemonic := 59
  const TAY: Mnemonic := 60
  const TAX: Mnemonic := 61
  const PLB: Mnemonic := 62
  const BCS: Mnemonic := 63
  const CLV: Mnemonic := 64
  const TSX: Mnemonic := 65
  const TYX: Mnemonic := 66
  const CPY: Mnemonic := 67
  const CMP: Mnemonic := 68
  const REP: Mnemonic := 69
  const INY: Mnemonic := 70
  const DEX: Mnemonic := 71
  const WAI: Mnemonic := 72
  const BNE: Mnemonic := 73
  const PEI: Mnemonic := 74
  const CLD: Mnemonic := 75
  const PHX: Mnemonic := 76
  const STP: Mnemonic := 77
  const CPX: Mnemonic := 78
  const SBC: Mnemonic := 79
  const SEP: Mnemonic := 80
  const INX: Mnemonic := 81
  const NOP: Mnemonic := 82
  const XBA: Mnemonic := 83
  const BEQ: Mnemonic := 84
  const PEA: Mnemonic := 85
  const SED: Mnemonic := 86
  const PLX: Mnemonic := 87
  const XCE: Mnemonic := 88
  const INV: Mnemonic := 89
  const PLA: Mnemonic := 90
  const BBS0: Mnemonic := 91
  const BBS1: Mnemonic := 92
  const BBS2: Mnemonic := 93
  const BBS3: Mnemonic := 94
  const BBS4: Mnemonic := 95
  const BBS5: Mnemonic := 96
  const BBS6: Mnemonic := 97
  const BBS7: Mnemonic := 98
  const BBR0: Mnemonic := 99
  const BBR1: Mnemonic := 100
  const BBR2: Mnemonic := 101
  const BBR3: Mnemonic := 102
  const BBR4: Mnemonic := 103
  const BBR5: Mnemonic := 104
  const BBR6: Mnemonic := 105
  const BBR7: Mnemonic := 106
  const AHX: Mnemonic := 107
  const ANC: Mnemonic := 108
  const AAC: Mnemonic := 109
  const ALR: Mnemonic := 110
  const AXS: Mnemonic := 111
  const DCP: Mnemonic := 112
  const ISC: Mnemonic := 113
  const LAX: Mnemonic := 114
  const LAX2: Mnemonic := 115
  const RLA: Mnemonic := 116
  const RRA: Mnemonic := 117
  const SRE: Mnemonic := 118
  const SAX: Mnemonic := 119
  const SLO: Mnemonic := 120
  const XAA: Mnemonic := 121
  const ARR: Mnemonic := 122
  const TAS: Mnemonic := 123
  const SHY: Mnemonic := 124
  const SHX: Mnemonic := 125
  const LAS: Mnemonic := 126
  const SBI: Mnemonic := 127

  /** The opcode table (`a6502_ops`): `Op(op)` describes the instruction whose first byte is
      `op`. The table is laid out as the usual 16 by 16 opcode matrix: row `op / 16`, column
      `op % 16`, so every byte value has exactly one entry. */
  function Op(op: Byte): Entry
  {
    var col := op % 16;
    match op / 16
    case 0x0 => Row0(col)
    case 0x1 => Row1(col)
    case 0x2 => Row2(col)
    case 0x3 => Row3(col)
    case 0x4 => Row4(col)
    case 0x5 => Row5(col)
    case 0x6 => Row6(col)
    case 0x7 => Row7(col)
    case 0x8 => Row8(col)
    case 0x9 => Row9(col)
    case 0xA => RowA(col)
    case 0xB => RowB(col)
    case 0xC => RowC(col)
    case 0xD => RowD(col)
    case 0xE => RowE(col)
    case 0xF => RowF(col)
  }

  /** A column of the opcode matrix. */
  type Nibble = n: int | 0 <= n < 16

  /** Opcodes $00-$0F. */
  function Row0(col: Nibble): Entry
  {
    match col
    case 0x0 => Entry(BRK, Non, 0, NoRef)
    case 0x1 => Entry(ORA, ZpRelX, 1, DataArray)
    case 0x2 => Entry(INV, Non, 0, NoRef)
    case 0x3 => Entry(SLO, ZpRelX, 1, DataArray)
    case 0x4 => Entry(INV, Non, 0, NoRef)
    case 0x5 => Entry(ORA, Zp, 1, DataValue)
    case 0x6 => Entry(ASL, Zp, 1, DataValue)
    case 0x7 => Entry(SLO, Zp, 1, DataValue)
    case 0x8 => Entry(PHP, Non, 0, Register)
    case 0x9 => Entry(ORA, Imm, 1, Register)
    case 0xA => Entry(ASL, Non, 0, Register)
    case 0xB => Entry(ANC, Imm, 1, Register)
    case 0xC => Entry(INV, Non, 0, NoRef)
    case 0xD => Entry(ORA, Abs, 2, DataValue)
    case 0xE => Entry(ASL, Abs, 2, DataValue)
    case 0xF => Entry(SLO, Abs, 2, DataValue)
  }

  /** Opcodes $10-$1F. */
  function Row1(col: Nibble): Entry
  {
    match col
    case 0x0 => Entry(BPL, Branch, 1, Code)
    case 0x1 => Entry(ORA, ZpYRel, 1, DataArray)
    case 0x2 => Entry(INV, Non, 0, NoRef)
    case 0x3 => Entry(SLO, ZpYRel, 1, DataArray)
    case 0x4 => Entry(INV, Non, 0, NoRef)
    case 0x5 => Entry(ORA, ZpX, 1, DataArray)
    case 0x6 => Entry(ASL, ZpX, 1, DataArray)
    case 0x7 => Entry(SLO, ZpX, 1, DataArray)
    case 0x8 => Entry(CLC, Non, 0, Flags)
    case 0x9 => Entry(ORA, AbsY, 2, DataArray)
    case 0xA => Entry(INV, Non, 0, NoRef)
    case 0xB => Entry(SLO, AbsY, 2, DataArray)
    case 0xC => Entry(INV, Non, 0, NoRef)
    case 0xD => Entry(ORA, AbsX, 2, DataArray)
    case 0xE => Entry(ASL, AbsX, 2, DataArray)
    case 0xF => Entry(SLO, AbsX, 2, DataArray)
  }

  /** Opcodes $20-$2F. */
  function Row2(col: Nibble): Entry
  {
    match col
    case 0x0 => Entry(JSR, Abs, 2, Code)
    case 0x1 => Entry(AND, ZpRelX, 1, DataArray)
    case 0x2 => Entry(INV, Non, 0, NoRef)
    case 0x3 => Entry(RLA, ZpRelX, 1, DataArray)
    case 0x4 => Entry(BIT, Zp, 1, DataValue)
    case 0x5 => Entry(AND, Zp, 1, DataValue)
    case 0x6 => Entry(ROL, Zp, 1, DataValue)
    case 0x7 => Entry(RLA, Zp, 1, DataValue)
    case 0x8 => Entry(PLP, Non, 0, Register)
    case 0x9 => Entry(AND, Imm, 1, Register)
    case 0xA => Entry(ROL, Non, 0, Register)
    case 0xB => Entry(AAC, Imm, 1, Register)
    case 0xC => Entry(BIT, Abs, 2, DataValue)
    case 0xD => Entry(AND, Abs, 2, DataValue)
    case 0xE => Entry(ROL, Abs, 2, DataValue)
    case 0xF => Entry(RLA, Abs, 2, DataValue)
  }

  /** Opcodes $30-$3F. */
  function Row3(col: Nibble): Entry
  {
    match col
    case 0x0 => Entry(BMI, Branch, 1, Code)
    case 0x1 => Entry(AND, ZpYRel, 1, DataArray)
    case 0x2 => Entry(INV, Non, 0, NoRef)
    case 0x3 => Entry(RLA, ZpYRel, 1, DataArray)
    case 0x4 => Entry(INV, Non, 0, NoRef)
    case 0x5 => Entry(AND, ZpX, 1, DataArray)
    case 0x6 => Entry(ROL, ZpX, 1, DataArray)
    case 0x7 => Entry(RLA, ZpX, 1, DataArray)
    case 0x8 => Entry(SEC, Non, 0, Flags)
    case 0x9 => Entry(AND, AbsY, 2, DataArray)
    case 0xA => Entry(INV, Non, 0, NoRef)
    case 0xB => Entry(RLA, AbsY, 2, DataArray)
    case 0xC => Entry(INV, Non, 0, NoRef)
    case 0xD => Entry(AND, AbsX, 2, DataArray)
    case 0xE => Entry(ROL, AbsX, 2, DataArray)
    case 0xF => Entry(RLA, AbsX, 2, DataArray)
  }

  /** Opcodes $40-$4F. */
  function Row4(col: Nibble): Entry
  {
    match col
    case 0x0 => Entry(RTI, Non, 0, NoRef)
    case 0x1 => Entry(EOR, ZpRelX, 1, DataArray)
    case 0x2 => Entry(INV, Non, 0, NoRef)
    case 0x3 => Entry(SRE, ZpRelX, 1, DataArray)
    case 0x4 => Entry(INV, Non, 0, NoRef)
    case 0x5 => Entry(EOR, Zp, 1, DataValue)
    case 0x6 => Entry(LSR, Zp, 1, DataValue)
    case 0x7 => Entry(SRE, Zp, 1, DataValue)
    case 0x8 => Entry(PHA, Non, 0, Register)
    case 0x9 => Entry(EOR, Imm, 1, Register)
    case 0xA => Entry(LSR, Non, 0, Register)
    case 0xB => Entry(ALR, Imm, 1, Register)
    case 0xC => Entry(JMP, Abs, 2, Code)
    case 0xD => Entry(EOR, Abs, 2, DataValue)
    case 0xE => Entry(LSR, Abs, 2, DataValue)
    case 0xF => Entry(SRE, Abs, 2, DataValue)
  }

  /** Opcodes $50-$5F. */
  function Row5(col: Nibble): Entry
  {
    match col
    case 0x0 => Entry(BVC, Branch, 1, Code)
    case 0x1 => Entry(EOR, ZpYRel, 1, DataValue)
    case 0x2 => Entry(INV, Non, 0, NoRef)
    case 0x3 => Entry(SRE, ZpYRel, 1, DataArray)
    case 0x4 => Entry(INV, Non, 0, NoRef)
    case 0x5 => Entry(EOR, ZpX, 1, DataArray)
    case 0x6 => Entry(LSR, ZpX, 1, DataArray)
    case 0x7 => Entry(SRE, ZpX, 1, DataArray)
    case 0x8 => Entry(CLI, Non, 0, Flags)
    case 0x9 => Entry(EOR, AbsY, 2, DataArray)
    case 0xA => Entry(INV, Non, 0, NoRef)
    case 0xB => Entry(SRE, AbsY, 2, DataArray)
    case 0xC => Entry(INV, Non, 0, NoRef)
    case 0xD => Entry(EOR, AbsX, 2, DataArray)
    case 0xE => Entry(LSR, AbsX, 2, DataArray)
    case 0xF => Entry(SRE, AbsX, 2, DataArray)
  }

  /** Opcodes $60-$6F. */
  function Row6(col: Nibble): Entry
  {
    match col
    case 0x0 => Entry(RTS, Non, 0, NoRef)
    case 0x1 => Entry(ADC, ZpRelX, 1, DataArray)
    case 0x2 => Entry(INV, Non, 0, NoRef)
    case 0x3 => Entry(RRA, ZpRelX, 1, DataArray)
    case 0x4 => Entry(INV, Non, 0, NoRef)
    case 0x5 => Entry(ADC, Zp, 1, DataValue)
    case 0x6 => Entry(ROR, Zp, 1, DataValue)
    case 0x7 => Entry(RRA, Zp, 1, DataValue)
    case 0x8 => Entry(PLA, Non, 0, Register)
    case 0x9 => Entry(ADC, Imm, 1, Register)
    case 0xA => Entry(ROR, Non, 0, Register)
    case 0xB => Entry(ARR, Imm, 1, Register)
    case 0xC => Entry(JMP, Rel, 2, Code)
    case 0xD => Entry(ADC, Abs, 2, DataValue)
    case 0xE => Entry(ROR, Abs, 2, DataValue)
    case 0xF => Entry(RRA, Abs, 2, DataValue)
  }

  /** Opcodes $70-$7F. */
  function Row7(col: Nibble): Entry
  {
    match col
    case 0x0 => Entry(BVS, Branch, 1, Code)
    case 0x1 => Entry(ADC, ZpYRel, 1, DataValue)
    case 0x2 => Entry(INV, Non, 0, NoRef)
    case 0x3 => Entry(RRA, ZpYRel, 1, DataArray)
    case 0x4 => Entry(INV, Non, 0, NoRef)
    case 0x5 => Entry(ADC, ZpX, 1, DataArray)
    case 0x6 => Entry(ROR, ZpX, 1, DataArray)
    case 0x7 => Entry(RRA, ZpX, 1, DataArray)
    case 0x8 => Entry(SEI, Non, 0, Flags)
    case 0x9 => Entry(ADC, AbsY, 2, DataArray)
    case 0xA => Entry(INV, Non, 0, NoRef)
    case 0xB => Entry(RRA, AbsY, 2, DataArray)
    case 0xC => Entry(INV, Non, 0, NoRef)
    case 0xD => Entry(ADC, AbsX, 2, DataArray)
    case 0xE => Entry(ROR, AbsX, 2, DataArray)
    case 0xF => Entry(RRA, AbsX, 2, DataArray)
  }

  /** Opcodes $80-$8F. */
  function Row8(col: Nibble): Entry
  {
    match col
    case 0x0 => Entry(INV, Non, 0, NoRef)
    case 0x1 => Entry(STA, ZpRelX, 1, DataArray)
    case 0x2 => Entry(INV, Non, 0, NoRef)
    case 0x3 => Entry(SAX, ZpYRel, 1, DataArray)
    case 0x4 => Entry(STY, Zp, 1, DataValue)
    case 0x5 => Entry(STA, Zp, 1, DataValue)
    case 0x6 => Entry(STX, Zp, 1, DataValue)
    case 0x7 => Entry(SAX, Zp, 1, DataValue)
    case 0x8 => Entry(DEY, Non, 0, Register)
    case 0x9 => Entry(INV, Non, 0, NoRef)
    case 0xA => Entry(TXA, Non, 0, Register)
    case 0xB => Entry(XAA, Imm, 1, Register)
    case 0xC => Entry(STY, Abs, 2, DataValue)
    case 0xD => Entry(STA, Abs, 2, DataValue)
    case 0xE => Entry(STX, Abs, 2, DataValue)
    case 0xF => Entry(SAX, Abs, 2, DataValue)
  }

  /** Opcodes $90-$9F. */
  function Row9(col: Nibble): Entry
  {
    match col
    case 0x0 => Entry(BCC, Branch, 1, Code)
    case 0x1 => Entry(STA, ZpYRel, 1, DataArray)
    case 0x2 => Entry(INV, Non, 0, NoRef)
    case 0x3 => Entry(AHX, ZpYRel, 1, DataArray)
    case 0x4 => Entry(STY, ZpX, 1, DataArray)
    case 0x5 => Entry(STA, ZpX, 1, DataArray)
    case 0x6 => Entry(STX, ZpY, 1, DataArray)
    case 0x7 => Entry(SAX, ZpY, 1, DataArray)
    case 0x8 => Entry(TYA, Non, 0, Register)
    case 0x9 => Entry(STA, AbsY, 2, DataArray)
    case 0xA => Entry(TXS, Non, 0, Register)
    case 0xB => Entry(TAS, AbsY, 2, DataArray)
    case 0xC => Entry(SHY, AbsX, 2, DataArray)
    case 0xD => Entry(STA, AbsX, 2, DataArray)
    case 0xE => Entry(SHX, AbsY, 2, DataArray)
    case 0xF => Entry(AHX, AbsY, 2, DataArray)
  }

  /** Opcodes $A0-$AF. */
  function RowA(col: Nibble): Entry
  {
    match col
    case 0x0 => Entry(LDY, Imm, 1, Register)
    case 0x1 => Entry(LDA, ZpRelX, 1, DataArray)
    case 0x2 => Entry(LDX, Imm, 1, Register)
    case 0x3 => Entry(LAX, ZpYRel, 1, DataArray)
    case 0x4 => Entry(LDY, Zp, 1, DataValue)
    case 0x5 => Entry(LDA, Zp, 1, DataValue)
    case 0x6 => Entry(LDX, Zp, 1, DataValue)
    case 0x7 => Entry(LAX, Zp, 1, DataValue)
    case 0x8 => Entry(TAY, Non, 0, Register)
    case 0x9 => Entry(LDA, Imm, 1, Register)
    case 0xA => Entry(TAX, Non, 0, Register)
    case 0xB => Entry(LAX2, Imm, 1, Register)
    case 0xC => Entry(LDY, Abs, 2, DataValue)
    case 0xD => Entry(LDA, Abs, 2, DataValue)
    case 0xE => Entry(LDX, Abs, 2, DataValue)
    case 0xF => Entry(LAX, Abs, 2, DataValue)
  }

  /** Opcodes $B0-$BF. */
  function RowB(col: Nibble): Entry
  {
    match col
    case 0x0 => Entry(BCS, Branch, 1, Code)
    case 0x1 => Entry(LDA, ZpYRel, 1, DataArray)
    case 0x2 => Entry(INV, Non, 0, NoRef)
    case 0x3 => Entry(INV, Non, 0, NoRef)
    case 0x4 => Entry(LDY, ZpX, 1, DataArray)
    case 0x5 => Entry(LDA, ZpX, 1, DataArray)
    case 0x6 => Entry(LDX, ZpY, 1, DataArray)
    case 0x7 => Entry(LAX, ZpY, 1, DataArray)
    case 0x8 => Entry(CLV, Non, 0, Flags)
    case 0x9 => Entry(LDA, AbsY, 2, DataArray)
    case 0xA => Entry(TSX, Non, 0, Register)
    case 0xB => Entry(LAS, AbsY, 2, DataArray)
    case 0xC => Entry(LDY, AbsX, 2, DataArray)
    case 0xD => Entry(LDA, AbsX, 2, DataArray)
    case 0xE => Entry(LDX, AbsY, 2, DataArray)
    case 0xF => Entry(LAX, AbsY, 2, DataArray)
  }

  /** Opcodes $C0-$CF. */
  function RowC(col: Nibble): Entry
  {
    match col
    case 0x0 => Entry(CPY, Imm, 1, Register)
    case 0x1 => Entry(CMP, ZpRelX, 1, DataArray)
    case 0x2 => Entry(INV, Non, 0, NoRef)
    case 0x3 => Entry(DCP, ZpRelX, 1, DataArray)
    case 0x4 => Entry(CPY, Zp, 1, DataValue)
    case 0x5 => Entry(CMP, Zp, 1, DataValue)
    case 0x6 => Entry(DEC, Zp, 1, DataValue)
    case 0x7 => Entry(DCP, Zp, 1, DataValue)
    case 0x8 => Entry(INY, Non, 0, Register)
    case 0x9 => Entry(CMP, Imm, 1, Register)
    case 0xA => Entry(DEX, Non, 0, Register)
    case 0xB => Entry(AXS, Imm, 1, Register)
    case 0xC => Entry(CPY, Abs, 2, DataValue)
    case 0xD => Entry(CMP, Abs, 2, DataValue)
    case 0xE => Entry(DEC, Abs, 2, DataValue)
    case 0xF => Entry(DCP, Abs, 2, DataValue)
  }

  /** Opcodes $D0-$DF. */
  function RowD(col: Nibble): Entry
  {
    match col
    case 0x0 => Entry(BNE, Branch, 1, Code)
    case 0x1 => Entry(CMP, ZpYRel, 1, DataArray)
    case 0x2 => Entry(INV, Non, 0, NoRef)
    case 0x3 => Entry(DCP, ZpYRel, 1, DataArray)
    case 0x4 => Entry(INV, Non, 0, NoRef)
    case 0x5 => Entry(CMP, ZpX, 1, DataArray)
    case 0x6 => Entry(DEC, ZpX, 1, DataArray)
    case 0x7 => Entry(DCP, ZpX, 1, DataArray)
    case 0x8 => Entry(CLD, Non, 0, Flags)
    case 0x9 => Entry(CMP, AbsY, 2, DataArray)
    case 0xA => Entry(INV, Non, 0, NoRef)
    case 0xB => Entry(DCP, AbsY, 2, DataArray)
    case 0xC => Entry(INV, Non, 0, NoRef)
    case 0xD => Entry(CMP, AbsX, 2, DataArray)
    case 0xE => Entry(DEC, AbsX, 2, DataArray)
    case 0xF => Entry(DCP, AbsX, 2, DataArray)
  }

  /** Opcodes $E0-$EF. */
  function RowE(col: Nibble): Entry
  {
    match col
    case 0x0 => Entry(CPX, Imm, 1, Register)
    case 0x1 => Entry(SBC, ZpRelX, 1, DataArray)
    case 0x2 => Entry(INV, Non, 0, NoRef)
    case 0x3 => Entry(ISC, ZpRelX, 1, DataArray)
    case 0x4 => Entry(CPX, Zp, 1, DataValue)
    case 0x5 => Entry(SBC, Zp, 1, DataValue)
    case 0x6 => Entry(INC, Zp, 1, DataValue)
    case 0x7 => Entry(ISC, Zp, 1, DataValue)
    case 0x8 => Entry(INX, Non, 0, Register)
    case 0x9 => Entry(SBC, Imm, 1, Register)
    case 0xA => Entry(NOP, Non, 0, NoRef)
    case 0xB => Entry(SBI, Imm, 1, Register)
    case 0xC => Entry(CPX, Abs, 2, DataValue)
    case 0xD => Entry(SBC, Abs, 2, DataValue)
    case 0xE => Entry(INC, Abs, 2, DataValue)
    case 0xF => Entry(ISC, Abs, 2, DataValue)
  }

  /** Opcodes $F0-$FF. */
  function RowF(col: Nibble): Entry
  {
    match col
    case 0x0 => Entry(BEQ, Branch, 1, Code)
    case 0x1 => Entry(SBC, ZpYRel, 1, DataArray)
    case 0x2 => Entry(INV, Non, 0, NoRef)
    case 0x3 => Entry(ISC, ZpYRel, 1, DataArray)
    case 0x4 => Entry(INV, Non, 0, NoRef)
    case 0x5 => Entry(SBC, ZpX, 1, DataArray)
    case 0x6 => Entry(INC, ZpX, 1, DataArray)
    case 0x7 => Entry(ISC, ZpX, 1, DataArray)
    case 0x8 => Entry(SED, Non, 0, Flags)
    case 0x9 => Entry(SBC, AbsY, 2, DataArray)
    case 0xA => Entry(INV, Non, 0, NoRef)
    case 0xB => Entry(ISC, AbsY, 2, DataArray)
    case 0xC => Entry(INV, Non, 0, NoRef)
    case 0xD => Entry(SBC, AbsX, 2, DataArray)
    case 0xE => Entry(INC, AbsX, 2, DataArray)
    case 0xF => Entry(ISC, AbsX, 2, DataArray)
  }

  /** `mnm_wdc_and_illegal_instructions`: the first mnemonic that is only accepted when
      illegal instructions are enabled (it shares its number with `mnm_bbs0`). */
  const WDC_AND_ILLEGAL: Mnemonic := BBS0

  /** The operand size an addressing mode implies: none for the implied and accumulator
      forms, a 16-bit word for the absolute forms and the indirect jump, one byte otherwise. */
  function ModeArgSize(m: Mode): nat
  {
    match m
    case Non | Acc => 0
    case Abs | AbsX | AbsY | Rel => 2
    case _ => 1
  }

  /** The facts every table entry satisfies. */
  predicate EntryWellFormed(e: Entry)
  {
    && e.argSize == ModeArgSize(e.mode)
    && (e.mnemonic == INV ==> e.mode == Non)
    && (e.mode == Branch ==> e.mnemonic != INV && e.mnemonic < WDC_AND_ILLEGAL)
    && e.mode != Acc && e.mode != ZpRelY
    && (e.mnemonic == JSR ==> e.mode == Abs)
  }

  // The table is checked a row at a time, which keeps each case split small.

  lemma WellFormedRow0()
    ensures forall col: Nibble :: EntryWellFormed(Row0(col))
  {
  }

  lemma WellFormedRow1()
    ensures forall col: Nibble :: EntryWellFormed(Row1(col))
  {
  }

  lemma WellFormedRow2()
    ensures forall col: Nibble :: EntryWellFormed(Row2(col))
  {
  }

  lemma WellFormedRow3()
    ensures forall col: Nibble :: EntryWellFormed(Row3(col))
  {
  }

  lemma WellFormedRow4()
    ensures forall col: Nibble :: EntryWellFormed(Row4(col))
  {
  }

  lemma WellFormedRow5()
    ensures forall col: Nibble :: EntryWellFormed(Row5(col))
  {
  }

  lemma WellFormedRow6()
    ensures forall col: Nibble :: EntryWellFormed(Row6(col))
  {
  }

  lemma WellFormedRow7()
    ensures forall col: Nibble :: EntryWellFormed(Row7(col))
  {
  }

  lemma WellFormedRow8()
    ensures forall col: Nibble :: EntryWellFormed(Row8(col))
  {
  }

  lemma WellFormedRow9()
    ensures forall col: Nibble :: EntryWellFormed(Row9(col))
  {
  }

  lemma WellFormedRowA()
    ensures forall col: Nibble :: EntryWellFormed(RowA(col))
  {
  }

  lemma WellFormedRowB()
    ensures forall col: Nibble :: EntryWellFormed(RowB(col))
  {
  }

  lemma WellFormedRowC()
    ensures forall col: Nibble :: EntryWellFormed(RowC(col))
  {
  }

  lemma WellFormedRowD()
    ensures forall col: Nibble :: EntryWellFormed(RowD(col))
  {
  }

  lemma WellFormedRowE()
    ensures forall col: Nibble :: EntryWellFormed(RowE(col))
  {
  }

  lemma WellFormedRowF()
    ensures forall col: Nibble :: EntryWellFormed(RowF(col))
  {
  }

  /** Every one of the 256 entries has the operand size its mode implies; the invalid
      entries have no operand; branches are documented 6502 instructions; and the
      accumulator and `($12,y)` modes are never used by the table; `JSR` exists only in the
      absolute form. */
  lemma TableWellFormed()
    ensures forall op: Byte :: EntryWellFormed(Op(op))
  {
    WellFormedRow0();
    WellFormedRow1();
    WellFormedRow2();
    WellFormedRow3();
    WellFormedRow4();
    WellFormedRow5();
    WellFormedRow6();
    WellFormedRow7();
    WellFormedRow8();
    WellFormedRow9();
    WellFormedRowA();
    WellFormedRowB();
    WellFormedRowC();
    WellFormedRowD();
    WellFormedRowE();
    WellFormedRowF();
  }
}
