/** Instruction lengths, effective addresses, watch references and the one-instruction
    disassembler over the 64 KiB memory image (Mnemonics.cpp). The rendered text is not
    modelled; what the caller gets back besides the text is: the length, the branch or
    jump target, and which kind of line is printed. */
module Disasm {

  import opened Words
  import opened Opcodes
  import opened Memory
  import opened Outcomes

  /** The opcode is printed as an instruction: it is not `mnm_inv`, and it is a documented
      6502 instruction unless illegal instructions are enabled (the negation of the
      source's `not_valid`). */
  predicate Valid(op: Byte, illegals: bool)
  {
    Op(op).mnemonic != INV && (illegals || Op(op).mnemonic < WDC_AND_ILLEGAL)
  }

  lemma EntryFacts(op: Byte)
    ensures EntryWellFormed(Op(op))
  {
    TableWellFormed();
  }

  /** `InstructionBytes`: the length of the instruction at `addr`. */
  function InstructionBytes(m: Mem, addr: Word16, illegals: bool): (n: nat)
    ensures 1 <= n <= 3
    ensures !Valid(Peek(m, addr), illegals) ==> n == 1
    ensures Valid(Peek(m, addr), illegals) ==> n == 1 + ModeArgSize(Op(Peek(m, addr)).mode)
  {
    var op := Peek(m, addr);
    EntryFacts(op);
    1 + (if Valid(op, illegals) then Op(op).argSize else 0)
  }

  /** `ValidInstructionBytes`: like `InstructionBytes`, but 0 for an opcode that is not
      printed as an instruction. */
  function ValidInstructionBytes(m: Mem, addr: Word16, illegals: bool): (n: nat)
    ensures n == 0 <==> !Valid(Peek(m, addr), illegals)
    ensures n != 0 ==> n == InstructionBytes(m, addr, illegals)
  {
    var op := Peek(m, addr);
    if Valid(op, illegals) then Op(op).argSize + 1 else 0
  }

  /** `InstrRefAddr`: the address the instruction at `addr` refers to, given the index
      registers. Addressing modes without a memory operand give 0. */
  function InstrRefAddr(m: Mem, addr: Word16, x: Byte, y: Byte): Word16
  {
    ModeRefAddr(Op(Peek(m, addr)).mode, m, addr, x, y)
  }

  /** The body of `InstrRefAddr` for a given addressing mode. Additions are 16-bit (`uint16_t`)
      except that the pre-indexed zero-page pointer address is 8-bit (`uint8_t z`). */
  function ModeRefAddr(mode: Mode, m: Mem, addr: Word16, x: Byte, y: Byte): Word16
  {
    var b1 := Peek(m, addr + 1);
    var b2 := Peek(m, addr + 2);
    match mode
    case ZpRelX => ZeroPagePointer(m, U8(b1 + x))
    case Zp => b1
    case Abs => LE16(b1, b2)
    case ZpYRel => U16(ZeroPagePointer(m, b1) + y)
    case ZpX => b1 + x
    case AbsY => U16(LE16(b1, b2) + y)
    case AbsX => U16(LE16(b1, b2) + x)
    case Rel => IndirectTarget(m, LE16(b1, b2))
    case ZpRelY => ZeroPagePointer(m, U8(b1 + y))
    case ZpY => b1 + y
    case Branch => U16(addr + 2 + Signed8(b1))
    case Imm | Acc | Non => 0
  }

  /** The target of `JMP ($xxxx)` with the pointer at `p`: the high byte is fetched from
      `((p + 1) & 0xff) | (p & 0xff00)`, the next byte of the same page. */
  function IndirectTarget(m: Mem, p: Word16): Word16
  {
    LE16(Peek(m, p), Peek(m, (p as int + 1) % 0x100 + p / 0x100 * 0x100))
  }

  /** The two memories hold the same bytes on 256-byte page `page`. */
  ghost predicate AgreeOnPage(m1: Mem, m2: Mem, page: nat)
  {
    forall b: Word16 :: b / 0x100 == page ==> m1[b] == m2[b]
  }

  /** The indirect zero-page modes fetch both pointer bytes from page zero: the high byte of a
      pointer at $FF comes from $00, never from $100. So only page zero and the instruction's
      own two bytes decide the effective address. */
  lemma ZeroPagePointerStaysInPageZero(m1: Mem, m2: Mem, addr: Word16, x: Byte, y: Byte)
    requires Op(Peek(m1, addr)).mode in {ZpRelX, ZpYRel, ZpRelY}
    requires Peek(m1, addr) == Peek(m2, addr) && Peek(m1, addr + 1) == Peek(m2, addr + 1)
    requires AgreeOnPage(m1, m2, 0)
    ensures InstrRefAddr(m1, addr, x, y) == InstrRefAddr(m2, addr, x, y)
  {
    PointerInPageZero(Op(Peek(m1, addr)).mode, m1, m2, addr, x, y);
  }

  lemma PointerInPageZero(mode: Mode, m1: Mem, m2: Mem, addr: Word16, x: Byte, y: Byte)
    requires mode == ZpRelX || mode == ZpYRel || mode == ZpRelY
    requires Peek(m1, addr + 1) == Peek(m2, addr + 1)
    requires AgreeOnPage(m1, m2, 0)
    ensures ModeRefAddr(mode, m1, addr, x, y) == ModeRefAddr(mode, m2, addr, x, y)
  {
    var b1 := Peek(m1, addr + 1);
    match mode {
      case ZpRelX => ZeroPagePointerAgrees(m1, m2, U8(b1 + x));
      case ZpRelY => ZeroPagePointerAgrees(m1, m2, U8(b1 + y));
      case ZpYRel => ZeroPagePointerAgrees(m1, m2, b1);
      case _ =>
    }
  }

  lemma ZeroPagePointerAgrees(m1: Mem, m2: Mem, z: Byte)
    requires AgreeOnPage(m1, m2, 0)
    ensures ZeroPagePointer(m1, z) == ZeroPagePointer(m2, z)
  {
    assert Peek(m1, z) == Peek(m2, z);
    assert Peek(m1, (z + 1) % 0x100) == Peek(m2, (z + 1) % 0x100);
  }

  /** `JMP ($xxxx)` never crosses a page when fetching its target: only the instruction's
      bytes and the page holding the pointer decide where it jumps. */
  lemma IndirectJumpStaysInPage(m1: Mem, m2: Mem, addr: Word16, x: Byte, y: Byte)
    requires Op(Peek(m1, addr)).mode == Rel
    requires Peek(m1, addr) == Peek(m2, addr)
    requires Peek(m1, addr + 1) == Peek(m2, addr + 1) && Peek(m1, addr + 2) == Peek(m2, addr + 2)
    requires AgreeOnPage(m1, m2, Peek(m1, addr + 2))
    ensures InstrRefAddr(m1, addr, x, y) == InstrRefAddr(m2, addr, x, y)
  {
    PointerInPage(m1, m2, addr, x, y);
  }

  lemma PointerInPage(m1: Mem, m2: Mem, addr: Word16, x: Byte, y: Byte)
    requires Peek(m1, addr + 1) == Peek(m2, addr + 1) && Peek(m1, addr + 2) == Peek(m2, addr + 2)
    requires AgreeOnPage(m1, m2, Peek(m1, addr + 2))
    ensures ModeRefAddr(Rel, m1, addr, x, y) == ModeRefAddr(Rel, m2, addr, x, y)
  {
    var p := LE16(Peek(m1, addr + 1), Peek(m1, addr + 2));
    IndirectTargetAgrees(m1, m2, p);
  }

  lemma IndirectTargetAgrees(m1: Mem, m2: Mem, p: Word16)
    requires AgreeOnPage(m1, m2, p / 0x100)
    ensures IndirectTarget(m1, p) == IndirectTarget(m2, p)
  {
    var hi := (p as int + 1) % 0x100 + p / 0x100 * 0x100;
    assert hi / 0x100 == p / 0x100;
    assert Peek(m1, p) == Peek(m2, p);
    assert Peek(m1, hi) == Peek(m2, hi);
  }

  /** The 6502 indirect-jump quirk: with a pointer at $xxFF the high byte of the target is read
      from $xx00 of the same page. */
  lemma IndirectJumpPageQuirk(m: Mem, addr: Word16, x: Byte, y: Byte)
    requires Op(Peek(m, addr)).mode == Rel
    requires Peek(m, addr + 1) == 0xFF
    ensures InstrRefAddr(m, addr, x, y)
      == LE16(Peek(m, LE16(0xFF, Peek(m, addr + 2))), Peek(m, LE16(0x00, Peek(m, addr + 2))))
  {
    RelRefAddr(m, addr, x, y);
    PageStart(m, Peek(m, addr + 2));
  }

  lemma RelRefAddr(m: Mem, addr: Word16, x: Byte, y: Byte)
    requires Op(Peek(m, addr)).mode == Rel
    ensures InstrRefAddr(m, addr, x, y) == IndirectTarget(m, LE16(Peek(m, addr + 1), Peek(m, addr + 2)))
  {
  }

  /** Through a pointer at $xxFF, the high byte comes from $xx00. */
  lemma PageStart(m: Mem, hi: Byte)
    ensures IndirectTarget(m, LE16(0xFF, hi)) == LE16(Peek(m, LE16(0xFF, hi)), Peek(m, LE16(0x00, hi)))
  {
    var p := LE16(0xFF, hi);
    assert p == 0xFF + hi * 0x100;
    assert p / 0x100 == hi;
    assert (p as int + 1) % 0x100 == 0;
    assert (p as int + 1) % 0x100 + p / 0x100 * 0x100 == LE16(0x00, hi);
  }

  /** `$12,x` and `$12,y` are not wrapped to page zero: the address agrees with the zero-page
      address the CPU uses in its low byte, and leaves page zero exactly when the index
      addition carries. */
  lemma IndexedZeroPageDoesNotWrap(m: Mem, addr: Word16, x: Byte, y: Byte)
    requires Op(Peek(m, addr)).mode in {ZpX, ZpY}
    ensures var index := if Op(Peek(m, addr)).mode == ZpX then x else y;
      && U8(InstrRefAddr(m, addr, x, y)) == U8(Peek(m, addr + 1) + index)
      && (InstrRefAddr(m, addr, x, y) > 0xFF <==> Peek(m, addr + 1) + index > 0xFF)
  {
  }

  /** A branch refers to the address the CPU continues at when the branch is taken: the byte
      after the instruction plus the signed displacement, so it lies at most 128 bytes before
      or 127 after that point (modulo 2^16), and the difference is the displacement byte. */
  lemma BranchTarget(m: Mem, addr: Word16, x: Byte, y: Byte)
    requires Op(Peek(m, addr)).mode == Branch
    ensures var t := InstrRefAddr(m, addr, x, y);
      && U8(t - (addr + 2)) == Peek(m, addr + 1)
      && (U16(t - (addr + 2)) < 0x80 || U16(t - (addr + 2)) >= 0x1_0000 - 0x80)
  {
    var b1 := Peek(m, addr + 1);
    assert InstrRefAddr(m, addr, x, y) == U16(addr + 2 + Signed8(b1));
    Displacement(addr + 2, b1);
  }

  /** Adding a signed byte to an address and subtracting again recovers the byte. */
  lemma Displacement(base: int, b: Byte)
    ensures var t := U16(base + Signed8(b));
      && U8(t - base) == b
      && (U16(t - base) < 0x80 || U16(t - base) >= 0x1_0000 - 0x80)
  {
    var d := Signed8(b);
    var t := U16(base + d);
    var q := (base + d) / 0x1_0000;
    assert base + d == 0x1_0000 * q + t;
    WrapShift(d, -q);
    assert t - base == d + 0x1_0000 * -q;
  }

  /** Adding a multiple of 2^16 changes neither the low byte nor the 16-bit truncation. */
  lemma WrapShift(a: int, k: int)
    ensures U8(a + 0x1_0000 * k) == U8(a) && U16(a + 0x1_0000 * k) == U16(a)
  {
    var p, r := a / 0x100, a % 0x100;
    assert a + 0x1_0000 * k == 0x100 * (p + 0x100 * k) + r;
    var p2, r2 := a / 0x1_0000, a % 0x1_0000;
    assert a + 0x1_0000 * k == 0x1_0000 * (p2 + k) + r2;
  }

  // ---------------------------------------------------------------------------------------
  // Watch references

  /** Watch styles, as bit positions of the WatchRefStyle mask. `$w` is the operand word,
      `$z` the operand byte and `$p` the pointer stored at `$z`. */
  const VALUE: nat := 0             // [$w]
  const VALUE_ZP: nat := 1          // [$z]
  const ARRAY: nat := 2             // *$w
  const ARRAY_PLUS_X: nat := 3      // *$w+x
  const ARRAY_PLUS_Y: nat := 4      // *$w+y
  const ARRAY_ZP: nat := 5          // *$z
  const ARRAY_ZP_X: nat := 6        // *$z+x
  const ARRAY_ZP_Y: nat := 7        // *$z+y
  const ARRAY_REF_ZP: nat := 8      // *{$z}
  const ARRAY_REF_ZP_X: nat := 9    // *{$z+x}
  const ARRAY_REF_ZP_Y: nat := 10   // *{$z}+y
  const VALUE_PLUS_X: nat := 11     // [$w+x]
  const VALUE_PLUS_Y: nat := 12     // [$w+y]
  const VALUE_ZP_PLUS_X: nat := 13  // [$z+x]
  const VALUE_ZP_PLUS_Y: nat := 14  // [$z+y]
  const EVAL_ZP_PLUS_X: nat := 15   // *$p+x
  const EVAL_ZP_PLUS_Y: nat := 16   // *$p+y
  const DOUBLE_ZP: nat := 17        // *$p

  /** The styles whose printed operand is the instruction's operand word. */
  predicate WordStyle(style: nat)
  {
    style == VALUE || style == ARRAY || style == ARRAY_PLUS_X || style == ARRAY_PLUS_Y
    || style == VALUE_PLUS_X || style == VALUE_PLUS_Y
  }

  /** The styles whose printed operand is the pointer stored in page zero. */
  predicate PointerStyle(style: nat)
  {
    style == EVAL_ZP_PLUS_X || style == EVAL_ZP_PLUS_Y || style == DOUBLE_ZP
  }

  /** `AddrMode_WatchRefs`: the styles each addressing mode offers (the set bits of its mask). */
  function WatchStyles(mode: Mode): set<nat>
  {
    match mode
    case ZpRelX => {ARRAY_REF_ZP_X, EVAL_ZP_PLUS_X, DOUBLE_ZP}
    case Zp => {VALUE_ZP}
    case Imm => {}
    case Abs => {VALUE, ARRAY}
    case ZpYRel => {ARRAY_REF_ZP, ARRAY_REF_ZP_Y, EVAL_ZP_PLUS_Y}
    case ZpX => {ARRAY_ZP, ARRAY_ZP_X, VALUE_ZP_PLUS_X, DOUBLE_ZP}
    case AbsY => {VALUE, ARRAY, ARRAY_PLUS_Y, VALUE_PLUS_Y}
    case AbsX => {VALUE, ARRAY, ARRAY_PLUS_X, VALUE_PLUS_X}
    case Rel => {VALUE}
    case Acc | Non | Branch => {}
    case ZpRelY => {ARRAY_REF_ZP, ARRAY_REF_ZP_Y}
    case ZpY => {ARRAY_REF_ZP, VALUE_ZP_PLUS_Y}
  }

  /** A watch expression: its style and the number printed in it. */
  datatype WatchRef = WatchRef(style: nat, operand: Word16)

  /** The 16-bit pointer stored at zero-page address `z`, its high byte read from `(z + 1) & 0xff`
      as the CPU does. */
  function ZeroPagePointer(m: Mem, z: Byte): (p: Word16)
    ensures U8(p) == Peek(m, z) && p / 0x100 == Peek(m, U8(z + 1))
  {
    LE16(Peek(m, z), Peek(m, (z + 1) % 0x100))
  }

  /** `GetWatchRef`, corrected: whether the instruction at `addr` offers watch style `style`,
      and if so the expression, with a page-zero pointer's high byte read from `(z + 1) & 0xff`
      (`GetWatchRefAsWritten` reads it from `z + 1`). The C code shifts `1 << style`, defined
      for `0 <= style < 32`. */
  function GetWatchRef(m: Mem, addr: Word16, style: int): (r: Option<WatchRef>)
    requires 0 <= style < 32
    ensures r.Some? <==> style in WatchStyles(Op(Peek(m, addr)).mode)
    ensures r.Some? ==> r.value.style == style
  {
    if style in WatchStyles(Op(Peek(m, addr)).mode) then Some(WatchRef(style, WatchOperand(m, addr, style)))
    else None
  }

  /** The number a watch expression of style `style` prints for the instruction at `addr`. */
  function WatchOperand(m: Mem, addr: Word16, style: nat): Word16
  {
    var b1 := Peek(m, addr + 1);
    if WordStyle(style) then LE16(b1, Peek(m, addr + 2))
    else if PointerStyle(style) then ZeroPagePointer(m, b1)
    else b1
  }

  /** A watch style names a word operand exactly when the instruction carries one: word styles
      belong to three-byte instructions, the others to two-byte ones, and instructions without
      an operand offer none. */
  lemma WatchRefOperandWidth(m: Mem, addr: Word16, style: int)
    requires 0 <= style < 32
    requires GetWatchRef(m, addr, style).Some?
    ensures InstructionBytes(m, addr, true) == (if WordStyle(style) then 3 else 2)
  {
    var op := Peek(m, addr);
    EntryFacts(op);
  }

  /** The watch expression of a zero-page or absolute operand is the address the instruction
      refers to, before indexing; for `($12),y` the pointer plus Y is the address. */
  lemma WatchRefIsReference(m: Mem, addr: Word16, style: int, x: Byte, y: Byte)
    requires 0 <= style < 32
    requires GetWatchRef(m, addr, style).Some?
    requires style in {VALUE, VALUE_ZP, EVAL_ZP_PLUS_Y}
    requires Op(Peek(m, addr)).mode != Rel
    ensures var mode := Op(Peek(m, addr)).mode;
      var index := if mode == AbsX then x else if mode in {AbsY, ZpYRel} then y else 0;
      InstrRefAddr(m, addr, x, y) == U16(GetWatchRef(m, addr, style).value.operand + index)
  {
    ReferenceStyles(Op(Peek(m, addr)).mode, style);
    ModeWatchIsReference(Op(Peek(m, addr)).mode, m, addr, style, x, y);
  }

  /** The modes that offer one of the styles `[$w]`, `[$z]` and `*$p+y`, with that style. */
  predicate ReferenceStyle(mode: Mode, style: nat)
  {
    || (mode == ZpYRel && style == EVAL_ZP_PLUS_Y)
    || (mode == Zp && style == VALUE_ZP)
    || ((mode == Abs || mode == AbsX || mode == AbsY) && style == VALUE)
  }

  /** Apart from the indirect jump, those are all the modes that offer the three styles. */
  lemma ReferenceStyles(mode: Mode, style: nat)
    requires style in WatchStyles(mode) && style in {VALUE, VALUE_ZP, EVAL_ZP_PLUS_Y}
    requires mode != Rel
    ensures ReferenceStyle(mode, style)
  {
  }

  lemma ModeWatchIsReference(mode: Mode, m: Mem, addr: Word16, style: nat, x: Byte, y: Byte)
    requires ReferenceStyle(mode, style)
    ensures var index := if mode == AbsX then x else if mode == AbsY || mode == ZpYRel then y else 0;
      ModeRefAddr(mode, m, addr, x, y) == U16(WatchOperand(m, addr, style) + index)
  {
    if mode == ZpYRel {
      PointerWatchIsReference(m, addr, x, y);
    } else if mode == Zp {
      ByteWatchIsReference(m, addr, x, y);
    } else {
      WordWatchIsReference(m, addr, x, y);
    }
  }

  lemma PointerWatchIsReference(m: Mem, addr: Word16, x: Byte, y: Byte)
    ensures ModeRefAddr(ZpYRel, m, addr, x, y) == U16(WatchOperand(m, addr, EVAL_ZP_PLUS_Y) + y)
  {
    assert !WordStyle(EVAL_ZP_PLUS_Y) && PointerStyle(EVAL_ZP_PLUS_Y);
  }

  lemma ByteWatchIsReference(m: Mem, addr: Word16, x: Byte, y: Byte)
    ensures ModeRefAddr(Zp, m, addr, x, y) == U16(WatchOperand(m, addr, VALUE_ZP) + 0)
  {
    assert !WordStyle(VALUE_ZP) && !PointerStyle(VALUE_ZP);
  }

  lemma WordWatchIsReference(m: Mem, addr: Word16, x: Byte, y: Byte)
    ensures var w := WatchOperand(m, addr, VALUE);
      && ModeRefAddr(Abs, m, addr, x, y) == U16(w + 0)
      && ModeRefAddr(AbsX, m, addr, x, y) == U16(w + x)
      && ModeRefAddr(AbsY, m, addr, x, y) == U16(w + y)
  {
    assert WordStyle(VALUE);
    AbsoluteReference(m, addr, x, y);
  }

  /** The address of an absolute operand, unindexed and indexed. */
  lemma AbsoluteReference(m: Mem, addr: Word16, x: Byte, y: Byte)
    ensures var w := LE16(Peek(m, addr + 1), Peek(m, addr + 2));
      && ModeRefAddr(Abs, m, addr, x, y) == w == U16(w + 0)
      && ModeRefAddr(AbsX, m, addr, x, y) == U16(w + x)
      && ModeRefAddr(AbsY, m, addr, x, y) == U16(w + y)
  {
  }

  /** `GetWatchRef` as written: the pointer styles read the pointer's high byte from `z + 1`
      computed in `int`, so a pointer at $FF takes its high byte from $0100. */
  function GetWatchRefAsWritten(m: Mem, addr: Word16, style: int): (r: Option<WatchRef>)
    requires 0 <= style < 32
    ensures r.Some? <==> style in WatchStyles(Op(Peek(m, addr)).mode)
    ensures !PointerStyle(style) ==> r == GetWatchRef(m, addr, style)
  {
    match GetWatchRef(m, addr, style)
    case None => None
    case Some(w) =>
      if PointerStyle(style) then
        var z := Peek(m, addr + 1);
        Some(WatchRef(style, LE16(Peek(m, z), Peek(m, z + 1))))
      else Some(w)
  }

  /** For `LDA ($FF),y` the as-written watch expression disagrees with the address the
      instruction reads whenever $0100 and $0000 differ. */
  lemma WatchPointerAsWrittenLeavesPageZero(m: Mem, addr: Word16, x: Byte, y: Byte)
    requires Op(Peek(m, addr)).mode == ZpYRel && Peek(m, addr + 1) == 0xFF
    requires Peek(m, 0x100) != Peek(m, 0)
    ensures U16(GetWatchRefAsWritten(m, addr, EVAL_ZP_PLUS_Y).value.operand + y)
      != InstrRefAddr(m, addr, x, y)
  {
    var lo := Peek(m, 0xFF);
    PostIndexedTarget(m, addr, x, y);
    WrittenPointer(m, addr);
    HighBytesDiffer(lo + y, Peek(m, 0x100), Peek(m, 0));
  }

  lemma PostIndexedTarget(m: Mem, addr: Word16, x: Byte, y: Byte)
    requires Op(Peek(m, addr)).mode == ZpYRel && Peek(m, addr + 1) == 0xFF
    ensures InstrRefAddr(m, addr, x, y) == U16(Peek(m, 0xFF) + y + Peek(m, 0) * 0x100)
  {
    PostIndexedRefAddr(m, addr, x, y);
    PageEndPointer(m);
  }

  lemma PostIndexedRefAddr(m: Mem, addr: Word16, x: Byte, y: Byte)
    ensures ModeRefAddr(ZpYRel, m, addr, x, y) == U16(ZeroPagePointer(m, Peek(m, addr + 1)) + y)
  {
  }

  /** A zero-page pointer at $FF takes its high byte from $00. */
  lemma PageEndPointer(m: Mem)
    ensures ZeroPagePointer(m, 0xFF) as int == Peek(m, 0xFF) as int + Peek(m, 0) as int * 0x100
  {
    assert (0xFF + 1) % 0x100 == 0;
  }

  lemma WrittenPointer(m: Mem, addr: Word16)
    requires Op(Peek(m, addr)).mode == ZpYRel && Peek(m, addr + 1) == 0xFF
    ensures GetWatchRefAsWritten(m, addr, EVAL_ZP_PLUS_Y).Some?
    ensures GetWatchRefAsWritten(m, addr, EVAL_ZP_PLUS_Y).value.operand == Peek(m, 0xFF) + Peek(m, 0x100) * 0x100
  {
    assert EVAL_ZP_PLUS_Y in WatchStyles(ZpYRel);
  }

  lemma HighBytesDiffer(a: int, h1: Byte, h2: Byte)
    requires h1 != h2
    ensures U16(a + h1 * 0x100) != U16(a + h2 * 0x100)
  {
  }

  // ---------------------------------------------------------------------------------------
  // Disassembly of one instruction

  /** What `Disassemble` prints after the optional hex bytes: `dc.b xx` (two hex digits, no
      `$`) for a byte not printed as an instruction, otherwise the mnemonic and the number its
      mode's format shows (none for `A` and for implied operands). */
  datatype Line =
    | DataByte(value: Byte)
    | Instruction(mnemonic: Mnemonic, mode: Mode, operand: Option<Word16>)

  /** The outcome of `Disassemble`: the returned length, the bytes shown in hex, the line (when
      disassembly is shown), `argOffs` (the column where the operand starts) and `branchTrg`
      (`None` where the C code leaves the caller's variable untouched). */
  datatype Listing = Listing(length: nat, hexBytes: seq<Byte>, line: Option<Line>,
                             argOffs: Option<nat>, branchTarget: Option<Word16>)

  /** The hex bytes are padded to this column before the mnemonic (`pad_to(' ', 10)`). */
  const HEX_COLUMN: nat := 10

  /** The `n` bytes from `addr` on, wrapping at the end of memory. */
  function Fetch(m: Mem, addr: Word16, n: nat): (s: seq<Byte>)
    ensures |s| == n
    ensures forall k :: 0 <= k < n ==> s[k] == Peek(m, addr + k)
  {
    if n == 0 then [] else Fetch(m, addr, n - 1) + [Peek(m, addr + (n - 1))]
  }

  /** The number printed by the format of `mode` for the instruction at `addr`: the operand word
      for absolute and indirect modes, the target for branches, the operand byte otherwise. */
  function ModeOperand(mode: Mode, m: Mem, addr: Word16): Option<Word16>
  {
    var b1 := Peek(m, addr + 1);
    match mode
    case Abs | AbsY | AbsX | Rel => Some(LE16(b1, Peek(m, addr + 2)))
    case Branch => Some(U16(addr + 2 + Signed8(b1)))
    case Acc | Non => None
    case ZpRelX | Zp | Imm | ZpYRel | ZpX | ZpRelY | ZpY => Some(b1)
  }

  /** `Disassemble` (without labels). The length is that of `InstructionBytes` whatever is
      shown; an opcode that is not valid becomes a `dc.b` line; the branch or jump target is
      reported for branches and for `JSR $xxxx` (0x20) and `JMP $xxxx` (0x4C). */
  function Disassemble(m: Mem, addr: Word16, showBytes: bool, illegals: bool, showDis: bool): (d: Listing)
    ensures d.length == InstructionBytes(m, addr, illegals)
    ensures d.hexBytes == if showBytes then Fetch(m, addr, d.length) else []
    ensures d.line.Some? <==> showDis
    ensures showDis && !Valid(Peek(m, addr), illegals) ==> d.line == Some(DataByte(Peek(m, addr)))
    ensures showDis && Valid(Peek(m, addr), illegals) ==>
      && d.line.value.Instruction?
      && d.line.value.mnemonic == Op(Peek(m, addr)).mnemonic
      && d.line.value.mode == Op(Peek(m, addr)).mode
      && (d.line.value.operand.Some? <==> d.length > 1)
    ensures d.argOffs.Some? <==> showDis && Valid(Peek(m, addr), illegals)
    ensures d.argOffs.Some? ==>
      d.argOffs.value == (if showBytes then HEX_COLUMN else 0) + |Name(d.line.value.mnemonic)| + 1
    ensures d.branchTarget.Some? <==>
      && showDis && Valid(Peek(m, addr), illegals)
      && (Op(Peek(m, addr)).mode == Branch || Peek(m, addr) in {0x20, 0x4C})
  {
    var op := Peek(m, addr);
    var e := Op(op);
    EntryFacts(op);
    var valid := Valid(op, illegals);
    var length := 1 + (if valid then e.argSize else 0);
    var hex := if showBytes then Fetch(m, addr, length) else [];
    var column := if showBytes then HEX_COLUMN else 0;
    if !showDis then Listing(length, hex, None, None, None)
    else if !valid then Listing(length, hex, Some(DataByte(op)), None, None)
    else
      var operand := ModeOperand(e.mode, m, addr);
      var target := if e.mode == Branch || op == 0x20 || op == 0x4C then operand else None;
      Listing(length, hex, Some(Instruction(e.mnemonic, e.mode, operand)),
              Some(column + |Name(e.mnemonic)| + 1), target)
  }

  /** The target `Disassemble` reports is the address `InstrRefAddr` computes, whatever the
      index registers hold: both read the same operand, and both sign-extend a branch offset. */
  lemma DisassembleTargetIsReference(m: Mem, addr: Word16, showBytes: bool, illegals: bool, x: Byte, y: Byte)
    requires Disassemble(m, addr, showBytes, illegals, true).branchTarget.Some?
    ensures Disassemble(m, addr, showBytes, illegals, true).branchTarget.value == InstrRefAddr(m, addr, x, y)
  {
    var mode := Op(Peek(m, addr)).mode;
    DisassembledTarget(m, addr, showBytes, illegals);
    TargetByMode(mode, m, addr, x, y);
  }

  lemma DisassembledTarget(m: Mem, addr: Word16, showBytes: bool, illegals: bool)
    requires Disassemble(m, addr, showBytes, illegals, true).branchTarget.Some?
    ensures Op(Peek(m, addr)).mode in {Abs, Branch}
    ensures Disassemble(m, addr, showBytes, illegals, true).branchTarget
      == ModeOperand(Op(Peek(m, addr)).mode, m, addr)
  {
    assert Op(0x20).mode == Abs && Op(0x4C).mode == Abs;
  }

  lemma TargetByMode(mode: Mode, m: Mem, addr: Word16, x: Byte, y: Byte)
    requires mode in {Abs, Branch}
    ensures ModeOperand(mode, m, addr) == Some(ModeRefAddr(mode, m, addr, x, y))
  {
  }

  /** How the number printed for an instruction locates the address `t` it refers to. */
  predicate OperandLocates(mode: Mode, operand: Option<Word16>, m: Mem, x: Byte, y: Byte, t: Word16)
  {
    match mode
    case Zp | Abs | Branch => operand == Some(t)
    case ZpX | AbsX => operand.Some? && U16(operand.value + x) == t
    case ZpY | AbsY => operand.Some? && U16(operand.value + y) == t
    case ZpRelX => operand.Some? && t == ZeroPagePointer(m, U8(operand.value + x))
    case ZpRelY => operand.Some? && t == ZeroPagePointer(m, U8(operand.value + y))
    case ZpYRel => operand.Some? && t == U16(ZeroPagePointer(m, U8(operand.value)) + y)
    case Rel =>
      // the pointer's high byte comes from the same page, wrapping from $xxFF to $xx00
      && operand.Some?
      && U8(t) == Peek(m, operand.value)
      && t / 0x100 == Peek(m, if U8(operand.value) == 0xFF then operand.value - 0xFF else operand.value + 1)
    case Imm => operand.Some? && t == 0
    case Acc | Non => operand == None && t == 0
  }

  /** The number `Disassemble` prints locates the address `InstrRefAddr` computes: it is that
      address for direct modes, the base the index register is added to for indexed modes, and
      where the pointer is stored for indirect modes. */
  lemma DisassembleOperandIsReference(m: Mem, addr: Word16, illegals: bool, x: Byte, y: Byte)
    requires Valid(Peek(m, addr), illegals)
    ensures OperandLocates(Op(Peek(m, addr)).mode, Disassemble(m, addr, false, illegals, true).line.value.operand,
                           m, x, y, InstrRefAddr(m, addr, x, y))
  {
    var mode := Op(Peek(m, addr)).mode;
    DisassembledOperand(m, addr, illegals);
    OperandByMode(mode, m, addr, x, y);
  }

  lemma OperandByMode(mode: Mode, m: Mem, addr: Word16, x: Byte, y: Byte)
    ensures OperandLocates(mode, ModeOperand(mode, m, addr), m, x, y, ModeRefAddr(mode, m, addr, x, y))
  {
    match mode
    case ZpYRel => LocatesPostIndexed(m, addr, x, y);
    case Rel => LocatesIndirect(m, addr, x, y);
    case ZpRelX | ZpRelY => LocatesPreIndexed(mode, m, addr, x, y);
    case Zp | Abs | Branch | ZpX | AbsX | ZpY | AbsY | Imm | Acc | Non => LocatesDirect(mode, m, addr, x, y);
  }

  lemma LocatesDirect(mode: Mode, m: Mem, addr: Word16, x: Byte, y: Byte)
    requires mode in {Zp, Abs, Branch, ZpX, AbsX, ZpY, AbsY, Imm, Acc, Non}
    ensures OperandLocates(mode, ModeOperand(mode, m, addr), m, x, y, ModeRefAddr(mode, m, addr, x, y))
  {
  }

  lemma LocatesPreIndexed(mode: Mode, m: Mem, addr: Word16, x: Byte, y: Byte)
    requires mode in {ZpRelX, ZpRelY}
    ensures OperandLocates(mode, ModeOperand(mode, m, addr), m, x, y, ModeRefAddr(mode, m, addr, x, y))
  {
  }

  lemma LocatesPostIndexed(m: Mem, addr: Word16, x: Byte, y: Byte)
    ensures OperandLocates(ZpYRel, ModeOperand(ZpYRel, m, addr), m, x, y, ModeRefAddr(ZpYRel, m, addr, x, y))
  {
    var b1 := Peek(m, addr + 1);
    assert U8(b1) == b1;
    assert ModeOperand(ZpYRel, m, addr) == Some(b1);
    assert ModeRefAddr(ZpYRel, m, addr, x, y) == U16(ZeroPagePointer(m, b1) + y);
  }

  lemma LocatesIndirect(m: Mem, addr: Word16, x: Byte, y: Byte)
    ensures OperandLocates(Rel, ModeOperand(Rel, m, addr), m, x, y, ModeRefAddr(Rel, m, addr, x, y))
  {
    IndirectPointer(m, LE16(Peek(m, addr + 1), Peek(m, addr + 2)));
  }

  /** The high byte of the `JMP ($xxxx)` target comes from the next byte of the same page. */
  lemma IndirectPointer(m: Mem, p: Word16)
    ensures U8(IndirectTarget(m, p)) == Peek(m, p)
    ensures IndirectTarget(m, p) / 0x100 == Peek(m, if U8(p) == 0xFF then p - 0xFF else p + 1)
  {
    if U8(p) == 0xFF {
      assert (p as int + 1) % 0x100 + p / 0x100 * 0x100 == p - 0xFF;
    } else {
      assert (p as int + 1) % 0x100 + p / 0x100 * 0x100 == p + 1;
    }
  }

  lemma DisassembledOperand(m: Mem, addr: Word16, illegals: bool)
    requires Valid(Peek(m, addr), illegals)
    ensures Disassemble(m, addr, false, illegals, true).line.value.operand
      == ModeOperand(Op(Peek(m, addr)).mode, m, addr)
  {
  }

}
