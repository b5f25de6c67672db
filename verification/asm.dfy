/** The one-line assembler (`Assemble` in Mnemonics.cpp): it reads a mnemonic and an operand
    from a line of text, picks the addressing mode, looks up the opcode and writes 1 to 3 bytes
    into memory, returning how many it wrote, or 0 and no write when the line is rejected. */
module Asm {

  import opened Words
  import opened Opcodes
  import opened Memory
  import opened Outcomes
  import opened Disasm

  // ---------------------------------------------------------------------------------------
  // Reading the line

  /** The byte at `i` of the C string `t`; past the end it is the terminating NUL. */
  function Ch(t: seq<Byte>, i: nat): Byte
  {
    if i < |t| then t[i] else 0
  }

  /** The byte at `i` as the C code compares it: `char` is signed, so bytes from 0x80 on are
      negative, below 'A' and below ' '. */
  function Code(t: seq<Byte>, i: nat): int
  {
    Signed8(Ch(t, i))
  }

  /** The character classes the scanning loops skip over; none contains the NUL terminator. */
  datatype CharClass =
    | BelowA      // `*cmd && *cmd < 'A'`: what precedes the mnemonic
    | FromA       // `*cmd && *cmd >= 'A'`: the mnemonic token
    | Blank       // `*cmd && *cmd <= ' '`: blanks between the parts
    | Space       // `isspace`: what `strtol` skips before the number
    | Digit(base: nat)

  /** The value of `c` as a digit in base 10 or 16, or -1. */
  function DigitValue(c: int, base: nat): int
  {
    if '0' as int <= c <= '9' as int then c - '0' as int
    else if base == 16 && 'a' as int <= c <= 'f' as int then c - 'a' as int + 10
    else if base == 16 && 'A' as int <= c <= 'F' as int then c - 'A' as int + 10
    else -1
  }

  predicate InClass(cls: CharClass, c: int)
  {
    match cls
    case BelowA => c != 0 && c < 'A' as int
    case FromA => c != 0 && c >= 'A' as int
    case Blank => c != 0 && c <= ' ' as int
    case Space => c == ' ' as int || 9 <= c <= 13
    case Digit(base) => DigitValue(c, base) >= 0
  }

  /** The end of the maximal run of `cls` characters starting at `i`. */
  function Skip(t: seq<Byte>, i: nat, cls: CharClass): (r: nat)
    ensures i <= r
    ensures i <= |t| ==> r <= |t|
    ensures forall k :: i <= k < r ==> InClass(cls, Code(t, k))
    ensures !InClass(cls, Code(t, r))
    decreases |t| - i
  {
    if i < |t| && InClass(cls, Code(t, i)) then Skip(t, i + 1, cls) else i
  }

  /** The number the digits `t[i..j)` spell in `base`. */
  function DigitsValue(t: seq<Byte>, i: nat, j: nat, base: nat): int
    decreases j
  {
    if j <= i then 0 else DigitsValue(t, i, j - 1, base) * base + DigitValue(Code(t, j - 1), base)
  }

  /** `strtol(cmd, &cmd, base)` for base 10 or 16: blanks, an optional sign and a run of
      digits; without digits the value is 0 and the end is where reading started. */
  function Strtol(t: seq<Byte>, i: nat, base: nat): (r: (int, nat))
    ensures r.1 == i || i < r.1
    ensures r.1 == i ==> r.0 == 0
    ensures r.1 != i ==> !InClass(Digit(base), Code(t, r.1))
  {
    var k := Skip(t, i, Space);
    var sign := Code(t, k);
    var first := if sign == '-' as int || sign == '+' as int then k + 1 else k;
    if !InClass(Digit(base), Code(t, first)) then (0, i)
    else
      var end := Skip(t, first, Digit(base));
      var v := DigitsValue(t, first, end, base);
      (if sign == '-' as int then -v else v, end)
  }

  /** The digit for `n` below 16, lower-case as `%x` and `%d` print it. */
  function DigitChar(n: int): Byte
    requires 0 <= n < 16
  {
    if n < 10 then '0' as int + n else 'a' as int + n - 10
  }

  /** `w` printed as `width` digits in `base` with leading zeros (`%0<width>x` for base 16,
      as the disassembler prints `$%02x` and `$%04x`), most significant first. */
  function Numeral(w: nat, base: nat, width: nat): (s: seq<Byte>)
    requires base == 10 || base == 16
    ensures |s| == width
  {
    if width == 0 then [] else Numeral(w / base, base, width - 1) + [DigitChar(w % base)]
  }

  function Pow(base: nat, n: nat): nat
  {
    if n == 0 then 1 else base * Pow(base, n - 1)
  }

  lemma DigitCharValue(n: int, base: nat)
    requires base == 10 || base == 16
    requires 0 <= n < base
    ensures Signed8(DigitChar(n)) == DigitChar(n)
    ensures DigitValue(DigitChar(n), base) == n
  {
  }

  /** The digits `Numeral` prints are digits of the base that spell the number back. */
  lemma {:induction false} NumeralValue(t: seq<Byte>, i: nat, w: nat, base: nat, width: nat)
    requires base == 10 || base == 16
    requires w < Pow(base, width)
    requires i + width <= |t| && t[i..i + width] == Numeral(w, base, width)
    ensures forall k :: i <= k < i + width ==> InClass(Digit(base), Code(t, k))
    ensures DigitsValue(t, i, i + width, base) == w
    decreases width
  {
    if width > 0 {
      var j := i + width - 1;
      assert t[i..j] == t[i..i + width][..width - 1];
      NumeralValue(t, i, w / base, base, width - 1);
      assert t[j] == t[i..i + width][width - 1] == DigitChar(w % base);
      DigitCharValue(w % base, base);
      assert Code(t, j) == DigitChar(w % base);
    }
  }

  /** A run of `cls` characters from `i` that stops at `j` is what `Skip` skips. */
  lemma {:induction false} SkipRun(t: seq<Byte>, i: nat, j: nat, cls: CharClass)
    requires i <= j
    requires forall k :: i <= k < j ==> InClass(cls, Code(t, k))
    requires !InClass(cls, Code(t, j))
    ensures Skip(t, i, cls) == j
    decreases j - i
  {
    if i < j {
      assert InClass(cls, Code(t, i));
      assert i < |t|;
      SkipRun(t, i + 1, j, cls);
    }
  }

  /** A number printed as `width` hex digits and followed by anything but a hex digit reads
      back as itself, with the reading ending right after the digits. */
  lemma ReadHex(t: seq<Byte>, i: nat, w: nat, width: nat)
    requires 1 <= width && w < Pow(16, width)
    requires i + width <= |t| && t[i..i + width] == Numeral(w, 16, width)
    requires !InClass(Digit(16), Code(t, i + width))
    ensures Strtol(t, i, 16) == (w, i + width)
  {
    NumeralValue(t, i, w, 16, width);
    assert InClass(Digit(16), Code(t, i));
    assert Skip(t, i, Space) == i;
  }

  /** A signed number, after `pad` white-space characters, written as a minus sign when it is
      negative and then `width` digits in `base`, reads back as itself when anything but a digit
      follows; the reading ends right after the digits. */
  lemma ReadNumber(t: seq<Byte>, i: nat, pad: nat, v: int, base: nat, width: nat)
    requires base == 10 || base == 16
    requires 1 <= width && (if v < 0 then -v else v) < Pow(base, width)
    requires forall k :: i <= k < i + pad ==> InClass(Space, Code(t, k))
    requires var digits := i + pad + (if v < 0 then 1 else 0);
      && digits + width <= |t|
      && (v < 0 ==> t[i + pad] == '-' as int)
      && t[digits..digits + width] == Numeral(if v < 0 then -v else v, base, width)
      && !InClass(Digit(base), Code(t, digits + width))
    ensures Strtol(t, i, base) == (v, i + pad + (if v < 0 then 1 else 0) + width)
  {
    var digits := i + pad + (if v < 0 then 1 else 0);
    var w := if v < 0 then -v else v;
    NumeralValue(t, digits, w, base, width);
    assert InClass(Digit(base), Code(t, digits));
    var sign := Code(t, i + pad);
    assert v < 0 ==> sign == '-' as int;
    assert v >= 0 ==> sign != '-' as int && sign != '+' as int;
    SkipRun(t, i, i + pad, Space);
    SkipRun(t, digits, digits + width, Digit(base));
    assert Skip(t, i, Space) == i + pad;
    assert DigitsValue(t, digits, digits + width, base) == w;
  }

  // ---------------------------------------------------------------------------------------
  // The mnemonic

  /** Where the mnemonic token starts: after everything below 'A'. */
  function TokenStart(t: seq<Byte>): (r: nat)
    ensures r <= |t|
  {
    Skip(t, 0, BelowA)
  }

  /** Where the mnemonic token ends. */
  function TokenEnd(t: seq<Byte>): (r: nat)
    ensures TokenStart(t) <= r <= |t|
  {
    Skip(t, TokenStart(t), FromA)
  }

  /** The mnemonic token: the run of characters from 'A' up after the leading characters. */
  function Token(t: seq<Byte>): seq<Byte>
  {
    t[TokenStart(t)..TokenEnd(t)]
  }

  lemma TokenIsWord(t: seq<Byte>)
    ensures forall k :: 0 <= k < |Token(t)| ==> InClass(FromA, Signed8(Token(t)[k]))
  {
    var s, e := TokenStart(t), TokenEnd(t);
    forall k | 0 <= k < |Token(t)|
      ensures InClass(FromA, Signed8(Token(t)[k]))
    {
      assert Token(t)[k] == Ch(t, s + k);
      assert InClass(FromA, Code(t, s + k));
    }
  }

  /** ASCII lower case, as `_strnicmp` folds. */
  function Lower(c: int): int
  {
    if 'A' as int <= c <= 'Z' as int then c + 32 else c
  }

  /** `_strnicmp(name, token, |token|) == 0`: the token is a case-insensitive prefix of the
      name (a shorter name meets its NUL terminator, which no token character equals). */
  predicate Matches(name: string, token: seq<Byte>)
  {
    |token| <= |name| && forall k :: 0 <= k < |token| ==> Lower(name[k] as int) == Lower(token[k])
  }

  /** The first mnemonic from number `from` on whose spelling the token matches. */
  function FindMnemonic(token: seq<Byte>, from: nat): (r: Option<Mnemonic>)
    requires from <= MNEMONIC_COUNT
    ensures r.Some? ==> from <= r.value && Matches(Name(r.value), token)
    ensures r.Some? ==> forall j :: from <= j < r.value ==> !Matches(Name(j), token)
    ensures r.None? <==> forall j :: from <= j < MNEMONIC_COUNT ==> !Matches(Name(j), token)
  {
    FirstMatch(Name, token, from)
  }

  /** The search of `FindMnemonic` over any spelling table. */
  function FirstMatch(names: Mnemonic -> string, token: seq<Byte>, from: nat): (r: Option<Mnemonic>)
    requires from <= MNEMONIC_COUNT
    ensures r.Some? ==> from <= r.value && Matches(names(r.value), token)
    ensures r.Some? ==> forall j :: from <= j < r.value ==> !Matches(names(j), token)
    ensures r.None? <==> forall j :: from <= j < MNEMONIC_COUNT ==> !Matches(names(j), token)
    decreases MNEMONIC_COUNT - from
  {
    if from == MNEMONIC_COUNT then None
    else if Matches(names(from), token) then Some(from)
    else FirstMatch(names, token, from + 1)
  }

  /** No token matches the placeholder spelling of invalid opcodes. */
  lemma NoTokenIsInvalid(token: seq<Byte>)
    requires |token| > 0
    requires forall k :: 0 <= k < |token| ==> InClass(FromA, Signed8(token[k]))
    ensures !Matches(Name(INV), token)
  {
    assert Name(INV)[0] == '?';
    assert InClass(FromA, Signed8(token[0]));
  }

  // ---------------------------------------------------------------------------------------
  // Opcodes of a mnemonic

  /** Opcode `op` is the mnemonic `mn` in mode `mode`. */
  predicate Encodes(op: Byte, mn: Mnemonic, mode: Mode)
  {
    Op(op).mnemonic == mn && Op(op).mode == mode
  }

  /** The opcode table as a sequence indexed by opcode. */
  function Table(): (t: seq<Entry>)
    ensures |t| == 0x100 && forall op: Byte :: t[op] == Op(op)
  {
    seq(0x100, (op: int) requires 0 <= op < 0x100 => Op(op))
  }

  /** The last position below `below` whose entry is `mn` in `mode`. */
  function LastMatch(entries: seq<Entry>, mn: Mnemonic, mode: Mode, below: nat): (r: Option<nat>)
    requires below <= |entries|
    ensures r.Some? ==> r.value < below && entries[r.value].mnemonic == mn && entries[r.value].mode == mode
    ensures r.Some? ==> forall o :: r.value < o < below ==> !(entries[o].mnemonic == mn && entries[o].mode == mode)
    ensures r.None? <==> forall o :: 0 <= o < below ==> !(entries[o].mnemonic == mn && entries[o].mode == mode)
  {
    if below == 0 then None
    else if entries[below - 1].mnemonic == mn && entries[below - 1].mode == mode then Some(below - 1)
    else LastMatch(entries, mn, mode, below - 1)
  }

  /** `op_code_instr[mode]` after the loop over the table: the table keeps overwriting it, so
      it is the highest opcode encoding `mn` in `mode`. */
  function OpcodeFor(mn: Mnemonic, mode: Mode): (r: Option<Byte>)
    ensures r.Some? ==> Encodes(r.value, mn, mode)
  {
    var r := LastMatch(Table(), mn, mode, 0x100);
    if r.Some? then Some(r.value) else None
  }

  /** The opcode `OpcodeFor` picks is the last of the table's encodings of `mn` in `mode`,
      and there is none exactly when it picks none. */
  lemma OpcodeForIsLast(mn: Mnemonic, mode: Mode)
    ensures OpcodeFor(mn, mode).Some? ==> forall o: Byte :: o > OpcodeFor(mn, mode).value ==> !Encodes(o, mn, mode)
    ensures OpcodeFor(mn, mode).None? <==> forall o: Byte :: !Encodes(o, mn, mode)
  {
    var t := Table();
    forall o: Byte
      ensures Encodes(o, mn, mode) <==> t[o].mnemonic == mn && t[o].mode == mode
    {
      assert t[o] == Op(o);
    }
  }

  /** `addr_mode_mask & (1 << mode)`: some opcode encodes `mn` in `mode`. */
  predicate Available(mn: Mnemonic, mode: Mode)
  {
    OpcodeFor(mn, mode).Some?
  }

  // ---------------------------------------------------------------------------------------
  // The operand

  /** The operand as the flags of the C code record it: `(`, `#`, absolute, the number, and
      the `,x` / `,y` index; or no operand at all. */
  datatype Operand =
    | Implied
    | Explicit(rel: bool, imm: bool, abs: bool, value: int, ix: bool, iy: bool)

  predicate IsX(c: int) { c == 'x' as int || c == 'X' as int }
  predicate IsY(c: int) { c == 'y' as int || c == 'Y' as int }

  /** Reads the operand from position `j` (after the blanks following the mnemonic); `None`
      where the C code gives up with 0. */
  function ParseOperand(t: seq<Byte>, j: nat, mn: Mnemonic): (r: Option<Operand>)
    ensures Code(t, j) == 0 ==> r == Some(Implied)
    ensures r.Some? && r.value.Explicit? ==> (r.value.rel || r.value.imm || r.value.abs)
  {
    var c := Code(t, j);
    var next := Code(t, j + 1);
    if c == 0 then Some(Implied)
    else if (c == 'a' as int || c == 'A' as int) && (next <= ' ' as int || next == ';' as int) then Some(Implied)
    else
      var imm, rel, dollar := c == '#' as int, c == '(' as int, c == '$' as int;
      var j1 := if imm || rel || dollar then j + 1 else j;
      var prefixed := (imm || rel) && Code(t, j1) == '$' as int;
      var hex := dollar || prefixed;
      var j2 := if prefixed then j1 + 1 else j1;
      var abs := dollar || (!hex && !imm && !rel);
      var number := Strtol(t, j2, if hex then 16 else 10);
      var value, j3 := number.0, number.1;
      var j4 := Skip(t, j3, Blank);
      if Code(t, j4) == ',' as int then
        var k := Skip(t, j4 + 1, Blank);
        if IsX(Code(t, k)) then CloseOperand(t, k, rel, imm, abs, value, true, false)
        else if (!rel || mn == STX || mn == LDX) && IsY(Code(t, k)) then
          CloseOperand(t, k, rel, imm, abs, value, false, true)
        else None
      else CloseOperand(t, j4, rel, imm, abs, value, false, false)
  }

  /** The rest of the operand from `k`: a `)` only after `(`, and `),y` for `($12),y`. */
  function CloseOperand(t: seq<Byte>, k: nat, rel: bool, imm: bool, abs: bool, value: int, ix: bool, iy: bool): (r: Option<Operand>)
    ensures r.Some? ==> r.value.Explicit? && r.value.rel == rel && r.value.imm == imm && r.value.abs == abs
    ensures r.Some? ==> r.value.value == value && r.value.ix == ix && (iy ==> r.value.iy)
    ensures r.Some? && !rel ==> r.value.iy == iy
    ensures Code(t, k) == ')' as int && !rel ==> r.None?
  {
    if Code(t, k) == ')' as int && !rel then None
    else
      var k2 := if Code(t, k) == ')' as int then k + 1 else k;
      if Code(t, k2) == ',' as int && rel then
        if IsY(Code(t, Skip(t, k2 + 1, Blank))) then Some(Explicit(rel, imm, abs, value, ix, true))
        else None
      else Some(Explicit(rel, imm, abs, value, ix, iy))
  }

  // ---------------------------------------------------------------------------------------
  // The statement and its encoding

  /** Why `Assemble` returns 0. */
  datatype AsmError =
    | NoMnemonic         // nothing from 'A' up on the line
    | UnknownMnemonic    // no mnemonic spelling starts with the token
    | BadOperand         // the operand syntax is rejected
    | BranchOutOfRange   // the branch target is more than 128 bytes away
    | ModeNotAvailable   // the mnemonic has no opcode in the chosen mode

  /** A mnemonic with its operand. */
  datatype Statement = Statement(mnemonic: Mnemonic, operand: Operand)

  /** The number on the line; -1 (the initial `arg`) when there is no operand. */
  function Value(s: Statement): int
  {
    if s.operand.Explicit? then s.operand.value else -1
  }

  /** Splits a line into the mnemonic and the operand. */
  function ParseStatement(t: seq<Byte>): (r: Result<Statement, AsmError>)
    ensures r == Err(NoMnemonic) <==> |Token(t)| == 0
    ensures r == Err(UnknownMnemonic) <==>
      |Token(t)| > 0 && forall j :: 0 <= j < MNEMONIC_COUNT ==> !Matches(Name(j), Token(t))
    ensures r.Ok? ==> r.value.mnemonic != INV
    ensures r.Ok? ==> Matches(Name(r.value.mnemonic), Token(t))
    ensures r.Ok? ==> forall j :: 0 <= j < r.value.mnemonic ==> !Matches(Name(j), Token(t))
    ensures r.Ok? && r.value.operand.Explicit? ==> r.value.operand.rel || r.value.operand.imm || r.value.operand.abs
  {
    var token := Token(t);
    if |token| == 0 then Err(NoMnemonic)
    else
      match FindMnemonic(token, 0)
      case None => Err(UnknownMnemonic)
      case Some(mn) =>
        TokenIsWord(t);
        NoTokenIsInvalid(token);
        match ParseOperand(t, Skip(t, TokenEnd(t), Blank), mn)
        case None => Err(BadOperand)
        case Some(operand) => Ok(Statement(mn, operand))
  }

  /** The mode and the argument to write, exactly as the C code picks them: a mnemonic that has
      a branch form takes any absolute operand as a branch target; otherwise a value below
      $100 selects the zero-page form, whether or not the mnemonic has one. */
  function ChooseMode(s: Statement, addr: Word16): (r: Result<(Mode, int), AsmError>)
    ensures r.Err? ==> r.error in {ModeNotAvailable, BranchOutOfRange}
    ensures r == Err(BranchOutOfRange) ==> Available(s.mnemonic, Branch) && !(-128 <= Value(s) - (addr + 2) <= 127)
    ensures r == Err(ModeNotAvailable) ==> s.operand.Explicit? && !s.operand.rel && !s.operand.imm && !s.operand.abs
    ensures r.Ok? && r.value.0 == Branch ==> -128 <= r.value.1 <= 127 && r.value.1 == Value(s) - (addr + 2)
    ensures r.Ok? && r.value.0 != Branch ==> r.value.1 == Value(s)
  {
    match s.operand
    case Implied => Ok((if Available(s.mnemonic, Acc) then Acc else Non, -1))
    case Explicit(rel, imm, abs, value, ix, iy) =>
      if rel then Ok((if !ix && !iy then Rel else if ix then ZpRelX else ZpYRel, value))
      else if imm then Ok((Imm, value))
      else if abs then
        if Available(s.mnemonic, Branch) then
          var displacement := value - (addr + 2);
          if displacement < -128 || displacement > 127 then Err(BranchOutOfRange)
          else Ok((Branch, displacement))
        else if value < 0x100 && s.mnemonic == STX && iy then Ok((ZpY, value))
        else if value < 0x100 then Ok((if ix then ZpX else if iy then ZpY else Zp, value))
        else Ok((if ix then AbsX else if iy then AbsY else Abs, value))
      else Err(ModeNotAvailable)
  }

  /** The absolute form of a zero-page mode. */
  function Widen(mode: Mode): Mode
  {
    match mode
    case Zp => Abs
    case ZpX => AbsX
    case ZpY => AbsY
    case _ => mode
  }

  /** The mode choice with the evident intent: a zero-page form the mnemonic lacks falls back
      to its absolute form (`JSR $0080`, `JMP $0012`, `LDA $0012,y`). */
  function ChooseModeWithFallback(s: Statement, addr: Word16): (r: Result<(Mode, int), AsmError>)
    ensures ChooseMode(s, addr).Err? ==> r == ChooseMode(s, addr)
    ensures ChooseMode(s, addr).Ok? ==> r.Ok? && r.value.1 == ChooseMode(s, addr).value.1
    ensures r.Ok? && Available(s.mnemonic, ChooseMode(s, addr).value.0) ==> r == ChooseMode(s, addr)
    ensures r.Ok? && r.value.0 == Branch ==> -128 <= r.value.1 <= 127 && r.value.1 == Value(s) - (addr + 2)
    ensures r.Ok? && r.value.0 != Branch ==> r.value.1 == Value(s)
  {
    match ChooseMode(s, addr)
    case Err(e) => Err(e)
    case Ok((mode, arg)) =>
      if !Available(s.mnemonic, mode) && Available(s.mnemonic, Widen(mode)) then Ok((Widen(mode), arg))
      else Ok((mode, arg))
  }

  /** What `Assemble` writes: the opcode for the mnemonic in the mode, and the argument; `value`
      is the number on the line (-1 without operand, the initial `arg`), `arg` is what is
      written (for a branch, the displacement from the next instruction). */
  datatype Encoding = Encoding(mnemonic: Mnemonic, mode: Mode, opcode: Byte, value: int, arg: int)

  /** Looks up the opcode for the chosen mode. */
  function Encode(s: Statement, choice: Result<(Mode, int), AsmError>): (r: Result<Encoding, AsmError>)
    ensures choice.Err? ==> r == Err(choice.error)
    ensures choice.Ok? ==> (r.Ok? <==> Available(s.mnemonic, choice.value.0))
    ensures r.Ok? ==> && r.value.mnemonic == s.mnemonic && r.value.mode == choice.value.0
                      && Encodes(r.value.opcode, s.mnemonic, choice.value.0) && r.value.arg == choice.value.1
                      && r.value.value == Value(s)
  {
    match choice
    case Err(e) => Err(e)
    case Ok((mode, arg)) =>
      match OpcodeFor(s.mnemonic, mode)
      case None => Err(ModeNotAvailable)
      case Some(op) =>
        Ok(Encoding(s.mnemonic, mode, op, Value(s), arg))
  }

  /** An encoding read from a line at `addr`: the opcode is the mnemonic in the mode, and the
      argument is the number on the line, or for a branch its displacement from `addr + 2`. */
  predicate Consistent(e: Encoding, addr: Word16)
  {
    && Encodes(e.opcode, e.mnemonic, e.mode)
    && e.mnemonic != INV
    && (e.mode == Branch ==> -128 <= e.arg <= 127 && e.arg == e.value - (addr + 2))
    && (e.mode != Branch ==> e.arg == e.value)
  }

  /** The line as read with the corrected mode choice. */
  function ParseWithFallback(t: seq<Byte>, addr: Word16): (r: Result<Encoding, AsmError>)
    ensures r.Ok? ==> ParseStatement(t).Ok? && r.value.mnemonic == ParseStatement(t).value.mnemonic
    ensures r.Ok? ==> Consistent(r.value, addr)
  {
    match ParseStatement(t)
    case Err(e) => Err(e)
    case Ok(s) => Encode(s, ChooseModeWithFallback(s, addr))
  }

  /** The line as `Assemble` reads it: the statement, encoded in the mode chosen as written. */
  function Parse(t: seq<Byte>, addr: Word16): (r: Result<Encoding, AsmError>)
    ensures r.Ok? ==> ParseStatement(t).Ok? && r.value.mnemonic == ParseStatement(t).value.mnemonic
    ensures r.Ok? ==> Consistent(r.value, addr)
  {
    match ParseStatement(t)
    case Err(e) => Err(e)
    case Ok(s) => Encode(s, ChooseMode(s, addr))
  }

  /** The bytes written: the opcode, then the argument's low byte and its high byte (`arg >> 8`,
      an arithmetic shift), as many as the opcode's operand size. */
  function Bytes(e: Encoding): (b: seq<Byte>)
    ensures |b| == Op(e.opcode).argSize + 1
    ensures b[0] == e.opcode
    ensures |b| > 1 ==> b[1] == U8(e.arg)
    ensures |b| > 2 ==> b[2] == U8(e.arg / 0x100)
  {
    EntryFacts(e.opcode);
    [e.opcode]
      + (if Op(e.opcode).argSize >= 1 then [U8(e.arg)] else [])
      + (if Op(e.opcode).argSize > 1 then [U8(e.arg / 0x100)] else [])
  }

  /** The outcome of `Assemble`: its return value and the memory afterwards. */
  datatype Assembled = Assembled(count: nat, mem: Mem)

  /** Writes an encoding at `addr`, or nothing for an error. */
  function Emit(m: Mem, addr: Word16, r: Result<Encoding, AsmError>): (a: Assembled)
    ensures a.count == 0 <==> r.Err?
    ensures r.Err? ==> a.mem == m
    ensures r.Ok? ==> a.count == |Bytes(r.value)| && 2 <= a.count + 1 <= 4
    ensures r.Ok? ==> forall k :: 0 <= k < a.count ==> Peek(a.mem, addr + k) == Bytes(r.value)[k]
    ensures forall b: Word16 :: !InRange(b, addr, a.count) ==> a.mem[b] == m[b]
  {
    match r
    case Err(_) => Assembled(0, m)
    case Ok(e) =>
      var bytes := Bytes(e);
      PokeAllEffect(m, addr, bytes);
      Assembled(|bytes|, PokeAll(m, addr, bytes))
  }

  /** The assembler with the corrected mode choice: the number of bytes written at `addr` (0
      when the line is rejected) and the memory afterwards. */
  function AssembleWithFallback(m: Mem, t: seq<Byte>, addr: Word16): (a: Assembled)
    ensures a.count == 0 <==> ParseWithFallback(t, addr).Err?
    ensures a.count == 0 ==> a.mem == m
    ensures forall b: Word16 :: !InRange(b, addr, a.count) ==> a.mem[b] == m[b]
  {
    Emit(m, addr, ParseWithFallback(t, addr))
  }

  /** `Assemble`: the number of bytes written at `addr` (0 when the line is rejected) and the
      memory afterwards. */
  function Assemble(m: Mem, t: seq<Byte>, addr: Word16): (a: Assembled)
    ensures a.count == 0 <==> Parse(t, addr).Err?
    ensures a.count == 0 ==> a.mem == m
    ensures forall b: Word16 :: !InRange(b, addr, a.count) ==> a.mem[b] == m[b]
  {
    Emit(m, addr, Parse(t, addr))
  }

  // ---------------------------------------------------------------------------------------
  // Assembling and disassembling agree

  /** The number the disassembler shows for an operand written as `value` in `mode`: none
      for `A` and implied operands, the byte for one-byte operands, and the 16-bit word for
      absolute operands and branch targets. */
  function Shown(mode: Mode, value: int): Option<Word16>
  {
    match mode
    case Acc | Non => None
    case Abs | AbsX | AbsY | Rel | Branch => Some(U16(value))
    case ZpRelX | Zp | Imm | ZpYRel | ZpX | ZpRelY | ZpY => Some(U8(value))
  }

  /** The low byte and the arithmetically shifted high byte make up the value modulo 2^16. */
  lemma JoinBytes(v: int)
    ensures LE16(U8(v), U8(v / 0x100)) == U16(v)
  {
    var q, r := v / 0x100, v % 0x100;
    assert v == q * 0x100 + r;
    var qh, ql := q / 0x100, q % 0x100;
    assert q == qh * 0x100 + ql;
    assert v == qh * 0x1_0000 + (ql * 0x100 + r);
    assert 0 <= ql * 0x100 + r < 0x1_0000;
  }

  /** A displacement in [-128, 127] survives the trip through a byte. */
  lemma DisplacementByte(d: int)
    requires -128 <= d <= 127
    ensures Signed8(U8(d)) == d
  {
  }

  /** The operand bytes of a consistent encoding disassemble to the number on the line. */
  lemma DecodeOperand(mode: Mode, m: Mem, addr: Word16, value: int, arg: int)
    requires ModeArgSize(mode) >= 1 ==> Peek(m, addr + 1) == U8(arg)
    requires ModeArgSize(mode) == 2 ==> Peek(m, addr + 2) == U8(arg / 0x100)
    requires mode == Branch ==> -128 <= arg <= 127 && arg == value - (addr + 2)
    requires mode != Branch ==> arg == value
    ensures ModeOperand(mode, m, addr) == Shown(mode, value)
  {
    match mode
    case Abs | AbsX | AbsY | Rel => JoinBytes(value);
    case Branch =>
      DisplacementByte(arg);
      assert U16(addr + 2 + Signed8(U8(arg))) == U16(value);
    case _ =>
  }

  /** The corrected assembler followed by `Disassemble` at the same address gives back the
      mnemonic, the mode and the number on the line, with the length the assembler returned; a
      branch reports the target written on the line. This holds with illegal opcodes shown, and
      without them for documented mnemonics. */
  lemma AssembleWithFallbackThenDisassemble(m: Mem, t: seq<Byte>, addr: Word16, illegals: bool)
    requires ParseWithFallback(t, addr).Ok?
    requires illegals || ParseWithFallback(t, addr).value.mnemonic < WDC_AND_ILLEGAL
    ensures var e := ParseWithFallback(t, addr).value;
      var a := AssembleWithFallback(m, t, addr);
      var d := Disassemble(a.mem, addr, false, illegals, true);
      && d.length == a.count
      && d.line == Some(Instruction(e.mnemonic, e.mode, Shown(e.mode, e.value)))
      && (e.mode == Branch ==> d.branchTarget == Some(U16(e.value)))
  {
    var e := ParseWithFallback(t, addr).value;
    var a := AssembleWithFallback(m, t, addr);
    var bytes := Bytes(e);
    assert Peek(a.mem, addr) == bytes[0] == e.opcode;
    EntryFacts(e.opcode);
    assert Valid(e.opcode, illegals);
    if ModeArgSize(e.mode) >= 1 {
      assert Peek(a.mem, addr + 1) == bytes[1];
    }
    if ModeArgSize(e.mode) == 2 {
      assert Peek(a.mem, addr + 2) == bytes[2];
    }
    DecodeOperand(e.mode, a.mem, addr, e.value, e.arg);
    DisassembledOperand(a.mem, addr, illegals);
  }

  /** What the corrected assembler returns is the length `InstructionBytes` finds at `addr`
      afterwards. */
  lemma AssembleWithFallbackLength(m: Mem, t: seq<Byte>, addr: Word16)
    requires ParseWithFallback(t, addr).Ok?
    ensures AssembleWithFallback(m, t, addr).count == InstructionBytes(AssembleWithFallback(m, t, addr).mem, addr, true)
    ensures AssembleWithFallback(m, t, addr).count == ModeArgSize(ParseWithFallback(t, addr).value.mode) + 1
  {
    var e := ParseWithFallback(t, addr).value;
    var a := AssembleWithFallback(m, t, addr);
    assert Peek(a.mem, addr) == Bytes(e)[0] == e.opcode;
    EntryFacts(e.opcode);
  }

  /** The mnemonic the corrected assembler encodes is the first whose spelling starts with the
      token, ignoring case. */
  lemma AssembleWithFallbackFirstMatch(t: seq<Byte>, addr: Word16)
    requires ParseWithFallback(t, addr).Ok?
    ensures var mn := ParseWithFallback(t, addr).value.mnemonic;
      && Matches(Name(mn), Token(t))
      && forall j :: 0 <= j < mn ==> !Matches(Name(j), Token(t))
  {
  }

  /** The ways the corrected assembler fails, and that a failure writes nothing. */
  lemma AssembleWithFallbackFailure(m: Mem, t: seq<Byte>, addr: Word16)
    requires AssembleWithFallback(m, t, addr).count == 0
    ensures AssembleWithFallback(m, t, addr).mem == m
    ensures ParseWithFallback(t, addr).error == NoMnemonic <==> |Token(t)| == 0
    ensures ParseWithFallback(t, addr).error == UnknownMnemonic <==>
      |Token(t)| > 0 && forall j :: 0 <= j < MNEMONIC_COUNT ==> !Matches(Name(j), Token(t))
    ensures ParseWithFallback(t, addr).error == BranchOutOfRange ==>
      && ParseStatement(t).Ok?
      && Available(ParseStatement(t).value.mnemonic, Branch)
      && !(-128 <= Value(ParseStatement(t).value) - (addr + 2) <= 127)
    ensures ParseWithFallback(t, addr).error == ModeNotAvailable ==>
      && ParseStatement(t).Ok?
      && ChooseModeWithFallback(ParseStatement(t).value, addr).Ok?
      && !Available(ParseStatement(t).value.mnemonic, ChooseModeWithFallback(ParseStatement(t).value, addr).value.0)
  {
    if ParseStatement(t).Ok? {
      var st := ParseStatement(t).value;
      assert ParseWithFallback(t, addr) == Encode(st, ChooseModeWithFallback(st, addr));
    }
  }

  /** Where `Assemble` accepts a line, it writes what the corrected assembler writes. */
  lemma AssembleAgrees(m: Mem, t: seq<Byte>, addr: Word16)
    requires Parse(t, addr).Ok?
    ensures ParseWithFallback(t, addr) == Parse(t, addr)
    ensures Assemble(m, t, addr) == AssembleWithFallback(m, t, addr)
  {
    FallbackExtendsAsWritten(t, addr);
  }

  /** `Assemble` followed by `Disassemble` at the same address gives back the mnemonic, the
      mode and the number on the line, with the length `Assemble` returned; a branch reports
      the target written on the line. This holds with illegal opcodes shown, and without them
      for documented mnemonics. */
  lemma AssembleThenDisassemble(m: Mem, t: seq<Byte>, addr: Word16, illegals: bool)
    requires Parse(t, addr).Ok?
    requires illegals || Parse(t, addr).value.mnemonic < WDC_AND_ILLEGAL
    ensures var e := Parse(t, addr).value;
      var a := Assemble(m, t, addr);
      var d := Disassemble(a.mem, addr, false, illegals, true);
      && d.length == a.count
      && d.line == Some(Instruction(e.mnemonic, e.mode, Shown(e.mode, e.value)))
      && (e.mode == Branch ==> d.branchTarget == Some(U16(e.value)))
  {
    AssembleAgrees(m, t, addr);
    AssembleWithFallbackThenDisassemble(m, t, addr, illegals);
  }

  /** What `Assemble` returns is the length `InstructionBytes` finds at `addr` afterwards. */
  lemma AssembleLength(m: Mem, t: seq<Byte>, addr: Word16)
    requires Parse(t, addr).Ok?
    ensures Assemble(m, t, addr).count == InstructionBytes(Assemble(m, t, addr).mem, addr, true)
    ensures Assemble(m, t, addr).count == ModeArgSize(Parse(t, addr).value.mode) + 1
  {
    AssembleAgrees(m, t, addr);
    AssembleWithFallbackLength(m, t, addr);
  }

  /** The mnemonic `Assemble` encodes is the first whose spelling starts with the token,
      ignoring case. */
  lemma AssembleFirstMatch(t: seq<Byte>, addr: Word16)
    requires Parse(t, addr).Ok?
    ensures var mn := Parse(t, addr).value.mnemonic;
      && Matches(Name(mn), Token(t))
      && forall j :: 0 <= j < mn ==> !Matches(Name(j), Token(t))
  {
  }

  /** The ways `Assemble` fails, and that a failure writes nothing. */
  lemma AssembleFailure(m: Mem, t: seq<Byte>, addr: Word16)
    requires Assemble(m, t, addr).count == 0
    ensures Assemble(m, t, addr).mem == m
    ensures Parse(t, addr).error == NoMnemonic <==> |Token(t)| == 0
    ensures Parse(t, addr).error == UnknownMnemonic <==>
      |Token(t)| > 0 && forall j :: 0 <= j < MNEMONIC_COUNT ==> !Matches(Name(j), Token(t))
    ensures Parse(t, addr).error == BranchOutOfRange ==>
      && ParseStatement(t).Ok?
      && Available(ParseStatement(t).value.mnemonic, Branch)
      && !(-128 <= Value(ParseStatement(t).value) - (addr + 2) <= 127)
    ensures Parse(t, addr).error == ModeNotAvailable ==>
      && ParseStatement(t).Ok?
      && ChooseMode(ParseStatement(t).value, addr).Ok?
      && !Available(ParseStatement(t).value.mnemonic, ChooseMode(ParseStatement(t).value, addr).value.0)
  {
    if ParseStatement(t).Ok? {
      var st := ParseStatement(t).value;
      assert Parse(t, addr) == Encode(st, ChooseMode(st, addr));
    }
  }

  // ---------------------------------------------------------------------------------------
  // Zero-page operands of absolute-only instructions

  /** The line `jsr $80`. */
  const JSR_80: seq<Byte> := [0x6A, 0x73, 0x72, 0x20, 0x24, 0x38, 0x30]

  /** The token of `jsr $80` is its first three letters. */
  lemma Jsr80Token()
    ensures TokenEnd(JSR_80) == 3 && Token(JSR_80) == [0x6A, 0x73, 0x72]
  {
    assert TokenStart(JSR_80) == 0;
    assert TokenEnd(JSR_80) == 3;
  }

  /** `jsr` matches no spelling before `JSR`'s and matches `JSR`'s. */
  lemma JsrIsFirstMatch(token: seq<Byte>)
    requires token == [0x6A, 0x73, 0x72]
    ensures FindMnemonic(token, 0) == Some(JSR)
  {
    assert Name(JSR) == NameRow0(12) == "jsr";
    assert Matches(Name(JSR), token);
    forall j | 0 <= j < JSR
      ensures !Matches(Name(j), token)
    {
      NoJBeforeJsr(j);
    }
    var r := FindMnemonic(token, 0);
    assert r.Some? && r.value <= JSR;
  }

  /** No spelling before `JSR`'s starts with `j`. */
  lemma NoJBeforeJsr(j: Mnemonic)
    requires j < JSR
    ensures |Name(j)| > 0 && Lower(Name(j)[0] as int) != 'j' as int
  {
    assert Name(j) == NameRow0(j);
  }

  /** The operand `$80` reads as absolute $80 without index. */
  lemma Jsr80Operand()
    ensures Skip(JSR_80, 3, Blank) == 4
    ensures ParseOperand(JSR_80, 4, JSR) == Some(Explicit(false, false, true, 0x80, false, false))
  {
    var t := JSR_80;
    assert Skip(t, 3, Blank) == 4;
    assert Skip(t, 5, Space) == 5;
    assert Skip(t, 5, Digit(16)) == 7;
    assert DigitsValue(t, 5, 7, 16) == 0x80;
    assert Strtol(t, 5, 16) == (0x80, 7);
    assert Skip(t, 7, Blank) == 7;
    assert CloseOperand(t, 7, false, false, true, 0x80, false, false) == Some(Explicit(false, false, true, 0x80, false, false));
  }

  /** How `jsr $80` reads: mnemonic `JSR`, absolute operand $80 without index. */
  lemma ReadJsr80()
    ensures ParseStatement(JSR_80) == Ok(Statement(JSR, Explicit(false, false, true, 0x80, false, false)))
  {
    Jsr80Token();
    JsrIsFirstMatch(Token(JSR_80));
    Jsr80Operand();
  }

  /** `JSR` has no zero-page or branch form, only the absolute one. */
  lemma JsrForms()
    ensures !Available(JSR, Zp) && !Available(JSR, Branch) && Available(JSR, Abs)
  {
    TableWellFormed();
    OpcodeForIsLast(JSR, Zp);
    OpcodeForIsLast(JSR, Branch);
    OpcodeForIsLast(JSR, Abs);
    assert Encodes(0x20, JSR, Abs);
  }

  /** As written, `jsr $80` is rejected: $80 is below $100, so the zero-page form is chosen,
      and `JSR` has none. */
  lemma Jsr80AsWritten(m: Mem, addr: Word16)
    ensures Assemble(m, JSR_80, addr).count == 0
    ensures Parse(JSR_80, addr) == Err(ModeNotAvailable)
  {
    ReadJsr80();
    JsrForms();
  }

  /** With the absolute fallback, `jsr $80` assembles to the three bytes of `JSR $0080`. */
  lemma Jsr80(m: Mem, addr: Word16)
    ensures var a := AssembleWithFallback(m, JSR_80, addr);
      && a.count == 3
      && Op(Peek(a.mem, addr)).mnemonic == JSR && Op(Peek(a.mem, addr)).mode == Abs
      && Peek(a.mem, addr + 1) == 0x80 && Peek(a.mem, addr + 2) == 0x00
  {
    ParseJsr80(addr);
    var e := ParseWithFallback(JSR_80, addr).value;
    EntryFacts(e.opcode);
    var b := Bytes(e);
    assert |b| == 3 && b[1] == 0x80 && b[2] == 0;
    var a := Emit(m, addr, ParseWithFallback(JSR_80, addr));
    assert a == AssembleWithFallback(m, JSR_80, addr);
    assert Peek(a.mem, addr) == b[0];
    assert Peek(a.mem, addr + 1) == b[1];
    assert Peek(a.mem, addr + 2) == b[2];
  }

  lemma ParseJsr80(addr: Word16)
    ensures ParseWithFallback(JSR_80, addr).Ok?
    ensures var e := ParseWithFallback(JSR_80, addr).value;
      e.mode == Abs && e.arg == 0x80 && Encodes(e.opcode, JSR, Abs)
  {
    ReadJsr80();
    JsrForms();
  }

  /** The fallback only adds lines: whatever the mode choice as written accepts, the corrected
      one encodes identically; and where the choice as written picks a zero-page form the
      mnemonic lacks, the corrected one encodes the absolute form if there is one. */
  lemma FallbackExtendsAsWritten(t: seq<Byte>, addr: Word16)
    ensures Parse(t, addr).Ok? ==> ParseWithFallback(t, addr) == Parse(t, addr)
    ensures ParseStatement(t).Ok? ==>
      var s := ParseStatement(t).value;
      var w := ChooseMode(s, addr);
      w.Ok? && !Available(s.mnemonic, w.value.0) && Available(s.mnemonic, Widen(w.value.0)) ==>
        && ParseWithFallback(t, addr).Ok?
        && ParseWithFallback(t, addr).value.mode == Widen(w.value.0)
        && ParseWithFallback(t, addr).value.value == Value(s)
  {
    if ParseStatement(t).Ok? {
      var s := ParseStatement(t).value;
      var w := ChooseMode(s, addr);
      var c := ChooseModeWithFallback(s, addr);
      assert ParseWithFallback(t, addr) == Encode(s, c);
      assert Parse(t, addr) == Encode(s, w);
      if w.Ok? && Available(s.mnemonic, w.value.0) {
        assert c == w;
      }
    }
  }
}
