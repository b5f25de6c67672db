/** Registers over the monitor protocol: the payload `ViceSetRegisters` builds
    (src/ViceInterface.cpp:433-517) and how a registers reply updates the CPU registers
    (`updateRegisters`, src/ViceInterface.cpp:804-823). Both carry the same entries: an item
    size, a register and a two-byte little-endian value. */
module Registers {
  import opened Words
  import opened Protocol
  import opened Outcomes
  import opened Client

  /** The register bits of `regMask`, one field per `CPU6510::RM_*` bit. */
  datatype RegMask = RegMask(a: bool, x: bool, y: bool, sp: bool, fl: bool, zp00: bool, zp01: bool, pc: bool)

  /** Whether the mask selects a register. */
  predicate Picked(mask: RegMask, reg: RegId)
  {
    match reg
    case A => mask.a
    case X => mask.x
    case Y => mask.y
    case SP => mask.sp
    case FL => mask.fl
    case ZP00 => mask.zp00
    case ZP01 => mask.zp01
    case PC => mask.pc
    case _ => false
  }

  /** The order of the entries in the payload. */
  const ORDER: seq<RegId> := [A, X, Y, SP, FL, ZP00, ZP01, PC]

  /** The registers of `ids` the mask selects, in the order of `ids`. */
  function Filter(ids: seq<RegId>, mask: RegMask): (r: seq<RegId>)
    ensures |r| <= |ids|
    ensures forall reg :: reg in r <==> reg in ids && Picked(mask, reg)
  {
    if |ids| == 0 then [] else (if Picked(mask, ids[0]) then [ids[0]] else []) + Filter(ids[1..], mask)
  }

  /** The registers a mask selects, in the fixed order of the payload. */
  function Selected(mask: RegMask): (r: seq<RegId>)
    ensures |r| <= 8
    ensures forall reg :: reg in r <==> Picked(mask, reg)
  {
    Filter(ORDER, mask)
  }

  /** A register's value; `OtherReg` stands for the registers the client does not keep. */
  function RegValue(regs: Regs, reg: RegId): int
  {
    match reg
    case A => regs.a
    case X => regs.x
    case Y => regs.y
    case PC => regs.pc
    case SP => regs.sp
    case FL => regs.fl
    case LIN => regs.lin
    case CYC => regs.cyc
    case ZP00 => regs.zp00
    case ZP01 => regs.zp01
    case OtherReg => 0
  }

  /** The registers `ViceSetRegisters` can write. */
  predicate Settable(reg: RegId) { reg != LIN && reg != CYC && reg != OtherReg }

  /** The value of a settable 8-bit register. */
  function Value8(regs: Regs, reg: RegId): (b: Byte)
    requires Settable(reg) && reg != PC
    ensures b == RegValue(regs, reg)
  {
    match reg
    case A => regs.a
    case X => regs.x
    case Y => regs.y
    case SP => regs.sp
    case FL => regs.fl
    case ZP00 => regs.zp00
    case ZP01 => regs.zp01
  }

  /** The registers the client reads as 16-bit values (`GetValue16`). */
  predicate Wide(reg: RegId) { reg in {PC, LIN, CYC} }

  /** The value an entry carries for its register: both bytes for a wide register, the low
      byte for the others (`GetValue8`). */
  function EntryValue(e: RegEntry): Word16
  {
    if Wide(e.reg) then LE16(e.lo, e.hi) else e.lo
  }

  /** The entry `ViceSetRegisters` writes for a register, its unused high byte cleared. */
  function Entry(regs: Regs, reg: RegId): (e: RegEntry)
    requires Settable(reg)
    ensures e.itemSize == 3 && e.reg == reg
    ensures LE16(e.lo, e.hi) == RegValue(regs, reg)
  {
    if reg == PC then RegEntry(3, PC, U8(regs.pc), regs.pc / 0x100)
    else RegEntry(3, reg, Value8(regs, reg), 0)
  }

  function Entries(regs: Regs, ids: seq<RegId>): (r: seq<RegEntry>)
    requires forall k :: 0 <= k < |ids| ==> Settable(ids[k])
    ensures |r| == |ids|
    ensures forall k :: 0 <= k < |ids| ==> r[k] == Entry(regs, ids[k])
  {
    if |ids| == 0 then [] else [Entry(regs, ids[0])] + Entries(regs, ids[1..])
  }

  /** The entries of the payload. */
  function Payload(regs: Regs, mask: RegMask): seq<RegEntry>
  {
    assert forall k :: 0 <= k < |Selected(mask)| ==> Selected(mask)[k] in Selected(mask);
    Entries(regs, Selected(mask))
  }

  /** `ViceSetRegisters`, with the high byte of every 8-bit register cleared (see
      `PayloadAsWritten`). It sends whenever the connection object exists, connected or not;
      the payload holds one entry per selected register, in the fixed order A, X, Y, SP, FL,
      $00, $01, PC, each of which reads back as the register's value; the body size is the
      memory space and the count (3 bytes) plus 4 bytes per entry. */
  function SetRegisters(c: Client, regs: Regs, mask: RegMask, space: Byte): (r: (bool, Client))
    ensures r.0 <==> c.live
    ensures !c.live ==> r.1 == c
    ensures c.live ==>
      && r.1.lastId == NextId(c.lastId)
      && r.1.pending == c.pending + [Pending(r.1.lastId, 0)]
      && |r.1.sent| == |c.sent| + 1 && r.1.sent[..|c.sent|] == c.sent
      && r.1.sent[|c.sent|].id == r.1.lastId
      && var cmd := r.1.sent[|c.sent|].command;
        && cmd.RegistersSet?
        && cmd.space == space
        && |cmd.entries| == |Selected(mask)|
        && LE16(cmd.countLo, cmd.countHi) == |Selected(mask)|
        && cmd.size == 3 + 4 * |Selected(mask)|
        && cmd.length == cmd.size + COMMAND_HEADER
        && (forall k :: 0 <= k < |cmd.entries| ==>
              cmd.entries[k].itemSize == 3 && cmd.entries[k].reg == Selected(mask)[k]
              && LE16(cmd.entries[k].lo, cmd.entries[k].hi) == RegValue(regs, cmd.entries[k].reg))
  {
    if c.live then
      var entries := Payload(regs, mask);
      var count := |entries|;
      var size := 3 + 4 * count;
      var cmd := RegistersSet(size, space, U8(count), U8(count / 0x100), entries, size + COMMAND_HEADER);
      var r := Send(c, cmd, true);
      assert count < 0x100 && LE16(cmd.countLo, cmd.countHi) == count;
      assert r.sent[|c.sent|] == Sent(r.lastId, cmd) && r.sent[..|c.sent|] == c.sent;
      (true, r)
    else (false, c)
  }

  /** One entry of a registers reply applied to the registers: the `switch` of
      `updateRegisters`; registers the client does not keep are skipped. */
  function Apply(regs: Regs, e: RegEntry): Regs
  {
    match e.reg
    case A => regs.(a := e.lo)
    case X => regs.(x := e.lo)
    case Y => regs.(y := e.lo)
    case PC => regs.(pc := LE16(e.lo, e.hi))
    case SP => regs.(sp := e.lo)
    case FL => regs.(fl := e.lo)
    case LIN => regs.(lin := LE16(e.lo, e.hi))
    case CYC => regs.(cyc := LE16(e.lo, e.hi))
    case ZP00 => regs.(zp00 := e.lo)
    case ZP01 => regs.(zp01 := e.lo)
    case OtherReg => regs
  }

  /** The last entry for `reg`, if any. */
  function Latest(entries: seq<RegEntry>, reg: RegId): (r: Option<RegEntry>)
    ensures r.None? <==> forall k :: 0 <= k < |entries| ==> entries[k].reg != reg
    ensures r.Some? ==> r.value.reg == reg
    ensures r.Some? ==>
      exists k :: 0 <= k < |entries| && entries[k] == r.value && forall j :: k < j < |entries| ==> entries[j].reg != reg
  {
    if |entries| == 0 then None
    else
      match Latest(entries[1..], reg)
      case Some(e) =>
        var k :| 0 <= k < |entries[1..]| && entries[1..][k] == e
                 && forall j :: k < j < |entries[1..]| ==> entries[1..][j].reg != reg;
        assert entries[k + 1] == e;
        Some(e)
      case None => if entries[0].reg == reg then Some(entries[0]) else None
  }

  /** `updateRegisters`: the entries applied in order. */
  function UpdateRegisters(regs: Regs, entries: seq<RegEntry>): (r: Regs)
    ensures forall reg :: reg != OtherReg ==>
      RegValue(r, reg) == match Latest(entries, reg)
                          case Some(e) => EntryValue(e)
                          case None => RegValue(regs, reg)
    decreases |entries|
  {
    if |entries| == 0 then regs
    else
      var r := UpdateRegisters(Apply(regs, entries[0]), entries[1..]);
      assert forall reg :: reg != OtherReg && Latest(entries[1..], reg).None? ==>
        RegValue(r, reg) == RegValue(Apply(regs, entries[0]), reg);
      r
  }

  /** A register-set payload read back as a registers reply sets exactly the selected
      registers to the values sent and leaves the others alone. */
  lemma SetThenRead(regs0: Regs, regs: Regs, mask: RegMask, reg: RegId)
    requires reg != OtherReg
    ensures RegValue(UpdateRegisters(regs0, Payload(regs, mask)), reg)
            == if Picked(mask, reg) then RegValue(regs, reg) else RegValue(regs0, reg)
  {
    var ids := Selected(mask);
    var p := Payload(regs, mask);
    if Picked(mask, reg) {
      assert reg in ids;
      var k0 :| 0 <= k0 < |ids| && ids[k0] == reg;
      assert p[k0].reg == reg;
      var e := Latest(p, reg).value;
      var k :| 0 <= k < |p| && p[k] == e;
      assert ids[k] in ids;
      assert e == Entry(regs, reg);
      if Wide(reg) {
        assert EntryValue(e) == RegValue(regs, reg);
      } else {
        assert e.hi == 0;
      }
    } else {
      forall k | 0 <= k < |p|
        ensures p[k].reg != reg
      {
        assert ids[k] in ids;
      }
    }
  }

  /** The payload as the C code builds it: `msgRaw` is not initialised and only `value[0]` is
      written for an 8-bit register, so the second value byte of those entries is whatever the
      stack held there; `stale[k]` stands for that byte of entry `k`. */
  function PayloadAsWritten(regs: Regs, mask: RegMask, stale: seq<Byte>): (r: seq<RegEntry>)
    requires |stale| >= 8
    ensures |r| == |Payload(regs, mask)|
    ensures forall k :: 0 <= k < |r| ==>
      r[k] == if r[k].reg == PC then Payload(regs, mask)[k] else Payload(regs, mask)[k].(hi := stale[k])
  {
    Stale(Payload(regs, mask), stale, 0)
  }

  function Stale(entries: seq<RegEntry>, stale: seq<Byte>, from: nat): (r: seq<RegEntry>)
    requires from + |entries| <= |stale|
    ensures |r| == |entries|
    ensures forall k :: 0 <= k < |r| ==>
      r[k] == if entries[k].reg == PC then entries[k] else entries[k].(hi := stale[from + k])
  {
    if |entries| == 0 then []
    else
      var e := entries[0];
      [if e.reg == PC then e else e.(hi := stale[from])] + Stale(entries[1..], stale, from + 1)
  }

  /** As written, the two-byte value sent for the accumulator is not the accumulator's value
      whenever the stale byte behind it is not zero: the message depends on stack contents. */
  lemma AccumulatorValueAsWritten(regs: Regs, stale: seq<Byte>)
    requires |stale| >= 8 && stale[0] != 0
    ensures var mask := RegMask(true, false, false, false, false, false, false, false);
      var e := PayloadAsWritten(regs, mask, stale)[0];
      e.reg == A && LE16(e.lo, e.hi) != regs.a
  {
    var mask := RegMask(true, false, false, false, false, false, false, false);
    assert A in Selected(mask);
    assert |Selected(mask)| > 0;
  }

  /** Every entry of the corrected payload carries its register's whole value in its two value
      bytes; as written, an 8-bit register's entry does so exactly when the stale byte behind it
      happens to be zero. */
  lemma PayloadValues(regs: Regs, mask: RegMask, stale: seq<Byte>)
    requires |stale| >= 8
    ensures var p := Payload(regs, mask);
      forall k :: 0 <= k < |p| ==> LE16(p[k].lo, p[k].hi) == RegValue(regs, p[k].reg)
    ensures var q := PayloadAsWritten(regs, mask, stale);
      forall k :: 0 <= k < |q| ==>
        (LE16(q[k].lo, q[k].hi) == RegValue(regs, q[k].reg) <==> q[k].reg == PC || stale[k] == 0)
  {
    var p := Payload(regs, mask);
    var q := PayloadAsWritten(regs, mask, stale);
    forall k | 0 <= k < |q|
      ensures LE16(q[k].lo, q[k].hi) == RegValue(regs, q[k].reg) <==> q[k].reg == PC || stale[k] == 0
    {
      assert Selected(mask)[k] in Selected(mask);
      assert p[k] == Entry(regs, Selected(mask)[k]);
      if p[k].reg != PC {
        assert p[k].hi == 0;
        assert q[k] == p[k].(hi := stale[k]);
      }
    }
  }
}
