/** The command vocabulary of the VICE binary monitor as the client uses it: the command and
    response type codes, their printable names (src/ViceInterface.cpp:123-152 and
    `ViceBinCmdName` at 422-429), and the commands the client sends, as records. */
module Protocol {
  import opened Words

  const MEM_GET: Byte := 0x01
  const MEM_SET: Byte := 0x02
  const CHECKPOINT_GET: Byte := 0x11
  const CHECKPOINT_SET: Byte := 0x12
  const CHECKPOINT_DELETE: Byte := 0x13
  const CHECKPOINT_LIST: Byte := 0x14
  const CHECKPOINT_TOGGLE: Byte := 0x15
  const CONDITION_SET: Byte := 0x22
  const REGISTERS_GET: Byte := 0x31
  const REGISTERS_SET: Byte := 0x32
  const JAM: Byte := 0x61
  const STOPPED: Byte := 0x62
  const RESUMED: Byte := 0x63
  const STEP: Byte := 0x71
  const STEP_OUT: Byte := 0x73
  const PING: Byte := 0x81
  const REGISTERS_AVAILABLE: Byte := 0x83
  const DISPLAY_GET: Byte := 0x84
  const EXIT: Byte := 0xAA
  const QUIT: Byte := 0xBB
  const RESET: Byte := 0xCC
  const AUTO_START: Byte := 0xDD

  /** The name table, in the order the lookup scans it. */
  const COMMAND_NAMES: seq<(string, Byte)> := [
    ("MemGet", 0x01), ("MemSet", 0x02), ("CheckpointGet", 0x11), ("CheckpointSet", 0x12),
    ("CheckpointDelete", 0x13), ("CheckpointList", 0x14), ("CheckpointToggle", 0x15),
    ("ConditionSet", 0x22), ("RegistersGet", 0x31), ("RegistersSet", 0x32), ("Dump", 0x41),
    ("Undump", 0x42), ("ResourceGet", 0x51), ("ResourceSet", 0x52), ("JAM", 0x61),
    ("Stopped", 0x62), ("Resumed", 0x63), ("Step", 0x71), ("KeyboardFeed", 0x72),
    ("StepOut", 0x73), ("Ping", 0x81), ("BanksAvailable", 0x82), ("RegistersAvailable", 0x83),
    ("DisplayGet", 0x84), ("Exit", 0xAA), ("Quit", 0xBB), ("Reset", 0xCC), ("AutoStart", 0xDD)
  ]

  /** The name of the first entry of `table` from `i` on with code `cmd`, or "?". */
  function NameFrom(table: seq<(string, Byte)>, cmd: Byte, i: nat): (r: string)
    requires i <= |table|
    requires forall k :: 0 <= k < |table| ==> table[k].0 != "?"
    ensures r == "?" <==> forall k :: i <= k < |table| ==> table[k].1 != cmd
    ensures r != "?" ==> exists k :: i <= k < |table| && table[k] == (r, cmd)
    decreases |table| - i
  {
    if i == |table| then "?"
    else if table[i].1 == cmd then table[i].0
    else NameFrom(table, cmd, i + 1)
  }

  /** `ViceBinCmdName`: the printable name of a command or response code, "?" for a code
      the table does not list. */
  function CmdName(cmd: Byte): (r: string)
    ensures r == "?" <==> forall k :: 0 <= k < |COMMAND_NAMES| ==> COMMAND_NAMES[k].1 != cmd
    ensures r != "?" ==> exists k :: 0 <= k < |COMMAND_NAMES| && COMMAND_NAMES[k] == (r, cmd)
  {
    NamesArePrintable();
    NameFrom(COMMAND_NAMES, cmd, 0)
  }

  lemma NamesArePrintable()
    ensures forall k :: 0 <= k < |COMMAND_NAMES| ==> COMMAND_NAMES[k].0 != "?"
  {
    forall k | 0 <= k < |COMMAND_NAMES|
      ensures COMMAND_NAMES[k].0 != "?"
    {
      assert |COMMAND_NAMES[k].0| > 1;
    }
  }

  /** Every table entry is found under its own code, so the lookup is the table read
      backwards: no code is listed twice. */
  lemma CmdNameOfEntry(k: nat)
    requires k < |COMMAND_NAMES|
    ensures CmdName(COMMAND_NAMES[k].1) == COMMAND_NAMES[k].0
  {
    NamesArePrintable();
    var cmd := COMMAND_NAMES[k].1;
    forall j | 0 <= j < k
      ensures COMMAND_NAMES[j].1 != cmd
    {
      CodesAscend(j, k);
    }
    FirstFrom(COMMAND_NAMES, cmd, 0, k);
  }

  lemma CodesAscend(j: nat, k: nat)
    requires j < k < |COMMAND_NAMES|
    ensures COMMAND_NAMES[j].1 < COMMAND_NAMES[k].1
  {
    if k - j > 1 {
      CodesAscend(j, k - 1);
    }
  }

  lemma {:induction false} FirstFrom(table: seq<(string, Byte)>, cmd: Byte, i: nat, k: nat)
    requires forall j :: 0 <= j < |table| ==> table[j].0 != "?"
    requires i <= k < |table|
    requires table[k].1 == cmd
    requires forall j :: i <= j < k ==> table[j].1 != cmd
    ensures NameFrom(table, cmd, i) == table[k].0
    decreases k - i
  {
    if i < k {
      FirstFrom(table, cmd, i + 1, k);
    }
  }

  /** The operation bits of a checkpoint, as the VICE manual numbers them. */
  const OP_LOAD: Byte := 1
  const OP_STORE: Byte := 2
  const OP_EXEC: Byte := 4

  /** Memory space 0, the computer's main memory. */
  const MAIN_MEMORY: Byte := 0

  /** The registers the client reads and writes, by role; the wire codes live in a header that
      is not part of this model. */
  datatype RegId = A | X | Y | PC | SP | FL | LIN | CYC | ZP00 | ZP01 | OtherReg

  /** One entry of a register-set payload: an item size, the register and two value bytes. */
  datatype RegEntry = RegEntry(itemSize: Byte, reg: RegId, lo: Byte, hi: Byte)

  /** What the client sends. */
  datatype Command =
    | Ping
    | Quit
    | Exit                          // resume ("Go")
    | Step(over: bool)
    | StepOut
    | RegistersGet
    | CheckpointList
    | DisplayGet
    | MemGet(start: Word16, end: Word16, space: Byte)
    | CheckpointSet(start: Word16, end: Word16, stop: bool, enabled: bool, operation: Byte, temporary: bool)
    | RegistersSet(size: nat, space: Byte, countLo: Byte, countHi: Byte, entries: seq<RegEntry>, length: nat)

  /** The command type code a command goes out with. */
  function CommandCode(c: Command): Byte
  {
    match c
    case Ping => PING
    case Quit => QUIT
    case Exit => EXIT
    case Step(_) => STEP
    case StepOut => STEP_OUT
    case RegistersGet => REGISTERS_GET
    case CheckpointList => CHECKPOINT_LIST
    case DisplayGet => DISPLAY_GET
    case MemGet(_, _, _) => MEM_GET
    case CheckpointSet(_, _, _, _, _, _) => CHECKPOINT_SET
    case RegistersSet(_, _, _, _, _, _) => REGISTERS_SET
  }

  /** Every command the client sends has a printable name. */
  lemma CommandsAreNamed(c: Command)
    ensures CmdName(CommandCode(c)) != "?"
  {
    var k := match c
      case Ping => 20
      case Quit => 25
      case Exit => 24
      case Step(_) => 17
      case StepOut => 19
      case RegistersGet => 8
      case CheckpointList => 5
      case DisplayGet => 23
      case MemGet(_, _, _) => 0
      case CheckpointSet(_, _, _, _, _, _) => 3
      case RegistersSet(_, _, _, _, _, _) => 9;
    assert COMMAND_NAMES[k].1 == CommandCode(c);
  }
}
