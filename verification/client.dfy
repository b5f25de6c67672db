/** The client side of the VICE binary monitor (src/ViceInterface.cpp) as a state machine:
    the connection flags, the request counter, the list of requests awaiting a reply, the
    memory-request registry, and the commands the public functions send.

    Every function takes the client state and returns the next one; what the C code hands to
    `send` is appended to `sent`, and the calls it makes into the breakpoint store are appended
    to `store`. The socket, the thread and the mutexes are not modelled: each operation is one
    atomic step. */
module Client {
  import opened Words
  import opened Memory
  import opened Protocol

  /** The request ID of unsolicited events, never matched against pending requests. */
  const SENTINEL: Word32 := 0xFFFF_FFFF

  /** The initial value of `lastRequestID`; the first command goes out as 0x1000. */
  const FIRST_ID: Word32 := 0x0fff

  /** `Tick` pings once some pending request has waited more than this many ticks. */
  const PING_AFTER: nat := 100

  /** The size of a command header in the VICE manual: STX, API version, a 4-byte body length,
      a 4-byte request ID and the command type. */
  const COMMAND_HEADER: nat := 11

  /** A request sent with `wantResponse`: its ID and the ticks since the last ping. */
  datatype Pending = Pending(id: Word32, ticks: nat)

  /** What `ViceGetMemory` records to place the reply's bytes. */
  datatype MemRequest = MemRequest(id: Word32, start: Word16, end: Word16, bank: Word16, space: Byte)

  /** A message handed to the socket: its request ID and the command. */
  datatype Sent = Sent(id: Word32, command: Command)

  /** The flag word of a breakpoint, one field per bit. */
  datatype Flags = Flags(enabled: bool, stop: bool, exec: bool, load: bool, store: bool, current: bool, temporary: bool)

  /** The calls the client makes into the breakpoint store and the screen view. */
  datatype StoreCall =
    | ClearBreakpoints
    | ClearHits
    | SetHit(number: Word32)
    | AddBreakpoint(number: Word32, flags: Flags, start: Word16, end: Word16, condition: bool)
    | RefreshScreen

  /** The CPU registers the client keeps in step with the emulator. */
  datatype Regs = Regs(a: Byte, x: Byte, y: Byte, pc: Word16, sp: Byte, fl: Byte,
                       lin: Word16, cyc: Word16, zp00: Byte, zp01: Byte)

  /** The client: `live` is "the connection object exists", `connected` and `stopped` its
      flags, `closeRequest` the request to close, `lastId` the request counter, `memory` the
      CPU memory of each memory space the client has a CPU for. The receive buffer belongs to
      the receive loop and is passed to it separately. */
  datatype Client = Client(
    live: bool,
    connected: bool,
    stopped: bool,
    closeRequest: bool,
    lastId: Word32,
    pending: seq<Pending>,
    memRequests: seq<MemRequest>,
    sent: seq<Sent>,
    store: seq<StoreCall>,
    regs: Regs,
    memory: map<Byte, Mem>)

  /** `ViceConnected`. */
  predicate Connected(c: Client) { c.live && c.connected }

  /** `ViceRunning`. */
  predicate Running(c: Client) { c.live && c.connected && !c.stopped }

  /** Connected and stopped: when execution control and memory reads are allowed. */
  predicate Halted(c: Client) { c.live && c.connected && c.stopped }

  /** `++lastRequestID` on a `uint32_t`. */
  function NextId(id: Word32): Word32 { U32(id + 1) }

  // ---------------------------------------------------------------------------------------
  // Searching and removing by request ID

  /** The position of the first element with key `id`, or `|s|` if there is none. */
  function IndexOf<T>(s: seq<T>, key: T -> Word32, id: Word32): (k: nat)
    ensures k <= |s|
    ensures forall j :: 0 <= j < k ==> key(s[j]) != id
    ensures k < |s| ==> key(s[k]) == id
  {
    if |s| == 0 then 0
    else if key(s[0]) == id then 0
    else 1 + IndexOf(s[1..], key, id)
  }

  /** The C loop that erases the first element with a matching ID and stops. */
  function RemoveFirst<T>(s: seq<T>, key: T -> Word32, id: Word32): (r: seq<T>)
    ensures IndexOf(s, key, id) == |s| ==> r == s
    ensures IndexOf(s, key, id) < |s| ==>
      r == s[..IndexOf(s, key, id)] + s[IndexOf(s, key, id) + 1..]
  {
    if |s| == 0 then []
    else if key(s[0]) == id then s[1..]
    else
      var rest := RemoveFirst(s[1..], key, id);
      assert s == [s[0]] + s[1..];
      [s[0]] + rest
  }

  function PendingId(p: Pending): Word32 { p.id }
  function RequestKey(q: MemRequest): Word32 { q.id }

  /** What a reply does to the pending list: a reply with the sentinel ID leaves it alone;
      any other reply erases the first entry with its ID, if any, and nothing else. */
  function Answer(p: seq<Pending>, id: Word32): (r: seq<Pending>)
    ensures id == SENTINEL ==> r == p
    ensures id != SENTINEL && IndexOf(p, PendingId, id) < |p| ==>
      var k := IndexOf(p, PendingId, id); r == p[..k] + p[k + 1..]
    ensures (forall i :: 0 <= i < |p| ==> p[i].id != id) ==> r == p
  {
    if id == SENTINEL then p else RemoveFirst(p, PendingId, id)
  }

  // ---------------------------------------------------------------------------------------
  // Sending

  /** `++lastRequestID` and `AddMessage`: the message goes out under the new ID, and with
      `wantResponse` the ID joins the pending list with a fresh counter. */
  function Send(c: Client, cmd: Command, wantResponse: bool): (r: Client)
    ensures r.lastId == NextId(c.lastId)
    ensures r.sent == c.sent + [Sent(r.lastId, cmd)]
    ensures r.pending == if wantResponse then c.pending + [Pending(r.lastId, 0)] else c.pending
    ensures r == c.(lastId := r.lastId, sent := r.sent, pending := r.pending)
  {
    var id := NextId(c.lastId);
    c.(lastId := id,
       sent := c.sent + [Sent(id, cmd)],
       pending := if wantResponse then c.pending + [Pending(id, 0)] else c.pending)
  }

  /** How many requests ago `id` was issued, counted modulo 2^32. */
  function Age(id: Word32, last: Word32): Word32 { U32(last - id) }

  /** Pending requests are listed oldest first. */
  predicate Ordered(p: seq<Pending>, last: Word32)
  {
    forall i, j :: 0 <= i < j < |p| ==> Age(p[i].id, last) > Age(p[j].id, last)
  }

  /** No pending request is so old that one more ID would wrap around onto it. */
  predicate Young(p: seq<Pending>, last: Word32)
  {
    forall i :: 0 <= i < |p| ==> Age(p[i].id, last) < 0xFFFF_FFFF
  }

  /** Listed oldest first, the pending IDs are all different. */
  lemma OrderedIdsDistinct(p: seq<Pending>, last: Word32)
    requires Ordered(p, last)
    ensures forall i, j :: 0 <= i < j < |p| ==> p[i].id != p[j].id
  {
  }

  /** Sending keeps the pending list oldest first, as long as no request is about to be
      overtaken by the counter. */
  lemma SendKeepsOrder(c: Client, cmd: Command, wantResponse: bool)
    requires Ordered(c.pending, c.lastId) && Young(c.pending, c.lastId)
    ensures Ordered(Send(c, cmd, wantResponse).pending, NextId(c.lastId))
  {
    var r := Send(c, cmd, wantResponse);
    var last := NextId(c.lastId);
    forall i | 0 <= i < |c.pending|
      ensures Age(c.pending[i].id, last) == Age(c.pending[i].id, c.lastId) + 1
    {
      AgeStep(c.pending[i].id, c.lastId);
    }
    forall i, j | 0 <= i < j < |r.pending|
      ensures Age(r.pending[i].id, last) > Age(r.pending[j].id, last)
    {
      if j == |c.pending| {
        assert r.pending[j].id == last;
      }
    }
  }

  lemma AgeStep(id: Word32, last: Word32)
    requires Age(id, last) < 0xFFFF_FFFF
    ensures Age(id, NextId(last)) == Age(id, last) + 1
  {
  }

  /** A reply keeps the pending list oldest first. */
  lemma AnswerKeepsOrder(p: seq<Pending>, last: Word32, id: Word32)
    requires Ordered(p, last)
    ensures Ordered(Answer(p, id), last)
  {
    var r := Answer(p, id);
    if id != SENTINEL && IndexOf(p, PendingId, id) < |p| {
      var k := IndexOf(p, PendingId, id);
      forall i, j | 0 <= i < j < |r|
        ensures Age(r[i].id, last) > Age(r[j].id, last)
      {
        var i' := if i < k then i else i + 1;
        var j' := if j < k then j else j + 1;
        assert r[i] == p[i'] && r[j] == p[j'];
      }
    }
  }

  // ---------------------------------------------------------------------------------------
  // The heartbeat

  /** Every counter one higher. */
  function Bump(p: seq<Pending>): (r: seq<Pending>)
    ensures |r| == |p|
    ensures forall i :: 0 <= i < |p| ==> r[i] == Pending(p[i].id, p[i].ticks + 1)
  {
    if |p| == 0 then [] else [Pending(p[0].id, p[0].ticks + 1)] + Bump(p[1..])
  }

  /** Every counter back to 0. */
  function Restart(p: seq<Pending>): (r: seq<Pending>)
    ensures |r| == |p|
    ensures forall i :: 0 <= i < |p| ==> r[i] == Pending(p[i].id, 0)
  {
    if |p| == 0 then [] else [Pending(p[0].id, 0)] + Restart(p[1..])
  }

  /** The largest counter, 0 for an empty list (the C code's `maxTime`). */
  function MaxTicks(p: seq<Pending>): (m: nat)
    ensures forall i :: 0 <= i < |p| ==> p[i].ticks <= m
    ensures |p| == 0 ==> m == 0
    ensures |p| > 0 ==> exists i :: 0 <= i < |p| && p[i].ticks == m
  {
    if |p| == 0 then 0
    else
      var m := MaxTicks(p[1..]);
      if p[0].ticks > m then p[0].ticks else m
  }

  /** Some pending request has waited `PING_AFTER` ticks already. */
  predicate Overdue(p: seq<Pending>)
  {
    exists i :: 0 <= i < |p| && p[i].ticks >= PING_AFTER
  }

  /** Every counter is at most `PING_AFTER`. */
  predicate Bounded(p: seq<Pending>)
  {
    forall i :: 0 <= i < |p| ==> p[i].ticks <= PING_AFTER
  }

  /** `VicePing`: a ping, without `wantResponse`, only while connected. */
  function Ping(c: Client): (r: Client)
    ensures Connected(c) ==> r == Send(c, Command.Ping, false)
    ensures !Connected(c) ==> r == c
    ensures r.pending == c.pending
  {
    if Connected(c) then Send(c, Command.Ping, false) else c
  }

  /** `ViceTickMessage` and `ViceConnection::Tick`: every counter goes up by one; if one of
      them now exceeds `PING_AFTER`, a single ping goes out (while connected) and every counter
      restarts from 0. */
  function Tick(c: Client): (r: Client)
    ensures !c.live ==> r == c
    ensures |r.pending| == |c.pending|
    ensures forall i :: 0 <= i < |c.pending| ==> r.pending[i].id == c.pending[i].id
    ensures c.live && Overdue(c.pending) ==>
      (forall i :: 0 <= i < |r.pending| ==> r.pending[i].ticks == 0)
      && r.sent == (if c.connected then c.sent + [Sent(NextId(c.lastId), Command.Ping)] else c.sent)
    ensures c.live && !Overdue(c.pending) ==>
      (forall i :: 0 <= i < |r.pending| ==> r.pending[i].ticks == c.pending[i].ticks + 1)
      && r.sent == c.sent
    ensures |c.pending| == 0 ==> r.sent == c.sent
    ensures Bounded(c.pending) ==> Bounded(r.pending)
    ensures r.lastId == if c.live && Overdue(c.pending) && c.connected then NextId(c.lastId) else c.lastId
    ensures r == c.(pending := r.pending, sent := r.sent, lastId := r.lastId)
  {
    if !c.live then c
    else
      var bumped := Bump(c.pending);
      if MaxTicks(bumped) > PING_AFTER then
        var pinged := Ping(c.(pending := bumped));
        pinged.(pending := Restart(pinged.pending))
      else c.(pending := bumped)
  }

  // ---------------------------------------------------------------------------------------
  // Connection-level commands

  /** `ViceDisconnect`: asks the receive loop to close, and pings to wake it. */
  function Disconnect(c: Client): (r: Client)
    ensures Connected(c) ==> r.closeRequest && r.sent == c.sent + [Sent(NextId(c.lastId), Command.Ping)]
    ensures !Connected(c) ==> r == c
    ensures Connected(c) ==> r == c.(closeRequest := true, lastId := NextId(c.lastId), sent := r.sent)
  {
    if Connected(c) then Ping(c.(closeRequest := true)) else c
  }

  /** `ViceQuit`: quit, then a ping; neither waits for a reply. */
  function Quit(c: Client): (r: Client)
    ensures Connected(c) ==> r.sent == c.sent + [Sent(U32(c.lastId + 1), Command.Quit), Sent(U32(c.lastId + 2), Command.Ping)]
    ensures !Connected(c) ==> r == c
    ensures Connected(c) ==> r == c.(lastId := U32(c.lastId + 2), sent := r.sent)
  {
    if Connected(c) then Ping(Send(c, Command.Quit, false)) else c
  }

  /** The end of the receive loop (src/ViceInterface.cpp:732-738): nothing stays pending, the
      registry is emptied and the connection is down. */
  function Teardown(c: Client): (r: Client)
    ensures r.pending == [] && r.memRequests == [] && !r.connected
    ensures !Connected(r) && !Running(r) && !Halted(r)
    ensures r.sent == c.sent && r.lastId == c.lastId && r.stopped == c.stopped
  {
    c.(pending := [], memRequests := [], connected := false)
  }

  // ---------------------------------------------------------------------------------------
  // Execution control

  /** `ViceBreak`: asks for the registers (which stops the emulator), only while running. */
  function Break(c: Client): (r: Client)
    ensures Running(c) ==>
      r.sent == c.sent + [Sent(NextId(c.lastId), Command.RegistersGet)]
      && r.pending == c.pending + [Pending(NextId(c.lastId), 0)]
    ensures !Running(c) ==> r == c
  {
    if Running(c) then Send(c, Command.RegistersGet, true) else c
  }

  /** `ViceGo`: clears the hit marks, then resumes, only while stopped. */
  function Go(c: Client): (r: Client)
    ensures r.store == c.store + [ClearHits]
    ensures Halted(c) ==>
      r.sent == c.sent + [Sent(NextId(c.lastId), Command.Exit)]
      && r.pending == c.pending + [Pending(NextId(c.lastId), 0)]
    ensures !Halted(c) ==> r == c.(store := r.store)
  {
    var c1 := c.(store := c.store + [ClearHits]);
    if Halted(c1) then Send(c1, Command.Exit, true) else c1
  }

  /** `ViceStep` (over = false) and `ViceStepOver` (over = true). */
  function Step(c: Client, over: bool): (r: Client)
    ensures r.store == c.store + [ClearHits]
    ensures Halted(c) ==>
      r.sent == c.sent + [Sent(NextId(c.lastId), Command.Step(over))]
      && r.pending == c.pending + [Pending(NextId(c.lastId), 0)]
    ensures !Halted(c) ==> r == c.(store := r.store)
  {
    var c1 := c.(store := c.store + [ClearHits]);
    if Halted(c1) then Send(c1, Command.Step(over), true) else c1
  }

  /** `ViceStepOut`. */
  function StepOut(c: Client): (r: Client)
    ensures r.store == c.store + [ClearHits]
    ensures Halted(c) ==>
      r.sent == c.sent + [Sent(NextId(c.lastId), Command.StepOut)]
      && r.pending == c.pending + [Pending(NextId(c.lastId), 0)]
    ensures !Halted(c) ==> r == c.(store := r.store)
  {
    var c1 := c.(store := c.store + [ClearHits]);
    if Halted(c1) then Send(c1, Command.StepOut, true) else c1
  }

  /** `ViceRunTo`: a temporary execution checkpoint at `addr`, then `ViceGo`. */
  function RunTo(c: Client, addr: Word16): (r: Client)
    ensures Halted(c) ==>
      r.sent == c.sent + [Sent(U32(c.lastId + 1), CheckpointSet(addr, addr, true, true, OP_EXEC, true)),
                          Sent(U32(c.lastId + 2), Command.Exit)]
      && r.pending == c.pending + [Pending(U32(c.lastId + 1), 0), Pending(U32(c.lastId + 2), 0)]
      && r.store == c.store + [ClearHits, ClearHits]
    ensures !Halted(c) ==> r == c.(store := c.store + [ClearHits])
  {
    var c1 := c.(store := c.store + [ClearHits]);
    if Halted(c1) then
      var c2 := Send(c1, CheckpointSet(addr, addr, true, true, OP_EXEC, true), true);
      assert c2.lastId == U32(c.lastId + 1) && NextId(c2.lastId) == U32(c.lastId + 2);
      assert Halted(c2);
      Go(c2)
    else c1
  }

  /** `ViceGetMemory`: only while stopped, registers the request under its ID and asks for
      `start..end` of memory space `space`. */
  function GetMemory(c: Client, start: Word16, end: Word16, space: Byte): (r: (bool, Client))
    ensures r.0 <==> Halted(c)
    ensures !r.0 ==> r.1 == c
    ensures r.0 ==> var id := NextId(c.lastId);
      r.1.sent == c.sent + [Sent(id, MemGet(start, end, space))]
      && r.1.pending == c.pending + [Pending(id, 0)]
      && r.1.memRequests == c.memRequests + [MemRequest(id, start, end, 0, space)]
      && r.1.stopped == c.stopped && r.1.store == c.store && r.1.regs == c.regs
      && r.1.memory == c.memory && r.1.connected == c.connected && r.1.live == c.live
  {
    if Halted(c) then
      var id := NextId(c.lastId);
      var c1 := c.(memRequests := c.memRequests + [MemRequest(id, start, end, 0, space)]);
      (true, Send(c1, MemGet(start, end, space), true))
    else (false, c)
  }

  // ---------------------------------------------------------------------------------------
  // Checkpoints

  /** The operation mask `ViceAddCheckpoint` builds. */
  function OperationMask(load: bool, store: bool, exec: bool): (op: Byte)
    ensures op < 8
  {
    (if load then OP_LOAD else 0) + (if store then OP_STORE else 0) + (if exec then OP_EXEC else 0)
  }

  /** Whether `op & bit` is nonzero, for a single-bit `bit`. */
  predicate HasBit(op: Byte, bit: Byte)
    requires bit in {OP_LOAD, OP_STORE, OP_EXEC}
  {
    (op / bit) % 2 == 1
  }

  /** The mask has each bit exactly when its flag is set. */
  lemma OperationMaskBits(load: bool, store: bool, exec: bool)
    ensures HasBit(OperationMask(load, store, exec), OP_LOAD) <==> load
    ensures HasBit(OperationMask(load, store, exec), OP_STORE) <==> store
    ensures HasBit(OperationMask(load, store, exec), OP_EXEC) <==> exec
  {
  }

  /** `ViceAddCheckpoint`: sets an enabled, permanent checkpoint, then clears the local
      breakpoint store and asks for the checkpoint list to refill it. */
  function AddCheckpoint(c: Client, start: Word16, end: Word16, stop: bool, load: bool, store: bool, exec: bool): (r: Client)
    ensures Connected(c) ==>
      r.sent == c.sent + [Sent(U32(c.lastId + 1), CheckpointSet(start, end, stop, true, OperationMask(load, store, exec), false)),
                          Sent(U32(c.lastId + 2), CheckpointList)]
      && r.store == c.store + [ClearBreakpoints] && r.pending == c.pending
    ensures !Connected(c) ==> r == c
  {
    if Connected(c) then
      var c1 := Send(c, CheckpointSet(start, end, stop, true, OperationMask(load, store, exec), false), false);
      Send(c1.(store := c1.store + [ClearBreakpoints]), CheckpointList, false)
    else c
  }

  /** `ViceAddBreakpoint`: a stopping execution checkpoint on one address. */
  function AddBreakpoint(c: Client, addr: Word16): (r: Client)
    ensures Connected(c) ==>
      r.sent == c.sent + [Sent(U32(c.lastId + 1), CheckpointSet(addr, addr, true, true, OP_EXEC, false)),
                          Sent(U32(c.lastId + 2), CheckpointList)]
      && r.store == c.store + [ClearBreakpoints] && r.pending == c.pending
    ensures !Connected(c) ==> r == c
  {
    if Connected(c) then
      var c1 := Send(c, CheckpointSet(addr, addr, true, true, OP_EXEC, false), false);
      Send(c1.(store := c1.store + [ClearBreakpoints]), CheckpointList, false)
    else c
  }

  /** A breakpoint is the checkpoint that stops on execution of a single address. */
  lemma BreakpointIsExecCheckpoint(c: Client, addr: Word16)
    ensures AddBreakpoint(c, addr) == AddCheckpoint(c, addr, addr, true, false, false, true)
  {
  }
}
