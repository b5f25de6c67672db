/** What the client does with the emulator's replies: the dispatch in the receive loop
    (src/ViceInterface.cpp:648-702) and the handlers it calls.

    The C code reads a reply's body by casting the frame to the structure its type selects;
    those structures live in a header that is not part of this model. Here a body is given as a
    `View` next to the frame, and `Fits` says which view goes with which response type. */
module Replies {
  import opened Words
  import opened Outcomes
  import opened Memory
  import opened Protocol
  import opened Framing
  import opened Client
  import opened Registers

  /** The fields of a checkpoint reply the client reads. A byte field counts as set when it is nonzero. */
  datatype CheckpointInfo = CheckpointInfo(
    number: Word32, wasHit: Byte, start: Word16, end: Word16, stopWhenHit: Byte,
    enabled: Byte, operation: Byte, temporary: Byte, hasCondition: Byte)

  /** The body of a reply, for the response types whose handler reads one. */
  datatype View =
    | NoBody
    | RegistersBody(entries: seq<RegEntry>)
    | StopBody(pc: Word16)
    | MemoryBody(count: Word16, data: seq<Byte>)
    | CheckpointBody(info: CheckpointInfo)

  /** The view a response type is read as; a memory reply carries at least the bytes its count
      announces. */
  predicate Fits(kind: Byte, v: View)
  {
    if kind == REGISTERS_GET then v.RegistersBody?
    else if kind == RESUMED || kind == STOPPED || kind == JAM then v.StopBody?
    else if kind == MEM_GET then v.MemoryBody? && |v.data| >= v.count
    else if kind == CHECKPOINT_GET then v.CheckpointBody?
    else true
  }

  // ---------------------------------------------------------------------------------------
  // Checkpoints

  /** `handleCheckpointGet`'s flag word: each flag exactly when its field is set, the
      operation flags from the operation bits, `current` from the hit field. */
  function CheckpointFlags(cp: CheckpointInfo): (f: Flags)
    ensures f.enabled <==> cp.enabled != 0
    ensures f.stop <==> cp.stopWhenHit != 0
    ensures f.exec <==> HasBit(cp.operation, OP_EXEC)
    ensures f.load <==> HasBit(cp.operation, OP_LOAD)
    ensures f.store <==> HasBit(cp.operation, OP_STORE)
    ensures f.current <==> cp.wasHit != 0
    ensures f.temporary <==> cp.temporary != 0
  {
    Flags(cp.enabled != 0, cp.stopWhenHit != 0, HasBit(cp.operation, OP_EXEC),
          HasBit(cp.operation, OP_LOAD), HasBit(cp.operation, OP_STORE),
          cp.wasHit != 0, cp.temporary != 0)
  }

  /** `handleCheckpointGet`: marks the checkpoint as hit first if it was, then hands it to the
      breakpoint store; nothing is sent. */
  function HandleCheckpointGet(c: Client, cp: CheckpointInfo): (r: Client)
    ensures r.store == c.store
      + (if cp.wasHit != 0 then [SetHit(cp.number)] else [])
      + [StoreCall.AddBreakpoint(cp.number, CheckpointFlags(cp), cp.start, cp.end, cp.hasCondition != 0)]
    ensures r.sent == c.sent && r.pending == c.pending && r.memRequests == c.memRequests
    ensures r == c.(store := r.store)
  {
    var hit := if cp.wasHit != 0 then [SetHit(cp.number)] else [];
    c.(store := c.store + hit + [StoreCall.AddBreakpoint(cp.number, CheckpointFlags(cp), cp.start, cp.end, cp.hasCondition != 0)])
  }

  /** The reply that echoes a checkpoint as `ViceAddCheckpoint` set it. */
  function Echo(number: Word32, cmd: Command): CheckpointInfo
    requires cmd.CheckpointSet?
  {
    CheckpointInfo(number, 0, cmd.start, cmd.end, if cmd.stop then 1 else 0,
                   if cmd.enabled then 1 else 0, cmd.operation, if cmd.temporary then 1 else 0, 0)
  }

  /** A checkpoint set with `ViceAddCheckpoint` comes back from the checkpoint reply with the
      same range and exactly the flags it was set with: enabled, permanent, not current, and
      stop, load, store and exec as requested. */
  lemma CheckpointRoundTrip(c: Client, start: Word16, end: Word16, stop: bool, load: bool, store: bool, exec: bool, number: Word32)
    requires Connected(c)
    ensures var cmd := AddCheckpoint(c, start, end, stop, load, store, exec).sent[|c.sent|].command;
      cmd.CheckpointSet?
      && var info := Echo(number, cmd);
      info.start == start && info.end == end
      && CheckpointFlags(info) == Flags(true, stop, exec, load, store, false, false)
  {
    OperationMaskBits(load, store, exec);
  }

  // ---------------------------------------------------------------------------------------
  // Stop and resume

  /** The requests a stop sends: all of memory in two halves, the checkpoint list (after
      clearing the breakpoint store) and the display, under the next four IDs, of which only
      the two memory reads wait for a reply. */
  function Halt(c: Client): (r: Client)
    requires Halted(c)
    ensures r.pending == c.pending + [Pending(U32(c.lastId + 1), 0), Pending(U32(c.lastId + 2), 0)]
    ensures r.memRequests == c.memRequests + [MemRequest(U32(c.lastId + 1), 0x0000, 0x7FFF, 0, MAIN_MEMORY),
                                              MemRequest(U32(c.lastId + 2), 0x8000, 0xFFFF, 0, MAIN_MEMORY)]
    ensures r.store == c.store + [ClearBreakpoints]
    ensures r.lastId == U32(c.lastId + 4)
    ensures r == c.(lastId := r.lastId, sent := r.sent, pending := r.pending, memRequests := r.memRequests, store := r.store)
  {
    var c2 := ReadAll(c);
    U32Add(c.lastId + 2, 2);
    Announce(c2)
  }

  /** The four requests of `Halt`, in the order they go out, under the next four IDs. */
  lemma HaltSends(c: Client)
    requires Halted(c)
    ensures Halt(c).sent == c.sent + [Sent(U32(c.lastId + 1), MemGet(0x0000, 0x7FFF, MAIN_MEMORY)),
                                      Sent(U32(c.lastId + 2), MemGet(0x8000, 0xFFFF, MAIN_MEMORY)),
                                      Sent(U32(c.lastId + 3), CheckpointList),
                                      Sent(U32(c.lastId + 4), DisplayGet)]
  {
    var c2 := ReadAll(c);
    var id: int := c.lastId;
    U32Add(id + 2, 1);
    U32Add(id + 2, 2);
    assert Halt(c).sent == c2.sent + [Sent(U32(id + 3), CheckpointList), Sent(U32(id + 4), DisplayGet)];
  }

  /** What a stop sends whether or not memory can be read: the breakpoint store is cleared,
      then the checkpoint list and the display are requested without waiting for replies. */
  function Announce(c: Client): (r: Client)
    ensures r.sent == c.sent + [Sent(U32(c.lastId + 1), CheckpointList), Sent(U32(c.lastId + 2), DisplayGet)]
    ensures r.store == c.store + [ClearBreakpoints]
    ensures r.lastId == U32(c.lastId + 2)
    ensures r == c.(lastId := r.lastId, sent := r.sent, store := r.store)
  {
    var c1 := Send(c.(store := c.store + [ClearBreakpoints]), CheckpointList, false);
    var c2 := Send(c1, DisplayGet, false);
    assert c2.lastId == U32(c.lastId + 2);
    c2
  }

  /** The two memory reads of `Halt`. */
  function ReadAll(c: Client): (r: Client)
    requires Halted(c)
    ensures Halted(r)
    ensures r.sent == c.sent + [Sent(U32(c.lastId + 1), MemGet(0x0000, 0x7FFF, MAIN_MEMORY)),
                                Sent(U32(c.lastId + 2), MemGet(0x8000, 0xFFFF, MAIN_MEMORY))]
    ensures r.pending == c.pending + [Pending(U32(c.lastId + 1), 0), Pending(U32(c.lastId + 2), 0)]
    ensures r.memRequests == c.memRequests + [MemRequest(U32(c.lastId + 1), 0x0000, 0x7FFF, 0, MAIN_MEMORY),
                                              MemRequest(U32(c.lastId + 2), 0x8000, 0xFFFF, 0, MAIN_MEMORY)]
    ensures r.lastId == U32(c.lastId + 2)
    ensures r == c.(lastId := r.lastId, sent := r.sent, pending := r.pending, memRequests := r.memRequests)
  {
    var c1 := GetMemory(c, 0x0000, 0x7FFF, MAIN_MEMORY).1;
    assert c1.lastId == U32(c.lastId + 1);
    var c2 := GetMemory(c1, 0x8000, 0xFFFF, MAIN_MEMORY).1;
    assert c2.lastId == U32(c.lastId + 2);
    c2
  }

  /** `handleStopResume`: the program counter follows the reply. On Resumed the client is
      running again and sends nothing; on Stopped or JAM it is stopped and, when connected,
      refreshes memory, breakpoints and display (`Halt`). Any other type changes only the
      program counter. */
  function StopResume(c: Client, kind: Byte, pc: Word16): (r: Client)
    ensures r.regs == c.regs.(pc := pc)
    ensures kind == RESUMED ==> r == c.(regs := r.regs, stopped := false)
    ensures (kind == STOPPED || kind == JAM) && Connected(c) ==>
      r == Halt(c.(regs := r.regs, stopped := true))
    ensures (kind == STOPPED || kind == JAM) ==> r.stopped
    ensures r.connected == c.connected && r.live == c.live && r.memory == c.memory
      && r.closeRequest == c.closeRequest
  {
    var c1 := c.(regs := c.regs.(pc := pc));
    if kind == RESUMED then c1.(stopped := false)
    else if kind == STOPPED || kind == JAM then
      var c2 := c1.(stopped := true);
      if Connected(c2) then Halt(c2)
      else
        Announce(c2)
    else c1
  }

  // ---------------------------------------------------------------------------------------
  // Memory replies

  /** Whether some memory request has this ID. */
  predicate Registered(c: Client, id: Word32)
  {
    exists i :: 0 <= i < |c.memRequests| && c.memRequests[i].id == id
  }

  /** `updateGetMemory`: takes the first request with the reply's ID out of the registry and,
      if the client has a CPU for its memory space, copies the reply's `count` bytes to the
      request's start address. The C code asserts that the request exists. */
  function UpdateGetMemory(c: Client, id: Word32, count: Word16, data: seq<Byte>): (r: Client)
    requires Registered(c, id)
    requires |data| >= count
    ensures var k := IndexOf(c.memRequests, RequestKey, id);
      k < |c.memRequests|
      && r.memRequests == c.memRequests[..k] + c.memRequests[k + 1..]
      && var q := c.memRequests[k];
      && (q.space in c.memory ==>
            && q.space in r.memory
            && (forall j :: 0 <= j < count ==> Peek(r.memory[q.space], q.start + j) == data[j])
            && (forall b: Word16 :: !InRange(b, q.start, count) ==> r.memory[q.space][b] == c.memory[q.space][b]))
      && r.memory.Keys == c.memory.Keys
      && (forall s :: s in c.memory && s != q.space ==> r.memory[s] == c.memory[s])
    ensures r == c.(memRequests := r.memRequests, memory := r.memory)
  {
    var k := IndexOf(c.memRequests, RequestKey, id);
    var q := c.memRequests[k];
    var c1 := c.(memRequests := RemoveFirst(c.memRequests, RequestKey, id));
    if q.space in c.memory then
      var m := PokeAll(c.memory[q.space], q.start, data[..count]);
      PokeAllEffect(c.memory[q.space], q.start, data[..count]);
      c1.(memory := c.memory[q.space := m])
    else c1
  }

  // ---------------------------------------------------------------------------------------
  // Dispatch

  /** One frame: a reply whose ID is not the sentinel first answers its pending request, then
      the handler for its type runs. `None` where the C code's assertion that a memory reply
      was requested fails. */
  function HandleFrame(c: Client, f: seq<Byte>, v: View): (r: Option<Client>)
    requires WellFramed(f) && Fits(Kind(f), v)
    ensures r.None? <==> Kind(f) == MEM_GET && !Registered(c, RequestId(f))
    ensures r.Some? && Kind(f) != STOPPED && Kind(f) != JAM ==> r.value.pending == Answer(c.pending, RequestId(f))
    ensures r.Some? && Kind(f) != STOPPED && Kind(f) != JAM && Kind(f) != MEM_GET ==>
      r.value.memRequests == c.memRequests
    ensures r.Some? && Kind(f) != STOPPED && Kind(f) != JAM ==> r.value.lastId == c.lastId
    ensures r.Some? ==> r.value.closeRequest == c.closeRequest
  {
    var id := RequestId(f);
    var c1 := c.(pending := Answer(c.pending, id));
    var kind := Kind(f);
    if kind == REGISTERS_GET then Some(c1.(regs := UpdateRegisters(c1.regs, v.entries)))
    else if kind == RESUMED || kind == STOPPED || kind == JAM then Some(StopResume(c1, kind, v.pc))
    else if kind == MEM_GET then
      if Registered(c1, id) then Some(UpdateGetMemory(c1, id, v.count, v.data)) else None
    else if kind == CHECKPOINT_GET then Some(HandleCheckpointGet(c1, v.info))
    else if kind == DISPLAY_GET then Some(c1.(store := c1.store + [RefreshScreen]))
    else Some(c1)
  }

  /** The views fit the frames they are paired with. */
  predicate AllFit(frames: seq<seq<Byte>>, views: seq<View>)
  {
    |views| == |frames|
    && forall i :: 0 <= i < |frames| ==> WellFramed(frames[i]) && Fits(Kind(frames[i]), views[i])
  }

  /** The frames handled one after the other, in stream order. */
  function Dispatch(c: Client, frames: seq<seq<Byte>>, views: seq<View>): (r: Option<Client>)
    requires AllFit(frames, views)
    ensures r.Some? ==> r.value.closeRequest == c.closeRequest
    decreases |frames|
  {
    if |frames| == 0 then Some(c)
    else
      match HandleFrame(c, frames[0], views[0])
      case None => None
      case Some(c1) => Dispatch(c1, frames[1..], views[1..])
  }

  /** Handling a run of frames in two parts is handling it at once. */
  lemma {:induction false} DispatchAppend(c: Client, f1: seq<seq<Byte>>, v1: seq<View>, f2: seq<seq<Byte>>, v2: seq<View>)
    requires AllFit(f1, v1) && AllFit(f2, v2)
    ensures AllFit(f1 + f2, v1 + v2)
    ensures Dispatch(c, f1 + f2, v1 + v2) ==
      match Dispatch(c, f1, v1)
      case None => None
      case Some(c1) => Dispatch(c1, f2, v2)
    decreases |f1|
  {
    assert AllFit(f1 + f2, v1 + v2) by {
      forall i | 0 <= i < |f1 + f2|
        ensures WellFramed((f1 + f2)[i]) && Fits(Kind((f1 + f2)[i]), (v1 + v2)[i])
      {
        if i >= |f1| {
          assert (f1 + f2)[i] == f2[i - |f1|] && (v1 + v2)[i] == v2[i - |f1|];
        }
      }
    }
    if |f1| == 0 {
      assert f1 + f2 == f2 && v1 + v2 == v2;
    } else {
      assert (f1 + f2)[0] == f1[0] && (v1 + v2)[0] == v1[0];
      assert (f1 + f2)[1..] == f1[1..] + f2 && (v1 + v2)[1..] == v1[1..] + v2;
      match HandleFrame(c, f1[0], v1[0])
      case None =>
      case Some(c1) =>
        DispatchAppend(c1, f1[1..], v1[1..], f2, v2);
    }
  }

  /** The views the bytes just received will be read with fit the frames they complete. */
  predicate Receivable(buffer: seq<Byte>, chunk: seq<Byte>, views: seq<View>)
  {
    AllFit(Extract(buffer + chunk).0, views)
  }

  /** One turn of the receive loop, on the client and the receive buffer: a pending close
      request tears the connection down; otherwise the received bytes join the buffer, every
      complete frame at its front is handled in order, and the rest stays in the buffer. */
  function Pump(c: Client, buffer: seq<Byte>, chunk: seq<Byte>, views: seq<View>): (r: (Option<Client>, seq<Byte>))
    requires c.closeRequest || Receivable(buffer, chunk, views)
    ensures c.closeRequest ==> r == (Some(Teardown(c.(closeRequest := false))), buffer)
    ensures !c.closeRequest ==>
      && Concat(Extract(buffer + chunk).0) + r.1 == buffer + chunk
      && !Ready(r.1)
      && (r.0.Some? ==> !r.0.value.closeRequest)
  {
    if c.closeRequest then (Some(Teardown(c.(closeRequest := false))), buffer)
    else
      var e := Extract(buffer + chunk);
      (Dispatch(c, e.0, views), e.1)
  }

  /** The client and the buffer end up the same however the byte stream was cut into chunks. */
  lemma PumpChunks(c: Client, buffer: seq<Byte>, a: seq<Byte>, b: seq<Byte>, va: seq<View>, vb: seq<View>)
    requires !c.closeRequest && Receivable(buffer, a, va)
    requires Pump(c, buffer, a, va).0.Some?
    requires Receivable(Pump(c, buffer, a, va).1, b, vb)
    ensures Receivable(buffer, a + b, va + vb)
    ensures Pump(c, buffer, a + b, va + vb) == Pump(Pump(c, buffer, a, va).0.value, Pump(c, buffer, a, va).1, b, vb)
  {
    var e1 := Extract(buffer + a);
    var e2 := Extract(e1.1 + b);
    StreamSplit(buffer, a, b);
    DispatchAppend(c, e1.0, va, e2.0, vb);
  }

  /** Extracting from the whole stream is extracting from the first chunk, then from what was
      left over plus the second chunk. */
  lemma StreamSplit(buffer: seq<Byte>, a: seq<Byte>, b: seq<Byte>)
    ensures Extract(buffer + (a + b)).0 == Extract(buffer + a).0 + Extract(Extract(buffer + a).1 + b).0
    ensures Extract(buffer + (a + b)).1 == Extract(Extract(buffer + a).1 + b).1
  {
    Regroup(buffer, a, b);
    ChunkIndependent(buffer + a, b);
  }

  /** A reply other than a memory reply, a stop or a JAM leaves the memory registry alone:
      answering a registers request does not consume a memory request still in flight. */
  lemma OtherRepliesKeepRegistry(c: Client, f: seq<Byte>, v: View)
    requires WellFramed(f) && Fits(Kind(f), v)
    requires Kind(f) !in {MEM_GET, STOPPED, JAM}
    ensures HandleFrame(c, f, v).Some?
    ensures HandleFrame(c, f, v).value.memRequests == c.memRequests
  {
  }

  // ---------------------------------------------------------------------------------------
  // The pending list stays oldest first

  /** Every pending request is young enough that `n` more IDs do not wrap around onto it. */
  predicate Fresh(p: seq<Pending>, last: Word32, n: nat)
  {
    forall i :: 0 <= i < |p| ==> Age(p[i].id, last) + n < 0xFFFF_FFFF
  }

  lemma SendKeepsFresh(c: Client, cmd: Command, wantResponse: bool, n: nat)
    requires n < 0xFFFF_FFFF
    requires Ordered(c.pending, c.lastId) && Fresh(c.pending, c.lastId, n + 1)
    ensures Ordered(Send(c, cmd, wantResponse).pending, NextId(c.lastId))
    ensures Fresh(Send(c, cmd, wantResponse).pending, NextId(c.lastId), n)
  {
    SendKeepsOrder(c, cmd, wantResponse);
    var r := Send(c, cmd, wantResponse);
    forall i | 0 <= i < |r.pending|
      ensures Age(r.pending[i].id, NextId(c.lastId)) + n < 0xFFFF_FFFF
    {
      if i < |c.pending| {
        AgeStep(c.pending[i].id, c.lastId);
      } else {
        assert Age(r.pending[i].id, NextId(c.lastId)) == 0;
      }
    }
  }

  lemma AnswerKeepsFresh(p: seq<Pending>, last: Word32, id: Word32, n: nat)
    requires Fresh(p, last, n)
    ensures Fresh(Answer(p, id), last, n)
  {
    var r := Answer(p, id);
    if id != SENTINEL && IndexOf(p, PendingId, id) < |p| {
      var k := IndexOf(p, PendingId, id);
      forall i | 0 <= i < |r|
        ensures Age(r[i].id, last) + n < 0xFFFF_FFFF
      {
        assert r[i] == p[if i < k then i else i + 1];
      }
    }
  }

  /** The four requests of a stop keep the pending list oldest first. */
  lemma HaltKeepsOrder(c: Client)
    requires Halted(c) && Ordered(c.pending, c.lastId) && Fresh(c.pending, c.lastId, 4)
    ensures Ordered(Halt(c).pending, Halt(c).lastId)
  {
    var d0 := c.(memRequests := c.memRequests + [MemRequest(NextId(c.lastId), 0x0000, 0x7FFF, 0, MAIN_MEMORY)]);
    SendKeepsFresh(d0, MemGet(0x0000, 0x7FFF, MAIN_MEMORY), true, 3);
    var c1 := Send(d0, MemGet(0x0000, 0x7FFF, MAIN_MEMORY), true);
    assert c1 == GetMemory(c, 0x0000, 0x7FFF, MAIN_MEMORY).1;
    var d1 := c1.(memRequests := c1.memRequests + [MemRequest(NextId(c1.lastId), 0x8000, 0xFFFF, 0, MAIN_MEMORY)]);
    SendKeepsFresh(d1, MemGet(0x8000, 0xFFFF, MAIN_MEMORY), true, 2);
    var c2 := Send(d1, MemGet(0x8000, 0xFFFF, MAIN_MEMORY), true);
    assert c2 == GetMemory(c1, 0x8000, 0xFFFF, MAIN_MEMORY).1;
    var d2 := c2.(store := c2.store + [ClearBreakpoints]);
    SendKeepsFresh(d2, CheckpointList, false, 1);
    var c3 := Send(d2, CheckpointList, false);
    SendKeepsFresh(c3, DisplayGet, false, 0);
  }

  /** Every reply keeps the pending list oldest first, provided no pending request is within
      four IDs of being overtaken by the counter (a stop sends four requests). */
  lemma HandleFrameKeepsOrder(c: Client, f: seq<Byte>, v: View)
    requires WellFramed(f) && Fits(Kind(f), v)
    requires Ordered(c.pending, c.lastId) && Fresh(c.pending, c.lastId, 4)
    requires HandleFrame(c, f, v).Some?
    ensures Ordered(HandleFrame(c, f, v).value.pending, HandleFrame(c, f, v).value.lastId)
  {
    var id := RequestId(f);
    var c1 := c.(pending := Answer(c.pending, id));
    AnswerKeepsOrder(c.pending, c.lastId, id);
    AnswerKeepsFresh(c.pending, c.lastId, id, 4);
    if Kind(f) == STOPPED || Kind(f) == JAM {
      var c2 := c1.(regs := c1.regs.(pc := v.pc), stopped := true);
      if Connected(c2) {
        HaltKeepsOrder(c2);
      } else {
        var d := c2.(store := c2.store + [ClearBreakpoints]);
        SendKeepsFresh(d, CheckpointList, false, 3);
        SendKeepsFresh(Send(d, CheckpointList, false), DisplayGet, false, 2);
      }
    }
  }
}
