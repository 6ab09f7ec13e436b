/**
 The transmit ring: driver and device share 64 descriptors through the head, the tail and the DD
 bits, and are interleaved at every access to shared memory.

 The device follows section 3.4 of Intel's PCI/PCI-X Family of Gigabit Ethernet Controllers Software
 Developer's Manual: it has work while TDH differs from TDT; it sends the buffer of the descriptor at
 TDH, writes the descriptor back with DD set if the command asks for a report (RS), and then advances
 TDH. A packet goes on over several descriptors until one has EOP, and it gets a checksum if that one has
 IFCS; a packet without a checksum is not a frame.
 */
module TransmitRing {
  import opened Common
  import opened RingIndex

  /**
   Where `transmit_raw` is: not called; before the tests; after them; after the copy into the buffer;
   after the descriptor was rewritten with a clear status.
   */
  datatype Driver =
    | Idle
    | Called(frame: Frame)
    | Checked(frame: Frame)
    | Copied(frame: Frame)
    | DescWritten(frame: Frame)

  /** Where the device is: at rest, frame sent, descriptor written back but TDH not advanced. */
  datatype Device = Rest | FrameSent | WrittenBack

  /** A descriptor as the device sees it; `cmd` is the command byte. */
  datatype Desc = Desc(length: nat, cmd: byte, dd: bool)

  /** Bits 0, 1 and 3 of the command: end of packet, insert checksum, report status. */
  predicate Eop(cmd: byte) {
    cmd % 2 == 1
  }

  predicate Ifcs(cmd: byte) {
    cmd / 2 % 2 == 1
  }

  predicate Rs(cmd: byte) {
    cmd / 8 % 2 == 1
  }

  /** `(1 << 0) | (1 << 1) | (1 << 3)`. */
  const COMMAND: byte := 1 + 2 + 8

  /**
   `part` is the packet the device has begun and not ended. The rest is history: `accepted` frames were
   given to the device, `sent` ones were put on the wire with a checksum and `bare` packets without one,
   and `refused` frames were turned away.
   */
  datatype State = State(
    descs: seq<Desc>,
    buffers: seq<seq<byte>>,
    tdh: Index,
    tdt: Index,
    txCur: Index,
    driver: Driver,
    device: Device,
    part: seq<byte>,
    accepted: seq<Frame>,
    sent: seq<Frame>,
    bare: seq<Frame>,
    refused: seq<Frame>)

  ghost predicate Shape(s: State) {
    && |s.descs| == |s.buffers| == DESC_COUNT
    && forall k: Index :: |s.buffers[k]| == PACKET_BUFFER_SIZE && s.descs[k].length <= PACKET_BUFFER_SIZE
  }

  datatype Action =
    | Call(frame: Frame)
    | Check
    | CopyIn
    | WriteDesc
    | Publish
    | Send
    | WriteBack
    | AdvanceHead

  ghost predicate Enabled(s: State, a: Action) {
    match a
    case Call(_) => s.driver.Idle?
    case Check => s.driver.Called?
    case CopyIn => s.driver.Checked? && |s.driver.frame| <= PACKET_BUFFER_SIZE
    case WriteDesc => s.driver.Copied?
    case Publish => s.driver.DescWritten?
    case Send => s.device.Rest? && s.tdh != s.tdt
    case WriteBack => s.device.FrameSent?
    case AdvanceHead => s.device.WrittenBack?
  }

  ghost function Step(s: State, a: Action): State
    requires Shape(s) && Enabled(s, a)
  {
    match a
    case Call(frame) => s.(driver := Called(frame))
    case Check =>
      var frame := s.driver.frame;
      if |frame| > PACKET_BUFFER_SIZE || !s.descs[s.txCur].dd then s.(driver := Idle, refused := s.refused + [frame])
      else s.(driver := Checked(frame))
    case CopyIn =>
      s.(buffers := s.buffers[s.txCur := Filled(s.buffers[s.txCur], s.driver.frame)], driver := Copied(s.driver.frame))
    case WriteDesc =>
      s.(descs := s.descs[s.txCur := Desc(|s.driver.frame|, COMMAND, false)], driver := DescWritten(s.driver.frame))
    case Publish =>
      s.(txCur := Succ(s.txCur), tdt := Succ(s.txCur), driver := Idle, accepted := s.accepted + [s.driver.frame])
    case Send =>
      var desc := s.descs[s.tdh];
      var packet := s.part + s.buffers[s.tdh][..desc.length];
      if !Eop(desc.cmd) then s.(device := FrameSent, part := packet)
      else if Ifcs(desc.cmd) then s.(device := FrameSent, part := [], sent := s.sent + [packet])
      else s.(device := FrameSent, part := [], bare := s.bare + [packet])
    case WriteBack =>
      if Rs(s.descs[s.tdh].cmd) then
        s.(descs := s.descs[s.tdh := s.descs[s.tdh].(dd := true)], device := WrittenBack)
      else s.(device := WrittenBack)
    case AdvanceHead => s.(tdh := Succ(s.tdh), device := Rest)
  }

  /** After `init_tx`: every descriptor is free, TDH and TDT are 0. */
  ghost predicate Init(s: State) {
    && Shape(s)
    && (forall k: Index :: s.descs[k].dd)
    && s.tdh == 0 && s.tdt == 0 && s.txCur == 0
    && s.driver == Idle && s.device == Rest
    && s.part == [] && s.accepted == [] && s.sent == [] && s.bare == [] && s.refused == []
  }

  ghost predicate IsRun(ss: seq<State>, actions: seq<Action>) {
    && |ss| == |actions| + 1
    && (forall i | 0 <= i < |actions| ::
          Shape(ss[i]) && Enabled(ss[i], actions[i]) && ss[i + 1] == Step(ss[i], actions[i]))
  }

  // ---- The invariant ----

  /** Frames whose descriptor was written back: the frame being sent is not among them yet. */
  ghost function Freed(s: State): int {
    |s.sent| - if s.device.FrameSent? then 1 else 0
  }

  ghost function Head(s: State): int {
    |s.sent| - if s.device.Rest? then 0 else 1
  }

  /** Frames accepted whose descriptor is still in use: the frames in flight. */
  ghost function InFlight(s: State): int {
    |s.accepted| - Freed(s)
  }

  /** The command asks for everything: one packet per descriptor, with a checksum, and a report. */
  predicate AsksAll(cmd: byte) {
    Eop(cmd) && Ifcs(cmd) && Rs(cmd)
  }

  /**
   A slot in flight holds its frame, asks for everything and has DD clear; other slots have DD set, but
   the one being filled.
   */
  ghost predicate SlotOk(s: State, k: Index)
    requires Shape(s) && Freed(s) >= 0
  {
    var n := Number(k, Freed(s));
    if n < |s.accepted| then
      !s.descs[k].dd && AsksAll(s.descs[k].cmd) && s.buffers[k][..s.descs[k].length] == s.accepted[n]
    else
      s.descs[k].dd <==> !(s.driver.DescWritten? && k == s.txCur)
  }

  ghost predicate PointersOk(s: State) {
    && Head(s) >= 0 && Freed(s) >= 0
    && 0 <= InFlight(s) <= 64
    && s.tdh == Slot(Head(s))
    && s.txCur == s.tdt == Slot(|s.accepted|)
    && (!s.device.Rest? ==> |s.sent| <= |s.accepted|)
  }

  ghost predicate PhasesOk(s: State)
    requires Shape(s)
  {
    && (s.driver.Checked? || s.driver.Copied? || s.driver.DescWritten? ==>
          |s.driver.frame| <= PACKET_BUFFER_SIZE && InFlight(s) < 64)
    && (s.driver.Copied? ==> s.buffers[s.txCur][..|s.driver.frame|] == s.driver.frame)
    && (s.driver.DescWritten? ==>
          s.buffers[s.txCur][..s.descs[s.txCur].length] == s.driver.frame && AsksAll(s.descs[s.txCur].cmd))
  }

  ghost predicate Inv(s: State) {
    && Shape(s)
    && PointersOk(s)
    && PhasesOk(s)
    && s.sent <= s.accepted && s.part == [] && s.bare == []
    && forall k: Index :: SlotOk(s, k)
  }

  // ---- Every step keeps it ----

  lemma CheckKeepsInv(s: State, a: Action)
    requires Inv(s) && Enabled(s, a) && (a.Call? || a.Check?)
    ensures Inv(Step(s, a))
  {
    FreeWhenNotFull(s);
    var s' := Step(s, a);
    forall k: Index
      ensures SlotOk(s', k)
    {
      assert SlotOk(s, k);
    }
  }

  /** Unless it is rewriting a descriptor, the driver finds DD set exactly when fewer than 64 frames are in flight. */
  lemma FreeWhenNotFull(s: State)
    requires Inv(s) && !s.driver.DescWritten?
    ensures s.descs[s.txCur].dd <==> InFlight(s) < 64
  {
    var f := Freed(s);
    assert SlotOk(s, s.txCur);
    if InFlight(s) < 64 {
      NumberOfSlot(|s.accepted|, f);
    } else {
      NumberOfSlot(f, f);
      assert Slot(f + 64) == Slot(f);
    }
  }

  /** The slot being filled is not in flight. */
  lemma CurrentIsFree(s: State)
    requires Inv(s) && InFlight(s) < 64
    ensures Number(s.txCur, Freed(s)) == |s.accepted|
  {
    NumberOfSlot(|s.accepted|, Freed(s));
  }

  lemma FillingKeepsInv(s: State, a: Action)
    requires Inv(s) && Enabled(s, a) && (a.CopyIn? || a.WriteDesc?)
    ensures Inv(Step(s, a))
  {
    CurrentIsFree(s);
    forall k: Index
      ensures SlotOk(Step(s, a), k)
    {
      assert SlotOk(s, k);
    }
  }

  lemma PublishKeepsInv(s: State)
    requires Inv(s) && Enabled(s, Publish)
    ensures Inv(Step(s, Publish))
  {
    CurrentIsFree(s);
    SuccSlot(|s.accepted|);
    assert SlotOk(s, s.txCur);
    forall k: Index
      ensures SlotOk(Step(s, Publish), k)
    {
      assert SlotOk(s, k);
    }
  }

  lemma SendKeepsInv(s: State)
    requires Inv(s) && Enabled(s, Send)
    ensures Inv(Step(s, Send))
  {
    var f := Freed(s);
    assert InFlight(s) != 0;
    NumberOfSlot(f, f);
    assert SlotOk(s, s.tdh);
    assert s.part + s.accepted[f] == s.accepted[f];
    forall k: Index
      ensures SlotOk(Step(s, Send), k)
    {
      assert SlotOk(s, k);
    }
  }

  lemma WriteBackKeepsInv(s: State)
    requires Inv(s) && Enabled(s, WriteBack)
    ensures Inv(Step(s, WriteBack))
  {
    var s', f := Step(s, WriteBack), Freed(s);
    NumberOfSlot(f, f);
    assert Freed(s') == f + 1;
    forall k: Index
      ensures SlotOk(s', k)
    {
      assert SlotOk(s, k);
      NumberMoves(k, f);
    }
    if s.driver.DescWritten? || s.driver.Copied? {
      CurrentIsFree(s);
    }
  }

  lemma AdvanceKeepsInv(s: State)
    requires Inv(s) && Enabled(s, AdvanceHead)
    ensures Inv(Step(s, AdvanceHead))
  {
    SuccSlot(Head(s));
    forall k: Index
      ensures SlotOk(Step(s, AdvanceHead), k)
    {
      assert SlotOk(s, k);
    }
  }

  lemma StepKeepsInv(s: State, a: Action)
    requires Inv(s) && Enabled(s, a)
    ensures Inv(Step(s, a))
  {
    match a
    case Call(_) => CheckKeepsInv(s, a);
    case Check => CheckKeepsInv(s, a);
    case CopyIn => FillingKeepsInv(s, a);
    case WriteDesc => FillingKeepsInv(s, a);
    case Publish => PublishKeepsInv(s);
    case Send => SendKeepsInv(s);
    case WriteBack => WriteBackKeepsInv(s);
    case AdvanceHead => AdvanceKeepsInv(s);
  }

  lemma {:induction false} RunKeepsInv(ss: seq<State>, actions: seq<Action>, i: nat)
    requires IsRun(ss, actions) && Init(ss[0]) && i < |ss|
    ensures Inv(ss[i])
    decreases i
  {
    if i > 0 {
      RunKeepsInv(ss, actions, i - 1);
      StepKeepsInv(ss[i - 1], actions[i - 1]);
      assert ss[i - 1 + 1] == Step(ss[i - 1], actions[i - 1]);
    } else {
      assert forall k: Index :: SlotOk(ss[0], k);
    }
  }

  // ---- What holds in every interleaving ----

  /** The frames in the slots from `k` on, `count` of them, read from the shared memory. */
  ghost function Pending(s: State, k: Index, count: nat): seq<Frame>
    requires Shape(s)
    decreases count
  {
    if count == 0 then []
    else [s.buffers[k][..s.descs[k].length]] + Pending(s, Succ(k), count - 1)
  }

  lemma {:induction false} PendingIsAccepted(s: State, n: nat)
    requires Inv(s) && Freed(s) <= n <= |s.accepted|
    ensures Pending(s, Slot(n), |s.accepted| - n) == s.accepted[n..]
    decreases |s.accepted| - n
  {
    if n < |s.accepted| {
      assert SlotOk(s, Slot(n));
      NumberOfSlot(n, Freed(s));
      SuccSlot(n);
      PendingIsAccepted(s, n + 1);
    }
  }

  /**
   In every state the frames sent are a byte-exact prefix of the frames accepted, each in one packet and
   with a checksum; at most 64 frames
   are in flight, and their bytes lie in the shared memory in the slots before tx_cur. Whenever the
   driver is not in the middle of rewriting a descriptor, the slots with DD clear are exactly theirs.
   */
  lemma SentInOrder(ss: seq<State>, actions: seq<Action>, i: nat)
    requires IsRun(ss, actions) && Init(ss[0]) && i < |ss|
    ensures var s := ss[i];
            && Shape(s)
            && s.sent <= s.accepted && s.bare == [] && s.part == []
            && 0 <= Freed(s) <= |s.accepted| && InFlight(s) <= 64
            && Pending(s, Slot(Freed(s)), InFlight(s)) == s.accepted[Freed(s)..]
            && (!s.driver.DescWritten? ==>
                  forall k: Index :: !s.descs[k].dd <==> Number(k, Freed(s)) < |s.accepted|)
  {
    var s := ss[i];
    RunKeepsInv(ss, actions, i);
    PendingIsAccepted(s, Freed(s));
    if !s.driver.DescWritten? {
      forall k: Index
        ensures !s.descs[k].dd <==> Number(k, Freed(s)) < |s.accepted|
      {
        assert SlotOk(s, k);
      }
    }
  }

  /** No step overwrites the buffer or the length of a frame in flight. */
  lemma InFlightUntouched(ss: seq<State>, actions: seq<Action>, i: nat, n: nat)
    requires IsRun(ss, actions) && Init(ss[0]) && i < |actions|
    requires Freed(ss[i]) <= n < |ss[i].accepted|
    ensures var k := Slot(n);
            && |ss[i + 1].buffers| == |ss[i + 1].descs| == DESC_COUNT
            && ss[i + 1].buffers[k] == ss[i].buffers[k]
            && ss[i + 1].descs[k].length == ss[i].descs[k].length
            && ss[i].buffers[k][..ss[i].descs[k].length] == ss[i].accepted[n]
  {
    var s := ss[i];
    RunKeepsInv(ss, actions, i);
    NumberOfSlot(n, Freed(s));
    assert SlotOk(s, Slot(n));
    assert ss[i + 1] == Step(s, actions[i]);
    if actions[i].CopyIn? || actions[i].WriteDesc? {
      CurrentIsFree(s);
    }
  }

  /** At rest, the device can start on a frame if and only if 1 to 63 frames are in flight. */
  lemma DeviceCanAdvanceIff(ss: seq<State>, actions: seq<Action>, i: nat)
    requires IsRun(ss, actions) && Init(ss[0]) && i < |ss| && ss[i].device.Rest?
    ensures Enabled(ss[i], Send) <==> 1 <= InFlight(ss[i]) <= 63
  {
    RunKeepsInv(ss, actions, i);
  }

  // ---- Tokens ----

  /** What `Device::transmit` tests before it hands out a token. */
  predicate TokenAvailable(s: State) {
    s.txCur < |s.descs| && s.descs[s.txCur].dd
  }

  /** While the call that uses the token runs, its frame is still going to be accepted, or has been. */
  ghost predicate OnItsWay(s0: State, s: State, frame: Frame) {
    && s.refused == s0.refused
    && match s.driver
       case Idle => s.accepted == s0.accepted + [frame]
       case Called(f) => f == frame && s.accepted == s0.accepted && TokenAvailable(s)
       case Checked(f) => f == frame && s.accepted == s0.accepted
       case Copied(f) => f == frame && s.accepted == s0.accepted
       case DescWritten(f) => f == frame && s.accepted == s0.accepted
  }

  /** Until the token is used, the descriptor it was handed out for stays free. */
  ghost predicate TokenKept(s0: State, s: State) {
    s.driver.Idle? && TokenAvailable(s) && s.accepted == s0.accepted && s.refused == s0.refused
  }

  lemma {:induction false} TokenStaysKept(s0: State, s: State, a: Action)
    requires Shape(s) && TokenKept(s0, s) && Enabled(s, a) && !a.Call?
    ensures TokenKept(s0, Step(s, a))
  {
  }

  lemma {:induction false} StaysOnItsWay(s0: State, s: State, a: Action, frame: Frame)
    requires Shape(s) && OnItsWay(s0, s, frame) && Enabled(s, a) && !a.Call? && |frame| <= PACKET_BUFFER_SIZE
    ensures OnItsWay(s0, Step(s, a), frame)
  {
    if a.Send? || a.WriteBack? || a.AdvanceHead? {
      DeviceKeepsToken(s, a);
    }
  }

  /** The device does not touch the driver's state, and never clears DD. */
  lemma {:induction false} DeviceKeepsToken(s: State, a: Action)
    requires Shape(s) && Enabled(s, a) && (a.Send? || a.WriteBack? || a.AdvanceHead?)
    ensures var s' := Step(s, a);
            && s'.driver == s.driver && s'.accepted == s.accepted && s'.refused == s.refused
            && (TokenAvailable(s) ==> TokenAvailable(s'))
  {
  }

  /**
   A token is never wasted. `Device::transmit` saw DD set at tx_cur in state `ss[0]`; some time later,
   at step `call`, the token is consumed. However the device is interleaved before and during that call, a
   frame of at most 2048 bytes is not refused, and by the time the call is over it has been accepted.
   */
  lemma {:induction false} TokenNeverLoses(ss: seq<State>, actions: seq<Action>, call: nat, frame: Frame, i: nat)
    requires IsRun(ss, actions) && ss[0].driver.Idle? && TokenAvailable(ss[0]) && |frame| <= PACKET_BUFFER_SIZE
    requires call < |actions| && actions[call] == Call(frame) && i < |ss|
    requires forall j | 0 <= j < |actions| && j != call :: !actions[j].Call?
    ensures if i <= call then TokenKept(ss[0], ss[i]) else OnItsWay(ss[0], ss[i], frame)
    decreases i
  {
    if i > 0 {
      TokenNeverLoses(ss, actions, call, frame, i - 1);
      assert ss[i - 1 + 1] == Step(ss[i - 1], actions[i - 1]);
      if i <= call {
        TokenStaysKept(ss[0], ss[i - 1], actions[i - 1]);
      } else if i > call + 1 {
        StaysOnItsWay(ss[0], ss[i - 1], actions[i - 1], frame);
      }
    }
  }

  // ---- The full ring ----

  /** All 64 descriptors in flight and the device at rest. */
  ghost predicate Wedged(s: State) {
    Inv(s) && s.device.Rest? && InFlight(s) == 64
  }

  lemma WedgedStep(s: State, a: Action)
    requires Wedged(s) && Enabled(s, a)
    ensures var s' := Step(s, a);
            Wedged(s') && s'.sent == s.sent && s'.accepted == s.accepted
  {
    StepKeepsInv(s, a);
    if !s.driver.DescWritten? {
      FreeWhenNotFull(s);
    }
  }

  /**
   The driver keeps no descriptor back, so 64 frames can be in flight; then TDT equals TDH, the device
   sees an empty ring, and nothing is sent or accepted ever again.
   */
  lemma {:induction false} WedgedForever(ss: seq<State>, actions: seq<Action>, i: nat)
    requires IsRun(ss, actions) && Wedged(ss[0]) && i < |ss|
    ensures Wedged(ss[i]) && ss[i].sent == ss[0].sent && ss[i].accepted == ss[0].accepted
    decreases i
  {
    if i > 0 {
      WedgedForever(ss, actions, i - 1);
      WedgedStep(ss[i - 1], actions[i - 1]);
      assert ss[i - 1 + 1] == Step(ss[i - 1], actions[i - 1]);
    }
  }

  /** What one call of `transmit_raw` that nothing interrupts adds up to. */
  ghost function Transmit(s: State, frame: Frame): State
    requires Shape(s)
  {
    if |frame| > PACKET_BUFFER_SIZE || !s.descs[s.txCur].dd then s.(refused := s.refused + [frame])
    else
      s.(buffers := s.buffers[s.txCur := Filled(s.buffers[s.txCur], frame)],
         descs := s.descs[s.txCur := Desc(|frame|, COMMAND, false)],
         txCur := Succ(s.txCur), tdt := Succ(s.txCur), accepted := s.accepted + [frame])
  }

  ghost predicate Leads(s: State, actions: seq<Action>, s': State)
    decreases |actions|
  {
    if actions == [] then s' == s
    else Shape(s) && Enabled(s, actions[0]) && Leads(Step(s, actions[0]), actions[1..], s')
  }

  /** The driver's steps for one call: it is turned away by the tests, or goes through to the end. */
  function CallSteps(frame: Frame, accepts: bool): seq<Action> {
    if accepts then [Call(frame), Check, CopyIn, WriteDesc, Publish] else [Call(frame), Check]
  }

  lemma {:induction false} LeadsOn(s: State, a: Action, rest: seq<Action>, s': State)
    requires Inv(s) && Enabled(s, a) && Leads(Step(s, a), rest, s')
    ensures Leads(s, [a] + rest, s') && Inv(Step(s, a))
  {
    StepKeepsInv(s, a);
    assert ([a] + rest)[1..] == rest;
  }

  /** The sum is what the steps lead to, and it keeps the invariant. */
  lemma {:induction false} TransmitIsSteps(s: State, frame: Frame)
    requires Inv(s) && s.driver.Idle?
    ensures var s' := Transmit(s, frame);
            Leads(s, CallSteps(frame, s'.refused == s.refused), s') && Inv(s') && s'.driver.Idle?
  {
    var s' := Transmit(s, frame);
    var s1 := Step(s, Call(frame));
    StepKeepsInv(s, Call(frame));
    var s2 := Step(s1, Check);
    StepKeepsInv(s1, Check);
    if s2.driver.Idle? {
      assert s2 == s' && s'.refused != s.refused;
      LeadsOn(s1, Check, [], s');
      LeadsOn(s, Call(frame), [Check], s');
      assert [Call(frame)] + [Check] == CallSteps(frame, false);
    } else {
      AcceptedSteps(s, frame, s1, s2, s');
    }
  }

  lemma {:induction false} AcceptedSteps(s: State, frame: Frame, s1: State, s2: State, s': State)
    requires Inv(s) && s.driver.Idle? && s' == Transmit(s, frame)
    requires s1 == Step(s, Call(frame)) && Inv(s1) && s2 == Step(s1, Check) && s2.driver == Checked(frame) && Inv(s2)
    ensures Leads(s, CallSteps(frame, true), s') && Inv(s') && s'.driver.Idle? && s'.refused == s.refused
  {
    var s3 := Step(s2, CopyIn);
    StepKeepsInv(s2, CopyIn);
    var s4 := Step(s3, WriteDesc);
    StepKeepsInv(s3, WriteDesc);
    StepKeepsInv(s4, Publish);
    assert Step(s4, Publish) == s';
    LeadsOn(s4, Publish, [], s');
    LeadsOn(s3, WriteDesc, [Publish], s');
    LeadsOn(s2, CopyIn, [WriteDesc] + [Publish], s');
    LeadsOn(s1, Check, [CopyIn] + ([WriteDesc] + [Publish]), s');
    LeadsOn(s, Call(frame), [Check] + ([CopyIn] + ([WriteDesc] + [Publish])), s');
    assert [Call(frame)] + ([Check] + ([CopyIn] + ([WriteDesc] + [Publish]))) == CallSteps(frame, true);
  }

  lemma {:induction false} TransmitAccepts(s: State, frame: Frame)
    requires Inv(s) && s.driver.Idle?
    ensures var s' := Transmit(s, frame);
            && s'.sent == s.sent && s'.device == s.device
            && s'.accepted == (if |frame| <= PACKET_BUFFER_SIZE && InFlight(s) < 64 then s.accepted + [frame] else s.accepted)
  {
    FreeWhenNotFull(s);
  }

  ghost function TransmitMany(s: State, frame: Frame, n: nat): State
    requires Shape(s) && |frame| <= PACKET_BUFFER_SIZE
    ensures Shape(TransmitMany(s, frame, n))
  {
    if n == 0 then s else Transmit(TransmitMany(s, frame, n - 1), frame)
  }

  lemma {:induction false} ManyAccepted(s: State, frame: Frame, n: nat)
    requires Inv(s) && s.driver.Idle? && s.device.Rest? && |frame| <= PACKET_BUFFER_SIZE && InFlight(s) + n <= 64
    ensures var s' := TransmitMany(s, frame, n);
            && Inv(s') && s'.driver.Idle? && s'.device.Rest?
            && s'.sent == s.sent && |s'.accepted| == |s.accepted| + n
    decreases n
  {
    if n > 0 {
      ManyAccepted(s, frame, n - 1);
      TransmitIsSteps(TransmitMany(s, frame, n - 1), frame);
      TransmitAccepts(TransmitMany(s, frame, n - 1), frame);
    }
  }

  /** The wedge is reachable: 64 calls in a row before the device sends anything. */
  lemma {:induction false} BurstWedges(s: State, frame: Frame)
    requires Init(s) && |frame| <= PACKET_BUFFER_SIZE
    ensures Inv(s) && Wedged(TransmitMany(s, frame, DESC_COUNT))
  {
    RunKeepsInv([s], [], 0);
    ManyAccepted(s, frame, DESC_COUNT);
  }
}
