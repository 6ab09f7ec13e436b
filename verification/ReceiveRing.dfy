/**
 The receive ring: driver and device share 64 descriptors through the head, the tail and the DD
 bits, and are interleaved at every access to shared memory.

 The device follows section 3.2.6 of Intel's PCI/PCI-X Family of Gigabit Ethernet Controllers
 Software Developer's Manual: it owns the descriptors from RDH up to, but not including, RDT; it
 fills a buffer, writes the descriptor back with DD set, and then advances RDH.
 */
module ReceiveRing {
  import opened Common
  import opened RingIndex

  /** Where `receive_raw` is: before it, after the DD test, after the copy, after `status = 0`. */
  datatype Driver = Idle | Checked | Copied(data: Frame) | Cleared(data: Frame)

  /** Where the device is: at rest, buffer filled, descriptor written back but RDH not advanced. */
  datatype Device = Rest | BufferFilled(frame: Frame) | WrittenBack

  datatype Desc = Desc(length: nat, dd: bool)

  /** `stored` and `returned` are history: the frames written back by the device, and those `receive_raw` returned. */
  datatype State = State(
    descs: seq<Desc>,
    buffers: seq<seq<byte>>,
    rdh: Index,
    rdt: Index,
    rxCur: Index,
    driver: Driver,
    device: Device,
    stored: seq<Frame>,
    returned: seq<Frame>)

  ghost predicate Shape(s: State) {
    && |s.descs| == |s.buffers| == DESC_COUNT
    && forall k: Index :: |s.buffers[k]| == PACKET_BUFFER_SIZE && s.descs[k].length <= PACKET_BUFFER_SIZE
  }

  /** Driver steps: test DD, copy the data, clear the status, move on and publish RDT. */
  datatype Action =
    | Check
    | Copy
    | ClearStatus
    | Publish
    | Fill(frame: Frame)
    | WriteBack
    | AdvanceHead

  ghost predicate Enabled(s: State, a: Action) {
    match a
    case Check => s.driver.Idle?
    case Copy => s.driver.Checked?
    case ClearStatus => s.driver.Copied?
    case Publish => s.driver.Cleared?
    case Fill(frame) => s.device.Rest? && s.rdh != s.rdt && |frame| <= PACKET_BUFFER_SIZE
    case WriteBack => s.device.BufferFilled?
    case AdvanceHead => s.device.WrittenBack?
  }

  ghost function Step(s: State, a: Action): State
    requires Shape(s) && Enabled(s, a)
  {
    match a
    case Check => if s.descs[s.rxCur].dd then s.(driver := Checked) else s
    case Copy => s.(driver := Copied(s.buffers[s.rxCur][..s.descs[s.rxCur].length]))
    case ClearStatus =>
      s.(descs := s.descs[s.rxCur := s.descs[s.rxCur].(dd := false)], driver := Cleared(s.driver.data))
    case Publish =>
      s.(rxCur := Succ(s.rxCur), rdt := s.rxCur, driver := Idle, returned := s.returned + [s.driver.data])
    case Fill(frame) =>
      s.(buffers := s.buffers[s.rdh := Filled(s.buffers[s.rdh], frame)], device := BufferFilled(frame))
    case WriteBack =>
      var frame := s.device.frame;
      s.(descs := s.descs[s.rdh := Desc(|frame|, true)], device := WrittenBack, stored := s.stored + [frame])
    case AdvanceHead => s.(rdh := Succ(s.rdh), device := Rest)
  }

  /** After `init_rx`: nothing received, RDH is 0 and RDT is 63. */
  ghost predicate Init(s: State) {
    && Shape(s)
    && (forall k: Index :: !s.descs[k].dd)
    && s.rdh == 0 && s.rdt == 63 && s.rxCur == 0
    && s.driver == Idle && s.device == Rest
    && s.stored == [] && s.returned == []
  }

  ghost predicate IsRun(ss: seq<State>, actions: seq<Action>) {
    && |ss| == |actions| + 1
    && (forall i | 0 <= i < |actions| ::
          Shape(ss[i]) && Enabled(ss[i], actions[i]) && ss[i + 1] == Step(ss[i], actions[i]))
  }

  // ---- The invariant ----

  /** What slot `k` holds: the frame it stands for while that frame is waiting, and nothing otherwise. */
  ghost predicate SlotOk(s: State, k: Index)
    requires Shape(s)
  {
    var n := Number(k, |s.returned|);
    if n < |s.stored| then
      && s.buffers[k][..s.descs[k].length] == s.stored[n]
      && (s.descs[k].dd <==> !(s.driver.Cleared? && k == s.rxCur))
    else
      !s.descs[k].dd
  }

  /** RDH lags the frames written back by one while the device is about to advance it. */
  ghost function Head(s: State): int {
    |s.stored| - if s.device.WrittenBack? then 1 else 0
  }

  ghost predicate PointersOk(s: State) {
    && |s.returned| <= |s.stored| <= |s.returned| + 63
    && Head(s) >= 0 && s.rdh == Slot(Head(s))
    && s.rxCur == Slot(|s.returned|)
    && s.rdt == Slot(|s.returned| + 63)
    && (s.device.BufferFilled? ==> |s.stored| <= |s.returned| + 62)
  }

  ghost predicate PhasesOk(s: State)
    requires Shape(s)
  {
    && (!s.driver.Idle? ==> |s.returned| < |s.stored|)
    && (s.driver.Copied? || s.driver.Cleared? ==>
          |s.returned| < |s.stored| && s.driver.data == s.stored[|s.returned|])
    && (s.device.BufferFilled? ==>
          |s.device.frame| <= PACKET_BUFFER_SIZE
          && s.buffers[s.rdh][..|s.device.frame|] == s.device.frame)
  }

  ghost predicate Fifo(s: State) {
    s.returned <= s.stored
  }

  ghost predicate Inv(s: State) {
    Shape(s) && PointersOk(s) && PhasesOk(s) && Fifo(s) && forall k: Index :: SlotOk(s, k)
  }

  // ---- Every step keeps it ----

  lemma DriverKeepsInv(s: State, a: Action)
    requires Inv(s) && Enabled(s, a) && (a.Check? || a.Copy? || a.ClearStatus?)
    ensures Inv(Step(s, a))
  {
    var s', c := Step(s, a), |s.returned|;
    assert SlotOk(s, s.rxCur);
    NumberOfSlot(c, c);
    forall k: Index
      ensures SlotOk(s', k)
    {
      assert SlotOk(s, k);
    }
  }

  lemma PublishKeepsInv(s: State)
    requires Inv(s) && Enabled(s, Publish)
    ensures Inv(Step(s, Publish))
  {
    var s', c := Step(s, Publish), |s.returned|;
    assert PointersOk(s') by {
      SuccSlot(c);
      assert Slot(c + 64) == Slot(c);
    }
    NumberOfSlot(c, c);
    forall k: Index
      ensures SlotOk(s', k)
    {
      assert SlotOk(s, k);
      NumberMoves(k, c);
    }
  }

  lemma FillKeepsInv(s: State, frame: Frame)
    requires Inv(s) && Enabled(s, Fill(frame))
    ensures Inv(Step(s, Fill(frame)))
  {
    var s', c, h := Step(s, Fill(frame)), |s.returned|, |s.stored|;
    NumberOfSlot(h, c);
    assert h != c + 63;
    forall k: Index
      ensures SlotOk(s', k)
    {
      assert SlotOk(s, k);
    }
  }

  lemma WriteBackKeepsInv(s: State)
    requires Inv(s) && Enabled(s, WriteBack)
    ensures Inv(Step(s, WriteBack))
  {
    var s', c, h := Step(s, WriteBack), |s.returned|, |s.stored|;
    NumberOfSlot(h, c);
    NumberOfSlot(c, c);
    forall k: Index
      ensures SlotOk(s', k)
    {
      assert SlotOk(s, k);
      if Number(k, c) != h {
        assert k != s.rdh;
      }
    }
  }

  lemma AdvanceKeepsInv(s: State)
    requires Inv(s) && Enabled(s, AdvanceHead)
    ensures Inv(Step(s, AdvanceHead))
  {
    SuccSlot(Head(s));
    forall k: Index
      ensures SlotOk(Step(s, AdvanceHead), k)
    {
      assert SlotOk(s, k);
    }
  }

  lemma StepKeepsInv(s: State, a: Action)
    requires Inv(s) && Enabled(s, a)
    ensures Inv(Step(s, a))
  {
    match a
    case Publish => PublishKeepsInv(s);
    case Fill(frame) => FillKeepsInv(s, frame);
    case WriteBack => WriteBackKeepsInv(s);
    case AdvanceHead => AdvanceKeepsInv(s);
    case _ => DriverKeepsInv(s, a);
  }

  lemma {:induction false} RunKeepsInv(ss: seq<State>, actions: seq<Action>, i: nat)
    requires IsRun(ss, actions) && Init(ss[0]) && i < |ss|
    ensures Inv(ss[i])
    decreases i
  {
    if i > 0 {
      RunKeepsInv(ss, actions, i - 1);
      StepKeepsInv(ss[i - 1], actions[i - 1]);
      assert ss[i - 1 + 1] == Step(ss[i - 1], actions[i - 1]);
    }
  }

  // ---- The ring is a queue ----

  /** The ring interval from slot `a` up to, but not including, slot `b`. */
  predicate Between(a: Index, k: Index, b: Index) {
    if a <= b then a <= k < b else k >= a || k < b
  }

  /** The frames in the slots from `k` on, `count` of them, read from the shared memory. */
  ghost function Waiting(s: State, k: Index, count: nat): seq<Frame>
    requires Shape(s)
    decreases count
  {
    if count == 0 then []
    else [s.buffers[k][..s.descs[k].length]] + Waiting(s, Succ(k), count - 1)
  }

  /** How many slots from RxCur to RDH, going round. */
  function Distance(a: Index, b: Index): nat {
    if a <= b then b - a else b + 64 - a
  }

  lemma {:induction false} WaitingIsStored(s: State, n: nat)
    requires Inv(s) && |s.returned| <= n <= |s.stored|
    ensures Waiting(s, Slot(n), |s.stored| - n) == s.stored[n..]
    decreases |s.stored| - n
  {
    if n < |s.stored| {
      assert SlotOk(s, Slot(n));
      NumberOfSlot(n, |s.returned|);
      SuccSlot(n);
      WaitingIsStored(s, n + 1);
    }
  }

  lemma DistanceIsCount(c: nat, h: nat)
    requires c <= h < c + 64
    ensures Distance(Slot(c), Slot(h)) == h - c
    ensures forall k: Index :: Between(Slot(c), k, Slot(h)) <==> Number(k, c) < h
  {
  }

  /**
   In every state of every interleaving RDT is one behind rx_cur; and whenever driver and device are
   between two operations, DD is set exactly on the ring interval from rx_cur up to RDH, and the
   frames returned followed by the frames lying in that interval of the shared memory are the frames
   the device stored, byte for byte and in order.
   */
  lemma RefinesFifo(ss: seq<State>, actions: seq<Action>, i: nat)
    requires IsRun(ss, actions) && Init(ss[0]) && i < |ss|
    ensures var s := ss[i];
            && Shape(s)
            && s.rxCur == Succ(s.rdt)
            && s.returned <= s.stored
            && (s.driver.Idle? && !s.device.WrittenBack? ==>
                  && (forall k: Index :: s.descs[k].dd <==> Between(s.rxCur, k, s.rdh))
                  && s.returned + Waiting(s, s.rxCur, Distance(s.rxCur, s.rdh)) == s.stored)
  {
    var s := ss[i];
    RunKeepsInv(ss, actions, i);
    SuccSlot(|s.returned| + 63);
    assert Slot(|s.returned| + 64) == Slot(|s.returned|);
    if s.driver.Idle? && !s.device.WrittenBack? {
      DistanceIsCount(|s.returned|, |s.stored|);
      WaitingIsStored(s, |s.returned|);
      forall k: Index
        ensures s.descs[k].dd <==> Between(s.rxCur, k, s.rdh)
      {
        assert SlotOk(s, k);
      }
    }
  }

  /** `receive_raw` answers `None` exactly when no frame is waiting, and otherwise will return the oldest. */
  lemma ReceivesOldest(ss: seq<State>, actions: seq<Action>, i: nat)
    requires IsRun(ss, actions) && Init(ss[0]) && i < |actions|
    ensures actions[i].Check? ==> (ss[i + 1].driver.Idle? <==> |ss[i].returned| == |ss[i].stored|)
    ensures actions[i].Publish? ==>
              |ss[i].returned| < |ss[i].stored| && ss[i + 1].returned == ss[i].returned + [ss[i].stored[|ss[i].returned|]]
  {
    var s := ss[i];
    RunKeepsInv(ss, actions, i);
    NumberOfSlot(|s.returned|, |s.returned|);
    assert SlotOk(s, s.rxCur);
    assert ss[i + 1] == Step(s, actions[i]);
  }

  /** One uninterrupted call of `receive_raw`. */
  ghost function Receive(s: State): (s': State)
    requires Inv(s) && s.driver.Idle?
    ensures Inv(s') && s'.driver.Idle?
  {
    StepKeepsInv(s, Check);
    var s1 := Step(s, Check);
    if s1.driver.Idle? then s1
    else
      StepKeepsInv(s1, Copy);
      var s2 := Step(s1, Copy);
      StepKeepsInv(s2, ClearStatus);
      var s3 := Step(s2, ClearStatus);
      StepKeepsInv(s3, Publish);
      Step(s3, Publish)
  }

  lemma ReceiveTakesOldest(s: State)
    requires Inv(s) && s.driver.Idle?
    ensures s.descs[s.rxCur].dd <==> |s.returned| < |s.stored|
    ensures Receive(s).returned ==
            s.returned + if |s.returned| < |s.stored| then [s.stored[|s.returned|]] else []
    ensures |s.returned| < |s.stored| ==>
              s.buffers[s.rxCur][..s.descs[s.rxCur].length] == s.stored[|s.returned|]
  {
    NumberOfSlot(|s.returned|, |s.returned|);
    assert SlotOk(s, s.rxCur);
  }
}
