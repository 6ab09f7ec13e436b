/**
 The driver object: descriptor tables and packet buffers in arrays, updated in place. One call of
 `transmit_raw` or `receive_raw` that nothing interrupts is proved to do what the driver steps of the
 ring models add up to.
 */
module E1000 {
  import opened Common
  import opened RingIndex
  import Tx = TransmitRing
  import Rx = ReceiveRing

  const DD: byte := 1
  const BUFFERS_SIZE: nat := DESC_COUNT * PACKET_BUFFER_SIZE

  datatype TxDesc = TxDesc(length: u16, cmd: byte, status: byte)
  datatype RxDesc = RxDesc(length: u16, status: byte)

  /** `status & DD != 0`. */
  predicate Done(status: byte) {
    status % 2 == 1
  }

  /** Buffer `k` of a contiguous block of buffers. */
  function Row(block: seq<byte>, k: Index): (row: seq<byte>)
    requires |block| == BUFFERS_SIZE
    ensures |row| == PACKET_BUFFER_SIZE
  {
    block[k * 2048..k * 2048 + 2048]
  }

  lemma CopiedRow(before: seq<byte>, after: seq<byte>, c: Index, data: Frame, k: Index)
    requires |before| == |after| == BUFFERS_SIZE && |data| <= PACKET_BUFFER_SIZE
    requires forall i | 0 <= i < BUFFERS_SIZE ::
               after[i] == if c * 2048 <= i < c * 2048 + |data| then data[i - c * 2048] else before[i]
    ensures Row(after, k) == if k == c then Filled(Row(before, k), data) else Row(before, k)
  {
  }

  /** Descriptor table and buffers are those of the transmit model, slot by slot. */
  ghost predicate SlotsMatch(descs: seq<TxDesc>, block: seq<byte>, s: Tx.State) {
    && |descs| == |s.descs| == |s.buffers| == DESC_COUNT && |block| == BUFFERS_SIZE
    && forall k: Index ::
         && s.descs[k] == Tx.Desc(descs[k].length, descs[k].cmd, Done(descs[k].status))
         && s.buffers[k] == Row(block, k)
  }

  lemma {:induction false} FilledMatches(descs: seq<TxDesc>, block: seq<byte>, block': seq<byte>, s: Tx.State, data: Frame)
    requires SlotsMatch(descs, block, s) && Tx.Shape(s) && |block'| == BUFFERS_SIZE
    requires |data| <= PACKET_BUFFER_SIZE && s.descs[s.txCur].dd
    requires forall k: Index :: Row(block', k) == if k == s.txCur then Filled(Row(block, k), data) else Row(block, k)
    ensures SlotsMatch(descs[s.txCur := TxDesc(|data|, 1 + 2 + 8, 0)], block', Tx.Transmit(s, data))
  {
    var s', descs' := Tx.Transmit(s, data), descs[s.txCur := TxDesc(|data|, 1 + 2 + 8, 0)];
    forall k: Index
      ensures s'.descs[k] == Tx.Desc(descs'[k].length, descs'[k].cmd, Done(descs'[k].status))
      ensures s'.buffers[k] == Row(block', k)
    {
    }
  }

  class Driver {
    const txDescs: array<TxDesc>
    const txBuffers: array<byte>
    var txCur: Index
    const rxDescs: array<RxDesc>
    const rxBuffers: array<byte>
    var rxCur: Index
    // Device registers the driver writes.
    var tdh: Index
    var tdt: Index
    var rdh: Index
    var rdt: Index

    ghost predicate Sizes() {
      && txDescs.Length == rxDescs.Length == DESC_COUNT
      && txBuffers.Length == rxBuffers.Length == BUFFERS_SIZE
      && txBuffers != rxBuffers
    }

    /** The shared memory and the driver's cursor are as in the transmit model. */
    ghost predicate TxMatches(s: Tx.State)
      reads this, txDescs, txBuffers
    {
      Sizes() && s.txCur == txCur && s.tdt == tdt && SlotsMatch(txDescs[..], txBuffers[..], s)
    }

    ghost predicate RxMatches(s: Rx.State)
      reads this, rxDescs, rxBuffers
    {
      && Sizes() && |s.descs| == |s.buffers| == DESC_COUNT
      && s.rxCur == rxCur && s.rdt == rdt
      && forall k: Index ::
           s.descs[k] == Rx.Desc(rxDescs[k].length, Done(rxDescs[k].status)) && s.buffers[k] == Row(rxBuffers[..], k)
    }

    constructor ()
      ensures Sizes() && txCur == 0 && rxCur == 0
      ensures fresh(txDescs) && fresh(txBuffers) && fresh(rxDescs) && fresh(rxBuffers)
      ensures forall k | 0 <= k < DESC_COUNT :: txDescs[k] == TxDesc(0, 0, 0) && rxDescs[k] == RxDesc(0, 0)
    {
      txDescs := new TxDesc[64](_ => TxDesc(0, 0, 0));
      txBuffers := new byte[BUFFERS_SIZE](_ => 0);
      rxDescs := new RxDesc[64](_ => RxDesc(0, 0));
      rxBuffers := new byte[BUFFERS_SIZE](_ => 0);
      txCur, rxCur := 0, 0;
      tdh, tdt, rdh, rdt := 0, 0, 0, 0;
    }

    /** `init_tx`: every descriptor starts out done, so all of them are free. */
    method InitTx() returns (ghost s: Tx.State)
      requires Sizes() && txCur == 0 && forall k: Index :: txDescs[k].length <= PACKET_BUFFER_SIZE
      modifies this`tdh, this`tdt, txDescs
      ensures tdh == tdt == 0
      ensures Tx.Init(s) && TxMatches(s)
      ensures forall k | 0 <= k < DESC_COUNT ::
                txDescs[k] == old(txDescs[k]).(status := DD)
    {
      for i := 0 to DESC_COUNT
        invariant forall k | 0 <= k < DESC_COUNT ::
                    txDescs[k] == if k < i then old(txDescs[k]).(status := DD) else old(txDescs[k])
      {
        txDescs[i] := txDescs[i].(status := DD);
      }
      tdh, tdt := 0, 0;
      ghost var descs, block := txDescs[..], txBuffers[..];
      s := Tx.State(seq(64, k requires 0 <= k < 64 => Tx.Desc(descs[k].length, descs[k].cmd, true)),
                    seq(64, k requires 0 <= k < 64 => Row(block, k)), 0, 0, 0, Tx.Idle, Tx.Rest, [], [], [], [], []);
    }

    /** `init_rx`: every descriptor is given to the device; RDT is one less than RDH, going round. */
    method InitRx() returns (ghost s: Rx.State)
      requires Sizes() && rxCur == 0 && forall k: Index :: rxDescs[k].length <= PACKET_BUFFER_SIZE
      modifies this`rdh, this`rdt, rxDescs
      ensures rdh == 0 && rdt == 63
      ensures Rx.Init(s) && RxMatches(s)
      ensures forall k | 0 <= k < DESC_COUNT ::
                rxDescs[k] == old(rxDescs[k]).(status := 0)
    {
      for i := 0 to DESC_COUNT
        invariant forall k | 0 <= k < DESC_COUNT ::
                    rxDescs[k] == if k < i then old(rxDescs[k]).(status := 0) else old(rxDescs[k])
      {
        rxDescs[i] := rxDescs[i].(status := 0);
      }
      rdh, rdt := 0, 63;
      ghost var descs, block := rxDescs[..], rxBuffers[..];
      s := Rx.State(seq(64, k requires 0 <= k < 64 => Rx.Desc(descs[k].length, false)),
                    seq(64, k requires 0 <= k < 64 => Row(block, k)), 0, 63, 0, Rx.Idle, Rx.Rest, [], []);
    }

    /** `tx_buffers[idx][..data.len()].copy_from_slice(data)`. */
    method CopyIn(idx: Index, data: Frame)
      requires Sizes() && |data| <= PACKET_BUFFER_SIZE
      modifies txBuffers
      ensures forall k: Index ::
                Row(txBuffers[..], k) ==
                if k == idx then Filled(Row(old(txBuffers[..]), k), data) else Row(old(txBuffers[..]), k)
    {
      ghost var before := txBuffers[..];
      forall i | 0 <= i < |data| {
        txBuffers[idx * 2048 + i] := data[i];
      }
      forall k: Index
        ensures Row(txBuffers[..], k) == if k == idx then Filled(Row(before, k), data) else Row(before, k)
      {
        CopiedRow(before, txBuffers[..], idx, data, k);
      }
    }

    /** The frame and its descriptor, written to slot `idx`: the command asks for EOP, IFCS and RS. */
    method FillSlot(idx: Index, data: Frame)
      requires Sizes() && |data| <= PACKET_BUFFER_SIZE
      modifies txDescs, txBuffers
      ensures txDescs[..] == old(txDescs[..])[idx := TxDesc(|data|, Tx.COMMAND, 0)]
      ensures forall k: Index ::
                Row(txBuffers[..], k) ==
                if k == idx then Filled(Row(old(txBuffers[..]), k), data) else Row(old(txBuffers[..]), k)
    {
      CopyIn(idx, data);
      txDescs[idx] := TxDesc(|data|, Tx.COMMAND, 0);
    }

    /** The rest of `transmit_raw` once both tests are passed. */
    method Accept(data: Frame, ghost s: Tx.State)
      requires TxMatches(s) && Tx.Shape(s) && |data| <= PACKET_BUFFER_SIZE && s.descs[s.txCur].dd
      modifies this`txCur, this`tdt, txDescs, txBuffers
      ensures TxMatches(Tx.Transmit(s, data))
      ensures txCur == tdt == (old(txCur) + 1) % 64
      ensures txDescs[..] == old(txDescs[..])[old(txCur) := TxDesc(|data|, 1 + 2 + 8, 0)]
    {
      var idx := txCur;
      FillSlot(idx, data);
      FilledMatches(old(txDescs[..]), old(txBuffers[..]), txBuffers[..], s, data);
      txCur := Succ(txCur);
      tdt := txCur;
    }

    method TransmitRaw(data: Frame, ghost s: Tx.State) returns (ok: bool)
      requires Tx.Inv(s) && s.driver.Idle? && TxMatches(s)
      modifies this`txCur, this`tdt, txDescs, txBuffers
      ensures TxMatches(Tx.Transmit(s, data))
      ensures ok <==> Tx.Transmit(s, data).accepted == s.accepted + [data]
      ensures ok <==> |data| <= 2048 && Tx.InFlight(s) < 64
      ensures !ok ==> txCur == old(txCur) && tdt == old(tdt) && txDescs[..] == old(txDescs[..])
      ensures ok ==>
                && txCur == tdt == (old(txCur) + 1) % 64
                && txDescs[..] == old(txDescs[..])[old(txCur) := TxDesc(|data|, 1 + 2 + 8, 0)]
    {
      Tx.FreeWhenNotFull(s);
      Tx.TransmitAccepts(s, data);
      if |data| > PACKET_BUFFER_SIZE {
        return false;
      }
      if !Done(txDescs[txCur].status) {
        return false;
      }
      Accept(data, s);
      return true;
    }

    method ReceiveRaw(ghost s: Rx.State) returns (r: Option<Frame>)
      requires Rx.Inv(s) && s.driver.Idle? && RxMatches(s)
      modifies this`rxCur, this`rdt, rxDescs
      ensures Rx.Inv(Rx.Receive(s)) && RxMatches(Rx.Receive(s))
      ensures r.None? ==> rxCur == old(rxCur) && rdt == old(rdt) && rxDescs[..] == old(rxDescs[..])
      ensures r.Some? ==>
                && rxCur == (old(rxCur) + 1) % 64 && rdt == old(rxCur)
                && rxDescs[..] == old(rxDescs[..])[old(rxCur) := old(rxDescs[rxCur]).(status := 0)]
      ensures r == if |s.returned| < |s.stored| then Some(s.stored[|s.returned|]) else None
      ensures Rx.Receive(s).returned == if r.Some? then s.returned + [r.value] else s.returned
    {
      Rx.ReceiveTakesOldest(s);
      var idx: nat := rxCur;
      if !Done(rxDescs[idx].status) {
        return None;
      }
      assert s.descs[idx].length == rxDescs[idx].length <= PACKET_BUFFER_SIZE;
      var len := rxDescs[idx].length;
      var data := rxBuffers[idx * 2048..idx * 2048 + len];
      assert data == Row(rxBuffers[..], idx)[..len];
      rxDescs[idx] := rxDescs[idx].(status := 0);
      rxCur := Succ(rxCur);
      rdt := idx;
      return Some(data);
    }
  }
}
