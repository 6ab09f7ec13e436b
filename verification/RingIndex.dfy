/** Positions in a descriptor ring of 64 entries, and the frame numbers they stand for. */
module RingIndex {
  import opened Common

  const DESC_COUNT: nat := 64
  const PACKET_BUFFER_SIZE: nat := 2048

  type Index = k: nat | k < 64
  type Frame = seq<byte>

  function Slot(n: nat): Index {
    n % 64
  }

  /** `(k + 1) % DESC_COUNT`. */
  function Succ(k: Index): Index {
    (k + 1) % 64
  }

  /** The frame number from `base` on, within one round, that slot `k` stands for. */
  function Number(k: Index, base: nat): (n: nat)
    ensures base <= n < base + 64 && Slot(n) == k
  {
    if k >= base % 64 then base + k - base % 64 else base + 64 + k - base % 64
  }

  lemma NumberOfSlot(n: nat, base: nat)
    requires base <= n < base + 64
    ensures Number(Slot(n), base) == n
  {
  }

  /** When the base moves on by one, only the slot it leaves gets a new number. */
  lemma NumberMoves(k: Index, base: nat)
    ensures Number(k, base + 1) == if k == Slot(base) then base + 64 else Number(k, base)
  {
  }

  lemma SuccSlot(n: nat)
    ensures Succ(Slot(n)) == Slot(n + 1)
  {
  }

  /** A packet buffer after a frame was copied to its start. */
  function Filled(buffer: seq<byte>, frame: Frame): (buffer': seq<byte>)
    requires |frame| <= |buffer|
    ensures |buffer'| == |buffer| && buffer'[..|frame|] == frame
  {
    frame + buffer[|frame|..]
  }
}
