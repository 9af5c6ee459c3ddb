/** The data side of an overlay pipe (`OverlayDataChannel`): frames are queued to the
    overlay, going through a ring of rotator output buffers when the rotator is in
    use. The two driver calls (`MSM_ROTATOR_IOCTL_ROTATE`, `MSMFB_OVERLAY_PLAY`) and
    the rotator memory allocation appear only as their outcome. */
module DataChannel {
  import opened Common

  /** The rotator output ring: `mRotOffset[0 .. mNumBuffers)` and `mCurrentItem`. */
  datatype Ring = Ring(offsets: seq<u32>, current: nat)
  {
    /** `mapRotatorMemory` has run with at least one buffer. */
    ghost predicate Valid()
    {
      |offsets| > 0 && current < |offsets|
    }
  }

  /** The slot layout `mapRotatorMemory` sets up: buffer `i` of `numBuffers` starts at
      `i * size` in the rotator memory, and the ring starts at buffer 0. */
  function MapRing(numBuffers: nat, size: u32): (r: Ring)
    requires numBuffers > 0
    ensures r.Valid() && r.current == 0 && |r.offsets| == numBuffers
    ensures forall i :: 0 <= i < numBuffers ==> r.offsets[i] == Wrap(i * size)
  {
    Ring(seq(numBuffers, i => Wrap(i * size)), 0)
  }

  /** The ring step of `queue`: the rotator writes to the current buffer and the
      ring moves on to the next one, wrapping after the last. */
  function Advance(r: Ring): (res: (u32, Ring))
    requires r.Valid()
    ensures res.1.Valid() && res.1.offsets == r.offsets
    ensures res.0 == r.offsets[r.current]
    ensures res.1.current == if r.current + 1 == |r.offsets| then 0 else r.current + 1
  {
    (r.offsets[r.current], r.(current := (r.current + 1) % |r.offsets|))
  }

  /** The rotator buffers the next `k` queued frames are written to. */
  function Schedule(r: Ring, k: nat): (s: seq<u32>)
    requires r.Valid()
    ensures |s| == k
    decreases k
  {
    if k == 0 then [] else var (d, r1) := Advance(r); [d] + Schedule(r1, k - 1)
  }

  /** The ring after `k` queued frames. */
  function AdvanceMany(r: Ring, k: nat): (r': Ring)
    requires r.Valid()
    ensures r'.Valid() && r'.offsets == r.offsets
    decreases k
  {
    if k == 0 then r else AdvanceMany(Advance(r).1, k - 1)
  }

  /** Within one round the ring hands out consecutive buffers: `k` frames from the
      current position use the next `k` buffers in order. */
  lemma {:induction false} ScheduleWithinRound(r: Ring, k: nat)
    requires r.Valid() && r.current + k <= |r.offsets|
    ensures Schedule(r, k) == r.offsets[r.current..r.current + k]
    decreases k
  {
    if k > 0 {
      var r1 := Advance(r).1;
      if r.current + 1 < |r.offsets| {
        ScheduleWithinRound(r1, k - 1);
      } else {
        assert k == 1;
      }
    }
  }

  /** The ring is back at buffer 0 exactly when a round is complete. */
  lemma {:induction false} AdvanceWithinRound(r: Ring, k: nat)
    requires r.Valid() && r.current + k <= |r.offsets|
    ensures AdvanceMany(r, k) == Ring(r.offsets, if r.current + k == |r.offsets| then 0 else r.current + k)
    decreases k
  {
    if k > 0 {
      var r1 := Advance(r).1;
      if r.current + 1 < |r.offsets| {
        AdvanceWithinRound(r1, k - 1);
      } else {
        assert k == 1;
      }
    }
  }

  /** Frames queued in two batches move the ring as far as one batch of both. */
  lemma {:induction false} AdvanceManyAdd(r: Ring, a: nat, b: nat)
    requires r.Valid()
    ensures AdvanceMany(r, a + b) == AdvanceMany(AdvanceMany(r, a), b)
    decreases a
  {
    if a > 0 {
      AdvanceManyAdd(Advance(r).1, a - 1, b);
    }
  }

  /** The ring is round-robin with period `mNumBuffers`: after as many frames as there
      are buffers it is back where it started. */
  lemma RingPeriod(r: Ring)
    requires r.Valid()
    ensures AdvanceMany(r, |r.offsets|) == r
  {
    var rest := |r.offsets| - r.current;
    AdvanceWithinRound(r, rest);
    AdvanceWithinRound(Ring(r.offsets, 0), r.current);
    AdvanceManyAdd(r, rest, r.current);
  }

  /** A freshly mapped ring hands out every buffer exactly once in its first round,
      in order; the buffers do not overlap when the whole memory fits in 32 bits. */
  lemma FirstRoundUsesEveryBuffer(numBuffers: nat, size: u32)
    requires numBuffers > 0
    ensures Schedule(MapRing(numBuffers, size), numBuffers) == MapRing(numBuffers, size).offsets
    ensures numBuffers * size < U32 ==>
      forall i, j :: 0 <= i < j < numBuffers ==>
        MapRing(numBuffers, size).offsets[i] + size <= MapRing(numBuffers, size).offsets[j]
  {
    var r := MapRing(numBuffers, size);
    ScheduleWithinRound(r, numBuffers);
    assert r.offsets[0..numBuffers] == r.offsets;
    if numBuffers * size < U32 {
      forall i, j | 0 <= i < j < numBuffers
        ensures r.offsets[i] + size <= r.offsets[j]
      {
        BuffersApart(i, j, numBuffers, size);
      }
    }
  }

  /** Buffer `i` ends before buffer `j` starts, when no offset wraps. */
  lemma BuffersApart(i: nat, j: nat, n: nat, size: u32)
    requires i < j < n && n * size < U32
    ensures Wrap(i * size) + size <= Wrap(j * size)
  {
    MulMono(j, n, size);
    MulMono(i, j, size);
    MulMono(i + 1, j, size);
    assert (i + 1) * size == i * size + size;
  }

  lemma MulMono(a: nat, b: nat, c: nat)
    requires a <= b
    ensures a * c <= b * c
  {
  }

  /** The per-channel state `queueBuffer` reads and writes. `memoryId` is the buffer
      file descriptor set by `setFd`; `update` and `newSize` record a pending
      `updateDataChannel`. */
  datatype Data = Data(up: bool, noRot: bool, memoryId: int, ring: Ring, size: u32,
                       update: bool, newSize: u32)
  {
    ghost predicate Valid()
    {
      !noRot ==> ring.Valid()
    }
  }

  /** The outcome of the driver calls and of a rotator memory reallocation. */
  datatype DataDevice = DataDevice(allocOk: bool, rotateOk: bool, playOk: bool)

  /** What the overlay is told to show: the client buffer at `offset`, or the
      rotator output buffer at `offset` in rotator memory. */
  datatype Played = Nothing | ClientBuffer(offset: u32) | RotatorBuffer(offset: u32)

  /** `OverlayDataChannel::queue`: with the rotator, the frame is rotated into the
      current ring buffer and, if that worked, the rotated buffer is shown; otherwise
      (and without the rotator) the client buffer is shown. */
  function Queue(d: Data, offset: u32, dev: DataDevice): (r: (bool, Data, Played))
    requires d.Valid()
    ensures r.0 <==> dev.playOk
    ensures r.1.Valid() && r.1 == d.(ring := r.1.ring)
    ensures d.noRot ==> r.1.ring == d.ring && r.2 == ClientBuffer(offset)
    ensures !d.noRot ==>
      && r.1.ring == Advance(d.ring).1
      && r.2 == (if dev.rotateOk then RotatorBuffer(d.ring.offsets[d.ring.current]) else ClientBuffer(offset))
  {
    if d.noRot then (dev.playOk, d, ClientBuffer(offset))
    else
      var (dst, ring) := Advance(d.ring);
      (dev.playOk, d.(ring := ring), if dev.rotateOk then RotatorBuffer(dst) else ClientBuffer(offset))
  }

  /** `OverlayDataChannel::queueBuffer`: refuses a channel that is down or has no
      buffer; with the rotator, applies a pending size update first by remapping the
      ring at the new size (which restarts it at buffer 0), then queues. */
  function QueueBuffer(d: Data, offset: u32, dev: DataDevice): (r: (bool, Data, Played))
    requires d.Valid()
    ensures r.1.Valid()
    ensures !d.up || d.memoryId < 0 ==> r == (false, d, Nothing)
    ensures r.0 ==> d.up && d.memoryId >= 0 && dev.playOk
    // a pending update is consumed by a successful remap, and the frame goes to the
    // first buffer of the new ring
    ensures d.up && d.memoryId >= 0 && !d.noRot && d.update && dev.allocOk ==>
      && !r.1.update && r.1.size == d.newSize
      && r.1.ring.offsets == MapRing(|d.ring.offsets|, d.newSize).offsets
      && (dev.rotateOk ==> r.2 == RotatorBuffer(0))
    // a failed remap shows nothing
    ensures d.up && d.memoryId >= 0 && !d.noRot && d.update && !dev.allocOk ==>
      !r.0 && !r.1.up && r.2 == Nothing
    ensures d.up && d.memoryId >= 0 && (d.noRot || !d.update) ==> r == Queue(d, offset, dev)
  {
    if !d.up || d.memoryId < 0 then (false, d, Nothing)
    else if !d.noRot && d.update then
      var d1 := d.(size := d.newSize, newSize := Wrap(-1));
      // a failed allocation closes the devices: the channel is down
      if !dev.allocOk then (false, d1.(up := false), Nothing)
      else Queue(d1.(ring := MapRing(|d.ring.offsets|, d1.size), update := false), offset, dev)
    else Queue(d, offset, dev)
  }
}
