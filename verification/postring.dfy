/** The framebuffer post ring of the gralloc framebuffer device: `fb_post` (the
    producer) queues rendered framebuffer slots for display and the display thread
    `disp_loop` (the consumer) pops them, so that each slot goes AVL -> SUB -> REF -> AVL.
    The threads are modelled as whole, separate transitions on one state; the mutexes,
    condition variables and the `FBIOPUT_VSCREENINFO` call are left out. */
module PostRing {
  import opened Common

  /** `-EINVAL` is returned as the negation of this. */
  const EINVAL := 22

  /** A slot is available for rendering (AVL), submitted for display (SUB), or being
      scanned out (REF). */
  datatype SlotState = AVL | SUB | REF

  /** `avail[i]`: whether the producer may take the slot, and its display state. */
  datatype Slot = Slot(isAvail: bool, state: SlotState)

  /** An entry of the display queue `disp`: the slot index and the buffer handle. */
  datatype QBuf = QBuf(idx: nat, buf: nat)

  /** The post ring: the slots of the `numBuffers` page-flip buffers, the last slot
      posted (`currentIdx`), the display queue, the slot on screen (`disp_loop`'s
      `cur_buf`, -1 before the first frame) and the buffer locked for posting
      (`currentBuffer`, None for NULL). */
  datatype Ring = Ring(slots: seq<Slot>, currentIdx: int, queue: seq<QBuf>, curBuf: int,
                       currentBuffer: Option<nat>)
  {
    /** The indices are in range for the slots. */
    ghost predicate Valid()
    {
      && |slots| > 0
      && -1 <= currentIdx < |slots|
      && -1 <= curBuf < |slots|
      && forall k :: 0 <= k < |queue| ==> queue[k].idx < |slots|
    }

    /** The slots waiting in the display queue. */
    ghost function Queued(): set<int>
    {
      set k | 0 <= k < |queue| :: queue[k].idx as int
    }

    /** The intended slot discipline: every queued slot is taken and submitted, and
        queued once; the slot on screen is taken and referenced; every other slot is
        free. The producer can then never be handed a slot that is queued or shown. */
    ghost predicate Inv()
    {
      && Valid()
      && (forall k, l :: 0 <= k < l < |queue| ==> queue[k].idx != queue[l].idx)
      && (forall k :: 0 <= k < |queue| ==> slots[queue[k].idx] == Slot(false, SUB))
      && (curBuf != -1 ==> slots[curBuf] == Slot(false, REF))
      && (forall i :: 0 <= i < |slots| && i != curBuf && i !in Queued() ==> slots[i] == Slot(true, AVL))
    }
  }

  /** The number of framebuffers `mapFrameBufferLocked` asks for: as many as the kernel
      memory holds (`kernelCount`), replaced by the `debug.gr.numframebuffers` property
      when it lies within [`lo`, `hi`], and never more than `hi`. `lo` and `hi` are
      NUM_FRAMEBUFFERS_MIN and NUM_FRAMEBUFFERS_MAX. */
  function BufferCount(kernelCount: int, property: Option<int>, lo: int, hi: int): (n: int)
    ensures n <= hi
    ensures property.Some? && lo <= property.value <= hi ==> n == property.value
    ensures !(property.Some? && lo <= property.value <= hi) ==>
      n <= kernelCount && (kernelCount <= hi ==> n == kernelCount)
  {
    var n := if property.Some? && lo <= property.value <= hi then property.value else kernelCount;
    if n > hi then hi else n
  }

  /** The initial swap interval from the `debug.gr.swapinterval` property: used when it
      lies within [`lo`, `hi`] (PRIV_MIN/MAX_SWAP_INTERVAL), and 1 otherwise. */
  function InitialSwapInterval(property: int, lo: int, hi: int): (s: int)
    ensures lo <= property <= hi ==> s == property
    ensures !(lo <= property <= hi) ==> s == 1
  {
    if property < lo || property > hi then 1 else property
  }

  /** The ring `mapFrameBufferLocked` sets up for `n` buffers: nothing posted, nothing
      queued, nothing on screen, and every slot free. */
  function Init(n: nat): (r: Ring)
    requires n > 0
    ensures r.Inv() && |r.slots| == n
    ensures r.currentIdx == -1 && r.curBuf == -1 && r.currentBuffer == None
    ensures forall i :: 0 <= i < n ==> r.slots[i].isAvail && r.slots[i].state == AVL
  {
    Ring(seq(n, i => Slot(true, AVL)), -1, [], -1, None)
  }

  /** The slot after the last one posted, wrapping around the ring. */
  function NextIdx(r: Ring): (i: nat)
    requires r.Valid()
    ensures i < |r.slots|
    ensures i == if r.currentIdx + 1 == |r.slots| then 0 else r.currentIdx + 1
  {
    (r.currentIdx + 1) % |r.slots|
  }

  /** The frame-drop rule: with swap interval 0 the producer does not wait, and when the
      next slot is busy (its lock is held, or it is not available) the posted buffer
      replaces the current one instead of being queued. */
  predicate Reuses(r: Ring, swapInterval: int, lockHeld: bool)
    requires r.Valid()
  {
    swapInterval == 0 && (lockHeld || !r.slots[NextIdx(r)].isAvail)
  }

  /** `fb_post`: an invalid handle is refused with -EINVAL; a buffer that is not a
      framebuffer is copied to the screen, which leaves the ring alone; otherwise the
      buffer is queued in the next slot, unless the frame-drop rule applies, in which
      case only the current buffer changes. `lockHeld` is the outcome of the trylock. */
  function Post(r: Ring, valid: bool, isFramebuffer: bool, buffer: nat, swapInterval: int, lockHeld: bool)
    : (res: (int, Ring))
    requires r.Valid()
    ensures res.1.Valid() && |res.1.slots| == |r.slots|
    ensures res.0 == if valid then 0 else -EINVAL
    ensures !valid || !isFramebuffer ==> res.1 == r
    ensures valid && isFramebuffer && Reuses(r, swapInterval, lockHeld) ==>
      res.1 == r.(currentBuffer := Some(buffer))
    ensures valid && isFramebuffer && !Reuses(r, swapInterval, lockHeld) ==>
      var n := NextIdx(r);
      && res.1.slots == r.slots[n := Slot(false, SUB)]
      && res.1.queue == r.queue + [QBuf(n, buffer)]
      && res.1.currentIdx == n && res.1.curBuf == r.curBuf
      && res.1.currentBuffer == Some(buffer)
  {
    if !valid then (-EINVAL, r)
    else if !isFramebuffer then (0, r)
    else if Reuses(r, swapInterval, lockHeld) then (0, r.(currentBuffer := Some(buffer)))
    else
      var n := NextIdx(r);
      (0, r.(slots := r.slots[n := Slot(false, SUB)], queue := r.queue + [QBuf(n, buffer)],
             currentIdx := n, currentBuffer := Some(buffer)))
  }

  /** One iteration of `disp_loop`, as written: the head of the queue is shown and
      becomes REF. On the first frame it is also marked available; afterwards the slot
      that was on screen becomes available and AVL. The popped slot is then on screen.
      The loop waits while the queue is empty, so a pop needs a queued frame. */
  function DispStep(r: Ring): (r': Ring)
    requires r.Valid() && |r.queue| > 0
    ensures r'.Valid() && |r'.slots| == |r.slots|
    ensures r'.queue == r.queue[1..] && r'.curBuf == r.queue[0].idx
    ensures r'.currentIdx == r.currentIdx && r'.currentBuffer == r.currentBuffer
    ensures r.curBuf == -1 ==> r'.slots == r.slots[r.queue[0].idx := Slot(true, REF)]
    // the popped slot goes on screen as REF; on a later frame the slot that was on
    // screen is freed; every other slot keeps its state
    ensures r'.slots[r.queue[0].idx].state == REF || r.queue[0].idx == r.curBuf
    ensures r.curBuf != -1 ==> r'.slots[r.curBuf] == Slot(true, AVL)
    ensures forall i :: 0 <= i < |r.slots| && i != r.queue[0].idx && i != r.curBuf ==>
      r'.slots[i] == r.slots[i]
  {
    var h := r.queue[0].idx;
    var slots :=
      if r.curBuf == -1 then r.slots[h := Slot(true, REF)]
      else r.slots[h := r.slots[h].(state := REF)][r.curBuf := Slot(true, AVL)];
    r.(slots := slots, queue := r.queue[1..], curBuf := h)
  }

  /** One iteration of `disp_loop` with the first frame treated like the others: the
      popped slot only becomes REF, and stays taken while it is on screen. */
  function DispStepCorrected(r: Ring): (r': Ring)
    requires r.Valid() && |r.queue| > 0
    ensures r'.Valid() && |r'.slots| == |r.slots|
    ensures r'.queue == r.queue[1..] && r'.curBuf == r.queue[0].idx
    ensures r'.currentIdx == r.currentIdx && r'.currentBuffer == r.currentBuffer
    ensures r.Inv() ==> r'.Inv()
  {
    var h := r.queue[0].idx;
    var shown := r.slots[h := r.slots[h].(state := REF)];
    var slots := if r.curBuf == -1 then shown else shown[r.curBuf := Slot(true, AVL)];
    var r' := r.(slots := slots, queue := r.queue[1..], curBuf := h);
    DispCorrectedKeepsInv(r, r');
    r'
  }

  lemma DispCorrectedKeepsInv(r: Ring, r': Ring)
    requires r.Valid() && |r.queue| > 0
    requires var h := r.queue[0].idx;
      var shown := r.slots[h := r.slots[h].(state := REF)];
      r' == r.(slots := if r.curBuf == -1 then shown else shown[r.curBuf := Slot(true, AVL)],
               queue := r.queue[1..], curBuf := h)
    ensures r.Inv() ==> r'.Inv()
  {
    if r.Inv() {
      var h := r.queue[0].idx;
      assert r.slots[h] == Slot(false, SUB);
      assert r.Queued() == r'.Queued() + {h as int} by {
        forall i | i in r.Queued() ensures i in r'.Queued() + {h as int} {
          var k :| 0 <= k < |r.queue| && r.queue[k].idx as int == i;
          if k > 0 { assert r'.queue[k - 1] == r.queue[k]; }
        }
        forall i | i in r'.Queued() ensures i in r.Queued() {
          var k :| 0 <= k < |r'.queue| && r'.queue[k].idx as int == i;
          assert r.queue[k + 1] == r'.queue[k];
        }
      }
      forall k | 0 <= k < |r'.queue| ensures r'.queue[k].idx != h {
        assert r'.queue[k] == r.queue[k + 1];
      }
      assert h !in r'.Queued();
      forall k | 0 <= k < |r'.queue| ensures r'.slots[r'.queue[k].idx] == Slot(false, SUB) {
        assert r'.queue[k] == r.queue[k + 1];
        assert r'.queue[k].idx in r'.Queued();
      }
      forall k, l | 0 <= k < l < |r'.queue| ensures r'.queue[k].idx != r'.queue[l].idx {
        assert r'.queue[k] == r.queue[k + 1] && r'.queue[l] == r.queue[l + 1];
      }
    }
  }

  /** After the first frame, the display step as written is the corrected one: the
      first frame is the only place where the two differ, so from then on the step
      keeps the slot discipline. */
  lemma DispStepAfterFirstFrame(r: Ring)
    requires r.Valid() && |r.queue| > 0 && r.curBuf != -1
    ensures DispStep(r) == DispStepCorrected(r)
    ensures r.Inv() ==> DispStep(r).Inv()
  {
  }

  /** `fb_lockBuffer` returns at once for a slot that is AVL, and always with swap
      interval 0; otherwise it waits until the display thread frees the slot. */
  predicate LockBufferReturns(r: Ring, index: nat, swapInterval: int)
    requires index < |r.slots|
  {
    r.slots[index].state == AVL || swapInterval == 0
  }

  /** Under the slot discipline a slot is marked available exactly when it is AVL, and
      exactly when it is neither queued nor on screen: so a slot `fb_lockBuffer` lets
      the producer render into (with a nonzero swap interval) is not being shown or
      waiting to be shown. */
  lemma AvailableMeansFree(r: Ring, i: nat, swapInterval: int)
    requires r.Inv() && i < |r.slots|
    ensures r.slots[i].isAvail <==> r.slots[i].state == AVL
    ensures r.slots[i].isAvail <==> i != r.curBuf && i !in r.Queued()
    ensures swapInterval != 0 && LockBufferReturns(r, i, swapInterval) ==>
      i != r.curBuf && i !in r.Queued()
  {
    if i in r.Queued() {
      var k :| 0 <= k < |r.queue| && r.queue[k].idx as int == i;
    }
  }

  /** Under the slot discipline, with swap interval 0 and the next slot's lock free,
      `fb_post` drops the frame exactly when the next slot is on screen or queued;
      with a nonzero swap interval it never drops one. */
  lemma ReusesExactlyWhenBusy(r: Ring, swapInterval: int, lockHeld: bool)
    requires r.Inv()
    ensures swapInterval == 0 && !lockHeld ==>
      (Reuses(r, swapInterval, lockHeld) <==> NextIdx(r) == r.curBuf || NextIdx(r) in r.Queued())
    ensures swapInterval != 0 ==> !Reuses(r, swapInterval, lockHeld)
  {
    AvailableMeansFree(r, NextIdx(r), swapInterval);
  }

  /** A post keeps the slot discipline, provided that with a nonzero swap interval the
      producer has waited in `fb_lockBuffer` for the slot it posts; and a queued post
      never takes the slot on screen or a slot already queued. */
  lemma PostKeepsInv(r: Ring, valid: bool, isFramebuffer: bool, buffer: nat,
                                        swapInterval: int, lockHeld: bool)
    requires r.Inv()
    requires swapInterval != 0 ==> r.slots[NextIdx(r)].state == AVL
    ensures Post(r, valid, isFramebuffer, buffer, swapInterval, lockHeld).1.Inv()
    ensures valid && isFramebuffer && !Reuses(r, swapInterval, lockHeld) ==>
      NextIdx(r) != r.curBuf && NextIdx(r) !in r.Queued()
  {
    if valid && isFramebuffer && !Reuses(r, swapInterval, lockHeld) {
      var n := NextIdx(r);
      AvailableMeansFree(r, n, swapInterval);
      EnqueueKeepsInv(r, n, buffer);
    }
  }

  /** Queueing a free slot keeps the slot discipline. */
  lemma EnqueueKeepsInv(r: Ring, n: nat, buffer: nat)
    requires r.Inv() && n < |r.slots| && n != r.curBuf && n !in r.Queued()
    ensures r.(slots := r.slots[n := Slot(false, SUB)], queue := r.queue + [QBuf(n, buffer)],
               currentIdx := n, currentBuffer := Some(buffer)).Inv()
  {
    var r' := r.(slots := r.slots[n := Slot(false, SUB)], queue := r.queue + [QBuf(n, buffer)],
                 currentIdx := n, currentBuffer := Some(buffer));
    QueuedAppend(r, r', QBuf(n, buffer));
    forall k | 0 <= k < |r'.queue| ensures r'.slots[r'.queue[k].idx] == Slot(false, SUB) {
      if k < |r.queue| {
        assert r'.queue[k] == r.queue[k];
        assert r.queue[k].idx in r.Queued();
      }
    }
    forall k, l | 0 <= k < l < |r'.queue| ensures r'.queue[k].idx != r'.queue[l].idx {
      assert r'.queue[k] == r.queue[k];
      if l < |r.queue| { assert r'.queue[l] == r.queue[l]; }
      else { assert r.queue[k].idx in r.Queued(); }
    }
  }

  /** Appending to the queue adds the appended slot to the queued ones. */
  lemma QueuedAppend(r: Ring, r': Ring, b: QBuf)
    requires r'.queue == r.queue + [b]
    ensures r'.Queued() == r.Queued() + {b.idx as int}
  {
    forall i | i in r'.Queued() ensures i in r.Queued() + {b.idx as int} {
      var k :| 0 <= k < |r'.queue| && r'.queue[k].idx as int == i;
      if k < |r.queue| { assert r'.queue[k] == r.queue[k]; }
    }
    forall i | i in r.Queued() ensures i in r'.Queued() {
      var k :| 0 <= k < |r.queue| && r.queue[k].idx as int == i;
      assert r'.queue[k] == r.queue[k];
    }
    assert r'.queue[|r.queue|] == b;
  }

  /** With swap interval 0, posting four frames around one display step on a two-buffer
      ring hands the producer the slot on screen (the first frame was marked available
      while shown), and after the next display step that slot is queued yet marked free. */
  lemma FirstFrameLeftAvailable()
    ensures var r1 := Post(Init(2), true, true, 10, 0, false).1;
      var r2 := DispStep(r1);
      var r3 := Post(r2, true, true, 11, 0, false).1;
      var r4 := Post(r3, true, true, 12, 0, false).1;
      var r5 := DispStep(r4);
      && r4.curBuf == 0 && 0 in r4.Queued()
      && 0 in r5.Queued() && r5.slots[0] == Slot(true, AVL)
      && !r5.Inv()
  {
    var r1 := Post(Init(2), true, true, 10, 0, false).1;
    assert r1.queue == [QBuf(0, 10)];
    var r2 := DispStep(r1);
    assert r2.slots == [Slot(true, REF), Slot(true, AVL)] && r2.queue == [];
    var r3 := Post(r2, true, true, 11, 0, false).1;
    assert r3.queue == [QBuf(1, 11)] && r3.currentIdx == 1;
    var r4 := Post(r3, true, true, 12, 0, false).1;
    assert r4.queue == [QBuf(1, 11), QBuf(0, 12)];
    assert r4.queue[1].idx == 0;
    var r5 := DispStep(r4);
    assert r5.queue == [QBuf(0, 12)];
    assert r5.queue[0].idx == 0;
  }

  /** The same events with the corrected display step keep the discipline: the third
      post finds the shown slot taken and drops the frame instead of queueing it. */
  lemma FirstFrameKeptCorrected()
    ensures var r1 := Post(Init(2), true, true, 10, 0, false).1;
      var r2 := DispStepCorrected(r1);
      var r3 := Post(r2, true, true, 11, 0, false).1;
      var r4 := Post(r3, true, true, 12, 0, false).1;
      && Reuses(r3, 0, false)
      && r4.queue == [QBuf(1, 11)] && r4.currentBuffer == Some(12)
      && r4.Inv()
  {
    var r0 := Init(2);
    PostKeepsInv(r0, true, true, 10, 0, false);
    var r1 := Post(r0, true, true, 10, 0, false).1;
    assert r1.queue == [QBuf(0, 10)];
    var r2 := DispStepCorrected(r1);
    assert r2.slots == [Slot(false, REF), Slot(true, AVL)] && r2.queue == [];
    PostKeepsInv(r2, true, true, 11, 0, false);
    var r3 := Post(r2, true, true, 11, 0, false).1;
    assert r3.queue == [QBuf(1, 11)] && r3.currentIdx == 1;
    PostKeepsInv(r3, true, true, 12, 0, false);
  }
}
