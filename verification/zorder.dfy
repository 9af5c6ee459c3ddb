/** The pipe allocator (`ZOrderManager`): one first-fit bank of pipe slots per
    framebuffer group and one global count of pipes in use. */
module ZOrder {

  /** `NO_PIPE`: the z-order returned when no pipe is handed out. */
  const NoPipe := -1
  /** `NUM_CHANNELS`: the size of the primary framebuffer's bank. */
  const NumChannels := 2
  const Framebuffer0 := 0
  const Framebuffer1 := 1
  const Framebuffer2 := 2

  /** `mFB0Pipes`, `mFB1Pipes`, `mPipesInuse` and `mMaxPipes`. */
  datatype Pipes = Pipes(fb0: seq<bool>, fb1: seq<bool>, inUse: int, maxPipes: int)
  {
    /** The shape the constructor sets up: the primary bank has `NUM_CHANNELS` slots,
        the secondary bank `mMaxPipes`, and the count stays within the limit. */
    ghost predicate Valid()
    {
      |fb0| == NumChannels && |fb1| == maxPipes && 0 < maxPipes && 0 <= inUse <= maxPipes
    }

    /** The bank a framebuffer number draws from, if it is a valid number. */
    function Bank(fbnum: int): (b: seq<bool>)
    {
      if fbnum == Framebuffer0 then fb0 else fb1
    }
  }

  /** A framebuffer number `getZ`/`decZ` accept. */
  predicate ValidFb(fbnum: int)
  {
    fbnum == Framebuffer0 || fbnum == Framebuffer1 || fbnum == Framebuffer2
  }

  /** The index of the first `false` entry of `bank` at or after `from`: the first-fit
      scan of `getZ`. */
  function FirstFree(bank: seq<bool>, from: nat): (r: int)
    requires from <= |bank|
    decreases |bank| - from
    ensures r == NoPipe || from <= r < |bank|
    ensures r != NoPipe ==> !bank[r] && forall i :: from <= i < r ==> bank[i]
    ensures r == NoPipe ==> forall i :: from <= i < |bank| ==> bank[i]
  {
    if from == |bank| then NoPipe
    else if !bank[from] then from
    else FirstFree(bank, from + 1)
  }

  /** Puts `bank` in place of the bank of `fbnum`. */
  function WithBank(p: Pipes, fbnum: int, bank: seq<bool>): (q: Pipes)
    ensures q.inUse == p.inUse && q.maxPipes == p.maxPipes
    ensures q.Bank(fbnum) == bank
    ensures fbnum == Framebuffer0 ==> q.fb1 == p.fb1
    ensures fbnum != Framebuffer0 ==> q.fb0 == p.fb0
  {
    if fbnum == Framebuffer0 then p.(fb0 := bank) else p.(fb1 := bank)
  }

  /** `ZOrderManager::getZ` as written: hands out the lowest free slot of the bank, and
      counts a pipe as in use whenever the global limit was not yet reached, even when
      no slot was free or the framebuffer number was invalid. */
  function GetZ(p: Pipes, fbnum: int): (r: (Pipes, int))
    requires p.Valid()
    ensures r.0.maxPipes == p.maxPipes
    // the global limit: nothing changes and no pipe is handed out
    ensures p.inUse == p.maxPipes ==> r == (p, NoPipe)
    ensures p.inUse < p.maxPipes ==> r.0.inUse == p.inUse + 1
    // an invalid framebuffer number gets no pipe and leaves the banks alone
    ensures !ValidFb(fbnum) ==> r.1 == NoPipe && r.0.fb0 == p.fb0 && r.0.fb1 == p.fb1
    // otherwise the result is the lowest free slot, now taken; nothing else changes
    ensures p.inUse < p.maxPipes && ValidFb(fbnum) ==>
      var bank := p.Bank(fbnum);
      && (r.1 == NoPipe <==> forall i :: 0 <= i < |bank| ==> bank[i])
      && (r.1 != NoPipe ==>
            0 <= r.1 < |bank| && !bank[r.1] && (forall i :: 0 <= i < r.1 ==> bank[i])
            && r.0.Bank(fbnum) == bank[r.1 := true])
      && (r.1 == NoPipe ==> r.0.Bank(fbnum) == bank)
      && (fbnum == Framebuffer0 ==> r.0.fb1 == p.fb1)
      && (fbnum != Framebuffer0 ==> r.0.fb0 == p.fb0)
  {
    if p.inUse == p.maxPipes then (p, NoPipe)
    else if !ValidFb(fbnum) then (p.(inUse := p.inUse + 1), NoPipe)
    else
      var bank := p.Bank(fbnum);
      var z := FirstFree(bank, 0);
      var q := if z == NoPipe then p else WithBank(p, fbnum, bank[z := true]);
      (q.(inUse := q.inUse + 1), z)
  }

  /** `ZOrderManager::decZ`: frees slot `z` of the bank and decrements the count if it
      is positive. Indexing outside the bank is undefined in the source, hence the
      precondition. */
  function DecZ(p: Pipes, fbnum: int, z: int): (q: Pipes)
    requires p.Valid()
    requires ValidFb(fbnum) ==> 0 <= z < |p.Bank(fbnum)|
    ensures q.Valid()
    ensures q.inUse == if p.inUse > 0 then p.inUse - 1 else 0
    ensures !ValidFb(fbnum) ==> q.fb0 == p.fb0 && q.fb1 == p.fb1
    ensures ValidFb(fbnum) ==> q.Bank(fbnum) == p.Bank(fbnum)[z := false]
    ensures fbnum == Framebuffer0 ==> q.fb1 == p.fb1
    ensures fbnum != Framebuffer0 ==> q.fb0 == p.fb0
  {
    var q := if ValidFb(fbnum) then WithBank(p, fbnum, p.Bank(fbnum)[z := false]) else p;
    q.(inUse := if q.inUse > 0 then q.inUse - 1 else q.inUse)
  }

  /** Freeing a pipe and asking again for the same framebuffer hands the same pipe back
      when every lower slot is taken, and restores the allocator exactly. */
  lemma DecZThenGetZ(p: Pipes, fbnum: int, z: int)
    requires p.Valid() && ValidFb(fbnum)
    requires 0 <= z < |p.Bank(fbnum)| && p.Bank(fbnum)[z]
    requires forall i :: 0 <= i < z ==> p.Bank(fbnum)[i]
    requires p.inUse > 0
    ensures GetZ(DecZ(p, fbnum, z), fbnum) == (p, z)
  {
    var q := DecZ(p, fbnum, z);
    var bank := q.Bank(fbnum);
    assert !bank[z] && forall i :: 0 <= i < z ==> bank[i];
    assert bank[z := true] == p.Bank(fbnum);
  }

  // ---------------------------------------------------------------------------
  // The in-use count against the banks
  // ---------------------------------------------------------------------------

  /** The number of taken slots in a bank. */
  function Count(bank: seq<bool>): (n: nat)
    ensures n <= |bank|
  {
    if bank == [] then 0 else (if bank[0] then 1 else 0) + Count(bank[1..])
  }

  /** Taking a free slot adds one to the count; freeing a taken one removes one. */
  lemma {:induction false} CountUpdate(bank: seq<bool>, i: nat, v: bool)
    requires i < |bank|
    ensures Count(bank[i := v]) == Count(bank) - (if bank[i] then 1 else 0) + (if v then 1 else 0)
  {
    if i > 0 {
      assert bank[i := v][1..] == bank[1..][i - 1 := v];
      CountUpdate(bank[1..], i - 1, v);
    } else {
      assert bank[i := v][1..] == bank[1..];
    }
  }

  /** The count the allocator is meant to keep: every pipe in use is a taken slot. */
  ghost predicate CountMatches(p: Pipes)
  {
    p.inUse == Count(p.fb0) + Count(p.fb1)
  }

  /** `getZ` with the count incremented only when a slot was handed out. */
  function GetZCounted(p: Pipes, fbnum: int): (r: (Pipes, int))
    requires p.Valid()
    ensures r.1 == GetZ(p, fbnum).1
    ensures r.0.fb0 == GetZ(p, fbnum).0.fb0 && r.0.fb1 == GetZ(p, fbnum).0.fb1
    ensures r.0.inUse == p.inUse + (if r.1 == NoPipe then 0 else 1)
  {
    var (q, z) := GetZ(p, fbnum);
    if z == NoPipe then (q.(inUse := p.inUse), z) else (q, z)
  }

  /** With the counted `getZ`, and `decZ` applied to taken slots, the count always
      equals the number of taken slots. */
  lemma GetZCountedKeepsCount(p: Pipes, fbnum: int)
    requires p.Valid() && CountMatches(p)
    ensures CountMatches(GetZCounted(p, fbnum).0)
    ensures GetZCounted(p, fbnum).0.Valid()
  {
    var (q, z) := GetZCounted(p, fbnum);
    if z != NoPipe {
      CountUpdate(p.Bank(fbnum), z, true);
    }
  }

  lemma DecZKeepsCount(p: Pipes, fbnum: int, z: int)
    requires p.Valid() && CountMatches(p) && ValidFb(fbnum)
    requires 0 <= z < |p.Bank(fbnum)| && p.Bank(fbnum)[z]
    ensures CountMatches(DecZ(p, fbnum, z))
  {
    CountUpdate(p.Bank(fbnum), z, false);
  }

  /** `getZ` as written loses the count: with both primary slots taken, a request on the
      primary framebuffer gets no pipe but still counts one, and afterwards the
      secondary bank is refused although all of its slots are free. */
  lemma GetZLeaksCount()
    ensures var p := Pipes([true, true], [false, false, false], 2, 3);
      && p.Valid() && CountMatches(p)
      && GetZ(p, Framebuffer0).1 == NoPipe
      && !CountMatches(GetZ(p, Framebuffer0).0)
      && GetZ(GetZ(p, Framebuffer0).0, Framebuffer1).1 == NoPipe
  {
    var p := Pipes([true, true], [false, false, false], 2, 3);
    assert Count(p.fb0) == 2 by {
      assert p.fb0[1..] == [true];
      assert p.fb0[1..][1..] == [];
    }
    assert Count(p.fb1) == 0 by {
      assert p.fb1[1..] == [false, false];
      assert p.fb1[1..][1..] == [false];
      assert p.fb1[1..][1..][1..] == [];
    }
  }
}
