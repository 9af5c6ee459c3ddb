/** `OverlayControlChannel::setTransform`: a new HAL transform turns the stored
    buffer, so the crop kept in stored coordinates is carried from the old turn to
    the new one and the buffer's width and height trade places on a quarter turn. */
module Transform {
  import opened Common
  import opened Formats
  import opened Geometry
  import opened Control

  /** A crop carried to a new turn, and whether width and height trade places. */
  datatype Remapped = Remapped(swapped: bool, rect: Rect)

  /** The upright buffer behind a buffer of dimensions `s` stored with turn `t`. */
  function UprightDim(t: Turn, s: Dim): (u: Dim)
    ensures StoredDim(t, u) == s
  {
    if t.Swaps() then SwapDim(s) else s
  }

  // ---------------------------------------------------------------------------
  // The remap as written
  // ---------------------------------------------------------------------------

  /** The `switch` of `setTransform` as written: the stored crop `r` of a buffer of
      dimensions `s`, held for MDP orientation `val`, carried to HAL transform
      `value`. Only the exact quarter turns 90 and 270 are recognised as the old
      orientation, and a half turn is treated as upright from and to the upright
      family. `None` is the `default` branch for a value that is no transform. */
  function TransformRemapAsWritten(value: int, val: int, s: Dim, r: Rect): (m: Option<Remapped>)
    ensures m.None? <==> !(0 <= value < 8)
    // the crop keeps its size, turned a quarter exactly when the dimensions swap
    ensures m.Some? && m.value.swapped ==> m.value.rect.w == r.h && m.value.rect.h == r.w
    ensures m.Some? && !m.value.swapped ==> m.value.rect.w == r.w && m.value.rect.h == r.h
    // an old orientation that is neither a quarter nor a three-quarter turn, going to an
    // orientation of the upright family, leaves the crop alone
    ensures 0 <= value < 4 && val != MdpRot90 && val != MdpRot270 ==> m == Some(Remapped(false, r))
  {
    if value == 0 || value == HalFlipH || value == HalFlipV then
      if val == MdpRot90 then Some(Remapped(true, FromStored(Quarter, s, r)))
      else if val == MdpRot270 then Some(Remapped(true, FromStored(ThreeQuarter, s, r)))
      else Some(Remapped(false, r))
    else if value == HalRot90 || value == HalRot90 + HalFlipH || value == HalRot90 + HalFlipV then
      if val == MdpRot270 then Some(Remapped(false, ToStored(Half, s, r)))
      else if val == 0 || val == MdpRot180 || val == MdpFlipLR || val == MdpFlipUD then
        Some(Remapped(true, ToStored(Quarter, SwapDim(s), r)))
      else Some(Remapped(false, r))
    else if value == HalRot180 then
      if val == MdpRot270 then Some(Remapped(true, FromStored(Quarter, s, r)))
      else if val == MdpRot90 then Some(Remapped(true, FromStored(ThreeQuarter, s, r)))
      else Some(Remapped(false, r))
    else if value == HalRot270 then
      if val == MdpRot90 then Some(Remapped(false, ToStored(Half, s, r)))
      else if val == 0 || val == MdpRot180 || val == MdpFlipLR || val == MdpFlipUD then
        Some(Remapped(true, ToStored(ThreeQuarter, SwapDim(s), r)))
      else Some(Remapped(false, r))
    else None
  }

  // ---------------------------------------------------------------------------
  // The remap as intended
  // ---------------------------------------------------------------------------

  /** The remap `setTransform` evidently intends, written against the coordinate
      change `setCrop` uses: the stored crop is turned back to the upright picture
      and stored again for the new turn. */
  function TransformRemap(oldT: Turn, newT: Turn, s: Dim, r: Rect): (m: Remapped)
    ensures m.swapped <==> oldT.Swaps() != newT.Swaps()
    // the upright crop is unchanged
    ensures FromStored(newT, StoredDim(newT, UprightDim(oldT, s)), m.rect) == FromStored(oldT, s, r)
  {
    var up := FromStored(oldT, s, r);
    var nd := StoredDim(newT, UprightDim(oldT, s));
    StoredRoundTrip(newT, nd, up, r);
    Remapped(oldT.Swaps() != newT.Swaps(), ToStored(newT, nd, up))
  }

  /** Turning to a new orientation and back restores the stored crop. */
  lemma TransformRemapRoundTrip(oldT: Turn, newT: Turn, s: Dim, r: Rect)
    ensures var nd := StoredDim(newT, UprightDim(oldT, s));
      TransformRemap(newT, oldT, nd, TransformRemap(oldT, newT, s, r).rect).rect == r
  {
    var up := FromStored(oldT, s, r);
    var nd := StoredDim(newT, UprightDim(oldT, s));
    StoredRoundTrip(newT, nd, up, r);
    StoredRoundTrip(oldT, s, up, r);
  }

  /** The pairs of old MDP orientation `val` and new HAL transform `value` on which
      the code as written departs from the intended remap. A flipped quarter turn is
      not recognised as a quarter turn unless the new transform is a quarter turn
      too. A half turn is treated as upright: from the upright family to a half turn,
      and from a half turn to anything but a half turn. */
  predicate Mishandled(value: int, val: int)
  {
    || (val in {MdpRot90 + MdpFlipLR, MdpRot90 + MdpFlipUD} &&
        value !in {HalRot90, HalRot90 + HalFlipH, HalRot90 + HalFlipV})
    || (val == MdpRot180 && value != HalRot180)
    || (val in {0, MdpFlipLR, MdpFlipUD} && value == HalRot180)
  }

  /** Outside the mishandled pairs the code as written computes exactly the intended
      remap, for every buffer and every crop. */
  lemma TransformRemapAgrees(value: int, val: int, s: Dim, r: Rect)
    requires 0 <= value < 8 && 0 <= val < 8
    requires !Mishandled(value, val)
    ensures TransformRemapAsWritten(value, val, s, r) ==
      Some(TransformRemap(TurnOf(val), TurnOf(GetMdpOrientation(value)), s, r))
  {
    if value < 3 {
      AgreesToUpright(value, val, s, r);
    } else if value == HalRot180 {
      AgreesToHalf(val, s, r);
    } else if value < 7 {
      AgreesToQuarter(value, val, s, r);
    } else {
      AgreesToThreeQuarter(val, s, r);
    }
  }

  /** Every mishandled pair does go wrong: on the top-left quarter of a 640 x 480
      buffer the code as written and the intended remap differ. */
  lemma MishandledDiffers(value: int, val: int)
    requires 0 <= value < 8 && 0 <= val < 8
    requires Mishandled(value, val)
    ensures var s := Dim(640, 480);
      var r := Rect(0, 0, 320, 240);
      TransformRemapAsWritten(value, val, s, r) !=
        Some(TransformRemap(TurnOf(val), TurnOf(GetMdpOrientation(value)), s, r))
  {
    var s := Dim(640, 480);
    var r := Rect(0, 0, 320, 240);
    if val == MdpRot180 && value != HalRot180 {
      var up := FromStored(Half, s, r);
      assert up == Rect(320, 240, 320, 240);
      if value >= 4 {
        assert TurnOf(GetMdpOrientation(value)) in {Quarter, ThreeQuarter};
        assert ToStored(Quarter, SwapDim(s), r) == Rect(240, 0, 240, 320);
        assert ToStored(Quarter, SwapDim(s), up) == Rect(0, 320, 240, 320);
        assert ToStored(ThreeQuarter, SwapDim(s), r) == Rect(0, 320, 240, 320);
        assert ToStored(ThreeQuarter, SwapDim(s), up) == Rect(240, 0, 240, 320);
      }
    } else if val in {MdpRot90 + MdpFlipLR, MdpRot90 + MdpFlipUD} && value == HalRot270 {
      var up := FromStored(Quarter, s, r);
      assert up == Rect(0, 320, 240, 320);
      assert ToStored(ThreeQuarter, s, up) == Rect(320, 240, 320, 240);
    } else if val in {0, MdpFlipLR, MdpFlipUD} {
      assert ToStored(Half, s, r) == Rect(320, 240, 320, 240);
    }
  }

  lemma AgreesToUpright(value: int, val: int, s: Dim, r: Rect)
    requires 0 <= value < 3
    requires val in {0, MdpFlipLR, MdpFlipUD, MdpRot90, MdpRot270}
    ensures TransformRemapAsWritten(value, val, s, r) ==
      Some(TransformRemap(TurnOf(val), TurnOf(GetMdpOrientation(value)), s, r))
  {
    assert TurnOf(GetMdpOrientation(value)) == Upright;
  }

  lemma AgreesToHalf(val: int, s: Dim, r: Rect)
    requires val in {MdpRot180, MdpRot90, MdpRot270}
    ensures TransformRemapAsWritten(HalRot180, val, s, r) ==
      Some(TransformRemap(TurnOf(val), TurnOf(GetMdpOrientation(HalRot180)), s, r))
  {
    if val == MdpRot180 {
      StoredRoundTrip(Half, s, r, r);
    } else if val == MdpRot90 {
      HalfAfterQuarter(s, r);
    } else {
      HalfAfterThreeQuarter(s, r);
    }
  }

  /** Storing for a half turn what was stored for a quarter turn is storing it for a
      three-quarter turn. */
  lemma HalfAfterQuarter(s: Dim, r: Rect)
    ensures ToStored(Half, SwapDim(s), FromStored(Quarter, s, r)) == FromStored(ThreeQuarter, s, r)
  {
    ReflectTwice(s.width, r.x, r.w);
  }

  lemma HalfAfterThreeQuarter(s: Dim, r: Rect)
    ensures ToStored(Half, SwapDim(s), FromStored(ThreeQuarter, s, r)) == FromStored(Quarter, s, r)
  {
    ReflectTwice(s.height, r.y, r.h);
  }

  lemma AgreesToQuarter(value: int, val: int, s: Dim, r: Rect)
    requires 4 <= value < 7
    requires val in {0, MdpFlipLR, MdpFlipUD, MdpRot90, MdpRot90 + MdpFlipLR, MdpRot90 + MdpFlipUD, MdpRot270}
    ensures TransformRemapAsWritten(value, val, s, r) ==
      Some(TransformRemap(TurnOf(val), TurnOf(GetMdpOrientation(value)), s, r))
  {
    assert TurnOf(GetMdpOrientation(value)) == Quarter;
    if TurnOf(val) == Quarter {
      StoredRoundTrip(Quarter, s, r, r);
    }
  }

  lemma AgreesToThreeQuarter(val: int, s: Dim, r: Rect)
    requires val in {0, MdpFlipLR, MdpFlipUD, MdpRot90, MdpRot270}
    ensures TransformRemapAsWritten(HalRot270, val, s, r) ==
      Some(TransformRemap(TurnOf(val), TurnOf(GetMdpOrientation(HalRot270)), s, r))
  {
    if val == MdpRot270 {
      StoredRoundTrip(ThreeQuarter, s, r, r);
    }
  }

  /** The flipped quarter turns are not recognised as the old orientation: going
      back to upright from `MDP_ROT_90 | MDP_FLIP_LR` leaves a 480 x 640 crop in
      stored coordinates and the buffer unswapped, where the intended remap gives the
      640 x 480 upright crop. */
  lemma FlippedQuarterNotUndone()
    ensures var s := Dim(480, 640);
      var r := Rect(0, 0, 480, 640);
      && TransformRemapAsWritten(0, MdpRot90 + MdpFlipLR, s, r) == Some(Remapped(false, r))
      && TransformRemap(TurnOf(MdpRot90 + MdpFlipLR), TurnOf(GetMdpOrientation(0)), s, r)
           == Remapped(true, Rect(0, 0, 640, 480))
  {
  }

  /** A half turn from upright keeps the upright crop in stored coordinates, although
      `setCrop` stores a crop for a half turn reflected: the top-left quarter of a
      640 x 480 picture stays at the origin instead of moving to the bottom-right. */
  lemma HalfTurnNotRemapped()
    ensures var s := Dim(640, 480);
      var r := Rect(0, 0, 320, 240);
      && TransformRemapAsWritten(HalRot180, 0, s, r) == Some(Remapped(false, r))
      && TransformRemap(TurnOf(0), TurnOf(GetMdpOrientation(HalRot180)), s, r)
           == Remapped(false, Rect(320, 240, 320, 240))
      && ToStored(Half, s, r) == Rect(320, 240, 320, 240)
  {
  }

  /** A half turn taken for upright as the old orientation: going from `MDP_ROT_180`
      to a quarter turn, the code turns the stored crop as if it were the upright one,
      so the top-left quarter of a 640 x 480 picture held for a half turn is stored
      at (240, 0) where the picture it shows is stored at (0, 320). */
  lemma HalfTurnTakenForUpright()
    ensures var s := Dim(640, 480);
      var r := Rect(0, 0, 320, 240);
      && TransformRemapAsWritten(HalRot90, MdpRot180, s, r) == Some(Remapped(true, Rect(240, 0, 240, 320)))
      && TransformRemap(TurnOf(MdpRot180), TurnOf(GetMdpOrientation(HalRot90)), s, r)
           == Remapped(true, Rect(0, 320, 240, 320))
  {
    var s := Dim(640, 480);
    var r := Rect(0, 0, 320, 240);
    assert FromStored(Half, s, r) == Rect(320, 240, 320, 240);
  }

  /** A flipped quarter turn is not recognised going to a three-quarter turn either:
      the crop stays where it was, where the intended remap moves it to the opposite
      corner as a half turn would. */
  lemma FlippedQuarterNotRemapped()
    ensures var s := Dim(480, 640);
      var r := Rect(0, 0, 240, 320);
      && TransformRemapAsWritten(HalRot270, MdpRot90 + MdpFlipLR, s, r) == Some(Remapped(false, r))
      && TransformRemap(TurnOf(MdpRot90 + MdpFlipLR), TurnOf(GetMdpOrientation(HalRot270)), s, r)
           == Remapped(false, Rect(240, 320, 240, 320))
  {
    var s := Dim(480, 640);
    var r := Rect(0, 0, 240, 320);
    assert FromStored(Quarter, s, r) == Rect(0, 240, 320, 240);
  }

  // ---------------------------------------------------------------------------
  // setTransform
  // ---------------------------------------------------------------------------

  /** Puts a remapped crop in place, swaps the buffer and rotator dimensions when the
      remap asks for it, and records the new MDP orientation. */
  function ApplyRemap(c: Channel, m: Remapped, mdp: int): (r: Channel)
    ensures r.ov.srcRect == m.rect
    ensures r.ov.src == (if m.swapped then SwapDim(c.ov.src) else c.ov.src)
    ensures r.rot.dst == (if m.swapped then SwapDim(c.rot.dst) else c.rot.dst)
    ensures r.ov.orientation == mdp && r.rot.rotations == mdp
    ensures r == c.(ov := c.ov.(srcRect := m.rect, src := r.ov.src, orientation := mdp),
                    rot := c.rot.(dst := r.rot.dst, rotations := mdp))
  {
    var c1 := if m.swapped then SwapOvRotWidthHeight(c) else c;
    c1.(ov := c1.ov.(srcRect := m.rect, orientation := mdp), rot := c1.rot.(rotations := mdp))
  }

  /** The end of `setTransform`: the rotator downscale is re-checked on the members,
      the crop shifted by the result, `MDP_SOURCE_ROTATED_90` set as `rotated90`
      says, and the overlay set. Every change persists even when a step fails. */
  function FinishTransform(c: Channel, rotated90: bool, dev: Device): (r: (bool, Channel))
    requires !c.noRot
    ensures r.0 <==> dev.rotatorStartOk && dev.overlaySetOk
    ensures r.1.ov.src == c.ov.src && r.1.ov.orientation == c.ov.orientation
    ensures r.1.rot.dst == c.rot.dst && r.1.rot.rotations == c.rot.rotations
    ensures r.1.ov.srcRect == AdjustRect(c.ov.srcRect, r.1.dscaleAdj)
    ensures c.uiChannel || c.fbNum < 0 || c.fbNum > 2 ==> r.1.dscaleAdj == DscaleNone
    ensures dev.rotatorStartOk ==> (SourceRotated90 in r.1.ov.flags <==> rotated90)
    ensures r.1.up == c.up && r.1.noRot == c.noRot && r.1.uiChannel == c.uiChannel &&
            r.1.isChannelUpdated == c.isChannelUpdated
  {
    var d := RotatorDownscaleControl(c, ToI32(c.ov.srcRect.w), ToI32(c.ov.srcRect.h),
                                     ToI32(c.ov.dstRect.w), ToI32(c.ov.dstRect.h), c.ov, c.rot, dev);
    var c1 := c.(ov := d.ov.(srcRect := AdjustRect(d.ov.srcRect, d.adj)), rot := d.rot, dscaleAdj := d.adj);
    if !d.ok then (false, c1)
    else (dev.overlaySetOk, c1.(ov := c1.ov.(flags := SetFlag(c1.ov.flags, SourceRotated90, rotated90))))
  }

  /** `OverlayControlChannel::setTransform(value)` as written. */
  function SetTransform(c: Channel, value: int, dev: Device): (r: (bool, Channel))
    ensures !c.up ==> r == (false, c)
    ensures c.up && !c.isChannelUpdated && GetMdpOrientation(value) == c.ov.orientation ==> r == (true, c)
    // without the rotator the call succeeds but records nothing
    ensures c.up && c.noRot ==> r.0 && r.1 == c.(isChannelUpdated := r.1.isChannelUpdated)
    // a value that is no transform is refused, but only after the crop shift was undone
    // while the shift amount stays recorded
    ensures c.up && !c.noRot && !(0 <= value < 8) && c.ov.orientation != -1 ==>
      r == (false, c.(isChannelUpdated := false,
                      ov := c.ov.(srcRect := ResetAdjustRect(c.ov.srcRect, c.dscaleAdj))))
    ensures r.0 ==> r.1.up
    // a transform that is carried out is recorded, and the rotated-source flag is set
    // for the plain quarter turns only
    ensures c.up && !c.noRot && 0 <= value < 8 && r.1 != c ==>
      && r.1.ov.orientation == GetMdpOrientation(value) && r.1.rot.rotations == GetMdpOrientation(value)
      && (dev.rotatorStartOk ==>
            (SourceRotated90 in r.1.ov.flags <==> r.1.ov.orientation in {MdpRot90, MdpRot270}))
  {
    if !c.up then (false, c)
    else if !c.isChannelUpdated && GetMdpOrientation(value) == c.ov.orientation then (true, c)
    else
      var c0 := c.(isChannelUpdated := false);
      if c0.noRot then (true, c0)
      else
        var c1 := c0.(ov := c0.ov.(srcRect := ResetAdjustRect(c0.ov.srcRect, c0.dscaleAdj)));
        match TransformRemapAsWritten(value, c1.ov.orientation, c1.ov.src, c1.ov.srcRect)
        case None => (false, c1)
        case Some(m) =>
          var mdp := GetMdpOrientation(value);
          FinishTransform(ApplyRemap(c1, m, mdp), mdp == MdpRot90 || mdp == MdpRot270, dev)
  }

  /** `setTransform` with the remap as intended: a value that is no transform is
      refused before anything changes, the crop is carried between any two
      orientations, and the rotated-source flag follows every quarter turn. */
  function SetTransformCorrected(c: Channel, value: int, dev: Device): (r: (bool, Channel))
    ensures !c.up || !(0 <= value < 8) ==> r == (false, c)
    ensures c.up && 0 <= value < 8 && !c.isChannelUpdated && GetMdpOrientation(value) == c.ov.orientation ==>
      r == (true, c)
    ensures c.up && c.noRot ==> r.1 == c.(isChannelUpdated := r.1.isChannelUpdated)
    ensures c.up && !c.noRot && 0 <= value < 8 && r.1 != c ==>
      && r.1.ov.orientation == GetMdpOrientation(value) && r.1.rot.rotations == GetMdpOrientation(value)
      && (dev.rotatorStartOk ==>
            (SourceRotated90 in r.1.ov.flags <==> TurnOf(r.1.ov.orientation).Swaps()))
    // the upright picture and the upright crop are what they were
    ensures !c.noRot ==>
      UprightDim(TurnOf(r.1.ov.orientation), r.1.ov.src) == UprightDim(TurnOf(c.ov.orientation), c.ov.src)
    ensures !c.noRot && c.dscaleAdj == DscaleNone && r.1.dscaleAdj == DscaleNone ==>
      FromStored(TurnOf(r.1.ov.orientation), r.1.ov.src, r.1.ov.srcRect)
        == FromStored(TurnOf(c.ov.orientation), c.ov.src, c.ov.srcRect)
  {
    if !c.up || !(0 <= value < 8) then (false, c)
    else
      var mdp := GetMdpOrientation(value);
      if !c.isChannelUpdated && mdp == c.ov.orientation then (true, c)
      else
        var c0 := c.(isChannelUpdated := false);
        if c0.noRot then (true, c0)
        else
          var c1 := c0.(ov := c0.ov.(srcRect := ResetAdjustRect(c0.ov.srcRect, c0.dscaleAdj)));
          var m := TransformRemap(TurnOf(c1.ov.orientation), TurnOf(mdp), c1.ov.src, c1.ov.srcRect);
          FinishTransform(ApplyRemap(c1, m, mdp), TurnOf(mdp).Swaps(), dev)
  }

  /** An invalid value leaves the crop unshifted while the shift amount is still
      recorded, so the next reconfiguration shifts it up a second time: a 960 x 540
      crop kept at half size reads back as 1920 x 1080 after `setTransform(8)`. */
  lemma InvalidTransformUnshiftsCrop()
    ensures var c := HalfScaledChannel();
      var r := SetTransform(c, 8, Device(true, true));
      && !r.0 && r.1.dscaleAdj == DscaleHalf
      && r.1.ov.srcRect == Rect(0, 0, 1920, 1080)
      && ResetAdjustRect(r.1.ov.srcRect, r.1.dscaleAdj) == Rect(0, 0, 3840, 2160)
      && SetTransformCorrected(c, 8, Device(true, true)) == (false, c)
  {
  }

  /** A channel whose 1920 x 1080 crop is kept shifted down by one (960 x 540). */
  function HalfScaledChannel(): (c: Channel)
    ensures c.up && !c.noRot && c.dscaleAdj == DscaleHalf && c.ov.srcRect == Rect(0, 0, 960, 540)
  {
    var ov := OvInfo(Dim(1920, 1080), MdpYCbCrH2V2, Rect(0, 0, 960, 540), Rect(0, 0, 480, 270), 0, {}, false, 0);
    var rot := RotInfo(true, DscaleHalf, Rect(0, 0, 1920, 1080), Dim(1920, 1080), 0, MdpYCbCrH2V2, MdpYCbCrH2V2);
    Channel(true, false, false, 0, 1920, 1080, ov, rot, DscaleHalf, true)
  }

  /** Turning to any transform and back to upright restores the crop and the buffer
      dimensions, whenever neither step picks a rotator downscale. */
  lemma SetTransformCorrectedThereAndBack(c: Channel, value: int, dev1: Device, dev2: Device)
    requires c.up && !c.noRot
    requires c.ov.orientation == 0 && c.dscaleAdj == DscaleNone
    ensures var r1 := SetTransformCorrected(c, value, dev1);
      var r2 := SetTransformCorrected(r1.1, 0, dev2);
      r1.1.dscaleAdj == DscaleNone && r2.1.dscaleAdj == DscaleNone ==>
        r2.1.ov.srcRect == c.ov.srcRect && r2.1.ov.src == c.ov.src && r2.1.ov.orientation == 0
  {
    var r1 := SetTransformCorrected(c, value, dev1);
    var r2 := SetTransformCorrected(r1.1, 0, dev2);
    var t := TurnOf(r1.1.ov.orientation);
    StoredRoundTrip(t, r1.1.ov.src, FromStored(Upright, c.ov.src, c.ov.srcRect), r1.1.ov.srcRect);
    StoredRoundTrip(Upright, r2.1.ov.src, r2.1.ov.srcRect, r2.1.ov.srcRect);
  }

  /** As written, a quarter turn from upright followed by a return to upright restores
      the crop and the buffer dimensions whenever neither step picks a rotator
      downscale. */
  lemma SetTransformQuarterThenBack(c: Channel, dev1: Device, dev2: Device)
    requires c.up && !c.noRot && c.ov.orientation == 0 && c.dscaleAdj == DscaleNone
    ensures var r1 := SetTransform(c, HalRot90, dev1);
      var r2 := SetTransform(r1.1, 0, dev2);
      && r1.1.ov.orientation == MdpRot90 && r1.1.ov.src == SwapDim(c.ov.src)
      && (r1.1.dscaleAdj == DscaleNone && r2.1.dscaleAdj == DscaleNone ==>
            r2.1.ov.srcRect == c.ov.srcRect && r2.1.ov.src == c.ov.src && r2.1.ov.orientation == 0)
  {
    var r1 := SetTransform(c, HalRot90, dev1);
    StoredRoundTrip(Quarter, SwapDim(c.ov.src), c.ov.srcRect, r1.1.ov.srcRect);
  }
}
