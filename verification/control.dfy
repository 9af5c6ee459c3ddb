/** One overlay control channel (`OverlayControlChannel`): the overlay configuration
    (`mdp_overlay`), the rotator configuration (`msm_rotator_img_info`) and the
    operations that update them. The two driver calls (`MSMFB_OVERLAY_SET` and
    `MSM_ROTATOR_IOCTL_START`) appear only as their outcome, in `Device`. */
module Control {
  import opened Common
  import opened Formats
  import opened Geometry

  /** The `mdp_overlay.flags` bits this layer manages. */
  datatype MdpFlag = Deinterlace | PlayNowait | SecureOverlaySession | PipeShare | BlendFgPremult
                   | SourceRotated90 | OtherMdpFlag(bit: nat)

  /** The overlay flags a client passes in. */
  datatype OvFlag = InterlacedContent | WaitForVsync | SecureOverlay | DisableFramebufferFetch
                  | OverlayPipeShare | OverlayBlendingPremult

  /** The overlay configuration. `orientation` is `user_data[0]`, the MDP orientation. */
  datatype OvInfo = OvInfo(
    src: Dim, srcFormat: MdpFormat, srcRect: Rect, dstRect: Rect,
    orientation: int, flags: set<MdpFlag>, isFg: bool, zOrder: int)

  /** The rotator configuration. */
  datatype RotInfo = RotInfo(
    enable: bool, downscaleRatio: Shift, srcRect: Rect, dst: Dim, rotations: int,
    srcFormat: MdpFormat, dstFormat: MdpFormat)

  /** The state of one control channel. `up` is "the overlay device is open";
      `dscaleAdj` is `mRotDscaleAdj`, the shift applied to `ov.srcRect`. */
  datatype Channel = Channel(
    up: bool, noRot: bool, uiChannel: bool, fbNum: int, fbWidth: u32, fbHeight: u32,
    ov: OvInfo, rot: RotInfo, dscaleAdj: Shift, isChannelUpdated: bool)

  /** Whether the driver accepts the rotator start and the overlay set. */
  datatype Device = Device(rotatorStartOk: bool, overlaySetOk: bool)

  /** `HW_OVERLAY_MAGNIFICATION_LIMIT`. */
  const MagnificationLimit := 8

  // ---------------------------------------------------------------------------
  // Flags
  // ---------------------------------------------------------------------------

  /** The MDP flags `setInformationFromFlags` decides. */
  const ManagedFlags: set<MdpFlag> :=
    {Deinterlace, PlayNowait, SecureOverlaySession, PipeShare, BlendFgPremult}

  /** Sets `f` in `s` when `on`, clears it otherwise. */
  function SetFlag(s: set<MdpFlag>, f: MdpFlag, on: bool): (r: set<MdpFlag>)
    ensures f in r <==> on
    ensures forall g :: g != f ==> (g in r <==> g in s)
  {
    if on then s + {f} else s - {f}
  }

  /** `setInformationFromFlags`: derives the MDP flags and `is_fg` from the client
      flags; every other flag and field is kept. */
  function SetInformationFromFlags(ov: OvInfo, flags: set<OvFlag>): (r: OvInfo)
    ensures Deinterlace in r.flags <==> InterlacedContent in flags
    ensures PlayNowait in r.flags <==> WaitForVsync !in flags
    ensures SecureOverlaySession in r.flags <==> SecureOverlay in flags
    ensures r.isFg <==> DisableFramebufferFetch in flags
    ensures PipeShare in r.flags <==> OverlayPipeShare in flags
    ensures BlendFgPremult in r.flags <==> OverlayBlendingPremult in flags
    ensures forall g :: g !in ManagedFlags ==> (g in r.flags <==> g in ov.flags)
    ensures r == ov.(flags := r.flags, isFg := r.isFg)
  {
    var f1 := SetFlag(ov.flags, Deinterlace, InterlacedContent in flags);
    var f2 := SetFlag(f1, PlayNowait, WaitForVsync !in flags);
    var f3 := SetFlag(f2, SecureOverlaySession, SecureOverlay in flags);
    var f4 := SetFlag(f3, PipeShare, OverlayPipeShare in flags);
    var f5 := SetFlag(f4, BlendFgPremult, OverlayBlendingPremult in flags);
    ov.(flags := f5, isFg := DisableFramebufferFetch in flags)
  }

  /** `doFlagsNeedUpdate`: whether the vsync wait or the framebuffer fetch setting
      requested by `flags` disagrees with the configuration. */
  function DoFlagsNeedUpdate(ov: OvInfo, flags: set<OvFlag>): (r: bool)
    ensures r <==> (WaitForVsync in flags <==> PlayNowait in ov.flags)
                   || (DisableFramebufferFetch in flags <==> !ov.isFg)
  {
    var nowaitWrong := if WaitForVsync !in flags then PlayNowait !in ov.flags else PlayNowait in ov.flags;
    var fetchWrong := if DisableFramebufferFetch !in flags then ov.isFg else !ov.isFg;
    nowaitWrong || fetchWrong
  }

  /** Applying the flags leaves nothing to update for the same flags. */
  lemma FlagsSettled(ov: OvInfo, flags: set<OvFlag>)
    ensures !DoFlagsNeedUpdate(SetInformationFromFlags(ov, flags), flags)
  {
  }

  /** `updateOverlayFlags`: sets the vsync wait, `is_fg` and premultiplied blending
      from `flags`, then asks the driver. The configuration is changed even when the
      driver refuses it. */
  function UpdateOverlayFlags(c: Channel, flags: set<OvFlag>, dev: Device): (r: (bool, Channel))
    ensures r.0 <==> dev.overlaySetOk
    ensures !DoFlagsNeedUpdate(r.1.ov, flags)
    ensures BlendFgPremult in r.1.ov.flags <==> OverlayBlendingPremult in flags
    ensures forall g :: g !in {PlayNowait, BlendFgPremult} ==> (g in r.1.ov.flags <==> g in c.ov.flags)
    ensures r.1 == c.(ov := c.ov.(flags := r.1.ov.flags, isFg := r.1.ov.isFg))
  {
    var f1 := SetFlag(c.ov.flags, PlayNowait, WaitForVsync !in flags);
    var f2 := SetFlag(f1, BlendFgPremult, OverlayBlendingPremult in flags);
    (dev.overlaySetOk, c.(ov := c.ov.(flags := f2, isFg := DisableFramebufferFetch in flags)))
  }

  // ---------------------------------------------------------------------------
  // setOverlayInformation
  // ---------------------------------------------------------------------------

  /** `((v - 1) / a + 1) * a` in C `int` arithmetic, for the tile sizes 64 and 32:
      `v` rounded up to a multiple of `a`, where 0 also goes to `a`. */
  function AlignUp(v: int, a: nat): (r: int)
    requires a == 32 || a == 64
    ensures v >= 1 ==> r % a == 0 && v <= r < v + a
    ensures v == 0 ==> r == a
  {
    if a == 32 then (CDiv(v - 1, 32) + 1) * 32 else (CDiv(v - 1, 64) + 1) * 64
  }

  /** Whether the MDP format is one of the two tiled formats. */
  predicate IsTiled(f: MdpFormat)
  {
    f == MdpYCrCbH2V2Tile || f == MdpYCbCrH2V2Tile
  }

  /** The destination size `setOverlayInformation` means to compute, in exact
      arithmetic: the source size, scaled down (keeping the aspect ratio by integer
      division) to fit the framebuffer. `Destination` is the code's `uint32_t`
      computation, which equals this one whenever no product wraps
      (`DestinationAgrees`). */
  function FitToFramebuffer(w: int, h: int, fbWidth: nat, fbHeight: nat): (r: (int, int))
    requires w >= 0 && h >= 0
    ensures 0 <= r.0 <= w && 0 <= r.1 <= h
    ensures r.0 <= fbWidth && r.1 <= fbHeight
    ensures w <= fbWidth && h <= fbHeight ==> r == (w, h)
  {
    var (dw1, dh1) := if w > fbWidth then (fbWidth, ScaleDown(h, fbWidth, w)) else (w, h);
    if dh1 > fbHeight then
      assert h > 0;
      (ScaleDown(dw1, fbHeight, h), fbHeight)
    else (dw1, dh1)
  }

  /** `v * num / den` with `num <= den`: at most `v`. */
  function ScaleDown(v: nat, num: nat, den: nat): (r: nat)
    requires 0 < den && num <= den
    ensures r <= v && (num < den ==> (v > 0 ==> r < v) || v == 0)
  {
    MulLe(v, num, den);
    (v * num) / den
  }

  lemma MulLe(v: nat, num: nat, den: nat)
    requires 0 < den && num <= den
    ensures (v * num) / den <= v
    ensures num < den && v > 0 ==> (v * num) / den < v
  {
    assert v * num <= v * den;
    if num < den && v > 0 {
      assert v * num < v * den;
    }
  }

  lemma MulMono(a: nat, b: nat, c: nat)
    requires a <= b
    ensures a * c <= b * c
  {
  }

  /** `setOverlayInformation` for a buffer of `w` x `h` in MDP format `format`.
      Tiled buffers are padded to 64 x 32 tiles: with the rotator the padded size
      becomes the source size and the picture is cropped from the bottom-right
      corner, without it the crop is shrunk by the padding. */
  function SetOverlayInformation(c: Channel, w: i32, h: i32, format: MdpFormat, zorder: int,
                                 flags: set<OvFlag>, newRequest: bool): (r: Channel)
    ensures r.ov.orientation == 0 && r.ov.srcFormat == format
    ensures r.ov.srcRect.x == 0 || (IsTiled(format) && !c.noRot)
    // with the rotator, a tiled source is padded to whole tiles and the picture sits
    // at the bottom-right of the padding
    ensures IsTiled(format) && !c.noRot && w >= 1 && h >= 1 ==>
      && r.ov.src.width % 64 == 0 && r.ov.src.height % 32 == 0
      && r.ov.srcRect.x + r.ov.srcRect.w == r.ov.src.width && r.ov.srcRect.w == w
      && r.ov.srcRect.y + r.ov.srcRect.h == r.ov.src.height && r.ov.srcRect.h == h
      && r.ov.srcRect.x < 64 && r.ov.srcRect.y < 32
    ensures !IsTiled(format) && w >= 0 && h >= 0 ==>
      r.ov.src == Dim(w, h) && r.ov.srcRect == Rect(0, 0, w, h)
    // the destination is the fitted one, at the origin
    ensures r.ov.dstRect == Destination(w, h, c.fbWidth, c.fbHeight)
    ensures r.ov.dstRect.x == 0 && r.ov.dstRect.y == 0 && r.ov.dstRect.h <= c.fbHeight
    ensures c.fbWidth * c.fbHeight < U32 ==> r.ov.dstRect.w <= c.fbWidth
    ensures newRequest ==> r.ov.zOrder == zorder
    ensures !newRequest ==> r.ov.zOrder == c.ov.zOrder
    ensures r.ov.flags == SetInformationFromFlags(c.ov.(flags := {}), flags).flags
    ensures r == c.(ov := r.ov)
  {
    var (src, srcRect) :=
      if IsTiled(format) then TiledSource(w, h, c.noRot)
      else (Dim(Wrap(w), Wrap(h)), Rect(0, 0, Wrap(w), Wrap(h)));
    var ov := c.ov.(src := src, srcRect := srcRect, srcFormat := format,
                    dstRect := Destination(w, h, c.fbWidth, c.fbHeight),
                    orientation := 0, zOrder := if newRequest then zorder else c.ov.zOrder,
                    flags := {});
    c.(ov := SetInformationFromFlags(ov, flags))
  }

  /** The source of a tiled buffer of `w` x `h`, padded to 64 x 32 tiles. */
  function TiledSource(w: i32, h: i32, noRot: bool): (r: (Dim, Rect))
    ensures noRot ==> r.1.x == 0
    ensures !noRot && w >= 1 && h >= 1 ==>
      && r.0.width % 64 == 0 && r.0.height % 32 == 0
      && r.1.x + r.1.w == r.0.width && r.1.w == w
      && r.1.y + r.1.h == r.0.height && r.1.h == h
      && r.1.x < 64 && r.1.y < 32
  {
    if noRot then
      (Dim(Wrap(w), Wrap(h)), Rect(0, 0, Wrap(w - (AlignUp(w, 64) - w)), Wrap(h - (AlignUp(h, 32) - h))))
    else
      (Dim(Wrap(AlignUp(w, 64)), Wrap(AlignUp(h, 32))),
       Rect(Wrap(AlignUp(w, 64) - w), Wrap(AlignUp(h, 32) - h), Wrap(w), Wrap(h)))
  }

  /** The destination of `setOverlayInformation`, at the origin. `dst_w` and `dst_h`
      are `int`s, but every use meets the `uint32_t` framebuffer size: the tests, the
      products and the divisions (by `w` and `h` converted to `uint32_t`) are all
      unsigned, and the results land in `uint32_t` fields. So a negative size counts
      as a huge one and is clamped, and a product may wrap. */
  function Destination(w: i32, h: i32, fbWidth: u32, fbHeight: u32): (d: Rect)
    ensures d.x == 0 && d.y == 0
    ensures d.h <= fbHeight
    // every source size, negative ones included, gets a destination inside any
    // framebuffer whose area fits 32 bits
    ensures fbWidth * fbHeight < U32 ==> d.w <= fbWidth
  {
    var (dw, dh) :=
      if Wrap(w) > fbWidth then (fbWidth, MulDivU32(Wrap(h), fbWidth, Wrap(w)))
      else (Wrap(w), Wrap(h));
    if dh > fbHeight then
      HeightClampDivisor(w, h, fbWidth, fbHeight);
      WidthAfterHeightClamp(dw, Wrap(h), fbWidth, fbHeight);
      Rect(0, 0, MulDivU32(dw, fbHeight, Wrap(h)), fbHeight)
    else
      Rect(0, 0, dw, dh)
  }

  /** `v * num / den` on `uint32_t` operands: the product wraps, the quotient does not. */
  function MulDivU32(v: u32, num: u32, den: u32): (r: u32)
    requires den > 0
  {
    Wrap(v * num) / den
  }

  /** The height test of `Destination` passes only for a non-zero source height, and
      (for a framebuffer whose area fits 32 bits) only for one taller than the
      framebuffer. */
  lemma HeightClampDivisor(w: i32, h: i32, fbWidth: u32, fbHeight: u32)
    ensures var dh := if Wrap(w) > fbWidth then MulDivU32(Wrap(h), fbWidth, Wrap(w)) else Wrap(h);
      && (dh > fbHeight ==> Wrap(h) > 0)
      && (dh > fbHeight && fbWidth * fbHeight < U32 ==> Wrap(h) > fbHeight)
  {
    var hh := Wrap(h);
    if Wrap(w) > fbWidth {
      if hh == 0 {
        assert hh * fbWidth == 0;
      } else if hh <= fbHeight && fbWidth * fbHeight < U32 {
        MulMono(hh, fbHeight, fbWidth);
        assert hh * fbWidth == fbWidth * hh;
        MulLe(hh, fbWidth, Wrap(w));
      }
    }
  }

  /** Scaling a width at most the framebuffer's by `fbHeight / hh`, with `hh` above
      `fbHeight`, keeps it within the framebuffer. */
  lemma WidthAfterHeightClamp(dw: u32, hh: u32, fbWidth: u32, fbHeight: u32)
    requires hh > 0
    ensures fbWidth * fbHeight < U32 && dw <= fbWidth && hh > fbHeight ==>
      MulDivU32(dw, fbHeight, hh) <= fbWidth
  {
    if fbWidth * fbHeight < U32 && dw <= fbWidth && hh > fbHeight {
      MulMono(dw, fbWidth, fbHeight);
      MulLe(dw, fbHeight, hh);
    }
  }

  /** Whenever no product of `Destination` wraps, the code computes exactly the
      intended fit of `FitToFramebuffer`: the destination fits the framebuffer, is no
      larger than the source, and a source that fits is kept. */
  lemma DestinationAgrees(w: i32, h: i32, fbWidth: u32, fbHeight: u32)
    requires w >= 0 && h >= 0
    requires h * fbWidth < U32 && fbWidth * fbHeight < U32
    ensures var (dw, dh) := FitToFramebuffer(w, h, fbWidth, fbHeight);
      Destination(w, h, fbWidth, fbHeight) == Rect(0, 0, dw, dh)
  {
    if w > fbWidth {
      var dh1 := ScaleDown(h, fbWidth, w);
      assert MulDivU32(h, fbWidth, w) == dh1;
      if dh1 > fbHeight {
        assert MulDivU32(fbWidth, fbHeight, h) == ScaleDown(fbWidth, fbHeight, h);
      }
    } else if h > fbHeight {
      MulMono(w, fbWidth, fbHeight);
      assert MulDivU32(w, fbHeight, h) == ScaleDown(w, fbHeight, h);
    }
  }

  /** A negative width is clamped as a huge one: on a 1920 x 1080 framebuffer a
      -1 x 2000 source gets the full width and a height of 2000 * 1920 / (2^32 - 1),
      which is 0. */
  lemma NegativeWidthClamped()
    ensures Destination(-1, 2000, 1920, 1080) == Rect(0, 0, 1920, 0)
  {
  }

  // ---------------------------------------------------------------------------
  // Rotator downscale control
  // ---------------------------------------------------------------------------

  /** What `rotatorDownscaleControl` leaves behind: its verdict, the new
      `mRotDscaleAdj`, and the overlay and rotator configurations it was handed. */
  datatype DscaleResult = DscaleResult(ok: bool, adj: Shift, ov: OvInfo, rot: RotInfo)

  /** `rotatorDownscaleControl`: picks the rotator downscale (none for the UI
      mirroring channel), enables the rotator when it has to turn or shrink the
      picture, rounds the rotator crop height down to a multiple of 16 for one-eighth
      downscaling, and starts the rotator. A failed start disables the rotator and
      resets the downscale. */
  function RotatorDownscaleControl(c: Channel, srcW: i32, srcH: i32, dstW: i32, dstH: i32,
                                   ov: OvInfo, rot: RotInfo, dev: Device): (r: DscaleResult)
    ensures c.noRot ==> r == DscaleResult(true, c.dscaleAdj, ov, rot)
    ensures r.ok <==> c.noRot || dev.rotatorStartOk
    ensures !c.noRot && r.ok ==>
      && r.adj == (if c.uiChannel then DscaleNone
                   else RotatorDownscaleCheck(c.fbNum, c.noRot, srcW, srcH, dstW, dstH))
      && r.rot.downscaleRatio == r.adj
      && (r.rot.enable <==> ov.orientation != 0 || c.uiChannel || r.adj != DscaleNone)
      && r.ov == ov.(srcFormat := if r.rot.enable then rot.dstFormat else rot.srcFormat)
    ensures !c.noRot && !r.ok ==>
      r.adj == DscaleNone && !r.rot.enable && r.rot.downscaleRatio == DscaleNone && r.ov == ov
    // the rotator crop height: a multiple of 16 for one-eighth, otherwise untouched
    ensures !c.noRot ==>
      && r.rot.srcRect == rot.srcRect.(h := r.rot.srcRect.h)
      && r.rot.srcRect.h <= rot.srcRect.h < r.rot.srcRect.h + 16
      && (r.ok && r.adj == DscaleEighth ==> r.rot.srcRect.h % 16 == 0)
      && (r.ok && r.adj != DscaleEighth ==> r.rot.srcRect.h == rot.srcRect.h)
    ensures !c.noRot ==> r.rot == rot.(enable := r.rot.enable, downscaleRatio := r.rot.downscaleRatio,
                                        srcRect := r.rot.srcRect)
  {
    if c.noRot then DscaleResult(true, c.dscaleAdj, ov, rot)
    else
      var adj := if c.uiChannel then DscaleNone
                 else RotatorDownscaleCheck(c.fbNum, c.noRot, srcW, srcH, dstW, dstH);
      var rot1 := rot.(downscaleRatio := adj, enable := ov.orientation != 0 || c.uiChannel || adj != 0);
      var rot2 := if adj == DscaleEighth && rot1.srcRect.h % 16 != 0
                  then rot1.(srcRect := rot1.srcRect.(h := rot1.srcRect.h - rot1.srcRect.h % 16))
                  else rot1;
      if !dev.rotatorStartOk then
        DscaleResult(false, DscaleNone, ov, rot2.(enable := false, downscaleRatio := DscaleNone))
      else
        DscaleResult(true, adj, ov.(srcFormat := if rot2.enable then rot2.dstFormat else rot2.srcFormat), rot2)
  }

  // ---------------------------------------------------------------------------
  // setPosition
  // ---------------------------------------------------------------------------

  /** `(len << adj) * HW_OVERLAY_MAGNIFICATION_LIMIT` in `uint32_t`: the longest
      destination allowed for a source length `len` stored shifted down by `adj`. */
  function MagLimit(len: u32, adj: Shift): (r: u32)
    ensures len * Scale(adj) * MagnificationLimit < U32 ==> r == len * Scale(adj) * MagnificationLimit
  {
    Wrap(Wrap(len * Scale(adj)) * MagnificationLimit)
  }

  /** The argument check of `setPosition` as written: `x + w` and `y + h` are
      `uint32_t` sums. */
  predicate PositionAccepted(c: Channel, x: i32, y: i32, w: u32, h: u32)
  {
    c.up && x >= 0 && y >= 0 && Wrap(x + w) <= c.fbWidth && Wrap(y + h) <= c.fbHeight
  }

  /** The check `setPosition` is meant to make: the rectangle lies in the framebuffer. */
  predicate PositionInside(c: Channel, x: i32, y: i32, w: u32, h: u32)
  {
    c.up && x >= 0 && y >= 0 && x + w <= c.fbWidth && y + h <= c.fbHeight
  }

  /** The destination is already `(x, y, w, h)`. */
  predicate SameDst(c: Channel, x: int, y: int, w: u32, h: u32)
  {
    c.ov.dstRect.x == x && c.ov.dstRect.y == y && c.ov.dstRect.w == w && c.ov.dstRect.h == h
  }

  /** One axis of the magnification clamp of `setPosition`: a length over the limit
      becomes the limit, centred on the framebuffer axis of length `fb`. */
  function ClampAxis(pos: nat, len: u32, lim: u32, fb: u32): (r: (nat, u32))
    requires pos < 0x8000_0000
    ensures r.0 < 0x8000_0000 && r.1 <= len && r.1 <= lim
    ensures len <= lim ==> r == (pos, len)
    ensures len > lim ==> r.1 == lim && r.0 == Wrap(fb - lim) / 2
    ensures pos + len <= fb ==> r.0 + r.1 <= fb
  {
    if len > lim then (Wrap(fb - lim) / 2, lim) else (pos, len)
  }

  /** The body of `setPosition` once the arguments are accepted: limits the
      magnification to 8 (recentring a clamped axis), re-checks the rotator
      downscale for the new destination and programs the overlay. The source crop is
      kept, re-expressed for the new downscale. */
  function PlacePosition(c: Channel, x: nat, y: nat, w: u32, h: u32, dev: Device): (r: (bool, Channel))
    requires x < 0x8000_0000 && y < 0x8000_0000
    ensures SameDst(c, x, y, w, h) ==> r == (true, c)
    ensures r.0 <==> SameDst(c, x, y, w, h) || ((c.noRot || dev.rotatorStartOk) && dev.overlaySetOk)
    // a failed attempt changes nothing but the downscale shift
    ensures !r.0 ==> r.1 == c.(dscaleAdj := r.1.dscaleAdj)
    // the destination is the request, with an over-magnified axis clamped and centred
    ensures r.0 && !SameDst(c, x, y, w, h) ==>
      var d := r.1.ov.dstRect;
      && (d.x, d.w) == ClampAxis(x, w, MagLimit(c.ov.srcRect.w, c.dscaleAdj), c.fbWidth)
      && (d.y, d.h) == ClampAxis(y, h, MagLimit(c.ov.srcRect.h, c.dscaleAdj), c.fbHeight)
    ensures r.0 ==> r.1.ov.dstRect.w <= w && r.1.ov.dstRect.h <= h
    // a destination inside the framebuffer stays inside after clamping
    ensures r.0 && x + w <= c.fbWidth ==> r.1.ov.dstRect.x + r.1.ov.dstRect.w <= c.fbWidth
    ensures r.0 && y + h <= c.fbHeight ==> r.1.ov.dstRect.y + r.1.ov.dstRect.h <= c.fbHeight
    // moving the destination does not move the source crop
    ensures r.0 && r.1.dscaleAdj == c.dscaleAdj && FitsShift(c.ov.srcRect, c.dscaleAdj) ==>
      r.1.ov.srcRect == c.ov.srcRect
    ensures r.1.ov.src == c.ov.src && r.1.ov.orientation == c.ov.orientation
  {
    if SameDst(c, x, y, w, h) then (true, c)
    else
      var (x1, w1) := ClampAxis(x, w, MagLimit(c.ov.srcRect.w, c.dscaleAdj), c.fbWidth);
      var (y1, h1) := ClampAxis(y, h, MagLimit(c.ov.srcRect.h, c.dscaleAdj), c.fbHeight);
      ProgramOverlay(c, c.ov.(dstRect := Rect(x1, y1, w1, h1)), dev)
  }

  /** The tail `setPosition` shares with the other reconfigurations: the crop shift is
      undone, the rotator downscale re-checked for the crop and the destination of
      `ov`, the crop shifted by the new amount, and the overlay set. */
  function ProgramOverlay(c: Channel, ov: OvInfo, dev: Device): (r: (bool, Channel))
    requires ov.srcRect == c.ov.srcRect
    ensures r.0 <==> (c.noRot || dev.rotatorStartOk) && dev.overlaySetOk
    ensures !r.0 ==> r.1 == c.(dscaleAdj := r.1.dscaleAdj)
    ensures r.0 ==> r.1.ov.dstRect == ov.dstRect && r.1.ov.src == ov.src &&
                    r.1.ov.orientation == ov.orientation
    ensures r.0 && r.1.dscaleAdj == c.dscaleAdj && FitsShift(c.ov.srcRect, c.dscaleAdj) ==>
      r.1.ov.srcRect == c.ov.srcRect
    ensures !r.0 ==> r.1.ov == c.ov
  {
    var src := ResetAdjustRect(ov.srcRect, c.dscaleAdj);
    var ov1 := ov.(srcRect := src);
    var d := RotatorDownscaleControl(c, ToI32(src.w), ToI32(src.h), ToI32(ov.dstRect.w), ToI32(ov.dstRect.h),
                                     ov1, c.rot, dev);
    var c1 := c.(dscaleAdj := d.adj);
    if !d.ok || !dev.overlaySetOk then (false, c1)
    else
      ShiftRoundTripWhen(ov.srcRect, c.dscaleAdj, d.adj);
      (true, c1.(ov := d.ov.(srcRect := AdjustRect(d.ov.srcRect, d.adj)), rot := d.rot))
  }

  /** Undoing a shift and applying the same shift again restores a crop that fits. */
  lemma ShiftRoundTripWhen(r: Rect, before: Shift, after: Shift)
    ensures before == after && FitsShift(r, before) ==> AdjustRect(ResetAdjustRect(r, before), after) == r
  {
    if before == after && FitsShift(r, before) {
      AdjustAfterReset(r, before);
    }
  }

  /** `OverlayControlChannel::setPosition` as written. Because the bound check sums
      in `uint32_t`, a width close to 2^32 passes it. */
  function SetPosition(c: Channel, x: i32, y: i32, w: u32, h: u32, dev: Device): (r: (bool, Channel))
    ensures !PositionAccepted(c, x, y, w, h) ==> r == (false, c)
    ensures r.0 <==> PositionAccepted(c, x, y, w, h) &&
                     (SameDst(c, x, y, w, h) || ((c.noRot || dev.rotatorStartOk) && dev.overlaySetOk))
    ensures !r.0 ==> r.1 == c.(dscaleAdj := r.1.dscaleAdj)
    ensures r.0 ==> r.1.ov.dstRect.w <= w && r.1.ov.dstRect.h <= h
    // inside the framebuffer only when the sums did not wrap
    ensures r.0 && x + w < U32 && y + h < U32 ==>
      r.1.ov.dstRect.x + r.1.ov.dstRect.w <= c.fbWidth && r.1.ov.dstRect.y + r.1.ov.dstRect.h <= c.fbHeight
  {
    if !PositionAccepted(c, x, y, w, h) then (false, c)
    else PlacePosition(c, x, y, w, h, dev)
  }

  /** `setPosition` with the bound check on the true sums: every accepted
      destination lies inside the framebuffer. */
  function SetPositionChecked(c: Channel, x: i32, y: i32, w: u32, h: u32, dev: Device): (r: (bool, Channel))
    ensures !PositionInside(c, x, y, w, h) ==> r == (false, c)
    ensures r.0 <==> PositionInside(c, x, y, w, h) &&
                     (SameDst(c, x, y, w, h) || ((c.noRot || dev.rotatorStartOk) && dev.overlaySetOk))
    ensures !r.0 ==> r.1 == c.(dscaleAdj := r.1.dscaleAdj)
    ensures r.0 ==>
      r.1.ov.dstRect.x + r.1.ov.dstRect.w <= c.fbWidth && r.1.ov.dstRect.y + r.1.ov.dstRect.h <= c.fbHeight
  {
    if !PositionInside(c, x, y, w, h) then (false, c)
    else PlacePosition(c, x, y, w, h, dev)
  }

  /** The two checks agree whenever the sums do not wrap. */
  lemma PositionChecksAgree(c: Channel, x: i32, y: i32, w: u32, h: u32, dev: Device)
    requires x + w < U32 && y + h < U32
    ensures SetPosition(c, x, y, w, h, dev) == SetPositionChecked(c, x, y, w, h, dev)
  {
  }

  /** A channel showing a 640 x 480 crop on a 1920 x 1080 framebuffer. */
  function SampleChannel(): (c: Channel)
    ensures c.up && c.noRot && c.fbWidth == 1920 && c.fbHeight == 1080
  {
    var ov := OvInfo(Dim(640, 480), MdpRgb565, Rect(0, 0, 640, 480), Rect(0, 0, 0, 0), 0, {}, false, 0);
    var rot := RotInfo(false, 0, Rect(0, 0, 640, 480), Dim(640, 480), 0, MdpRgb565, MdpRgb565);
    Channel(true, true, false, Framebuffer0Num, 1920, 1080, ov, rot, 0, false)
  }

  const Framebuffer0Num := 0

  /** With `x = 1` and `w = 2^32 - 1` the wrapped sum is 0, so `setPosition` accepts a
      destination that starts two gigapixels to the right of a 1920-wide framebuffer;
      the checked version refuses it. */
  lemma SetPositionWrapEscapes()
    ensures var c := SampleChannel();
      var r := SetPosition(c, 1, 0, 0xFFFF_FFFF, 1080, Device(true, true));
      && r.0
      && r.1.ov.dstRect.x == 2147482048 && r.1.ov.dstRect.w == 5120
      && r.1.ov.dstRect.x + r.1.ov.dstRect.w > c.fbWidth
      && !SetPositionChecked(c, 1, 0, 0xFFFF_FFFF, 1080, Device(true, true)).0
  {
  }

  // ---------------------------------------------------------------------------
  // setCrop
  // ---------------------------------------------------------------------------

  /** `normalize_crop` on both axes. */
  function NormalizeRect(r: Rect): (n: Rect)
    ensures n.x % 2 == 0 && n.y % 2 == 0 && n.w % 2 == 0 && n.h % 2 == 0
    ensures r.x % 2 == 0 && r.y % 2 == 0 && r.w % 2 == 0 && r.h % 2 == 0 ==> n == r
  {
    var (x, w) := NormalizeCrop(r.x, r.w);
    var (y, h) := NormalizeCrop(r.y, r.h);
    Rect(x, y, w, h)
  }

  /** The bound check `setCrop` makes before remapping, with `uint32_t` sums: the
      crop must fit the axis of the stored buffer it is reflected against. */
  predicate CropFits(t: Turn, s: Dim, x: u32, y: u32, w: u32, h: u32)
  {
    match t
    case Upright => true
    case Quarter => s.width >= AddU32(y, h)
    case Half => s.height >= AddU32(y, h) && s.width >= AddU32(x, w)
    case ThreeQuarter => s.height >= AddU32(x, w)
  }

  /** `OverlayControlChannel::setCrop`: `(x, y, w, h)` is a crop of the upright picture.
      It is mapped into the stored (rotated) buffer, made even, compared with the
      current crop, and programmed after the rotator downscale is re-checked; the
      destination is then shrunk so that magnification stays within 8. */
  function SetCrop(c: Channel, x: u32, y: u32, w: u32, h: u32, dev: Device): (r: (bool, Channel))
    ensures !c.up || !CropFits(TurnOf(c.ov.orientation), c.ov.src, x, y, w, h) ==> r == (false, c)
    ensures !r.0 ==> r.1 == c.(dscaleAdj := r.1.dscaleAdj)
    ensures r.1.ov.src == c.ov.src && r.1.ov.orientation == c.ov.orientation
    // a programmed crop is even, and the destination magnifies it at most 8 times
    ensures r.0 && r.1 != c ==>
      var s := r.1.ov.srcRect;
      && s.x % 2 == 0 && s.y % 2 == 0 && s.w % 2 == 0 && s.h % 2 == 0
      && r.1.ov.dstRect.w <= Wrap(s.w * MagnificationLimit)
      && r.1.ov.dstRect.h <= Wrap(s.h * MagnificationLimit)
    // without downscaling, the programmed crop is the request seen in the stored buffer
    ensures r.0 && c.dscaleAdj == DscaleNone && r.1.dscaleAdj == DscaleNone ==>
      r.1.ov.srcRect == NormalizeRect(ToStored(TurnOf(c.ov.orientation), c.ov.src, Rect(x, y, w, h)))
  {
    var t := TurnOf(c.ov.orientation);
    if !c.up || !CropFits(t, c.ov.src, x, y, w, h) then (false, c)
    else
      var n := NormalizeRect(ToStored(t, c.ov.src, Rect(x, y, w, h)));
      if ResetAdjustRect(c.ov.srcRect, c.dscaleAdj) == n then (true, c)
      else ProgramCrop(c, n, dev)
  }

  /** The part of `setCrop` after the comparison: re-checks the rotator downscale
      for the current crop, shifts the new (even) crop `n` by the new amount, makes
      it even again, limits the magnification and sets the overlay. */
  function ProgramCrop(c: Channel, n: Rect, dev: Device): (r: (bool, Channel))
    requires n.x % 2 == 0 && n.y % 2 == 0 && n.w % 2 == 0 && n.h % 2 == 0
    ensures r.0 <==> (c.noRot || dev.rotatorStartOk) && dev.overlaySetOk
    ensures !r.0 ==> r.1 == c.(dscaleAdj := r.1.dscaleAdj)
    ensures r.1.ov.src == c.ov.src && r.1.ov.orientation == c.ov.orientation
    ensures r.0 ==> r.1.ov.srcRect == NormalizeRect(AdjustRect(n, r.1.dscaleAdj))
    ensures r.0 ==> r.1.ov.dstRect == LimitMagnification(c.ov.dstRect, r.1.ov.srcRect)
  {
    var cur := ResetAdjustRect(c.ov.srcRect, c.dscaleAdj);
    var d := RotatorDownscaleControl(c, ToI32(cur.w), ToI32(cur.h),
                                     ToI32(c.ov.dstRect.w), ToI32(c.ov.dstRect.h),
                                     c.ov.(srcRect := cur), c.rot, dev);
    var c1 := c.(dscaleAdj := d.adj);
    if !d.ok || !dev.overlaySetOk then (false, c1)
    else
      var s := NormalizeRect(AdjustRect(n, d.adj));
      (true, c1.(ov := d.ov.(srcRect := s, dstRect := LimitMagnification(d.ov.dstRect, s)), rot := d.rot))
  }

  /** The magnification limit of `setCrop`: a destination side longer than 8 times
      the crop side (a `uint32_t` product) is cut to that product. */
  function LimitMagnification(dst: Rect, s: Rect): (d: Rect)
    ensures d.w <= Wrap(s.w * MagnificationLimit) && d.h <= Wrap(s.h * MagnificationLimit)
    ensures d.w <= dst.w && d.h <= dst.h
    ensures dst.w <= Wrap(s.w * MagnificationLimit) && dst.h <= Wrap(s.h * MagnificationLimit) ==> d == dst
    ensures d.x == dst.x && d.y == dst.y
  {
    var dw := if dst.w > Wrap(s.w * MagnificationLimit) then Wrap(MagnificationLimit * s.w) else dst.w;
    var dh := if dst.h > Wrap(s.h * MagnificationLimit) then Wrap(MagnificationLimit * s.h) else dst.h;
    dst.(w := dw, h := dh)
  }

  /** For an even crop that fits, without downscaling, the crop `setCrop` programs
      maps back to exactly the requested upright crop. */
  lemma SetCropRecoversUpright(c: Channel, x: u32, y: u32, w: u32, h: u32, dev: Device)
    requires x % 2 == 0 && y % 2 == 0 && w % 2 == 0 && h % 2 == 0
    requires c.ov.src.width % 2 == 0 && c.ov.src.height % 2 == 0
    requires x + w < U32 && y + h < U32
    requires c.dscaleAdj == DscaleNone
    ensures var r := SetCrop(c, x, y, w, h, dev);
      r.0 && r.1.dscaleAdj == DscaleNone ==>
        FromStored(TurnOf(c.ov.orientation), c.ov.src, r.1.ov.srcRect) == Rect(x, y, w, h)
  {
    var t := TurnOf(c.ov.orientation);
    var m := ToStored(t, c.ov.src, Rect(x, y, w, h));
    if c.up && CropFits(t, c.ov.src, x, y, w, h) {
      StoredEven(t, c.ov.src, Rect(x, y, w, h));
      assert NormalizeRect(m) == m;
      StoredRoundTrip(t, c.ov.src, Rect(x, y, w, h), m);
    }
  }

  // ---------------------------------------------------------------------------
  // swapOVRotWidthHeight
  // ---------------------------------------------------------------------------

  /** `swapOVRotWidthHeight`: exchanges width and height of the source buffer, of the
      source crop and of the rotator output. */
  function SwapOvRotWidthHeight(c: Channel): (r: Channel)
    ensures r.ov.src == SwapDim(c.ov.src) && r.rot.dst == SwapDim(c.rot.dst)
    ensures r.ov.srcRect.w == c.ov.srcRect.h && r.ov.srcRect.h == c.ov.srcRect.w
    ensures r.ov.srcRect.x == c.ov.srcRect.x && r.ov.srcRect.y == c.ov.srcRect.y
    ensures r == c.(ov := c.ov.(src := r.ov.src, srcRect := r.ov.srcRect), rot := c.rot.(dst := r.rot.dst))
  {
    var ov := c.ov.(src := Dim(c.ov.src.height, c.ov.src.width),
                    srcRect := c.ov.srcRect.(w := c.ov.srcRect.h, h := c.ov.srcRect.w));
    c.(ov := ov, rot := c.rot.(dst := Dim(c.rot.dst.height, c.rot.dst.width)))
  }

  /** Swapping twice restores the channel. */
  lemma SwapOvRotWidthHeightInvolution(c: Channel)
    ensures SwapOvRotWidthHeight(SwapOvRotWidthHeight(c)) == c
  {
  }
}
