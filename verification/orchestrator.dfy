/** The `Overlay` object: it decides the display configuration (panel or TV, 2D or
    stereo) and fans each request out to its two control channels (VG0 and VG1). */
module Orchestrator {
  import opened Common
  import opened Formats
  import opened Geometry
  import opened Control
  import opened ZOrder

  /** The overlay configurations `getOverlayConfig` chooses between, and the UI
      mirroring state; `Unset` is `mState == -1`. */
  datatype OvState =
    | UiMirrorTv | Video2DOnPanel | Video3D2DPanel | Video3D3DPanel
    | Video2DOnTv | Video3D2DTv | Video3D3DTv | Unset
  {
    /** The configuration drives the external (HDMI) display. */
    predicate OnTv() { this in {UiMirrorTv, Video2DOnTv, Video3D2DTv, Video3D3DTv} }
    /** The content is stereoscopic. */
    predicate Stereo() { this in {Video3D2DPanel, Video3D3DPanel, Video3D2DTv, Video3D3DTv} }
    /** The stereo content is shown in 3D. */
    predicate Shows3D() { this in {Video3D3DPanel, Video3D3DTv} }
  }

  /** What the device queries `isHDMIConnected`, `is3DTV` and `usePanel3D` report. */
  datatype Probe = Probe(hdmiConnected: bool, tv3D: bool, panel3D: bool)

  /** `getOverlayConfig`: the video configuration for a content whose stereo bits are
      `format3D`. With `poll`, the HDMI state comes from the probe instead of `isHDMI`. */
  function GetOverlayConfig(format3D: u32, poll: bool, isHDMI: bool, probe: Probe): (s: OvState)
    ensures s != UiMirrorTv && s != Unset
    ensures s.OnTv() <==> (if poll then probe.hdmiConnected else isHDMI)
    ensures s.Stereo() <==> format3D != 0
    ensures s.Shows3D() <==> format3D != 0 && (if s.OnTv() then probe.tv3D else probe.panel3D)
  {
    var hdmi := if poll then probe.hdmiConnected else isHDMI;
    if hdmi then
      if format3D != 0 then (if probe.tv3D then Video3D3DTv else Video3D2DTv)
      else Video2DOnTv
    else
      if format3D != 0 then (if probe.panel3D then Video3D3DPanel else Video3D2DPanel)
      else Video2DOnPanel
  }

  /** The configuration is determined by the three facts it is chosen from: where the
      video goes, whether it is stereo, and whether stereo is shown in 3D. */
  lemma OverlayConfigDetermined(s: OvState, t: OvState)
    requires s != UiMirrorTv && s != Unset && t != UiMirrorTv && t != Unset
    requires s.OnTv() == t.OnTv() && s.Stereo() == t.Stereo() && s.Shows3D() == t.Shows3D()
    ensures s == t
  {
  }

  /** The `Overlay` state `setCrop` uses: `mChannelUP`, `mState`, `mS3DFormat`, the
      two control channels and the last requested crop size. */
  datatype Overlay = Overlay(up: bool, state: OvState, s3dFormat: bv32, channels: seq<Channel>,
                             croppedWidth: u32, croppedHeight: u32)

  /** The crop channel `i` is asked for by `Overlay::setCrop` in state `st`, if any.
      Stereo configurations extract the channel's half of the frame; the stereo
      configurations that drive both pipes with one half use the VG0 half. `prev` is
      the output rectangle before the first extraction (left as it was when the input
      layout is not recognised), and the second extraction starts from the first. */
  function CropRequest(st: OvState, fmt: bv32, i: int, inRect: Rect, prev: Rect): (q: Option<Rect>)
    requires i == 0 || i == 1
    ensures st in {UiMirrorTv, Video2DOnPanel, Video3D2DPanel, Unset} && i == 1 ==> q.None?
    ensures st == Unset ==> q.None?
    // the 2D configurations ask VG0 (and on the TV both pipes) for the whole frame
    ensures st in {UiMirrorTv, Video2DOnPanel, Video2DOnTv} && (i == 0 || st == Video2DOnTv) ==>
      q == Some(inRect)
    ensures st in {UiMirrorTv, Video2DOnPanel, Video2DOnTv} && q.Some? ==> q.value == inRect
    // every stereo configuration asks VG0, and all but 3D-on-the-2D-panel ask VG1
    ensures st.Stereo() && (i == 0 || st != Video3D2DPanel) ==> q.Some?
    // 3D content shown in 2D uses the VG0 half
    ensures st in {Video3D2DPanel, Video3D2DTv} && q.Some? ==> q.value == GetCropS3D(inRect, 0, fmt, prev)
    // for a recognised input layout every stereo request lies inside the frame
    ensures st.Stereo() && q.Some? && fmt & 0xFFFF_0000 in {In3DSideBySideLR, In3DSideBySideRL, In3DTopBottom} ==>
      q.value.x + q.value.w <= inRect.w && q.value.y + q.value.h <= inRect.h
  {
    var first := GetCropS3D(inRect, 0, fmt, prev);
    match st
    case UiMirrorTv => if i == 0 then Some(inRect) else None
    case Video2DOnPanel => if i == 0 then Some(inRect) else None
    case Video3D2DPanel => if i == 0 then Some(first) else None
    case Video2DOnTv => Some(inRect)
    case Video3D2DTv => Some(first)
    case Video3D3DPanel => Some(if i == 0 then first else GetCropS3D(inRect, 1, fmt, first))
    case Video3D3DTv => Some(if i == 0 then first else GetCropS3D(inRect, 1, fmt, first))
    case Unset => None
  }

  /** In a 3D configuration with a side-by-side or top-bottom input, the two pipes get
      the two halves of the frame, one next to (or below) the other and of equal size. */
  lemma StereoHalvesTile(st: OvState, fmt: bv32, inRect: Rect, prev: Rect)
    requires st.Shows3D()
    requires fmt & 0xFFFF_0000 in {In3DSideBySideLR, In3DSideBySideRL, In3DTopBottom}
    ensures var q0 := CropRequest(st, fmt, 0, inRect, prev).value;
            var q1 := CropRequest(st, fmt, 1, inRect, prev).value;
      && q0.w == q1.w && q0.h == q1.h
      && (fmt & 0xFFFF_0000 == In3DSideBySideLR ==> q0.y == q1.y && q0.x + q0.w == q1.x)
      && (fmt & 0xFFFF_0000 == In3DSideBySideRL ==> q1.y == q0.y && q1.x + q1.w == q0.x)
      && (fmt & 0xFFFF_0000 == In3DTopBottom ==> q0.x == q1.x && q0.y + q0.h == q1.y)
  {
    var first := GetCropS3D(inRect, 0, fmt, prev);
    assert GetCropS3D(inRect, 1, fmt, first) == GetCropS3D(inRect, 1, fmt, prev);
  }

  /** Crops channel `i` of `chans` as requested, if a request is made. */
  function CropChannel(chans: seq<Channel>, i: nat, q: Option<Rect>, dev: Device): (r: (bool, seq<Channel>))
    requires i < |chans|
    ensures |r.1| == |chans|
    ensures q.None? ==> r == (true, chans)
    ensures q.Some? ==> r.0 == SetCrop(chans[i], q.value.x, q.value.y, q.value.w, q.value.h, dev).0
    ensures q.Some? ==> r.1 == chans[i := SetCrop(chans[i], q.value.x, q.value.y, q.value.w, q.value.h, dev).1]
  {
    match q
    case None => (true, chans)
    case Some(c) =>
      var (ok, ch) := SetCrop(chans[i], c.x, c.y, c.w, c.h, dev);
      (ok, chans[i := ch])
  }

  /** `Overlay::setCrop`: records the requested size and sends each pipe its crop,
      VG0 first, stopping at the first pipe that refuses. `dev0` and `dev1` are the
      driver outcomes for the two pipes. */
  function OverlaySetCrop(o: Overlay, x: u32, y: u32, w: u32, h: u32, prev: Rect, dev0: Device, dev1: Device)
    : (r: (bool, Overlay))
    requires |o.channels| == NumChannels
    ensures !o.up ==> r == (false, o)
    ensures o.up ==> r.1.croppedWidth == w && r.1.croppedHeight == h
    ensures r.1 == o.(channels := r.1.channels, croppedWidth := r.1.croppedWidth,
                      croppedHeight := r.1.croppedHeight)
    ensures |r.1.channels| == NumChannels
    // every pipe that is asked and answers is cropped as its request says; a pipe
    // after a refusing one is not asked
    ensures o.up ==>
      var q0 := CropRequest(o.state, o.s3dFormat, 0, Rect(x, y, w, h), prev);
      var q1 := CropRequest(o.state, o.s3dFormat, 1, Rect(x, y, w, h), prev);
      var a0 := CropChannel(o.channels, 0, q0, dev0);
      && (!a0.0 ==> r == (false, o.(croppedWidth := w, croppedHeight := h, channels := a0.1)))
      && (a0.0 ==> r.1.channels == CropChannel(a0.1, 1, q1, dev1).1 &&
                   r.0 == CropChannel(a0.1, 1, q1, dev1).0)
    // configurations that use only VG0 leave VG1 alone
    ensures o.state in {UiMirrorTv, Video2DOnPanel, Video3D2DPanel, Unset} ==> r.1.channels[1] == o.channels[1]
  {
    if !o.up then (false, o)
    else
      var inRect := Rect(x, y, w, h);
      var o1 := o.(croppedWidth := w, croppedHeight := h);
      var (ok0, c0) := CropChannel(o.channels, 0, CropRequest(o.state, o.s3dFormat, 0, inRect, prev), dev0);
      if !ok0 then (false, o1.(channels := c0))
      else
        var (ok1, c1) := CropChannel(c0, 1, CropRequest(o.state, o.s3dFormat, 1, inRect, prev), dev1);
        (ok1, o1.(channels := c1))
  }

  /** When both pipes drive the same picture in the same way (2D video on a TV, or the
      left view of a stereo video on a 2D TV), identically configured pipes end up
      identically configured. */
  lemma TvPipesCroppedAlike(o: Overlay, x: u32, y: u32, w: u32, h: u32, prev: Rect, dev: Device)
    requires |o.channels| == NumChannels && o.up
    requires o.state in {Video2DOnTv, Video3D2DTv}
    requires o.channels[0] == o.channels[1]
    ensures var r := OverlaySetCrop(o, x, y, w, h, prev, dev, dev);
      r.0 ==> r.1.channels[0] == r.1.channels[1]
  {
  }
}
