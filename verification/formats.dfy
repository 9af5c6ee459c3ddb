/** Pixel-format and orientation translation between the Android HAL and the MDP
    (display processor) driver, and the stereoscopic (S3D) part of a format word. */
module Formats {
  import opened Common

  /** The HAL colour formats the overlay understands; any other code is `OtherColor`. */
  datatype HalColor =
    | HalRgba8888 | HalBgra8888 | HalRgb565 | HalRgb888 | HalRgbx8888
    | HalYCbCr422Sp | HalYCrCb422Sp | HalYCbCr420Sp | HalYCrCb420Sp
    | HalYCbCr420SpTiled | HalYV12 | HalYCbCr444Sp | HalYCrCb444Sp
    | OtherColor

  /** MDP image types. `MdpYCrCbH2V2Tile` is never produced by the HAL mapping but is
      tested for when tile alignment is decided. */
  datatype MdpFormat =
    | MdpRgba8888 | MdpBgra8888 | MdpRgb565 | MdpRgb888 | MdpRgbx8888
    | MdpYCbCrH2V1 | MdpYCrCbH2V1 | MdpYCbCrH2V2 | MdpYCrCbH2V2
    | MdpYCbCrH2V2Tile | MdpYCrCbH2V2Tile | MdpYCrCbGH2V2 | MdpYCbCrH1V1 | MdpYCrCbH1V1

  /** The HAL colour a given MDP type stands for, if any: the reference table that
      `GetMdpFormat` must agree with. */
  function HalOf(m: MdpFormat): (c: Option<HalColor>)
  {
    match m
    case MdpRgba8888 => Some(HalRgba8888)
    case MdpBgra8888 => Some(HalBgra8888)
    case MdpRgb565 => Some(HalRgb565)
    case MdpRgb888 => Some(HalRgb888)
    case MdpRgbx8888 => Some(HalRgbx8888)
    case MdpYCbCrH2V1 => Some(HalYCbCr422Sp)
    case MdpYCrCbH2V1 => Some(HalYCrCb422Sp)
    case MdpYCbCrH2V2 => Some(HalYCbCr420Sp)
    case MdpYCrCbH2V2 => Some(HalYCrCb420Sp)
    case MdpYCbCrH2V2Tile => Some(HalYCbCr420SpTiled)
    case MdpYCrCbH2V2Tile => None
    case MdpYCrCbGH2V2 => Some(HalYV12)
    case MdpYCbCrH1V1 => Some(HalYCbCr444Sp)
    case MdpYCrCbH1V1 => Some(HalYCrCb444Sp)
  }

  /** `get_mdp_format`: `None` models the `-1` returned for an unknown colour. */
  function GetMdpFormat(c: HalColor): (r: Option<MdpFormat>)
    ensures r.None? <==> c.OtherColor?
    ensures r.Some? ==> HalOf(r.value) == Some(c)
  {
    match c
    case HalRgba8888 => Some(MdpRgba8888)
    case HalBgra8888 => Some(MdpBgra8888)
    case HalRgb565 => Some(MdpRgb565)
    case HalRgb888 => Some(MdpRgb888)
    case HalRgbx8888 => Some(MdpRgbx8888)
    case HalYCbCr422Sp => Some(MdpYCbCrH2V1)
    case HalYCrCb422Sp => Some(MdpYCrCbH2V1)
    case HalYCbCr420Sp => Some(MdpYCbCrH2V2)
    case HalYCrCb420Sp => Some(MdpYCrCbH2V2)
    case HalYCbCr420SpTiled => Some(MdpYCbCrH2V2Tile)
    case HalYV12 => Some(MdpYCrCbGH2V2)
    case HalYCbCr444Sp => Some(MdpYCbCrH1V1)
    case HalYCrCb444Sp => Some(MdpYCrCbH1V1)
    case OtherColor => None
  }

  /** The mapping is injective: the MDP type determines the HAL colour it came from,
      and every MDP type with a HAL colour is reached from it. */
  lemma GetMdpFormatInverse(c: HalColor, m: MdpFormat)
    ensures GetMdpFormat(c) == Some(m) <==> HalOf(m) == Some(c)
  {
  }

  // HAL transform bits (from the Android graphics headers) and MDP orientation bits.
  const HalFlipH := 1
  const HalFlipV := 2
  const HalRot90 := 4
  const HalRot180 := 3
  const HalRot270 := 7
  const MdpFlipLR := 1
  const MdpFlipUD := 2
  const MdpRot90 := 4
  const MdpRot180 := 3
  const MdpRot270 := 7

  /** `get_mdp_orientation`: -1 for a value that is not a HAL transform. */
  function GetMdpOrientation(value: int): (r: int)
    // every 3-bit HAL transform is accepted, everything else is rejected
    ensures r == -1 <==> !(0 <= value < 8)
    ensures r != -1 ==> 0 <= r < 8
    // the rotation bit is kept; flips are renamed only when combined with a rotation
    ensures 0 <= value < 8 ==> r / 4 == value / 4
    ensures 0 <= value < 4 ==> r == value
    ensures 4 <= value < 8 ==> r % 4 == SwapFlips(value % 4)
  {
    if value == 0 then 0
    else if value == HalFlipV then MdpFlipUD
    else if value == HalFlipH then MdpFlipLR
    else if value == HalRot90 then MdpRot90
    else if value == HalRot90 + HalFlipV then MdpRot90 + MdpFlipLR
    else if value == HalRot90 + HalFlipH then MdpRot90 + MdpFlipUD
    else if value == HalRot180 then MdpRot180
    else if value == HalRot270 then MdpRot270
    else -1
  }

  /** Exchanges the horizontal and vertical flip bits of a two-bit flip field. A flip
      applied after a quarter turn is the other flip applied before it. */
  function SwapFlips(f: int): (g: int)
    requires 0 <= f < 4
    ensures 0 <= g < 4 && (g == 0 <==> f == 0) && (g == 3 <==> f == 3)
    ensures g % 2 == f / 2 && g / 2 == f % 2
  {
    if f == 1 then 2 else if f == 2 then 1 else f
  }

  /** The translation is its own inverse on valid transforms, so translating back
      from MDP to HAL uses the same table. */
  lemma GetMdpOrientationInvolution(value: int)
    requires 0 <= value < 8
    ensures GetMdpOrientation(GetMdpOrientation(value)) == value
  {
  }

  // Stereoscopic format fields, from the HAL header that defines them.
  const Yv12Code: bv32 := 0x3231_5659
  const In3DMask: bv32 := 0xF0000
  const Out3DMask: bv32 := 0xF000
  const Shift3D: bv32 := 16

  const In3DSideBySideLR: bv32 := 0x10000
  const In3DTopBottom: bv32 := 0x20000
  const In3DInterleave: bv32 := 0x40000
  const In3DSideBySideRL: bv32 := 0x80000
  const Out3DSideBySide: bv32 := 1
  const Out3DTopBottom: bv32 := 2
  const Out3DInterleave: bv32 := 4
  const Out3DMono: bv32 := 8

  /** `FORMAT_3D_INPUT`: the input layout, still at bits 16..19. */
  function Input3D(format: bv32): bv32 { format & In3DMask }

  /** `FORMAT_3D_OUTPUT`: the output layout, moved down to bits 0..3. */
  function Output3D(format: bv32): bv32 { (format & Out3DMask) >> 12 }

  /** `Overlay::getS3DFormat`: normalises the 3D part of a format word so that a missing
      input layout is taken from the output layout and vice versa. */
  function GetS3DFormat(format: bv32): (r: bv32)
    ensures format == Yv12Code ==> r == 0
    ensures format != Yv12Code ==>
      Input3D(r) == (if Input3D(format) != 0 then Input3D(format) else Output3D(format) << Shift3D)
    ensures format != Yv12Code ==>
      r & 0xFFFF == (if Output3D(format) != 0 then Output3D(format) else Input3D(format) >> Shift3D)
    // nothing outside the two 4-bit layout fields survives
    ensures r & !0xF000F == 0
    // a stereo word always names both an input and an output layout, or neither
    ensures (Input3D(r) == 0) == (r & 0xFFFF == 0)
  {
    if format == Yv12Code then 0
    else
      Fill3DInput(format);
      Fill3DOutput(format);
      Fill3DOnlyFields(format);
      Fill3D(format)
  }

  /** The non-YV12 computation of `getS3DFormat`. */
  function Fill3D(format: bv32): bv32
  {
    var format3D := format & 0xFF000;
    var fIn := Input3D(format3D);
    var fOut := Output3D(format3D);
    var f1 := fIn | fOut;
    var f2 := if fIn == 0 then f1 | (fOut << Shift3D) else f1;
    if fOut == 0 then f2 | (fIn >> Shift3D) else f2
  }

  lemma Fill3DInput(format: bv32)
    ensures Input3D(Fill3D(format)) ==
      (if Input3D(format) != 0 then Input3D(format) else Output3D(format) << Shift3D)
  {
  }

  lemma Fill3DOutput(format: bv32)
    ensures Fill3D(format) & 0xFFFF ==
      (if Output3D(format) != 0 then Output3D(format) else Input3D(format) >> Shift3D)
  {
  }

  lemma Fill3DOnlyFields(format: bv32)
    ensures Fill3D(format) & !0xF000F == 0
    ensures (Input3D(Fill3D(format)) == 0) == (Fill3D(format) & 0xFFFF == 0)
  {
  }
}
