/** Integer geometry of the overlay control channel: crop normalisation, stereo half
    extraction, the rotator downscale policy and its shift pair, and the coordinate
    remaps between an upright crop and the crop stored for a rotated source. */
module Geometry {
  import opened Common
  import opened Formats

  // ---------------------------------------------------------------------------
  // normalize_crop
  // ---------------------------------------------------------------------------

  /** `normalize_crop(xy, wh)`: moves an odd start up by one and shrinks the length so
      that both are even. Arithmetic is on `uint32_t`. */
  function NormalizeCrop(xy: u32, wh: u32): (r: (u32, u32))
    ensures r.0 % 2 == 0 && r.1 % 2 == 0
    // away from the wrap-around corners the result is the largest even-aligned
    // sub-interval of [xy, xy + wh): start rounded up, end rounded down
    ensures xy != U32 - 1 && !(xy % 2 == 1 && wh == 0) ==>
      r.0 == xy + xy % 2 && r.0 + r.1 == (xy + wh) - (xy + wh) % 2
    ensures xy != U32 - 1 && !(xy % 2 == 1 && wh == 0) ==> r.0 + r.1 <= xy + wh
    // the two corners where `xy += 1` or `wh -= 2` wraps
    ensures xy == U32 - 1 ==> r.0 == 0
    ensures xy % 2 == 1 && wh == 0 ==> r.1 == U32 - 2
    // an already even interval is left alone
    ensures xy % 2 == 0 && wh % 2 == 0 ==> r == (xy, wh)
  {
    if xy % 2 == 1 then
      (Wrap(xy + 1), if wh % 2 == 1 then wh - 1 else Wrap(wh - 2))
    else
      (xy, wh - wh % 2)
  }

  // ---------------------------------------------------------------------------
  // Stereo (S3D) halves
  // ---------------------------------------------------------------------------

  const Vg0Pipe := 0
  const Vg1Pipe := 1

  /** `getCropS3D`: the part of the frame `inRect` that channel `channel` shows for the
      stereo input layout of `format` (masked with `INPUT_MASK_3D`). Interleaved and
      unknown layouts leave the output rectangle as it was (`prev`). */
  function GetCropS3D(inRect: Rect, channel: int, format: bv32, prev: Rect): (r: Rect)
    // side-by-side: the channel gets one half of the width, at full height
    ensures format & 0xFFFF_0000 == In3DSideBySideLR || format & 0xFFFF_0000 == In3DSideBySideRL ==>
      r.y == 0 && r.h == inRect.h && r.w == inRect.w / 2 && (r.x == 0 || r.x == inRect.w / 2)
    // top-bottom: one half of the height, at full width
    ensures format & 0xFFFF_0000 == In3DTopBottom ==>
      r.x == 0 && r.w == inRect.w && r.h == inRect.h / 2 && (r.y == 0 || r.y == inRect.h / 2)
    ensures format & 0xFFFF_0000 !in {In3DSideBySideLR, In3DSideBySideRL, In3DTopBottom} ==> r == prev
    // for a recognised layout the half lies inside the frame
    ensures format & 0xFFFF_0000 in {In3DSideBySideLR, In3DSideBySideRL, In3DTopBottom} ==>
      r.x + r.w <= inRect.w && r.y + r.h <= inRect.h
  {
    var input := format & 0xFFFF_0000;
    var left := Rect(0, 0, inRect.w / 2, inRect.h);
    var right := Rect(inRect.w / 2, 0, inRect.w / 2, inRect.h);
    if input == In3DSideBySideLR then (if channel == 0 then left else right)
    else if input == In3DSideBySideRL then (if channel == 1 then left else right)
    else if input == In3DTopBottom then
      (if channel == 0 then Rect(0, 0, inRect.w, inRect.h / 2)
       else Rect(0, inRect.h / 2, inRect.w, inRect.h / 2))
    else prev
  }

  /** The two channels of a stereo frame get adjacent, equal halves, and the
      right-to-left layout is the left-to-right one with the channels exchanged. */
  lemma CropS3DHalvesTile(inRect: Rect, format: bv32, prev: Rect)
    requires format & 0xFFFF_0000 == In3DSideBySideLR
    ensures var c0 := GetCropS3D(inRect, 0, format, prev);
            var c1 := GetCropS3D(inRect, 1, format, prev);
            c0.x + c0.w == c1.x && c0.w == c1.w && c0.y == c1.y && c0.h == c1.h
    ensures GetCropS3D(inRect, 0, (format & 0xFFFF) | In3DSideBySideRL, prev) ==
            GetCropS3D(inRect, 1, format, prev)
    ensures GetCropS3D(inRect, 1, (format & 0xFFFF) | In3DSideBySideRL, prev) ==
            GetCropS3D(inRect, 0, format, prev)
  {
    var rl := (format & 0xFFFF) | In3DSideBySideRL;
    assert rl & 0xFFFF_0000 == In3DSideBySideRL;
  }

  /** `getPositionS3D`: where on a `fbWidth` x `fbHeight` display channel `channel` is
      shown for the stereo output layout of `format`. `None` is the `false` return of a
      monoscopic output on any channel other than VG1; interleaved and unknown layouts
      succeed and leave the position as it was (`prev`). */
  function GetPositionS3D(channel: int, format: bv32, fbWidth: u32, fbHeight: u32, prev: Rect)
    : (r: Option<Rect>)
    ensures r.None? <==> (format & 0xFFFF == Out3DMono && channel != Vg1Pipe)
    ensures r.Some? && format & 0xFFFF in {Out3DSideBySide, Out3DTopBottom, Out3DMono} ==>
      r.value.x + r.value.w <= fbWidth && r.value.y + r.value.h <= fbHeight
    ensures r.Some? && format & 0xFFFF !in {Out3DSideBySide, Out3DTopBottom, Out3DMono} ==>
      r.value == prev
  {
    var output := format & 0xFFFF;
    if output == Out3DSideBySide then
      Some(if channel == Vg0Pipe then Rect(0, 0, fbWidth / 2, fbHeight)
           else Rect(fbWidth / 2, 0, fbWidth / 2, fbHeight))
    else if output == Out3DTopBottom then
      Some(if channel == Vg0Pipe then Rect(0, 0, fbWidth, fbHeight / 2)
           else Rect(0, fbHeight / 2, fbWidth, fbHeight / 2))
    else if output == Out3DMono then
      if channel == Vg1Pipe then Some(Rect(0, 0, fbWidth, fbHeight)) else None
    else Some(prev)
  }

  /** The stereo output layouts split the display between the channels: side by side,
      VG0 gets the left half and every other channel the right half, of equal width and
      at full height; top-bottom, the same with the top and bottom halves; and a
      monoscopic output shows VG1 on the whole display. */
  lemma PositionS3DHalvesTile(channel: int, format: bv32, fbWidth: u32, fbHeight: u32, prev: Rect)
    requires channel != Vg0Pipe
    ensures format & 0xFFFF == Out3DSideBySide ==>
      var p0 := GetPositionS3D(Vg0Pipe, format, fbWidth, fbHeight, prev).value;
      var p1 := GetPositionS3D(channel, format, fbWidth, fbHeight, prev).value;
      && p0.x == 0 && p0.y == 0 && p1.y == 0 && p0.h == fbHeight && p1.h == fbHeight
      && p0.w == p1.w && p0.x + p0.w == p1.x && fbWidth - 1 <= p1.x + p1.w <= fbWidth
    ensures format & 0xFFFF == Out3DTopBottom ==>
      var p0 := GetPositionS3D(Vg0Pipe, format, fbWidth, fbHeight, prev).value;
      var p1 := GetPositionS3D(channel, format, fbWidth, fbHeight, prev).value;
      && p0.x == 0 && p0.y == 0 && p1.x == 0 && p0.w == fbWidth && p1.w == fbWidth
      && p0.h == p1.h && p0.y + p0.h == p1.y && fbHeight - 1 <= p1.y + p1.h <= fbHeight
    ensures format & 0xFFFF == Out3DMono ==>
      GetPositionS3D(Vg1Pipe, format, fbWidth, fbHeight, prev) == Some(Rect(0, 0, fbWidth, fbHeight))
  {
  }

  // ---------------------------------------------------------------------------
  // Rotator downscale policy
  // ---------------------------------------------------------------------------

  /** `rot_dscale_factor`: a shift amount, 0 (none) to 3 (one eighth). */
  const DscaleNone := 0
  const DscaleHalf := 1
  const DscaleQuarter := 2
  const DscaleEighth := 3

  /** floor(log2(n)), with 0 for n <= 1: the reference for the downscale factor. */
  function Log2(n: nat): nat
  {
    if n < 2 then 0 else 1 + Log2(n / 2)
  }

  lemma {:induction false} Log2Bands(n: nat)
    ensures n < 2 ==> Log2(n) == 0
    ensures 2 <= n < 4 ==> Log2(n) == 1
    ensures 4 <= n < 8 ==> Log2(n) == 2
    ensures 8 <= n ==> Log2(n) >= 3
  {
    if n >= 2 {
      Log2Bands(n / 2);
    }
  }

  /** `rotatorDownscaleCheck`: the rotator shift that brings the source within a factor
      two of the destination, capped at one eighth. Ratios use C integer division. */
  function RotatorDownscaleCheck(fbNum: int, noRot: bool, srcW: i32, srcH: i32, dstW: i32, dstH: i32)
    : (r: nat)
    ensures r <= DscaleEighth
    ensures fbNum < 0 || fbNum > 2 || noRot || dstW == 0 || dstH == 0 ==> r == DscaleNone
    ensures 0 <= fbNum <= 2 && !noRot && dstW != 0 && dstH != 0 ==>
      var d := Max(CDiv(srcW, dstW), CDiv(srcH, dstH));
      (d >= 0 ==> r == if Log2(d) < 3 then Log2(d) else 3) && (d < 0 ==> r == DscaleEighth)
  {
    if fbNum < 0 || fbNum > 2 || noRot then DscaleNone
    else if dstW != 0 && dstH != 0 then
      var wRatio := CDiv(srcW, dstW);
      var hRatio := CDiv(srcH, dstH);
      var dscale := if wRatio > hRatio then wRatio else hRatio;
      if dscale >= 0 then Log2Bands(dscale); DscaleOf(dscale) else DscaleOf(dscale)
    else DscaleNone
  }

  /** The switch on the ratio: 0-1 none, 2-3 half, 4-7 quarter, anything else eighth. */
  function DscaleOf(dscale: int): (r: nat)
  {
    if dscale == 0 || dscale == 1 then DscaleNone
    else if dscale == 2 || dscale == 3 then DscaleHalf
    else if 4 <= dscale <= 7 then DscaleQuarter
    else DscaleEighth
  }

  /** A larger ratio never asks for less downscaling. */
  lemma DscaleMonotonic(a: nat, b: nat)
    requires a <= b
    ensures DscaleOf(a) <= DscaleOf(b)
  {
  }

  /** A `rot_dscale_factor`: the rotator shift amount. */
  type Shift = n: nat | n <= DscaleEighth

  /** 2^adj, the factor of a shift by `adj`. */
  function Scale(adj: Shift): (p: nat)
    ensures p == Pow2(adj) && p >= 1
  {
    if adj == 0 then 1 else if adj == 1 then 2 else if adj == 2 then 4 else 8
  }

  /** `rotatorAdjustOvSrcRect`: shifts every field right by `adj`. */
  function AdjustRect(r: Rect, adj: Shift): (a: Rect)
    ensures adj == 0 ==> a == r
    ensures a.x <= r.x && a.y <= r.y && a.w <= r.w && a.h <= r.h
    // each field keeps its high bits: it is the quotient by 2^adj
    ensures a.x * Scale(adj) <= r.x < (a.x + 1) * Scale(adj)
    ensures a.y * Scale(adj) <= r.y < (a.y + 1) * Scale(adj)
    ensures a.w * Scale(adj) <= r.w < (a.w + 1) * Scale(adj)
    ensures a.h * Scale(adj) <= r.h < (a.h + 1) * Scale(adj)
  {
    if adj != 0 then
      var p := Scale(adj);
      Rect(r.x / p, r.y / p, r.w / p, r.h / p)
    else r
  }

  /** `rotatorResetAdjustOvSrcRect`: shifts every field left by `adj`, as a `uint32_t`
      (bits shifted out are lost). */
  function ResetAdjustRect(r: Rect, adj: Shift): (a: Rect)
    ensures adj == 0 ==> a == r
    ensures FitsShift(r, adj) ==>
      a.x == r.x * Scale(adj) && a.y == r.y * Scale(adj) &&
      a.w == r.w * Scale(adj) && a.h == r.h * Scale(adj)
  {
    if adj != 0 then
      var p := Scale(adj);
      Rect(Wrap(r.x * p), Wrap(r.y * p), Wrap(r.w * p), Wrap(r.h * p))
    else r
  }

  /** No field overflows when shifted left by `adj`. */
  predicate FitsShift(r: Rect, adj: Shift)
  {
    r.x * Scale(adj) < U32 && r.y * Scale(adj) < U32 && r.w * Scale(adj) < U32 && r.h * Scale(adj) < U32
  }

  /** Shifting a rectangle back up and then down again restores it. */
  lemma AdjustAfterReset(r: Rect, adj: Shift)
    requires FitsShift(r, adj)
    ensures AdjustRect(ResetAdjustRect(r, adj), adj) == r
  {
    ShiftUpDown(r.x, adj);
    ShiftUpDown(r.y, adj);
    ShiftUpDown(r.w, adj);
    ShiftUpDown(r.h, adj);
  }

  lemma ShiftUpDown(v: u32, adj: Shift)
    requires v * Scale(adj) < U32
    ensures Wrap(v * Scale(adj)) / Scale(adj) == v
  {
    DivUnique(v * Scale(adj), Scale(adj), v, 0);
  }

  lemma ShiftDownUp(v: u32, adj: Shift)
    ensures Wrap(v / Scale(adj) * Scale(adj)) == v - v % Scale(adj)
  {
    var p := Scale(adj);
    assert v == p * (v / p) + v % p;
    assert v / p * p == v - v % p;
  }

  /** Shifting down and back up rounds every field down to a multiple of 2^adj. */
  lemma ResetAfterAdjust(r: Rect, adj: Shift)
    ensures var b := ResetAdjustRect(AdjustRect(r, adj), adj);
      b.x == r.x - r.x % Scale(adj) && b.y == r.y - r.y % Scale(adj) &&
      b.w == r.w - r.w % Scale(adj) && b.h == r.h - r.h % Scale(adj)
  {
    ShiftDownUp(r.x, adj);
    ShiftDownUp(r.y, adj);
    ShiftDownUp(r.w, adj);
    ShiftDownUp(r.h, adj);
  }

  // ---------------------------------------------------------------------------
  // Rotation remaps
  // ---------------------------------------------------------------------------

  /** How the stored source is turned relative to the upright buffer. */
  datatype Turn = Upright | Quarter | Half | ThreeQuarter
  {
    /** A quarter turn either way exchanges width and height. */
    predicate Swaps() { this == Quarter || this == ThreeQuarter }
  }

  /** The turn `setCrop` reads from an MDP orientation: a quarter turn with or without
      a flip, a half turn, a three-quarter turn, or upright (including the flips). */
  function TurnOf(orientation: int): (t: Turn)
    ensures t == Quarter <==> orientation in {MdpRot90, MdpRot90 + MdpFlipUD, MdpRot90 + MdpFlipLR}
    ensures t == Half <==> orientation == MdpRot180
    ensures t == ThreeQuarter <==> orientation == MdpRot270
  {
    if orientation in {MdpRot90, MdpRot90 + MdpFlipUD, MdpRot90 + MdpFlipLR} then Quarter
    else if orientation == MdpRot270 then ThreeQuarter
    else if orientation == MdpRot180 then Half
    else Upright
  }

  function SwapDim(d: Dim): (e: Dim)
    ensures e.width == d.height && e.height == d.width
  {
    Dim(d.height, d.width)
  }

  /** The dimensions of the buffer as stored for turn `t` of an upright buffer `base`. */
  function StoredDim(t: Turn, base: Dim): (s: Dim)
    ensures s.width == (if t.Swaps() then base.height else base.width)
    ensures s.height == (if t.Swaps() then base.width else base.height)
  {
    if t.Swaps() then SwapDim(base) else base
  }

  /** Maps an upright crop `c` to the stored buffer of dimensions `s` for turn `t`, with
      `uint32_t` arithmetic: the coordinate change `setCrop` applies. */
  function ToStored(t: Turn, s: Dim, c: Rect): (r: Rect)
    ensures t.Swaps() ==> r.w == c.h && r.h == c.w
    ensures !t.Swaps() ==> r.w == c.w && r.h == c.h
    ensures t == Quarter ==> r.y == c.x
    ensures t == ThreeQuarter ==> r.x == c.y
  {
    match t
    case Upright => c
    case Quarter => Rect(Reflect(s.width, c.y, c.h), c.x, c.h, c.w)
    case Half => Rect(Reflect(s.width, c.x, c.w), Reflect(s.height, c.y, c.h), c.w, c.h)
    case ThreeQuarter => Rect(c.y, Reflect(s.height, c.x, c.w), c.h, c.w)
  }

  /** The inverse of `ToStored`: the upright crop for a stored crop `r`. */
  function FromStored(t: Turn, s: Dim, r: Rect): (c: Rect)
    ensures t.Swaps() ==> c.w == r.h && c.h == r.w
    ensures !t.Swaps() ==> c.w == r.w && c.h == r.h
  {
    match t
    case Upright => r
    case Quarter => Rect(r.y, Reflect(s.width, r.x, r.w), r.h, r.w)
    case Half => Rect(Reflect(s.width, r.x, r.w), Reflect(s.height, r.y, r.h), r.w, r.h)
    case ThreeQuarter => Rect(Reflect(s.height, r.y, r.h), r.x, r.h, r.w)
  }

  /** An even crop of a buffer with even sides is stored even, for every turn. */
  lemma StoredEven(t: Turn, s: Dim, c: Rect)
    requires c.x % 2 == 0 && c.y % 2 == 0 && c.w % 2 == 0 && c.h % 2 == 0
    requires s.width % 2 == 0 && s.height % 2 == 0
    ensures var m := ToStored(t, s, c);
      m.x % 2 == 0 && m.y % 2 == 0 && m.w % 2 == 0 && m.h % 2 == 0
  {
    match t
    case Upright =>
    case Quarter => ReflectEven(s.width, c.y, c.h);
    case Half =>
      ReflectEven(s.width, c.x, c.w);
      ReflectEven(s.height, c.y, c.h);
    case ThreeQuarter => ReflectEven(s.height, c.x, c.w);
  }

  /** 2^32 is even, so reflecting an even segment on an even axis gives an even start. */
  lemma ReflectEven(s: u32, v: u32, l: u32)
    requires s % 2 == 0 && v % 2 == 0 && l % 2 == 0
    ensures Reflect(s, v, l) % 2 == 0
  {
    var k := (Reflect(s, v, l) - (s - v - l)) / U32;
    assert Reflect(s, v, l) == s - v - l + k * U32;
    assert s == 2 * (s / 2) && v == 2 * (v / 2) && l == 2 * (l / 2);
    assert Reflect(s, v, l) == 2 * (s / 2 - v / 2 - l / 2 + k * (U32 / 2));
  }

  /** The start of the segment `[v, v + l)` seen from the far end of an axis of length
      `s`: `s - (v + l)` in `uint32_t`. */
  function Reflect(s: u32, v: u32, l: u32): u32
  {
    SubU32(s, AddU32(v, l))
  }

  /** Reflecting twice on the same axis gives the segment back. */
  lemma ReflectTwice(s: u32, v: u32, l: u32)
    ensures Reflect(s, Reflect(s, v, l), l) == v
  {
  }

  /** The stored crop determines the upright crop and back, for every turn and every
      value, wrap-around included. */
  lemma StoredRoundTrip(t: Turn, s: Dim, c: Rect, r: Rect)
    ensures FromStored(t, s, ToStored(t, s, c)) == c
    ensures ToStored(t, s, FromStored(t, s, r)) == r
  {
    match t
    case Upright =>
    case Quarter =>
      QuarterRoundTrip(s, c);
      QuarterRoundTripBack(s, r);
    case Half =>
      HalfInvolution(s, c);
      HalfInvolution(s, r);
    case ThreeQuarter =>
      ThreeQuarterRoundTrip(s, c);
      ThreeQuarterRoundTripBack(s, r);
  }

  lemma QuarterRoundTrip(s: Dim, c: Rect)
    ensures FromStored(Quarter, s, ToStored(Quarter, s, c)) == c
  {
    ReflectTwice(s.width, c.y, c.h);
  }

  lemma QuarterRoundTripBack(s: Dim, r: Rect)
    ensures ToStored(Quarter, s, FromStored(Quarter, s, r)) == r
  {
    ReflectTwice(s.width, r.x, r.w);
  }

  lemma HalfInvolution(s: Dim, c: Rect)
    ensures ToStored(Half, s, ToStored(Half, s, c)) == c
  {
    ReflectTwice(s.width, c.x, c.w);
    ReflectTwice(s.height, c.y, c.h);
  }

  lemma ThreeQuarterRoundTrip(s: Dim, c: Rect)
    ensures FromStored(ThreeQuarter, s, ToStored(ThreeQuarter, s, c)) == c
  {
    ReflectTwice(s.height, c.x, c.w);
  }

  lemma ThreeQuarterRoundTripBack(s: Dim, r: Rect)
    ensures ToStored(ThreeQuarter, s, FromStored(ThreeQuarter, s, r)) == r
  {
    ReflectTwice(s.height, r.y, r.h);
  }
}
