/** Composition bookkeeping of the hardware composer: statistics over a frame's layer
    list, the cut-ratio permutation for a transformed layer, and the secure-session
    test. Layers carry only the fields these read; a handle is a number, 0 for NULL. */
module Hwc {

  /** `compositionType`: who composes the layer. */
  datatype Composition = Framebuffer | Overlay | Background | FramebufferTarget

  /** A `hwc_rect_t`: left, top, right, bottom. */
  datatype HwcRect = HwcRect(left: int, top: int, right: int, bottom: int)

  /** A layer of `hwc_display_contents_1_t`. `skip` is `isSkipLayer` (the skip flag is
      set), `yuv` is `isYuvBuffer` (the handle is a video buffer). */
  datatype Layer = Layer(compositionType: Composition, skip: bool, yuv: bool, handle: nat,
                         displayFrame: HwcRect, sourceCrop: HwcRect, blending: int)

  /** `HWC_BLENDING_NONE`. */
  const BlendingNone := 0x0100

  /** `isAlphaScaled`: the layer is scaled (its source crop and display frame differ in
      width or height) and blended. */
  predicate IsAlphaScaled(l: Layer)
  {
    var dstW := l.displayFrame.right - l.displayFrame.left;
    var dstH := l.displayFrame.bottom - l.displayFrame.top;
    var srcW := l.sourceCrop.right - l.sourceCrop.left;
    var srcH := l.sourceCrop.bottom - l.sourceCrop.top;
    (srcW != dstW || srcH != dstH) && l.blending != BlendingNone
  }

  /** An unscaled layer, or one that is not blended, never needs alpha scaling; moving a
      layer (the same offset added to both rectangles) does not change the answer. */
  lemma AlphaScaledInvariants(l: Layer, dx: int, dy: int)
    ensures l.blending == BlendingNone ==> !IsAlphaScaled(l)
    ensures l.sourceCrop == l.displayFrame ==> !IsAlphaScaled(l)
    ensures var m := l.(displayFrame := Shifted(l.displayFrame, dx, dy));
      IsAlphaScaled(m) == IsAlphaScaled(l)
  {
  }

  function Shifted(r: HwcRect, dx: int, dy: int): (s: HwcRect)
    ensures s.right - s.left == r.right - r.left && s.bottom - s.top == r.bottom - r.top
  {
    HwcRect(r.left + dx, r.top + dy, r.right + dx, r.bottom + dy)
  }

  /** The statistics `setListStats` keeps per display. */
  datatype ListStats = ListStats(numAppLayers: int, fbLayerIndex: int, yuvCount: nat, yuvIndex: int,
                                 skipCount: nat, needsAlphaScale: bool)

  /** The layers the statistics look at: all but the framebuffer target. */
  predicate Counted(l: Layer)
  {
    l.compositionType != FramebufferTarget
  }

  /** The number of counted skip layers. */
  function SkipCount(ls: seq<Layer>): (n: nat)
    ensures n <= |ls|
  {
    if ls == [] then 0
    else SkipCount(ls[..|ls| - 1]) + (if Counted(ls[|ls| - 1]) && ls[|ls| - 1].skip then 1 else 0)
  }

  /** The number of counted video layers. */
  function YuvCount(ls: seq<Layer>): (n: nat)
    ensures n <= |ls|
  {
    if ls == [] then 0
    else YuvCount(ls[..|ls| - 1]) + (if Counted(ls[|ls| - 1]) && ls[|ls| - 1].yuv then 1 else 0)
  }

  /** There is no counted video layer exactly when the count of them is zero. */
  lemma {:induction false} YuvCountZero(ls: seq<Layer>)
    ensures YuvCount(ls) == 0 <==> forall i :: 0 <= i < |ls| && Counted(ls[i]) ==> !ls[i].yuv
  {
    if ls != [] {
      var init := ls[..|ls| - 1];
      YuvCountZero(init);
      assert forall i :: 0 <= i < |init| ==> init[i] == ls[i];
    }
  }

  /** `setListStats`: every layer but the last is an application layer, the last is the
      framebuffer target; over the layers other than framebuffer targets it counts the
      skip and video layers, finds the last video layer (-1 if none) and whether any
      needs alpha scaling. */
  method SetListStats(layers: seq<Layer>) returns (s: ListStats)
    ensures s.numAppLayers == |layers| - 1 && s.fbLayerIndex == |layers| - 1
    ensures s.skipCount == SkipCount(layers) && s.yuvCount == YuvCount(layers)
    ensures s.needsAlphaScale <==>
      exists i :: 0 <= i < |layers| && Counted(layers[i]) && IsAlphaScaled(layers[i])
    ensures s.yuvIndex == -1 <==> s.yuvCount == 0
    ensures s.yuvIndex != -1 ==>
      && 0 <= s.yuvIndex < |layers| && Counted(layers[s.yuvIndex]) && layers[s.yuvIndex].yuv
      && forall j :: s.yuvIndex < j < |layers| && Counted(layers[j]) ==> !layers[j].yuv
  {
    s := ListStats(|layers| - 1, |layers| - 1, 0, -1, 0, false);
    var i := 0;
    while i < |layers|
      invariant 0 <= i <= |layers|
      invariant s.numAppLayers == |layers| - 1 && s.fbLayerIndex == |layers| - 1
      invariant s.skipCount == SkipCount(layers[..i]) && s.yuvCount == YuvCount(layers[..i])
      invariant s.needsAlphaScale <==>
        exists j :: 0 <= j < i && Counted(layers[j]) && IsAlphaScaled(layers[j])
      invariant s.yuvIndex == -1 <==> forall j :: 0 <= j < i && Counted(layers[j]) ==> !layers[j].yuv
      invariant s.yuvIndex != -1 ==>
        && 0 <= s.yuvIndex < i && Counted(layers[s.yuvIndex]) && layers[s.yuvIndex].yuv
        && forall j :: s.yuvIndex < j < i && Counted(layers[j]) ==> !layers[j].yuv
    {
      assert layers[..i + 1][..i] == layers[..i];
      var l := layers[i];
      if l.compositionType != FramebufferTarget {
        if l.skip {
          s := s.(skipCount := s.skipCount + 1);
        }
        if !s.needsAlphaScale {
          s := s.(needsAlphaScale := IsAlphaScaled(l));
        }
        if l.yuv {
          s := s.(yuvCount := s.yuvCount + 1, yuvIndex := i);
        }
      }
      i := i + 1;
    }
    assert layers[..i] == layers;
    YuvCountZero(layers);
  }

  /** The four cut ratios of a layer (left, top, right, bottom), of any number type. */
  datatype Cut<T(==)> = Cut(left: T, top: T, right: T, bottom: T)
  {
    /** The four values, with their multiplicities. */
    function Values(): multiset<T>
    {
      multiset{left, top, right, bottom}
    }

    function SwapLeftRight(): (c: Cut<T>)
      ensures c.Values() == Values()
    {
      Cut(right, top, left, bottom)
    }

    function SwapTopBottom(): (c: Cut<T>)
      ensures c.Values() == Values()
    {
      Cut(left, bottom, right, top)
    }

    function TurnQuarter(): (c: Cut<T>)
      ensures c.Values() == Values()
    {
      Cut(top, right, bottom, left)
    }
  }

  /** `HAL_TRANSFORM_FLIP_H`, `HAL_TRANSFORM_FLIP_V` and `HAL_TRANSFORM_ROT_90`. */
  const FlipH: bv32 := 1
  const FlipV: bv32 := 2
  const Rot90: bv32 := 4

  /** `calc_cut`: the cut ratios as seen after the transform `orient`. A horizontal
      flip exchanges left and right, a vertical one top and bottom, and a quarter turn
      then moves each ratio one side round (left takes top, top takes right, right
      takes bottom, bottom takes left). No ratio is lost or duplicated. */
  function CalcCut<T(==)>(c: Cut<T>, orient: bv32): (r: Cut<T>)
    ensures r.Values() == c.Values()
    ensures orient & Rot90 == 0 ==>
      && r.left == (if orient & FlipH != 0 then c.right else c.left)
      && r.right == (if orient & FlipH != 0 then c.left else c.right)
      && r.top == (if orient & FlipV != 0 then c.bottom else c.top)
      && r.bottom == (if orient & FlipV != 0 then c.top else c.bottom)
    ensures orient & (FlipH | FlipV) == 0 && orient & Rot90 != 0 ==>
      r == Cut(c.top, c.right, c.bottom, c.left)
    // with a quarter turn the flips act first, then each ratio moves one side round
    ensures orient & Rot90 != 0 ==>
      && r.left == (if orient & FlipV != 0 then c.bottom else c.top)
      && r.top == (if orient & FlipH != 0 then c.left else c.right)
      && r.right == (if orient & FlipV != 0 then c.top else c.bottom)
      && r.bottom == (if orient & FlipH != 0 then c.right else c.left)
  {
    var h := if orient & FlipH != 0 then c.SwapLeftRight() else c;
    var v := if orient & FlipV != 0 then h.SwapTopBottom() else h;
    if orient & Rot90 != 0 then v.TurnQuarter() else v
  }

  /** Flips undo themselves: applying a flip-only transform twice gives the ratios back. */
  lemma FlipsUndo<T>(c: Cut<T>, orient: bv32)
    requires orient & Rot90 == 0
    ensures CalcCut(CalcCut(c, orient), orient) == c
  {
  }

  /** Four quarter turns give the ratios back, and a half turn (two quarter turns) is
      the same as flipping both ways. */
  lemma QuarterTurns<T>(c: Cut<T>)
    ensures CalcCut(CalcCut(CalcCut(CalcCut(c, Rot90), Rot90), Rot90), Rot90) == c
    ensures CalcCut(CalcCut(c, Rot90), Rot90) == CalcCut(c, FlipH | FlipV)
  {
  }

  /** `HAL_TRANSFORM_ROT_270` (both flips and a quarter turn) is three quarter turns. */
  lemma Rot270IsThreeQuarters<T>(c: Cut<T>)
    ensures CalcCut(c, FlipH | FlipV | Rot90) == CalcCut(CalcCut(CalcCut(c, Rot90), Rot90), Rot90)
  {
  }

  /** `qdutils::MDP_V3_0` and `qdutils::MDSS_V5`. */
  const MdpV3 := 300
  const MdssV5 := 500

  /** `isSecuring`: a secure session is being set up (`mSecuring`) on an MDP newer
      than version 3.0 and older than MDSS 5. */
  predicate IsSecuring(mdpVersion: int, securing: bool)
  {
    mdpVersion < MdssV5 && mdpVersion > MdpV3 && securing
  }
}
