/** The framebuffer device's settings and HDMI decisions: the swap interval, the
    partial-update rectangle packed into the screen info's reserved words, and the
    mirroring state kept for the external display. */
module FbDevice {
  import opened Common
  import PostRing

  /** `-EINVAL` is returned as the negation of this. */
  const EINVAL := 22

  /** The tag `fb_setUpdateRect` stores in `reserved[0]`: the characters "UPDT". */
  const UpdateTag: u32 := 0x54445055

  /** `fb_setSwapInterval`: the `debug.egl.swapinterval` property, when it is not
      negative, overrides the requested interval; an interval outside the device's
      [`minInterval`, `maxInterval`] is refused with -EINVAL and the current one is
      kept, otherwise it is stored. */
  function SetSwapInterval(interval: int, property: int, minInterval: int, maxInterval: int, current: int)
    : (r: (int, int))
    ensures var asked := if property >= 0 then property else interval;
      && (r.0 == 0 || r.0 == -EINVAL)
      && (r.0 == 0 <==> minInterval <= asked <= maxInterval)
      && (r.0 == 0 ==> r.1 == asked)
      && (r.0 != 0 ==> r.1 == current)
  {
    var asked := if property >= 0 then property else interval;
    if asked < minInterval || asked > maxInterval then (-EINVAL, current)
    else (0, asked)
  }

  /** A stored swap interval always lies within the device's range, and setting it
      again to the value it holds changes nothing. */
  lemma SwapIntervalSettles(interval: int, property: int, minInterval: int, maxInterval: int, current: int)
    requires SetSwapInterval(interval, property, minInterval, maxInterval, current).0 == 0
    ensures var s := SetSwapInterval(interval, property, minInterval, maxInterval, current).1;
      && minInterval <= s <= maxInterval
      && SetSwapInterval(s, -1, minInterval, maxInterval, s) == (0, s)
  {
  }

  /** The device advertises PRIV_MIN/MAX_SWAP_INTERVAL as its own bounds, so whenever
      the fallback 1 lies within them the interval the module starts with is always
      one `fb_setSwapInterval` accepts, and re-setting it changes nothing. */
  lemma InitialIntervalAccepted(property: int, lo: int, hi: int)
    requires lo <= 1 <= hi
    ensures var s := PostRing.InitialSwapInterval(property, lo, hi);
      && lo <= s <= hi
      && SetSwapInterval(s, -1, lo, hi, s) == (0, s)
  {
  }

  /** Bitwise OR of two non-negative integers (C's `|` on the bit patterns). */
  function Or(a: nat, b: nat): (r: nat)
    ensures r == 0 <==> a == 0 && b == 0
    ensures a <= r && b <= r
    decreases a + b
  {
    if a == 0 then b
    else if b == 0 then a
    else (if a % 2 == 1 || b % 2 == 1 then 1 else 0) + 2 * Or(a / 2, b / 2)
  }

  /** OR keeps values below a power of two below it: it sets no bit neither operand has. */
  lemma {:induction false} OrBelow(a: nat, b: nat, n: nat)
    requires a < Pow2(n) && b < Pow2(n)
    ensures Or(a, b) < Pow2(n)
  {
    if n > 0 && a != 0 && b != 0 {
      OrBelow(a / 2, b / 2, n - 1);
    }
  }

  /** OR of a value below 2^k with a multiple of 2^k is their sum: the bits do not
      overlap. */
  lemma {:induction false} OrDisjoint(x: nat, y: nat, k: nat)
    requires x < Pow2(k)
    ensures Or(x, y * Pow2(k)) == x + y * Pow2(k)
  {
    if k > 0 && x != 0 && y != 0 {
      var v := y * Pow2(k - 1);
      assert y * Pow2(k) == 2 * v;
      OrDisjoint(x / 2, y, k - 1);
    }
  }

  lemma Pow2Values()
    ensures Pow2(16) == 0x10000 && Pow2(31) == 0x8000_0000
  {
    Pow2Add(2, 2);
    Pow2Add(4, 4);
    Pow2Add(8, 8);
    Pow2Add(16, 15);
    Pow2Add(8, 7);
    Pow2Add(4, 3);
    Pow2Add(2, 1);
  }

  lemma {:induction false} Pow2Add(a: nat, b: nat)
    ensures Pow2(a + b) == Pow2(a) * Pow2(b)
  {
    if a > 0 {
      Pow2Add(a - 1, b);
    }
  }

  /** A C `int` read back from the 32-bit pattern `v` is at most 0. */
  predicate SignedNonPositive(v: nat)
  {
    v == 0 || v >= 0x8000_0000
  }

  /** The bit pattern of a C `int`. */
  function Bits(v: i32): u32
  {
    Wrap(v)
  }

  /** `(w|h) <= 0` is "w or h negative, or both zero"; `(l|t) < 0` is "l or t
      negative". */
  lemma {:induction false} GuardMeaning(l: i32, t: i32, w: i32, h: i32)
    ensures SignedNonPositive(Or(Bits(w), Bits(h))) <==> w < 0 || h < 0 || (w == 0 && h == 0)
    ensures Or(Bits(l), Bits(t)) >= 0x8000_0000 <==> l < 0 || t < 0
  {
    Pow2Values();
    SignBitOr(w, h);
    SignBitOr(l, t);
  }

  lemma SignBitOr(a: i32, b: i32)
    requires Pow2(31) == 0x8000_0000
    ensures Or(Bits(a), Bits(b)) >= 0x8000_0000 <==> a < 0 || b < 0
  {
    BitsValue(a);
    BitsValue(b);
    if a >= 0 && b >= 0 {
      OrBelow(Bits(a), Bits(b), 31);
    }
  }

  /** The bit pattern of a negative `int` is the value plus 2^32. */
  lemma BitsValue(v: i32)
    ensures Bits(v) == if v < 0 then v + U32 else v
  {
    if v < 0 {
      DivUnique(v, U32, -1, v + U32);
    }
  }

  /** A reserved word holding `lo` in its low 16 bits and `hi` in its high 16 bits:
      `(uint16_t)lo | ((uint32_t)hi << 16)`. */
  function PackHalves(lo: i32, hi: i32): (r: u32)
    ensures r == Wrap(lo) % 0x10000 + Wrap(hi) % 0x10000 * 0x10000
  {
    var low := Wrap(lo) % 0x10000;
    var high := Wrap(hi) % 0x10000;
    Pow2Values();
    ShiftedWraps(Wrap(hi));
    OrDisjoint(low, high, 16);
    Or(low, Wrap(Wrap(hi) * 0x10000))
  }

  lemma ShiftedWraps(v: u32)
    ensures Wrap(v * 0x10000) == v % 0x10000 * 0x10000
  {
    var q := v / 0x10000;
    var m := v % 0x10000;
    assert v * 0x10000 == m * 0x10000 + q * U32;
    ModAddMultiple(m * 0x10000, q);
  }

  /** `fb_setUpdateRect`: refuses with -EINVAL (storing nothing) unless the guard on the
      bit patterns passes, that is unless `l` and `t` are not negative, `w` and `h`
      are not negative and not both zero; otherwise stores the tag, the top-left
      corner and the bottom-right corner in `reserved[0..2]`. The sums `l + w` and
      `t + h` are taken modulo 2^32. */
  function SetUpdateRect(l: i32, t: i32, w: i32, h: i32, reserved: seq<u32>): (r: (int, seq<u32>))
    requires |reserved| >= 3
    ensures |r.1| == |reserved| && r.1[3..] == reserved[3..]
    ensures r.0 == -EINVAL <==> l < 0 || t < 0 || w < 0 || h < 0 || (w == 0 && h == 0)
    ensures r.0 == -EINVAL ==> r.1 == reserved
    ensures r.0 != -EINVAL ==>
      && r.0 == 0 && r.1[0] == UpdateTag
      && r.1[1] == l % 0x10000 + t % 0x10000 * 0x10000
      && r.1[2] == Wrap(l + w) % 0x10000 + Wrap(t + h) % 0x10000 * 0x10000
  {
    GuardMeaning(l, t, w, h);
    if SignedNonPositive(Or(Bits(w), Bits(h))) || Or(Bits(l), Bits(t)) >= 0x8000_0000 then
      (-EINVAL, reserved)
    else
      (0, reserved[0 := UpdateTag][1 := PackHalves(l, t)][2 := PackHalves(ToI32(Wrap(l + w)), ToI32(Wrap(t + h)))])
  }

  /** The update rectangle can be read back from the reserved words: the low and high
      halves give the corners, as long as they fit in 16 bits. */
  lemma UpdateRectUnpacks(l: i32, t: i32, w: i32, h: i32, reserved: seq<u32>)
    requires |reserved| >= 3
    requires SetUpdateRect(l, t, w, h, reserved).0 == 0
    requires l + w < 0x10000 && t + h < 0x10000
    ensures var r := SetUpdateRect(l, t, w, h, reserved).1;
      && r[0] == UpdateTag
      && r[1] % 0x10000 == l && r[1] / 0x10000 == t
      && r[2] % 0x10000 == l + w && r[2] / 0x10000 == t + h
  {
    var r := SetUpdateRect(l, t, w, h, reserved).1;
    assert Wrap(l + w) == l + w && Wrap(t + h) == t + h;
    Unpack(r[1], l, t);
    Unpack(r[2], l + w, t + h);
  }

  /** A word packed from two 16-bit halves gives them back. */
  lemma Unpack(v: int, lo: int, hi: int)
    requires 0 <= lo < 0x10000 && 0 <= hi < 0x10000
    requires v == lo % 0x10000 + hi % 0x10000 * 0x10000
    ensures v % 0x10000 == lo && v / 0x10000 == hi
  {
    assert v == 0x10000 * hi + lo;
    DivUnique(v, 0x10000, hi, lo);
  }

  /** The overlay configurations the HDMI logic decides between (`eOverlayState`);
      `OtherState` stands for the ones it does not name. */
  datatype OverlayState =
    | UiMirror | TrueUiMirror2D | Video2DOnPanel | Video2DOnPanelTv
    | Video3DOn2DPanel | Video3DOn2DPanel2DTv | Closed | OtherState(code: nat)

  /** `getOverlayState`: with no video playing the UI is mirrored to the TV; a playing
      2D video on the panel goes to true UI mirroring when the hardware supports it and
      to the panel plus TV otherwise; a 3D video on a 2D panel also goes to the TV in
      2D; any other state is kept, and so is the state when there is no module. */
  function GetOverlayState(hasModule: bool, videoOverlay: int, trueMirror: bool, current: OverlayState)
    : (s: OverlayState)
    ensures !hasModule ==> s == current
    ensures hasModule && videoOverlay == 0 ==> s == UiMirror
    ensures hasModule && videoOverlay != 0 && current == Video2DOnPanel ==>
      s == if trueMirror then TrueUiMirror2D else Video2DOnPanelTv
    ensures hasModule && videoOverlay != 0 && current == Video3DOn2DPanel ==> s == Video3DOn2DPanel2DTv
    ensures hasModule && videoOverlay != 0 && current != Video2DOnPanel && current != Video3DOn2DPanel ==>
      s == current
  {
    if !hasModule then current
    else if videoOverlay == 0 then UiMirror
    else if current == Video2DOnPanel then (if trueMirror then TrueUiMirror2D else Video2DOnPanelTv)
    else if current == Video3DOn2DPanel then Video3DOn2DPanel2DTv
    else current
  }

  /** Deciding twice decides nothing new: the states `getOverlayState` moves to are
      ones it keeps. */
  lemma OverlayStateSettles(hasModule: bool, videoOverlay: int, trueMirror: bool, current: OverlayState)
    ensures var s := GetOverlayState(hasModule, videoOverlay, trueMirror, current);
      GetOverlayState(hasModule, videoOverlay, trueMirror, s) == s
  {
  }

  /** Whether the UI is being mirrored to HDMI (`hdmiMirroringState`). */
  datatype Mirroring = NoMirroring | UiMirroring

  /** The HDMI part of the gralloc module: the video-overlay event value, whether the
      hardware supports true mirroring, the external display type (0 when HDMI is
      off), the mirroring state, the flag that wakes the HDMI UI thread, and the
      overlay configuration. */
  datatype Hdmi = Hdmi(videoOverlay: int, trueMirrorSupport: bool, enableHDMIOutput: int,
                       mirroring: Mirroring, hdmiStateChanged: bool, ovState: OverlayState)
  {
    /** The UI is mirrored only while HDMI output is enabled. */
    predicate Inv()
    {
      mirroring == UiMirroring ==> enableHDMIOutput != 0
    }
  }

  /** `videoOverlay` value for a 3D video. */
  const Video3DOverlayStarted := 2

  /** The HDMI state `mapFrameBufferLocked` starts from. */
  function InitHdmi(ovState: OverlayState): (m: Hdmi)
    ensures m.Inv() && m.mirroring == NoMirroring && !m.hdmiStateChanged
  {
    Hdmi(0, false, 0, NoMirroring, false, ovState)
  }

  /** `fb_enableHDMIOutput`: records the true-mirroring capability (`trueMirror`, as
      the hardware query reports it) and the display type; on connection the UI is
      mirrored if true mirroring is supported or no video plays, otherwise the
      mirroring state is kept; on disconnection mirroring stops and the overlay
      configuration is decided again. The HDMI thread is always woken. */
  function EnableHdmiOutput(m: Hdmi, externalType: int, trueMirror: bool): (m': Hdmi)
    ensures m'.trueMirrorSupport == trueMirror && m'.enableHDMIOutput == externalType
    ensures m'.hdmiStateChanged && m'.videoOverlay == m.videoOverlay
    ensures externalType == 0 ==>
      && m'.mirroring == NoMirroring
      && m'.ovState == GetOverlayState(true, m.videoOverlay, trueMirror, m.ovState)
    ensures externalType != 0 ==> m'.ovState == m.ovState
    ensures externalType != 0 && (trueMirror || m.videoOverlay == 0) ==> m'.mirroring == UiMirroring
    ensures externalType != 0 && !trueMirror && m.videoOverlay != 0 ==> m'.mirroring == m.mirroring
    ensures m.Inv() ==> m'.Inv()
  {
    var m1 := m.(trueMirrorSupport := trueMirror, enableHDMIOutput := externalType);
    var m2 :=
      if externalType != 0 then
        if trueMirror || m.videoOverlay == 0 then m1.(mirroring := UiMirroring) else m1
      else
        m1.(mirroring := NoMirroring,
            ovState := GetOverlayState(true, m1.videoOverlay, m1.trueMirrorSupport, m1.ovState));
    m2.(hdmiStateChanged := true)
  }

  /** `fb_videoOverlayStarted`: only a change of the video state does anything. Then
      the HDMI thread is woken and, when the video makes mirroring impossible (any
      video without true mirroring, a 3D video with it), mirroring stops and the
      overlay configuration is decided again; otherwise, with HDMI on, the UI is
      mirrored. */
  function VideoOverlayStarted(m: Hdmi, started: int): (m': Hdmi)
    ensures started == m.videoOverlay ==> m' == m
    ensures started != m.videoOverlay ==> m'.videoOverlay == started && m'.hdmiStateChanged
    ensures m'.trueMirrorSupport == m.trueMirrorSupport && m'.enableHDMIOutput == m.enableHDMIOutput
    ensures started != m.videoOverlay ==>
      var stops := if m.trueMirrorSupport then started == Video3DOverlayStarted else started != 0;
      && (stops ==> m'.mirroring == NoMirroring
                    && m'.ovState == GetOverlayState(true, started, m.trueMirrorSupport, m.ovState))
      && (!stops ==> m'.ovState == m.ovState)
      && (!stops && m.enableHDMIOutput != 0 ==> m'.mirroring == UiMirroring)
      && (!stops && m.enableHDMIOutput == 0 ==> m'.mirroring == m.mirroring)
    ensures m.Inv() ==> m'.Inv()
  {
    if started == m.videoOverlay then m
    else
      var m1 := m.(videoOverlay := started, hdmiStateChanged := true);
      var stops := if m.trueMirrorSupport then m1.videoOverlay == Video3DOverlayStarted else started != 0;
      if stops then
        m1.(mirroring := NoMirroring,
            ovState := GetOverlayState(true, m1.videoOverlay, m1.trueMirrorSupport, m1.ovState))
      else if m1.enableHDMIOutput != 0 then m1.(mirroring := UiMirroring)
      else m1
  }

  /** Without true mirroring, once a video is playing the UI stays unmirrored until the
      video stops, whatever HDMI connection events arrive meanwhile. */
  lemma NoMirroringDuringVideo(m: Hdmi, started: int, externalType: int)
    requires !m.trueMirrorSupport && started != 0 && started != m.videoOverlay
    ensures var m1 := VideoOverlayStarted(m, started);
      && m1.mirroring == NoMirroring
      && EnableHdmiOutput(m1, externalType, false).mirroring == NoMirroring
  {
  }
}
