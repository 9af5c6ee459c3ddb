/** The hardware composer's layer cache: it remembers the handles of the layers the
    framebuffer composed, and when a frame arrives whose framebuffer layers all show
    the remembered handles again, it promotes them to overlay so that the
    framebuffer need not be composed again. */
module LayerCache {
  import opened Hwc

  /** The NULL handle. */
  const Null := 0

  /** `LayerCache`: one remembered handle per layer slot (`hnd`, MAX_NUM_LAYERS long),
      the layer count of the last frame, and whether the cache may be used. */
  datatype Cache = Cache(hnd: seq<nat>, numHwLayers: int, canUseLayerCache: bool)

  /** `resetLayerCache`: forgets every handle and records the new layer count. */
  function ResetLayerCache(c: Cache, num: int): (c': Cache)
    ensures |c'.hnd| == |c.hnd| && forall i :: 0 <= i < |c.hnd| ==> c'.hnd[i] == Null
    ensures c'.numHwLayers == num && c'.canUseLayerCache == c.canUseLayerCache
  {
    c.(hnd := seq(|c.hnd|, _ => Null), numHwLayers := num)
  }

  /** Layer `i` is a framebuffer layer whose remembered handle is set and differs. */
  predicate Mismatch(c: Cache, layers: seq<Layer>, i: nat)
    requires i < |layers| <= |c.hnd|
  {
    layers[i].compositionType == Framebuffer && c.hnd[i] != Null && c.hnd[i] != layers[i].handle
  }

  /** The scan of `updateLayerCache` stops at layer `i`: a skip layer, or a mismatch. */
  predicate Stops(c: Cache, layers: seq<Layer>, i: nat)
    requires i < |layers| <= |c.hnd|
  {
    layers[i].skip || Mismatch(c, layers, i)
  }

  /** Layer `k` is where the scan stops. */
  predicate FirstStop(c: Cache, layers: seq<Layer>, k: nat)
    requires k < |layers| <= |c.hnd|
  {
    Stops(c, layers, k) && forall j :: 0 <= j < k ==> !Stops(c, layers, j)
  }

  /** Layer `i` can be taken from the cache: it is not a framebuffer layer, or its
      handle is the remembered, non-NULL one. */
  predicate Matched(c: Cache, layers: seq<Layer>, i: nat)
    requires i < |layers| <= |c.hnd|
  {
    layers[i].compositionType == Framebuffer ==> c.hnd[i] != Null && c.hnd[i] == layers[i].handle
  }

  /** The handle slot `i` holds after a scan that passed it: the layer's handle for a
      framebuffer layer, NULL otherwise. */
  function Remembered(layers: seq<Layer>, i: nat): nat
    requires i < |layers|
  {
    if layers[i].compositionType == Framebuffer then layers[i].handle else Null
  }

  /** Layer `i` is promoted by `markCachedLayersAsOverlay`. */
  predicate Promoted(c: Cache, layers: seq<Layer>, i: nat)
    requires i < |layers| <= |c.hnd|
  {
    && c.canUseLayerCache
    && layers[i].handle != Null && layers[i].handle == c.hnd[i]
    && layers[i].compositionType != FramebufferTarget
  }

  /** `markCachedLayersAsOverlay`: when the cache may be used, every layer other than
      the framebuffer target whose handle is the remembered non-NULL one is handed to
      the overlay. Nothing but the composition type changes, and it changes only to
      overlay. */
  function MarkCachedLayersAsOverlay(c: Cache, layers: seq<Layer>): (out: seq<Layer>)
    requires |layers| <= |c.hnd|
    ensures |out| == |layers|
    ensures !c.canUseLayerCache ==> out == layers
    ensures forall i :: 0 <= i < |layers| ==>
      && out[i].(compositionType := layers[i].compositionType) == layers[i]
      && (out[i] != layers[i] ==> out[i].compositionType == Overlay && Promoted(c, layers, i))
      && (Promoted(c, layers, i) ==> out[i].compositionType == Overlay)
  {
    seq(|layers|, i requires 0 <= i < |layers| =>
      if Promoted(c, layers, i) then layers[i].(compositionType := Overlay) else layers[i])
  }

  /** `updateLayerCache`, followed by the marking it ends with. A geometry change or a
      new layer count resets the cache. Otherwise the layers are scanned in order: a
      skip layer resets the cache, a framebuffer layer whose remembered handle is set
      and different forgets it and ends the update; framebuffer layers are
      remembered and other layers forgotten. The cache may be used exactly when the
      scan completes and every framebuffer layer matched its remembered handle. */
  method UpdateLayerCache(c: Cache, layers: seq<Layer>, geometryChanged: bool)
    returns (c': Cache, out: seq<Layer>)
    requires |layers| <= |c.hnd|
    ensures |c'.hnd| == |c.hnd| && |out| == |layers|
    ensures geometryChanged || |layers| != c.numHwLayers ==>
      c' == ResetLayerCache(c.(canUseLayerCache := false), |layers|) && out == layers
    ensures !geometryChanged && |layers| == c.numHwLayers ==>
      forall k :: 0 <= k < |layers| && FirstStop(c, layers, k) ==>
        && out == layers && !c'.canUseLayerCache
        && (layers[k].skip ==> c' == ResetLayerCache(c.(canUseLayerCache := false), |layers|))
        && (!layers[k].skip ==>
              && c'.numHwLayers == c.numHwLayers
              && c'.hnd[k] == Null
              && (forall j :: 0 <= j < k ==> c'.hnd[j] == Remembered(layers, j))
              && (forall j :: k < j < |c.hnd| ==> c'.hnd[j] == c.hnd[j]))
    ensures !geometryChanged && |layers| == c.numHwLayers && (forall j :: 0 <= j < |layers| ==> !Stops(c, layers, j)) ==>
      && c'.numHwLayers == c.numHwLayers
      && (forall j :: 0 <= j < |layers| ==> c'.hnd[j] == Remembered(layers, j))
      && (forall j :: |layers| <= j < |c.hnd| ==> c'.hnd[j] == c.hnd[j])
      && (c'.canUseLayerCache <==> forall j :: 0 <= j < |layers| ==> Matched(c, layers, j))
      && out == MarkCachedLayersAsOverlay(c', layers)
    // when the cache is used, exactly the framebuffer layers go to the overlay
    ensures c'.canUseLayerCache ==> forall j :: 0 <= j < |layers| ==>
      out[j].compositionType == (if layers[j].compositionType == Framebuffer then Overlay else layers[j].compositionType)
  {
    var cur := c.(canUseLayerCache := false);
    out := layers;
    if geometryChanged || |layers| != c.numHwLayers {
      c' := ResetLayerCache(cur, |layers|);
      return;
    }
    var numFb := 0;
    var numCacheable := 0;
    var i := 0;
    while i < |layers|
      invariant 0 <= i <= |layers|
      invariant forall j :: 0 <= j < i ==> !Stops(c, layers, j)
      invariant |cur.hnd| == |c.hnd| && cur.numHwLayers == c.numHwLayers && !cur.canUseLayerCache
      invariant forall j :: 0 <= j < i ==> cur.hnd[j] == Remembered(layers, j)
      invariant forall j :: i <= j < |c.hnd| ==> cur.hnd[j] == c.hnd[j]
      invariant numCacheable <= numFb
      invariant numCacheable == numFb <==> forall j :: 0 <= j < i ==> Matched(c, layers, j)
    {
      if layers[i].skip {
        c' := ResetLayerCache(cur, |layers|);
        assert FirstStop(c, layers, i);
        return;
      }
      if layers[i].compositionType == Framebuffer {
        numFb := numFb + 1;
        if cur.hnd[i] == Null {
          assert !Matched(c, layers, i);
          cur := cur.(hnd := cur.hnd[i := layers[i].handle]);
        } else if cur.hnd[i] == layers[i].handle {
          assert Matched(c, layers, i);
          numCacheable := numCacheable + 1;
        } else {
          cur := cur.(hnd := cur.hnd[i := Null]);
          c' := cur;
          assert FirstStop(c, layers, i);
          return;
        }
      } else {
        cur := cur.(hnd := cur.hnd[i := Null]);
      }
      i := i + 1;
    }
    if numFb == numCacheable {
      cur := cur.(canUseLayerCache := true);
      forall j | 0 <= j < |layers|
        ensures Promoted(cur, layers, j) <==> layers[j].compositionType == Framebuffer
      {
        assert Matched(c, layers, j);
      }
    }
    c' := cur;
    out := MarkCachedLayersAsOverlay(c', layers);
  }

  /** A reset cache knows nothing: the scan of the next frame never stops on a
      mismatch, a framebuffer layer never matches, and no layer is promoted. */
  lemma ResetForgetsEveryLayer(c: Cache, num: int, layers: seq<Layer>)
    requires |layers| <= |c.hnd|
    ensures var c' := ResetLayerCache(c, num);
      && (forall j :: 0 <= j < |layers| ==>
            && !Mismatch(c', layers, j)
            && (Matched(c', layers, j) <==> layers[j].compositionType != Framebuffer)
            && !Promoted(c', layers, j))
      && MarkCachedLayersAsOverlay(c', layers) == layers
  {
  }

  /** A frame whose layers are the same as the last one's (no geometry change, the
      same count, no skip layer) finds the cache usable as soon as every framebuffer
      layer has a handle: the first update remembers them, the second matches them. */
  lemma SecondFrameMatches(c: Cache, layers: seq<Layer>)
    requires |layers| <= |c.hnd| && |layers| == c.numHwLayers
    requires forall j :: 0 <= j < |layers| ==> c.hnd[j] == Remembered(layers, j) && !layers[j].skip
    requires forall j :: 0 <= j < |layers| && layers[j].compositionType == Framebuffer ==> layers[j].handle != Null
    ensures forall j :: 0 <= j < |layers| ==> !Stops(c, layers, j) && Matched(c, layers, j)
  {
  }
}
