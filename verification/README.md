# Display HAL core: overlay control, framebuffer post ring, composition bookkeeping

This project models the core of an Android display HAL for Qualcomm MSM chipsets in
Dafny, and proves properties of the model. The core has three parts.

- **Overlay library** (`liboverlay/a-family/overlayLib.cpp`):
  - translates HAL pixel formats and transforms to MDP (display processor) values;
  - normalises crops to even values;
  - extracts stereo (S3D) halves;
  - hands out pipes by z-order;
  - picks the rotator downscale and the shift pair that applies it;
  - turns, crops and places an overlay on a control channel;
  - fans a crop out to the two pipes;
  - queues frames through the rotator's output ring.
- **Framebuffer device** (`libgralloc/badger/framebuffer.cpp`):
  - the swap interval;
  - the partial-update rectangle packed into the screen info;
  - the post ring shared by `fb_post` and the display thread `disp_loop`;
  - the HDMI mirroring decisions.
- **Hardware composer utilities** (`libhwcomposer/hwc_utils.cpp`):
  - the per-frame list statistics;
  - the cut-ratio permutation of a transformed layer;
  - the secure-session test;
  - the layer cache that promotes unchanged framebuffer layers to overlay.

State is held in immutable datatypes, and every operation is a function from the old
state to the new one. Each operation returns the success flag the C++ code returns.
Ioctls become outcome parameters (`Device`, `DataDevice`). C `uint32_t` arithmetic is
written out modulo 2^32, and C `int` division truncates toward zero (`CDiv`).

Modules, one per file:
- `Common`: uint32 arithmetic and rectangles.
- `Formats`: formats, orientation and 3D format words.
- `Geometry`: crop normalisation, S3D halves, downscale, shifts and rotation remaps.
- `ZOrder`: the pipe allocator.
- `Control`: the control channel's flags, information, position and crop.
- `Transform`: `setTransform`.
- `DataChannel`: the rotator ring and queueing.
- `Orchestrator`: `Overlay`'s configuration and crop fan-out.
- `PostRing`: `fb_post` / `disp_loop` / `fb_lockBuffer`.
- `FbDevice`: swap interval, update rectangle and HDMI.
- `Hwc`: list statistics, `calc_cut` and `isSecuring`.
- `LayerCache`: the layer cache.

## Model

| member | source | states |
|---|---|---|
| Formats.GetMdpFormat | liboverlay/a-family/overlayLib.cpp:63-96 | an unknown HAL colour (and only that) gives -1; a known one gives the MDP type whose reference HAL colour (`HalOf`) is that colour |
| Formats.GetMdpFormatInverse | liboverlay/a-family/overlayLib.cpp:63-96 | the format table is a bijection between the known HAL colours and the MDP types it reaches: `GetMdpFormat(c) == m` exactly when `HalOf(m) == c` |
| Formats.GetMdpOrientation | liboverlay/a-family/overlayLib.cpp:98-116 | exactly the eight 3-bit HAL transforms are accepted; the rotation bit is kept, the flips are kept without rotation and exchanged with it |
| Formats.GetMdpOrientationInvolution | liboverlay/a-family/overlayLib.cpp:98-116 | the HAL-to-MDP translation is its own inverse on valid transforms |
| Formats.GetS3DFormat | liboverlay/a-family/overlayLib.cpp:668-685 | YV12 gives 0; otherwise a missing input layout is filled from the output layout and vice versa, only the two layout fields survive, and both are set or neither |
| Geometry.NormalizeCrop | liboverlay/a-family/overlayLib.cpp:119-136 | start and length come out even; away from the two wrap-around corners the result is the largest even-aligned sub-interval, and an even interval is unchanged |
| Geometry.GetCropS3D | liboverlay/a-family/overlayLib.cpp:1822-1872 | side-by-side input gives a channel one half of the width, top-bottom one half of the height, each inside the frame; any other layout leaves the rectangle as it was |
| Geometry.CropS3DHalvesTile | liboverlay/a-family/overlayLib.cpp:1822-1872 | the two side-by-side halves are adjacent and of equal size, and the right-to-left layout is the left-to-right one with the channels exchanged |
| Geometry.GetPositionS3D | liboverlay/a-family/overlayLib.cpp:1164-1211 | fails exactly for mono output on a channel other than VG1; a recognised layout lies inside the display; any other layout keeps the position; `Geometry.PositionS3DHalvesTile` states which part each channel gets |
| Geometry.PositionS3DHalvesTile | liboverlay/a-family/overlayLib.cpp:1164-1211 | side by side, VG0 gets the left half and the other channel the adjacent right half of equal width at full height; top-bottom, the same with top and bottom; mono output shows VG1 on the whole display |
| Geometry.RotatorDownscaleCheck | liboverlay/a-family/overlayLib.cpp:1997-2042 | no downscale for an invalid framebuffer, without the rotator, or with an empty destination; otherwise the shift is floor(log2) of the larger truncated ratio, capped at 3 (and 3 for a negative ratio) |
| Geometry.DscaleMonotonic | liboverlay/a-family/overlayLib.cpp:2018-2034 | a larger ratio never selects less downscaling |
| Geometry.AdjustRect | liboverlay/a-family/overlayLib.cpp:2094-2103 | every field becomes its quotient by 2^adj (no field grows); no shift leaves the crop alone |
| Geometry.ResetAdjustRect | liboverlay/a-family/overlayLib.cpp:2105-2114 | every field is multiplied by 2^adj whenever no product overflows 32 bits |
| Geometry.AdjustAfterReset | liboverlay/a-family/overlayLib.cpp:2094-2114 | shifting a crop up and back down restores it when no field overflows |
| Geometry.ResetAfterAdjust | liboverlay/a-family/overlayLib.cpp:2094-2114 | shifting down and back up rounds every field down to a multiple of 2^adj |
| Geometry.StoredRoundTrip | liboverlay/a-family/overlayLib.cpp:1888-1920 | mapping an upright crop to the stored buffer and back is the identity in both directions, for every turn and every uint32 value |
| Geometry.StoredEven | liboverlay/a-family/overlayLib.cpp:1888-1923 | an even crop of a buffer with even sides is stored even for every turn, so normalisation leaves it alone |
| Control.SetInformationFromFlags | liboverlay/a-family/overlayLib.cpp:1315-1351 | each managed MDP flag and `is_fg` is set exactly when its client flag asks for it (no-wait exactly without vsync wait); every other flag and field is kept |
| Control.DoFlagsNeedUpdate | liboverlay/a-family/overlayLib.cpp:1353-1378 | an update is needed exactly when the vsync wait or the framebuffer fetch setting disagrees with the request |
| Control.FlagsSettled | liboverlay/a-family/overlayLib.cpp:1315-1378 | after the flags are applied, the same flags need no update |
| Control.UpdateOverlayFlags | liboverlay/a-family/overlayLib.cpp:1569-1590 | the result is the driver's verdict; the configuration then needs no update for these flags whatever the verdict, and only the no-wait flag, premultiplied blending and `is_fg` change |
| Control.AlignUp | liboverlay/a-family/overlayLib.cpp:1274-1280 | a positive size rounds up to the next multiple of the tile size, by less than one tile |
| Control.FitToFramebuffer | liboverlay/a-family/overlayLib.cpp:1292-1301 | the fit the code means, in exact arithmetic: the destination fits the framebuffer and is never larger than the source; a source that fits is kept as it is |
| Control.TiledSource | liboverlay/a-family/overlayLib.cpp:1272-1284 | with the rotator, a tiled source is padded to whole 64 x 32 tiles and the picture sits at the bottom-right of the padding, less than one tile in |
| Control.Destination | liboverlay/a-family/overlayLib.cpp:1290-1302 | the code's `uint32_t` computation: the destination is at the origin and never taller than the framebuffer, and for every source size, negative ones included, it is never wider than a framebuffer whose area fits 32 bits |
| Control.DestinationAgrees | liboverlay/a-family/overlayLib.cpp:1290-1302 | for a non-negative source whose products with the framebuffer sides fit 32 bits, the computed destination is exactly the intended fit |
| Control.NegativeWidthClamped | liboverlay/a-family/overlayLib.cpp:1293-1296 | a negative width is compared unsigned and clamped: a -1 x 2000 source on a 1920 x 1080 framebuffer gets the full width and height 0 |
| Control.SetOverlayInformation | liboverlay/a-family/overlayLib.cpp:1258-1313 | orientation reset and format recorded; an untiled source is taken whole; the destination is the computed fit, inside any framebuffer whose area fits 32 bits; z-order only on a new request; the flags are those of the client flags alone; nothing outside the overlay configuration changes |
| Control.RotatorDownscaleControl | liboverlay/a-family/overlayLib.cpp:2044-2091 | the chosen shift (none on the UI channel), when the rotator is enabled, the rounding of the rotator crop height to a multiple of 16 for one-eighth, and the reset on a failed start |
| Control.MagLimit | liboverlay/a-family/overlayLib.cpp:1610-1616 | the limit is 8 times the unshifted source length whenever that product fits 32 bits |
| Control.ClampAxis | liboverlay/a-family/overlayLib.cpp:1610-1621 | an over-magnified length is cut to the limit and recentred; a length within the limit is kept; an axis inside the framebuffer stays inside |
| Control.PlacePosition | liboverlay/a-family/overlayLib.cpp:1604-1643 | an unchanged destination succeeds at once; otherwise the destination is the clamped request, success is exactly the driver verdicts, and a failure changes only the downscale shift |
| Control.ProgramOverlay | liboverlay/a-family/overlayLib.cpp:1623-1641 | the shift is undone, the downscale re-checked and the crop shifted again; with the same shift the crop is unchanged, and a failure keeps the configuration |
| Control.SetPosition | liboverlay/a-family/overlayLib.cpp:1592-1644 | refused (with nothing changed) exactly when the channel is down or the uint32 bound check fails; the result lies inside the framebuffer only when the sums did not wrap |
| Control.SetPositionChecked | liboverlay/a-family/overlayLib.cpp:1596-1603 | with the bound check on the true sums, every accepted destination lies inside the framebuffer |
| Control.PositionChecksAgree | liboverlay/a-family/overlayLib.cpp:1596-1603 | the as-written and the checked `setPosition` agree whenever the sums do not wrap |
| Control.SetPositionWrapEscapes | liboverlay/a-family/overlayLib.cpp:1596-1603 | a concrete request that the wrapped check accepts and places outside a 1920-wide framebuffer, and that the checked version refuses |
| Control.NormalizeRect | liboverlay/a-family/overlayLib.cpp:1922-1923 | both axes come out even, and an even rectangle is unchanged |
| Control.SetCrop | liboverlay/a-family/overlayLib.cpp:1875-1967 | refused unchanged when the channel is down or the crop does not fit the axis it is reflected on; a programmed crop is even and magnified at most 8 times; without downscaling it is the request as stored for the current turn |
| Control.ProgramCrop | liboverlay/a-family/overlayLib.cpp:1934-1964 | success is exactly the driver verdicts; the crop is the request shifted by the new amount and made even; the destination is limited to 8 times the crop |
| Control.LimitMagnification | liboverlay/a-family/overlayLib.cpp:1950-1956 | each destination side ends at most 8 times the crop side and never grows; a destination within the limit is kept |
| Control.SetCropRecoversUpright | liboverlay/a-family/overlayLib.cpp:1875-1967 | for an even crop that fits, without downscaling, the programmed crop maps back to exactly the requested upright crop |
| Control.SwapOvRotWidthHeightInvolution | liboverlay/a-family/overlayLib.cpp:1646-1658 | swapping twice restores the channel |
| Transform.TransformRemapAsWritten | liboverlay/a-family/overlayLib.cpp:1697-1775 | the remap as written: a value that is no transform is refused; the crop keeps its size, turned when the dimensions swap; an old orientation other than the exact quarter turns leaves the crop alone when going to the upright family |
| Transform.TransformRemap | liboverlay/a-family/overlayLib.cpp:1697-1775 | the intended remap: the dimensions swap exactly when one turn is a quarter turn and the other is not, and the upright crop is unchanged |
| Transform.TransformRemapRoundTrip | liboverlay/a-family/overlayLib.cpp:1697-1775 | turning to a new orientation and back restores the stored crop |
| Transform.TransformRemapAgrees | liboverlay/a-family/overlayLib.cpp:1697-1775 | on every pair of orientations outside `Mishandled` (the cases of the first two findings), the code as written computes exactly the intended remap, for every buffer and crop |
| Transform.MishandledDiffers | liboverlay/a-family/overlayLib.cpp:1697-1775 | every pair in `Mishandled` does go wrong: on one 640 x 480 crop the code as written and the intended remap differ, so `Mishandled` is exactly the set of pairs the code gets wrong |
| Transform.FlippedQuarterNotUndone | liboverlay/a-family/overlayLib.cpp:1698-1717 | a concrete flipped quarter turn that the code as written does not undo |
| Transform.HalfTurnNotRemapped | liboverlay/a-family/overlayLib.cpp:1738-1755 | a concrete half turn from upright that keeps the crop where `setCrop` would reflect it |
| Transform.HalfTurnTakenForUpright | liboverlay/a-family/overlayLib.cpp:1718-1737 | a concrete crop held for `MDP_ROT_180` that a quarter turn stores as if it were upright, at a different place than the picture it shows |
| Transform.FlippedQuarterNotRemapped | liboverlay/a-family/overlayLib.cpp:1756-1773 | a concrete crop held for a flipped quarter turn that a three-quarter turn leaves in place, where the intended remap moves it to the opposite corner |
| Transform.FinishTransform | liboverlay/a-family/overlayLib.cpp:1784-1806 | success is exactly the driver verdicts; the crop is shifted by the new amount; the rotated-source flag follows the request whenever the rotator started |
| Transform.SetTransform | liboverlay/a-family/overlayLib.cpp:1672-1807 | down channel refused; an unchanged orientation succeeds at once; without rotator nothing is recorded; an invalid value is refused after the shift was undone; a carried-out transform records the orientation and flags the plain quarter turns |
| Transform.SetTransformCorrected | liboverlay/a-family/overlayLib.cpp:1672-1807 | invalid values refused unchanged; the upright buffer and, without downscaling, the upright crop are preserved; the rotated-source flag follows every quarter turn |
| Transform.InvalidTransformUnshiftsCrop | liboverlay/a-family/overlayLib.cpp:1693-1774 | a concrete channel whose crop is left unshifted by an invalid value while the shift amount stays recorded; the corrected version leaves it alone |
| Transform.SetTransformCorrectedThereAndBack | liboverlay/a-family/overlayLib.cpp:1672-1807 | going to any transform and back to upright restores the crop and the buffer when neither step downscales |
| Transform.SetTransformQuarterThenBack | liboverlay/a-family/overlayLib.cpp:1698-1737 | as written, a quarter turn swaps the buffer, and going back to upright restores crop and buffer when neither step downscales |
| ZOrder.FirstFree | liboverlay/a-family/overlayLib.cpp:212-228 | the first-fit scan finds the lowest free slot, or reports that every slot is taken |
| ZOrder.GetZ | liboverlay/a-family/overlayLib.cpp:203-238 | at the global limit nothing changes; otherwise the lowest free slot of the bank is taken and returned (none if all are taken), the other bank is untouched, and the count goes up by one in every case |
| ZOrder.DecZ | liboverlay/a-family/overlayLib.cpp:240-261 | frees exactly the given slot of the bank and decrements a positive count |
| ZOrder.DecZThenGetZ | liboverlay/a-family/overlayLib.cpp:203-261 | freeing a pipe whose lower slots are all taken and asking again returns the same pipe and restores the allocator |
| ZOrder.GetZCounted | liboverlay/a-family/overlayLib.cpp:203-238 | the same pipe and banks as `getZ`, with the count raised only when a pipe was handed out |
| ZOrder.GetZCountedKeepsCount | liboverlay/a-family/overlayLib.cpp:203-238 | with the counted version the count stays equal to the number of taken slots |
| ZOrder.DecZKeepsCount | liboverlay/a-family/overlayLib.cpp:240-261 | freeing a taken slot keeps the count equal to the number of taken slots |
| ZOrder.GetZLeaksCount | liboverlay/a-family/overlayLib.cpp:203-238 | a concrete allocator where the code as written counts a pipe it does not hand out and then refuses a free bank |
| DataChannel.MapRing | liboverlay/a-family/overlayLib.cpp:2228-2233 | the ring starts at buffer 0 with buffer i at offset i times the buffer size (modulo 2^32); `DataChannel.FirstRoundUsesEveryBuffer` shows its buffers do not overlap when the memory fits 32 bits |
| DataChannel.Advance | liboverlay/a-family/overlayLib.cpp:2358-2359 | the frame goes to the current buffer and the ring moves to the next, wrapping after the last; `DataChannel.RingPeriod` shows it returns to its start after one round |
| DataChannel.ScheduleWithinRound | liboverlay/a-family/overlayLib.cpp:2358-2359 | within one round, k frames use the next k buffers in order |
| DataChannel.AdvanceWithinRound | liboverlay/a-family/overlayLib.cpp:2358-2359 | within one round the ring is back at buffer 0 exactly when the round completes |
| DataChannel.AdvanceManyAdd | liboverlay/a-family/overlayLib.cpp:2358-2359 | queueing in two batches moves the ring as far as one batch of both |
| DataChannel.RingPeriod | liboverlay/a-family/overlayLib.cpp:2358-2359 | after as many frames as there are buffers the ring is where it started |
| DataChannel.FirstRoundUsesEveryBuffer | liboverlay/a-family/overlayLib.cpp:2230-2233 | a fresh ring hands out every buffer once, in order, and the buffers do not overlap when the memory fits in 32 bits |
| DataChannel.BuffersApart | liboverlay/a-family/overlayLib.cpp:2232-2233 | a lower buffer ends before a higher one starts when no offset wraps |
| DataChannel.Queue | liboverlay/a-family/overlayLib.cpp:2350-2376 | the result is the play verdict; without rotator the client buffer is shown; with it the ring advances and the rotated buffer is shown exactly when the rotation worked |
| DataChannel.QueueBuffer | liboverlay/a-family/overlayLib.cpp:2314-2348 | a down channel or missing buffer is refused unchanged; a pending size update remaps the ring at the new size and restarts it at buffer 0, and a failed remap takes the channel down |
| Orchestrator.GetOverlayConfig | liboverlay/a-family/overlayLib.cpp:353-380 | the configuration is on the TV exactly when HDMI is connected, stereo exactly for 3D content, and shown in 3D exactly when the display in use supports it |
| Orchestrator.OverlayConfigDetermined | liboverlay/a-family/overlayLib.cpp:353-380 | those three facts determine the configuration |
| Orchestrator.CropRequest | liboverlay/a-family/overlayLib.cpp:839-885 | which pipe is asked for which crop in each configuration: VG1 never in the VG0-only ones; the whole frame for VG0 in the 2D ones and for both pipes on the TV; every stereo configuration asks VG0 and all but 3D on the 2D panel ask VG1; 3D shown in 2D uses the VG0 half; for a recognised layout every stereo request lies inside the frame |
| Orchestrator.StereoHalvesTile | liboverlay/a-family/overlayLib.cpp:872-881 | in a 3D configuration the two pipes get equal halves, side by side or stacked as the input layout says |
| Orchestrator.OverlaySetCrop | liboverlay/a-family/overlayLib.cpp:830-887 | a closed overlay is refused; the requested size is recorded; VG0 is cropped first and VG1 only when VG0 accepted; VG0-only configurations leave VG1 alone |
| Orchestrator.TvPipesCroppedAlike | liboverlay/a-family/overlayLib.cpp:848-871 | on a TV configuration, two identical pipes stay identical after a successful crop |
| PostRing.BufferCount | libgralloc/badger/framebuffer.cpp:846-856 | the property is used when it is in range, the kernel count otherwise, and the result never exceeds the maximum |
| PostRing.InitialSwapInterval | libgralloc/badger/framebuffer.cpp:938-949 | the property is used when it lies within the bounds, 1 otherwise; `FbDevice.InitialIntervalAccepted` shows the device then accepts it |
| PostRing.Init | libgralloc/badger/framebuffer.cpp:957-965 | every slot starts free and AVL, nothing is queued or shown, and the slot discipline holds |
| PostRing.Reuses | libgralloc/badger/framebuffer.cpp:633-648 | the frame-drop rule of `fb_post`; its meaning is `PostRing.ReusesExactlyWhenBusy` |
| PostRing.ReusesExactlyWhenBusy | libgralloc/badger/framebuffer.cpp:633-648 | under the slot discipline, with swap interval 0 and the lock free, a frame is dropped exactly when the next slot is shown or queued; with a nonzero interval never |
| PostRing.Post | libgralloc/badger/framebuffer.cpp:618-724 | invalid handle refused with -EINVAL; a non-framebuffer buffer leaves the ring alone; otherwise the next slot is submitted and queued, or with the frame-drop rule only the current buffer changes |
| PostRing.DispStep | libgralloc/badger/framebuffer.cpp:138-209 | the display thread pops the head, which goes on screen as REF; on the first frame it is also marked available; on later frames the slot that was on screen becomes available and AVL; no other slot changes |
| PostRing.DispStepAfterFirstFrame | libgralloc/badger/framebuffer.cpp:185-205 | once a frame is on screen the display step as written is the corrected one, so it keeps the slot discipline: the first frame is the only difference |
| PostRing.DispStepCorrected | libgralloc/badger/framebuffer.cpp:138-209 | the display step with the first frame treated like the others keeps the slot discipline |
| PostRing.DispCorrectedKeepsInv | libgralloc/badger/framebuffer.cpp:185-205 | the corrected display step keeps every queued slot submitted and queued once, the shown slot taken, and every other slot free |
| PostRing.LockBufferReturns | libgralloc/badger/framebuffer.cpp:734-751 | when `fb_lockBuffer` returns without waiting; `PostRing.AvailableMeansFree` shows that with a nonzero interval the slot is then neither shown nor queued |
| PostRing.AvailableMeansFree | libgralloc/badger/framebuffer.cpp:734-751 | under the discipline a slot is available exactly when AVL and exactly when neither queued nor shown, so `fb_lockBuffer` with a nonzero swap interval never releases a busy slot |
| PostRing.PostKeepsInv | libgralloc/badger/framebuffer.cpp:618-724 | a post keeps the discipline, and a queued post never takes the shown slot or a queued one |
| PostRing.EnqueueKeepsInv | libgralloc/badger/framebuffer.cpp:618-724 | queueing a slot that is neither shown nor queued keeps the discipline |
| PostRing.FirstFrameLeftAvailable | libgralloc/badger/framebuffer.cpp:178-184 | a concrete sequence of posts and display steps after which a queued slot is marked free and the discipline is broken |
| PostRing.FirstFrameKeptCorrected | libgralloc/badger/framebuffer.cpp:138-209 | the same sequence with the corrected display step drops the frame instead and keeps the discipline |
| FbDevice.SetSwapInterval | libgralloc/badger/framebuffer.cpp:105-122 | the property overrides the request; an interval out of range is refused with -EINVAL and the old one kept, otherwise it is stored |
| FbDevice.InitialIntervalAccepted | libgralloc/badger/framebuffer.cpp:940-948 | the interval the module starts with (the property when in range, 1 otherwise) is within the device's bounds, so `fb_setSwapInterval` accepts it |
| FbDevice.SwapIntervalSettles | libgralloc/badger/framebuffer.cpp:105-122 | a stored interval is in range, and setting it again changes nothing |
| FbDevice.GuardMeaning | libgralloc/badger/framebuffer.cpp:124-136 | the OR-ed sign test refuses exactly a negative corner, a negative size, or a zero-by-zero size |
| FbDevice.PackHalves | libgralloc/badger/framebuffer.cpp:124-136 | the packed word is the low 16 bits of one value plus the low 16 bits of the other times 2^16 |
| FbDevice.SetUpdateRect | libgralloc/badger/framebuffer.cpp:124-136 | refused with -EINVAL (storing nothing) exactly for a negative corner or size or a zero-by-zero size; otherwise the tag and both corners (modulo 2^32) are packed into the three reserved words |
| FbDevice.UpdateRectUnpacks | libgralloc/badger/framebuffer.cpp:124-136 | corners that fit 16 bits are read back exactly from the packed words |
| FbDevice.GetOverlayState | libgralloc/badger/framebuffer.cpp:270-314 | no video means UI mirroring; 2D video on the panel goes to true mirroring or to panel plus TV; 3D on a 2D panel adds the TV; any other state, or no module, is kept |
| FbDevice.OverlayStateSettles | libgralloc/badger/framebuffer.cpp:270-314 | deciding again from the decided state changes nothing |
| FbDevice.InitHdmi | libgralloc/badger/framebuffer.cpp:1002 | mirroring starts off and the mirroring invariant holds |
| FbDevice.EnableHdmiOutput | libgralloc/badger/framebuffer.cpp:483-509 | on connection the UI is mirrored when true mirroring is supported or no video plays; on disconnection mirroring stops and the configuration is decided again; mirroring never outlives HDMI output |
| FbDevice.VideoOverlayStarted | libgralloc/badger/framebuffer.cpp:451-481 | only a change does anything: a video that rules out mirroring stops it and re-decides the configuration, otherwise the UI is mirrored with HDMI on; the invariant is kept |
| FbDevice.NoMirroringDuringVideo | libgralloc/badger/framebuffer.cpp:451-509 | without true mirroring, a playing video keeps the UI unmirrored through any HDMI connection event |
| Hwc.IsAlphaScaled | libhwcomposer/hwc_utils.cpp:121-138 | the alpha-scaling test; `Hwc.AlphaScaledInvariants` states what it means |
| Hwc.AlphaScaledInvariants | libhwcomposer/hwc_utils.cpp:121-138 | an unblended or unscaled layer never needs alpha scaling, and moving a layer does not change the answer |
| Hwc.SetListStats | libhwcomposer/hwc_utils.cpp:140-169 | the skip and video counts over the non-target layers, the last video layer (-1 exactly when there is none), and alpha scaling exactly when some counted layer needs it |
| Hwc.YuvCountZero | libhwcomposer/hwc_utils.cpp:140-169 | there is no counted video layer exactly when the video count is zero |
| Hwc.CalcCut | libhwcomposer/hwc_utils.cpp:172-188 | the ratios are permuted (none lost or duplicated): the flips exchange opposite sides first, then a quarter turn moves each ratio one side round, stated side by side for every transform |
| Hwc.Rot270IsThreeQuarters | libhwcomposer/hwc_utils.cpp:172-188 | `HAL_TRANSFORM_ROT_270` (both flips and a quarter turn) moves the ratios as three quarter turns do |
| Hwc.FlipsUndo | libhwcomposer/hwc_utils.cpp:172-188 | a flip-only transform applied twice gives the ratios back |
| Hwc.QuarterTurns | libhwcomposer/hwc_utils.cpp:172-188 | four quarter turns give the ratios back, and two equal flipping both ways |
| LayerCache.ResetLayerCache | libhwcomposer/hwc_utils.cpp:295-300 | every handle forgotten and the count recorded; `LayerCache.ResetForgetsEveryLayer` shows a reset cache matches and promotes nothing |
| LayerCache.ResetForgetsEveryLayer | libhwcomposer/hwc_utils.cpp:295-360 | after a reset no layer is a mismatch, exactly the non-framebuffer layers count as matched, and no layer goes to overlay |
| LayerCache.MarkCachedLayersAsOverlay | libhwcomposer/hwc_utils.cpp:346-360 | with the cache usable, exactly the non-target layers showing their remembered non-NULL handle go to overlay; nothing else changes |
| LayerCache.UpdateLayerCache | libhwcomposer/hwc_utils.cpp:302-344 | a geometry or count change resets; the scan stops at the first skip (reset) or mismatch (that slot forgotten); a full scan remembers framebuffer handles and makes the cache usable exactly when every framebuffer layer matched, after which exactly those layers go to overlay |
| LayerCache.SecondFrameMatches | libhwcomposer/hwc_utils.cpp:316-338 | a repeated frame whose framebuffer layers have handles passes the scan with every layer matched |

## Left out

- Device and file I/O. `open`, `ioctl`, `mmap` and the pmem allocation appear only as their outcome (`Device`, `DataDevice`, the `lockHeld` trylock result). Android properties are parameters.
- Threads, mutexes and condition variables. The producer and the display thread are whole, separate transitions. `fb_lockBuffer`'s wait becomes the predicate `LockBufferReturns`.
- Floating point: `getAspectRatioPosition`, `calculate_crop_rects`, and the fps and dpi computations.
- The second overlay object's calls and `hdmi_ui_loop`. `setOverlayState` is modelled as setting the recorded configuration.
- The external display module (`external.h`), debug logging and `dump`.
- Header constants are taken from the public Android and MSM headers, because the headers are not part of this model:
  - the HAL and MDP transform bits;
  - the 3D masks;
  - MDP_V3_0 = 300 and MDSS_V5 = 500;
  - HWC_BLENDING_NONE = 0x100;
  - VIDEO_3D_OVERLAY_STARTED = 2;
  - NUM_CHANNELS = 2, the size of the primary pipe bank `mFB0Pipes`; the secondary bank has `mMaxPipes` slots.
  NUM_FRAMEBUFFERS_MIN/MAX and the swap-interval bounds are parameters.
- The copy branch of `fb_post` for a buffer that is not a framebuffer: the ring is unchanged and the pixel copy is left out.
- `fb_orientationChanged` and the secure-session handlers, except the `isSecuring` test.
- Hwc.IsSecuring: a plain definition, a three-way test of the MDP version and the securing flag, with no contract: there is nothing about it to prove beyond its definition.
- InitialSwapInterval: models the build with `NO_SURFACEFLINGER_SWAPINTERVAL`; the other build sets the interval to 1.
- `isSkipLayer` and `isYuvBuffer` are booleans of the layer, because the handle flags they read are not part of this model.
- MAX_NUM_LAYERS is the length of the cache's handle array; `UpdateLayerCache` requires at most that many layers.
- `setSource`, `startChannel` and the other per-pipe fan-outs of `Overlay`. Only `setCrop` is modelled.
- The overlay `id`, `alpha` and `transp_mask` fields, which no modelled decision reads.
- DecZ: indexing outside the bank is undefined in the source, so the model requires a slot inside the bank.
- DispStep and DispStepCorrected: they require a queued frame, because `disp_loop` waits on an empty queue.
- SetUpdateRect accepts a zero width with a nonzero height, as the source's guard does.
- UpdateRectUnpacks: the read-back is stated only for corners below 2^16; larger corners lose their high bits in the packed words.
- SetTransformCorrectedThereAndBack and SetTransformQuarterThenBack: restoring the crop is stated only when neither step picks a rotator downscale, because a downscale rounds the crop down.
- SetCropRecoversUpright: stated only without downscaling, for the same reason.
- `mFBWidth` and `mFBHeight` are taken to be `uint32_t` (the `fb_var_screeninfo` resolution they are read from), because the class header is not part of this model.
- FitToFramebuffer: computes in exact arithmetic, so its products never wrap; it is the intended fit, and `DestinationAgrees` states where the code's `uint32_t` computation equals it.
- Destination: the bound on the width is stated only for a framebuffer whose area fits 32 bits; beyond that a wrapped product can leave the width above the framebuffer's.
- Control.SetPosition: the clamp arithmetic `(mFBWidth - w) / 2` is modelled on uint32 operands, with the framebuffer size as a uint32 value.

## Findings

| source | as written | input that shows it | evidently intended | confidence | as-written member | corrected member |
|---|---|---|---|---|---|---|
| liboverlay/a-family/overlayLib.cpp:1697-1775 | the old orientation is recognised as a quarter turn only when it is exactly `MDP_ROT_90`; the flipped quarter turns (`MDP_ROT_90` with a flip), which `setCrop` treats as quarter turns, are left in stored coordinates, unswapped, when going to the upright family, to a half turn or to a three-quarter turn | buffer 480 x 640, crop (0, 0, 480, 640), old orientation `MDP_ROT_90 \| MDP_FLIP_LR`, new value 0: the crop stays (0, 0, 480, 640) and the buffer unswapped; with new value `HAL_TRANSFORM_ROT_270`, a crop (0, 0, 240, 320) stays where it was | the crop is turned back to the upright (0, 0, 640, 480) and the buffer swapped; for the three-quarter turn the crop moves to (240, 320, 240, 320) | not executed | Transform.TransformRemapAsWritten (counterexamples Transform.FlippedQuarterNotUndone, Transform.FlippedQuarterNotRemapped, Transform.MishandledDiffers) | Transform.TransformRemap (Transform.TransformRemapRoundTrip, Transform.SetTransformCorrectedThereAndBack) |
| liboverlay/a-family/overlayLib.cpp:1697-1775 | a half turn is treated as upright, although `setCrop` stores a crop for a half turn reflected on both axes: from or to the upright family the crop is not remapped, and from `MDP_ROT_180` to a quarter or three-quarter turn the stored crop is turned as if it were the upright one | buffer 640 x 480, crop (0, 0, 320, 240), old orientation 0, new value `HAL_TRANSFORM_ROT_180`: the crop stays at (0, 0); old orientation `MDP_ROT_180`, new value `HAL_TRANSFORM_ROT_90`: the crop is stored at (240, 0, 240, 320) | the crop moves to (320, 240, 320, 240), as `setCrop` would store it; for the quarter turn it is stored at (0, 320, 240, 320) | not executed | Transform.TransformRemapAsWritten (counterexamples Transform.HalfTurnNotRemapped, Transform.HalfTurnTakenForUpright, Transform.MishandledDiffers) | Transform.TransformRemap (Transform.TransformRemapRoundTrip) |
| liboverlay/a-family/overlayLib.cpp:1693-1774 | an invalid value returns false after the crop shift was undone, while the shift amount stays recorded, so the next reconfiguration shifts the crop up a second time | a channel whose 1920 x 1080 crop is kept shifted by one (960 x 540), `setTransform(8)`: the crop reads 1920 x 1080 with shift 1, which means 3840 x 2160 | an invalid value is refused before anything changes | not executed | Transform.SetTransform (counterexample Transform.InvalidTransformUnshiftsCrop) | Transform.SetTransformCorrected |
| liboverlay/a-family/overlayLib.cpp:203-238 | `getZ` increments the in-use count even when it hands out no pipe (the bank is full or the framebuffer number invalid), so the count drifts above the number of taken slots | primary bank full, secondary bank of 3 all free, count 2 of 3: `getZ(FRAMEBUFFER_0)` returns no pipe but counts 3, after which `getZ(FRAMEBUFFER_1)` is refused | the count goes up only when a pipe is handed out, and stays equal to the taken slots | not executed | ZOrder.GetZ (counterexample ZOrder.GetZLeaksCount) | ZOrder.GetZCounted (ZOrder.GetZCountedKeepsCount, ZOrder.DecZKeepsCount) |
| liboverlay/a-family/overlayLib.cpp:1596-1603 | the bound check sums `x + w` in `uint32_t`, so a width close to 2^32 wraps the sum below the framebuffer width | 1920 x 1080 framebuffer, `setPosition(1, 0, 0xFFFFFFFF, 1080)`: accepted, and the clamp places the overlay at x = 2147482048 with width 5120 | a destination that does not fit the framebuffer is refused | not executed | Control.SetPosition (counterexample Control.SetPositionWrapEscapes) | Control.SetPositionChecked (Control.PositionChecksAgree) |
| libgralloc/badger/framebuffer.cpp:178-184 | on the first frame the display thread marks the shown slot available (`is_avail = true`) while it is on screen, so with swap interval 0 the producer can queue into the slot being scanned out, and after the next display step a queued slot is marked free | two buffers, swap interval 0: post, display, post, post, display; slot 0 ends up queued and marked free | the shown slot stays taken until the next frame replaces it, as on later frames | not executed | PostRing.DispStep (counterexample PostRing.FirstFrameLeftAvailable) | PostRing.DispStepCorrected (PostRing.DispCorrectedKeepsInv, PostRing.PostKeepsInv, PostRing.FirstFrameKeptCorrected) |
