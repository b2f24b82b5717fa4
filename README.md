# Camera controllers of Qt Multimedia, modelled in Dafny

This project models three small controllers of the Qt Multimedia camera stack
and proves what they promise.

- **Torch** (`torch.dfy`, module `Torch`) models the declarative Torch element
  (`QDeclarativeTorch`). Its `enabled` flag is the Torch flag of the flash
  control's flash-mode set. It is updated read-modify-write, so no other flag
  changes. Its `power` is the FlashPower parameter of the exposure control,
  clamped to [0, 100] on writes. Either control may be absent. Then `enabled`
  reads false, `power` reads 0, and writes do nothing. A write emits
  `enabledChanged` or `powerChanged` only when the value it asks for differs
  from the current one. While the camera holds the flash hardware, the flash
  control ignores the new mode, yet `enabledChanged` is still emitted. A change
  the camera makes to the flash mode emits nothing, because the flash control
  has no change signal. Every FlashPower report from the exposure control is
  re-emitted as `powerChanged` (`ParameterChanged`), whether or not the value
  differs. The controls are `Option` fields: a flash-mode set, and a map of
  exposure parameters. Emitted signals are appended to a log.
- **Still-image capture** (`image_capture.dfy`, module `ImageCapture`) models
  `QGstreamerImageCaptureControl`. Every `capture` call takes the next request
  id, starting at 1. The call is rejected when the session's *pending* state
  is Stopped or its capture mode lacks Image. A rejection queues one
  `NotReadyError` with that id for the event loop. An accepted call makes
  exactly one `captureImage(id, path)` call on the session. An empty file name
  becomes `img_NNNN.jpg`, one above the highest number in the directory
  listing. `updateState` recomputes readiness from the session's *current*
  state and emits `readyForCaptureChanged` only on a change. `isReadyForCapture`
  returns the stored flag (`ImageCaptureControl.IsReadyForCapture`). The
  session is a plain object with `state`, `pendingState`, `captureMode` and a
  log of the `captureImage` calls it received.
- **Video encoder** (`video_encoder.dfy`, module `VideoEncoder`) models
  `CameraBinVideoEncoder`. `rateAsRational` searches the fixed denominator list
  1, 2, 3, 5, 10, 25, 30, 50, 100, 1001, 1000 for the least rounding error. It
  keeps the earlier candidate on a tie and stops at the first error below
  1e-8. Rates at or below 0.001 give (0, 0). The method is proved against
  `IsRationalRate`: among the candidates the loop visits, the pair comes from
  the first one with the least error. `RationalRateUnique` shows that at most
  one pair meets this. `supportedFrameRates` keeps the pairs with a positive
  denominator, as num/den, in order. The settings pair has set, override
  (`setActualVideoSettings`) and reset operations.

`wrappers.dfy` holds the `Option` datatype.

Frame rates are exact Dafny `real`s. qRound is `Floor(x + 1/2)`. For the
positive arguments used here this is exactly Qt's formula, and exact
arithmetic gives the same value for negative arguments too.

Three behaviours of the code that a reader might not expect, and that the
model keeps:

- The denominator list tries 1001 before 1000, not in numeric order
  (`camerabinvideoencoder.cpp:125`). Because the comparison is a strict `<`,
  the order decides only a tie between the two. 2001/1001000 is 1/1001000
  away from both 2/1001 and 2/1000, and gives (2, 1001) (`RateTie`).
- The search breaks at the first candidate within 1e-8, so for 29.97 the
  loop stops at 2997/100 and never tries 1001 or 1000 (`Rate2997`). This
  saves work. The model does not claim the result would be different without
  the break.
- `isReadyForCapture` does not look at the pipeline. It returns the flag that
  `updateState` last stored (`qgstreamerimagecapturecontrol.cpp:59-62`).
  `ImageCaptureControl.Valid` states that this flag equals the argument of the
  last `readyForCaptureChanged` (false before any). The constructor establishes
  it, and `Capture` and `UpdateState` preserve it.

The session's `State` values (StoppedState, PreviewState, PausedState,
RecordingState) and capture-mode flags (Audio, Video, Image) come from the
capture session's header. That header (`qgstreamercapturesession.h`) is not
part of this model. Nor are the headers that declare the flash modes, the
exposure parameters and the capture error kinds. The model gives those enums
as datatypes with the same names.

## Model

| member | source | states |
|---|---|---|
| `Torch.ClampPower` | src/imports/multimedia/qdeclarativetorch.cpp:168 | the result lies in [0, 100]; it is p when p is in range, 0 below and 100 above |
| `Torch.ClampPowerExamples` | src/imports/multimedia/qdeclarativetorch.cpp:168 | -5 clamps to 0, 150 to 100, 75 stays 75 |
| `Torch.Torch.constructor` | src/imports/multimedia/qdeclarativetorch.cpp:73-86 | each control is present or absent as given; the camera does not hold the flash hardware; no signal has been emitted |
| `Torch.Torch.Enabled` | src/imports/multimedia/qdeclarativetorch.cpp:105-111 | false when there is no flash control |
| `Torch.Torch.Power` | src/imports/multimedia/qdeclarativetorch.cpp:151-157 | 0 when there is no exposure control |
| `Torch.Torch.SetEnabled` | src/imports/multimedia/qdeclarativetorch.cpp:114-137 | without a flash control nothing changes and nothing is emitted; with one, every flag other than Torch is as before, and afterwards `Enabled() == on` unless the camera holds the flash hardware, in which case the flash mode is unchanged; `enabledChanged` is appended exactly once iff the Torch flag differed from `on`, whether or not the write took effect; the exposure control is untouched |
| `Torch.Torch.WriteFlashMode` | src/imports/multimedia/qdeclarativetorch.cpp:114-117 | the flash control takes the new mode unless the camera holds the flash hardware, in which case the write is ignored; nothing is emitted |
| `Torch.Torch.CameraSetsFlash` | src/imports/multimedia/qdeclarativetorch.cpp:85-104 | a flash-mode change made by the camera (taking or releasing the flash hardware) updates the flash control but emits nothing; without a flash control nothing changes |
| `Torch.Torch.SetPower` | src/imports/multimedia/qdeclarativetorch.cpp:163-173 | without an exposure control nothing changes and nothing is emitted; with one, afterwards `Power()` is p clamped to [0, 100]; FlashPower is written and `powerChanged` appended only when the clamped value differs from the old power; no other parameter and no flash state changes |
| `Torch.Torch.ParameterChanged` | src/imports/multimedia/qdeclarativetorch.cpp:176-181 | appends `powerChanged` iff the parameter is FlashPower, whatever its value; the element's state does not change |
| `Torch.Torch.ExposureParameterChanged` | src/imports/multimedia/qdeclarativetorch.cpp:82-83 | without an exposure control nothing happens (the signal is not connected); with one, the parameter takes the reported value, so `Power()` is that value for FlashPower, and `powerChanged` is appended iff the parameter is FlashPower |
| `Torch.SetEnabledTwice` | src/imports/multimedia/qdeclarativetorch.cpp:114-137 | of two identical `SetEnabled` calls, only the first emits `enabledChanged`, and only when the Torch flag differed from `on`; while the camera holds the flash hardware, the ignored write makes both calls emit |
| `Torch.SetPowerTwice` | src/imports/multimedia/qdeclarativetorch.cpp:163-173 | two identical `SetPower` calls emit at most one `powerChanged` in total |
| `ImageCapture.ToInt` | src/plugins/gstreamer/mediacapture/qgstreamerimagecapturecontrol.cpp:86 | text that is empty or not all digits reads as 0 |
| `ImageCapture.DecimalString` | src/plugins/gstreamer/mediacapture/qgstreamerimagecapturecontrol.cpp:90-93 | the decimal text of n is non-empty, all digits, and reads back as n; it has no leading zero except for "0" itself |
| `ImageCapture.PadLeft` | src/plugins/gstreamer/mediacapture/qgstreamerimagecapturecontrol.cpp:90-93 | the result is at least `width` long, ends with the original text, and everything before it is the fill character |
| `ImageCapture.LeadingZeros` | src/plugins/gstreamer/mediacapture/qgstreamerimagecapturecontrol.cpp:86-93 | zeros put in front of a digit string keep it all digits and do not change its value |
| `ImageCapture.Mid` | src/plugins/gstreamer/mediacapture/qgstreamerimagecapturecontrol.cpp:86 | within bounds, `mid(position, n)` is the n characters from `position`; it is never longer than the string |
| `ImageCapture.ImageNumber` | src/plugins/gstreamer/mediacapture/qgstreamerimagecapturecontrol.cpp:86 | for a name of the form `img_…jpg`, the number is the value of the text between `img_` and `.jpg` when that text is all digits, and 0 otherwise |
| `ImageCapture.ImageFileName` | src/plugins/gstreamer/mediacapture/qgstreamerimagecapturecontrol.cpp:90-93 | the generated name has the form `img_…jpg`, with at least four characters between `img_` and `.jpg`, and those are all digits |
| `ImageCapture.ImageFileNameRoundTrip` | src/plugins/gstreamer/mediacapture/qgstreamerimagecapturecontrol.cpp:85-93 | a generated name `img_<n, zero-padded to 4>.jpg` has the form `img_…jpg`, and the scan reads n back from it |
| `ImageCapture.MaxImageNumber` | src/plugins/gstreamer/mediacapture/qgstreamerimagecapturecontrol.cpp:83-88 | the result is at least the number of every listed name, and it is 0 or the number of some listed name |
| `ImageCapture.AutoImagePath` | src/plugins/gstreamer/mediacapture/qgstreamerimagecapturecontrol.cpp:82-94 | the loop computes `img_` + (max + 1), zero-padded to at least 4 digits, + `.jpg`; the name has the form `img_…jpg`, its number is above every listed number, and it is not in the listing |
| `ImageCapture.AutoNameExample` | src/plugins/gstreamer/mediacapture/qgstreamerimagecapturecontrol.cpp:82-94 | with `img_0001.jpg` and `img_0003.jpg` listed, the next name is `img_0004.jpg` |
| `ImageCapture.WideImageNumber` | src/plugins/gstreamer/mediacapture/qgstreamerimagecapturecontrol.cpp:90-93 | field width 4 is a minimum: number 10000 gives `img_10000.jpg` |
| `ImageCapture.AcceptsCapture` | src/plugins/gstreamer/mediacapture/qgstreamerimagecapturecontrol.cpp:69-70 | the rejection condition of lines 69-70 (pending state Stopped, or no Image in the capture mode), which `Capture`'s ensures use; it has no contract of its own |
| `ImageCapture.ReadyFor` | src/plugins/gstreamer/mediacapture/qgstreamerimagecapturecontrol.cpp:108-109 | ready means previewing in image mode, and a session ready in a state accepts captures whose pending state is that state |
| `ImageCapture.CaptureSession.constructor` | src/plugins/gstreamer/mediacapture/qgstreamerimagecapturecontrol.cpp:46-49 | the session the control is built on has the given state, pending state and capture mode, and has received no captureImage call |
| `ImageCapture.CaptureSession.CaptureImage` | src/plugins/gstreamer/mediacapture/qgstreamerimagecapturecontrol.cpp:96 | the session records the `(id, path)` call and its state and capture mode do not change |
| `ImageCapture.ImageCaptureControl.constructor` | src/plugins/gstreamer/mediacapture/qgstreamerimagecapturecontrol.cpp:46-53 | a new control is not ready, has last id 0, has queued and emitted nothing, and satisfies `Valid` |
| `ImageCapture.ImageCaptureControl.IsReadyForCapture` | src/plugins/gstreamer/mediacapture/qgstreamerimagecapturecontrol.cpp:59-62 | reports the stored flag, not the session's current state; under `Valid` that is the argument of the last `readyForCaptureChanged`, false before any |
| `ImageCapture.ImageCaptureControl.Capture` | src/plugins/gstreamer/mediacapture/qgstreamerimagecapturecontrol.cpp:64-99 | the returned id is the old last id + 1 and becomes the last id; if the pending state is Stopped or the mode lacks Image, exactly one `(id, NotReadyError, "Not ready to capture")` is queued and the session gets no capture; otherwise nothing is queued and the session gets exactly one `captureImage(id, path)`, where path is the file name when non-empty and the automatic name otherwise; readiness and session state are untouched, so `Valid` is preserved |
| `ImageCapture.ImageCaptureControl.CancelCapture` | src/plugins/gstreamer/mediacapture/qgstreamerimagecapturecontrol.cpp:101-104 | neither the control nor the session changes |
| `ImageCapture.ImageCaptureControl.UpdateState` | src/plugins/gstreamer/mediacapture/qgstreamerimagecapturecontrol.cpp:106-114 | readiness becomes (current state is PreviewState and mode has Image); `readyForCaptureChanged(ready)` is appended iff readiness changed; ids and queued errors are untouched; the stored flag stays equal to the argument of the last `readyForCaptureChanged` (false before any) |
| `ImageCapture.FirstCaptureIds` | src/plugins/gstreamer/mediacapture/qgstreamerimagecapturecontrol.cpp:46-99 | on a new control the first two captures return 1 and 2, accepted or not |
| `ImageCapture.UpdateStateTwice` | src/plugins/gstreamer/mediacapture/qgstreamerimagecapturecontrol.cpp:106-114 | the same session state reported twice emits at most one `readyForCaptureChanged`, and the stored flag then matches the session |
| `VideoEncoder.QRound` | src/plugins/gstreamer/camerabin/camerabinvideoencoder.cpp:132 | the result is the integer nearest x, with halves rounded up |
| `VideoEncoder.FirstCandidateError` | src/plugins/gstreamer/camerabin/camerabinvideoencoder.cpp:127-139 | denominator 1 is never more than 1/2 away, so it always replaces the initial error 1.0 |
| `VideoEncoder.RateAsRational` | src/plugins/gstreamer/camerabin/camerabinvideoencoder.cpp:120-149 | (0, 0) for rates at or below 0.001; otherwise the loop stops right after the first candidate with error below 1e-8 (or at the end of the list), and returns the first visited candidate whose error is least among the visited ones, with numerator `qRound(f * den)` |
| `VideoEncoder.StopsAfterUnique` | src/plugins/gstreamer/camerabin/camerabinvideoencoder.cpp:141-142 | the early break happens at one point only |
| `VideoEncoder.RationalRateUnique` | src/plugins/gstreamer/camerabin/camerabinvideoencoder.cpp:120-149 | at most one (num, den) meets the rateAsRational specification, so it fixes the result |
| `VideoEncoder.RationalRateBounds` | src/plugins/gstreamer/camerabin/camerabinvideoencoder.cpp:125-142 | for a rate above 0.001 the denominator is a candidate, the numerator is `qRound(f * den)`, the error is at most 1/2, and below 1e-8 whenever the search broke before the end of the list |
| `VideoEncoder.IntegralRate` | src/plugins/gstreamer/camerabin/camerabinvideoencoder.cpp:131-142 | for a whole-number rate n the rateAsRational specification holds of (num, den) iff (num, den) is (n, 1) |
| `VideoEncoder.Rate2997Errors` | src/plugins/gstreamer/camerabin/camerabinvideoencoder.cpp:131-142 | for 29.97 the first eight candidates have non-zero errors above 1e-8 and denominator 100 gives 2997 exactly, so the search visits nine candidates |
| `VideoEncoder.Rate2997` | src/plugins/gstreamer/camerabin/camerabinvideoencoder.cpp:124-145 | the rateAsRational specification holds of (num, den) for 29.97 iff (num, den) is (2997, 100) |
| `VideoEncoder.RateNtscErrors` | src/plugins/gstreamer/camerabin/camerabinvideoencoder.cpp:131-142 | for 30000/1001 the first nine candidates have errors of at least 1e-8 and denominator 1001 gives 30000 exactly, so the search visits ten candidates |
| `VideoEncoder.RateNtsc` | src/plugins/gstreamer/camerabin/camerabinvideoencoder.cpp:124-145 | the rateAsRational specification holds of (num, den) for 30000/1001 iff (num, den) is (30000, 1001) |
| `VideoEncoder.RateTieErrors` | src/plugins/gstreamer/camerabin/camerabinvideoencoder.cpp:131-142 | for 2001/1001000 all eleven candidates are visited; the first nine give numerator 0 and are worse; 1001 and 1000 both give numerator 2 with the same error 1/1001000 |
| `VideoEncoder.RateTie` | src/plugins/gstreamer/camerabin/camerabinvideoencoder.cpp:125-142 | the rateAsRational specification holds of (num, den) for 2001/1001000 iff (num, den) is (2, 1001): on a tie the earlier candidate in the list is kept |
| `VideoEncoder.FrameRates` | src/plugins/gstreamer/camerabin/camerabinvideoencoder.cpp:76-84 | there are never more kept rates than reported pairs |
| `VideoEncoder.FrameRatesAppend` | src/plugins/gstreamer/camerabin/camerabinvideoencoder.cpp:79-82 | the rates of a concatenated list are the concatenated rates, so the session's order is kept |
| `VideoEncoder.FrameRatesMembership` | src/plugins/gstreamer/camerabin/camerabinvideoencoder.cpp:79-82 | a rate is reported iff some pair with a positive denominator has it as num/den |
| `VideoEncoder.FrameRatesAllPositive` | src/plugins/gstreamer/camerabin/camerabinvideoencoder.cpp:79-82 | when every denominator is positive, nothing is dropped and the i-th rate is the i-th pair's num/den |
| `VideoEncoder.SupportedFrameRates` | src/plugins/gstreamer/camerabin/camerabinvideoencoder.cpp:71-85 | the loop's result is `FrameRates` of the session's list |
| `VideoEncoder.VideoEncoderControl.constructor` | src/plugins/gstreamer/camerabin/camerabinvideoencoder.cpp:48-53 | both settings start as default settings, there is no override, `Valid` holds, and no `settingsChanged` has been emitted |
| `VideoEncoder.VideoEncoderControl.VideoSettings` | src/plugins/gstreamer/camerabin/camerabinvideoencoder.cpp:97-100 | returns the settings in effect; while `Valid` holds and the session has not overridden them, these are the user's choice |
| `VideoEncoder.VideoEncoderControl.SetVideoSettings` | src/plugins/gstreamer/camerabin/camerabinvideoencoder.cpp:102-107 | both the actual and the user settings become s, which clears any override and establishes `Valid`; `settingsChanged` is emitted once |
| `VideoEncoder.VideoEncoderControl.SetActualVideoSettings` | src/plugins/gstreamer/camerabin/camerabinvideoencoder.cpp:109-112 | only the actual settings change, and they count as overridden; the user settings stay; nothing is emitted |
| `VideoEncoder.VideoEncoderControl.ResetActualSettings` | src/plugins/gstreamer/camerabin/camerabinvideoencoder.cpp:114-117 | the actual settings become the user settings, which clears the override and establishes `Valid`; nothing is emitted |
| `VideoEncoder.OverrideThenReset` | src/plugins/gstreamer/camerabin/camerabinvideoencoder.cpp:97-117 | after `setVideoSettings(s)`, any overrides and a reset, `videoSettings()` is s again, with one `settingsChanged` in all |

## Left out

- `src/multimedia/camera/qcamerafocus.h` holds only declarations: focus modes, focus zones and zoom have no implementation in these files. Any behaviour modelled for them would be guesswork.
- Torch construction through the camera service (`new QCamera`, `requestControl`, `connect`) is not modelled. Each control is a constructor argument that is present or absent.
- Torch.Torch.SetEnabled: the flash control ignores a write only while the camera holds the flash hardware (`flashInUse`). Any other way a flash control might refuse or adjust a mode is not modelled. The element emits `enabledChanged` in every such case alike.
- Torch.Torch.SetPower: the exposure control is modelled as storing every FlashPower value it is given. A control that adjusts or refuses the value is not modelled, and there `Power() == ClampPower(p)` need not hold, although the element still emits `powerChanged`. Changes the control makes by itself are `ExposureParameterChanged`.
- Torch.Torch.Power: the FlashPower value is a variant converted with `toInt`; the model stores integers and reads a missing value as 0.
- ImageCapture.ImageCaptureControl.Capture: delivery of the queued error by the event loop (a queued cross-thread call) is not modelled. The error is appended to `queuedErrors`, and the call returns before anything is delivered.
- ImageCapture.AutoImagePath: `lastImage + 1` is a 32-bit `int` in the source. A listed `img_2147483647.jpg` makes it overflow, which is undefined behaviour and in practice gives `img_-2147483648.jpg`. The model's unbounded number gives `img_2147483648.jpg`. So the model's promise that the new number is above every listed one holds for the source only while the largest listed number is below 2^31 - 1.
- ImageCapture.ImageCaptureControl.Capture: the request id is an unbounded natural number; 32-bit overflow after 2^31 captures is not modelled.
- The directory scan (`QDir::currentPath`, `entryList` with the `img_*.jpg` filter) is file-system access. The filtered listing is a `seq<string>` input. The filter ignores case, so it also lets through names such as `IMG_0009.JPG`. The scan model reads any name, so such names are handled, but `MatchesImagePattern` describes only the lower-case form.
- ImageCapture.ToInt: signs, white space, non-ASCII digits and 32-bit overflow are not modelled. All-digit text gives its value and anything else gives 0.
- The `tr()` translation of the "Not ready to capture" message is not modelled; the message is the literal text.
- The forwarding of `imageExposed`, `imageCaptured` and `imageSaved` from the session is a plain signal connection with no logic.
- `createProfile` (GStreamer caps and profile construction), `supportedVideoCodecs` and `videoCodecDescription` (pass-through to the codec table) are not modelled.
- `supportedResolutions` only converts the rate with `rateAsRational` and asks the session, so beyond `RateAsRational` it is not modelled.
- VideoEncoder.SupportedFrameRates: the `continuous` out-flag is not modelled. It is set to false and then handed to the session, which decides it.
- VideoEncoder.RateAsRational: `qreal` is IEEE double in the source. The model uses exact reals and claims nothing about double rounding, nor about `qRound` overflowing `int` for very large rates. The same holds for the division in `SupportedFrameRates`.
- Video encoder settings carry only a codec, a resolution, a frame rate and a bit rate. The encoder only stores and returns them, so the other fields of `QVideoEncoderSettings` would change nothing.
