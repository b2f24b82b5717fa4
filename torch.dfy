/**
 * The declarative Torch element: an `enabled` flag kept as the Torch bit of
 * the flash control's flash-mode set, and a `power` percentage kept as the
 * FlashPower parameter of the exposure control. Either control may be absent;
 * then the element reads as off / zero and ignores writes.
 */
module Torch {
  import opened Wrappers

  /** The flash-mode flags; a flash mode is a set of them. */
  datatype FlashMode =
    | FlashAuto | FlashOff | FlashOn | FlashRedEyeReduction | FlashFill | FlashTorch
    | FlashVideoLight | FlashSlowSyncFrontCurtain | FlashSlowSyncRearCurtain | FlashManual

  type FlashModes = set<FlashMode>

  /** The keys of the exposure control's parameters. */
  datatype ExposureParameter =
    | ISO | Aperture | ShutterSpeed | ExposureCompensation | FlashPower | FlashCompensation
    | TorchPower | SpotMeteringPoint | ExposureMode | MeteringMode | ExtendedExposureParameter

  /** The element's change notifications. */
  datatype TorchSignal = EnabledChanged | PowerChanged

  /** qBound(0, p, 100). */
  function ClampPower(p: int): (r: int)
    ensures 0 <= r <= 100
    ensures 0 <= p <= 100 ==> r == p
    ensures p < 0 ==> r == 0
    ensures p > 100 ==> r == 100
  {
    if p < 0 then 0 else if p > 100 then 100 else p
  }

  /** Clamping below, above and inside the range (75 is the power the element's own usage example sets). */
  lemma ClampPowerExamples()
    ensures ClampPower(-5) == 0 && ClampPower(150) == 100 && ClampPower(75) == 75
  {
  }

  class Torch {
    /** The flash control's current flash mode, or None when there is no flash control. */
    var flash: Option<FlashModes>
    /** The exposure control's parameters, or None when there is no exposure control. */
    var exposure: Option<map<ExposureParameter, int>>
    /** Whether the camera is using the flash hardware; while it is, the flash
        control ignores the flash modes the element writes. */
    var flashInUse: bool
    /** Every notification the element has emitted, oldest first. */
    var signals: seq<TorchSignal>

    /** The element over whichever controls the camera service provides. */
    constructor (flashControl: Option<FlashModes>, exposureControl: Option<map<ExposureParameter, int>>)
      ensures flash == flashControl && exposure == exposureControl && !flashInUse && signals == []
    {
      flash := flashControl;
      exposure := exposureControl;
      flashInUse := false;
      signals := [];
    }

    /** Whether the torch is on: false without a flash control, otherwise
        whether the Torch flag is in the flash mode. */
    function Enabled(): (on: bool)
      reads this
      ensures flash.None? ==> !on
    {
      flash.Some? && FlashTorch in flash.value
    }

    /** The torch power: 0 without an exposure control, 0 when FlashPower has
        no value, otherwise the FlashPower value. */
    function Power(): (p: int)
      reads this
      ensures exposure.None? ==> p == 0
    {
      match exposure
      case None => 0
      case Some(params) => if FlashPower in params then params[FlashPower] else 0
    }

    /** Turn the torch on or off. Only the Torch flag is written, and only
        when it differs from `on`; enabledChanged is emitted exactly then, even
        when the flash control ignores the write because the camera is using
        the flash hardware. */
    method SetEnabled(on: bool)
      modifies this
      ensures exposure == old(exposure) && flashInUse == old(flashInUse)
      ensures flash.Some? == old(flash).Some?
      ensures old(flash).None? || flashInUse ==> flash == old(flash)
      ensures old(flash).Some? && !flashInUse ==> Enabled() == on
      ensures old(flash).Some? ==> forall m :: m != FlashTorch ==> (m in flash.value <==> m in old(flash).value)
      ensures signals == old(signals) + (if old(flash).Some? && old(Enabled()) != on then [EnabledChanged] else [])
    {
      if flash.None? {
        return;
      }
      var mode := flash.value;
      if FlashTorch in mode {
        if !on {
          WriteFlashMode(mode - {FlashTorch});
          signals := signals + [EnabledChanged];
        }
      } else {
        if on {
          WriteFlashMode(mode + {FlashTorch});
          signals := signals + [EnabledChanged];
        }
      }
    }

    /** The flash control's setFlashMode: the new mode takes effect unless the
        camera is using the flash hardware. */
    method WriteFlashMode(mode: FlashModes)
      requires flash.Some?
      modifies this
      ensures flash == if old(flashInUse) then old(flash) else Some(mode)
      ensures exposure == old(exposure) && flashInUse == old(flashInUse) && signals == old(signals)
    {
      if !flashInUse {
        flash := Some(mode);
      }
    }

    /** The camera takes or releases the flash hardware and sets the flash mode
        itself. The flash control has no flash-mode-changed signal, so the
        element emits nothing. */
    method CameraSetsFlash(mode: FlashModes, inUse: bool)
      modifies this
      ensures flash == if old(flash).Some? then Some(mode) else None
      ensures flashInUse == if old(flash).Some? then inUse else old(flashInUse)
      ensures exposure == old(exposure) && signals == old(signals)
    {
      if flash.Some? {
        flash := Some(mode);
        flashInUse := inUse;
      }
    }

    /** Set the torch power to `p` clamped to [0, 100]. The FlashPower parameter
        is written, and powerChanged emitted, only when that differs from the
        current power; no other parameter changes. */
    method SetPower(p: int)
      modifies this
      ensures flash == old(flash) && flashInUse == old(flashInUse)
      ensures exposure.Some? == old(exposure).Some?
      ensures old(exposure).None? ==> exposure == old(exposure)
      ensures old(exposure).Some? ==> Power() == ClampPower(p)
      ensures old(exposure).Some? ==>
                exposure.value == if old(Power()) != ClampPower(p)
                                  then old(exposure).value[FlashPower := ClampPower(p)]
                                  else old(exposure).value
      ensures signals == old(signals) + (if old(exposure).Some? && old(Power()) != ClampPower(p) then [PowerChanged] else [])
    {
      if exposure.None? {
        return;
      }
      var power := ClampPower(p);
      if Power() != power {
        exposure := Some(exposure.value[FlashPower := power]);
        signals := signals + [PowerChanged];
      }
    }

    /** The exposure control reported a parameter change: re-emit it as
        powerChanged when it is FlashPower, whether or not the value differs
        from before. The element's own state does not change. */
    method ParameterChanged(parameter: ExposureParameter)
      modifies this
      ensures flash == old(flash) && exposure == old(exposure) && flashInUse == old(flashInUse)
      ensures signals == old(signals) + (if parameter == FlashPower then [PowerChanged] else [])
    {
      if parameter == FlashPower {
        signals := signals + [PowerChanged];
      }
    }

    /** The exposure control changes a parameter by itself (power adjusted for
        temperature or battery) and reports it through exposureParameterChanged,
        which is connected to ParameterChanged only when the control exists. */
    method ExposureParameterChanged(parameter: ExposureParameter, value: int)
      modifies this
      ensures flash == old(flash) && flashInUse == old(flashInUse)
      ensures old(exposure).None? ==> exposure == old(exposure) && signals == old(signals)
      ensures old(exposure).Some? ==> exposure == Some(old(exposure).value[parameter := value])
      ensures old(exposure).Some? && parameter == FlashPower ==> Power() == value
      ensures signals == old(signals) + (if old(exposure).Some? && parameter == FlashPower then [PowerChanged] else [])
    {
      if exposure.None? {
        return;
      }
      exposure := Some(exposure.value[parameter := value]);
      ParameterChanged(parameter);
    }
  }

  /** Two identical calls of SetEnabled: when the flash control takes the write
      the second call emits nothing; when the camera holds the flash hardware
      the write is ignored and both calls emit enabledChanged. */
  method SetEnabledTwice(t: Torch, on: bool)
    modifies t
    ensures !old(t.flashInUse) ==> |t.signals| <= |old(t.signals)| + 1
    ensures t.signals == old(t.signals) +
              (if old(t.flash).Some? && old(t.Enabled()) != on
               then (if old(t.flashInUse) then [EnabledChanged, EnabledChanged] else [EnabledChanged])
               else [])
  {
    t.SetEnabled(on);
    t.SetEnabled(on);
  }

  /** Two identical calls of SetPower emit powerChanged at most once between them. */
  method SetPowerTwice(t: Torch, p: int)
    modifies t
    ensures |t.signals| <= |old(t.signals)| + 1
    ensures t.exposure.Some? ==> t.Power() == ClampPower(p)
  {
    t.SetPower(p);
    ghost var between := t.signals;
    t.SetPower(p);
    assert t.signals == between;
  }
}
