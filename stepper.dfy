/**
 * The argument validator of the public stepper-motor driver API
 * (include/zephyr/drivers/stepper.h).
 *
 * Flags are 32-bit words (`bv32`).  Speeds, step counts and durations are
 * mathematical integers restricted to the range of their C type.  The driver
 * callbacks `on`, `off` and `move` are opaque functions held by the device;
 * an `Outcome` records whether the validator rejected the call or handed it to
 * the driver, so "the driver is never called on a rejected action" is visible
 * in the result.
 */
module Stepper {

  import opened BitWords
  import opened Wrappers

  type uint8 = x: int | 0 <= x < 0x100
  type uint32 = x: int | 0 <= x < 0x1_0000_0000
  type int32 = x: int | -0x8000_0000 <= x < 0x8000_0000

  /** `size_t` on the 32-bit targets this header is built for. */
  const SIZE_MODULUS: int := 0x1_0000_0000
  type size_t = x: int | 0 <= x < 0x1_0000_0000

  // ---------------------------------------------------------------------------
  // Operation-mode flags and microstep resolutions
  // ---------------------------------------------------------------------------

  const OP_MODE_POSITION: bv32 := 1 << 16
  const OP_MODE_VELOCITY: bv32 := 1 << 17
  const OP_MODE_ACCELERATION: bv32 := 1 << 18
  const OP_MODE_POSITION_SMOOTH: bv32 := 1 << 19

  const OP_MODE_MASK: bv32 :=
    OP_MODE_POSITION | OP_MODE_VELOCITY | OP_MODE_ACCELERATION | OP_MODE_POSITION_SMOOTH

  /** `GENMASK(31, 0)`: all bits of a 32-bit word. */
  const GENMASK_31_0: bv32 := 0xFFFF_FFFF

  /**
   * The nine `STEPPER_USTEP_RES_*` constants, in the order 1, 2, 4, ..., 256
   * microsteps.  Their values live in a devicetree-bindings header that is not
   * part of this model, so they are a parameter of every member that uses them.
   */
  type UstepConstants = s: seq<bv32> | |s| == 9 witness [1, 2, 4, 8, 16, 32, 64, 128, 256]

  /**
   * What the header assumes of the resolution constants: each is a single bit
   * ("multiple microstep resolutions set" is detected by a power-of-two test)
   * and no two are equal.
   */
  predicate ValidConstants(u: UstepConstants) {
    && (forall i :: 0 <= i < 9 ==> IsPowerOfTwo(u[i]))
    && (forall i, j :: 0 <= i < 9 && 0 <= j < 9 && i != j ==> u[i] != u[j])
  }

  /**
   * `STEPPER_USTEP_RES_MASK`: the OR of the nine resolution constants; every
   * constant lies within it.
   */
  function UstepResMask(u: UstepConstants): (m: bv32)
    ensures forall i :: 0 <= i < 9 ==> Within(u[i], m)
  {
    assert forall i :: 0 <= i < 9 ==> Within(u[i], OrAll(u)) by {
      forall i | 0 <= i < 9 {
        WithinOrAll(u, i);
      }
    }
    OrAll(u)
  }

  /** `STEPPER_OP_MODE_GET`: keeps the four operation-mode bits of `flags` and clears every other bit. */
  function OpModeGet(flags: bv32): (r: bv32)
    ensures Within(r, OP_MODE_MASK)
    ensures r & OP_MODE_MASK == flags & OP_MODE_MASK
  {
    flags & OP_MODE_MASK
  }

  /** `STEPPER_USTEP_RES_GET`: keeps the microstep-resolution bits of `flags` and clears every other bit. */
  function UstepResGet(u: UstepConstants, flags: bv32): (r: bv32)
    ensures Within(r, UstepResMask(u))
  {
    MaskedWordWithinMask(flags, UstepResMask(u));
    flags & UstepResMask(u)
  }

  // ---------------------------------------------------------------------------
  // Driver data
  // ---------------------------------------------------------------------------

  /** `struct stepper_driver_capabilities`. */
  datatype Capabilities = Capabilities(fsMaxSpeed: uint32, flags: bv32)

  /** `struct stepper_motor_properties`. */
  datatype MotorProperties = MotorProperties(index: uint8, fsPerTurn: uint32)

  /**
   * `struct stepper_driver_config`; `motorProps` is the array that
   * `motor_props` points to.
   */
  datatype DriverConfig = DriverConfig(nMotors: size_t, caps: Capabilities, motorProps: seq<MotorProperties>)

  /**
   * `struct stepper_action`: the type tag and the union member it selects are
   * one constructor; every action carries the `flags` word.
   */
  datatype Action =
    | Positioning(flags: bv32, velocity: int32, steps: uint32)
    | Velocity(flags: bv32, velocity: int32, durationUs: uint32)
    | Acceleration(flags: bv32, startVelocity: int32, endVelocity: int32, durationUs: uint32)
    | PositioningSmooth(flags: bv32, smoothSteps: int32, maxVelocity: uint32, accelerationTimeUs: uint32)

  /** `enum stepper_action_type`: each action type is its operation-mode bit. */
  function ActionTypeBit(a: Action): (r: bv32)
    ensures IsPowerOfTwo(r) && Within(r, OP_MODE_MASK)
  {
    match a
    case Positioning(_, _, _) => OP_MODE_POSITION
    case Velocity(_, _, _) => OP_MODE_VELOCITY
    case Acceleration(_, _, _, _) => OP_MODE_ACCELERATION
    case PositioningSmooth(_, _, _, _) => OP_MODE_POSITION_SMOOTH
  }

  /** The callbacks of `struct stepper_api`, closed over their device. */
  datatype StepperApi = StepperApi(on: uint8 -> int32, off: uint8 -> int32, move: (uint8, Action) -> int32)

  /** A device: its API table and its configuration. */
  datatype Device = Device(api: StepperApi, config: DriverConfig)

  /** `struct stepper_motor_dt_spec`. */
  datatype MotorDtSpec = MotorDtSpec(driver: Device, motor: uint8, fsPerTurn: uint32)

  // ---------------------------------------------------------------------------
  // Results
  // ---------------------------------------------------------------------------

  datatype Errno = ENXIO | EINVAL | ENOTSUP

  /** The positive errno values of the C library. */
  function ErrnoValue(e: Errno): (n: int)
    ensures n > 0
  {
    match e
    case ENXIO => 6
    case EINVAL => 22
    case ENOTSUP => 134
  }

  /**
   * Who produced the return value: the validator (a negative errno) or the
   * driver callback (its result, passed through).
   */
  datatype Outcome = Rejected(err: Errno) | Forwarded(ret: int32)

  /** The `int` the C function returns for an outcome. */
  function ReturnValue(o: Outcome): (r: int)
    ensures o.Rejected? ==> r == -ErrnoValue(o.err) && r < 0
    ensures o.Forwarded? ==> r == o.ret
  {
    match o
    case Rejected(e) => -ErrnoValue(e)
    case Forwarded(ret) => ret
  }

  // ---------------------------------------------------------------------------
  // Checks
  // ---------------------------------------------------------------------------

  /** `IN_RANGE(val, min, max)`. */
  predicate InRange(val: int, min: int, max: int) {
    min <= val <= max
  }

  function Abs(x: int): nat {
    if x < 0 then -x else x
  }

  /**
   * `IN_RANGE(motor, 0, n_motors - 1)` with `n_motors - 1` computed in
   * `size_t`: for zero motors it wraps to `SIZE_MAX` and every motor passes.
   */
  function MotorInRange(config: DriverConfig, motor: uint8): (r: bool)
    ensures r <==> config.nMotors == 0 || motor < config.nMotors
  {
    InRange(motor, 0, (config.nMotors - 1) % SIZE_MODULUS)
  }

  /**
   * The operation-mode check of `stepper_move`: it passes exactly when the
   * driver's flags hold the action's type bit.
   */
  predicate ModeSupported(caps: Capabilities, a: Action)
    ensures ModeSupported(caps, a) <==> Meets(caps.flags, ActionTypeBit(a))
  {
    AndWithinMask(ActionTypeBit(a), caps.flags, OP_MODE_MASK);
    MeetsSymmetric(caps.flags, ActionTypeBit(a));
    ActionTypeBit(a) & OpModeGet(caps.flags) != 0
  }

  /**
   * The three microstep checks of `stepper_move`: some resolution is set, one
   * of the set resolutions is supported, and only one is set.  Together they
   * pass exactly when the resolution bits of `flags` are a single bit that the
   * driver's flags also hold.
   */
  predicate ResolutionAccepted(u: UstepConstants, caps: Capabilities, flags: bv32)
    ensures ResolutionAccepted(u, caps, flags)
            <==> IsPowerOfTwo(UstepResGet(u, flags)) && Meets(caps.flags, UstepResGet(u, flags))
  {
    var res := UstepResGet(u, flags);
    SingleBitMeetsMaskedPart(res, caps.flags, UstepResMask(u), UstepResGet(u, caps.flags));
    res != 0 && Meets(res, UstepResGet(u, caps.flags)) && IsPowerOfTwo(res)
  }

  /** The speed limit each kind of action must respect. */
  predicate SpeedWithinLimits(caps: Capabilities, a: Action) {
    match a
    case Positioning(_, _, _) => true
    case Velocity(_, v, _) => Abs(v) <= caps.fsMaxSpeed
    case Acceleration(_, v0, v1, _) => Abs(v0) <= caps.fsMaxSpeed && Abs(v1) <= caps.fsMaxSpeed
    case PositioningSmooth(_, _, vMax, t) => vMax <= caps.fsMaxSpeed && t != 0
  }

  // ---------------------------------------------------------------------------
  // The API functions
  // ---------------------------------------------------------------------------

  /** `z_impl_stepper_on`. */
  function StepperOn(dev: Device, motor: uint8): (r: Outcome)
    ensures r.Forwarded? <==> dev.config.nMotors == 0 || motor < dev.config.nMotors
    ensures r.Rejected? ==> r.err == ENXIO
    ensures r.Forwarded? ==> r.ret == dev.api.on(motor)
  {
    if !MotorInRange(dev.config, motor) then Rejected(ENXIO)
    else Forwarded(dev.api.on(motor))
  }

  /** `z_impl_stepper_off`. */
  function StepperOff(dev: Device, motor: uint8): (r: Outcome)
    ensures r.Forwarded? <==> dev.config.nMotors == 0 || motor < dev.config.nMotors
    ensures r.Rejected? ==> r.err == ENXIO
    ensures r.Forwarded? ==> r.ret == dev.api.off(motor)
  {
    if !MotorInRange(dev.config, motor) then Rejected(ENXIO)
    else Forwarded(dev.api.off(motor))
  }

  /**
   * `z_impl_stepper_move`: the checks in the order of the source; the first
   * one that fails decides the error, and only an action that passes all of
   * them reaches the driver.
   */
  function StepperMove(u: UstepConstants, dev: Device, motor: uint8, a: Action): (r: Outcome)
    ensures !MotorInRange(dev.config, motor) ==> r == Rejected(ENXIO)
    ensures MotorInRange(dev.config, motor) && !ModeSupported(dev.config.caps, a) ==> r == Rejected(ENOTSUP)
    ensures MotorInRange(dev.config, motor) && ModeSupported(dev.config.caps, a)
            && !(ResolutionAccepted(u, dev.config.caps, a.flags) && SpeedWithinLimits(dev.config.caps, a))
            ==> r == Rejected(EINVAL)
    ensures r.Forwarded? ==> r.ret == dev.api.move(motor, a)
  {
    var caps := dev.config.caps;
    var res := UstepResGet(u, a.flags);
    if !MotorInRange(dev.config, motor) then
      Rejected(ENXIO)
    else if ActionTypeBit(a) & OpModeGet(caps.flags) == 0 then
      Rejected(ENOTSUP)
    else if res == 0 then
      Rejected(EINVAL)
    else if res & UstepResGet(u, caps.flags) == 0 then
      Rejected(EINVAL)
    else if !IsPowerOfTwo(res) then
      Rejected(EINVAL)
    else if a.Velocity? && !InRange(Abs(a.velocity), 0, caps.fsMaxSpeed) then
      Rejected(EINVAL)
    else if a.Acceleration?
            && (!InRange(Abs(a.startVelocity), 0, caps.fsMaxSpeed)
                || !InRange(Abs(a.endVelocity), 0, caps.fsMaxSpeed)) then
      Rejected(EINVAL)
    else if a.PositioningSmooth?
            && (!InRange(a.maxVelocity, 0, caps.fsMaxSpeed) || a.accelerationTimeUs == 0) then
      Rejected(EINVAL)
    else
      Forwarded(dev.api.move(motor, a))
  }

  /** `stepper_on_dt`; `None` is a NULL spec. */
  function StepperOnDt(spec: Option<MotorDtSpec>): (r: Outcome)
    ensures spec.None? ==> r == Rejected(EINVAL)
    ensures spec.Some? ==> r == StepperOn(spec.value.driver, spec.value.motor)
  {
    if spec.None? then Rejected(EINVAL)
    else StepperOn(spec.value.driver, spec.value.motor)
  }

  /** `stepper_off_dt`; `None` is a NULL spec. */
  function StepperOffDt(spec: Option<MotorDtSpec>): (r: Outcome)
    ensures spec.None? ==> r == Rejected(EINVAL)
    ensures spec.Some? ==> r == StepperOff(spec.value.driver, spec.value.motor)
  {
    if spec.None? then Rejected(EINVAL)
    else StepperOff(spec.value.driver, spec.value.motor)
  }

  /** `stepper_move_dt`; `None` is a NULL spec. */
  function StepperMoveDt(u: UstepConstants, spec: Option<MotorDtSpec>, a: Action): (r: Outcome)
    ensures spec.None? ==> r == Rejected(EINVAL)
    ensures spec.Some? ==> r == StepperMove(u, spec.value.driver, spec.value.motor, a)
  {
    if spec.None? then Rejected(EINVAL)
    else StepperMove(u, spec.value.driver, spec.value.motor, a)
  }

  /** `STEPPER_ACTION_STOP`: velocity 0, duration 0, full-step resolution. */
  function StopAction(u: UstepConstants): (a: Action)
    ensures a.Velocity? && a.flags == u[0] && a.velocity == 0 && a.durationUs == 0
  {
    Velocity(u[0], 0, 0)
  }

  /**
   * `STEPPER_DRIVER_CAPS_DT`: the capability word is `flags` restricted to the
   * union of the operation-mode mask and the resolution mask.
   */
  function DriverCapsDt(u: UstepConstants, fsMaxSpeed: uint32, flags: bv32): (c: Capabilities)
    ensures c.fsMaxSpeed == fsMaxSpeed
    ensures c.flags == flags & (OP_MODE_MASK | UstepResMask(u))
  {
    Capabilities(fsMaxSpeed, (OpModeGet(flags) | UstepResGet(u, flags)) & GENMASK_31_0)
  }

  /** A motor-property entry among the first `nMotors` has this index. */
  ghost predicate HasProps(config: DriverConfig, motor: uint8)
    requires config.nMotors <= |config.motorProps|
  {
    exists j :: 0 <= j < config.nMotors && config.motorProps[j].index == motor
  }

  /**
   * `stepper_motor_props`: the position of the first of the first `nMotors`
   * entries whose index is `motor`, or `None` for NULL.
   */
  method MotorProps(config: DriverConfig, motor: uint8) returns (r: Option<nat>)
    requires config.nMotors <= |config.motorProps|
    ensures r.Some? ==> r.value < config.nMotors && config.motorProps[r.value].index == motor
    ensures r.Some? ==> forall j :: 0 <= j < r.value ==> config.motorProps[j].index != motor
    ensures r.None? ==> forall j :: 0 <= j < config.nMotors ==> config.motorProps[j].index != motor
  {
    var i := 0;
    while i < config.nMotors
      invariant 0 <= i <= config.nMotors
      invariant forall j :: 0 <= j < i ==> config.motorProps[j].index != motor
    {
      if config.motorProps[i].index == motor {
        return Some(i);
      }
      i := i + 1;
    }
    return None;
  }

  // ---------------------------------------------------------------------------
  // Properties
  // ---------------------------------------------------------------------------

  /** Each rejection returns its own errno, so the caller can tell the three failures apart. */
  lemma RejectionsAreDistinguishable(e1: Errno, e2: Errno)
    ensures ReturnValue(Rejected(e1)) == ReturnValue(Rejected(e2)) <==> e1 == e2
  {
  }

  /** The capability word keeps the operation mode of `flags`. */
  lemma CapsDtKeepsModes(u: UstepConstants, fsMaxSpeed: uint32, flags: bv32)
    ensures OpModeGet(DriverCapsDt(u, fsMaxSpeed, flags).flags) == OpModeGet(flags)
  {
  }

  /**
   * `STEPPER_USTEP_RES_GET` loses no resolution: the result holds each of the
   * nine resolutions exactly when the flags do.
   */
  lemma UstepResGetKeepsEachResolution(u: UstepConstants, flags: bv32, i: nat)
    requires i < 9
    ensures Meets(flags, u[i]) <==> Meets(u[i], UstepResGet(u, flags))
  {
    MeetsWithinMask(u[i], flags, UstepResMask(u), UstepResGet(u, flags));
  }

  /** The capability word keeps the microstep resolutions of `flags`. */
  lemma CapsDtKeepsResolutions(u: UstepConstants, fsMaxSpeed: uint32, flags: bv32)
    ensures UstepResGet(u, DriverCapsDt(u, fsMaxSpeed, flags).flags) == UstepResGet(u, flags)
  {
  }

  /** The capability word holds no bit outside the two masks. */
  lemma CapsDtHasNoOtherBits(u: UstepConstants, fsMaxSpeed: uint32, flags: bv32)
    ensures DriverCapsDt(u, fsMaxSpeed, flags).flags & !(OP_MODE_MASK | UstepResMask(u)) == 0
  {
  }

  /**
   * Contrary to the note on `STEPPER_DRIVER_CAPS_DT`, the acceleration mode
   * bit is not filtered out: it is kept exactly as given.
   */
  lemma CapsDtKeepsAcceleration(u: UstepConstants, fsMaxSpeed: uint32, flags: bv32)
    ensures DriverCapsDt(u, fsMaxSpeed, flags).flags & OP_MODE_ACCELERATION == flags & OP_MODE_ACCELERATION
  {
  }

  /** With zero motors the wrapped range check lets every motor through. */
  lemma ZeroMotorsAcceptsEveryMotor(dev: Device, motor: uint8)
    requires dev.config.nMotors == 0
    ensures StepperOn(dev, motor) == Forwarded(dev.api.on(motor))
    ensures StepperOff(dev, motor) == Forwarded(dev.api.off(motor))
  {
    assert (dev.config.nMotors - 1) % SIZE_MODULUS == SIZE_MODULUS - 1;
  }

  /**
   * With single-bit constants, a single resolution bit in `flags` is one of
   * the nine constants.
   */
  lemma SingleResolutionIsConstant(u: UstepConstants, flags: bv32) returns (i: nat)
    requires ValidConstants(u)
    requires UstepResGet(u, flags) != 0 && IsPowerOfTwo(UstepResGet(u, flags))
    ensures i < 9 && UstepResGet(u, flags) == u[i]
  {
    var res := UstepResGet(u, flags);
    MaskedWordMeetsMask(flags, UstepResMask(u));
    i := MeetsSomeWord(u, res);
    PowersOfTwoOverlap(res, u[i]);
  }

  /**
   * With single-bit constants, an action that passes the three microstep
   * checks selects one listed resolution, and the driver supports it.
   */
  lemma AcceptedResolutionIsSupportedConstant(u: UstepConstants, caps: Capabilities, flags: bv32) returns (i: nat)
    requires ValidConstants(u)
    requires ResolutionAccepted(u, caps, flags)
    ensures i < 9 && UstepResGet(u, flags) == u[i] && Meets(caps.flags, u[i])
  {
    i := SingleResolutionIsConstant(u, flags);
    MeetsMaskedPart(u[i], caps.flags, UstepResMask(u), UstepResGet(u, caps.flags));
  }

  /** Conversely, selecting one supported constant passes the three checks. */
  lemma SupportedConstantIsAccepted(u: UstepConstants, caps: Capabilities, flags: bv32, i: nat)
    requires ValidConstants(u)
    requires i < 9 && UstepResGet(u, flags) == u[i] && Meets(caps.flags, u[i])
    ensures ResolutionAccepted(u, caps, flags)
  {
    assert IsPowerOfTwo(u[i]);
    MeetsWithinMask(u[i], caps.flags, UstepResMask(u), UstepResGet(u, caps.flags));
  }

  /**
   * When the resolution bits of `flags` are exactly the constant `u[i]`, the
   * constant `u[i]` is the only one of the nine that `flags` contains.
   */
  lemma SelectedResolutionIsUnique(u: UstepConstants, flags: bv32, i: nat)
    requires ValidConstants(u) && i < 9
    requires UstepResGet(u, flags) == u[i]
    ensures forall j :: 0 <= j < 9 ==> (Meets(flags, u[j]) <==> j == i)
  {
    forall j | 0 <= j < 9
      ensures Meets(flags, u[j]) <==> j == i
    {
      MeetsWithinMask(u[j], flags, UstepResMask(u), u[i]);
      if j == i {
        PowerOfTwoMeetsItself(u[i]);
      } else {
        DistinctPowersDisjoint(u[j], u[i]);
      }
    }
  }

  /** An action that passes every check is handed to the driver. */
  lemma MoveForwardsWhenAllChecksPass(u: UstepConstants, dev: Device, motor: uint8, a: Action)
    requires MotorInRange(dev.config, motor) && ModeSupported(dev.config.caps, a)
    requires ResolutionAccepted(u, dev.config.caps, a.flags) && SpeedWithinLimits(dev.config.caps, a)
    ensures StepperMove(u, dev, motor, a) == Forwarded(dev.api.move(motor, a))
  {
  }

  /** Conversely, an action that reaches the driver passed every check. */
  lemma ForwardedMovePassedAllChecks(u: UstepConstants, dev: Device, motor: uint8, a: Action)
    requires StepperMove(u, dev, motor, a).Forwarded?
    ensures MotorInRange(dev.config, motor) && ModeSupported(dev.config.caps, a)
    ensures ResolutionAccepted(u, dev.config.caps, a.flags) && SpeedWithinLimits(dev.config.caps, a)
  {
  }

  /**
   * An action that reaches the driver targets an accepted motor, uses a mode
   * the driver advertises, selects exactly one resolution (returned as `i`),
   * which the driver supports, and respects the speed limit of its kind.
   */
  lemma ForwardedMoveIsAdmissible(u: UstepConstants, dev: Device, motor: uint8, a: Action) returns (i: nat)
    requires ValidConstants(u)
    requires StepperMove(u, dev, motor, a).Forwarded?
    ensures dev.config.nMotors == 0 || motor < dev.config.nMotors
    ensures Meets(dev.config.caps.flags, ActionTypeBit(a))
    ensures i < 9 && UstepResGet(u, a.flags) == u[i] && Meets(dev.config.caps.flags, u[i])
    ensures forall j :: 0 <= j < 9 ==> (Meets(a.flags, u[j]) <==> j == i)
    ensures a.Velocity? ==> Abs(a.velocity) <= dev.config.caps.fsMaxSpeed
    ensures a.Acceleration? ==> Abs(a.startVelocity) <= dev.config.caps.fsMaxSpeed
                                && Abs(a.endVelocity) <= dev.config.caps.fsMaxSpeed
    ensures a.PositioningSmooth? ==> a.maxVelocity <= dev.config.caps.fsMaxSpeed && a.accelerationTimeUs != 0
  {
    ForwardedMovePassedAllChecks(u, dev, motor, a);
    i := AcceptedResolutionIsSupportedConstant(u, dev.config.caps, a.flags);
    SelectedResolutionIsUnique(u, a.flags, i);
  }

  /**
   * The stop action reaches the driver whenever the motor is accepted and the
   * driver advertises velocity mode and full-step resolution.
   */
  lemma StopReachesDriver(u: UstepConstants, dev: Device, motor: uint8)
    requires ValidConstants(u)
    requires MotorInRange(dev.config, motor)
    requires Meets(dev.config.caps.flags, OP_MODE_VELOCITY)
    requires Meets(dev.config.caps.flags, u[0])
    ensures StepperMove(u, dev, motor, StopAction(u)) == Forwarded(dev.api.move(motor, StopAction(u)))
  {
    var stop := StopAction(u);
    SupportedConstantIsAccepted(u, dev.config.caps, stop.flags, 0);
    MoveForwardsWhenAllChecksPass(u, dev, motor, stop);
  }

  /**
   * A driver that does not list full-step resolution rejects the stop action
   * with -EINVAL, even in velocity mode.
   */
  lemma StopRejectedWithoutFullStep(u: UstepConstants, dev: Device, motor: uint8)
    requires MotorInRange(dev.config, motor)
    requires Meets(dev.config.caps.flags, OP_MODE_VELOCITY)
    requires !Meets(dev.config.caps.flags, u[0])
    ensures StepperMove(u, dev, motor, StopAction(u)) == Rejected(EINVAL)
  {
    FullStepUnsupported(u, dev.config.caps);
  }

  /** Full-step flags are not accepted by a driver that does not list full steps. */
  lemma FullStepUnsupported(u: UstepConstants, caps: Capabilities)
    requires !Meets(caps.flags, u[0])
    ensures !ResolutionAccepted(u, caps, u[0])
  {
    MeetsWithinMask(u[0], caps.flags, UstepResMask(u), UstepResGet(u, caps.flags));
  }

  /**
   * The property lookup does not depend on the range check: with one motor
   * whose entry has index 5, motor 0 passes the range check but has no entry,
   * and motor 5 fails the range check but has one.
   */
  lemma PropsIndependentOfRange(caps: Capabilities, fsPerTurn: uint32)
    ensures var config := DriverConfig(1, caps, [MotorProperties(5, fsPerTurn)]);
            && MotorInRange(config, 0) && !HasProps(config, 0)
            && !MotorInRange(config, 5) && HasProps(config, 5)
  {
    var config := DriverConfig(1, caps, [MotorProperties(5, fsPerTurn)]);
    assert config.motorProps[0].index == 5;
  }
}
