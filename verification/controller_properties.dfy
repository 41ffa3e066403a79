/**
 * What the `ECUController` of code-old.py keeps true from start-up on: the brake
 * is only engaged in PARK, the gear buttons show the drive state, F1 and F2 are
 * never on together, every toggle button shows its flag, and the last LED frame
 * sent shows the pad. Every button press, and every received button-press frame,
 * keeps all of it.
 */
module ControllerProperties {
  import opened Wrappers
  import opened Seqs
  import opened Bits
  import opened Colors
  import opened LedMatrix
  import opened PadView
  import opened ParkingBrake
  import opened Vehicle
  import opened Decoder
  import opened Controller

  /** The brake is only ever engaged in PARK, and then its trigger pins say so. */
  predicate Interlock(c: Controller)
  {
    c.brake.engaged ==> c.ecu.driveState == Park && PinsAgree(c.brake)
  }

  /**
   * Exactly the selected gear's button is lit, in that gear's color, except that
   * PARK stays dark while the brake is released (as after a start-up with the
   * brake off).
   */
  predicate GearLedsShowGear(c: Controller)
  {
    forall h: Gear :: GearLed(c.pad, h) ==
      if h == c.ecu.driveState && (h != Park || c.brake.engaged) then GearColor(h).Rgb() else Off
  }

  /** A two-state button: yellow when on, dark when off. */
  function ToggleLed(on: bool): Led
  {
    if on then Yellow.Rgb() else Off
  }

  /**
   * Hazard and exhaust-sound buttons show their flags. The regen button is dark
   * when regen is off and may be dark while it is on: `ECU()` starts with regen
   * on but nothing lights its button.
   */
  predicate TogglesShown(c: Controller)
  {
    && c.pad[HazardButton.Index()] == ToggleLed(c.ecu.hazard)
    && c.pad[ExhaustSoundButton.Index()] == ToggleLed(c.ecu.exhaustSound)
    && (c.pad[RegenButton.Index()] == ToggleLed(c.ecu.regenState) || c.pad[RegenButton.Index()] == Off)
  }

  /** F1 and F2 are never on together; F1 shows cyan and F2 yellow when on. */
  predicate FPairShown(c: Controller)
  {
    && !(c.ecu.f1 && c.ecu.f2)
    && c.pad[F1Button.Index()] == (if c.ecu.f1 then Cyan.Rgb() else Off)
    && c.pad[F2Button.Index()] == (if c.ecu.f2 then Yellow.Rgb() else Off)
  }

  /** The three autopilot buttons are never lit. */
  predicate AutopilotDark(c: Controller)
  {
    && c.pad[AutopilotSpeedUpButton.Index()] == Off
    && c.pad[AutopilotOnButton.Index()] == Off
    && c.pad[AutopilotSpeedDownButton.Index()] == Off
  }

  /** At least one frame has gone out, and the last one shows the pad as it is. */
  predicate LastFrameShowsPad(c: Controller)
  {
    |c.sent| > 0 && c.sent[|c.sent| - 1] == c.pad
  }

  predicate Inv(c: Controller)
  {
    && Interlock(c)
    && GearLedsShowGear(c)
    && TogglesShown(c)
    && FPairShown(c)
    && AutopilotDark(c)
    && LastFrameShowsPad(c)
  }

  /**
   * `init_drive_state` establishes the invariant from any state in PARK with the
   * gear buttons dark and the other buttons showing their flags.
   */
  lemma InitDriveStateEstablishes(c: Controller)
    requires c.ecu.driveState == Park && (c.brake.engaged ==> PinsAgree(c.brake))
    requires forall h: Gear :: GearLed(c.pad, h) == Off
    requires TogglesShown(c) && FPairShown(c) && AutopilotDark(c)
    ensures Inv(InitDriveState(c))
  {
  }

  /** Start-up establishes the invariant, whatever the brake sensors and trigger pins say. */
  lemma BootEstablishes(sensorEngaged: bool, sensorDisengaged: bool, engageTrigger: bool, disengageTrigger: bool)
    ensures var c := Boot(sensorEngaged, sensorDisengaged, engageTrigger, disengageTrigger);
      && Inv(c)
      && c.ecu.driveState == Park
      && (c.brake.engaged <==> sensorEngaged)
      && (GearLed(c.pad, Park) == Blue.Rgb() <==> sensorEngaged)
  {
    var brake := ParkingBrake.Init(sensorEngaged, sensorDisengaged, engageTrigger, disengageTrigger);
    var c1 := InitHazard(Controller(NewEcu(), NewPad(), brake, []));
    assert c1.pad == NewPad()[HazardButton.Index() := Yellow.Rgb()];
    InitDriveStateEstablishes(c1);
  }

  /**
   * Start-up keeps the `ECU()` record as it is: hazard ENABLED with its button
   * yellow, PARK, exhaust sound, F1 and F2 DISABLED with their buttons dark.
   */
  lemma BootStartsAsEcu(sensorEngaged: bool, sensorDisengaged: bool, engageTrigger: bool, disengageTrigger: bool)
    ensures var c := Boot(sensorEngaged, sensorDisengaged, engageTrigger, disengageTrigger);
      && c.ecu == NewEcu()
      && c.ecu.hazard && c.pad[HazardButton.Index()] == Yellow.Rgb()
      && !c.ecu.exhaustSound && c.pad[ExhaustSoundButton.Index()] == Off
      && !c.ecu.f1 && c.pad[F1Button.Index()] == Off
      && !c.ecu.f2 && c.pad[F2Button.Index()] == Off
  {
    var brake := ParkingBrake.Init(sensorEngaged, sensorDisengaged, engageTrigger, disengageTrigger);
    var c1 := InitHazard(Controller(NewEcu(), NewPad(), brake, []));
    assert c1.pad == NewPad()[HazardButton.Index() := Yellow.Rgb()];
  }

  /** `ECU()` turns regen on, yet after start-up the regen button is dark. */
  lemma BootRegenDark(sensorEngaged: bool, sensorDisengaged: bool, engageTrigger: bool, disengageTrigger: bool)
    ensures var c := Boot(sensorEngaged, sensorDisengaged, engageTrigger, disengageTrigger);
      c.ecu.regenState && c.pad[RegenButton.Index()] == Off
  {
    var brake := ParkingBrake.Init(sensorEngaged, sensorDisengaged, engageTrigger, disengageTrigger);
    var c1 := InitHazard(Controller(NewEcu(), NewPad(), brake, []));
    assert c1.pad == NewPad()[HazardButton.Index() := Yellow.Rgb()];
  }

  lemma PressGearPreserves(c: Controller, g: Gear)
    requires Inv(c)
    ensures Inv(PressGear(c, g))
  {
    PressGearKeepsGears(c, g);
    PressGearKeepsOthers(c, g);
  }

  /** A gear press keeps the interlock, the gear buttons' meaning and the last frame. */
  lemma PressGearKeepsGears(c: Controller, g: Gear)
    requires Inv(c)
    ensures var r := PressGear(c, g); Interlock(r) && GearLedsShowGear(r) && LastFrameShowsPad(r)
  {
  }

  /** A gear press leaves the toggle, F and autopilot buttons showing what they showed. */
  lemma PressGearKeepsOthers(c: Controller, g: Gear)
    requires TogglesShown(c) && FPairShown(c) && AutopilotDark(c)
    ensures var r := PressGear(c, g); TogglesShown(r) && FPairShown(r) && AutopilotDark(r)
  {
    var r := PressGear(c, g);
    OthersKept(c, r);
  }

  /** A change of gear and of the four gear buttons alone leaves the other buttons showing what they showed. */
  lemma OthersKept(c: Controller, r: Controller)
    requires TogglesShown(c) && FPairShown(c) && AutopilotDark(c)
    requires r.ecu == c.ecu.(driveState := r.ecu.driveState)
    requires forall i | 0 <= i < 12 && !(1 <= i <= 4) :: r.pad[i] == c.pad[i]
    ensures TogglesShown(r) && FPairShown(r) && AutopilotDark(r)
  {
  }

  lemma PressHazardPreserves(c: Controller)
    requires Inv(c)
    ensures Inv(PressHazard(c))
  {
    var r := PressHazard(c);
    assert forall h: Gear :: GearLed(r.pad, h) == GearLed(c.pad, h);
  }

  lemma PressExhaustSoundPreserves(c: Controller)
    requires Inv(c)
    ensures Inv(PressExhaustSound(c))
  {
    var r := PressExhaustSound(c);
    assert forall h: Gear :: GearLed(r.pad, h) == GearLed(c.pad, h);
  }

  lemma PressRegenPreserves(c: Controller)
    requires Inv(c)
    ensures Inv(PressRegen(c))
  {
    var r := PressRegen(c);
    assert forall h: Gear :: GearLed(r.pad, h) == GearLed(c.pad, h);
  }

  lemma PressF1Preserves(c: Controller)
    requires Inv(c)
    ensures Inv(PressF1(c))
  {
    var r := PressF1(c);
    assert forall h: Gear :: GearLed(r.pad, h) == GearLed(c.pad, h);
  }

  lemma PressF2Preserves(c: Controller)
    requires Inv(c)
    ensures Inv(PressF2(c))
  {
    var r := PressF2(c);
    assert forall h: Gear :: GearLed(r.pad, h) == GearLed(c.pad, h);
  }

  /** Every button handler keeps the invariant. */
  lemma HandleButtonPreserves(c: Controller, b: Button)
    requires Inv(c)
    ensures Inv(HandleButton(c, b))
  {
    match b
    case HazardButton => PressHazardPreserves(c);
    case ParkButton => PressGearPreserves(c, Park);
    case ReverseButton => PressGearPreserves(c, Reverse);
    case NeutralButton => PressGearPreserves(c, Neutral);
    case DriveButton => PressGearPreserves(c, Drive);
    case AutopilotSpeedUpButton =>
    case ExhaustSoundButton => PressExhaustSoundPreserves(c);
    case F1Button => PressF1Preserves(c);
    case F2Button => PressF2Preserves(c);
    case RegenButton => PressRegenPreserves(c);
    case AutopilotOnButton =>
    case AutopilotSpeedDownButton =>
  }

  /** Any run of presses, valid button indices or not, keeps the invariant. */
  lemma {:induction false} RunPressesPreserves(c: Controller, indices: seq<int>)
    requires Inv(c)
    ensures Inv(RunPresses(c, indices))
    decreases |indices|
  {
    if |indices| > 0 {
      var next := ProcessButtonPressed(c, indices[0]);
      if ButtonAt(indices[0]).Some? {
        HandleButtonPreserves(c, ButtonAt(indices[0]).value);
      }
      RunPressesPreserves(next, indices[1..]);
    }
  }

  /**
   * The buttons a keycode presses, in the order the main loop handles them:
   * ascending index, from `k` on.
   */
  function PressedButtons(code: nat, k: nat): (s: seq<int>)
    requires k <= 12
    ensures forall i | 0 <= i < |s| :: k <= s[i] < 12 && BitOf(code, s[i]) == 1
    ensures forall j | k <= j < 12 && BitOf(code, j) == 1 :: j in s
    ensures forall i, j | 0 <= i < j < |s| :: s[i] < s[j]
    decreases 12 - k
  {
    if k == 12 then []
    else if BitOf(code, k) == 1 then [k] + PressedButtons(code, k + 1)
    else PressedButtons(code, k + 1)
  }

  /** Routing button `k` onwards of a decoded frame is running the presses its keycode sets, in order. */
  lemma {:induction false} RouteRunsPressed(c: Controller, data: seq<byte>, k: nat)
    requires |data| >= 2 && k <= 12
    ensures RouteButtons(c, DecodeButtonPress(data).value, k) == RunPresses(c, PressedButtons(Keycode(data), k))
    decreases 12 - k
  {
    var pressed := DecodeButtonPress(data).value;
    var code := Keycode(data);
    if k < 12 {
      assert PyAt(pressed, -(k + 1)) == pressed[11 - k];
      var next := if BitOf(code, k) == 1 then ProcessButtonPressed(c, k) else c;
      RouteRunsPressed(next, data, k + 1);
      if BitOf(code, k) == 1 {
        var s := [k] + PressedButtons(code, k + 1);
        assert s[0] == k && s[1..] == PressedButtons(code, k + 1);
      }
    }
  }

  /** A received frame runs exactly the handlers of the buttons its keycode sets, lowest index first. */
  lemma HandleMessageRunsPressed(c: Controller, data: seq<byte>)
    requires |data| >= 2
    ensures HandleMessage(c, data) == Success(RunPresses(c, PressedButtons(Keycode(data), 0)))
  {
    RouteRunsPressed(c, data, 0);
  }

  /** Handling a received frame keeps the invariant. */
  lemma HandleMessagePreserves(c: Controller, data: seq<byte>)
    requires Inv(c)
    ensures HandleMessage(c, data).Success? ==> Inv(HandleMessage(c, data).value)
  {
    if |data| >= 2 {
      HandleMessageRunsPressed(c, data);
      RunPressesPreserves(c, PressedButtons(Keycode(data), 0));
    }
  }

  /** Whatever has been pressed since start-up, at most one gear button is lit. */
  lemma AtMostOneGearLit(c: Controller, g: Gear, h: Gear)
    requires Inv(c)
    requires GearLed(c.pad, g) != Off && GearLed(c.pad, h) != Off
    ensures g == h && g == c.ecu.driveState
  {
  }

  /** The last frame sent, decoded by the keypad, gives back every button's color. */
  lemma LastFrameCarriesPad(c: Controller)
    requires Inv(c)
    ensures UnpackLeds(SentFrames(c)[|c.sent| - 1].data) == c.pad
  {
    FrameCarriesPad(c.pad);
    assert c.pad[..12] == c.pad;
  }

  /** Pressing hazard twice restores the flag and the pad. */
  lemma HazardTwice(c: Controller)
    requires Inv(c)
    ensures var r := PressHazard(PressHazard(c));
      r.ecu == c.ecu && r.brake == c.brake && r.pad == c.pad
  {
    var r := PressHazard(PressHazard(c));
    assert r.pad == c.pad;
  }

  /** Pressing exhaust sound twice restores the flag and the pad. */
  lemma ExhaustSoundTwice(c: Controller)
    requires Inv(c)
    ensures var r := PressExhaustSound(PressExhaustSound(c));
      r.ecu == c.ecu && r.brake == c.brake && r.pad == c.pad
  {
    var r := PressExhaustSound(PressExhaustSound(c));
    assert r.pad == c.pad;
  }

  /** Pressing regen twice restores the flag, and the pad too once the button shows the flag. */
  lemma RegenTwice(c: Controller)
    requires Inv(c)
    ensures var r := PressRegen(PressRegen(c));
      && r.ecu == c.ecu && r.brake == c.brake
      && (r.pad == c.pad <==> c.pad[RegenButton.Index()] == ToggleLed(c.ecu.regenState))
  {
    var r := PressRegen(PressRegen(c));
    if c.pad[RegenButton.Index()] == ToggleLed(c.ecu.regenState) {
      assert r.pad == c.pad;
    } else {
      assert r.pad[RegenButton.Index()] != c.pad[RegenButton.Index()];
    }
  }

  /** A second press of the same gear changes nothing at all. */
  lemma PressGearIdempotent(c: Controller, g: Gear)
    ensures PressGear(PressGear(c, g), g) == PressGear(c, g)
  {
  }

  /** Pressing F1 then F2 leaves only F2 on, and the other way round. */
  lemma FPairSwitches(c: Controller)
    requires Inv(c)
    ensures var r := PressF2(PressF1(c)); r.ecu.f2 && !r.ecu.f1 && r.pad[F1Button.Index()] == Off
    ensures var r := PressF1(PressF2(c)); r.ecu.f1 && !r.ecu.f2 && r.pad[F2Button.Index()] == Off
  {
    PressF1Preserves(c);
    PressF2Preserves(c);
  }
}
