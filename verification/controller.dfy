/**
 * The `ECU` record and `ECUController` of code-old.py: gear selection with the
 * parking-brake interlock, the hazard / exhaust-sound / regen toggles, the
 * mutually exclusive F1 / F2 pair, and the start-up sequence. Every LED change
 * goes through `update_color`, which sends the LED frame of the pad as it then
 * is; the model records that pad in `sent`, and `SentFrames` gives the frames.
 */
module Controller {
  import opened Wrappers
  import opened Seqs
  import opened Bits
  import opened Frames
  import opened Colors
  import opened PadView
  import opened ParkingBrake
  import opened Vehicle
  import opened Decoder

  /** The `ECU` fields the controller uses; power and cruise are unused stubs. */
  datatype Ecu = Ecu(hazard: bool, driveState: Gear, exhaustSound: bool, regenState: bool, f1: bool, f2: bool)

  /** `ECU()`: hazard and regen ENABLED, gear PARK, everything else DISABLED. */
  function NewEcu(): Ecu
  {
    Ecu(hazard := true, driveState := Park, exhaustSound := false, regenState := true, f1 := false, f2 := false)
  }

  /** The twelve buttons of the pad. */
  type Pad = p: seq<Led> | |p| == 12 witness NewPad()

  /** `sent` holds, oldest first, the pad each LED frame sent so far was made from. */
  datatype Controller = Controller(ecu: Ecu, pad: Pad, brake: Brake, sent: seq<Pad>)

  /** The LED frames sent so far, as they went on the bus. */
  function SentFrames(c: Controller): (frames: seq<Frame>)
    ensures |frames| == |c.sent|
    ensures forall i | 0 <= i < |frames| :: frames[i] == RefreshButtonColors(c.sent[i])
  {
    seq(|c.sent|, i requires 0 <= i < |c.sent| => RefreshButtonColors(c.sent[i]))
  }

  /** The LED of the button that selects gear `g`. */
  function GearLed(pad: Pad, g: Gear): Led
  {
    pad[g.Button().Index()]
  }

  /** The color a gear's button takes when that gear is selected. */
  function GearColor(g: Gear): Color
  {
    match g
    case Park => Blue
    case Reverse => Red
    case Neutral => Yellow
    case Drive => Green
  }

  /** `r` has sent `n` more frames than `sent`, the last of which shows its pad. */
  predicate SentAfter(sent: seq<Pad>, r: Controller, n: nat)
  {
    && |r.sent| == |sent| + n
    && r.sent[..|sent|] == sent
    && (n > 0 ==> r.sent[|r.sent| - 1] == r.pad)
  }

  /**
   * `self.pad.update_color(b, color)`: one button recolored, then the whole matrix
   * sent. Written out directly; `PaintSendsUpdateFrame` shows it is `UpdateColor`.
   */
  function Paint(c: Controller, b: Button, color: Color): (r: Controller)
    ensures r.ecu == c.ecu && r.brake == c.brake
    ensures r.sent == c.sent + [r.pad]
  {
    var pad := c.pad[b.Index() := color.Rgb()];
    c.(pad := pad, sent := c.sent + [pad])
  }

  /** Each `Paint` logs exactly the frame `update_color` sends. */
  lemma PaintSendsUpdateFrame(c: Controller, b: Button, color: Color)
    ensures var u := UpdateColor(c.pad, b.Index(), color.Code());
      && Paint(c, b, color).pad == u.0
      && SentFrames(Paint(c, b, color)) == SentFrames(c) + [u.1]
  {
    var r := Paint(c, b, color);
    ColorOfCode(color);
    assert r.pad == Recolor(c.pad, b.Index(), color.Code());
    assert SentFrames(r) == SentFrames(c) + [RefreshButtonColors(r.pad)];
  }

  /** `hazard_on`: hazard ENABLED, its button recolored yellow and the pad sent. */
  function HazardOn(c: Controller): (r: Controller)
    ensures r.ecu == c.ecu.(hazard := true) && r.brake == c.brake
    ensures r.pad == c.pad[HazardButton.Index() := Yellow.Rgb()] && SentAfter(c.sent, r, 1)
  {
    Paint(c.(ecu := c.ecu.(hazard := true)), HazardButton, Yellow)
  }

  /** `hazard_off`: hazard DISABLED, its button recolored black and the pad sent. */
  function HazardOff(c: Controller): (r: Controller)
    ensures r.ecu == c.ecu.(hazard := false) && r.brake == c.brake
    ensures r.pad == c.pad[HazardButton.Index() := Off] && SentAfter(c.sent, r, 1)
  {
    Paint(c.(ecu := c.ecu.(hazard := false)), HazardButton, Black)
  }

  /** `init_hazard`: light the hazard button when the ECU starts with hazard enabled. */
  function InitHazard(c: Controller): (r: Controller)
    ensures r.ecu == c.ecu && r.brake == c.brake
    ensures c.ecu.hazard ==> r.pad == c.pad[HazardButton.Index() := Yellow.Rgb()] && SentAfter(c.sent, r, 1)
    ensures !c.ecu.hazard ==> r == c
  {
    if c.ecu.hazard then HazardOn(c) else c
  }

  /** `process_button_pressed_hazard`: flip the flag; the button is yellow when it is now on, black when off. */
  function PressHazard(c: Controller): (r: Controller)
    ensures r.ecu == c.ecu.(hazard := !c.ecu.hazard) && r.brake == c.brake
    ensures r.pad == c.pad[HazardButton.Index() := if r.ecu.hazard then Yellow.Rgb() else Black.Rgb()]
    ensures SentAfter(c.sent, r, 1)
  {
    if !c.ecu.hazard then HazardOn(c) else HazardOff(c)
  }

  /** Buttons PARK, REVERSE, NEUTRAL, DRIVE recolored in that order: `g`'s in its color, the rest black. */
  function ShowGear(c: Controller, g: Gear): (r: Controller)
    ensures r.ecu == c.ecu && r.brake == c.brake
    ensures forall h: Gear :: GearLed(r.pad, h) == if h == g then GearColor(g).Rgb() else Off
    ensures forall i | 0 <= i < 12 && !(1 <= i <= 4) :: r.pad[i] == c.pad[i]
    ensures SentAfter(c.sent, r, 4)
    ensures r.sent[|c.sent|] == c.pad[ParkButton.Index() := GearLed(r.pad, Park)]
    ensures r.sent[|c.sent| + 1] == r.sent[|c.sent|][ReverseButton.Index() := GearLed(r.pad, Reverse)]
    ensures r.sent[|c.sent| + 2] == r.sent[|c.sent| + 1][NeutralButton.Index() := GearLed(r.pad, Neutral)]
  {
    var c1 := Paint(c, ParkButton, if g == Park then Blue else Black);
    var c2 := Paint(c1, ReverseButton, if g == Reverse then Red else Black);
    var c3 := Paint(c2, NeutralButton, if g == Neutral then Yellow else Black);
    var c4 := Paint(c3, DriveButton, if g == Drive then Green else Black);
    assert c4.sent[..|c.sent|] == c.sent;
    c4
  }

  /**
   * `init_drive_state`: an engaged brake forces PARK and lights PARK blue (the
   * re-engage is a no-op); REVERSE, NEUTRAL and DRIVE are always blacked out.
   */
  function InitDriveState(c: Controller): (r: Controller)
    ensures r.brake == c.brake
    ensures r.ecu == if c.brake.engaged then c.ecu.(driveState := Park) else c.ecu
    ensures GearLed(r.pad, Park) == if c.brake.engaged then Blue.Rgb() else GearLed(c.pad, Park)
    ensures forall h: Gear :: h != Park ==> GearLed(r.pad, h) == Off
    ensures forall i | 0 <= i < 12 && !(1 <= i <= 4) :: r.pad[i] == c.pad[i]
    ensures SentAfter(c.sent, r, if c.brake.engaged then 4 else 3)
  {
    var c1 :=
      if IsEngaged(c.brake) then
        var p := Paint(c.(ecu := c.ecu.(driveState := Park)), ParkButton, Blue);
        p.(brake := Engage(p.brake))
      else c;
    var c2 := Paint(c1, ReverseButton, Black);
    var c3 := Paint(c2, NeutralButton, Black);
    var c4 := Paint(c3, DriveButton, Black);
    assert c4.sent[..|c.sent|] == c.sent;
    c4
  }

  /** `init_start_state`: `init_hazard`, then `init_drive_state`. */
  function InitStartState(c: Controller): Controller
  {
    InitDriveState(InitHazard(c))
  }

  /**
   * The four gear buttons. PARK from another gear engages the brake; REVERSE,
   * NEUTRAL and DRIVE release it when (and only when) leaving PARK. Pressing the
   * selected gear changes nothing.
   */
  function PressGear(c: Controller, g: Gear): (r: Controller)
    ensures r.ecu == c.ecu.(driveState := g)
    ensures g == Park ==> r.brake == if c.ecu.driveState != Park then Engage(c.brake) else c.brake
    ensures g != Park ==> r.brake == if c.ecu.driveState == Park then Disengage(c.brake) else c.brake
    ensures c.ecu.driveState == g ==> r == c
    ensures c.ecu.driveState != g ==> forall h: Gear :: GearLed(r.pad, h) == if h == g then GearColor(g).Rgb() else Off
    ensures c.ecu.driveState != g ==> SentAfter(c.sent, r, 4)
    ensures forall i | 0 <= i < 12 && !(1 <= i <= 4) :: r.pad[i] == c.pad[i]
  {
    var current := c.ecu.driveState;
    if g == Park then
      if current != Park then
        ShowGear(c.(ecu := c.ecu.(driveState := Park), brake := Engage(c.brake)), Park)
      else c
    else
      var c1 := if current == Park then c.(brake := Disengage(c.brake)) else c;
      if current != g then ShowGear(c1.(ecu := c1.ecu.(driveState := g)), g) else c1
  }

  /** `process_button_pressed_exhaust_sound`: flip the flag; yellow when now on, black when off. */
  function PressExhaustSound(c: Controller): (r: Controller)
    ensures r.ecu == c.ecu.(exhaustSound := !c.ecu.exhaustSound) && r.brake == c.brake
    ensures r.pad == c.pad[ExhaustSoundButton.Index() := if r.ecu.exhaustSound then Yellow.Rgb() else Black.Rgb()]
    ensures SentAfter(c.sent, r, 1)
  {
    if !c.ecu.exhaustSound then Paint(c.(ecu := c.ecu.(exhaustSound := true)), ExhaustSoundButton, Yellow)
    else Paint(c.(ecu := c.ecu.(exhaustSound := false)), ExhaustSoundButton, Black)
  }

  /** `process_button_pressed_regen`: flip the flag; yellow when now on, black when off. */
  function PressRegen(c: Controller): (r: Controller)
    ensures r.ecu == c.ecu.(regenState := !c.ecu.regenState) && r.brake == c.brake
    ensures r.pad == c.pad[RegenButton.Index() := if r.ecu.regenState then Yellow.Rgb() else Black.Rgb()]
    ensures SentAfter(c.sent, r, 1)
  {
    if c.ecu.regenState then Paint(c.(ecu := c.ecu.(regenState := false)), RegenButton, Black)
    else Paint(c.(ecu := c.ecu.(regenState := true)), RegenButton, Yellow)
  }

  /** `process_button_pressed_f1`: when F1 is off, F1 goes on (cyan) and F2 off (black); when on, nothing. */
  function PressF1(c: Controller): (r: Controller)
    ensures c.ecu.f1 ==> r == c
    ensures !c.ecu.f1 ==> r.ecu == c.ecu.(f1 := true, f2 := false) && r.brake == c.brake
    ensures !c.ecu.f1 ==> r.pad == c.pad[F1Button.Index() := Cyan.Rgb()][F2Button.Index() := Black.Rgb()]
    ensures !c.ecu.f1 ==> SentAfter(c.sent, r, 2)
  {
    if !c.ecu.f1 then
      var c1 := Paint(c.(ecu := c.ecu.(f1 := true)), F1Button, Cyan);
      var c2 := Paint(c1.(ecu := c1.ecu.(f2 := false)), F2Button, Black);
      assert c2.sent[..|c.sent|] == c.sent;
      c2
    else c
  }

  /** `process_button_pressed_f2`: when F2 is off, F2 goes on (yellow) and F1 off (black); when on, nothing. */
  function PressF2(c: Controller): (r: Controller)
    ensures c.ecu.f2 ==> r == c
    ensures !c.ecu.f2 ==> r.ecu == c.ecu.(f2 := true, f1 := false) && r.brake == c.brake
    ensures !c.ecu.f2 ==> r.pad == c.pad[F2Button.Index() := Yellow.Rgb()][F1Button.Index() := Black.Rgb()]
    ensures !c.ecu.f2 ==> SentAfter(c.sent, r, 2)
  {
    if !c.ecu.f2 then
      var c1 := Paint(c.(ecu := c.ecu.(f2 := true)), F2Button, Yellow);
      var c2 := Paint(c1.(ecu := c1.ecu.(f1 := false)), F1Button, Black);
      assert c2.sent[..|c.sent|] == c.sent;
      c2
    else c
  }

  /** One handler per button; the three autopilot handlers only log. */
  function HandleButton(c: Controller, b: Button): Controller
  {
    match b
    case HazardButton => PressHazard(c)
    case ParkButton => PressGear(c, Park)
    case ReverseButton => PressGear(c, Reverse)
    case NeutralButton => PressGear(c, Neutral)
    case DriveButton => PressGear(c, Drive)
    case AutopilotSpeedUpButton => c
    case ExhaustSoundButton => PressExhaustSound(c)
    case F1Button => PressF1(c)
    case F2Button => PressF2(c)
    case RegenButton => PressRegen(c)
    case AutopilotOnButton => c
    case AutopilotSpeedDownButton => c
  }

  /** `process_button_pressed(index)`: an index that names no button does nothing. */
  function ProcessButtonPressed(c: Controller, index: int): (r: Controller)
    ensures !(0 <= index < 12) ==> r == c
  {
    match ButtonAt(index)
    case None => c
    case Some(b) => HandleButton(c, b)
  }

  /** The controller after a run of `process_button_pressed` calls. */
  function RunPresses(c: Controller, indices: seq<int>): Controller
    decreases |indices|
  {
    if |indices| == 0 then c else RunPresses(ProcessButtonPressed(c, indices[0]), indices[1..])
  }

  /** The main loop's routing: for k = 0..11 in turn, button k's handler runs when `pressed[-(k+1)]` is set. */
  function RouteButtons(c: Controller, pressed: seq<bit>, k: nat): Controller
    requires |pressed| == 12 && k <= 12
    decreases 12 - k
  {
    if k == 12 then c
    else
      var next := if PyAt(pressed, -(k + 1)) == 1 then ProcessButtonPressed(c, k) else c;
      RouteButtons(next, pressed, k + 1)
  }

  /** One received button-press frame: decoded, then routed; a frame too short to decode raises. */
  function HandleMessage(c: Controller, data: seq<byte>): (r: Result<Controller, DecodeError>)
    ensures r.Failure? <==> |data| < 2
  {
    match DecodeButtonPress(data)
    case Failure(e) => Failure(e)
    case Success(pressed) => Success(RouteButtons(c, pressed, 0))
  }

  /**
   * Start-up: `ECU()`, a pad of unlit buttons, the brake read from its sensors
   * (trigger pins holding `engageTrigger` and `disengageTrigger` before), then
   * `init_start_state`.
   */
  function Boot(sensorEngaged: bool, sensorDisengaged: bool, engageTrigger: bool, disengageTrigger: bool): Controller
  {
    var brake := ParkingBrake.Init(sensorEngaged, sensorDisengaged, engageTrigger, disengageTrigger);
    InitStartState(Controller(NewEcu(), NewPad(), brake, []))
  }
}
