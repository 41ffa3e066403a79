/**
 * The partial `ECUController` and `ECU` of code.py: a hazard handler that lights
 * button 0 without sending it and darkens the keypad with a separate all-zero
 * frame, exhaust-sound and regen toggles with no LED, and a drive-state setter.
 * The regen handler as written flips the exhaust-sound flag; `PressRegenAsWritten`
 * models that and `PressRegen` is the evident intent.
 */
module PartialController {
  import opened Wrappers
  import opened Seqs
  import opened Bits
  import opened Frames
  import opened Colors
  import opened LedMatrix
  import opened ShiftedPadView
  import PadView
  import opened Vehicle
  import opened Decoder

  /** The `ECU` fields the handlers use; power and cruise are unused stubs. */
  datatype Ecu = Ecu(hazard: bool, driveState: Gear, exhaustSound: bool, regenState: bool)

  /** `ECU()` of code.py: hazard DISABLED, PARK, exhaust sound DISABLED, regen ENABLED. */
  function NewEcu(): Ecu
  {
    Ecu(hazard := false, driveState := Park, exhaustSound := false, regenState := true)
  }

  /** The thirteen buttons of this pad. */
  type Pad = p: seq<Led> | |p| == 13 witness ShiftedPadView.NewPad()

  /** `sent` holds, oldest first, the frames the handlers put on the bus. */
  datatype Controller = Controller(ecu: Ecu, pad: Pad, sent: seq<Frame>)

  function NewController(): Controller
  {
    Controller(NewEcu(), ShiftedPadView.NewPad(), [])
  }

  /** `turn_off_all_lights`: eight zero bytes to the LED matrix, through `CanMessage`. */
  function AllLightsOff(): Frame
  {
    Frame(LedMatrixId, Normalize(Zeros(8)))
  }

  /** The all-zero frame is what an unlit twelve-button pad packs to: the keypad goes dark. */
  lemma AllLightsOffIsDark()
    ensures AllLightsOff() == PadView.RefreshButtonColors(PadView.NewPad())
    ensures BytesMessage(LedMatrixId, List(Zeros(8))) == Success(AllLightsOff())
    ensures UnpackLeds(AllLightsOff().data) == PadView.NewPad()
  {
    assert Normalize(Zeros(8)) == Zeros(8);
    PadView.AllOffFrame(PadView.NewPad());
    PadView.FrameCarriesPad(PadView.NewPad());
    assert PadView.NewPad()[..12] == PadView.NewPad();
  }

  /**
   * `process_hazard_button_press`: enabling lights button 0 yellow (the refresh
   * only prints, so nothing is sent); disabling keeps every stored color and sends
   * the all-zero frame instead.
   */
  function PressHazard(c: Controller): (r: Controller)
    ensures r.ecu == c.ecu.(hazard := !c.ecu.hazard)
    ensures !c.ecu.hazard ==> r.pad == c.pad[0 := Yellow.Rgb()] && r.sent == c.sent
    ensures c.ecu.hazard ==> r.pad == c.pad && r.sent == c.sent + [AllLightsOff()]
  {
    if !c.ecu.hazard then
      ColorOfCode(Yellow);
      c.(ecu := c.ecu.(hazard := true), pad := UpdateColor(c.pad, 0, Yellow.Code()))
    else
      c.(ecu := c.ecu.(hazard := false), sent := c.sent + [AllLightsOff()])
  }

  /** `process_exhaust_sound_button_press`: flips the flag and nothing else. */
  function PressExhaustSound(c: Controller): (r: Controller)
    ensures r.ecu == c.ecu.(exhaustSound := !c.ecu.exhaustSound) && r.pad == c.pad && r.sent == c.sent
  {
    c.(ecu := c.ecu.(exhaustSound := !c.ecu.exhaustSound))
  }

  /**
   * `process_regen_button_press` as written: the body of the exhaust-sound handler.
   * It flips `exhaust_sound` and nothing else: `regen_state`, the LEDs and the bus
   * are untouched.
   */
  function PressRegenAsWritten(c: Controller): (r: Controller)
    ensures r.ecu.regenState == c.ecu.regenState
    ensures r.ecu == c.ecu.(exhaustSound := !c.ecu.exhaustSound) && r.pad == c.pad && r.sent == c.sent
  {
    if !c.ecu.exhaustSound then c.(ecu := c.ecu.(exhaustSound := true))
    else c.(ecu := c.ecu.(exhaustSound := false))
  }

  /** The regen handler as written is the exhaust-sound handler: it never changes `regen_state`. */
  lemma RegenAsWrittenFlipsExhaust(c: Controller)
    ensures PressRegenAsWritten(c) == PressExhaustSound(c)
  {
  }

  /** The start state shows it: pressing regen leaves regen ENABLED and turns exhaust sound on. */
  lemma RegenAsWrittenFromStart()
    ensures PressRegenAsWritten(NewController()).ecu == NewEcu().(exhaustSound := true)
    ensures PressRegenAsWritten(NewController()).ecu.regenState
  {
  }

  /** `process_regen_button_press` as intended: flips `regen_state` and nothing else. */
  function PressRegen(c: Controller): (r: Controller)
    ensures r.ecu.regenState != c.ecu.regenState
    ensures r.ecu.exhaustSound == c.ecu.exhaustSound && r.pad == c.pad && r.sent == c.sent
  {
    if c.ecu.regenState then c.(ecu := c.ecu.(regenState := false))
    else c.(ecu := c.ecu.(regenState := true))
  }

  /** The corrected handler flips regen, leaves exhaust sound alone, and two presses undo each other. */
  lemma PressRegenToggles(c: Controller)
    ensures PressRegen(c) == c.(ecu := c.ecu.(regenState := !c.ecu.regenState))
    ensures PressRegen(PressRegen(c)) == c
  {
  }

  /** Two exhaust-sound presses undo each other. */
  lemma ExhaustSoundTwice(c: Controller)
    ensures PressExhaustSound(PressExhaustSound(c)) == c
    ensures PressExhaustSound(c).ecu.exhaustSound != c.ecu.exhaustSound
  {
  }

  /** `process_drive_state_press(request)`: the drive state becomes `request`; nothing else changes. */
  function PressDriveState(c: Controller, request: Gear): Controller
  {
    if c.ecu.driveState != request then c.(ecu := c.ecu.(driveState := request)) else c
  }

  /** The drive-state setter is a plain assignment: idempotent, LEDs and frames untouched. */
  lemma PressDriveStateSets(c: Controller, request: Gear)
    ensures PressDriveState(c, request) == c.(ecu := c.ecu.(driveState := request))
    ensures PressDriveState(PressDriveState(c, request), request) == PressDriveState(c, request)
  {
  }

  /**
   * Hazard on, then off: the flag is back, the keypad has been told to go dark,
   * but button 0 still holds yellow, so the next refresh would light it again.
   */
  lemma HazardOnOff(c: Controller)
    requires !c.ecu.hazard
    ensures var r := PressHazard(PressHazard(c));
      && r.ecu == c.ecu
      && r.sent == c.sent + [AllLightsOff()]
      && r.pad == c.pad[0 := Yellow.Rgb()]
  {
  }

  /**
   * One received frame in the code.py loop: decoded, and only the last entry (the
   * hazard button, bit 0 of byte 0) runs a handler; park, reverse, neutral and
   * drive are only printed.
   */
  function HandleMessage(c: Controller, data: seq<byte>): (r: Result<Controller, DecodeError>)
    ensures r.Failure? <==> |data| < 2
  {
    match DecodeButtonPress(data)
    case Failure(e) => Failure(e)
    case Success(pressed) => Success(if PyAt(pressed, -1) == 1 then PressHazard(c) else c)
  }

  /** A frame presses hazard exactly when bit 0 of its first byte is set. */
  lemma HandleMessageHazardBit(c: Controller, data: seq<byte>)
    requires |data| >= 2
    ensures HandleMessage(c, data) == Success(if data[0] % 2 == 1 then PressHazard(c) else c)
  {
    HazardIsBitZero(data);
  }
}
