# mm-ecu keypad controller in Dafny

A model of the CircuitPython engine-control loop for a twelve-button CAN keypad
(three successive versions: `code-old.py`, `code.py`, `code2.py`), with proofs
about it. The model covers:

- **Decoder**: `decode_button_press`. The first two payload bytes become a
  twelve-entry bit list, and the main loop reads it from the end (`[-1]` is
  hazard, `[-2]` park, …). The code.py copy of the decoder is the same function.
- **Colors**: `PadButton.change_color`, the table from the eight `COLOR_*`
  codes to (red, green, blue) bits. An unknown code leaves the button as it was.
- **LedMatrix**: `rgb_matrices` and `rgb_matrix_to_hex` of code-old.py. The
  channels of buttons 0..11 are packed into a five-byte payload.
- **PadView**: the code-old.py `ControlPadView`. `update_color` recolors one
  button and then sends the whole matrix as a `0x215` frame.
- **ShiftedPadView** and **Hex**: the code.py `ControlPadView`. It has thirteen
  buttons, and its packer shifts each byte left by one and returns `hex`
  strings. Its refresh sends nothing.
- **ParkingBrake**: `ParkingBreak`, with the sensor and trigger pins as
  booleans.
- **Frames**: `CanMessage`, whose payload is zero-padded and truncated to eight
  entries. code2.py keeps the list; code-old.py and code.py wrap it in `bytes`.
- **Controller** and **ControllerProperties**: the code-old.py `ECU` and
  `ECUController`. This covers:
  - gear selection with the parking-brake interlock;
  - the hazard, exhaust-sound and regen toggles;
  - the F1/F2 pair;
  - start-up;
  - the main loop's routing of a received frame to the handlers.

  Gear colors are PARK blue, REVERSE red, NEUTRAL yellow and DRIVE green
  (code-old.py:412,426,440,454). A gear press releases the brake only when
  leaving PARK (code-old.py:420-421).

  The controller records, oldest first, the pad each sent LED frame was made
  from. `SentFrames` turns that record into the frames.
- **PartialController**: the code.py `ECU` and `ECUController`.

Every operation is a pure function on immutable records. A handler returns the
new controller. Bus sends are appended to a log. Sensor readings are
parameters.

## Model

| member | source | states |
|---|---|---|
| Decoder.DecodeButtonPress | code-old.py:556-563 | fewer than two bytes is an error; otherwise exactly twelve entries, entry `11-k` being bit `k` of `b0 + 256*(b1 mod 16)` |
| Decoder.PressedBitOfButton | code-old.py:75-86 | the entry at `BUTTON_PRESSED_X = -(i+1)` is bit `i` of the keycode, where `i` is button X's index |
| Decoder.HazardIsBitZero | code-old.py:75 | `pressed[-1]` (hazard) is bit 0 of the first byte |
| Decoder.DecodeIgnoresRest | code-old.py:556-563 | two payloads that agree on byte 0 and on the low nibble of byte 1 decode alike: the high nibble and bytes after index 1 are ignored |
| Decoder.DecodeEncode | code-old.py:556-563 | every twelve-bit press pattern is decoded back from its two-byte encoding |
| Decoder.EncodeDecode | code-old.py:556-563 | re-encoding a decoded payload gives `[b0, b1 mod 16]`: decoding keeps exactly those twelve bits |
| Colors.ColorOf | code-old.py:50-57 | exactly the codes 100..107 name a color, each the color whose constant it is |
| Colors.ChangeColor | code-old.py:200-242 | a known code sets the button to that color's bits; any other code leaves it unchanged |
| Colors.ChangeColorIdempotent | code-old.py:200-242 | applying the same color twice is applying it once |
| Colors.RgbInjective | code-old.py:200-242 | two colors set the same bits only when they are the same color |
| Colors.ColorOfLed | code-old.py:200-242 | every one of the eight bit triples is the bits of some color |
| Colors.ColorOfRgb | code-old.py:200-242 | reading a color back from the bits `change_color` set gives that color again |
| Bits.FromLowBits | code-old.py:560-562 | the last `n` binary digits of any `x < 2^n`, read back as a number, give `x`; with the low bits of `256 + b` being those of `b`, this reads `bin((1<<8)+b)[-8:]` back as `b` |
| Bits.LowBitsFrom | code-old.py:306-317 | `int(''.join(bits), 2)` loses nothing: writing the value back out in as many bits gives the list again |
| LedMatrix.RgbMatrixToHex | code-old.py:293-334 | five values, each in 0..255, the last below 16 |
| LedMatrix.RgbMatrices | code-old.py:276-290 | no contract of its own: `UnpackPacked` states that the rows carry buttons 0..11 into the payload exactly, and `LastButtonIgnored` that a thirteenth button is dropped |
| LedMatrix.PayloadByteBit | code-old.py:293-334 | bit `i` of payload byte `j` is bit `8j+i` of the red-green-blue row sequence |
| LedMatrix.PackedBits | code-old.py:276-334 | as one little-endian number, payload bit `k` is red of button `k` (k<12), green of `k-12` (k<24), blue of `k-24` (k<36), else 0 |
| LedMatrix.UnpackPacked | code-old.py:276-334 | unpacking the payload gives back the colors of buttons 0..11 exactly |
| LedMatrix.AllOffPacksToZero | code-old.py:196-198 | a pad of unlit buttons packs to `[0, 0, 0, 0, 0]` |
| LedMatrix.HazardYellowPayload | code-old.py:333 | only the hazard button yellow packs to `[1, 16, 0, 0, 0]` |
| PadView.RefreshButtonColors | code-old.py:268-274 | the frame has id `0x215` and eight bytes, the packed payload then three zeros, and equals what the `bytes` constructor yields for that payload |
| PadView.Recolor | code-old.py:263-266 | the indexed button (negative indices from the end) takes the color; every other button is unchanged |
| PadView.FrameCarriesPad | code-old.py:268-274 | decoding the frame sent for a pad gives back the colors of all twelve buttons |
| PadView.UpdateColorFrameShowsChange | code-old.py:263-274 | after `update_color`, the frame shows the recolored button in its new color and every other button as before |
| PadView.AllOffFrame | code-old.py:268-274 | an unlit pad is sent as eight zero bytes |
| PadView.NewPad | code-old.py:245-261 | twelve buttons, all unlit |
| PadView.UpdateColor | code-old.py:263-266 | no contract of its own: `UpdateColorFrameShowsChange` states that the frame sent shows the recolored button and every other button as before |
| Frames.Normalize | code-old.py:177-187 | eight entries: the list's own entries first, zeros after, anything past the eighth dropped |
| Frames.NewCanMessage | code2.py:29-39 | a list becomes exactly eight entries: its prefix, then zero padding, truncated at eight; the caller's list gains eight zeros; a non-list gives empty data |
| Frames.BytesMessage | code-old.py:177-187 | the `bytes` constructor succeeds exactly when the first eight entries are bytes, with the normalised payload; a non-list gives empty data |
| ParkingBrake.Init | code-old.py:147-162 | engaged exactly when the engaged sensor is set; the engaged sensor wins; with neither sensor set no trigger pin is written |
| ParkingBrake.IsEngaged | code-old.py:124-126 | no contract of its own: it returns the `engaged` flag, which `Init`, `Engage`, `Disengage` and `Toggle` state |
| ParkingBrake.Engage | code-old.py:128-134 | afterwards engaged; already engaged changes nothing; otherwise engage goes high and disengage low |
| ParkingBrake.Disengage | code-old.py:136-142 | afterwards released; already released changes nothing; otherwise the pins go the other way |
| ParkingBrake.Toggle | code-old.py:144-145 | flips the flag and writes no pin |
| ParkingBrake.EngageIdempotent | code-old.py:128-142 | engaging twice is engaging once; likewise disengaging |
| ParkingBrake.EngageDisengageInverse | code-old.py:128-142 | with pins matching the flag, disengage undoes engage and the other way round |
| ParkingBrake.PinsAgreePreserved | code-old.py:128-145 | engage and disengage keep the pins matching the flag; toggle breaks it |
| Vehicle.ButtonAt | code-old.py:347-371 | exactly the indices 0..11 select a handler, each the button with that index |
| Vehicle.ButtonAtIndex | code-old.py:60-71 | every button's `BUTTON_*` index selects that button |
| Controller.NewEcu | code-old.py:502-512 | no contract of its own: `BootStartsAsEcu` states that start-up keeps this record (hazard and regen ENABLED, gear PARK, exhaust sound, F1 and F2 DISABLED), and `BootRegenDark` that regen's button stays dark |
| Controller.Paint | code-old.py:263-274 | the ECU and brake are unchanged and the new pad is appended to the sent log |
| Controller.PaintSendsUpdateFrame | code-old.py:263-274 | a handler's recoloring is `update_color`: the same pad, and the same frame logged |
| Controller.InitHazard | code-old.py:374-376 | with hazard enabled the hazard button turns yellow and one frame is sent; otherwise nothing happens |
| Controller.HazardOn | code-old.py:378-380 | hazard ENABLED, the hazard button yellow, every other button unchanged, one frame sent showing the pad |
| Controller.HazardOff | code-old.py:382-384 | hazard DISABLED, the hazard button black, every other button unchanged, one frame sent showing the pad |
| Controller.PressHazard | code-old.py:378-391 | the flag flips; the hazard button is yellow when now on and black when off; one frame is sent showing the pad |
| Controller.ShowGear | code-old.py:403-454 | the four gear buttons are repainted: the chosen gear's in its color, the rest black; four frames, showing PARK, then REVERSE, then NEUTRAL, then DRIVE repainted in turn; other buttons untouched |
| Controller.InitDriveState | code-old.py:393-401 | an engaged brake forces PARK and lights it blue; REVERSE, NEUTRAL and DRIVE go black; the brake is not changed |
| Controller.InitStartState | code-old.py:343-345 | no contract of its own: `BootEstablishes` states that start-up through it establishes the invariants |
| Controller.PressGear | code-old.py:403-454 | the gear becomes the pressed one; PARK from another gear engages the brake; another gear releases it exactly when leaving PARK; the current gear changes nothing; otherwise only the new gear's button is lit |
| Controller.PressExhaustSound | code-old.py:459-466 | the flag flips; the button is yellow when now on and black when off |
| Controller.PressRegen | code-old.py:485-493 | the flag flips; the button is yellow when now on and black when off |
| Controller.PressF1 | code-old.py:469-475 | F1 off: F1 on and cyan, F2 off and black; F1 already on: nothing |
| Controller.PressF2 | code-old.py:477-483 | F2 off: F2 on and yellow, F1 off and black; F2 already on: nothing |
| Controller.ProcessButtonPressed | code-old.py:347-371 | an index naming no button does nothing |
| Controller.HandleButton | code-old.py:347-371 | no contract of its own: `HandleButtonPreserves` states that every handler keeps the invariants |
| Controller.RunPresses | code-old.py:347-371 | no contract of its own: `RunPressesPreserves` states that any run of presses keeps the invariants |
| Controller.RouteButtons | code-old.py:640-675 | no contract of its own: `RouteRunsPressed` states that it runs the set buttons' handlers from index 0 to 11 |
| Controller.HandleMessage | code-old.py:638-675 | a received frame fails exactly when it is shorter than two bytes |
| Controller.Boot | code-old.py:611-628 | no contract of its own: `BootEstablishes` states the invariants, PARK, and the brake following its sensor after start-up |
| ControllerProperties.InitDriveStateEstablishes | code-old.py:393-401 | from PARK with the gear buttons dark, `init_drive_state` establishes every controller invariant |
| ControllerProperties.BootEstablishes | code-old.py:611-628 | after start-up the invariants hold, the gear is PARK, the brake is engaged exactly when its sensor says so, and PARK is lit exactly then |
| ControllerProperties.BootStartsAsEcu | code-old.py:502-512 | after start-up the ECU record is `ECU()` exactly: hazard ENABLED with its button yellow; exhaust sound, F1 and F2 DISABLED with their buttons dark |
| ControllerProperties.BootRegenDark | code-old.py:502-512 | after start-up regen is enabled but its button is dark |
| ControllerProperties.PressGearPreserves | code-old.py:403-454 | gear presses keep the interlock (brake engaged only in PARK, pins matching) and the gear buttons showing the gear |
| ControllerProperties.HandleButtonPreserves | code-old.py:347-499 | every handler keeps all the invariants |
| ControllerProperties.RunPressesPreserves | code-old.py:347-371 | any sequence of presses keeps all the invariants |
| ControllerProperties.PressedButtons | code-old.py:640-675 | the buttons a keycode presses: exactly those whose bit is set, in ascending index order |
| ControllerProperties.RouteRunsPressed | code-old.py:640-675 | routing a decoded frame runs the pressed buttons' handlers in index order |
| ControllerProperties.HandleMessageRunsPressed | code-old.py:638-675 | a received frame of two or more bytes is exactly the run of presses its keycode sets |
| ControllerProperties.HandleMessagePreserves | code-old.py:638-675 | every received frame keeps all the invariants |
| ControllerProperties.AtMostOneGearLit | code-old.py:393-454 | while the invariants hold, at most one gear button is lit, and only the selected gear's |
| ControllerProperties.LastFrameCarriesPad | code-old.py:263-274 | the last frame sent decodes to the pad as it is now |
| ControllerProperties.HazardTwice | code-old.py:378-391 | two hazard presses restore the flag, the brake and the pad |
| ControllerProperties.ExhaustSoundTwice | code-old.py:459-466 | two exhaust-sound presses restore the flag and the pad |
| ControllerProperties.RegenTwice | code-old.py:485-493 | two regen presses restore the flag, and the pad exactly when the button already showed the flag |
| ControllerProperties.PressGearIdempotent | code-old.py:403-454 | pressing the same gear again changes nothing |
| ControllerProperties.FPairSwitches | code-old.py:469-483 | F1 then F2 leaves only F2 on with F1 dark, and the other way round |
| ShiftedPadView.RgbMatrixToHexShifted | code.py:185-220 | five strings, each parsing to twice the unshifted byte; since only `hex`'s own spelling parses (`Hex.ToHexParse`), each is exactly `hex` of that number |
| ShiftedPadView.ShiftedBounds | code.py:185-220 | every shifted value is even and at most `0x1FE`; the last is at most `0x1E` |
| ShiftedPadView.AllOffShifted | code.py:185-220 | an unlit pad gives five `"0x0"` |
| ShiftedPadView.NewPad | code.py:137-154 | thirteen buttons, all unlit |
| ShiftedPadView.RefreshButtonColors | code.py:160-166 | five strings, each parsing to (and so exactly `hex` of) twice the code-old.py payload byte; nothing is sent |
| ShiftedPadView.UpdateColor | code.py:156-158 | no contract of its own: it is `PadView.Recolor`, and `UpdateLastButtonUnseen` states that recoloring button 12 leaves the payload unchanged |
| ShiftedPadView.LastButtonIgnored | code.py:168-182 | button 12's color never reaches the payload |
| ShiftedPadView.UpdateLastButtonUnseen | code.py:156-182 | `update_color(12, c)` stores the color on button 12 yet leaves the payload as it was |
| Hex.ParseToHex | code.py:204-208 | `hex` loses nothing: its output parses back to the number |
| Hex.ToHexParse | code.py:204-208 | the parse accepts only `hex`'s spelling (no leading zeros): a string that parses to `n` is `hex(n)`, so parse and `hex` are inverse both ways |
| PartialController.NewEcu | code.py:257-265 | no contract of its own: `RegenAsWrittenFromStart` states what one regen press does from hazard DISABLED, PARK, exhaust sound DISABLED and regen ENABLED |
| PartialController.AllLightsOff | code.py:326-330 | no contract of its own: `AllLightsOffIsDark` states that it is the frame of an unlit pad and decodes to every button dark |
| PartialController.AllLightsOffIsDark | code.py:326-330 | `turn_off_all_lights` sends the frame of an unlit pad, which decodes to every button dark |
| PartialController.PressHazard | code.py:228-235 | the flag flips; enabling turns button 0 yellow and sends nothing; disabling keeps every stored color and sends the all-zero frame |
| PartialController.HazardOnOff | code.py:228-235 | on then off restores the flag but leaves button 0 stored yellow behind a dark keypad |
| PartialController.PressExhaustSound | code.py:237-241 | `exhaust_sound` flips; the other ECU fields, the stored pad and the frame log are unchanged |
| PartialController.ExhaustSoundTwice | code.py:237-241 | the flag flips and two presses restore the controller |
| PartialController.RegenAsWrittenFlipsExhaust | code.py:237-247 | the regen handler as written is the exhaust-sound handler |
| PartialController.RegenAsWrittenFromStart | code.py:243-247 | from `ECU()`, one regen press leaves regen enabled and turns exhaust sound on |
| PartialController.PressRegenAsWritten | code.py:243-247 | as written, a regen press flips `exhaust_sound` and nothing else: `regen_state`, the other ECU fields, the pad and the frame log are unchanged |
| PartialController.PressRegen | code.py:243-247 | corrected: a regen press flips `regen_state` and changes nothing else |
| PartialController.PressRegenToggles | code.py:243-247 | the corrected handler is exactly a flip of `regen_state`, and two presses restore the controller |
| PartialController.PressDriveState | code.py:249-254 | no contract of its own: `PressDriveStateSets` states that it is a plain assignment of the drive state |
| PartialController.PressDriveStateSets | code.py:249-254 | the drive state becomes the request and nothing else changes; idempotent |
| PartialController.HandleMessage | code.py:373-381 | a received frame fails exactly when it is shorter than two bytes |
| PartialController.HandleMessageHazardBit | code.py:373-381 | a frame runs the hazard handler exactly when bit 0 of its first byte is set; the gear bits only print |

## Left out

- Hardware and bus I/O are not modelled: `board`, `canio`, `digitalio`, transceiver standby/boost pins, `listen`/`receive`, and `can.state`. Sensor pins are parameters. A send appends to a log.
- The `while True` loops and `time.sleep` are not modelled. Their bit-to-handler routing is modelled by `Controller.RouteButtons` and `PartialController.HandleMessage`. The keypad wake-up frame `CanMessage(0x0, [0x01])` is not in the log, because it does not depend on controller state.
- `toggle_warning_light`, `turn_on_warning_light` and `turn_off_warning_light` are not modelled; they send constant frames. `turn_off_all_lights` appears only as the frame the code.py hazard handler sends.
- `Logger`, `Microcontroller`, `ECU.save_state` and `ECU.load_state` are left out as no-op stubs. The `print` calls are left out as well.
- The power and cruise fields, `modify_cruise_speed` and `get_current_speed` are left out as unused stubs. The other `ECU` setters appear as record updates inside the handlers. The code-old.py `set_drive_state` defined twice is the later, unconditional one, which has the same effect.
- `CanMessage.message()` and the code2.py wake/demo loop are left out as bus I/O.
- Heartbeat-driven keypad lifecycle, outbound frame queue and drive-shift frame: none of these exist in the code.
- ParkingBrake.Init: the trigger pins' values before start-up are parameters. CircuitPython's output defaults are not assumed.
- Controller.HandleMessage: a payload shorter than two bytes raises `IndexError` in the source. Here it is `Failure(ShortFrame)`, and the controller is left as it was.
- Frames.BytesMessage: the ValueError for a non-byte entry is `Failure(ByteOutOfRange)`. The model does not check whether the entries are integers, because the payload is `seq<int>`. Like code2.py, the constructor also appends zeros to the caller's list in place, and when `bytes` raises only one zero has been appended; this is not modelled, because every caller passes a literal list or the fresh result of `rgb_matrix_to_hex` and never reads that list again.

## Findings

| source | as written | input that shows it | evidently intended | confidence | as-written member | corrected member |
|---|---|---|---|---|---|---|
| code.py:243-247 | `process_regen_button_press` reads and flips `exhaust_sound` | any state, e.g. `ECU()`: one regen press leaves `regen_state` ENABLED and sets `exhaust_sound` ENABLED | flip `regen_state`, as code-old.py:485-493 does | high (not executed) | PartialController.PressRegenAsWritten | PartialController.PressRegen |
