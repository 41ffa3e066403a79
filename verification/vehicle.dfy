/**
 * The keypad's twelve buttons and the four gears, with the integer constants the
 * firmware uses for them.
 */
module Vehicle {
  import opened Wrappers

  /** The buttons in position order; `Index` is the `BUTTON_*` constant. */
  datatype Button =
    | HazardButton | ParkButton | ReverseButton | NeutralButton | DriveButton
    | AutopilotSpeedUpButton | ExhaustSoundButton | F1Button | F2Button
    | RegenButton | AutopilotOnButton | AutopilotSpeedDownButton
  {
    function Index(): (i: nat)
      ensures i < 12
    {
      match this
      case HazardButton => 0
      case ParkButton => 1
      case ReverseButton => 2
      case NeutralButton => 3
      case DriveButton => 4
      case AutopilotSpeedUpButton => 5
      case ExhaustSoundButton => 6
      case F1Button => 7
      case F2Button => 8
      case RegenButton => 9
      case AutopilotOnButton => 10
      case AutopilotSpeedDownButton => 11
    }

    /** The `BUTTON_PRESSED_*` constant: where the button's bit sits, counted from the end of the decoded list. */
    function PressedIndex(): int
    {
      -(Index() + 1)
    }
  }

  /** The button a `process_button_pressed` index selects; any other index selects none. */
  function ButtonAt(index: int): (r: Option<Button>)
    ensures r.Some? <==> 0 <= index < 12
    ensures r.Some? ==> r.value.Index() == index
  {
    if index == 0 then Some(HazardButton)
    else if index == 1 then Some(ParkButton)
    else if index == 2 then Some(ReverseButton)
    else if index == 3 then Some(NeutralButton)
    else if index == 4 then Some(DriveButton)
    else if index == 5 then Some(AutopilotSpeedUpButton)
    else if index == 6 then Some(ExhaustSoundButton)
    else if index == 7 then Some(F1Button)
    else if index == 8 then Some(F2Button)
    else if index == 9 then Some(RegenButton)
    else if index == 10 then Some(AutopilotOnButton)
    else if index == 11 then Some(AutopilotSpeedDownButton)
    else None
  }

  /** Distinct buttons have distinct indices, so dispatch by index recovers the button. */
  lemma ButtonAtIndex(b: Button)
    ensures ButtonAt(b.Index()) == Some(b)
  {
  }

  /** The drive states `PARK`, `REVERSE`, `NEUTRAL` and `DRIVE`. */
  datatype Gear = Park | Reverse | Neutral | Drive
  {
    /** The button that selects this gear. */
    function Button(): Button
    {
      match this
      case Park => ParkButton
      case Reverse => ReverseButton
      case Neutral => NeutralButton
      case Drive => DriveButton
    }
  }
}
