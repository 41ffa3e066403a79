/**
 * `ParkingBreak`: the engaged flag and the two trigger outputs, with the two
 * status sensors read once at start-up. Pins are plain booleans here.
 */
module ParkingBrake {

  /** `engaged` and the values last written to the engage and disengage trigger pins. */
  datatype Brake = Brake(engaged: bool, engageTrigger: bool, disengageTrigger: bool)

  /** The trigger pins say what the flag says: engage high and disengage low exactly when engaged. */
  predicate PinsAgree(b: Brake)
  {
    b.engageTrigger == b.engaged && b.disengageTrigger == !b.engaged
  }

  /**
   * The constructor: `engaged` starts False, then `init_current_state` reads the
   * sensors. The engaged sensor wins over the disengaged one; with neither set the
   * trigger pins keep the values they held (`engageTrigger`, `disengageTrigger`).
   */
  function Init(sensorEngaged: bool, sensorDisengaged: bool, engageTrigger: bool, disengageTrigger: bool): (b: Brake)
    ensures b.engaged <==> sensorEngaged
    ensures PinsAgree(b) || (!sensorEngaged && !sensorDisengaged)
    ensures !sensorEngaged && !sensorDisengaged ==>
      b.engageTrigger == engageTrigger && b.disengageTrigger == disengageTrigger
  {
    var b := Brake(false, engageTrigger, disengageTrigger);
    if sensorEngaged then Brake(true, true, false)
    else if sensorDisengaged then Brake(false, false, true)
    else b
  }

  function IsEngaged(b: Brake): bool
  {
    b.engaged
  }

  /** `engage`: nothing happens when already engaged; otherwise disengage goes low, engage high. */
  function Engage(b: Brake): (r: Brake)
    ensures r.engaged
    ensures b.engaged ==> r == b
    ensures !b.engaged ==> PinsAgree(r)
  {
    if !b.engaged then Brake(true, true, false) else b
  }

  /** `disengage`: the mirror image of `engage`. */
  function Disengage(b: Brake): (r: Brake)
    ensures !r.engaged
    ensures !b.engaged ==> r == b
    ensures b.engaged ==> PinsAgree(r)
  {
    if b.engaged then Brake(false, false, true) else b
  }

  /** `toggle`: flips the flag and writes no pin. */
  function Toggle(b: Brake): (r: Brake)
    ensures r.engaged != b.engaged
    ensures r.engageTrigger == b.engageTrigger && r.disengageTrigger == b.disengageTrigger
  {
    b.(engaged := !b.engaged)
  }

  /** Engaging twice is engaging once; likewise for disengaging. */
  lemma EngageIdempotent(b: Brake)
    ensures Engage(Engage(b)) == Engage(b)
    ensures Disengage(Disengage(b)) == Disengage(b)
  {
  }

  /** While the pins agree with the flag, disengaging undoes engaging and the other way round. */
  lemma EngageDisengageInverse(b: Brake)
    requires PinsAgree(b)
    ensures b.engaged ==> Engage(Disengage(b)) == b
    ensures !b.engaged ==> Disengage(Engage(b)) == b
  {
  }

  /** Engage and disengage keep the pins in agreement with the flag; toggle breaks it. */
  lemma PinsAgreePreserved(b: Brake)
    requires PinsAgree(b)
    ensures PinsAgree(Engage(b)) && PinsAgree(Disengage(b))
    ensures !PinsAgree(Toggle(b))
  {
  }
}
