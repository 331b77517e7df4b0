/**
 * `make_deal(demo_mode=False, switch_decision=...)`: one silent round of the game
 * for statistics, and what it adds up to over the three places the car can be.
 */
module Deal {
  import PyStr
  import opened Doors
  import opened Choose
  import opened Reveal
  import opened Switch

  /** What a silent round gives back. */
  datatype Trial =
    | Returned(prize: Prize)   // the prize behind the final door
    | AskedAgain               // the decision was not understood and `switch_stay` prompted

  /** A round after the prizes are hidden and a door chosen: reveal, resolve, look up. */
  function PlayRound(doors: Assignment, chosen: Door, pick: Pick, decision: string): (t: Trial)
    requires WellFormed(doors)
  {
    var shown := RevealGoat(doors, chosen, pick);
    match Decide(chosen, Remaining(chosen, shown.revealed), decision)
    case AskAgain => AskedAgain
    case Final(finalDoor) => Returned(RevealPrize(doors, chosen, shown.revealed, finalDoor, false).value)
  }

  /**
   * Switching wins exactly when the first choice was a goat, staying exactly when
   * it was the car, and neither depends on which goat the host opened.
   */
  lemma {:induction false} SwitchWinsIffGoatChosen(doors: Assignment, chosen: Door, pick: Pick, decision: string)
    requires WellFormed(doors)
    ensures decision == "y" || decision == "Y" ==>
      PlayRound(doors, chosen, pick, decision) == Returned(if doors[chosen] == Goat then Car else Goat)
    ensures decision == "n" || decision == "N" || !PyStr.IsAlnum(decision) ==>
      PlayRound(doors, chosen, pick, decision) == Returned(doors[chosen])
  {
    var shown := RevealGoat(doors, chosen, pick);
    var remaining := Remaining(chosen, shown.revealed);
    assert remaining == shown.remaining;
    DecisionCases(chosen, remaining, decision);
  }

  /** An alphanumeric answer other than y/n never finishes a silent round. */
  lemma OtherAnswerAsksAgain(doors: Assignment, chosen: Door, pick: Pick, decision: string)
    requires WellFormed(doors)
    requires PyStr.IsAlnum(decision) && decision != "y" && decision != "Y" && decision != "n" && decision != "N"
    ensures PlayRound(doors, chosen, pick, decision) == AskedAgain
  {
    var shown := RevealGoat(doors, chosen, pick);
    DecisionCases(chosen, Remaining(chosen, shown.revealed), decision);
  }

  /**
   * The statistics branch of `make_deal`: the two random draws are the arguments
   * `carDraw` (`random.randint(1, 3)`) and `pick` (`random.choice`), and the door
   * chosen is the default `'1'`.
   */
  method MakeDeal(carDraw: Door, pick: Pick, switchDecision: string) returns (t: Trial)
    ensures t == PlayRound(Placement(carDraw), 1, pick, switchDecision)
    ensures switchDecision == "y" ==> t == Returned(if carDraw != 1 then Car else Goat)
    ensures switchDecision == "n" ==> t == Returned(if carDraw == 1 then Car else Goat)
  {
    var doors := HidePrizes(carDraw);
    ChooseDefault();
    var chosenDoor := ChooseDoor("1").door;
    var shown := RevealGoat(doors, chosenDoor, pick);
    var finalDoor := SwitchStay(doors, chosenDoor, shown.revealed, switchDecision);
    match finalDoor
    case AskAgain =>
      t := AskedAgain;
    case Final(f) =>
      var prize := RevealPrize(doors, chosenDoor, shown.revealed, f, false);
      t := Returned(prize.value);
    SwitchWinsIffGoatChosen(doors, chosenDoor, pick, switchDecision);
  }

  /** Whether a silent round with the car behind `car` wins the car. */
  predicate WinsCar(car: Door, chosen: Door, pick: Pick, decision: string) {
    PlayRound(Placement(car), chosen, pick, decision) == Returned(Car)
  }

  /** In how many of the three car positions a silent round wins the car. */
  function WinCount(chosen: Door, pick: Pick, decision: string): nat {
    (if WinsCar(1, chosen, pick, decision) then 1 else 0)
    + (if WinsCar(2, chosen, pick, decision) then 1 else 0)
    + (if WinsCar(3, chosen, pick, decision) then 1 else 0)
  }

  /** For every car position, the decision alone says whether the car is won. */
  lemma WinsCarExactly(car: Door, chosen: Door, pick: Pick)
    ensures WinsCar(car, chosen, pick, "y") <==> car != chosen
    ensures WinsCar(car, chosen, pick, "n") <==> car == chosen
  {
    SwitchWinsIffGoatChosen(Placement(car), chosen, pick, "y");
    SwitchWinsIffGoatChosen(Placement(car), chosen, pick, "n");
  }

  /**
   * Over the three places the car can be, switching wins in two and staying in
   * one, whichever door the contestant picks and whichever goat is opened.
   */
  lemma SwitchWinsTwoOfThree(chosen: Door, pick: Pick)
    ensures WinCount(chosen, pick, "y") == 2
    ensures WinCount(chosen, pick, "n") == 1
  {
    WinsCarExactly(1, chosen, pick);
    WinsCarExactly(2, chosen, pick);
    WinsCarExactly(3, chosen, pick);
  }
}
