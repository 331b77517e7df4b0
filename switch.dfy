/**
 * `switch_stay`: find the door that is neither chosen nor revealed, then stay or
 * switch as the decision says.
 */
module Switch {
  import opened PyStr
  import opened Doors

  /** How `switch_stay` ends. */
  datatype Resolution =
    | Final(door: Door)   // the final door it returns
    | AskAgain            // an unrecognised alphanumeric answer: it asks again through `input`

  /** The decision rule: `y` switches, `n` stays, any case; no usable answer stays. */
  function Decide(chosen: Door, remaining: Door, decision: string): (r: Resolution)
    ensures r.Final? ==> r.door == chosen || r.door == remaining
  {
    if Lower(decision) == "y" then Final(remaining)
    else if Lower(decision) == "n" then Final(chosen)
    else if IsAlnum(decision) then AskAgain
    else Final(chosen)
  }

  /** Which answers switch, which stay and which lead to another question. */
  lemma DecisionCases(chosen: Door, remaining: Door, decision: string)
    ensures decision == "y" || decision == "Y" ==> Decide(chosen, remaining, decision) == Final(remaining)
    ensures decision == "n" || decision == "N" ==> Decide(chosen, remaining, decision) == Final(chosen)
    ensures !IsAlnum(decision) ==> Decide(chosen, remaining, decision) == Final(chosen)
    ensures Decide(chosen, remaining, decision) == AskAgain <==>
      IsAlnum(decision) && decision != "y" && decision != "Y" && decision != "n" && decision != "N"
  {
    LowerIsY(decision);
    LowerIsN(decision);
    if decision == "y" || decision == "Y" || decision == "n" || decision == "N" {
      assert IsAlnumChar(decision[0]);
    }
  }

  /** The empty answer (no input) keeps the chosen door. */
  lemma EmptyAnswerStays(chosen: Door, remaining: Door)
    ensures Decide(chosen, remaining, "") == Final(chosen)
  {
  }

  /**
   * `switch_stay(doors, chosen, revealed, user_input=False, switch_decision=decision)`:
   * copy the dictionary, pop the chosen and the revealed door (`pop(k, None)`
   * ignores a key already gone), and take the first key left.
   */
  method SwitchStay(doors: Assignment, chosen: Door, revealed: Door, decision: string)
    returns (r: Resolution)
    requires HasAllDoors(doors)
    ensures r == Decide(chosen, Remaining(chosen, revealed), decision)
  {
    var doorsDict := doors;
    var doorsToRemove := [chosen, revealed];
    for i := 0 to |doorsToRemove|
      invariant forall d: Door :: d in doorsDict <==> d !in doorsToRemove[..i]
    {
      doorsDict := doorsDict - {doorsToRemove[i]};
    }
    assert doorsToRemove[..2] == [chosen, revealed];
    var left := KeysWhere(k => k in doorsDict);
    assert left == KeysWhere(k => k != chosen && k != revealed) by {
      assert (1 in doorsDict) == (1 != chosen && 1 != revealed);
      assert (2 in doorsDict) == (2 != chosen && 2 != revealed);
      assert (3 in doorsDict) == (3 != chosen && 3 != revealed);
    }
    var remaining := left[0];
    if Lower(decision) == "y" {
      r := Final(remaining);
    } else if Lower(decision) == "n" {
      r := Final(chosen);
    } else if IsAlnum(decision) {
      r := AskAgain;
    } else {
      r := Final(chosen);
    }
  }

  /**
   * With a goat door revealed, switching returns the one other unopened door and
   * staying the chosen one: the final door differs from the chosen one exactly
   * when the answer is `y` or `Y`.
   */
  lemma SwitchReturnsOtherDoor(chosen: Door, revealed: Door, decision: string)
    requires chosen != revealed
    ensures var r := Decide(chosen, Remaining(chosen, revealed), decision);
      r.Final? ==> (r.door != revealed &&
        (r.door != chosen <==> decision == "y" || decision == "Y") &&
        (r.door != chosen ==> r.door == OtherDoor(chosen, revealed)))
  {
    DecisionCases(chosen, Remaining(chosen, revealed), decision);
    LowerIsY(decision);
  }
}
