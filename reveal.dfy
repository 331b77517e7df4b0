/**
 * The host's moves: `reveal_goat` opens a goat door that the contestant did not
 * choose, and `reveal_prize` looks up what is behind the final door.
 */
module Reveal {
  import opened Doors

  /** `random.choice` over the two candidates: the index it draws. */
  type Pick = i: int | 0 <= i < 2

  /** `[k for k, v in doors.items() if (k != chosen_door) & (v != 'car')]` */
  function Candidates(doors: Assignment, chosen: Door): (ks: seq<Door>)
    requires HasAllDoors(doors)
    ensures forall d: Door :: d in ks <==> d != chosen && doors[d] == Goat
    ensures forall i, j :: 0 <= i < j < |ks| ==> ks[i] < ks[j]
  {
    KeysWhere(k => k in doors && k != chosen && doors[k] != Car)
  }

  /** With the car chosen, both other doors are candidates. */
  lemma CarChosenCandidates(doors: Assignment, chosen: Door)
    requires WellFormed(doors) && doors[chosen] == Car
    ensures |Candidates(doors, chosen)| == 2
  {
    WellFormedIsPlacement(doors);
    if chosen == 1 {
      assert Candidates(doors, chosen) == [2, 3];
    } else if chosen == 2 {
      assert Candidates(doors, chosen) == [1, 3];
    } else {
      assert Candidates(doors, chosen) == [1, 2];
    }
  }

  /** With a goat chosen, the other goat door is the only candidate. */
  lemma GoatChosenCandidates(doors: Assignment, chosen: Door)
    requires WellFormed(doors) && doors[chosen] == Goat
    ensures Candidates(doors, chosen) == [OtherDoor(chosen, CarDoor(doors))]
  {
    var c := CarDoor(doors);
    var o := OtherDoor(chosen, c);
    OtherDoorUnique(chosen, c, 1);
    OtherDoorUnique(chosen, c, 2);
    OtherDoorUnique(chosen, c, 3);
    assert doors[o] == Goat;
    if o == 1 {
      assert Candidates(doors, chosen) == [1];
    } else if o == 2 {
      assert Candidates(doors, chosen) == [2];
    } else {
      assert Candidates(doors, chosen) == [3];
    }
  }

  /**
   * There are one or two candidates: one when the contestant chose a goat (then the
   * unchosen goat is the only one), two when the contestant chose the car.
   */
  lemma CandidateCount(doors: Assignment, chosen: Door)
    requires WellFormed(doors)
    ensures 1 <= |Candidates(doors, chosen)| <= 2
    ensures |Candidates(doors, chosen)| == 1 <==> doors[chosen] == Goat
    ensures doors[chosen] == Goat ==>
      Candidates(doors, chosen) == [OtherDoor(chosen, CarDoor(doors))]
  {
    if doors[chosen] == Car {
      CarChosenCandidates(doors, chosen);
    } else {
      GoatChosenCandidates(doors, chosen);
    }
  }

  /** The doors `reveal_goat` returns. */
  datatype Opened = Opened(revealed: Door, remaining: Door)

  /**
   * `reveal_goat`: a single candidate is opened; of two, the one `random.choice`
   * picks. The remaining door is the first that is neither chosen nor revealed.
   */
  function RevealGoat(doors: Assignment, chosen: Door, pick: Pick): (o: Opened)
    requires WellFormed(doors)
    ensures o.revealed != chosen && doors[o.revealed] == Goat
    ensures o.remaining != chosen && o.remaining != o.revealed
    ensures {chosen, o.revealed, o.remaining} == {1, 2, 3}
    ensures doors[chosen] == Goat ==> o.remaining == CarDoor(doors)
    ensures doors[o.remaining] == (if doors[chosen] == Goat then Car else Goat)
  {
    var candidates := Candidates(doors, chosen);
    CandidateCount(doors, chosen);
    var revealed := if |candidates| == 1 then candidates[0] else candidates[pick];
    assert revealed in candidates;
    var o := Opened(revealed, Remaining(chosen, revealed));
    ThreeDistinct(chosen, o.revealed, o.remaining);
    o
  }

  /** When the contestant chose a goat, the host has no choice to make. */
  lemma RevealDeterministic(doors: Assignment, chosen: Door, pick: Pick, pick': Pick)
    requires WellFormed(doors) && doors[chosen] == Goat
    ensures RevealGoat(doors, chosen, pick) == RevealGoat(doors, chosen, pick')
    ensures RevealGoat(doors, chosen, pick).revealed == OtherDoor(chosen, CarDoor(doors))
  {
    CandidateCount(doors, chosen);
  }

  /** When the contestant chose the car, either unchosen door may be opened. */
  lemma RevealEither(doors: Assignment, chosen: Door)
    requires WellFormed(doors) && doors[chosen] == Car
    ensures RevealGoat(doors, chosen, 0).revealed != RevealGoat(doors, chosen, 1).revealed
    ensures RevealGoat(doors, chosen, 0).remaining == RevealGoat(doors, chosen, 1).revealed
  {
    CandidateCount(doors, chosen);
    var o0 := RevealGoat(doors, chosen, 0);
    var o1 := RevealGoat(doors, chosen, 1);
    OtherDoorUnique(chosen, o0.revealed, o1.revealed);
  }

  datatype Option<T> = None | Some(value: T)

  /**
   * `reveal_prize`: with `theatrics` the outcome is narrated and nothing is
   * returned; without, the prize behind the final door is returned.
   */
  function RevealPrize(doors: Assignment, chosen: Door, revealed: Door, final: Door, theatrics: bool)
    : (r: Option<Prize>)
    requires HasAllDoors(doors)
    ensures r.None? <==> theatrics
    ensures !theatrics ==> r == Some(doors[final])
  {
    if theatrics then None else Some(doors[final])
  }


  /** Silently, the car is won exactly when the final door is the car door. */
  lemma RevealPrizeWins(doors: Assignment, chosen: Door, revealed: Door, final: Door)
    requires WellFormed(doors)
    ensures RevealPrize(doors, chosen, revealed, final, false) == Some(Car) <==> final == CarDoor(doors)
  {
  }
}
