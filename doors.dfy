/**
 * The three doors, the two prizes, the prize assignment (the `doors` dictionary),
 * how a door name is displayed (`display_door`) and how the prizes are hidden
 * (`hide_prizes`).
 */
module Doors {
  import opened PyStr

  /** A door, identified by its number: the dictionary key `door_<number>`. */
  type Door = k: int | 1 <= k <= 3 witness 1

  datatype Prize = Car | Goat

  /** The `doors` dictionary, from door to the prize behind it. */
  type Assignment = map<Door, Prize>

  /** `str(k)` for the door number `k`. */
  function Digit(d: Door): (c: char)
    ensures IsDigitChar(c) && c as int - '0' as int == d
  {
    ('0' as int + d) as char
  }

  /** The dictionary key of a door: `'door_' + str(k)`. */
  function Name(d: Door): string {
    "door_" + [Digit(d)]
  }

  lemma NameInjective(d: Door, e: Door)
    ensures Name(d) == Name(e) <==> d == e
  {
    if Name(d) == Name(e) {
      assert Name(d)[5] == Name(e)[5];
    }
  }

  /** `display_door`: `door_num.replace('_', ' #').capitalize()`. */
  function DisplayDoor(doorNum: string): (r: string)
    ensures |r| >= |doorNum|
  {
    Capitalize(Replace(doorNum, '_', " #"))
  }

  /** Replacing the underscore of a door key. */
  lemma ReplaceInName(c: char)
    requires IsDigitChar(c)
    ensures Replace("door_" + [c], '_', " #") == "door #" + [c]
  {
    assert "door_" + [c] == "door" + ['_'] + [c];
    ReplaceOne("door", '_', c, " #");
    assert "door" + " #" + [c] == "door #" + [c];
  }

  /** Capitalizing a replaced door key upper-cases only its `d`. */
  lemma CapitalizeInName(c: char)
    requires IsDigitChar(c)
    ensures Capitalize("door #" + [c]) == "Door #" + [c]
  {
    var s := "door #" + [c];
    var t := "oor #" + [c];
    assert s[1..] == t;
    assert Lower(t) == t;
  }

  /** Every door key is displayed as `Door #<number>`. */
  lemma DisplayDoorName(d: Door)
    ensures DisplayDoor(Name(d)) == "Door #" + [Digit(d)]
  {
    ReplaceInName(Digit(d));
    CapitalizeInName(Digit(d));
  }

  /** Distinct doors are displayed differently. */
  lemma DisplayDoorInjective(d: Door, e: Door)
    ensures DisplayDoor(Name(d)) == DisplayDoor(Name(e)) <==> d == e
  {
    DisplayDoorName(d);
    DisplayDoorName(e);
    if DisplayDoor(Name(d)) == DisplayDoor(Name(e)) {
      assert DisplayDoor(Name(d))[6] == DisplayDoor(Name(e))[6];
    }
  }

  /**
   * The list comprehension `[k for k in doors if keep(k)]`. The dictionary is always
   * built as door_1, door_2, door_3 and its entries are only overwritten or popped,
   * so it is iterated in the order of the door numbers.
   */
  function KeysWhere(keep: Door -> bool): (ks: seq<Door>)
    ensures forall d: Door :: d in ks <==> keep(d)
    ensures forall i, j :: 0 <= i < j < |ks| ==> ks[i] < ks[j]
  {
    (if keep(1) then [1] else []) + (if keep(2) then [2] else []) + (if keep(3) then [3] else [])
  }

  predicate HasAllDoors(a: Assignment) {
    forall d: Door :: d in a
  }

  /** `[k for k, v in doors.items() if v == 'car']` */
  function CarKeys(a: Assignment): seq<Door> {
    KeysWhere(k => k in a && a[k] == Car)
  }

  /** A prize assignment: all three doors, exactly one of them holding the car. */
  predicate WellFormed(a: Assignment) {
    HasAllDoors(a) && |CarKeys(a)| == 1
  }

  /** The winning door, `[k for k, v in doors.items() if v == 'car'][0]`. */
  function CarDoor(a: Assignment): (c: Door)
    requires WellFormed(a)
    ensures a[c] == Car
    ensures forall d: Door :: a[d] == Car <==> d == c
  {
    CarKeys(a)[0]
  }

  /** The assignment with the car behind `car` and a goat behind the other two doors. */
  function Placement(car: Door): (a: Assignment)
    ensures WellFormed(a) && CarDoor(a) == car
    ensures forall d: Door :: a[d] == Goat <==> d != car
  {
    var a := map[1 := Goat, 2 := Goat, 3 := Goat][car := Car];
    assert a[1] == Car <==> car == 1;
    assert a[2] == Car <==> car == 2;
    assert a[3] == Car <==> car == 3;
    assert CarKeys(a) == [car];
    a
  }

  /** Every prize assignment is the placement of its car door. */
  lemma WellFormedIsPlacement(a: Assignment)
    requires WellFormed(a)
    ensures a == Placement(CarDoor(a))
  {
    var p := Placement(CarDoor(a));
    assert a.Keys == p.Keys;
  }

  /**
   * `hide_prizes`: start from a goat behind every door, then overwrite the entry of
   * the door `random.randint(1, 3)` drew with the car.
   */
  method HidePrizes(carDraw: Door) returns (doors: Assignment)
    ensures WellFormed(doors)
    ensures forall d: Door :: doors[d] == Car <==> d == carDraw
    ensures doors == Placement(carDraw)
  {
    doors := map[1 := Goat, 2 := Goat, 3 := Goat];
    if carDraw == 1 {
      doors := doors[1 := Car];
    } else if carDraw == 2 {
      doors := doors[2 := Car];
    } else {
      doors := doors[3 := Car];
    }
    assert doors == Placement(carDraw);
  }

  /** The door that is neither `x` nor `y`, found from the numbers: 1 + 2 + 3 == 6. */
  function OtherDoor(x: Door, y: Door): (z: Door)
    requires x != y
    ensures z != x && z != y
  {
    6 - x - y
  }

  /** The other door is the only door besides `x` and `y`. */
  lemma OtherDoorUnique(x: Door, y: Door, d: Door)
    requires x != y
    ensures d == OtherDoor(x, y) <==> d != x && d != y
  {
  }

  /** Three distinct doors are all the doors. */
  lemma ThreeDistinct(x: Door, y: Door, z: Door)
    requires x != y && y != z && x != z
    ensures {x, y, z} == {1, 2, 3}
  {
    assert z == OtherDoor(x, y);
    if x == 1 { if y == 2 { } else { } }
    else if x == 2 { if y == 1 { } else { } }
    else { if y == 1 { } else { } }
  }

  /** The test `k not in (chosen, revealed)`. */
  function Outside(chosen: Door, revealed: Door): Door -> bool {
    k => k != chosen && k != revealed
  }

  /** The doors outside a chosen and a revealed door head with the least such door. */
  lemma OutsideKeys(chosen: Door, revealed: Door)
    ensures var ks := KeysWhere(Outside(chosen, revealed));
      |ks| > 0 && ks[0] != chosen && ks[0] != revealed
  {
    var ks := KeysWhere(Outside(chosen, revealed));
    if chosen != 1 && revealed != 1 {
      assert 1 in ks;
    } else if chosen != 2 && revealed != 2 {
      assert 2 in ks;
    } else {
      assert 3 in ks;
    }
    assert ks[0] in ks;
  }

  /** `[k for k in doors if k not in (chosen, revealed)][0]`: the first door that is neither. */
  function Remaining(chosen: Door, revealed: Door): (r: Door)
    ensures r != chosen && r != revealed
    ensures chosen != revealed ==> r == OtherDoor(chosen, revealed)
  {
    OutsideKeys(chosen, revealed);
    KeysWhere(Outside(chosen, revealed))[0]
  }
}
