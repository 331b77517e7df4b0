/**
 * `choose_door`: turning the contestant's answer into a door. The non-interactive
 * branch (`user_input=False`) works on the given `door_num`; the interactive one
 * reads its answers from the console, given here as a sequence of lines.
 */
module Choose {
  import opened PyStr
  import opened Doors

  /** The outcome of processing one `door_num`. */
  datatype Choice =
    | Chosen(door: Door)    // returned as the key 'door_<k>'
    | Escape(raw: string)   // not alphanumeric (empty, or with `_`, space, `#`, ...): returned unchanged
    | OutOfRange            // a number other than 1, 2 or 3: the contestant is asked again
    | NotANumber            // alphanumeric but not decimal, or too many digits: `int(door_num)` raises ValueError

  /** `choose_door(user_input=False, door_num=doorNum)`, up to the reprompt. */
  function ChooseDoor(doorNum: string): (c: Choice)
    ensures c.Escape? <==> !IsAlnum(doorNum)
    ensures c.Escape? ==> c.raw == doorNum
    ensures c.NotANumber? <==> IsAlnum(doorNum) && (!IsDigits(doorNum) || |doorNum| > IntMaxStrDigits)
    ensures c.Chosen? ==> IsDigits(doorNum) && |doorNum| <= IntMaxStrDigits && DigitsValue(doorNum) == c.door
  {
    if !IsAlnum(doorNum) then Escape(doorNum)
    else if !IsDigits(doorNum) || |doorNum| > IntMaxStrDigits then NotANumber
    else
      var k := DigitsValue(doorNum);
      if 1 <= k <= 3 then Chosen(k) else OutOfRange
  }

  /** Statistics mode calls `choose_door` with the default `door_num='1'`: door 1. */
  lemma ChooseDefault()
    ensures ChooseDoor("1") == Chosen(1)
  {
    SingleDigit('1');
  }

  /** The answers `'1'`, `'2'` and `'3'` pick the door whose key is `'door_' + answer`. */
  lemma ChooseDigit(d: Door)
    ensures ChooseDoor([Digit(d)]) == Chosen(d)
  {
    SingleDigit(Digit(d));
  }

  /**
   * A door key typed as the answer is not alphanumeric (`_`), so it is returned
   * unchanged, and the narrated game then takes it as that door.
   */
  lemma KeyAnswerEscapes(d: Door)
    ensures ChooseDoor(Name(d)) == Escape(Name(d))
  {
    assert !IsAlnumChar(Name(d)[4]);
  }

  /** A string of digits is worth 0 exactly when every digit is 0. */
  lemma {:induction false} ZeroValue(s: string)
    requires forall i :: 0 <= i < |s| ==> IsDigitChar(s[i])
    ensures DigitsValue(s) == 0 <==> forall i :: 0 <= i < |s| ==> s[i] == '0'
  {
    if s != [] {
      var p := s[..|s| - 1];
      ZeroValue(p);
      if forall i :: 0 <= i < |s| ==> s[i] == '0' {
        assert forall i :: 0 <= i < |p| ==> p[i] == '0' by {
          forall i | 0 <= i < |p| ensures p[i] == '0' {
            assert p[i] == s[i];
          }
        }
      }
      if DigitsValue(s) == 0 {
        forall i | 0 <= i < |s| ensures s[i] == '0' {
          if i < |s| - 1 {
            assert s[i] == p[i];
          }
        }
      }
    }
  }

  /**
   * The answers that choose a door are exactly the door's digit, possibly after
   * leading zeros (`int('003') == 3`), within the digit limit of `int`.
   */
  lemma ChosenExactly(doorNum: string, d: Door)
    ensures ChooseDoor(doorNum) == Chosen(d) <==>
      1 <= |doorNum| <= IntMaxStrDigits && doorNum[|doorNum| - 1] == Digit(d) &&
      forall i :: 0 <= i < |doorNum| - 1 ==> doorNum[i] == '0'
  {
    var n := |doorNum|;
    if ChooseDoor(doorNum) == Chosen(d) {
      var p := doorNum[..n - 1];
      assert forall i :: 0 <= i < |p| ==> IsDigitChar(p[i]);
      assert DigitsValue(doorNum) == 10 * DigitsValue(p) + (doorNum[n - 1] as int - '0' as int);
      assert DigitsValue(p) == 0;
      ZeroValue(p);
      forall i | 0 <= i < n - 1 ensures doorNum[i] == '0' {
        assert doorNum[i] == p[i];
      }
    }
    if n >= 1 && doorNum[n - 1] == Digit(d) && forall i :: 0 <= i < n - 1 ==> doorNum[i] == '0' {
      var p := doorNum[..n - 1];
      assert forall i :: 0 <= i < |p| ==> p[i] == '0';
      ZeroValue(p);
      assert forall i :: 0 <= i < n ==> IsAlnumChar(doorNum[i]);
      assert DigitsValue(doorNum) == 10 * DigitsValue(p) + (doorNum[n - 1] as int - '0' as int);
    }
  }

  /** The outcome of the interactive branch over the console lines it is given. */
  datatype Prompted =
    | Answered(choice: Choice, linesRead: nat)   // the result and how many lines were read
    | InputEnded                             // the console ran out of lines (EOFError)

  function Later(p: Prompted, k: nat): Prompted {
    match p
    case Answered(c, n) => Answered(c, n + k)
    case InputEnded => InputEnded
  }

  /**
   * `choose_door()` as written. An out-of-range number reads the clarified prompt's
   * answer and passes it as `door_num`, but the recursive call runs with the default
   * `user_input=True` and overwrites it with a fresh answer to the first prompt.
   */
  function ChooseInteractiveAsWritten(lines: seq<string>): (p: Prompted)
    ensures p.Answered? ==> 1 <= p.linesRead <= |lines| && !p.choice.OutOfRange?
    decreases |lines|
  {
    if |lines| == 0 then InputEnded
    else match ChooseDoor(lines[0])
      case OutOfRange =>
        if |lines| == 1 then InputEnded
        else Later(ChooseInteractiveAsWritten(lines[2..]), 2)
      case c => Answered(c, 1)
  }

  /** `choose_door()` with the reprompt's answer used as the next `door_num`. */
  function ChooseInteractive(lines: seq<string>): (p: Prompted)
    ensures p.Answered? ==> 1 <= p.linesRead <= |lines| && !p.choice.OutOfRange?
    decreases |lines|
  {
    if |lines| == 0 then InputEnded
    else match ChooseDoor(lines[0])
      case OutOfRange => Later(ChooseInteractive(lines[1..]), 1)
      case c => Answered(c, 1)
  }

  /** As written, the door is only ever decided by an answer to the first prompt. */
  lemma {:induction false} AsWrittenIgnoresReprompts(lines: seq<string>)
    ensures ChooseInteractiveAsWritten(lines).Answered? ==>
      var n := ChooseInteractiveAsWritten(lines).linesRead;
      1 <= n <= |lines| && n % 2 == 1 &&
      ChooseInteractiveAsWritten(lines).choice == ChooseDoor(lines[n - 1]) &&
      forall i :: 0 <= i < n - 1 && i % 2 == 0 ==> ChooseDoor(lines[i]) == OutOfRange
    decreases |lines|
  {
    if |lines| >= 2 && ChooseDoor(lines[0]) == OutOfRange {
      var rest := lines[2..];
      AsWrittenIgnoresReprompts(rest);
      if ChooseInteractiveAsWritten(rest).Answered? {
        var m := ChooseInteractiveAsWritten(rest).linesRead;
        forall i | 0 <= i < m + 1 && i % 2 == 0 ensures ChooseDoor(lines[i]) == OutOfRange {
          if i >= 2 {
            assert lines[i] == rest[i - 2];
          }
        }
        assert lines[m + 1] == rest[m - 1];
      }
    }
  }

  /** The input "5" then "2": as written it waits for a third line, which decides. */
  lemma AsWrittenCounterexample()
    ensures ChooseInteractiveAsWritten(["5", "2"]) == InputEnded
    ensures ChooseInteractiveAsWritten(["5", "2", "3"]) == Answered(Chosen(3), 3)
    ensures ChooseInteractive(["5", "2"]) == Answered(Chosen(2), 2)
  {
    SingleDigit('5');
    SingleDigit('2');
    SingleDigit('3');
    assert ["5", "2"][1..] == ["2"];
    assert ["5", "2", "3"][2..] == ["3"];
  }

  /**
   * With the reprompt's answer used, the contestant is asked until an answer is not
   * an out-of-range number, and that answer decides.
   */
  lemma {:induction false} InteractiveFirstValidAnswer(lines: seq<string>)
    ensures ChooseInteractive(lines).Answered? <==>
      exists i :: 0 <= i < |lines| && ChooseDoor(lines[i]) != OutOfRange
    ensures ChooseInteractive(lines).Answered? ==>
      var n := ChooseInteractive(lines).linesRead;
      1 <= n <= |lines| &&
      ChooseInteractive(lines).choice == ChooseDoor(lines[n - 1]) != OutOfRange &&
      forall i :: 0 <= i < n - 1 ==> ChooseDoor(lines[i]) == OutOfRange
    decreases |lines|
  {
    if |lines| > 0 && ChooseDoor(lines[0]) == OutOfRange {
      var rest := lines[1..];
      InteractiveFirstValidAnswer(rest);
      if exists i :: 0 <= i < |lines| && ChooseDoor(lines[i]) != OutOfRange {
        var i :| 0 <= i < |lines| && ChooseDoor(lines[i]) != OutOfRange;
        assert i > 0 && lines[i] == rest[i - 1];
      }
      if ChooseInteractive(rest).Answered? {
        var m := ChooseInteractive(rest).linesRead;
        forall i | 0 <= i < m ensures ChooseDoor(lines[i]) == OutOfRange {
          if i >= 1 {
            assert lines[i] == rest[i - 1];
          }
        }
        assert lines[m] == rest[m - 1];
        assert ChooseDoor(rest[m - 1]) != OutOfRange;
      }
    }
  }
}
