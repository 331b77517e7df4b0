/**
 * `intro`: the readiness gate before a narrated game. Only the answers and the
 * counter that bounds the reprompts are modelled; the console lines it reads are
 * given as a sequence.
 */
module Intro {
  import opened PyStr

  /** The number of entries in `flippant_responses`, one per reprompt. */
  const FlippantCount: nat := 20

  datatype IntroResult =
    | Answer(ready: string, reprompts: nat)   // the value `intro` returns and `response_count`
    | NoMoreInput                             // the console ran out of lines (EOFError)

  /** The `while` loop: reprompt until the answer is `y` or `n` or the responses run out. */
  function Ladder(ready: string, rest: seq<string>, count: nat): (r: IntroResult)
    requires count <= FlippantCount
    ensures r.Answer? ==> count <= r.reprompts <= FlippantCount
    ensures r.Answer? ==> r.ready == "y" || r.ready == "n" || r.reprompts == FlippantCount
    ensures r.Answer? ==> r.reprompts - count <= |rest|
    decreases FlippantCount - count
  {
    if ready == "y" || ready == "n" || count == FlippantCount then Answer(ready, count)
    else if rest == [] then NoMoreInput
    else Ladder(rest[0], rest[1..], count + 1)
  }

  /**
   * What `intro(user_input, ready)` returns: without user input the given `ready`;
   * with it, the first answer lower-cased, a second chance after `n` (not
   * lower-cased), then the loop.
   */
  function IntroOutcome(userInput: bool, ready: string, lines: seq<string>): (r: IntroResult)
    ensures userInput && r.Answer? ==> r.reprompts < |lines| && r.reprompts <= FlippantCount
    ensures userInput && r.Answer? ==> r.ready == "y" || r.ready == "n" || r.reprompts == FlippantCount
  {
    if !userInput then Answer(ready, 0)
    else if |lines| == 0 then NoMoreInput
    else if Lower(lines[0]) == "n" then
      if |lines| < 2 then NoMoreInput else Ladder(lines[1], lines[2..], 0)
    else Ladder(Lower(lines[0]), lines[1..], 0)
  }

  /** The `while` loop of `intro`, reprompting over the console lines `rest`. */
  method Reprompt(ready: string, rest: seq<string>) returns (r: IntroResult)
    ensures r == Ladder(ready, rest, 0)
    ensures r.Answer? ==> r.ready == "y" || r.ready == "n" || r.reprompts == FlippantCount
  {
    var answer := ready;
    var next := 0;
    var responseCount := 0;
    while answer != "y" && answer != "n" && responseCount < FlippantCount
      invariant 0 <= responseCount <= FlippantCount
      invariant next <= |rest|
      invariant Ladder(answer, rest[next..], responseCount) == Ladder(ready, rest, 0)
      decreases FlippantCount - responseCount
    {
      if next == |rest| {
        return NoMoreInput;
      }
      assert rest[next..][1..] == rest[next + 1..];
      answer := rest[next];
      next := next + 1;
      responseCount := responseCount + 1;
    }
    r := Answer(answer, responseCount);
  }

  /** `intro`: the first answer, a second chance after `n`, then the loop. */
  method RunIntro(userInput: bool, ready: string, lines: seq<string>) returns (r: IntroResult)
    ensures r == IntroOutcome(userInput, ready, lines)
    ensures !userInput ==> r == Answer(ready, 0)
    ensures userInput && r.Answer? ==> r.reprompts <= FlippantCount
    ensures userInput && r.Answer? ==> r.ready == "y" || r.ready == "n" || r.reprompts == FlippantCount
  {
    if !userInput {
      return Answer(ready, 0);
    }
    if |lines| == 0 {
      return NoMoreInput;
    }
    var answer := Lower(lines[0]);
    if answer == "n" {
      if |lines| < 2 {
        return NoMoreInput;
      }
      r := Reprompt(lines[1], lines[2..]);
    } else {
      r := Reprompt(answer, lines[1..]);
    }
  }

  /**
   * The loop returns the first answer that is `y` or `n`, or the answer to the
   * last reprompt: the `k`-th line it looks at, where `k` is the reprompts it made.
   */
  lemma {:induction false} LadderFirst(ready: string, rest: seq<string>, count: nat)
    requires count <= FlippantCount
    ensures var r := Ladder(ready, rest, count);
      r.Answer? ==>
        var k := r.reprompts - count;
        0 <= k <= |rest| && r.ready == ([ready] + rest)[k] &&
        forall j :: 0 <= j < k ==> ([ready] + rest)[j] != "y" && ([ready] + rest)[j] != "n"
    decreases FlippantCount - count
  {
    if !(ready == "y" || ready == "n" || count == FlippantCount) && rest != [] {
      LadderFirst(rest[0], rest[1..], count + 1);
      var all := [ready] + rest;
      assert [rest[0]] + rest[1..] == rest == all[1..];
    }
  }

  /** After a first `n`, the loop starts at the second line. */
  lemma SecondChanceLine(lines: seq<string>)
    requires |lines| >= 2
    ensures var r := Ladder(lines[1], lines[2..], 0);
      r.Answer? ==>
        r.reprompts + 1 < |lines| && r.ready == lines[r.reprompts + 1] &&
        forall j :: 0 < j < r.reprompts + 1 ==> lines[j] != "y" && lines[j] != "n"
  {
    LadderFirst(lines[1], lines[2..], 0);
    assert [lines[1]] + lines[2..] == lines[1..];
  }

  /** Otherwise the loop starts at the lower-cased first line. */
  lemma FirstAnswerLine(first: string, lines: seq<string>)
    requires |lines| > 0
    ensures var r := Ladder(first, lines[1..], 0);
      r.Answer? ==>
        r.reprompts < |lines| &&
        r.ready == (if r.reprompts == 0 then first else lines[r.reprompts]) &&
        (r.reprompts > 0 ==> first != "y") &&
        forall j :: 0 < j < r.reprompts ==> lines[j] != "y" && lines[j] != "n"
  {
    LadderFirst(first, lines[1..], 0);
    var all := [first] + lines[1..];
    forall j | 0 < j < |lines|
      ensures all[j] == lines[j]
    {
      assert all[j] == lines[1..][j - 1];
    }
  }

  /**
   * Which console line `intro` returns: line `i`, the first whose answer is `y` or
   * `n` (only the first line is lower-cased; after it an `n` only opens the second
   * chance), or the last one the reprompts allow.
   */
  lemma IntroDecidingLine(ready: string, lines: seq<string>)
    ensures var r := IntroOutcome(true, ready, lines);
      r.Answer? ==>
        var i := if Lower(lines[0]) == "n" then r.reprompts + 1 else r.reprompts;
        i < |lines| &&
        r.ready == (if i == 0 then Lower(lines[0]) else lines[i]) &&
        (i > 0 ==> Lower(lines[0]) != "y") &&
        forall j :: 0 < j < i ==> lines[j] != "y" && lines[j] != "n"
  {
    if |lines| > 0 {
      if Lower(lines[0]) == "n" {
        if |lines| >= 2 {
          SecondChanceLine(lines);
        }
      } else {
        FirstAnswerLine(Lower(lines[0]), lines);
      }
    }
  }


  /** With at least as many lines as reprompts left, the loop always finishes. */
  lemma {:induction false} LadderFinishes(ready: string, rest: seq<string>, count: nat)
    requires count <= FlippantCount && |rest| >= FlippantCount - count
    ensures Ladder(ready, rest, count).Answer?
    decreases FlippantCount - count
  {
    if !(ready == "y" || ready == "n" || count == FlippantCount) {
      LadderFinishes(rest[0], rest[1..], count + 1);
    }
  }

  /** `intro` reads at most 22 lines: the first answer, the second chance and 20 reprompts. */
  lemma IntroFinishes(ready: string, lines: seq<string>)
    requires |lines| >= 2 + FlippantCount
    ensures IntroOutcome(true, ready, lines).Answer?
  {
    if Lower(lines[0]) == "n" {
      LadderFinishes(lines[1], lines[2..], 0);
    } else {
      LadderFinishes(Lower(lines[0]), lines[1..], 0);
    }
  }

  /** A first answer of `y` or `Y` confirms at once. */
  lemma FirstYesConfirms(ready: string, lines: seq<string>)
    requires |lines| > 0 && (lines[0] == "y" || lines[0] == "Y")
    ensures IntroOutcome(true, ready, lines) == Answer("y", 0)
  {
    LowerIsY(lines[0]);
    LowerIsN(lines[0]);
  }

  /** Lower-case every console line. */
  function LowerAll(lines: seq<string>): (r: seq<string>)
    ensures |r| == |lines|
    ensures forall i :: 0 <= i < |lines| ==> r[i] == Lower(lines[i])
  {
    if lines == [] then [] else [Lower(lines[0])] + LowerAll(lines[1..])
  }

  /** `intro` with every answer lower-cased, as the prompts asking for `Y` intend. */
  function IntroCaseInsensitive(userInput: bool, ready: string, lines: seq<string>): (r: IntroResult)
    ensures userInput && r.Answer? ==> r.reprompts < |lines| && r.reprompts <= FlippantCount
    ensures userInput && r.Answer? ==> r.ready == "y" || r.ready == "n" || r.reprompts == FlippantCount
  {
    IntroOutcome(userInput, ready, LowerAll(lines))
  }

  /** As written, `N` then `Y` is not taken as ready: the second chance is not lower-cased. */
  lemma CapitalYesRefused(ready: string)
    ensures IntroOutcome(true, ready, ["N", "Y", "y"]) == Answer("y", 1)
    ensures IntroOutcome(true, ready, ["N", "Y"]) == NoMoreInput
    ensures IntroCaseInsensitive(true, ready, ["N", "Y"]) == Answer("y", 0)
  {
    LowerIsN("N");
    LowerIsY("Y");
    assert ["N", "Y", "y"][2..] == ["y"];
    assert ["N", "Y"][2..] == [];
    assert LowerAll(["N", "Y"]) == ["n", "y"];
  }

  /** `IntroDecidingLine` for lines whose first line is already lower-case. */
  lemma LoweredDecidingLine(ready: string, low: seq<string>)
    requires |low| > 0 ==> Lower(low[0]) == low[0]
    ensures var r := IntroOutcome(true, ready, low);
      r.Answer? ==>
        var i := if low[0] == "n" then r.reprompts + 1 else r.reprompts;
        i < |low| && r.ready == low[i] &&
        (forall j :: 0 <= j < i ==> low[j] != "y") &&
        forall j :: 0 < j < i ==> low[j] != "n"
  {
    IntroDecidingLine(ready, low);
  }

  /**
   * With every answer lower-cased (`low`, where `low[j] == Lower(lines[j])`),
   * `intro` returns the first lower-cased line that reads `y`, or `n` after the
   * first line, or the last one the reprompts allow.
   */
  lemma CaseInsensitiveDecidingLine(ready: string, lines: seq<string>)
    ensures var r := IntroCaseInsensitive(true, ready, lines);
      var low := LowerAll(lines);
      r.Answer? ==>
        var i := if low[0] == "n" then r.reprompts + 1 else r.reprompts;
        i < |low| && r.ready == low[i] &&
        (forall j :: 0 <= j < i ==> low[j] != "y") &&
        forall j :: 0 < j < i ==> low[j] != "n"
  {
    var low := LowerAll(lines);
    assert IntroCaseInsensitive(true, ready, lines) == IntroOutcome(true, ready, low);
    if |lines| > 0 {
      LowerTwice(lines[0]);
    }
    LoweredDecidingLine(ready, low);
  }

  /** Answers that differ only in letter case lead to the same outcome. */
  lemma CaseInsensitiveOutcome(ready: string, lines: seq<string>, lines': seq<string>)
    requires |lines| == |lines'|
    requires forall i :: 0 <= i < |lines| ==> Lower(lines[i]) == Lower(lines'[i])
    ensures IntroCaseInsensitive(true, ready, lines) == IntroCaseInsensitive(true, ready, lines')
  {
    assert LowerAll(lines) == LowerAll(lines');
  }
}
