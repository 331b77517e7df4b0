# Monty Hall game logic in Dafny

This project models the game-state core of `monty_hall.py`, a simulation of the
Monty Hall puzzle. There are three doors, `door_1` to `door_3`. A car is hidden
behind one of them and a goat behind each of the others. The contestant picks a
door. The host opens another door that hides a goat. The contestant then stays
with the first door or switches to the one door still closed. The model proves
what the program does at each step:

- prizes are placed with exactly one car;
- the opened door is never the chosen door or the car door;
- the chosen, opened and remaining doors are the three doors;
- switching returns the other unopened door.

Counted over the three places the car can be, switching wins in two and staying
wins in one.

Modules follow the program's steps:

- `PyStr` (`pystr.dfy`): the Python string methods the program uses, for ASCII.
  These are `isalnum`, `lower`, `capitalize`, `replace` and the decimal `int(...)`.
- `Doors` (`doors.dfy`): doors, prizes and the `doors` dictionary.
  Also `display_door` and `hide_prizes`.
- `Choose` (`choose.dfy`): `choose_door`.
- `Reveal` (`reveal.dfy`): `reveal_goat` and `reveal_prize`.
- `Switch` (`switch.dfy`): `switch_stay`.
- `Deal` (`deal.dfy`): the statistics branch of `make_deal`, and the win counts.
- `Intro` (`intro.dfy`): the readiness loop of `intro`.

Modelling choices:

- A door is its number, 1 to 3. Its dictionary key is `Doors.Name`, that is
  `'door_' + str(k)`.
- The dictionary is a `map`. `hide_prizes` builds it in the order door_1, door_2,
  door_3. Later code only overwrites or pops entries, so the list comprehensions
  visit the doors in number order. `Doors.KeysWhere` is that comprehension.
- The two random draws are parameters. `random.randint(1, 3)` is the `carDraw`
  door. `random.choice` is a `Pick`, 0 or 1, used only when there are two
  candidates.
- Some branches call `input()` again. The model stops there with an outcome that
  names the case: `OutOfRange` in `Choose.Choice`, `AskAgain` in
  `Switch.Resolution`, `AskedAgain` in `Deal.Trial`.
- `int()` raises `ValueError` on an alphanumeric answer that is not a decimal
  number. It also raises on one with more than 4300 digits, CPython's default
  `sys.get_int_max_str_digits()` limit (Python 3.11 and the security releases
  3.7.14, 3.8.14, 3.9.14 and 3.10.7 on). Both cases are `NotANumber`; neither asks
  again. The limit is `PyStr.IntMaxStrDigits`.
- Console input for the interactive door choice and for `intro` is a sequence of
  lines. When the lines run out, the result is `InputEnded` or `NoMoreInput`,
  which stands for Python's `EOFError`.

## Model

| member | source | states |
|---|---|---|
| `PyStr.Lower` | monty_hall.py:78-80 | `lower()` keeps the length, lower-cases each letter and leaves a string with no capitals unchanged |
| `PyStr.LowerIsY` | monty_hall.py:78 | `s.lower() == 'y'` exactly when `s` is `y` or `Y` |
| `PyStr.LowerIsN` | monty_hall.py:80 | `s.lower() == 'n'` exactly when `s` is `n` or `N` |
| `PyStr.Capitalize` | monty_hall.py:10 | `capitalize()` keeps the length, upper-cases the first character and lower-cases the rest |
| `PyStr.Replace` | monty_hall.py:10 | `replace(c, t)` turns the one-character string `c` into `t` and any other into itself; with `c` not in `t`, no `c` is left; a string without `c` is unchanged |
| `PyStr.ReplaceConcat` | monty_hall.py:10 | replacing in a concatenation is the concatenation of the replaced parts |
| `PyStr.IsAlnum` | monty_hall.py:33 | defines `isalnum()`: a non-empty string of ASCII letters and digits |
| `PyStr.DigitsValue` | monty_hall.py:36 | defines the base-10 value `int()` gives a string of digits |
| `Doors.Name` | monty_hall.py:38 | defines the dictionary key `'door_' + str(k)` of door `k` |
| `Doors.DisplayDoor` | monty_hall.py:9-10 | defines `display_door` as `replace('_', ' #')` then `capitalize()`; the result is never shorter than the key |
| `Doors.NameInjective` | monty_hall.py:38 | distinct doors have distinct keys `'door_' + str(k)` |
| `Doors.DisplayDoorName` | monty_hall.py:9-10 | `display_door('door_k')` is `'Door #k'` for each door |
| `Doors.DisplayDoorInjective` | monty_hall.py:9-10 | distinct doors are displayed differently |
| `Doors.KeysWhere` | monty_hall.py:48 | a comprehension over the dictionary holds exactly the doors passing its test, in door order |
| `Doors.CarDoor` | monty_hall.py:116 | in a prize assignment the first car key holds the car, and it is the only door that does |
| `Doors.Placement` | monty_hall.py:16-24 | the assignment for a car door is well formed: car exactly there, goats at the other two doors |
| `Doors.WellFormedIsPlacement` | monty_hall.py:14-25 | every assignment with all three doors and one car is the placement of its car door |
| `Doors.HidePrizes` | monty_hall.py:14-25 | starting from three goats and overwriting the drawn door gives all three keys, the car exactly at the drawn door |
| `Doors.OtherDoor` | monty_hall.py:67-71 | for two distinct doors, the third door differs from both |
| `Doors.OtherDoorUnique` | monty_hall.py:67-71 | the third door is the only door besides the two given |
| `Doors.Remaining` | monty_hall.py:56 | the first door that is neither chosen nor revealed differs from both; it is the third door when those two differ |
| `Choose.ChooseDoor` | monty_hall.py:33-41 | a non-alphanumeric answer is returned unchanged; an alphanumeric non-number, or a number of more than 4300 digits, raises; a chosen door is the number parsed |
| `Choose.ChooseDefault` | monty_hall.py:29 | the default answer `'1'` chooses door 1 |
| `Choose.ChooseDigit` | monty_hall.py:36-38 | the answers `'1'`, `'2'`, `'3'` choose `door_1`, `door_2`, `door_3` |
| `Choose.KeyAnswerEscapes` | monty_hall.py:33-34 | an answer spelled as a door key, such as `door_2`, is not alphanumeric and is returned unchanged |
| `Choose.ChooseInteractiveAsWritten` | monty_hall.py:29-42 | the interactive `choose_door` as written, where the recursion asks the first prompt again; an answer it returns was read from the given lines and is not out of range |
| `Choose.ChooseInteractive` | monty_hall.py:29-42 | the interactive `choose_door` with the clarified prompt's answer used; an answer it returns was read from the given lines and is not out of range |
| `Choose.ChosenExactly` | monty_hall.py:33-38 | an answer chooses door k exactly when it is the digit k, possibly after leading zeros, and at most 4300 characters long |
| `Choose.AsWrittenIgnoresReprompts` | monty_hall.py:41 | as written, the deciding line is always an answer to the first prompt, never one to the clarified prompt |
| `Choose.AsWrittenCounterexample` | monty_hall.py:41 | "5" then "2" does not choose door 2 as written; with the reprompt's answer used it does |
| `Choose.InteractiveFirstValidAnswer` | monty_hall.py:39-41 | with the reprompt's answer used, the first answer that is not out of range decides, and there is one exactly when some line is not out of range |
| `Reveal.Candidates` | monty_hall.py:48 | the candidates are exactly the unchosen goat doors, in door order |
| `Reveal.CarChosenCandidates` | monty_hall.py:48-54 | with the car chosen, both other doors are candidates |
| `Reveal.GoatChosenCandidates` | monty_hall.py:48-51 | with a goat chosen, the other goat door is the only candidate |
| `Reveal.CandidateCount` | monty_hall.py:48-54 | there are one or two candidates; one exactly when the chosen door hides a goat, and then it is the other goat door |
| `Reveal.RevealGoat` | monty_hall.py:46-57 | the revealed door is not chosen and hides a goat; the remaining door differs from both; the three cover all doors; the remaining door hides the car exactly when the chosen one hides a goat |
| `Reveal.RevealDeterministic` | monty_hall.py:50-51 | with a goat chosen, the reveal does not depend on the random pick |
| `Reveal.RevealEither` | monty_hall.py:52-54 | with the car chosen, the two picks open the two other doors, each leaving the other closed |
| `Reveal.RevealPrize` | monty_hall.py:96-120 | with theatrics nothing is returned; without, exactly the prize behind the final door |
| `Reveal.RevealPrizeWins` | monty_hall.py:97 | silently, the car is returned exactly when the final door is the car door |
| `Switch.Decide` | monty_hall.py:77-90 | a finished decision returns either the chosen or the remaining door |
| `Switch.DecisionCases` | monty_hall.py:78-90 | `y`/`Y` switch, `n`/`N` stay, a non-alphanumeric answer stays, and any other alphanumeric answer asks again |
| `Switch.EmptyAnswerStays` | monty_hall.py:87-90 | the empty answer stays with the chosen door |
| `Switch.SwitchStay` | monty_hall.py:61-92 | popping the chosen and revealed keys from a copy leaves the door `Remaining` names, and the decision rule is then applied to it |
| `Switch.SwitchReturnsOtherDoor` | monty_hall.py:67-81 | with distinct chosen and revealed doors, the final door is never the revealed one; it differs from the chosen one exactly for `y`/`Y`, and is then the third door |
| `Deal.PlayRound` | monty_hall.py:202-204 | defines a silent round after the prizes are hidden and a door chosen: `reveal_goat`, then `switch_stay`, then `reveal_prize` without theatrics |
| `Deal.SwitchWinsIffGoatChosen` | monty_hall.py:202-204 | with `y` the prize is the car exactly when the chosen door hid a goat; with `n` or no usable answer it is the chosen door's prize |
| `Deal.OtherAnswerAsksAgain` | monty_hall.py:203 | any other alphanumeric decision never finishes a silent round |
| `Deal.MakeDeal` | monty_hall.py:199-205 | the statistics branch plays door 1: switching wins exactly when the car is not at door 1, staying exactly when it is |
| `Deal.WinsCarExactly` | monty_hall.py:199-205 | for every car position, `y` wins the car exactly when it is not behind the chosen door, `n` exactly when it is |
| `Deal.SwitchWinsTwoOfThree` | monty_hall.py:199-205 | over the three car positions, switching wins in 2 and staying in 1 |
| `Intro.Ladder` | monty_hall.py:154-157 | the loop stops after at most 20 reprompts, with the answer `y` or `n` or with all 20 used |
| `Intro.IntroOutcome` | monty_hall.py:124-162 | bounds on what `intro` returns: with user input, an answer comes after fewer reprompts than lines read, at most 20, and is `y` or `n` unless all 20 were used |
| `Intro.LadderFirst` | monty_hall.py:155-157 | the loop returns the first answer that is `y` or `n`, or the answer to the last reprompt; no earlier answer was `y` or `n` |
| `Intro.IntroDecidingLine` | monty_hall.py:129-157 | `intro` returns the first line that is `y` or `n` (the first line lower-cased; an `n` there only opens the second chance), or the last line the 20 reprompts allow |
| `Intro.Reprompt` | monty_hall.py:154-157 | the `while` loop over the console lines computes `Ladder`: it ends with `y` or `n` or after all 20 reprompts |
| `Intro.RunIntro` | monty_hall.py:124-162 | computes the outcome of `intro`: the first answer lower-cased, a second chance after `n`, then the loop; without user input it returns the given answer |
| `Intro.LadderFinishes` | monty_hall.py:155 | with as many lines as reprompts left, the loop ends with an answer |
| `Intro.IntroFinishes` | monty_hall.py:129-157 | 22 lines, the first answer, the second chance and 20 reprompts, always suffice |
| `Intro.FirstYesConfirms` | monty_hall.py:129 | a first answer of `y` or `Y` returns `y` at once |
| `Intro.CapitalYesRefused` | monty_hall.py:130-131 | as written, `N` then `Y` is not accepted; lower-casing every answer accepts it |
| `Intro.IntroCaseInsensitive` | monty_hall.py:129-157 | `intro` with every answer lower-cased, as the prompts asking for `Y` intend; the same bounds as `intro` |
| `Intro.CaseInsensitiveDecidingLine` | monty_hall.py:129-157 | with every answer lower-cased, `intro` returns the lower-cased first line that reads `y`, or `n` after the first line, or the last line the reprompts allow |
| `Intro.CaseInsensitiveOutcome` | monty_hall.py:129-157 | with every answer lower-cased, answers that differ only in case give the same outcome |

## Left out

- The narrated flow of `make_deal` (monty_hall.py:168-196): it prints, sleeps and reads the console. Its parts are modelled, but not the flow itself.
- The interactive reads of `switch_stay`: the line read at monty_hall.py:74-75 is the `decision` argument, to which `Switch.Decide` applies the rule. Only the reprompt at monty_hall.py:84-86 becomes the `AskAgain` outcome; its answer is not read.
- `print` narration, flavour text and `time.sleep` pacing (monty_hall.py:63-64, 89, 99-118, 126-152, 159, 172-192): presentation only.
- The randomness itself and any probability or convergence claim: the draws are parameters, and the count over car positions replaces win rates.
- Unicode behaviour of `isalnum`, `lower`, `capitalize` and `int`: only ASCII letters and digits count as alphanumeric. Python also accepts non-ASCII letters and digits.
- `Reveal.RevealPrize`: models `reveal_prize` with `theatrics=True` only by its `None` return. The `winning_door` lookup it prints is `Doors.CarDoor`.
- An answer spelled as a door key, such as `door_2`, is returned unchanged by `choose_door` (`Choose.KeyAnswerEscapes`). The narrated flow at monty_hall.py:177 then accepts it as that door. The narrated flow is not modelled.
- The unbound `revealed_door` error in `reveal_goat` when there are neither one nor two candidates (monty_hall.py:50-56): this cannot happen for a well-formed assignment and a real door, which the requires clause asks for.

## Findings

| source | as written | input that shows it | evidently intended | confidence | as-written member | corrected member |
|---|---|---|---|---|---|---|
| monty_hall.py:41 | after an out-of-range number, the clarified prompt's answer is passed as `door_num`, but the recursive call keeps `user_input=True` and asks "Choose a door" again, overwriting it | console lines "5", "2": no door is chosen and a third line is read; "5", "2", "3" chooses door 3 | the prompt "Please choose a number 1-3" asks for a new door, so its answer should be the next `door_num` (call with `user_input=False`) | high, not executed | `Choose.AsWrittenIgnoresReprompts` | `Choose.InteractiveFirstValidAnswer` |
| monty_hall.py:131-156 | only the first answer is lower-cased; the second chance after `n` and the reprompts are compared with `'y'`/`'n'` as typed, although they ask the contestant to "enter Y" | console lines "N", "Y": `Y` is refused and a reprompt follows | the prompts at lines 131-132 ask the contestant to "enter Y", so every answer should be lower-cased and `Y` confirm | medium, not executed | `Intro.CapitalYesRefused` | `Intro.CaseInsensitiveDecidingLine` |
