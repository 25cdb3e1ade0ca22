/**
 * The stimulus draw of the experiment (app.py:22-33): a digit 0-9 that
 * differs from the digit currently on screen, found by rejection sampling,
 * and a colour from a fixed three-colour palette.
 *
 * The random source is an input: `rolls` is the sequence of values that
 * successive calls of `random.randint(0, 9)` would return, and `pick` is the
 * index `random.choice` would choose in the palette.
 */
module Stimulus {
  import opened Wrappers

  datatype Color = Red | Green | Blue

  /** The palette `random.choice` picks from, in the order the source lists it. */
  const Palette: seq<Color> := [Red, Green, Blue]

  /** The colour's name as the source stores it in a record. */
  function ColorName(c: Color): string
  {
    match c
    case Red => "red"
    case Green => "green"
    case Blue => "blue"
  }

  predicate IsDigit(n: int)
  {
    0 <= n <= 9
  }

  /** Every roll is a value `random.randint(0, 9)` can return. */
  predicate DigitRolls(rolls: seq<int>)
  {
    forall j :: 0 <= j < |rolls| ==> IsDigit(rolls[j])
  }

  /**
   * The rejection loop stops within `rolls`: some roll differs from the digit
   * on screen (`None` before the first trial, which every digit differs from).
   */
  predicate DrawPossible(rolls: seq<int>, current: Option<int>)
  {
    DigitRolls(rolls) && exists k :: 0 <= k < |rolls| && Some(rolls[k]) != current
  }

  /** Reference definition of where the loop stops: the first roll that differs from `current`. */
  function FirstDifferentIndex(rolls: seq<int>, current: Option<int>): (k: nat)
    requires DrawPossible(rolls, current)
    ensures k < |rolls| && Some(rolls[k]) != current
    ensures forall j :: 0 <= j < k ==> Some(rolls[j]) == current
  {
    if Some(rolls[0]) != current then 0
    else
      assert DrawPossible(rolls[1..], current) by {
        var k :| 0 <= k < |rolls| && Some(rolls[k]) != current;
        assert rolls[1..][k - 1] == rolls[k];
      }
      1 + FirstDifferentIndex(rolls[1..], current)
  }

  /** The digit the draw settles on: one of the rolls, and never the digit on screen. */
  function Draw(rolls: seq<int>, current: Option<int>): (n: int)
    requires DrawPossible(rolls, current)
    ensures IsDigit(n) && Some(n) != current
    ensures n in rolls
  {
    rolls[FirstDifferentIndex(rolls, current)]
  }

  /**
   * `get_random_number_and_color`: roll until the digit differs from the
   * current one, then choose a colour.
   */
  method DrawStimulus(rolls: seq<int>, current: Option<int>, pick: nat) returns (number: int, color: Color)
    requires DrawPossible(rolls, current)
    requires pick < |Palette|
    ensures number == Draw(rolls, current)
    ensures IsDigit(number) && Some(number) != current
    ensures color in Palette && color == Palette[pick]
  {
    var i := 0;
    while true
      invariant i <= FirstDifferentIndex(rolls, current)
      invariant forall j :: 0 <= j < i ==> Some(rolls[j]) == current
      decreases |rolls| - i
    {
      number := rolls[i];
      if Some(number) != current {
        break;
      }
      i := i + 1;
    }
    color := Palette[pick];
  }

  /** Before the first trial no roll is rejected: the first roll is shown. */
  lemma FirstTrialTakesFirstRoll(rolls: seq<int>)
    requires DigitRolls(rolls) && |rolls| > 0
    ensures DrawPossible(rolls, None)
    ensures Draw(rolls, None) == rolls[0]
  {
    assert Some(rolls[0]) != None;
  }
}
