/**
 * The safe dial of 2025/day-01/src/main.rs: a dial with positions 0..99
 * starts at 50; each input line "L<amount>" or "R<amount>" turns it.
 * Part one counts the turns that stop at 0, part two every click that
 * lands on 0, computed per turn in closed form.
 */
module Dial {
  import opened Wrappers
  import opened Text

  /** NUMBER_OF_DIAL_POSITIONS */
  const Positions: nat := 100
  /** The position the dial starts at. */
  const Start: nat := 50

  datatype Direction = Left | Right

  datatype Rotation = Rotation(direction: Direction, amount: nat)

  function Sign(d: Direction): int {
    match d
    case Left => -1
    case Right => 1
  }

  /** One input line: a direction letter followed by a decimal amount; None where the source aborts. */
  function ParseRotation(line: string): (r: Option<Rotation>)
    ensures r.Some? <==> |line| > 0 && line[0] in {'L', 'R'} && ParseNat(line[1..]).Some?
  {
    if |line| == 0 || line[0] !in {'L', 'R'} then None
    else match ParseNat(line[1..])
      case None => None
      case Some(amount) => Some(Rotation(if line[0] == 'L' then Left else Right, amount))
  }

  function FormatRotation(r: Rotation): string {
    [if r.direction == Left then 'L' else 'R'] + NatToString(r.amount)
  }

  /** Every rotation written as a line parses back to itself. */
  lemma ParseFormatRotation(r: Rotation)
    ensures ParseRotation(FormatRotation(r)) == Some(r)
  {
    var line := FormatRotation(r);
    assert line[1..] == NatToString(r.amount);
    ParseNatToString(r.amount);
  }

  /** The position after one turn, wrapped with `rem_euclid` (Dafny's `%` on a positive divisor). */
  function Turn(p: int, r: Rotation): (q: int)
    ensures 0 <= q < Positions
  {
    (p + Sign(r.direction) * r.amount) % Positions
  }

  /** The number of clicks k in 1..clicks after which the dial, turned from p, shows 0. */
  function ZeroHits(p: int, d: Direction, clicks: nat): (n: nat)
    ensures n <= clicks
  {
    if clicks == 0 then 0
    else ZeroHits(p, d, clicks - 1) + (if (p + Sign(d) * clicks) % Positions == 0 then 1 else 0)
  }

  /** Part one from position p: the turns that stop at 0. */
  function StopsAtZero(p: int, rotations: seq<Rotation>): nat
    decreases rotations
  {
    if rotations == [] then 0
    else
      var q := Turn(p, rotations[0]);
      (if q == 0 then 1 else 0) + StopsAtZero(q, rotations[1..])
  }

  /** Part two from position p: every click that lands on 0. */
  function ClicksAtZero(p: int, rotations: seq<Rotation>): nat
    decreases rotations
  {
    if rotations == [] then 0
    else ZeroHits(p, rotations[0].direction, rotations[0].amount) + ClicksAtZero(Turn(p, rotations[0]), rotations[1..])
  }

  /** The closed form of a right turn, `(p + a) / 100`, counts its zero clicks. */
  lemma {:induction false} RightTurnHits(p: int, a: nat)
    requires 0 <= p < Positions
    ensures ZeroHits(p, Right, a) == (p + a) / Positions
  {
    if a > 0 {
      RightTurnHits(p, a - 1);
    }
  }

  /** The closed form of a left turn, `(a - p) / 100 + [p != 0]` when p <= a, counts its zero clicks. */
  lemma {:induction false} LeftTurnHits(p: int, a: nat)
    requires 0 <= p < Positions
    ensures ZeroHits(p, Left, a) == if p <= a then (a - p) / Positions + (if p == 0 then 0 else 1) else 0
  {
    if a > 0 {
      LeftTurnHits(p, a - 1);
    }
  }

  function Rotations(lines: seq<string>): (r: seq<Rotation>)
    requires forall line | line in lines :: ParseRotation(line).Some?
    ensures |r| == |lines|
    ensures forall i | 0 <= i < |lines| :: ParseRotation(lines[i]) == Some(r[i])
  {
    if lines == [] then [] else [ParseRotation(lines[0]).value] + Rotations(lines[1..])
  }

  /**
   * The loop state of find_password after i rotations: the dial shows p, and
   * the counts so far plus the counts of the remaining rotations from p are
   * the counts of all rotations from the start.
   */
  ghost predicate Counted(rotations: seq<Rotation>, i: nat, p: int, partOne: nat, partTwo: nat) {
    && i <= |rotations|
    && 0 <= p < Positions
    && partOne + StopsAtZero(p, rotations[i..]) == StopsAtZero(Start, rotations)
    && partTwo + ClicksAtZero(p, rotations[i..]) == ClicksAtZero(Start, rotations)
  }

  /** One more rotation: its stop and its zero clicks added to the counts. */
  lemma CountStep(rotations: seq<Rotation>, i: nat, p: int, partOne: nat, partTwo: nat, q: int, one: nat, two: nat)
    requires Counted(rotations, i, p, partOne, partTwo) && i < |rotations|
    requires q == Turn(p, rotations[i])
    requires one == partOne + if q == 0 then 1 else 0
    requires two == partTwo + ZeroHits(p, rotations[i].direction, rotations[i].amount)
    ensures Counted(rotations, i + 1, q, one, two)
  {
    assert rotations[i..][0] == rotations[i];
    assert rotations[i..][1..] == rotations[i + 1..];
  }

  /**
   * The body of the loop of find_password once the line is read: the zero
   * clicks of the turn in closed form, by direction and by the dial against
   * the amount, and the new position wrapped with `rem_euclid`.
   */
  method Rotate(dial: int, multiplier: int, amount: nat) returns (next: int, clicks: nat)
    requires 0 <= dial < Positions && (multiplier == 1 || multiplier == -1)
    ensures var r := Rotation(if multiplier > 0 then Right else Left, amount);
      next == Turn(dial, r) && clicks == ZeroHits(dial, r.direction, amount)
  {
    clicks := 0;
    if multiplier > 0 {
      RightTurnHits(dial, amount);
      clicks := (dial + amount) / Positions;
    } else if dial <= amount {
      LeftTurnHits(dial, amount);
      var additional := if dial == 0 then 0 else 1;
      clicks := (amount - dial) / Positions + additional;
    } else {
      LeftTurnHits(dial, amount);
    }
    next := dial + multiplier * amount;
    next := next % Positions;
  }

  /** The head of the loop of find_password: `split_at(1)`, the multiplier of the direction letter, and the amount. */
  method ReadRotation(line: string) returns (multiplier: int, amount: nat)
    requires ParseRotation(line).Some?
    ensures multiplier == Sign(ParseRotation(line).value.direction)
    ensures amount == ParseRotation(line).value.amount
  {
    multiplier := if line[0] == 'L' then -1 else 1;
    amount := ParseNat(line[1..]).value;
  }

  /**
   * find_password. The source aborts on a line that is not a direction
   * letter followed by an amount, so every line must parse.
   */
  method FindPassword(input: string) returns (partOne: nat, partTwo: nat)
    requires forall line | line in Lines(input) :: ParseRotation(line).Some?
    ensures partOne == StopsAtZero(Start, Rotations(Lines(input)))
    ensures partTwo == ClicksAtZero(Start, Rotations(Lines(input)))
  {
    var lines := Lines(input);
    ghost var rotations := Rotations(lines);
    partOne, partTwo := 0, 0;
    var dial: int := Start;
    var i := 0;
    assert rotations[0..] == rotations;
    while i < |lines|
      invariant i <= |lines|
      invariant Counted(rotations, i, dial, partOne, partTwo)
    {
      assert lines[i] in lines;
      var multiplier, amount := ReadRotation(lines[i]);
      ghost var p, one, two := dial, partOne, partTwo;
      var clicks;
      dial, clicks := Rotate(dial, multiplier, amount);
      partTwo := partTwo + clicks;
      if dial == 0 {
        partOne := partOne + 1;
      }
      CountStep(rotations, i, p, one, two, dial, partOne, partTwo);
      i := i + 1;
    }
    assert rotations[i..] == [];
  }
}
