/**
 * The two answers of 2025/day-06/src/main.rs: each problem is a column of
 * numbers with an operator, its value the sum or the product of the
 * numbers, and an answer is the sum of the problems' values. Part one takes
 * the i-th number of every row as problem i; part two takes the columns
 * read from the characters.
 */
module WorksheetAnswers {
  import opened Worksheets

  /** `sum::<u64>()`: folded from 0. */
  function Sum(xs: seq<nat>): nat {
    if xs == [] then 0 else Sum(xs[..|xs| - 1]) + xs[|xs| - 1]
  }

  /** `product()`: folded from 1. */
  function Product(xs: seq<nat>): nat {
    if xs == [] then 1 else Product(xs[..|xs| - 1]) * xs[|xs| - 1]
  }

  /** The value of a problem: its numbers combined by its operator. */
  function Apply(op: Operator, xs: seq<nat>): nat {
    match op
    case Addition => Sum(xs)
    case Multiplication => Product(xs)
  }

  /** The operator on two values, and the value it starts from. */
  function Combine(op: Operator, a: nat, b: nat): nat {
    match op
    case Addition => a + b
    case Multiplication => a * b
  }

  function Identity(op: Operator): nat {
    match op
    case Addition => 0
    case Multiplication => 1
  }

  /**
   * A problem's value folds over its numbers: an empty column is worth the
   * operator's identity (0 for '+', 1 for '*'), a single number is worth
   * itself, and the value of two lists one after the other combines theirs.
   */
  lemma {:induction false} ApplyAppend(op: Operator, xs: seq<nat>, ys: seq<nat>)
    ensures Apply(op, []) == Identity(op)
    ensures forall x: nat :: Apply(op, [x]) == x
    ensures Apply(op, xs + ys) == Combine(op, Apply(op, xs), Apply(op, ys))
  {
    forall x: nat ensures Apply(op, [x]) == x {
      assert [x][..0] == [];
      assert Sum([x]) == x && Product([x]) == 1 * x;
    }
    if ys == [] {
      assert xs + ys == xs;
    } else {
      var init := ys[..|ys| - 1];
      ApplyAppend(op, xs, init);
      assert (xs + ys)[..|xs + ys| - 1] == xs + init;
      assert (xs + ys)[|xs + ys| - 1] == ys[|ys| - 1];
      match op
      case Addition =>
      case Multiplication =>
        var a, b, c := Product(xs), Product(init), ys[|ys| - 1];
        assert a * b * c == a * (b * c);
    }
  }

  /** `zip`: the (column, operator) pairs, as many as the shorter list has entries. */
  function Problems(columns: seq<seq<nat>>, operators: seq<Operator>): (problems: seq<(seq<nat>, Operator)>)
    ensures |problems| <= |columns| && |problems| <= |operators|
    ensures |problems| == |columns| || |problems| == |operators|
  {
    var n := if |columns| <= |operators| then |columns| else |operators|;
    seq(n, k requires 0 <= k < n => (columns[k], operators[k]))
  }

  /** The sum of the problems' values. */
  function GrandTotal(problems: seq<(seq<nat>, Operator)>): nat {
    if problems == [] then 0
    else
      var (numbers, op) := problems[|problems| - 1];
      GrandTotal(problems[..|problems| - 1]) + Apply(op, numbers)
  }

  /** Each problem adds its own value: the total of two lists of problems is the sum of their totals. */
  lemma {:induction false} GrandTotalAppend(p: seq<(seq<nat>, Operator)>, q: seq<(seq<nat>, Operator)>)
    ensures GrandTotal(p + q) == GrandTotal(p) + GrandTotal(q)
  {
    if q == [] {
      assert p + q == p;
    } else {
      var init := q[..|q| - 1];
      GrandTotalAppend(p, init);
      assert (p + q)[..|p + q| - 1] == p + init;
      assert (p + q)[|p + q| - 1] == q[|q| - 1];
    }
  }

  /**
   * solve_part_two: the total of the part-two columns zipped with the
   * operators. Nothing is added without a column and an operator, and every
   * column paired with an operator adds its value in full.
   */
  function SolvePartTwo(worksheet: Worksheet): (total: nat)
    ensures worksheet.numberColumnsPartTwo == [] || worksheet.operators == [] ==> total == 0
    ensures forall k | 0 <= k < |worksheet.numberColumnsPartTwo| && k < |worksheet.operators| ::
      Apply(worksheet.operators[k], worksheet.numberColumnsPartTwo[k]) <= total
  {
    var columns, operators := worksheet.numberColumnsPartTwo, worksheet.operators;
    var problems := Problems(columns, operators);
    forall k | 0 <= k < |columns| && k < |operators|
      ensures Apply(operators[k], columns[k]) <= GrandTotal(problems)
    {
      assert problems[k] == (columns[k], operators[k]);
      GrandTotalCovers(problems, k);
    }
    GrandTotal(problems)
  }

  /** Every problem's value is part of the grand total. */
  lemma {:induction false} GrandTotalCovers(problems: seq<(seq<nat>, Operator)>, k: nat)
    requires k < |problems|
    ensures Apply(problems[k].1, problems[k].0) <= GrandTotal(problems)
  {
    if k < |problems| - 1 {
      GrandTotalCovers(problems[..|problems| - 1], k);
    }
  }

  /** The zip stops at the shorter list: columns or operators beyond it take no part. */
  lemma ZipStopsAtShorter(columns: seq<seq<nat>>, operators: seq<Operator>, moreColumns: seq<seq<nat>>, moreOperators: seq<Operator>)
    requires |columns| == |operators|
    ensures Problems(columns + moreColumns, operators) == Problems(columns, operators)
    ensures Problems(columns, operators + moreOperators) == Problems(columns, operators)
  {
  }

  /** Part two splits over any split of the worksheet into two sets of problems. */
  lemma PartTwoAdditive(columns1: seq<seq<nat>>, operators1: seq<Operator>, columns2: seq<seq<nat>>, operators2: seq<Operator>)
    requires |columns1| == |operators1|
    ensures GrandTotal(Problems(columns1 + columns2, operators1 + operators2))
      == GrandTotal(Problems(columns1, operators1)) + GrandTotal(Problems(columns2, operators2))
  {
    var all := Problems(columns1 + columns2, operators1 + operators2);
    var p, q := Problems(columns1, operators1), Problems(columns2, operators2);
    assert all == p + q;
    GrandTotalAppend(p, q);
  }

  /** `elements[index]` of every row: problem `index` of part one. */
  function RowEntries(rows: seq<seq<nat>>, index: nat): (numbers: seq<nat>)
    requires forall r | 0 <= r < |rows| :: index < |rows[r]|
    ensures |numbers| == |rows|
  {
    seq(|rows|, r requires 0 <= r < |rows| => rows[r][index])
  }

  /** The first n problems of part one, one per entry position. */
  function RowColumns(rows: seq<seq<nat>>, n: nat): (columns: seq<seq<nat>>)
    requires forall r | 0 <= r < |rows| :: n <= |rows[r]|
    ensures |columns| == n
  {
    seq(n, index requires 0 <= index < n => RowEntries(rows, index))
  }

  /**
   * solve_part_one: for each operator, its position's entry of every row,
   * summed or multiplied, added up. The result is the grand total of the
   * problems made of the rows' entries at each operator position. Every row
   * must have an entry for every operator, as `elements[index]` panics
   * otherwise.
   */
  method SolvePartOne(worksheet: Worksheet) returns (result: nat)
    requires forall r | 0 <= r < |worksheet.numberLinesPartOne| ::
      |worksheet.operators| <= |worksheet.numberLinesPartOne[r]|
    ensures result == GrandTotal(Problems(
      RowColumns(worksheet.numberLinesPartOne, |worksheet.operators|), worksheet.operators))
  {
    var rows, operators := worksheet.numberLinesPartOne, worksheet.operators;
    result := 0;
    for index := 0 to |operators|
      invariant result == GrandTotal(Problems(RowColumns(rows, index), operators[..index]))
    {
      var elementsToOperateOn := RowEntries(rows, index);
      var value := match operators[index]
        case Addition => Sum(elementsToOperateOn)
        case Multiplication => Product(elementsToOperateOn);
      PartOneStep(rows, operators, index);
      result := result + value;
    }
    assert operators[..|operators|] == operators;
  }

  /** One more operator position adds one problem at the end. */
  lemma PartOneStep(rows: seq<seq<nat>>, operators: seq<Operator>, index: nat)
    requires index < |operators| && forall r | 0 <= r < |rows| :: index < |rows[r]|
    ensures Problems(RowColumns(rows, index + 1), operators[..index + 1])
      == Problems(RowColumns(rows, index), operators[..index]) + [(RowEntries(rows, index), operators[index])]
  {
  }

  /** A three-number problem. */
  lemma ThreeNumbers(op: Operator, a: nat, b: nat, c: nat)
    ensures Apply(op, [a, b, c]) == Combine(op, Combine(op, a, b), c)
  {
    ApplyAppend(op, [a], [b]);
    ApplyAppend(op, [a, b], [c]);
    assert [a] + [b] == [a, b] && [a, b] + [c] == [a, b, c];
  }

  /** The total of four problems. */
  lemma FourProblems(p: seq<(seq<nat>, Operator)>)
    requires |p| == 4
    ensures GrandTotal(p) == Apply(p[0].1, p[0].0) + Apply(p[1].1, p[1].0) + Apply(p[2].1, p[2].0) + Apply(p[3].1, p[3].0)
  {
    var a, b, c, d := [p[0]], [p[1]], [p[2]], [p[3]];
    assert p == a + b + c + d;
    GrandTotalAppend(a + b + c, d);
    GrandTotalAppend(a + b, c);
    GrandTotalAppend(a, b);
    assert a[..0] == b[..0] == c[..0] == d[..0] == [];
  }

  /** The answers of the worked example: 4277556 and 3263827. */
  lemma ExampleAnswers()
    ensures GrandTotal(Problems(
      RowColumns([[123, 328, 51, 64], [45, 64, 387, 23], [6, 98, 215, 314]], 4),
      [Multiplication, Addition, Multiplication, Addition])) == 4277556
    ensures SolvePartTwo(Worksheet(
      [[123, 328, 51, 64], [45, 64, 387, 23], [6, 98, 215, 314]],
      [[1, 24, 356], [369, 248, 8], [32, 581, 175], [623, 431, 4]],
      [Multiplication, Addition, Multiplication, Addition])) == 3263827
  {
    var ops := [Multiplication, Addition, Multiplication, Addition];
    var rows: seq<seq<nat>> := [[123, 328, 51, 64], [45, 64, 387, 23], [6, 98, 215, 314]];
    var one: seq<seq<nat>> := [[123, 45, 6], [328, 64, 98], [51, 387, 215], [64, 23, 314]];
    assert RowEntries(rows, 0) == one[0] && RowEntries(rows, 1) == one[1];
    assert RowEntries(rows, 2) == one[2] && RowEntries(rows, 3) == one[3];
    assert RowColumns(rows, 4) == one;
    FourProblems(Problems(one, ops));
    ThreeNumbers(Multiplication, 123, 45, 6);
    ThreeNumbers(Addition, 328, 64, 98);
    ThreeNumbers(Multiplication, 51, 387, 215);
    ThreeNumbers(Addition, 64, 23, 314);
    var two: seq<seq<nat>> := [[1, 24, 356], [369, 248, 8], [32, 581, 175], [623, 431, 4]];
    FourProblems(Problems(two, ops));
    ThreeNumbers(Multiplication, 1, 24, 356);
    ThreeNumbers(Addition, 369, 248, 8);
    ThreeNumbers(Multiplication, 32, 581, 175);
    ThreeNumbers(Addition, 623, 431, 4);
  }
}
