/**
 * The math worksheet of 2025/day-06/src/worksheet.rs. The last line of the
 * text holds the operators: a '+' or '*' marks the left edge of a problem's
 * column. The lines above hold its numbers, read two ways. Part one reads
 * them row by row as whitespace-separated numbers. Part two reads them
 * column by column: each character position of a problem, top to bottom,
 * is one number.
 */
module Worksheets {
  import opened Wrappers
  import opened Text

  datatype Operator = Addition | Multiplication

  datatype WorkspaceCreationError = WorkspaceCreationError

  datatype Worksheet = Worksheet(
    numberLinesPartOne: seq<seq<nat>>,
    numberColumnsPartTwo: seq<seq<nat>>,
    operators: seq<Operator>)

  // ---------------------------------------------------------------------------
  // The operator line
  // ---------------------------------------------------------------------------

  function OperatorOf(c: char): (r: Option<Operator>)
    ensures r.Some? <==> c == '+' || c == '*'
  {
    if c == '+' then Some(Addition) else if c == '*' then Some(Multiplication) else None
  }

  /** A line try_from accepts as the operator line: only '+', '*' and ' '. */
  predicate IsOperatorLine(line: string) {
    forall i | 0 <= i < |line| :: OperatorOf(line[i]).Some? || line[i] == ' '
  }

  /** The positions of the operators, left to right: where the columns start. */
  function ColumnStarts(line: string): (starts: seq<nat>)
    ensures forall k | 0 <= k < |starts| :: starts[k] < |line| && OperatorOf(line[starts[k]]).Some?
  {
    if line == [] then []
    else
      var init := line[..|line| - 1];
      ColumnStarts(init) + (if OperatorOf(line[|line| - 1]).Some? then [|line| - 1] else [])
  }

  /** The operators of the line, left to right. */
  function OperatorsOf(line: string): (ops: seq<Operator>) {
    if line == [] then []
    else
      var c := line[|line| - 1];
      OperatorsOf(line[..|line| - 1]) + (if OperatorOf(c).Some? then [OperatorOf(c).value] else [])
  }

  /** One operator per column start, the one written there. */
  lemma {:induction false} OperatorsAtStarts(line: string)
    ensures |OperatorsOf(line)| == |ColumnStarts(line)|
    ensures forall k | 0 <= k < |ColumnStarts(line)| ::
      OperatorOf(line[ColumnStarts(line)[k]]) == Some(OperatorsOf(line)[k])
  {
    if line != [] {
      var init := line[..|line| - 1];
      OperatorsAtStarts(init);
      assert forall k | 0 <= k < |ColumnStarts(init)| :: line[ColumnStarts(init)[k]] == init[ColumnStarts(init)[k]];
    }
  }

  /** The column starts rise strictly: each operator starts a column of its own. */
  lemma {:induction false} ColumnStartsIncreasing(line: string)
    ensures forall a, b | 0 <= a < b < |ColumnStarts(line)| :: ColumnStarts(line)[a] < ColumnStarts(line)[b]
  {
    if line != [] {
      var init := line[..|line| - 1];
      ColumnStartsIncreasing(init);
      var before, starts := ColumnStarts(init), ColumnStarts(line);
      assert starts == before + (if OperatorOf(line[|line| - 1]).Some? then [|line| - 1] else []);
      assert forall k | 0 <= k < |before| :: before[k] < |line| - 1;
    }
  }

  /** The column starts are exactly the operator positions. */
  lemma {:induction false} ColumnStartsExact(line: string)
    ensures forall i | 0 <= i < |line| :: i in ColumnStarts(line) <==> OperatorOf(line[i]).Some?
  {
    if line != [] {
      var init := line[..|line| - 1];
      ColumnStartsExact(init);
      var before, starts := ColumnStarts(init), ColumnStarts(line);
      var last := if OperatorOf(line[|line| - 1]).Some? then [|line| - 1] else [];
      assert starts == before + last;
      assert forall k | 0 <= k < |before| :: before[k] < |init|;
      forall i | 0 <= i < |init| ensures i in starts <==> OperatorOf(line[i]).Some? {
        assert init[i] == line[i];
        assert i !in last;
      }
    }
  }

  // ---------------------------------------------------------------------------
  // Part one: the numbers of each line
  // ---------------------------------------------------------------------------

  /** `filter_map(|element| element.parse::<u64>().ok())`: the tokens that are numbers, as numbers. */
  function NumbersOf(tokens: seq<string>): (nums: seq<nat>)
    ensures |nums| <= |tokens|
  {
    if tokens == [] then []
    else
      (match ParseNat(tokens[0]) case Some(n) => [n] case None => []) + NumbersOf(tokens[1..])
  }

  /** A line's part-one row: its whitespace-separated tokens that are numbers, in order. */
  function NumberRow(line: string): seq<nat> {
    NumbersOf(Tokens(line))
  }

  function PartOneRows(lines: seq<string>): (rows: seq<seq<nat>>)
    ensures |rows| == |lines|
  {
    seq(|lines|, k requires 0 <= k < |lines| => NumberRow(lines[k]))
  }

  /** Tokens read separately and together give the same numbers: a token that is not a number is dropped. */
  lemma {:induction false} NumbersOfAppend(a: seq<string>, b: seq<string>)
    ensures NumbersOf(a + b) == NumbersOf(a) + NumbersOf(b)
  {
    if a == [] {
      assert a + b == b;
    } else {
      assert (a + b)[1..] == a[1..] + b;
      NumbersOfAppend(a[1..], b);
    }
  }

  /** Tokens that are all numbers give one number per token. */
  lemma {:induction false} NumbersOfNumeric(tokens: seq<string>)
    requires forall k | 0 <= k < |tokens| :: ParseNat(tokens[k]).Some?
    ensures |NumbersOf(tokens)| == |tokens|
    ensures forall k | 0 <= k < |tokens| :: Some(NumbersOf(tokens)[k]) == ParseNat(tokens[k])
  {
    if tokens != [] {
      NumbersOfNumeric(tokens[1..]);
    }
  }

  /** The decimal forms of numbers, one space apart. */
  function Spaced(nums: seq<nat>): string
    requires |nums| > 0
  {
    Join(seq(|nums|, k requires 0 <= k < |nums| => NatToString(nums[k])), ' ')
  }

  /** A line of numbers written one space apart reads back as those numbers. */
  lemma NumberRowSpaced(nums: seq<nat>)
    requires |nums| > 0
    ensures NumberRow(Spaced(nums)) == nums
  {
    var parts := seq(|nums|, k requires 0 <= k < |nums| => NatToString(nums[k]));
    PrintedNumbers(nums, parts);
    JoinSplit(parts, ' ', AsciiWhitespace);
    NonEmptyAll(parts);
    NumbersOfNumeric(parts);
  }

  /** Printed numbers are non-empty, free of whitespace and read back as the numbers. */
  lemma PrintedNumbers(nums: seq<nat>, parts: seq<string>)
    requires |parts| == |nums| && forall k | 0 <= k < |nums| :: parts[k] == NatToString(nums[k])
    ensures forall piece, c | piece in parts && c in piece :: c !in AsciiWhitespace
    ensures forall k | 0 <= k < |parts| :: |parts[k]| > 0 && ParseNat(parts[k]) == Some(nums[k])
  {
    forall piece, c | piece in parts && c in piece ensures c !in AsciiWhitespace {
      var k :| 0 <= k < |parts| && parts[k] == piece;
      var i :| 0 <= i < |piece| && piece[i] == c;
      assert IsDigit(piece[i]);
    }
    forall k | 0 <= k < |parts| ensures ParseNat(parts[k]) == Some(nums[k]) {
      ParseNatToString(nums[k]);
    }
  }

  /** Pieces that are all non-empty are kept as they are. */
  lemma {:induction false} NonEmptyAll(parts: seq<string>)
    requires forall k | 0 <= k < |parts| :: |parts[k]| > 0
    ensures NonEmpty(parts) == parts
  {
    if parts != [] {
      NonEmptyAll(parts[1..]);
    }
  }

  // ---------------------------------------------------------------------------
  // Part two: the numbers of each column
  // ---------------------------------------------------------------------------

  /**
   * The column starts with the 'fake start' one past the end of the
   * operator line appended. Column k spans bounds[k] ..= bounds[k + 1] - 2,
   * which leaves out the separating blank before the next operator.
   */
  function ColumnBounds(starts: seq<nat>, lineLength: nat): seq<nat> {
    starts + [lineLength + 1]
  }

  /** No two operators side by side: otherwise `arr[1] - 2` or the capacity computation underflows. */
  predicate Separated(bounds: seq<nat>) {
    forall a, b | 0 <= a && b == a + 1 < |bounds| :: bounds[a] + 2 <= bounds[b]
  }

  /** The characters at position i of the lines, top to bottom (`chars().nth(i).unwrap()`). */
  function ColumnText(lines: seq<string>, i: nat): (s: string)
    requires forall j | 0 <= j < |lines| :: i < |lines[j]|
    ensures |s| == |lines|
  {
    seq(|lines|, j requires 0 <= j < |lines| => lines[j][i])
  }

  /*
   * The column functions below take the reader of a column's characters as
   * a parameter; the worksheet passes ParseTrimmed.
   */

  /** Position i can be read: every line reaches it and `read` accepts its characters. */
  predicate PositionReadable(lines: seq<string>, i: nat, read: string -> Option<nat>) {
    && (forall j | 0 <= j < |lines| :: i < |lines[j]|)
    && read(ColumnText(lines, i)).Some?
  }

  predicate ColumnReadable(lines: seq<string>, first: nat, last: int, read: string -> Option<nat>) {
    forall i: nat | first <= i <= last :: PositionReadable(lines, i, read)
  }

  /** Every column of the bounds can be read without panicking. */
  predicate ColumnsReadable(lines: seq<string>, bounds: seq<nat>, read: string -> Option<nat>) {
    && Separated(bounds)
    && forall a, b | 0 <= a && b == a + 1 < |bounds| :: ColumnReadable(lines, bounds[a], bounds[b] - 2, read)
  }

  /** The number the characters at position i spell, top to bottom. */
  function ColumnNumber(lines: seq<string>, i: nat, read: string -> Option<nat>): nat
    requires PositionReadable(lines, i, read)
  {
    read(ColumnText(lines, i)).value
  }

  /** One number per position of first ..= last. */
  function ColumnNumbers(lines: seq<string>, first: nat, last: int, read: string -> Option<nat>): (nums: seq<nat>)
    requires ColumnReadable(lines, first, last, read)
    ensures |nums| == if first <= last then last + 1 - first else 0
    ensures forall m | 0 <= m < |nums| :: nums[m] == ColumnNumber(lines, first + m, read)
    decreases last + 1 - first
  {
    if first > last then [] else [ColumnNumber(lines, first, read)] + ColumnNumbers(lines, first + 1, last, read)
  }

  function PartTwoColumns(lines: seq<string>, bounds: seq<nat>, read: string -> Option<nat>): (columns: seq<seq<nat>>)
    requires ColumnsReadable(lines, bounds, read)
    ensures |bounds| > 0 ==> |columns| == |bounds| - 1
  {
    if |bounds| == 0 then []
    else
      seq(|bounds| - 1, k requires 0 <= k < |bounds| - 1 =>
        ColumnNumbers(lines, bounds[k], bounds[k + 1] - 2, read))
  }

  predicate Increasing(bounds: seq<nat>) {
    forall a, b | 0 <= a < b < |bounds| :: bounds[a] < bounds[b]
  }

  /** The column starts of an operator line, closed by the fake start, are strictly increasing. */
  lemma BoundsIncreasing(line: string)
    ensures Increasing(ColumnBounds(ColumnStarts(line), |line|))
  {
    ColumnStartsIncreasing(line);
    var starts := ColumnStarts(line);
    var bounds := ColumnBounds(starts, |line|);
    forall a, b | 0 <= a < b < |bounds| ensures bounds[a] < bounds[b] {
      assert bounds[a] == starts[a];
      if b < |starts| {
        assert bounds[b] == starts[b];
      }
    }
  }

  /** Position i is in column k of the bounds: from bounds[k] to two before bounds[k + 1]. */
  predicate InColumn(bounds: seq<nat>, k: nat, i: nat) {
    k + 1 < |bounds| && bounds[k] <= i && i + 2 <= bounds[k + 1]
  }

  /**
   * A position below the last bound but one lies between bounds[k] and
   * bounds[k + 1] - 2 for some k exactly when it is at or after the first
   * bound and is not just before a bound.
   */
  lemma InSomeColumn(bounds: seq<nat>, i: nat)
    requires Increasing(bounds) && Separated(bounds) && |bounds| > 0 && i + 1 < bounds[|bounds| - 1]
    ensures (exists k: nat :: InColumn(bounds, k, i)) <==> |bounds| > 1 && bounds[0] <= i && i + 1 !in bounds
  {
    if exists k: nat :: InColumn(bounds, k, i) {
      var k: nat :| InColumn(bounds, k, i);
      forall m | 0 <= m < |bounds| ensures bounds[m] != i + 1 {
        if m < k {
          assert bounds[m] < bounds[k];
        } else if m > k + 1 {
          assert bounds[k + 1] < bounds[m];
        }
      }
    }
    if |bounds| > 1 && bounds[0] <= i && i + 1 !in bounds {
      var k := LastBoundAtMost(bounds, i);
      assert bounds[k + 1] != i + 1;
      assert InColumn(bounds, k, i);
    }
  }

  /**
   * A position of the operator line lies in a column exactly when it is at
   * or after the first operator and is not the blank just before an
   * operator.
   */
  lemma ColumnsCover(line: string, i: nat)
    requires i < |line|
    requires Separated(ColumnBounds(ColumnStarts(line), |line|))
    ensures var bounds := ColumnBounds(ColumnStarts(line), |line|);
      (exists k: nat :: InColumn(bounds, k, i)) <==> |bounds| > 1 && bounds[0] <= i && i + 1 !in bounds
  {
    BoundsIncreasing(line);
    InSomeColumn(ColumnBounds(ColumnStarts(line), |line|), i);
  }

  /** The last bound at most i, when the first is. */
  function LastBoundAtMost(bounds: seq<nat>, i: nat): (k: nat)
    requires |bounds| > 0 && bounds[0] <= i < bounds[|bounds| - 1]
    ensures k < |bounds| - 1 && bounds[k] <= i < bounds[k + 1]
    decreases |bounds|
  {
    if |bounds| == 1 || bounds[1] > i then 0
    else 1 + LastBoundAtMost(bounds[1..], i)
  }

  // ---------------------------------------------------------------------------
  // The worksheet
  // ---------------------------------------------------------------------------

  /**
   * What try_from needs so as not to panic: once the operator line is
   * accepted, no two operators are adjacent and every position of every
   * column can be read from every number line.
   */
  predicate Readable(value: string) {
    var lines := Lines(value);
    |lines| > 0 && IsOperatorLine(lines[|lines| - 1]) ==>
      var line := lines[|lines| - 1];
      ColumnsReadable(lines[..|lines| - 1], ColumnBounds(ColumnStarts(line), |line|), ParseTrimmed)
  }

  /** The worksheet of accepted number lines and operator line, columns read by `read`. */
  function Assemble(numberLines: seq<string>, operatorsLine: string, read: string -> Option<nat>): Worksheet
    requires ColumnsReadable(numberLines, ColumnBounds(ColumnStarts(operatorsLine), |operatorsLine|), read)
  {
    Worksheet(
      PartOneRows(numberLines),
      PartTwoColumns(numberLines, ColumnBounds(ColumnStarts(operatorsLine), |operatorsLine|), read),
      OperatorsOf(operatorsLine))
  }

  /**
   * `TryFrom<&str>`: an error for a text without lines or with a character
   * other than '+', '*' or ' ' in its last line; otherwise one row per line
   * above it and one column per operator.
   */
  function ParseWorksheet(value: string): (r: Result<Worksheet, WorkspaceCreationError>)
    requires Readable(value)
    ensures var lines := Lines(value);
      r.Failure? <==> |lines| == 0 || !IsOperatorLine(lines[|lines| - 1])
    ensures r.Success? ==>
      && |r.value.numberLinesPartOne| == |Lines(value)| - 1
      && |r.value.numberColumnsPartTwo| == |r.value.operators|
  {
    var lines := Lines(value);
    if |lines| == 0 || !IsOperatorLine(lines[|lines| - 1]) then Failure(WorkspaceCreationError)
    else
      OperatorsAtStarts(lines[|lines| - 1]);
      Success(Assemble(lines[..|lines| - 1], lines[|lines| - 1], ParseTrimmed))
  }

  /**
   * Column k of the worksheet: one number per position from its operator to
   * two before the next operator (or to the end of the operator line), each
   * the characters at that position read top to bottom by `read`.
   */
  lemma ColumnEntries(numberLines: seq<string>, starts: seq<nat>, lineLength: nat, k: nat, read: string -> Option<nat>)
    requires ColumnsReadable(numberLines, ColumnBounds(starts, lineLength), read)
    requires k < |starts|
    ensures var column := PartTwoColumns(numberLines, ColumnBounds(starts, lineLength), read)[k];
      && starts[k] <= ColumnLast(starts, lineLength, k)
      && |column| == ColumnLast(starts, lineLength, k) + 1 - starts[k]
      && forall m | 0 <= m < |column| ::
           PositionReadable(numberLines, starts[k] + m, read)
           && Some(column[m]) == read(ColumnText(numberLines, starts[k] + m))
  {
    var bounds := ColumnBounds(starts, lineLength);
    assert bounds[k] == starts[k];
    assert bounds[k + 1] - 2 == ColumnLast(starts, lineLength, k);
    PartTwoColumnAt(numberLines, bounds, read, k);
  }

  /** Column k of the bounds: the numbers at bounds[k] ..= bounds[k + 1] - 2, in order. */
  lemma PartTwoColumnAt(lines: seq<string>, bounds: seq<nat>, read: string -> Option<nat>, k: nat)
    requires ColumnsReadable(lines, bounds, read) && k + 1 < |bounds|
    ensures var column := PartTwoColumns(lines, bounds, read)[k];
      && bounds[k] <= bounds[k + 1] - 2
      && |column| == bounds[k + 1] - 1 - bounds[k]
      && forall m | 0 <= m < |column| ::
           PositionReadable(lines, bounds[k] + m, read)
           && Some(column[m]) == read(ColumnText(lines, bounds[k] + m))
  {
    var first, last := bounds[k], bounds[k + 1] - 2;
    assert first + 2 <= bounds[k + 1];
    assert ColumnReadable(lines, first, last, read);
    assert PartTwoColumns(lines, bounds, read)[k] == ColumnNumbers(lines, first, last, read);
    ColumnNumbersRead(lines, first, last, read);
  }

  /** Each number of a column is what `read` makes of the characters at its position. */
  lemma ColumnNumbersRead(lines: seq<string>, first: nat, last: int, read: string -> Option<nat>)
    requires first <= last + 1 && ColumnReadable(lines, first, last, read)
    ensures var column := ColumnNumbers(lines, first, last, read);
      forall m | 0 <= m < |column| ::
        PositionReadable(lines, first + m, read) && Some(column[m]) == read(ColumnText(lines, first + m))
  {
    var column := ColumnNumbers(lines, first, last, read);
    forall m | 0 <= m < |column|
      ensures PositionReadable(lines, first + m, read) && Some(column[m]) == read(ColumnText(lines, first + m))
    {
      assert column[m] == ColumnNumber(lines, first + m, read);
    }
  }

  /** The last position of column k: two before the next start, or the end of the operator line. */
  function ColumnLast(starts: seq<nat>, lineLength: nat, k: nat): int
    requires k < |starts|
  {
    if k + 1 < |starts| then starts[k + 1] - 2 else lineLength - 1
  }

  // ---------------------------------------------------------------------------
  // The construction, step by step
  // ---------------------------------------------------------------------------

  /** try_from: the operator scan, the rows, then the columns between the column starts. */
  method TryFrom(value: string) returns (r: Result<Worksheet, WorkspaceCreationError>)
    requires Readable(value)
    ensures r == ParseWorksheet(value)
  {
    var lines := Lines(value);
    if |lines| == 0 {
      return Failure(WorkspaceCreationError);
    }
    var operatorsLine := lines[|lines| - 1];
    var numberLines := lines[..|lines| - 1];
    var lineLength := |operatorsLine|;
    var scan := ScanOperators(operatorsLine);
    if scan.None? {
      return Failure(WorkspaceCreationError);
    }
    var (columnStartIndices, operators) := scan.value;
    var numberLinesPartOne := PartOneRows(numberLines);
    var numberColumnsPartTwo := ReadColumns(numberLines, columnStartIndices + [lineLength + 1], ParseTrimmed);
    return Success(Worksheet(numberLinesPartOne, numberColumnsPartTwo, operators));
  }

  /** The loop over the operator line: the column starts and operators, or None at a foreign character. */
  method ScanOperators(line: string) returns (r: Option<(seq<nat>, seq<Operator>)>)
    ensures r.None? <==> !IsOperatorLine(line)
    ensures r.Some? ==> r.value == (ColumnStarts(line), OperatorsOf(line))
  {
    var columnStartIndices: seq<nat> := [];
    var operators: seq<Operator> := [];
    for index := 0 to |line|
      invariant IsOperatorLine(line[..index])
      invariant columnStartIndices == ColumnStarts(line[..index])
      invariant operators == OperatorsOf(line[..index])
    {
      var character := line[index];
      TakeSnoc(line, index);
      assert line[..index + 1][..index] == line[..index];
      if character == '+' {
        columnStartIndices := columnStartIndices + [index];
        operators := operators + [Addition];
      } else if character == '*' {
        columnStartIndices := columnStartIndices + [index];
        operators := operators + [Multiplication];
      } else if character != ' ' {
        return None;
      }
    }
    assert line[..|line|] == line;
    return Some((columnStartIndices, operators));
  }

  /** The loop over the windows of the bounds: one column of numbers per window. */
  method ReadColumns(lines: seq<string>, bounds: seq<nat>, read: string -> Option<nat>) returns (columns: seq<seq<nat>>)
    requires |bounds| > 0 && ColumnsReadable(lines, bounds, read)
    ensures columns == PartTwoColumns(lines, bounds, read)
  {
    columns := [];
    for k := 0 to |bounds| - 1
      invariant |columns| == k
      invariant forall c | 0 <= c < k :: columns[c] == ColumnNumbers(lines, bounds[c], bounds[c + 1] - 2, read)
    {
      assert ColumnReadable(lines, bounds[k], bounds[k + 1] - 2, read);
      var columnNumbers := ReadColumn(lines, bounds[k], bounds[k + 1] - 2, read);
      columns := columns + [columnNumbers];
    }
  }

  /** The loop over a column's positions: the number at each one. */
  method ReadColumn(lines: seq<string>, first: nat, last: nat, read: string -> Option<nat>) returns (columnNumbers: seq<nat>)
    requires first <= last + 1 && ColumnReadable(lines, first, last, read)
    ensures columnNumbers == ColumnNumbers(lines, first, last, read)
  {
    columnNumbers := [];
    for i := first to last + 1
      invariant |columnNumbers| == i - first
      invariant forall m | 0 <= m < i - first :: columnNumbers[m] == ColumnNumber(lines, first + m, read)
    {
      assert PositionReadable(lines, i, read);
      var numberString := ReadPosition(lines, i);
      columnNumbers := columnNumbers + [read(numberString).value];
    }
  }

  /** The loop over the lines: the characters at position i, top to bottom. */
  method ReadPosition(lines: seq<string>, i: nat) returns (numberString: string)
    requires forall j | 0 <= j < |lines| :: i < |lines[j]|
    ensures numberString == ColumnText(lines, i)
  {
    numberString := [];
    for j := 0 to |lines|
      invariant |numberString| == j
      invariant forall jj | 0 <= jj < j :: numberString[jj] == lines[jj][i]
    {
      numberString := numberString + [lines[j][i]];
    }
  }
}
