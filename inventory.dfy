/**
 * The ingredient inventory of 2025/day-05/src/inventory.rs: a list of
 * inclusive ranges of fresh ingredient ids, a blank line, then the ids of
 * the available ingredients, one per line.
 */
module IngredientInventory {
  import opened Wrappers
  import opened Text

  /** `RangeInclusive<IngredientId>`: the ids start ..= end, none when start > end. */
  datatype IdRange = IdRange(start: nat, end: nat)

  /** `RangeInclusive::contains`. */
  predicate Contains(r: IdRange, id: nat) {
    r.start <= id <= r.end
  }

  datatype Inventory = Inventory(freshIngredientIdRanges: seq<IdRange>, availableIngredientIds: seq<nat>)

  datatype InventoryCreationError = InvalidIngredientIdRange | InvalidIngredientId

  // ---------------------------------------------------------------------------
  // One line
  // ---------------------------------------------------------------------------

  /** A range line: trimmed, split at its first '-', both sides decimal ids. */
  function ParseRange(line: string): (r: Option<IdRange>)
    ensures r.Some? ==> '-' in Trim(line)
    ensures '-' in Trim(line) ==>
      var halves := SplitOnce(Trim(line), '-').value;
      r.Some? <==> ParseNat(halves.0).Some? && ParseNat(halves.1).Some?
  {
    match SplitOnce(Trim(line), '-')
    case None => None
    case Some((start, end)) =>
      match (ParseNat(start), ParseNat(end))
      case (Some(s), Some(e)) => Some(IdRange(s, e))
      case _ => None
  }

  /** A blank line is not an id. */
  lemma BlankIdRefused()
    ensures ParseTrimmed("") == None
  {
  }

  /** A range line as the puzzle writes it: start, '-', end. */
  function FormatRange(r: IdRange): string {
    NatToString(r.start) + "-" + NatToString(r.end)
  }

  /** No digit is whitespace. */
  lemma DigitsUntrimmable(s: string)
    requires |s| > 0 && AllDigits(s)
    ensures Trim(s) == s
  {
    assert IsDigit(s[0]) && IsDigit(s[|s| - 1]);
    TrimUntrimmable(s);
  }

  /** A digit is neither a separator nor blank. */
  lemma DigitCharacters(s: string)
    requires AllDigits(s)
    ensures forall c | c in s :: c != '-' && c != '\n' && !IsTrimmable(c)
  {
    forall c | c in s ensures c != '-' && c != '\n' && !IsTrimmable(c) {
      var k :| 0 <= k < |s| && s[k] == c;
      assert IsDigit(s[k]);
    }
  }

  /** Every range reads back from its line, including one with start > end. */
  lemma RangeRoundTrip(r: IdRange)
    ensures ParseRange(FormatRange(r)) == Some(r)
    ensures FormatRange(r) != "" && '\n' !in FormatRange(r)
  {
    var a, b := NatToString(r.start), NatToString(r.end);
    var line := FormatRange(r);
    assert line == a + ['-'] + b;
    DigitCharacters(a);
    DigitCharacters(b);
    assert line[0] == a[0] && line[|line| - 1] == b[|b| - 1];
    TrimUntrimmable(line);
    assert forall c | c in line :: c in a || c == '-' || c in b;
    SplitOnceAt(a, '-', b);
    ParseNatToString(r.start);
    ParseNatToString(r.end);
  }

  /** `split_once` stops at the first separator. */
  lemma {:induction false} SplitOnceAt(a: string, sep: char, b: string)
    requires sep !in a
    ensures SplitOnce(a + [sep] + b, sep) == Some((a, b))
  {
    if a != [] {
      assert (a + [sep] + b)[1..] == a[1..] + [sep] + b;
      SplitOnceAt(a[1..], sep, b);
      assert [a[0]] + a[1..] == a;
    }
  }

  /** Every id reads back from its line. */
  lemma IdRoundTrip(id: nat)
    ensures ParseTrimmed(NatToString(id)) == Some(id)
  {
    DigitsUntrimmable(NatToString(id));
    ParseNatToString(id);
  }

  // ---------------------------------------------------------------------------
  // The two sections
  // ---------------------------------------------------------------------------

  /** The position of the first empty line, or the number of lines when there is none. */
  function FirstBlank(lines: seq<string>): (b: nat)
    ensures b <= |lines|
    ensures forall k | 0 <= k < b :: lines[k] != ""
    ensures b < |lines| ==> lines[b] == ""
  {
    if lines == [] || lines[0] == "" then 0 else 1 + FirstBlank(lines[1..])
  }

  /** The lines after the first empty line; none when there is no empty line. */
  function IdLines(lines: seq<string>): seq<string> {
    var b := FirstBlank(lines);
    if b < |lines| then lines[b + 1..] else []
  }

  /**
   * What try_from makes of the lines: the lines before the first empty line
   * are ranges, the ones after it ids, the empty line itself is neither; any
   * range line that does not parse refuses the text as an invalid range,
   * otherwise any id line that does not parse refuses it as an invalid id.
   */
  function ReadInventory(lines: seq<string>): Result<Inventory, InventoryCreationError> {
    ReadWith(lines, ParseRange, ParseTrimmed)
  }

  /** ReadInventory for any reader of range lines and of id lines. */
  function ReadWith(lines: seq<string>, parseRange: string -> Option<IdRange>, parseId: string -> Option<nat>)
    : Result<Inventory, InventoryCreationError>
  {
    match ParseEach(lines[..FirstBlank(lines)], parseRange)
    case None => Failure(InvalidIngredientIdRange)
    case Some(ranges) =>
      match ParseEach(IdLines(lines), parseId)
      case None => Failure(InvalidIngredientId)
      case Some(ids) => Success(Inventory(ranges, ids))
  }

  /**
   * `TryFrom<&str>`: one pass over the lines with a flag that drops from
   * ranges to ids at the first empty line, returning at the first line that
   * does not parse.
   */
  method InventoryFrom(value: string) returns (r: Result<Inventory, InventoryCreationError>)
    ensures r == ReadInventory(Lines(value))
  {
    r := ReadLines(Lines(value), ParseRange, ParseTrimmed);
  }

  /** A range line before the first empty line that does not parse refuses the text as an invalid range. */
  lemma RangeLineFails(lines: seq<string>, parseRange: string -> Option<IdRange>, parseId: string -> Option<nat>, i: nat)
    requires i < FirstBlank(lines) && parseRange(lines[i]).None?
    ensures ReadWith(lines, parseRange, parseId) == Failure(InvalidIngredientIdRange)
  {
    assert lines[..FirstBlank(lines)][i] == lines[i];
    ParseEachEach(lines[..FirstBlank(lines)], parseRange);
  }

  /**
   * Once every range line parses, an id line after the empty line that does
   * not parse refuses the text as an invalid id.
   */
  lemma IdLineFails(lines: seq<string>, parseRange: string -> Option<IdRange>, parseId: string -> Option<nat>, i: nat)
    requires FirstBlank(lines) < i < |lines|
    requires ParseEach(lines[..FirstBlank(lines)], parseRange).Some?
    requires parseId(lines[i]).None?
    ensures ReadWith(lines, parseRange, parseId) == Failure(InvalidIngredientId)
  {
    var b := FirstBlank(lines);
    var idLines := IdLines(lines);
    assert idLines == lines[b + 1..];
    assert idLines[i - b - 1] == lines[i];
    ParseEachEach(idLines, parseId);
    assert ParseEach(idLines, parseId).None?;
  }

  /** The loop of try_from, for any reader of range lines and of id lines. */
  method ReadLines(lines: seq<string>, parseRange: string -> Option<IdRange>, parseId: string -> Option<nat>)
    returns (r: Result<Inventory, InventoryCreationError>)
    ensures r == ReadWith(lines, parseRange, parseId)
  {
    var idRanges: seq<IdRange> := [];
    var availableIds: seq<nat> := [];
    var parsingRanges := true;
    ghost var b := FirstBlank(lines);
    for i := 0 to |lines|
      invariant parsingRanges <==> i <= b
      invariant parsingRanges ==> ParseEach(lines[..i], parseRange) == Some(idRanges) && availableIds == []
      invariant !parsingRanges ==>
        ParseEach(lines[..b], parseRange) == Some(idRanges) && ParseEach(lines[b + 1..i], parseId) == Some(availableIds)
    {
      var line := lines[i];
      if parsingRanges && line == "" {
        parsingRanges := false;
        assert lines[b + 1..i + 1] == [];
        continue;
      }
      if parsingRanges {
        TakeSnoc(lines, i);
        ParseEachSnoc(lines[..i], line, parseRange);
        match parseRange(line) {
          case Some(range) =>
            idRanges := idRanges + [range];
          case None =>
            RangeLineFails(lines, parseRange, parseId, i);
            return Failure(InvalidIngredientIdRange);
        }
      } else {
        SliceSnoc(lines, b + 1, i);
        ParseEachSnoc(lines[b + 1..i], line, parseId);
        match parseId(line) {
          case Some(id) =>
            availableIds := availableIds + [id];
          case None =>
            IdLineFails(lines, parseRange, parseId, i);
            return Failure(InvalidIngredientId);
        }
      }
    }
    assert lines[..|lines|] == lines;
    r := Success(Inventory(idRanges, availableIds));
  }

  // ---------------------------------------------------------------------------
  // Properties of the reading
  // ---------------------------------------------------------------------------

  /** Text without an empty line is all ranges: the id list is empty. */
  lemma NoBlankLineNoIds(lines: seq<string>)
    requires forall k | 0 <= k < |lines| :: lines[k] != ""
    ensures ReadInventory(lines).Success? ==> ReadInventory(lines).value.availableIngredientIds == []
    ensures ReadInventory(lines).Failure? ==> ReadInventory(lines).error == InvalidIngredientIdRange
  {
    assert FirstBlank(lines) == |lines|;
  }

  /** Once the range section parses, a second empty line refuses the text as an invalid id. */
  lemma SecondBlankLineRefused(lines: seq<string>, j: nat)
    requires FirstBlank(lines) < j < |lines| && lines[j] == ""
    requires ParseEach(lines[..FirstBlank(lines)], ParseRange).Some?
    ensures ReadInventory(lines) == Failure(InvalidIngredientId)
  {
    var b := FirstBlank(lines);
    assert IdLines(lines)[j - b - 1] == "";
    BlankIdRefused();
    ParseEachEach(IdLines(lines), ParseTrimmed);
  }

  /** The range lines of an inventory's text. */
  function RangeLinesOf(ranges: seq<IdRange>): (lines: seq<string>)
    ensures |lines| == |ranges| && forall k | 0 <= k < |ranges| :: lines[k] == FormatRange(ranges[k])
  {
    seq(|ranges|, k requires 0 <= k < |ranges| => FormatRange(ranges[k]))
  }

  /** The id lines of an inventory's text. */
  function IdLinesOf(ids: seq<nat>): (lines: seq<string>)
    ensures |lines| == |ids| && forall k | 0 <= k < |ids| :: lines[k] == NatToString(ids[k])
  {
    seq(|ids|, k requires 0 <= k < |ids| => NatToString(ids[k]))
  }

  /** The text of an inventory: its range lines, an empty line, its id lines. */
  function FormatInventory(inv: Inventory): string {
    Join(RangeLinesOf(inv.freshIngredientIdRanges) + [""] + IdLinesOf(inv.availableIngredientIds), '\n')
  }

  /** Range lines are non-empty, hold no newline and read back as the ranges. */
  lemma RangeLinesRead(ranges: seq<IdRange>)
    ensures var lines := RangeLinesOf(ranges);
      && (forall k | 0 <= k < |lines| :: lines[k] != "" && '\n' !in lines[k])
      && ParseEach(lines, ParseRange) == Some(ranges)
  {
    var lines := RangeLinesOf(ranges);
    forall k | 0 <= k < |lines|
      ensures lines[k] != "" && '\n' !in lines[k] && ParseRange(lines[k]) == Some(ranges[k])
    {
      RangeRoundTrip(ranges[k]);
    }
    ParseEachAll(lines, ranges, ParseRange);
  }

  /** Id lines hold no newline and read back as the ids. */
  lemma IdLinesRead(ids: seq<nat>)
    ensures var lines := IdLinesOf(ids);
      && (forall k | 0 <= k < |lines| :: lines[k] != "" && '\n' !in lines[k])
      && ParseEach(lines, ParseTrimmed) == Some(ids)
  {
    var lines := IdLinesOf(ids);
    forall k | 0 <= k < |lines|
      ensures lines[k] != "" && '\n' !in lines[k] && ParseTrimmed(lines[k]) == Some(ids[k])
    {
      assert forall i | 0 <= i < |lines[k]| :: IsDigit(lines[k][i]);
      IdRoundTrip(ids[k]);
    }
    ParseEachAll(lines, ids, ParseTrimmed);
  }

  /**
   * Every inventory reads back from its text, in input order, whatever its
   * ranges (start > end included); with no ids the text ends in the empty
   * line, which `lines` drops.
   */
  lemma InventoryRoundTrip(inv: Inventory)
    ensures ReadInventory(Lines(FormatInventory(inv))) == Success(inv)
  {
    RangeLinesRead(inv.freshIngredientIdRanges);
    IdLinesRead(inv.availableIngredientIds);
    SectionsRoundTrip(RangeLinesOf(inv.freshIngredientIdRanges), IdLinesOf(inv.availableIngredientIds),
                      inv, ParseRange, ParseTrimmed);
  }

  /** The round trip for any readers that read the range lines and the id lines back. */
  lemma SectionsRoundTrip(rangeLines: seq<string>, idLines: seq<string>, inv: Inventory,
                          parseRange: string -> Option<IdRange>, parseId: string -> Option<nat>)
    requires forall k | 0 <= k < |rangeLines| :: rangeLines[k] != "" && '\n' !in rangeLines[k]
    requires forall k | 0 <= k < |idLines| :: idLines[k] != "" && '\n' !in idLines[k]
    requires ParseEach(rangeLines, parseRange) == Some(inv.freshIngredientIdRanges)
    requires ParseEach(idLines, parseId) == Some(inv.availableIngredientIds)
    ensures ReadWith(Lines(Join(rangeLines + [""] + idLines, '\n')), parseRange, parseId) == Success(inv)
  {
    var parts := rangeLines + [""] + idLines;
    assert forall piece | piece in parts :: '\n' !in piece;
    LinesJoin(parts);
    var lines := Lines(Join(parts, '\n'));
    if idLines == [] {
      assert lines == rangeLines;
      assert lines[..FirstBlank(lines)] == rangeLines;
    } else {
      assert lines == parts;
      FirstBlankAfter(rangeLines, idLines);
      assert lines[..FirstBlank(lines)] == rangeLines;
      assert IdLines(lines) == idLines;
    }
  }

  /** The first empty line after a block of non-empty lines is the one that ends it. */
  lemma {:induction false} FirstBlankAfter(front: seq<string>, back: seq<string>)
    requires forall k | 0 <= k < |front| :: front[k] != ""
    ensures FirstBlank(front + [""] + back) == |front|
  {
    var lines := front + [""] + back;
    if front != [] {
      assert lines[1..] == front[1..] + [""] + back;
      FirstBlankAfter(front[1..], back);
    }
  }
}
