/**
 * The gift-shop product ids of 2025/day-02/src/main.rs: comma-separated
 * inclusive id ranges, and the ids in them whose decimal form is made of a
 * repeated digit block (part one: exactly two halves; part two: any block
 * repeated at least twice).
 */
module ProductIds {
  import opened Wrappers
  import opened Text
  import opened Numbers

  /** `RangeInclusive<u64>`: start ..= end, empty when start > end. */
  datatype IdRange = IdRange(start: nat, end: nat)

  /** A comma-separated piece the source can read: its first two '-' parts parse after trimming. */
  predicate IsRangeText(piece: string) {
    var ends := Split(piece, '-');
    |ends| >= 2 && ParseNat(Trim(ends[0])).Some? && ParseNat(Trim(ends[1])).Some?
  }

  function ParseRange(piece: string): IdRange
    requires IsRangeText(piece)
  {
    var ends := Split(piece, '-');
    IdRange(ParseNat(Trim(ends[0])).value, ParseNat(Trim(ends[1])).value)
  }

  /** parse_input; the source aborts on a piece that is not two numbers, so each piece must be one. */
  function ParseInput(input: string): (ranges: seq<IdRange>)
    requires forall piece | piece in Split(input, ',') :: IsRangeText(piece)
    ensures |ranges| == |Split(input, ',')|
  {
    var pieces := Split(input, ',');
    seq(|pieces|, i requires 0 <= i < |pieces| => ParseRange(pieces[i]))
  }

  function FormatRange(r: IdRange): string {
    NatToString(r.start) + "-" + NatToString(r.end)
  }

  function FormatRanges(ranges: seq<IdRange>): string
    requires |ranges| > 0
  {
    Join(seq(|ranges|, i requires 0 <= i < |ranges| => FormatRange(ranges[i])), ',')
  }

  /** A printed number has no separator or blank in it and reads back as itself. */
  lemma PrintedNumber(n: nat)
    ensures var s := NatToString(n);
      (forall c | c in s :: c != '-' && c != ',') && Trim(s) == s && ParseNat(s) == Some(n)
  {
    var s := NatToString(n);
    assert forall c | c in s :: IsDigit(c);
    TrimUntrimmable(s);
    ParseNatToString(n);
  }

  /** Two '-'-free texts joined by one '-' split into exactly those two. */
  lemma SplitDash(a: string, b: string)
    requires forall c | c in a :: c != '-'
    requires forall c | c in b :: c != '-'
    ensures Split(a + "-" + b, '-') == [a, b]
  {
    assert a + "-" + b == a + ['-'] + b;
    SplitPrefix(a, '-', {'-'}, b);
    SplitNoSep(b, {'-'});
  }

  /** A printed range has no ',' and reads back as the range. */
  lemma FormatRangeRead(r: IdRange)
    ensures ',' !in FormatRange(r) && IsRangeText(FormatRange(r)) && ParseRange(FormatRange(r)) == r
  {
    var a, b := NatToString(r.start), NatToString(r.end);
    PrintedNumber(r.start);
    PrintedNumber(r.end);
    SplitDash(a, b);
    assert forall c | c in FormatRange(r) :: c in a || c == '-' || c in b;
  }

  /** Every printed range of a list is comma-free and reads back as its range. */
  lemma PrintedPieces(ranges: seq<IdRange>, pieces: seq<string>)
    requires |pieces| == |ranges| && forall i | 0 <= i < |ranges| :: pieces[i] == FormatRange(ranges[i])
    ensures forall i | 0 <= i < |ranges| :: IsRangeText(pieces[i]) && ParseRange(pieces[i]) == ranges[i]
    ensures forall piece, c | piece in pieces && c in piece :: c !in {','}
  {
    forall i | 0 <= i < |ranges| ensures ',' !in pieces[i] && IsRangeText(pieces[i]) && ParseRange(pieces[i]) == ranges[i] {
      FormatRangeRead(ranges[i]);
    }
  }

  /** Reading a printed list of ranges gives the ranges back, in order. */
  lemma ParseFormatRanges(ranges: seq<IdRange>)
    requires |ranges| > 0
    ensures var input := FormatRanges(ranges);
      (forall piece | piece in Split(input, ',') :: IsRangeText(piece)) && ParseInput(input) == ranges
  {
    var pieces := seq(|ranges|, i requires 0 <= i < |ranges| => FormatRange(ranges[i]));
    PrintedPieces(ranges, pieces);
    JoinSplit(pieces, ',', {','});
  }

  /** The ids `from ..= end` whose decimal form `isInvalid` accepts, ascending. */
  function InvalidIdsIn(from: nat, end: nat, isInvalid: string -> bool): (ids: seq<nat>)
    ensures forall x :: x in ids <==> from <= x <= end && isInvalid(NatToString(x))
    ensures forall a, b | 0 <= a < b < |ids| :: ids[a] < ids[b]
    decreases end + 1 - from
  {
    if from > end then []
    else
      var rest := InvalidIdsIn(from + 1, end, isInvalid);
      assert forall k | 0 <= k < |rest| :: rest[k] in rest;
      (if isInvalid(NatToString(from)) then [from] else []) + rest
  }

  /** find_invalid_ids: the accepted ids of every range, range by range. */
  function FindInvalidIds(ranges: seq<IdRange>, isInvalid: string -> bool): (ids: seq<nat>)
    ensures forall x :: x in ids <==> exists r | r in ranges :: r.start <= x <= r.end && isInvalid(NatToString(x))
  {
    if ranges == [] then []
    else
      var ids := InvalidIdsIn(ranges[0].start, ranges[0].end, isInvalid) + FindInvalidIds(ranges[1..], isInvalid);
      assert forall r | r in ranges :: r == ranges[0] || r in ranges[1..];
      ids
  }

  /** The ids of a longer list of ranges extend those of its first part. */
  lemma {:induction false} FindInvalidIdsAppend(a: seq<IdRange>, b: seq<IdRange>, isInvalid: string -> bool)
    ensures FindInvalidIds(a + b, isInvalid) == FindInvalidIds(a, isInvalid) + FindInvalidIds(b, isInvalid)
  {
    if a == [] {
      assert a + b == b;
    } else {
      assert (a + b)[0] == a[0];
      assert (a + b)[1..] == a[1..] + b;
      FindInvalidIdsAppend(a[1..], b, isInvalid);
    }
  }

  /** part_one_is_invalid_id: the id splits into two equal halves. */
  function PartOneIsInvalidId(id: string): (invalid: bool)
    ensures invalid <==> |id| % 2 == 0 && id == id[..|id| / 2] + id[..|id| / 2]
  {
    var half := |id| / 2;
    assert id == id[..half] + id[half..];
    id[..half] == id[half..]
  }

  /** Every character of `id` repeats the one at the same offset in its length-l prefix. */
  predicate IsRepetitionOf(id: string, l: nat)
    requires l > 0
  {
    forall p | 0 <= p < |id| :: id[p] == id[p % l]
  }

  /** What part_two_is_invalid_id decides: a prefix of length l, l <= len/2 and l | len, repeats to the id. */
  predicate HasRepeatedPrefix(id: string) {
    exists l | 1 <= l <= |id| / 2 && |id| % l == 0 :: IsRepetitionOf(id, l)
  }

  /** A mismatch between the prefix and the rest refutes the repetition. */
  lemma MismatchRefutes(id: string, l: nat, chunkStart: nat, j: nat)
    requires 0 < l <= |id| && chunkStart % l == 0 && j < l
    requires l + chunkStart + j < |id| && id[j] != id[l + chunkStart + j]
    ensures !IsRepetitionOf(id, l)
  {
    DivModUnique(l, l, 1, 0);
    ModAddMultiple(l, chunkStart, l);
    ModAddMultiple(l + chunkStart, j, l);
    DivModUnique(j, l, 0, j);
  }

  /** When every character after the prefix matches, the prefix repeats. */
  lemma RestMatches(id: string, l: nat)
    requires 0 < l <= |id|
    requires forall q | 0 <= q < |id| - l :: id[l + q] == id[q % l]
    ensures IsRepetitionOf(id, l)
  {
    forall p | 0 <= p < |id|
      ensures id[p] == id[p % l]
    {
      if p < l {
        DivModUnique(p, l, 0, p);
      } else {
        DivModUnique(l, l, 1, 0);
        ModAddMultiple(l, p - l, l);
        assert id[l + (p - l)] == id[(p - l) % l];
      }
    }
  }

  function Min(a: int, b: int): int {
    if a <= b then a else b
  }

  /**
   * part_two_is_invalid_id: for each block length l dividing the length,
   * compares the prefix with every length-l chunk of the rest and gives up
   * on l at the first mismatch.
   */
  method PartTwoIsInvalidId(id: string) returns (invalid: bool)
    ensures invalid <==> HasRepeatedPrefix(id)
  {
    var maxSubstrLen := |id| / 2;
    label Outer:
    for substrLen := 1 to maxSubstrLen + 1
      invariant forall l | 1 <= l < substrLen && |id| % l == 0 :: !IsRepetitionOf(id, l)
    {
      if |id| % substrLen != 0 {
        continue;
      }
      var substr, rest := id[..substrLen], id[substrLen..];
      var chunkStart := 0;
      while chunkStart < |rest|
        invariant chunkStart % substrLen == 0
        invariant forall q | 0 <= q < chunkStart && q < |rest| :: rest[q] == id[q % substrLen]
        decreases |rest| - chunkStart
      {
        var window := rest[chunkStart..Min(chunkStart + substrLen, |rest|)];
        for j := 0 to Min(|substr|, |window|)
          invariant forall q | chunkStart <= q < chunkStart + j :: rest[q] == id[q % substrLen]
        {
          if substr[j] != window[j] {
            MismatchRefutes(id, substrLen, chunkStart, j);
            continue Outer;
          }
          ModAddMultiple(chunkStart, j, substrLen);
          DivModUnique(j, substrLen, 0, j);
        }
        ModAddMultiple(chunkStart, substrLen, substrLen);
        DivModUnique(substrLen, substrLen, 1, 0);
        chunkStart := chunkStart + substrLen;
      }
      RestMatches(id, substrLen);
      return true;
    }
    return false;
  }

  /** An id of two equal halves is a block repeated twice. */
  lemma PartOneImpliesPartTwo(id: string)
    requires |id| > 0 && PartOneIsInvalidId(id)
    ensures HasRepeatedPrefix(id)
  {
    var half := |id| / 2;
    var h := id[..half];
    assert id == h + h;
    assert |id| == half * 2;
    forall p | 0 <= p < |id|
      ensures id[p] == id[p % half]
    {
      if p < half {
        DivModUnique(p, half, 0, p);
      } else {
        DivModUnique(p, half, 1, p - half);
        assert id[p] == h[p - half];
      }
    }
    DivModUnique(|id|, half, 2, 0);
    assert IsRepetitionOf(id, half);
  }

  /** A one-digit id is valid for both parts. */
  lemma SingleDigitIsValid(id: string)
    requires |id| == 1
    ensures !PartOneIsInvalidId(id) && !HasRepeatedPrefix(id)
  {
  }
}
