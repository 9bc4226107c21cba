/**
 * The parts of Rust's `str` API the solvers use, on ASCII text with '\n'
 * line breaks: `lines`, `split`, `split_once`, `split_ascii_whitespace`,
 * `trim`, `parse::<u64>` and `u64::to_string`.
 */
module Text {
  import opened Wrappers

  /** The characters `char::is_ascii_whitespace` accepts. */
  const AsciiWhitespace: set<char> := {' ', '\t', '\n', '\r', '\U{C}'}

  /** `str::trim` also strips the vertical tab (all other Unicode spaces are out of scope). */
  predicate IsTrimmable(c: char) {
    c in AsciiWhitespace || c == '\U{B}'
  }

  predicate IsDigit(c: char) {
    '0' <= c <= '9'
  }

  predicate AllDigits(s: string) {
    forall i | 0 <= i < |s| :: IsDigit(s[i])
  }

  function DigitValue(c: char): (d: nat)
    requires IsDigit(c)
    ensures d < 10
  {
    c as int - '0' as int
  }

  function DigitChar(d: nat): (c: char)
    requires d < 10
    ensures IsDigit(c) && DigitValue(c) == d
  {
    (d + '0' as int) as char
  }

  // ---------------------------------------------------------------------------
  // Splitting
  // ---------------------------------------------------------------------------

  /** The pieces of `s` between separator characters; always at least one piece. */
  function SplitOn(s: string, seps: set<char>): (r: seq<string>)
    ensures |r| > 0
    ensures forall piece, c | piece in r && c in piece :: c !in seps
    decreases |s|
  {
    if |s| == 0 then [""]
    else
      var rest := SplitOn(s[1..], seps);
      if s[0] in seps then [""] + rest else [[s[0]] + rest[0]] + rest[1..]
  }

  /** `str::split` on one character. */
  function Split(s: string, sep: char): seq<string> {
    SplitOn(s, {sep})
  }

  /** The pieces joined back with the separator between them. */
  function Join(parts: seq<string>, sep: char): string
    requires |parts| > 0
  {
    if |parts| == 1 then parts[0] else parts[0] + [sep] + Join(parts[1..], sep)
  }

  function Concat(parts: seq<string>): string {
    if parts == [] then [] else parts[0] + Concat(parts[1..])
  }

  /** The characters of `s` that are not separators, in order. */
  function Without(s: string, seps: set<char>): string {
    if s == [] then [] else (if s[0] in seps then [] else [s[0]]) + Without(s[1..], seps)
  }

  lemma {:induction false} ConcatAppend(a: seq<string>, b: seq<string>)
    ensures Concat(a + b) == Concat(a) + Concat(b)
  {
    if a == [] {
      assert a + b == b;
    } else {
      assert (a + b)[0] == a[0];
      assert (a + b)[1..] == a[1..] + b;
      ConcatAppend(a[1..], b);
    }
  }

  /** Splitting then joining with the separator gives the text back. */
  lemma {:induction false} SplitJoin(s: string, sep: char)
    ensures Join(Split(s, sep), sep) == s
  {
    if |s| > 0 {
      SplitJoin(s[1..], sep);
      var rest := SplitOn(s[1..], {sep});
      if s[0] != sep && |rest| > 1 {
        assert ([[s[0]] + rest[0]] + rest[1..])[1..] == rest[1..];
      }
    }
  }

  /** Text without separators is a single piece. */
  lemma {:induction false} SplitNoSep(a: string, seps: set<char>)
    requires forall c | c in a :: c !in seps
    ensures SplitOn(a, seps) == [a]
  {
    if a != [] {
      SplitNoSep(a[1..], seps);
      assert [a[0]] + a[1..] == a;
    }
  }

  /** A separator ends the first piece. */
  lemma {:induction false} SplitPrefix(a: string, sep: char, seps: set<char>, rest: string)
    requires sep in seps && forall c | c in a :: c !in seps
    ensures SplitOn(a + [sep] + rest, seps) == [a] + SplitOn(rest, seps)
  {
    if a == [] {
      assert ([sep] + rest)[1..] == rest;
      assert a + [sep] + rest == [sep] + rest;
    } else {
      assert (a + [sep] + rest)[1..] == a[1..] + [sep] + rest;
      SplitPrefix(a[1..], sep, seps, rest);
      assert [a[0]] + a[1..] == a;
    }
  }

  /** Joining pieces free of separators with one of them and splitting again gives the pieces back. */
  lemma {:induction false} JoinSplit(parts: seq<string>, sep: char, seps: set<char>)
    requires |parts| > 0 && sep in seps
    requires forall piece, c | piece in parts && c in piece :: c !in seps
    ensures SplitOn(Join(parts, sep), seps) == parts
  {
    if |parts| == 1 {
      SplitNoSep(parts[0], seps);
    } else {
      assert parts[0] in parts;
      assert forall piece | piece in parts[1..] :: piece in parts;
      JoinSplit(parts[1..], sep, seps);
      SplitPrefix(parts[0], sep, seps, Join(parts[1..], sep));
      assert parts == [parts[0]] + parts[1..];
    }
  }

  /** The pieces hold exactly the non-separator characters. */
  lemma {:induction false} ConcatSplitOn(s: string, seps: set<char>)
    ensures Concat(SplitOn(s, seps)) == Without(s, seps)
  {
    if |s| > 0 {
      ConcatSplitOn(s[1..], seps);
      var rest := SplitOn(s[1..], seps);
      if s[0] in seps {
        assert ([""] + rest)[1..] == rest;
      } else {
        var r := [[s[0]] + rest[0]] + rest[1..];
        assert r[1..] == rest[1..];
        assert Concat(rest) == rest[0] + Concat(rest[1..]);
      }
    }
  }

  /** `str::lines`: the pieces between '\n', without the empty piece after a final '\n'. */
  function Lines(s: string): (r: seq<string>)
    ensures forall line | line in r :: '\n' !in line
    ensures Concat(r) == Without(s, {'\n'})
    ensures s == [] <==> r == []
  {
    var parts := Split(s, '\n');
    ConcatSplitOn(s, {'\n'});
    if parts[|parts| - 1] == "" then
      assert parts == parts[..|parts| - 1] + [parts[|parts| - 1]];
      ConcatAppend(parts[..|parts| - 1], [""]);
      LinesOfNonEmpty(s);
      parts[..|parts| - 1]
    else
      assert s != [];
      parts
  }

  /** The lines of newline-free pieces joined by '\n' are the pieces, less a final empty one. */
  lemma LinesJoin(parts: seq<string>)
    requires |parts| > 0
    requires forall piece | piece in parts :: '\n' !in piece
    ensures Lines(Join(parts, '\n')) == if parts[|parts| - 1] == "" then parts[..|parts| - 1] else parts
  {
    JoinSplit(parts, '\n', {'\n'});
  }

  /** A non-empty text has at least one line. */
  lemma LinesOfNonEmpty(s: string)
    ensures var parts := Split(s, '\n'); s != [] ==> |parts| > 1 || parts[0] != ""
  {
    if s == [] { return; }
    var rest := SplitOn(s[1..], {'\n'});
    if s[0] == '\n' {
      assert |[""] + rest| > 1;
    }
  }

  /** `str::split_once`: the text before and after the first occurrence of `sep`. */
  function SplitOnce(s: string, sep: char): (r: Option<(string, string)>)
    ensures r.None? <==> sep !in s
    ensures r.Some? ==> s == r.value.0 + [sep] + r.value.1 && sep !in r.value.0
  {
    if |s| == 0 then None
    else if s[0] == sep then Some(([], s[1..]))
    else match SplitOnce(s[1..], sep)
      case None => None
      case Some((before, after)) => Some(([s[0]] + before, after))
  }

  /** `str::split_ascii_whitespace`: the non-empty runs of non-whitespace characters. */
  function Tokens(s: string): (r: seq<string>)
    ensures forall token | token in r :: |token| > 0
    ensures forall token, c | token in r && c in token :: c !in AsciiWhitespace
    ensures Concat(r) == Without(s, AsciiWhitespace)
  {
    ConcatSplitOn(s, AsciiWhitespace);
    NonEmpty(SplitOn(s, AsciiWhitespace))
  }

  function NonEmpty(parts: seq<string>): (r: seq<string>)
    ensures forall piece | piece in r :: |piece| > 0 && piece in parts
    ensures Concat(r) == Concat(parts)
  {
    if parts == [] then []
    else if parts[0] == [] then NonEmpty(parts[1..])
    else [parts[0]] + NonEmpty(parts[1..])
  }

  // ---------------------------------------------------------------------------
  // Trimming
  // ---------------------------------------------------------------------------

  function TrimStart(s: string): (r: string)
    ensures |r| <= |s| && r == s[|s| - |r|..]
    ensures forall i | 0 <= i < |s| - |r| :: IsTrimmable(s[i])
    ensures |r| > 0 ==> !IsTrimmable(r[0])
    decreases |s|
  {
    if |s| > 0 && IsTrimmable(s[0]) then TrimStart(s[1..]) else s
  }

  function TrimEnd(s: string): (r: string)
    ensures |r| <= |s| && r == s[..|r|]
    ensures forall i | |r| <= i < |s| :: IsTrimmable(s[i])
    ensures |r| > 0 ==> !IsTrimmable(r[|r| - 1])
    decreases |s|
  {
    if |s| > 0 && IsTrimmable(s[|s| - 1]) then TrimEnd(s[..|s| - 1]) else s
  }

  /** `str::trim`: `s` without its leading and trailing whitespace. */
  function Trim(s: string): (r: string)
    ensures exists a, b | 0 <= a <= b <= |s| ::
      && r == s[a..b]
      && (forall i | 0 <= i < a :: IsTrimmable(s[i]))
      && (forall i | b <= i < |s| :: IsTrimmable(s[i]))
    ensures |r| > 0 ==> !IsTrimmable(r[0]) && !IsTrimmable(r[|r| - 1])
    ensures (forall i | 0 <= i < |s| :: IsTrimmable(s[i])) <==> r == []
  {
    TrimmedSlice(s, TrimStart(s), TrimEnd(TrimStart(s)));
    TrimEnd(TrimStart(s))
  }

  /**
   * Cutting a trimmable prefix off s, up to a character that is not
   * trimmable, and then a trimmable suffix off the rest in the same way,
   * leaves a slice of s that is empty exactly when all of s is trimmable.
   */
  lemma TrimmedSlice(s: string, t: string, r: string)
    requires |t| <= |s| && t == s[|s| - |t|..] && forall i | 0 <= i < |s| - |t| :: IsTrimmable(s[i])
    requires |t| > 0 ==> !IsTrimmable(t[0])
    requires |r| <= |t| && r == t[..|r|] && forall i | |r| <= i < |t| :: IsTrimmable(t[i])
    requires |r| > 0 ==> !IsTrimmable(r[|r| - 1])
    ensures exists a, b | 0 <= a <= b <= |s| ::
      && r == s[a..b]
      && (forall i | 0 <= i < a :: IsTrimmable(s[i]))
      && (forall i | b <= i < |s| :: IsTrimmable(s[i]))
    ensures |r| > 0 ==> !IsTrimmable(r[0]) && !IsTrimmable(r[|r| - 1])
    ensures (forall i | 0 <= i < |s| :: IsTrimmable(s[i])) <==> r == []
  {
    if r != [] {
      assert r[0] == t[0];
      assert s[|s| - |t|] == r[0];
    }
    var a := |s| - |t|;
    forall i | a + |r| <= i < |s| ensures IsTrimmable(s[i]) {
      assert s[i] == t[i - a];
    }
    assert r == s[a..a + |r|];
  }

  /** Text without whitespace at either end is its own trim. */
  lemma TrimUntrimmable(s: string)
    requires |s| > 0 ==> !IsTrimmable(s[0]) && !IsTrimmable(s[|s| - 1])
    ensures Trim(s) == s
  {
  }

  // ---------------------------------------------------------------------------
  // Decimal numbers
  // ---------------------------------------------------------------------------

  /** The number a digit string denotes, most significant digit first. */
  function DecimalValue(s: string): nat
    requires AllDigits(s)
  {
    if s == [] then 0 else DecimalValue(s[..|s| - 1]) * 10 + DigitValue(s[|s| - 1])
  }

  /** `str::parse::<u64>` on plain decimal digit strings (no sign, no width limit). */
  function ParseNat(s: string): (r: Option<nat>)
    ensures r.Some? <==> |s| > 0 && AllDigits(s)
  {
    if |s| > 0 && AllDigits(s) then Some(DecimalValue(s)) else None
  }

  /** `trim().parse()`: the number a text spells, whitespace around it ignored. */
  function ParseTrimmed(s: string): (r: Option<nat>)
    ensures r.Some? <==> |Trim(s)| > 0 && AllDigits(Trim(s))
  {
    ParseNat(Trim(s))
  }

  /** Each line through `parse`, in order, or None when one of them does not parse. */
  function ParseEach<T>(lines: seq<string>, parse: string -> Option<T>): (r: Option<seq<T>>)
    ensures r.Some? ==> |r.value| == |lines|
  {
    if lines == [] then Some([])
    else
      match (ParseEach(lines[..|lines| - 1], parse), parse(lines[|lines| - 1]))
      case (Some(values), Some(v)) => Some(values + [v])
      case _ => None
  }

  /** A prefix one element longer. */
  lemma TakeSnoc<T>(s: seq<T>, i: nat)
    requires i < |s|
    ensures s[..i + 1] == s[..i] + [s[i]]
  {
  }

  /** A slice one element longer. */
  lemma SliceSnoc<T>(s: seq<T>, lo: nat, hi: nat)
    requires lo <= hi < |s|
    ensures s[lo..hi + 1] == s[lo..hi] + [s[hi]]
  {
  }

  /** Lines that each parse to the value at their position parse to those values. */
  lemma ParseEachAll<T>(lines: seq<string>, values: seq<T>, parse: string -> Option<T>)
    requires |values| == |lines|
    requires forall k | 0 <= k < |lines| :: parse(lines[k]) == Some(values[k])
    ensures ParseEach(lines, parse) == Some(values)
  {
    ParseEachEach(lines, parse);
    var r := ParseEach(lines, parse).value;
    assert r == values;
  }

  /** ParseEach of one more line. */
  lemma ParseEachSnoc<T>(lines: seq<string>, line: string, parse: string -> Option<T>)
    ensures ParseEach(lines + [line], parse) ==
      match (ParseEach(lines, parse), parse(line))
      case (Some(values), Some(v)) => Some(values + [v])
      case _ => None
  {
    assert (lines + [line])[..|lines|] == lines;
  }

  /** ParseEach fails exactly when some line fails, and otherwise holds each line's value at its position. */
  lemma {:induction false} ParseEachEach<T>(lines: seq<string>, parse: string -> Option<T>)
    ensures ParseEach(lines, parse).None? <==> exists k | 0 <= k < |lines| :: parse(lines[k]).None?
    ensures ParseEach(lines, parse).Some? ==>
      forall k | 0 <= k < |lines| :: parse(lines[k]) == Some(ParseEach(lines, parse).value[k])
  {
    if lines != [] {
      var init := lines[..|lines| - 1];
      ParseEachEach(init, parse);
      assert forall k | 0 <= k < |init| :: init[k] == lines[k];
    }
  }

  /** `u64::to_string`: the decimal digits of `n` without leading zeros. */
  function NatToString(n: nat): (s: string)
    ensures |s| > 0 && AllDigits(s)
    ensures |s| > 1 ==> s[0] != '0'
  {
    if n < 10 then [DigitChar(n)] else NatToString(n / 10) + [DigitChar(n % 10)]
  }

  /** Printing a number and parsing it back gives the number. */
  lemma {:induction false} ParseNatToString(n: nat)
    ensures ParseNat(NatToString(n)) == Some(n)
  {
    if n >= 10 {
      ParseNatToString(n / 10);
      var s := NatToString(n);
      assert s[..|s| - 1] == NatToString(n / 10);
      assert DecimalValue(s) == DecimalValue(NatToString(n / 10)) * 10 + n % 10;
    }
  }
}
