/** Day 4 of 2022, "Camp Cleanup": every line names two section ranges as
    `a-b,c-d`; part 1 counts the lines where one range contains the other,
    part 2 the lines where they overlap at all. */
module Day04CampCleanup {
  import opened Outcomes
  import opened Text

  /** A range of section IDs, both ends included; the source keeps them as
      `u64`. */
  datatype Range = Range(l: nat, r: nat)

  type Pair = (Range, Range)

  function CantParse(s: string): string {
    "Can't parse line " + s
  }

  const BadInt := "Failed to parse int"

  // The pattern `(\d+)-(\d+),(\d+)-(\d+)`, searched anywhere in the line.

  /** The four digit strings the pattern's groups capture. */
  datatype Captures = Captures(a: string, b: string, c: string, d: string)

  /** `d`, the separator `sep`, then `rest`. */
  function Joined(d: string, sep: char, rest: string): string {
    d + ([sep] + rest)
  }

  /** The text a match covers. */
  function Shape(c: Captures): string {
    Joined(c.a, '-', Joined(c.b, ',', Joined(c.c, '-', c.d)))
  }

  predicate Wellformed(c: Captures) {
    && c.a != [] && AllDigits(c.a) && c.b != [] && AllDigits(c.b)
    && c.c != [] && AllDigits(c.c) && c.d != [] && AllDigits(c.d)
  }

  /** A group that a separator follows: the run of digits that starts `t`,
      if it is not empty and `sep` comes right after it, and the text after
      the separator. */
  function Group(t: string, sep: char): Option<(string, string)> {
    var (d, rest) := TakeDigits(t);
    if d == [] || rest == [] || rest[0] != sep then None else Some((d, rest[1..]))
  }

  /** The match of the pattern at the start of `t`. A separator is not a
      digit, so each group but the last takes the whole run of digits, and
      the last group is greedy. */
  function MatchPrefix(t: string): Option<Captures> {
    match Group(t, '-')
    case None => None
    case Some((a, t1)) =>
      match Group(t1, ',')
      case None => None
      case Some((b, t2)) =>
        match Group(t2, '-')
        case None => None
        case Some((c, t3)) =>
          var d := TakeDigits(t3).0;
          if d == [] then None else Some(Captures(a, b, c, d))
  }

  /** The match of the pattern that starts at `i`; none starts past the
      end. */
  function MatchAt(s: string, i: nat): Option<Captures> {
    if |s| < i then None else MatchPrefix(s[i..])
  }

  /** A group read off `Joined(d, sep, rest)` is `d`, and reading goes on
      with `rest`. */
  lemma GroupOf(d: string, sep: char, rest: string)
    requires d != [] && AllDigits(d) && !IsDigit(sep)
    ensures Group(Joined(d, sep, rest), sep) == Some((d, rest))
  {
    TakeDigitsOfDecimal(d, [sep] + rest);
    assert ([sep] + rest)[1..] == rest;
  }

  /** The text a group was read from is the group, its separator and the
      text after it. */
  lemma GroupReads(t: string, sep: char)
    requires Group(t, sep).Some?
    ensures Group(t, sep).value.0 != [] && AllDigits(Group(t, sep).value.0)
    ensures t == Joined(Group(t, sep).value.0, sep, Group(t, sep).value.1)
  {
    var (d, r) := TakeDigits(t);
    assert r == [sep] + r[1..];
  }

  /** Text after a shape extends its last group. */
  lemma ShapeThen(c: Captures, rest: string)
    ensures Shape(c) + rest == Joined(c.a, '-', Joined(c.b, ',', Joined(c.c, '-', c.d + rest)))
  {
    var x3 := Joined(c.c, '-', c.d);
    var x2 := Joined(c.b, ',', x3);
    assert x3 + rest == Joined(c.c, '-', c.d + rest);
    assert x2 + rest == Joined(c.b, ',', x3 + rest);
    assert Shape(c) + rest == Joined(c.a, '-', x2 + rest);
  }

  /** A match at the start of `t` captures four runs of digits, and `t` is
      its shape followed by text that does not start with a digit. */
  lemma MatchPrefixReads(t: string)
    requires MatchPrefix(t).Some?
    ensures var c := MatchPrefix(t).value;
      && Wellformed(c)
      && |Shape(c)| <= |t| && t == Shape(c) + t[|Shape(c)|..]
      && (|Shape(c)| < |t| ==> !IsDigit(t[|Shape(c)|]))
  {
    var c := MatchPrefix(t).value;
    GroupReads(t, '-');
    var t1 := Group(t, '-').value.1;
    GroupReads(t1, ',');
    var t2 := Group(t1, ',').value.1;
    GroupReads(t2, '-');
    var t3 := Group(t2, '-').value.1;
    var rest := TakeDigits(t3).1;
    ShapeThen(c, rest);
    assert t == Shape(c) + rest;
    assert t[|Shape(c)|..] == rest;
  }

  /** Wherever the shape of four runs of digits starts a text, followed by
      something other than a digit, the pattern matches there. */
  lemma MatchesShape(c: Captures, rest: string)
    requires Wellformed(c)
    requires rest != [] ==> !IsDigit(rest[0])
    ensures MatchPrefix(Shape(c) + rest) == Some(c)
  {
    ShapeThen(c, rest);
    GroupOf(c.a, '-', Joined(c.b, ',', Joined(c.c, '-', c.d + rest)));
    GroupOf(c.b, ',', Joined(c.c, '-', c.d + rest));
    GroupOf(c.c, '-', c.d + rest);
    TakeDigitsOfDecimal(c.d, rest);
  }

  /** A match at `i` starts with a run of digits and a `'-'`. */
  lemma MatchAtDash(s: string, i: nat)
    ensures MatchAt(s, i).Some? ==>
      i + |MatchAt(s, i).value.a| < |s| && s[i + |MatchAt(s, i).value.a|] == '-'
  {
    if MatchAt(s, i).Some? {
      var t := s[i..];
      GroupReads(t, '-');
      var a := Group(t, '-').value.0;
      assert t[|a|] == '-';
    }
  }

  /** The leftmost position at or after `i` where `matcher` finds a match,
      and that match. */
  function FirstMatch(s: string, i: nat, matcher: (string, nat) -> Option<Captures>): Option<Captures>
    requires i <= |s|
    decreases |s| - i
  {
    if matcher(s, i).Some? then matcher(s, i)
    else if i == |s| then None
    else FirstMatch(s, i + 1, matcher)
  }

  /** `FirstMatch` reports the match at the first position where there is
      one, and nothing exactly when there is none. */
  lemma {:induction false} FirstMatchLeftmost(s: string, i: nat, matcher: (string, nat) -> Option<Captures>)
    requires i <= |s|
    ensures FirstMatch(s, i, matcher).None? <==> forall j :: i <= j <= |s| ==> matcher(s, j).None?
    ensures FirstMatch(s, i, matcher).Some? ==>
      exists j :: i <= j <= |s| && matcher(s, j) == FirstMatch(s, i, matcher) && forall j' :: i <= j' < j ==> matcher(s, j').None?
    decreases |s| - i
  {
    if matcher(s, i).None? && i < |s| {
      FirstMatchLeftmost(s, i + 1, matcher);
      if FirstMatch(s, i, matcher).Some? {
        var j :| i + 1 <= j <= |s| && matcher(s, j) == FirstMatch(s, i, matcher) && forall j' :: i + 1 <= j' < j ==> matcher(s, j').None?;
        assert forall j' :: i <= j' < j ==> matcher(s, j').None?;
      }
    }
  }

  /** `Regex::captures`: the leftmost match in the line. */
  function Find(s: string): Option<Captures> {
    FirstMatch(s, 0, MatchAt)
  }

  /** `parse_line`: the four captured numbers, read as `u64`. */
  function ParseLine(s: string): (r: Answer<Pair>)
    ensures r.Ok? ==> r.value.0.l <= U64_MAX && r.value.0.r <= U64_MAX
    ensures r.Ok? ==> r.value.1.l <= U64_MAX && r.value.1.r <= U64_MAX
  {
    match Find(s)
    case None => Err(CantParse(s))
    case Some(c) =>
      var a, b, c', d := ParseU64(c.a), ParseU64(c.b), ParseU64(c.c), ParseU64(c.d);
      if a.Err? || b.Err? || c'.Err? || d.Err? then Err(BadInt)
      else Ok((Range(a.value, b.value), Range(c'.value, d.value)))
  }

  /** What `parse_line` reads: with the leftmost match, the values of its four
      runs of digits when all fit in 64 bits, "Failed to parse int" when one
      does not, and "Can't parse line" when nothing matches. */
  lemma ParseLineReads(s: string)
    ensures ParseLine(s) == Err(CantParse(s)) <==> forall j :: 0 <= j <= |s| ==> MatchAt(s, j).None?
    ensures ParseLine(s).Ok? ==>
      exists j :: 0 <= j <= |s| && MatchAt(s, j).Some? && var c := MatchAt(s, j).value;
        && Wellformed(c)
        && ParseLine(s).value == (Range(DecimalValue(c.a), DecimalValue(c.b)), Range(DecimalValue(c.c), DecimalValue(c.d)))
  {
    FirstMatchLeftmost(s, 0, MatchAt);
    if Find(s).Some? {
      var j :| 0 <= j <= |s| && MatchAt(s, j) == Find(s) && forall j' :: 0 <= j' < j ==> MatchAt(s, j').None?;
      var c := Find(s).value;
      MatchPrefixReads(s[j..]);
      ParseU64Reads(c.a);
      ParseU64Reads(c.b);
      ParseU64Reads(c.c);
      ParseU64Reads(c.d);
      assert BadInt != CantParse(s) by {
        assert BadInt[0] != CantParse(s)[0];
      }
    }
  }

  /** A line without a `'-'` never parses. */
  lemma NoDashCantParse(s: string)
    requires forall k :: 0 <= k < |s| ==> s[k] != '-'
    ensures ParseLine(s) == Err(CantParse(s))
  {
    ParseLineReads(s);
    forall j | 0 <= j <= |s|
      ensures MatchAt(s, j).None?
    {
      MatchAtDash(s, j);
    }
  }

  /** The line the puzzle writes for a pair of ranges. */
  function Format(p: Pair): string {
    Shape(Captures(Decimal(p.0.l), Decimal(p.0.r), Decimal(p.1.l), Decimal(p.1.r)))
  }

  /** Reading back a pair of 64-bit ranges gives the same ranges. */
  lemma ParseFormat(p: Pair)
    requires p.0.l <= U64_MAX && p.0.r <= U64_MAX && p.1.l <= U64_MAX && p.1.r <= U64_MAX
    ensures ParseLine(Format(p)) == Ok(p)
  {
    var c := Captures(Decimal(p.0.l), Decimal(p.0.r), Decimal(p.1.l), Decimal(p.1.r));
    var s := Format(p);
    MatchesShape(c, []);
    assert s + [] == s && s[0..] == s;
    DecimalRoundTrip(p.0.l);
    DecimalRoundTrip(p.0.r);
    DecimalRoundTrip(p.1.l);
    DecimalRoundTrip(p.1.r);
    ParseU64Reads(c.a);
    ParseU64Reads(c.b);
    ParseU64Reads(c.c);
    ParseU64Reads(c.d);
  }

  // The two questions asked of a pair.

  /** Section `k` lies in range `x`. */
  predicate Covers(x: Range, k: int) {
    x.l <= k <= x.r
  }

  /** A range that holds at least one section. */
  predicate Proper(x: Range) {
    x.l <= x.r
  }

  /** The part 1 question: one range fully contains the other. */
  predicate EitherContains(a: Range, b: Range) {
    (a.l >= b.l && a.r <= b.r) || (b.l >= a.l && b.r <= a.r)
  }

  /** The part 2 question: the ranges overlap at all. */
  predicate Overlaps(a: Range, b: Range) {
    !(a.r < b.l || a.l > b.r)
  }

  /** Neither question depends on the order of the two ranges. */
  lemma Symmetric(a: Range, b: Range)
    ensures EitherContains(a, b) <==> EitherContains(b, a)
    ensures Overlaps(a, b) <==> Overlaps(b, a)
  {
  }

  /** For proper ranges, containment is containment of the sets of
      sections. */
  lemma ContainsMeans(a: Range, b: Range)
    requires Proper(a) && Proper(b)
    ensures EitherContains(a, b) <==>
      (forall k :: Covers(b, k) ==> Covers(a, k)) || (forall k :: Covers(a, k) ==> Covers(b, k))
  {
    if forall k :: Covers(b, k) ==> Covers(a, k) {
      assert Covers(b, b.l) && Covers(b, b.r);
    }
    if forall k :: Covers(a, k) ==> Covers(b, k) {
      assert Covers(a, a.l) && Covers(a, a.r);
    }
  }

  /** For proper ranges, overlapping is sharing a section. */
  lemma OverlapsMeans(a: Range, b: Range)
    requires Proper(a) && Proper(b)
    ensures Overlaps(a, b) <==> exists k :: Covers(a, k) && Covers(b, k)
  {
    if Overlaps(a, b) {
      var k := if a.l < b.l then b.l else a.l;
      assert Covers(a, k) && Covers(b, k);
    }
  }

  /** A proper range contained in another overlaps it. */
  lemma ContainsOverlaps(a: Range, b: Range)
    requires Proper(a) && Proper(b) && EitherContains(a, b)
    ensures Overlaps(a, b)
  {
    ContainsMeans(a, b);
    OverlapsMeans(a, b);
    if forall k :: Covers(b, k) ==> Covers(a, k) {
      assert Covers(a, b.l) && Covers(b, b.l);
    } else {
      assert Covers(a, a.l) && Covers(b, a.l);
    }
  }

  // The counting loop.

  /** The closure `parse` is given. */
  type Policy = (Range, Range) -> bool

  /** How a trimmed, non-blank line is read; the solver reads lines with
      `ParseLine`, and the counting below holds for any reader. */
  type Reader = string -> Answer<Pair>

  /** The part 1 closure. */
  function Part1Policy(a: Range, b: Range): bool {
    EitherContains(a, b)
  }

  /** The part 2 closure. */
  function Part2Policy(a: Range, b: Range): bool {
    Overlaps(a, b)
  }

  /** What `parse` returns for the lines: blank lines are skipped, the first
      line that does not parse ends it with that error. */
  function Counted(lines: seq<string>, read: Reader, policy: Policy): Answer<nat> {
    if lines == [] then Ok(0)
    else
      var line := Trim(lines[0]);
      if line == [] then Counted(lines[1..], read, policy)
      else match read(line)
        case Err(e) => Err(e)
        case Ok(p) => AddTo(if policy(p.0, p.1) then 1 else 0, Counted(lines[1..], read, policy))
  }

  /** `parse`: counts the lines whose ranges satisfy `policy`. */
  method Count(lines: seq<string>, read: Reader, policy: Policy) returns (r: Answer<nat>)
    ensures r == Counted(lines, read, policy)
  {
    var count: nat := 0;
    for i := 0 to |lines|
      invariant Counted(lines, read, policy) == AddTo(count, Counted(lines[i..], read, policy))
    {
      assert lines[i..][1..] == lines[i + 1..];
      var line := Trim(lines[i]);
      if line == [] {
        continue;
      }
      var parsed := read(line);
      if parsed.Err? {
        return Err(parsed.error);
      }
      var (a, b) := parsed.value;
      if policy(a, b) {
        count := count + 1;
      }
    }
    assert lines[|lines|..] == [];
    r := Ok(count);
  }

  method Part1(lines: seq<string>) returns (r: Answer<nat>)
    ensures r == Counted(lines, ParseLine, Part1Policy)
  {
    r := Count(lines, ParseLine, Part1Policy);
  }

  method Part2(lines: seq<string>) returns (r: Answer<nat>)
    ensures r == Counted(lines, ParseLine, Part2Policy)
  {
    r := Count(lines, ParseLine, Part2Policy);
  }

  // The reference: parse every line, then count.

  /** The pairs of the non-blank lines, or the first line's error. */
  function Parsed(lines: seq<string>, read: Reader): Answer<seq<Pair>> {
    if lines == [] then Ok([])
    else
      var line := Trim(lines[0]);
      if line == [] then Parsed(lines[1..], read)
      else match read(line)
        case Err(e) => Err(e)
        case Ok(p) =>
          match Parsed(lines[1..], read)
          case Err(e) => Err(e)
          case Ok(ps) => Ok([p] + ps)
  }

  /** The pairs that satisfy `policy`. */
  function CountWhere(ps: seq<Pair>, policy: Policy): (n: nat)
    ensures n <= |ps|
  {
    if ps == [] then 0 else (if policy(ps[0].0, ps[0].1) then 1 else 0) + CountWhere(ps[1..], policy)
  }

  /** Counting fails exactly when parsing fails, whatever the policy; and
      otherwise it counts the pairs of the non-blank lines that satisfy the
      policy, one pair per non-blank line. */
  lemma {:induction false} CountedIsParsed(lines: seq<string>, read: Reader, policy: Policy)
    ensures Parsed(lines, read).Err? ==> Counted(lines, read, policy) == Err(Parsed(lines, read).error)
    ensures Parsed(lines, read).Ok? ==>
      && |Parsed(lines, read).value| == NonBlankCount(lines)
      && Counted(lines, read, policy) == Ok(CountWhere(Parsed(lines, read).value, policy))
  {
    if lines != [] {
      CountedIsParsed(lines[1..], read, policy);
      if Parsed(lines, read).Ok? && !IsBlank(lines[0]) {
        var ps := Parsed(lines, read).value;
        assert ps[1..] == Parsed(lines[1..], read).value;
      }
    }
  }

  /** A policy that holds wherever another holds counts at least as many
      pairs. */
  lemma {:induction false} CountWhereMonotone(ps: seq<Pair>, p: Policy, q: Policy)
    requires forall k :: 0 <= k < |ps| ==> p(ps[k].0, ps[k].1) ==> q(ps[k].0, ps[k].1)
    ensures CountWhere(ps, p) <= CountWhere(ps, q)
  {
    if ps != [] {
      assert forall k :: 0 <= k < |ps[1..]| ==> ps[1..][k] == ps[k + 1];
      CountWhereMonotone(ps[1..], p, q);
      assert p(ps[0].0, ps[0].1) ==> q(ps[0].0, ps[0].1);
    }
  }

  /** When every range is proper, part 1 counts no more lines than part 2,
      and either fails exactly when the other does. */
  lemma Part1AtMostPart2(lines: seq<string>)
    requires Parsed(lines, ParseLine).Ok?
    requires forall k :: 0 <= k < |Parsed(lines, ParseLine).value| ==>
      Proper(Parsed(lines, ParseLine).value[k].0) && Proper(Parsed(lines, ParseLine).value[k].1)
    ensures Counted(lines, ParseLine, Part1Policy).Ok? && Counted(lines, ParseLine, Part2Policy).Ok?
    ensures Counted(lines, ParseLine, Part1Policy).value <= Counted(lines, ParseLine, Part2Policy).value
  {
    var ps := Parsed(lines, ParseLine).value;
    CountedIsParsed(lines, ParseLine, Part1Policy);
    CountedIsParsed(lines, ParseLine, Part2Policy);
    forall k | 0 <= k < |ps|
      ensures Part1Policy(ps[k].0, ps[k].1) ==> Part2Policy(ps[k].0, ps[k].1)
    {
      if EitherContains(ps[k].0, ps[k].1) {
        ContainsOverlaps(ps[k].0, ps[k].1);
      }
    }
    CountWhereMonotone(ps, Part1Policy, Part2Policy);
  }

  // The puzzle's published example.

  function SampleInput(): seq<string> {
    ["2-4,6-8", "2-3,4-5", "5-7,7-9", "2-8,3-7", "6-6,4-6", "2-6,4-8"]
  }

  function SamplePairs(): seq<Pair> {
    [ (Range(2, 4), Range(6, 8)), (Range(2, 3), Range(4, 5)), (Range(5, 7), Range(7, 9)),
      (Range(2, 8), Range(3, 7)), (Range(6, 6), Range(4, 6)), (Range(2, 6), Range(4, 8)) ]
  }

  /** Lines that each read as the matching pair, with nothing to trim, are
      read as those pairs. */
  lemma {:induction false} ParsedAll(lines: seq<string>, ps: seq<Pair>, read: Reader)
    requires |lines| == |ps|
    requires forall k :: 0 <= k < |lines| ==> lines[k] != [] && Trim(lines[k]) == lines[k] && read(lines[k]) == Ok(ps[k])
    ensures Parsed(lines, read) == Ok(ps)
  {
    if lines != [] {
      ParsedAll(lines[1..], ps[1..], read);
      assert ps == [ps[0]] + ps[1..];
    }
  }

  /** A shape starts and ends with a digit. */
  lemma ShapeEnds(c: Captures)
    requires Wellformed(c)
    ensures IsDigit(Shape(c)[0]) && IsDigit(Shape(c)[|Shape(c)| - 1])
  {
    var x3 := Joined(c.c, '-', c.d);
    var x2 := Joined(c.b, ',', x3);
    assert x3[|x3| - 1] == c.d[|c.d| - 1];
    assert x2[|x2| - 1] == x3[|x3| - 1];
    assert Shape(c)[|Shape(c)| - 1] == x2[|x2| - 1];
    assert Shape(c)[0] == c.a[0];
  }

  /** The line written for a pair of 64-bit ranges has nothing to trim and
      is read back as the pair. */
  lemma FormatReads(p: Pair)
    requires p.0.l <= U64_MAX && p.0.r <= U64_MAX && p.1.l <= U64_MAX && p.1.r <= U64_MAX
    ensures Format(p) != [] && Trim(Format(p)) == Format(p) && ParseLine(Format(p)) == Ok(p)
  {
    var c := Captures(Decimal(p.0.l), Decimal(p.0.r), Decimal(p.1.l), Decimal(p.1.r));
    ParseFormat(p);
    ShapeEnds(c);
    TrimKeeps(Format(p));
  }

  /** Lines that are the lines written for pairs of single-digit ranges
      are read as those pairs. */
  lemma ParsedFormatted(lines: seq<string>, ps: seq<Pair>)
    requires |lines| == |ps|
    requires forall k :: 0 <= k < |ps| ==>
      ps[k].0.l < 10 && ps[k].0.r < 10 && ps[k].1.l < 10 && ps[k].1.r < 10 && lines[k] == Format(ps[k])
    ensures Parsed(lines, ParseLine) == Ok(ps)
  {
    forall k | 0 <= k < |lines|
      ensures lines[k] != [] && Trim(lines[k]) == lines[k] && ParseLine(lines[k]) == Ok(ps[k])
    {
      FormatReads(ps[k]);
    }
    ParsedAll(lines, ps, ParseLine);
  }

  /** The character of a single decimal digit. */
  function Digit(n: nat): char
    requires n < 10
  {
    ('0' as int + n) as char
  }

  /** The line written for ranges of single digits is seven characters. */
  lemma FormatDigits(p: Pair)
    requires p.0.l < 10 && p.0.r < 10 && p.1.l < 10 && p.1.r < 10
    ensures Format(p) == [Digit(p.0.l), '-', Digit(p.0.r), ',', Digit(p.1.l), '-', Digit(p.1.r)]
  {
  }

  /** The example's lines are the lines written for its pairs. */
  lemma SampleFormatted()
    ensures |SampleInput()| == |SamplePairs()|
    ensures forall k :: 0 <= k < |SamplePairs()| ==>
      var p := SamplePairs()[k];
      p.0.l < 10 && p.0.r < 10 && p.1.l < 10 && p.1.r < 10 && SampleInput()[k] == Format(p)
  {
    var ls, ps := SampleInput(), SamplePairs();
    forall k | 0 <= k < |ps|
      ensures ps[k].0.l < 10 && ps[k].0.r < 10 && ps[k].1.l < 10 && ps[k].1.r < 10 && ls[k] == Format(ps[k])
    {
      FormatDigits(ps[k]);
    }
  }

  /** The example reads as its six pairs. */
  lemma SampleParses()
    ensures Parsed(SampleInput(), ParseLine) == Ok(SamplePairs())
  {
    SampleFormatted();
    ParsedFormatted(SampleInput(), SamplePairs());
  }

  /** One range contains the other in 2 of the example's pairs. */
  lemma SampleContains()
    ensures CountWhere(SamplePairs(), Part1Policy) == 2
  {
    var ps := SamplePairs();
    assert CountWhere(ps[5..], Part1Policy) == 0;
    assert CountWhere(ps[4..], Part1Policy) == 1;
    assert CountWhere(ps[3..], Part1Policy) == 2;
  }

  /** The ranges overlap in 4 of the example's pairs. */
  lemma SampleOverlaps()
    ensures CountWhere(SamplePairs(), Part2Policy) == 4
  {
    var ps := SamplePairs();
    assert CountWhere(ps[5..], Part2Policy) == 1;
    assert CountWhere(ps[4..], Part2Policy) == 2;
    assert CountWhere(ps[3..], Part2Policy) == 3;
    assert CountWhere(ps[2..], Part2Policy) == 4;
  }

  /** Lines read as the example's pairs: one range contains the other in 2
      of them, and the ranges overlap in 4. */
  lemma SampleCountsOf(lines: seq<string>)
    requires Parsed(lines, ParseLine) == Ok(SamplePairs())
    ensures Counted(lines, ParseLine, Part1Policy) == Ok(2)
    ensures Counted(lines, ParseLine, Part2Policy) == Ok(4)
  {
    CountedIsParsed(lines, ParseLine, Part1Policy);
    CountedIsParsed(lines, ParseLine, Part2Policy);
    SampleContains();
    SampleOverlaps();
  }

  /** In the example, one range contains the other in 2 lines, and the
      ranges overlap in 4. */
  lemma SampleCounts()
    ensures Counted(SampleInput(), ParseLine, Part1Policy) == Ok(2)
    ensures Counted(SampleInput(), ParseLine, Part2Policy) == Ok(4)
  {
    SampleParses();
    SampleCountsOf(SampleInput());
  }
}
