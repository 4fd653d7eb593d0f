/** Day 5, "Supply Stacks": a drawing of crate stacks and a list of crane
    moves are read by a small combinator grammar, the drawing is turned into
    one stack per column, and the moves are replayed with a crane that lifts
    one crate at a time (part 1) or several at once (part 2). */
module Day05CrateYard {
  import opened Outcomes
  import opened Text

  // ---------------------------------------------------------------------
  // The grammar. Every parser returns the value it read and the input that
  // follows it, or `None` where the nom parser reports an error.
  // ---------------------------------------------------------------------

  /** A parser that only ever consumes input. */
  ghost predicate Consumes<T>(item: string -> Option<(T, string)>) {
    forall s :: item(s).Some? ==> |item(s).value.1| <= |s|
  }

  /** How a slot of the drawing is written: a crate `[c]` or three spaces. */
  function CrateText(slot: Option<char>): string {
    match slot
    case Some(c) => ['[', c, ']']
    case None => "   "
  }

  /** `one_crate`: `[`, any character, `]` gives that crate; three spaces give
      an empty slot. What it consumes is exactly the text of the slot it
      returns. */
  function OneCrate(s: string): (r: Option<(Option<char>, string)>)
    ensures r.Some? ==> CrateText(r.value.0) + r.value.1 == s
    ensures r.Some? ==> |r.value.1| <= |s|
  {
    if |s| >= 3 && s[0] == '[' && s[2] == ']' then
      assert CrateText(Some(s[1])) + s[3..] == s[..3] + s[3..];
      Some((Some(s[1]), s[3..]))
    else if |s| >= 3 && s[..3] == "   " then
      assert s[..3] + s[3..] == s;
      Some((None, s[3..]))
    else None
  }

  /** `separated_list1(sep, item)`: one item, then as many `sep item` as
      follow; a separator not followed by an item is left unconsumed. */
  function SepList1<T>(sep: char, item: string -> Option<(T, string)>, s: string): (r: Option<(seq<T>, string)>)
    requires Consumes(item)
    ensures r.Some? ==> |r.value.0| >= 1 && |r.value.1| <= |s|
    ensures r.None? <==> item(s).None?
  {
    match item(s)
    case None => None
    case Some(first) =>
      var more := SepTail(sep, item, first.1);
      Some(([first.0] + more.0, more.1))
  }

  /** The `(sep item)*` part of `separated_list1`. */
  function SepTail<T>(sep: char, item: string -> Option<(T, string)>, s: string): (r: (seq<T>, string))
    requires Consumes(item)
    ensures |r.1| <= |s|
    ensures r.0 == [] <==> r.1 == s
    decreases |s|
  {
    if s != [] && s[0] == sep && item(s[1..]).Some? then
      var next := item(s[1..]).value;
      var more := SepTail(sep, item, next.1);
      ([next.0] + more.0, more.1)
    else ([], s)
  }

  /** A separated list cannot go on at `rest`: no separator there, or none
      followed by an item. */
  predicate StopsAt<T>(sep: char, item: string -> Option<(T, string)>, rest: string) {
    !(rest != [] && rest[0] == sep && item(rest[1..]).Some?)
  }

  /** The text of a non-empty list of items separated by `sep`. */
  function Joined<T>(sep: char, show: T -> string, xs: seq<T>): string
    requires xs != []
  {
    show(xs[0]) + Separated(sep, show, xs[1..])
  }

  /** Each item preceded by `sep`. */
  function Separated<T>(sep: char, show: T -> string, xs: seq<T>): string {
    if xs == [] then [] else [sep] + show(xs[0]) + Separated(sep, show, xs[1..])
  }

  /** Reading back a separated list: every item is read back from its text
      when what follows it is `ok`, every separator makes what follows `ok`,
      and the list stops at `rest`. */
  lemma {:induction false} SepTailRoundTrip<T>(sep: char, item: string -> Option<(T, string)>, show: T -> string,
                                               good: T -> bool, ok: string -> bool, xs: seq<T>, rest: string)
    requires Consumes(item)
    requires forall x, t :: good(x) && ok(t) ==> item(show(x) + t) == Some((x, t))
    requires forall t :: t != [] && t[0] == sep ==> ok(t)
    requires forall k :: 0 <= k < |xs| ==> good(xs[k])
    requires ok(rest) && StopsAt(sep, item, rest)
    ensures SepTail(sep, item, Separated(sep, show, xs) + rest) == (xs, rest)
    decreases |xs|
  {
    var s := Separated(sep, show, xs) + rest;
    if xs != [] {
      var after := Separated(sep, show, xs[1..]) + rest;
      SepTailRoundTrip(sep, item, show, good, ok, xs[1..], rest);
      assert ok(after) by {
        if xs[1..] != [] {
          assert after[0] == sep;
        }
      }
      SeparatedStep(sep, show, xs, rest);
      assert item(s[1..]) == Some((xs[0], after));
      assert [xs[0]] + xs[1..] == xs;
    } else {
      assert s == rest;
    }
  }

  lemma SeparatedStep<T>(sep: char, show: T -> string, xs: seq<T>, rest: string)
    requires xs != []
    ensures var s := Separated(sep, show, xs) + rest;
      s != [] && s[0] == sep && s[1..] == show(xs[0]) + (Separated(sep, show, xs[1..]) + rest)
  {
    var a, b := show(xs[0]), Separated(sep, show, xs[1..]);
    var t := a + (b + rest);
    calc {
      Separated(sep, show, xs) + rest;
      ([sep] + a + b) + rest;
      { assert [sep] + a + b == [sep] + (a + b); }
      ([sep] + (a + b)) + rest;
      [sep] + ((a + b) + rest);
      { assert (a + b) + rest == t; }
      [sep] + t;
    }
    assert ([sep] + t)[1..] == t;
  }

  /** `separated_list1` reads back a printed list the same way. */
  lemma SepListRoundTrip<T>(sep: char, item: string -> Option<(T, string)>, show: T -> string,
                            good: T -> bool, ok: string -> bool, xs: seq<T>, rest: string)
    requires Consumes(item)
    requires forall x, t :: good(x) && ok(t) ==> item(show(x) + t) == Some((x, t))
    requires forall t :: t != [] && t[0] == sep ==> ok(t)
    requires xs != [] && forall k :: 0 <= k < |xs| ==> good(xs[k])
    requires ok(rest) && StopsAt(sep, item, rest)
    ensures SepList1(sep, item, Joined(sep, show, xs) + rest) == Some((xs, rest))
  {
    var after := Separated(sep, show, xs[1..]) + rest;
    var s := Joined(sep, show, xs) + rest;
    assert s == show(xs[0]) + after;
    SepTailRoundTrip(sep, item, show, good, ok, xs[1..], rest);
    assert ok(after) by {
      if xs[1..] != [] {
        SeparatedStep(sep, show, xs[1..], rest);
      }
    }
    assert item(s) == Some((xs[0], after));
    assert SepList1(sep, item, s) == Some(([xs[0]] + xs[1..], rest));
    assert [xs[0]] + xs[1..] == xs;
  }

  /** `tag(t)`: the input after `t`, if it starts with `t`. */
  function Tag(t: string, s: string): (r: Option<string>)
    ensures r.Some? <==> |t| <= |s| && s[..|t|] == t
    ensures r.Some? ==> t + r.value == s
  {
    if |t| <= |s| && s[..|t|] == t then
      assert s[..|t|] + s[|t|..] == s;
      Some(s[|t|..])
    else None
  }

  lemma TagOf(t: string, rest: string)
    ensures Tag(t, t + rest) == Some(rest)
  {
    assert (t + rest)[..|t|] == t;
    assert (t + rest)[|t|..] == rest;
  }

  /** `stacks` reads one row of the drawing: slots separated by single
      spaces. */
  function Row(s: string): (r: Option<(seq<Option<char>>, string)>)
    ensures r.Some? ==> r.value.0 != [] && |r.value.1| <= |s|
  {
    SepList1(' ', OneCrate, s)
  }

  /** `stacks`: rows of the drawing, one per line. */
  function Drawing(s: string): (r: Option<(seq<seq<Option<char>>>, string)>)
    ensures r.Some? ==> r.value.0 != [] && |r.value.1| <= |s|
    ensures r.Some? ==> forall k :: 0 <= k < |r.value.0| ==> r.value.0[k] != []
  {
    var rows := SepList1('\n', Row, s);
    if rows.Some? then
      RowsNonEmpty(s, rows.value.0);
      rows
    else rows
  }

  lemma RowsNonEmpty(s: string, rows: seq<seq<Option<char>>>)
    requires SepList1('\n', Row, s).Some? && rows == SepList1('\n', Row, s).value.0
    ensures forall k :: 0 <= k < |rows| ==> rows[k] != []
  {
    var first := Row(s).value;
    TailItems('\n', first.1);
  }

  /** Every item of a separated list passed the item parser. */
  lemma {:induction false} TailItems(sep: char, s: string)
    ensures forall k :: 0 <= k < |SepTail(sep, Row, s).0| ==> SepTail(sep, Row, s).0[k] != []
    decreases |s|
  {
    if s != [] && s[0] == sep && Row(s[1..]).Some? {
      TailItems(sep, Row(s[1..]).value.1);
    }
  }

  predicate IsLabelChar(c: char) {
    c == ' ' || IsDigit(c)
  }

  /** `take_while(|c| matches!(c, ' ' | '0'..='9'))` on the line of stack
      numbers: what follows the numbers. */
  function SkipLabel(s: string): (r: string)
    ensures |r| <= |s|
    ensures forall k :: 0 <= k < |s| - |r| ==> IsLabelChar(s[k])
    ensures r != [] ==> !IsLabelChar(r[0])
  {
    if s != [] && IsLabelChar(s[0]) then SkipLabel(s[1..]) else s
  }

  datatype Move = Move(count: nat, from: nat, to: nat)

  /** `number`: a run of digits read as a `usize`. */
  function Number(s: string): (r: Option<(nat, string)>)
    ensures r.Some? ==> r.value.0 <= USIZE_MAX && |r.value.1| <= |s| && |r.value.1| < |s|
  {
    var d := TakeDigits(s);
    match ParseDigits(d.0)
    case Err(_) => None
    case Ok(n) => Some((n, d.1))
  }

  /** `one_move`: `move N from F to T`. */
  function OneMove(s: string): (r: Option<(Move, string)>)
    ensures r.Some? ==> |r.value.1| <= |s|
  {
    match Tag("move ", s)
    case None => None
    case Some(s1) =>
      match Number(s1)
      case None => None
      case Some(count) =>
        match Tag(" from ", count.1)
        case None => None
        case Some(s2) =>
          match Number(s2)
          case None => None
          case Some(from) =>
            match Tag(" to ", from.1)
            case None => None
            case Some(s3) =>
              match Number(s3)
              case None => None
              case Some(to) => Some((Move(count.0, from.0, to.0), to.1))
  }

  /** `moves`: one move per line. */
  function Moves(s: string): (r: Option<(seq<Move>, string)>)
    ensures r.Some? ==> r.value.0 != []
  {
    SepList1('\n', OneMove, s)
  }

  /** The whole input: the drawing, its line of stack numbers, a blank line
      and the moves. Input after the last move is ignored, as `finish` does
      not ask for all of it to be consumed. */
  function Program(s: string): (r: Option<(seq<seq<Option<char>>>, seq<Move>)>)
    ensures r.Some? ==> r.value.0 != [] && r.value.1 != []
  {
    match Drawing(s)
    case None => None
    case Some(d) =>
      match Tag("\n", d.1)
      case None => None
      case Some(t) =>
        match Tag("\n", SkipLabel(t))
        case None => None
        case Some(u) =>
          match Tag("\n", u)
          case None => None
          case Some(w) =>
            match Moves(w)
            case None => None
            case Some(m) => Some((d.0, m.0))
  }

  // ---------------------------------------------------------------------
  // Printing the input back, and reading the print.
  // ---------------------------------------------------------------------

  /** A slot's text is read back as that slot, whatever follows it. */
  lemma OneCrateRoundTrip(slot: Option<char>, rest: string)
    ensures OneCrate(CrateText(slot) + rest) == Some((slot, rest))
  {
    var s := CrateText(slot) + rest;
    assert s[..3] == CrateText(slot);
    assert s[3..] == rest;
  }

  /** A row of the drawing: its slots separated by single spaces. */
  function RowText(row: seq<Option<char>>): string {
    if row == [] then [] else Joined(' ', CrateText, row)
  }

  /** A printed row is read back when no further slot follows it. */
  lemma RowRoundTrip(row: seq<Option<char>>, rest: string)
    requires row != [] && StopsAt(' ', OneCrate, rest)
    ensures Row(RowText(row) + rest) == Some((row, rest))
  {
    forall x, t | true
      ensures OneCrate(CrateText(x) + t) == Some((x, t))
    {
      OneCrateRoundTrip(x, t);
    }
    SepListRoundTrip(' ', OneCrate, CrateText, x => true, t => true, row, rest);
  }

  /** A line of stack numbers that cannot be read as a row of the drawing. */
  predicate IsLabel(numbers: string) {
    && (forall k :: 0 <= k < |numbers| ==> IsLabelChar(numbers[k]))
    && !(|numbers| >= 3 && numbers[..3] == "   ")
  }

  /** A printed drawing is read back row by row, and the line of stack
      numbers after it ends it. */
  lemma DrawingRoundTrip(rows: seq<seq<Option<char>>>, numbers: string, rest: string)
    requires rows != [] && forall k :: 0 <= k < |rows| ==> rows[k] != []
    requires IsLabel(numbers)
    ensures var tail := "\n" + (numbers + ("\n" + rest));
      Drawing(Joined('\n', RowText, rows) + tail) == Some((rows, tail))
  {
    var tail := "\n" + (numbers + ("\n" + rest));
    forall x, t | x != [] && StopsAt(' ', OneCrate, t)
      ensures Row(RowText(x) + t) == Some((x, t))
    {
      RowRoundTrip(x, t);
    }
    assert StopsAt('\n', Row, tail) by {
      assert tail[1..] == numbers + ("\n" + rest);
      LabelIsNoRow(numbers, "\n" + rest);
    }
    SepListRoundTrip('\n', Row, RowText, x => x != [], t => StopsAt(' ', OneCrate, t), rows, tail);
  }

  lemma LabelIsNoRow(numbers: string, rest: string)
    requires IsLabel(numbers) && rest != [] && rest[0] == '\n'
    ensures Row(numbers + rest) == None
  {
    var s := numbers + rest;
    if |s| >= 3 {
      if |numbers| >= 3 {
        assert s[..3] == numbers[..3];
      } else {
        assert s[|numbers|] == '\n';
      }
      if s[0] == '[' {
        assert |numbers| == 0 || IsLabelChar(numbers[0]);
      }
    }
  }

  /** The number of stack numbers is read past, up to the end of its line. */
  lemma {:induction false} SkipLabelOf(numbers: string, rest: string)
    requires forall k :: 0 <= k < |numbers| ==> IsLabelChar(numbers[k])
    requires rest != [] && rest[0] == '\n'
    ensures SkipLabel(numbers + rest) == rest
    decreases |numbers|
  {
    if numbers != [] {
      assert (numbers + rest)[1..] == numbers[1..] + rest;
      SkipLabelOf(numbers[1..], rest);
    } else {
      assert numbers + rest == rest;
    }
  }

  /** A number fits in a `usize`. */
  predicate Fits(m: Move) {
    m.count <= USIZE_MAX && m.from <= USIZE_MAX && m.to <= USIZE_MAX
  }

  function MoveText(m: Move): string {
    "move " + (Decimal(m.count) + (" from " + (Decimal(m.from) + (" to " + Decimal(m.to)))))
  }

  /** A printed number is read back when no digit follows it. */
  lemma NumberRoundTrip(n: nat, rest: string)
    requires n <= USIZE_MAX && (rest == [] || !IsDigit(rest[0]))
    ensures Number(Decimal(n) + rest) == Some((n, rest))
  {
    TakeDigitsOfDecimal(Decimal(n), rest);
    DecimalRoundTrip(n);
  }

  /** A printed move is read back when no digit follows it. */
  lemma MoveRoundTrip(m: Move, rest: string)
    requires Fits(m) && (rest == [] || !IsDigit(rest[0]))
    ensures OneMove(MoveText(m) + rest) == Some((m, rest))
  {
    var s3 := Decimal(m.to) + rest;
    var s2 := Decimal(m.from) + (" to " + s3);
    var s1 := Decimal(m.count) + (" from " + s2);
    MoveTextThen(m, rest);
    TagOf("move ", s1);
    NumberRoundTrip(m.count, " from " + s2);
    TagOf(" from ", s2);
    NumberRoundTrip(m.from, " to " + s3);
    TagOf(" to ", s3);
    NumberRoundTrip(m.to, rest);
  }

  lemma MoveTextThen(m: Move, rest: string)
    ensures MoveText(m) + rest ==
      "move " + (Decimal(m.count) + (" from " + (Decimal(m.from) + (" to " + (Decimal(m.to) + rest)))))
  {
  }

  /** A printed list of moves is read back when nothing after it can be read
      as one more move. */
  lemma MovesRoundTrip(moves: seq<Move>, rest: string)
    requires moves != [] && forall k :: 0 <= k < |moves| ==> Fits(moves[k])
    requires (rest == [] || !IsDigit(rest[0])) && StopsAt('\n', OneMove, rest)
    ensures Moves(Joined('\n', MoveText, moves) + rest) == Some((moves, rest))
  {
    forall x, t | Fits(x) && (t == [] || !IsDigit(t[0]))
      ensures OneMove(MoveText(x) + t) == Some((x, t))
    {
      MoveRoundTrip(x, t);
    }
    SepListRoundTrip('\n', OneMove, MoveText, Fits, t => t == [] || !IsDigit(t[0]), moves, rest);
  }

  /** The text of an input: the rows of the drawing, the line of stack
      numbers, a blank line and the moves. */
  function InputText(rows: seq<seq<Option<char>>>, numbers: string, moves: seq<Move>): string
    requires rows != [] && moves != []
  {
    Joined('\n', RowText, rows) + "\n" + numbers + "\n\n" + Joined('\n', MoveText, moves)
  }

  lemma InputTextThen(rows: seq<seq<Option<char>>>, numbers: string, moves: seq<Move>, rest: string)
    requires rows != [] && moves != []
    ensures InputText(rows, numbers, moves) + rest ==
      Joined('\n', RowText, rows) + ("\n" + (numbers + ("\n" + ("\n" + (Joined('\n', MoveText, moves) + rest)))))
  {
  }

  /** A printed input is read back as its drawing and its moves. */
  lemma ProgramRoundTrip(rows: seq<seq<Option<char>>>, numbers: string, moves: seq<Move>, rest: string)
    requires rows != [] && forall k :: 0 <= k < |rows| ==> rows[k] != []
    requires IsLabel(numbers)
    requires moves != [] && forall k :: 0 <= k < |moves| ==> Fits(moves[k])
    requires (rest == [] || !IsDigit(rest[0])) && StopsAt('\n', OneMove, rest)
    ensures Program(InputText(rows, numbers, moves) + rest) == Some((rows, moves))
  {
    var w := Joined('\n', MoveText, moves) + rest;
    var u := "\n" + w;
    var t := numbers + ("\n" + u);
    InputTextThen(rows, numbers, moves, rest);
    DrawingRoundTrip(rows, numbers, u);
    TagOf("\n", t);
    SkipLabelOf(numbers, "\n" + u);
    TagOf("\n", u);
    TagOf("\n", w);
    MovesRoundTrip(moves, rest);
  }

  // ---------------------------------------------------------------------
  // `finalized_stacks`: from rows of the drawing to stacks.
  // ---------------------------------------------------------------------

  /** The crate of column `i` of a row, if it has one. */
  function Slot(row: seq<Option<char>>, i: nat): seq<char> {
    if i < |row| && row[i].Some? then [row[i].value] else []
  }

  /** The crates of column `i`, from the bottom row up: the bottom of a
      stack comes first, its top last. */
  function Column(rows: seq<seq<Option<char>>>, i: nat): seq<char> {
    if rows == [] then [] else Column(rows[1..], i) + Slot(rows[0], i)
  }

  /** The number of stacks: the number of slots of the bottom row. */
  function Width(rows: seq<seq<Option<char>>>): nat {
    if rows == [] then 0 else |rows[|rows| - 1]|
  }

  /** Some row has a crate in a column the bottom row does not have. */
  predicate WiderThanBase(rows: seq<seq<Option<char>>>) {
    exists r, i :: 0 <= r < |rows| && Width(rows) <= i < |rows[r]| && rows[r][i].Some?
  }

  /** The stacks the drawing shows, left to right. */
  function Stacks(rows: seq<seq<Option<char>>>): (st: seq<seq<char>>)
    ensures |st| == Width(rows)
  {
    seq(Width(rows), i requires 0 <= i < Width(rows) => Column(rows, i))
  }

  /** The transposition in `finalized_stacks`: the rows are walked from the
      bottom up and every crate is pushed onto the stack of its column; a
      crate outside the bottom row's columns fails. */
  method Transpose(rows: seq<seq<Option<char>>>) returns (r: Option<seq<seq<char>>>)
    ensures r.None? <==> WiderThanBase(rows)
    ensures r.Some? ==> r.value == Stacks(rows)
  {
    var res: seq<seq<char>> := seq(Width(rows), _ => []);
    for k := 0 to |rows|
      invariant |res| == Width(rows)
      invariant forall c :: 0 <= c < |res| ==> res[c] == Column(rows[|rows| - k..], c)
      invariant forall q, i :: |rows| - k <= q < |rows| && Width(rows) <= i < |rows[q]| ==> rows[q][i].None?
    {
      var row := rows[|rows| - 1 - k];
      ghost var done := rows[|rows| - k..];
      assert rows[|rows| - 1 - k..] == [row] + done;
      for i := 0 to |row|
        invariant |res| == Width(rows)
        invariant forall c :: 0 <= c < |res| ==> res[c] == Column(done, c) + (if c < i then Slot(row, c) else [])
        invariant forall c :: Width(rows) <= c < i ==> row[c].None?
      {
        if row[i].Some? {
          if i >= |res| {
            return None;
          }
          res := res[i := res[i] + [row[i].value]];
        }
      }
    }
    assert rows[|rows| - |rows|..] == rows;
    r := Some(res);
  }

  // Every crate of the drawing lands on exactly one stack: for every label
  // `c`, the stacks hold as many crates `c` as the drawing shows.

  /** The number of crates `c` in a stack. */
  function Occurrences(c: char, xs: seq<char>): nat {
    if xs == [] then 0 else Occurrences(c, xs[..|xs| - 1]) + (if xs[|xs| - 1] == c then 1 else 0)
  }

  lemma {:induction false} OccurrencesConcat(c: char, xs: seq<char>, ys: seq<char>)
    ensures Occurrences(c, xs + ys) == Occurrences(c, xs) + Occurrences(c, ys)
    decreases |ys|
  {
    if ys != [] {
      assert (xs + ys)[..|xs + ys| - 1] == xs + ys[..|ys| - 1];
      OccurrencesConcat(c, xs, ys[..|ys| - 1]);
    } else {
      assert xs + ys == xs;
    }
  }

  /** The number of crates `c` on a sequence of stacks. */
  function Tally(c: char, st: seq<seq<char>>): nat {
    if st == [] then 0 else Tally(c, st[..|st| - 1]) + Occurrences(c, st[|st| - 1])
  }

  /** The number of crates `c` in the first `n` columns of a row. */
  function RowTally(c: char, row: seq<Option<char>>, n: nat): nat {
    if n == 0 then 0 else RowTally(c, row, n - 1) + (if n - 1 < |row| && row[n - 1] == Some(c) then 1 else 0)
  }

  /** The number of crates `c` the drawing shows. */
  function DrawingTally(c: char, rows: seq<seq<Option<char>>>): nat {
    if rows == [] then 0 else RowTally(c, rows[0], |rows[0]|) + DrawingTally(c, rows[1..])
  }

  /** The number of crates `c` in column `i` of the drawing. */
  function ColumnCount(c: char, rows: seq<seq<Option<char>>>, i: nat): nat {
    if rows == [] then 0
    else ColumnCount(c, rows[1..], i) + (if i < |rows[0]| && rows[0][i] == Some(c) then 1 else 0)
  }

  /** The number of crates `c` in the first `n` columns of the drawing,
      column by column. */
  function ColumnTally(c: char, rows: seq<seq<Option<char>>>, n: nat): nat {
    if n == 0 then 0 else ColumnTally(c, rows, n - 1) + ColumnCount(c, rows, n - 1)
  }

  /** A stack built from a column holds the crates of that column. */
  lemma {:induction false} ColumnOccurrences(c: char, rows: seq<seq<Option<char>>>, i: nat)
    ensures Occurrences(c, Column(rows, i)) == ColumnCount(c, rows, i)
  {
    if rows != [] {
      ColumnOccurrences(c, rows[1..], i);
      TopRowColumn(rows, i);
      OccurrencesConcat(c, Column(rows[1..], i), Slot(rows[0], i));
      OccurrencesOfSlot(c, rows[0], i);
    }
  }

  lemma {:induction false} StacksByColumn(c: char, rows: seq<seq<Option<char>>>, n: nat)
    requires n <= Width(rows)
    ensures Tally(c, Stacks(rows)[..n]) == ColumnTally(c, rows, n)
  {
    if n > 0 {
      StacksByColumn(c, rows, n - 1);
      var st := Stacks(rows)[..n];
      assert st[..n - 1] == Stacks(rows)[..n - 1];
      assert st[n - 1] == Column(rows, n - 1);
      ColumnOccurrences(c, rows, n - 1);
    }
  }

  lemma {:induction false} ColumnsOfTopRow(c: char, rows: seq<seq<Option<char>>>, n: nat)
    requires rows != []
    ensures ColumnTally(c, rows, n) == ColumnTally(c, rows[1..], n) + RowTally(c, rows[0], n)
  {
    if n > 0 {
      ColumnsOfTopRow(c, rows, n - 1);
    }
  }

  lemma TopRowColumn(rows: seq<seq<Option<char>>>, i: nat)
    requires rows != []
    ensures Column(rows, i) == Column(rows[1..], i) + Slot(rows[0], i)
  {
  }

  lemma OccurrencesOfSlot(c: char, row: seq<Option<char>>, i: nat)
    ensures Occurrences(c, Slot(row, i)) == if i < |row| && row[i] == Some(c) then 1 else 0
  {
    if i < |row| && row[i].Some? {
      assert Slot(row, i)[..0] == [];
    }
  }

  lemma {:induction false} NoColumns(c: char, n: nat)
    ensures ColumnTally(c, [], n) == 0
  {
    if n > 0 {
      NoColumns(c, n - 1);
    }
  }

  /** Columns without crates add nothing. */
  lemma {:induction false} EmptySlots(c: char, row: seq<Option<char>>, n: nat, m: nat)
    requires n <= m
    requires forall i :: n <= i < m && i < |row| ==> row[i].None?
    ensures RowTally(c, row, m) == RowTally(c, row, n)
  {
    if n < m {
      EmptySlots(c, row, n, m - 1);
    }
  }

  lemma {:induction false} ColumnsHoldDrawing(c: char, rows: seq<seq<Option<char>>>, w: nat)
    requires forall q, i :: 0 <= q < |rows| && w <= i < |rows[q]| ==> rows[q][i].None?
    ensures ColumnTally(c, rows, w) == DrawingTally(c, rows)
  {
    if rows == [] {
      NoColumns(c, w);
    } else {
      var x := rows[0];
      ColumnsOfTopRow(c, rows, w);
      ColumnsHoldDrawing(c, rows[1..], w);
      if w <= |x| {
        EmptySlots(c, x, w, |x|);
      } else {
        EmptySlots(c, x, |x|, w);
      }
    }
  }

  /** The stacks `finalized_stacks` builds hold exactly the crates of the
      drawing. */
  lemma StacksHoldDrawing(c: char, rows: seq<seq<Option<char>>>)
    requires !WiderThanBase(rows)
    ensures Tally(c, Stacks(rows)) == DrawingTally(c, rows)
  {
    StacksByColumn(c, rows, Width(rows));
    assert Stacks(rows)[..Width(rows)] == Stacks(rows);
    ColumnsHoldDrawing(c, rows, Width(rows));
  }

  // ---------------------------------------------------------------------
  // Replaying the moves.
  // ---------------------------------------------------------------------

  const WrongFrom := "wrong 'from'"
  const TooMany := "Can't take more than in stack"
  const WrongTo := "wrong 'to'"

  /** `into_iter().rev()`: the same crates, last one first. */
  function Reversed(xs: seq<char>): (r: seq<char>)
    ensures |r| == |xs|
    ensures forall i :: 0 <= i < |xs| ==> r[i] == xs[|xs| - 1 - i]
  {
    if xs == [] then [] else [xs[|xs| - 1]] + Reversed(xs[..|xs| - 1])
  }

  /** One move. A move onto its own stack does nothing. Stack numbers count
      from 1; a number 0 wraps around below zero in `from - 1`, so it names
      no stack either. */
  function Step(s: seq<seq<char>>, m: Move, reverse: bool): (r: Answer<seq<seq<char>>>)
    ensures r.Ok? <==> m.from == m.to || Feasible(s, m)
    ensures m.from == m.to ==> r == Ok(s)
    ensures r.Err? ==> r.error == (if m.from == 0 || m.from > |s| then WrongFrom
                                   else if m.count > |s[m.from - 1]| then TooMany else WrongTo)
  {
    if m.from == m.to then Ok(s)
    else if m.from == 0 || m.from > |s| then Err(WrongFrom)
    else if m.count > |s[m.from - 1]| then Err(TooMany)
    else if m.to == 0 || m.to > |s| then Err(WrongTo)
    else
      var source := s[m.from - 1];
      var lifted := source[|source| - m.count..];
      var s' := s[m.from - 1 := source[..|source| - m.count]];
      Ok(s'[m.to - 1 := s'[m.to - 1] + (if reverse then Reversed(lifted) else lifted)])
  }

  /** Both stack numbers name a stack and the source holds enough crates. */
  predicate Feasible(s: seq<seq<char>>, m: Move) {
    && 1 <= m.from <= |s| && 1 <= m.to <= |s|
    && m.count <= |s[m.from - 1]|
  }

  /** A move takes exactly the top `count` crates off the source, puts them
      on the destination, reversed or in order, and leaves every other stack
      alone. */
  lemma StepMoves(s: seq<seq<char>>, m: Move, reverse: bool)
    requires m.from != m.to && Feasible(s, m)
    ensures var t := Step(s, m, reverse).value;
      var source := s[m.from - 1];
      var lifted := source[|source| - m.count..];
      && |t| == |s|
      && t[m.from - 1] + lifted == source
      && |t[m.from - 1]| == |source| - m.count
      && t[m.to - 1] == s[m.to - 1] + (if reverse then Reversed(lifted) else lifted)
      && forall k :: 0 <= k < |s| && k != m.from - 1 && k != m.to - 1 ==> t[k] == s[k]
  {
    var source := s[m.from - 1];
    assert source[..|source| - m.count] + source[|source| - m.count..] == source;
  }

  /** Replacing one stack changes the tally by the difference. */
  lemma {:induction false} TallyUpdate(c: char, st: seq<seq<char>>, k: nat, x: seq<char>)
    requires k < |st|
    ensures Tally(c, st[k := x]) + Occurrences(c, st[k]) == Tally(c, st) + Occurrences(c, x)
    decreases |st|
  {
    var n := |st| - 1;
    if k == n {
      assert st[k := x][..n] == st[..n];
    } else {
      assert st[k := x][..n] == st[..n][k := x];
      TallyUpdate(c, st[..n], k, x);
    }
  }

  lemma {:induction false} OccurrencesReversed(c: char, xs: seq<char>)
    ensures Occurrences(c, Reversed(xs)) == Occurrences(c, xs)
    decreases |xs|
  {
    if xs != [] {
      var init := xs[..|xs| - 1];
      OccurrencesReversed(c, init);
      OccurrencesConcat(c, [xs[|xs| - 1]], Reversed(init));
      assert [xs[|xs| - 1]][..0] == [];
    }
  }

  /** A move neither creates nor destroys crates. */
  lemma StepConserves(c: char, s: seq<seq<char>>, m: Move, reverse: bool)
    requires Step(s, m, reverse).Ok?
    ensures Tally(c, Step(s, m, reverse).value) == Tally(c, s)
  {
    if m.from != m.to {
      var source := s[m.from - 1];
      var rest := source[..|source| - m.count];
      var lifted := source[|source| - m.count..];
      var moved := if reverse then Reversed(lifted) else lifted;
      var s1 := s[m.from - 1 := rest];
      assert rest + lifted == source;
      OccurrencesConcat(c, rest, lifted);
      TallyUpdate(c, s, m.from - 1, rest);
      TallyUpdate(c, s1, m.to - 1, s1[m.to - 1] + moved);
      OccurrencesConcat(c, s1[m.to - 1], moved);
      if reverse {
        OccurrencesReversed(c, lifted);
      }
    }
  }

  /** The two cranes differ only on moves of more than one crate. */
  lemma OneCrateEitherWay(s: seq<seq<char>>, m: Move)
    requires m.count <= 1
    ensures Step(s, m, true) == Step(s, m, false)
  {
    if m.from != m.to && Feasible(s, m) {
      var source := s[m.from - 1];
      var lifted := source[|source| - m.count..];
      assert Reversed(lifted) == lifted;
    }
  }

  /** `count` moves of a single crate each. */
  function Singles(count: nat, from: nat, to: nat): (ms: seq<Move>)
    ensures |ms| == count
  {
    seq(count, _ => Move(1, from, to))
  }

  /** The CrateMover 9000 moves one crate at a time: moving `count` crates
      with reversal is the same as `count` moves of one crate. */
  lemma {:induction false} OneAtATime(s: seq<seq<char>>, count: nat, from: nat, to: nat)
    requires from != to && Feasible(s, Move(count, from, to))
    ensures Rearrange(s, Singles(count, from, to), false) == Step(s, Move(count, from, to), true)
  {
    if count == 0 {
      var source := s[from - 1];
      assert source[..|source|] == source;
      assert s[from - 1 := source] == s;
      assert source[|source|..] == [] && Reversed([]) == [];
      assert s[to - 1] + [] == s[to - 1];
      assert s[to - 1 := s[to - 1]] == s;
      assert Singles(0, from, to) == [];
    } else {
      var n := count - 1;
      assert Singles(count, from, to)[..n] == Singles(n, from, to);
      OneAtATime(s, n, from, to);
      var u := Step(s, Move(n, from, to), true).value;
      LastOfMany(s, u, count, from, to);
    }
  }

  lemma LastOfMany(s: seq<seq<char>>, u: seq<seq<char>>, count: nat, from: nat, to: nat)
    requires from != to && Feasible(s, Move(count, from, to)) && count > 0
    requires Step(s, Move(count - 1, from, to), true) == Ok(u)
    ensures Step(u, Move(1, from, to), false) == Step(s, Move(count, from, to), true)
  {
    var source := s[from - 1];
    var L := |source|;
    var a1 := source[..L - count + 1];
    var b1 := s[to - 1] + Reversed(source[L - count + 1..]);
    assert u == s[from - 1 := a1][to - 1 := b1];
    var a2 := source[..L - count];
    var x := source[L - count];
    assert a1[..|a1| - 1] == a2;
    assert a1[|a1| - 1..] == [x];
    ReversedPeel(source[L - count..]);
    assert source[L - count..][1..] == source[L - count + 1..];
    assert b1 + [x] == s[to - 1] + Reversed(source[L - count..]);
    var u1 := u[from - 1 := a2];
    assert u1[to - 1] == b1;
    assert Step(u, Move(1, from, to), false) == Ok(u1[to - 1 := b1 + [x]]);
    assert u1[to - 1 := b1 + [x]] == s[from - 1 := a2][to - 1 := b1 + [x]];
  }

  lemma ReversedPeel(xs: seq<char>)
    requires xs != []
    ensures Reversed(xs) == Reversed(xs[1..]) + [xs[0]]
  {
  }

  /** The moves applied in order; the first failing move fails them all. */
  function Rearrange(s: seq<seq<char>>, moves: seq<Move>, reverse: bool): Answer<seq<seq<char>>>
  {
    if moves == [] then Ok(s)
    else
      match Rearrange(s, moves[..|moves| - 1], reverse)
      case Err(e) => Err(e)
      case Ok(t) => Step(t, moves[|moves| - 1], reverse)
  }

  lemma {:induction false} FailureSticks(s: seq<seq<char>>, moves: seq<Move>, k: nat, reverse: bool)
    requires k <= |moves| && Rearrange(s, moves[..k], reverse).Err?
    ensures Rearrange(s, moves, reverse) == Rearrange(s, moves[..k], reverse)
    decreases |moves| - k
  {
    if k < |moves| {
      assert moves[..k + 1][..k] == moves[..k];
      FailureSticks(s, moves, k + 1, reverse);
    } else {
      assert moves[..k] == moves;
    }
  }

  /** A whole rearrangement neither creates nor destroys crates. */
  lemma {:induction false} RearrangeConserves(c: char, s: seq<seq<char>>, moves: seq<Move>, reverse: bool)
    requires Rearrange(s, moves, reverse).Ok?
    ensures Tally(c, Rearrange(s, moves, reverse).value) == Tally(c, s)
  {
    if moves != [] {
      var init := moves[..|moves| - 1];
      RearrangeConserves(c, s, init, reverse);
      StepConserves(c, Rearrange(s, init, reverse).value, moves[|moves| - 1], reverse);
    }
  }

  /** The move loop of `parse`: `split_off` takes the top `count` crates of
      the source stack, and `extend` puts them on the destination, reversed
      for the one-crate-at-a-time crane. */
  method Replay(stacks: seq<seq<char>>, moves: seq<Move>, reverse: bool) returns (r: Answer<seq<seq<char>>>)
    ensures r == Rearrange(stacks, moves, reverse)
  {
    var s := stacks;
    for k := 0 to |moves|
      invariant Rearrange(stacks, moves[..k], reverse) == Ok(s)
    {
      var m := moves[k];
      assert moves[..k + 1][..k] == moves[..k];
      if m.from == m.to {
        continue;
      }
      if m.from == 0 || m.from > |s| {
        FailureSticks(stacks, moves, k + 1, reverse);
        return Err(WrongFrom);
      }
      var source := s[m.from - 1];
      if m.count > |source| {
        FailureSticks(stacks, moves, k + 1, reverse);
        return Err(TooMany);
      }
      var split := source[|source| - m.count..];
      s := s[m.from - 1 := source[..|source| - m.count]];
      if m.to == 0 || m.to > |s| {
        FailureSticks(stacks, moves, k + 1, reverse);
        return Err(WrongTo);
      }
      if reverse {
        s := s[m.to - 1 := s[m.to - 1] + Reversed(split)];
      } else {
        s := s[m.to - 1 := s[m.to - 1] + split];
      }
    }
    assert moves[..|moves|] == moves;
    r := Ok(s);
  }

  /** The top crate of a stack, or a space for an empty stack. */
  function Top(stack: seq<char>): (c: char)
    ensures stack == [] ==> c == ' '
    ensures stack != [] ==> c == stack[|stack| - 1]
  {
    if stack == [] then ' ' else stack[|stack| - 1]
  }

  /** The message: the top crate of every stack, left to right. */
  function Tops(st: seq<seq<char>>): (msg: string)
    ensures |msg| == |st|
    ensures forall i :: 0 <= i < |st| ==> msg[i] == Top(st[i])
  {
    if st == [] then [] else Tops(st[..|st| - 1]) + [Top(st[|st| - 1])]
  }

  /** After moving at least one crate, the destination's new top is the
      deepest lifted crate for the CrateMover 9000 and the source's old top
      for the CrateMover 9001; the source's new top is the crate that was
      under the lifted ones. */
  lemma TopAfterMove(s: seq<seq<char>>, m: Move, reverse: bool)
    requires m.from != m.to && Feasible(s, m) && m.count > 0
    ensures var t := Step(s, m, reverse).value;
      var source := s[m.from - 1];
      var L := |source|;
      && Top(t[m.to - 1]) == (if reverse then source[L - m.count] else source[L - 1])
      && Top(t[m.from - 1]) == (if m.count == L then ' ' else source[L - m.count - 1])
  {
    StepMoves(s, m, reverse);
  }

  const ParseError := "Parse error:\n"

  /** `parse`: read the drawing and the moves, build the stacks, replay the
      moves with the chosen crane and read off the top crates. Any failure to
      read the input, a drawing wider than its base included, is a parse
      error; a failing move ends the run with that move's error. */
  method Parse(input: string, reverse: bool) returns (r: Answer<string>)
    ensures Program(input).None? ==> r == Err(ParseError)
    ensures Program(input).Some? ==>
      var (rows, moves) := Program(input).value;
      if WiderThanBase(rows) then r == Err(ParseError)
      else match Rearrange(Stacks(rows), moves, reverse)
        case Err(e) => r == Err(e)
        case Ok(t) => r == Ok(Tops(t))
  {
    var program := Program(input);
    if program.None? {
      return Err(ParseError);
    }
    var (rows, moves) := program.value;
    var stacks := Transpose(rows);
    if stacks.None? {
      return Err(ParseError);
    }
    var out := Replay(stacks.value, moves, reverse);
    match out {
      case Err(e) => r := Err(e);
      case Ok(t) => r := Ok(Tops(t));
    }
  }

  // The puzzle's sample: three stacks and four moves, after which the
  // CrateMover 9000 (`part1`) leaves `CMZ` on top and the CrateMover 9001
  // (`part2`) leaves `MCD`.

  function SampleStacks(): seq<seq<char>> {
    [['Z', 'N'], ['M', 'C', 'D'], ['P']]
  }

  function SampleMoves(): seq<Move> {
    [Move(1, 2, 1), Move(3, 1, 3), Move(2, 2, 1), Move(1, 1, 2)]
  }

  lemma SampleRearrangedInOrder(moves: seq<Move>)
    requires moves == SampleMoves()
    ensures moves[..3][..2][..1][..0] == [] && moves[..3][..2][..1] == [moves[0]]
    ensures moves[..3][..2] == moves[..2] && moves[..2][..1] == moves[..1] && moves[..1][..0] == []
  {
  }

  lemma Sample9000Step1()
    ensures Step([['Z', 'N'], ['M', 'C', 'D'], ['P']], Move(1, 2, 1), true) == Ok([['Z', 'N', 'D'], ['M', 'C'], ['P']])
  {
    var s := [['Z', 'N'], ['M', 'C', 'D'], ['P']];
    assert s[1][..2] == ['M', 'C'];
    assert s[1][2..] == ['D'];
    assert Reversed(['D']) == ['D'];
    var mid := s[1 := ['M', 'C']];
    assert mid == [['Z', 'N'], ['M', 'C'], ['P']];
    assert mid[0] + ['D'] == ['Z', 'N', 'D'];
    assert mid[0 := ['Z', 'N', 'D']] == [['Z', 'N', 'D'], ['M', 'C'], ['P']];
  }

  lemma Sample9000Step2()
    ensures Step([['Z', 'N', 'D'], ['M', 'C'], ['P']], Move(3, 1, 3), true) == Ok([[], ['M', 'C'], ['P', 'D', 'N', 'Z']])
  {
    var s := [['Z', 'N', 'D'], ['M', 'C'], ['P']];
    assert s[0][..0] == [];
    assert s[0][0..] == ['Z', 'N', 'D'];
    assert Reversed(['Z', 'N', 'D']) == ['D', 'N', 'Z'];
    var mid := s[0 := []];
    assert mid == [[], ['M', 'C'], ['P']];
    assert mid[2] + ['D', 'N', 'Z'] == ['P', 'D', 'N', 'Z'];
    assert mid[2 := ['P', 'D', 'N', 'Z']] == [[], ['M', 'C'], ['P', 'D', 'N', 'Z']];
  }

  lemma Sample9000Step3()
    ensures Step([[], ['M', 'C'], ['P', 'D', 'N', 'Z']], Move(2, 2, 1), true) == Ok([['C', 'M'], [], ['P', 'D', 'N', 'Z']])
  {
    var s := [[], ['M', 'C'], ['P', 'D', 'N', 'Z']];
    assert s[1][..0] == [];
    assert s[1][0..] == ['M', 'C'];
    assert Reversed(['M', 'C']) == ['C', 'M'];
    var mid := s[1 := []];
    assert mid == [[], [], ['P', 'D', 'N', 'Z']];
    assert mid[0] + ['C', 'M'] == ['C', 'M'];
    assert mid[0 := ['C', 'M']] == [['C', 'M'], [], ['P', 'D', 'N', 'Z']];
  }

  lemma Sample9000Step4()
    ensures Step([['C', 'M'], [], ['P', 'D', 'N', 'Z']], Move(1, 1, 2), true) == Ok([['C'], ['M'], ['P', 'D', 'N', 'Z']])
  {
    var s := [['C', 'M'], [], ['P', 'D', 'N', 'Z']];
    assert s[0][..1] == ['C'];
    assert s[0][1..] == ['M'];
    assert Reversed(['M']) == ['M'];
    var mid := s[0 := ['C']];
    assert mid == [['C'], [], ['P', 'D', 'N', 'Z']];
    assert mid[1] + ['M'] == ['M'];
    assert mid[1 := ['M']] == [['C'], ['M'], ['P', 'D', 'N', 'Z']];
  }

  lemma SampleCrateMover9000()
    ensures Rearrange(SampleStacks(), SampleMoves(), true) == Ok([['C'], ['M'], ['P', 'D', 'N', 'Z']])
    ensures Tops([['C'], ['M'], ['P', 'D', 'N', 'Z']]) == "CMZ"
  {
    var s0 := SampleStacks();
    var moves := SampleMoves();
    SampleRearrangedInOrder(moves);
    Sample9000Step1();
    Sample9000Step2();
    Sample9000Step3();
    Sample9000Step4();
    assert Rearrange(s0, moves[..1], true) == Ok([['Z', 'N', 'D'], ['M', 'C'], ['P']]);
    assert Rearrange(s0, moves[..2], true) == Ok([[], ['M', 'C'], ['P', 'D', 'N', 'Z']]);
    assert Rearrange(s0, moves[..3], true) == Ok([['C', 'M'], [], ['P', 'D', 'N', 'Z']]);
  }

  lemma Sample9001Step1()
    ensures Step([['Z', 'N'], ['M', 'C', 'D'], ['P']], Move(1, 2, 1), false) == Ok([['Z', 'N', 'D'], ['M', 'C'], ['P']])
  {
    var s := [['Z', 'N'], ['M', 'C', 'D'], ['P']];
    assert s[1][..2] == ['M', 'C'];
    assert s[1][2..] == ['D'];
    var mid := s[1 := ['M', 'C']];
    assert mid == [['Z', 'N'], ['M', 'C'], ['P']];
    assert mid[0] + ['D'] == ['Z', 'N', 'D'];
    assert mid[0 := ['Z', 'N', 'D']] == [['Z', 'N', 'D'], ['M', 'C'], ['P']];
  }

  lemma Sample9001Step2()
    ensures Step([['Z', 'N', 'D'], ['M', 'C'], ['P']], Move(3, 1, 3), false) == Ok([[], ['M', 'C'], ['P', 'Z', 'N', 'D']])
  {
    var s := [['Z', 'N', 'D'], ['M', 'C'], ['P']];
    assert s[0][..0] == [];
    assert s[0][0..] == ['Z', 'N', 'D'];
    var mid := s[0 := []];
    assert mid == [[], ['M', 'C'], ['P']];
    assert mid[2] + ['Z', 'N', 'D'] == ['P', 'Z', 'N', 'D'];
    assert mid[2 := ['P', 'Z', 'N', 'D']] == [[], ['M', 'C'], ['P', 'Z', 'N', 'D']];
  }

  lemma Sample9001Step3()
    ensures Step([[], ['M', 'C'], ['P', 'Z', 'N', 'D']], Move(2, 2, 1), false) == Ok([['M', 'C'], [], ['P', 'Z', 'N', 'D']])
  {
    var s := [[], ['M', 'C'], ['P', 'Z', 'N', 'D']];
    assert s[1][..0] == [];
    assert s[1][0..] == ['M', 'C'];
    var mid := s[1 := []];
    assert mid == [[], [], ['P', 'Z', 'N', 'D']];
    assert mid[0] + ['M', 'C'] == ['M', 'C'];
    assert mid[0 := ['M', 'C']] == [['M', 'C'], [], ['P', 'Z', 'N', 'D']];
  }

  lemma Sample9001Step4()
    ensures Step([['M', 'C'], [], ['P', 'Z', 'N', 'D']], Move(1, 1, 2), false) == Ok([['M'], ['C'], ['P', 'Z', 'N', 'D']])
  {
    var s := [['M', 'C'], [], ['P', 'Z', 'N', 'D']];
    assert s[0][..1] == ['M'];
    assert s[0][1..] == ['C'];
    var mid := s[0 := ['M']];
    assert mid == [['M'], [], ['P', 'Z', 'N', 'D']];
    assert mid[1] + ['C'] == ['C'];
    assert mid[1 := ['C']] == [['M'], ['C'], ['P', 'Z', 'N', 'D']];
  }

  lemma SampleCrateMover9001()
    ensures Rearrange(SampleStacks(), SampleMoves(), false) == Ok([['M'], ['C'], ['P', 'Z', 'N', 'D']])
    ensures Tops([['M'], ['C'], ['P', 'Z', 'N', 'D']]) == "MCD"
  {
    var s0 := SampleStacks();
    var moves := SampleMoves();
    SampleRearrangedInOrder(moves);
    Sample9001Step1();
    Sample9001Step2();
    Sample9001Step3();
    Sample9001Step4();
    assert Rearrange(s0, moves[..1], false) == Ok([['Z', 'N', 'D'], ['M', 'C'], ['P']]);
    assert Rearrange(s0, moves[..2], false) == Ok([[], ['M', 'C'], ['P', 'Z', 'N', 'D']]);
    assert Rearrange(s0, moves[..3], false) == Ok([['M', 'C'], [], ['P', 'Z', 'N', 'D']]);
  }
}
