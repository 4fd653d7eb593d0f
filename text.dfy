/** The pieces of Rust's `str` API that the solvers lean on: `char::is_whitespace`,
    `trim`, `lines`, and decimal integers as read by `str::parse`. */
module Text {
  import opened Outcomes

  /** `char::is_whitespace`: the Unicode White_Space property. */
  predicate IsWhitespace(c: char) {
    || c == ' ' || ('\t' <= c <= '\r') || c == '\U{85}' || c == '\U{A0}'
    || c == '\U{1680}' || ('\U{2000}' <= c <= '\U{200A}') || c == '\U{2028}'
    || c == '\U{2029}' || c == '\U{202F}' || c == '\U{205F}' || c == '\U{3000}'
  }

  /** `str::trim_start`: drops the leading whitespace, and only that. */
  function TrimStart(s: string): (t: string)
    ensures |t| <= |s|
  {
    if s != [] && IsWhitespace(s[0]) then TrimStart(s[1..]) else s
  }

  lemma {:induction false} TrimStartDrops(s: string)
    ensures var t := TrimStart(s);
      && (forall k :: 0 <= k < |t| ==> t[k] == s[|s| - |t| + k])
      && (t != [] ==> !IsWhitespace(t[0]))
      && (forall k :: 0 <= k < |s| - |t| ==> IsWhitespace(s[k]))
  {
    if s != [] && IsWhitespace(s[0]) {
      TrimStartDrops(s[1..]);
    }
  }

  /** `str::trim_end`: drops the trailing whitespace, and only that. */
  function TrimEnd(s: string): (t: string)
    ensures |t| <= |s|
  {
    if s != [] && IsWhitespace(s[|s| - 1]) then TrimEnd(s[..|s| - 1]) else s
  }

  lemma {:induction false} TrimEndDrops(s: string)
    ensures var t := TrimEnd(s);
      && (forall k :: 0 <= k < |t| ==> t[k] == s[k])
      && (t != [] ==> !IsWhitespace(t[|t| - 1]))
      && (forall k :: |t| <= k < |s| ==> IsWhitespace(s[k]))
  {
    if s != [] && IsWhitespace(s[|s| - 1]) {
      TrimEndDrops(s[..|s| - 1]);
    }
  }

  /** `str::trim`. */
  function Trim(s: string): (t: string)
  {
    TrimEnd(TrimStart(s))
  }

  /** A line that `trim` turns into the empty string. */
  predicate IsBlank(s: string) {
    Trim(s) == ""
  }

  /** The lines of `lines` that are not blank. */
  function NonBlankCount(lines: seq<string>): (n: nat)
    ensures n <= |lines|
  {
    if lines == [] then 0 else NonBlankCount(lines[1..]) + (if IsBlank(lines[0]) then 0 else 1)
  }

  /** A line is blank exactly when every character of it is whitespace. */
  lemma BlankIsAllWhitespace(s: string)
    ensures IsBlank(s) <==> forall k :: 0 <= k < |s| ==> IsWhitespace(s[k])
  {
    var a := TrimStart(s);
    TrimStartDrops(s);
    TrimEndDrops(a);
    if !IsBlank(s) {
      assert a != [] && !IsWhitespace(a[0]);
      assert s[|s| - |a|] == a[0];
    }
  }

  /** A string that neither starts nor ends with whitespace is kept whole
      by `trim`. */
  lemma TrimKeeps(s: string)
    requires s != [] && !IsWhitespace(s[0]) && !IsWhitespace(s[|s| - 1])
    ensures Trim(s) == s
  {
    assert TrimStart(s) == s;
  }

  /** Strips the `'\r'` of a `"\r\n"` line ending. */
  function StripCr(line: string): string {
    if line != [] && line[|line| - 1] == '\r' then line[..|line| - 1] else line
  }

  /** `str::lines`: splits at `'\n'`; a `'\r'` right before a `'\n'` belongs to the
      line ending, and a final line ending adds no empty line. */
  function Lines(s: string): (ls: seq<string>)
    ensures s == [] <==> ls == []
    ensures forall i, k :: 0 <= i < |ls| && 0 <= k < |ls[i]| ==> ls[i][k] != '\n'
    ensures |ls| <= |s|
  {
    if s == [] then []
    else
      var k := FirstNewline(s, 0);
      if k == |s| then [s]
      else [StripCr(s[..k])] + Lines(s[k + 1..])
  }

  /** `trim` leaves a string that starts and ends with something other than
      whitespace. */
  lemma TrimEnds(s: string)
    ensures Trim(s) != [] ==> !IsWhitespace(Trim(s)[0]) && !IsWhitespace(Trim(s)[|Trim(s)| - 1])
  {
    TrimStartDrops(s);
    TrimEndDrops(TrimStart(s));
  }

  /** A string that does not start with whitespace has a non-empty first line. */
  lemma FirstLineNonEmpty(s: string)
    requires s != [] && !IsWhitespace(s[0])
    ensures Lines(s)[0] != []
  {
    var k := FirstNewline(s, 0);
    if k < |s| {
      assert s[..k][0] == s[0];
    }
  }

  /** A string that does not end in whitespace has a non-empty last line. */
  lemma {:induction false} LastLineNonEmpty(s: string)
    requires s != [] && !IsWhitespace(s[|s| - 1])
    ensures Lines(s)[|Lines(s)| - 1] != []
    decreases |s|
  {
    var k := FirstNewline(s, 0);
    if k < |s| {
      var t := s[k + 1..];
      assert t[|t| - 1] == s[|s| - 1];
      LastLineNonEmpty(t);
      assert Lines(s) == [StripCr(s[..k])] + Lines(t);
    }
  }

  /** Index of the first `'\n'` at or after `from`, or `|s|` if there is none. */
  function FirstNewline(s: string, from: nat): (k: nat)
    requires from <= |s|
    ensures from <= k <= |s|
    ensures forall j :: from <= j < k ==> s[j] != '\n'
    ensures k < |s| ==> s[k] == '\n'
    decreases |s| - from
  {
    if from == |s| || s[from] == '\n' then from else FirstNewline(s, from + 1)
  }

  predicate IsDigit(c: char) {
    '0' <= c <= '9'
  }

  predicate AllDigits(s: string) {
    forall k :: 0 <= k < |s| ==> IsDigit(s[k])
  }

  /** `take_while(|c| matches!(c, '0'..='9'))`: the longest prefix of digits and
      the input that follows it. */
  function TakeDigits(s: string): (r: (string, string))
    ensures r.0 + r.1 == s
    ensures AllDigits(r.0)
    ensures r.1 != [] ==> !IsDigit(r.1[0])
  {
    if s != [] && IsDigit(s[0]) then
      var (d, rest) := TakeDigits(s[1..]);
      assert [s[0]] + d + rest == s;
      ([s[0]] + d, rest)
    else ([], s)
  }

  /** The value of a string of decimal digits. */
  function DecimalValue(d: string): nat
    requires AllDigits(d)
  {
    if d == [] then 0
    else 10 * DecimalValue(d[..|d| - 1]) + (d[|d| - 1] as int - '0' as int)
  }

  const U64_MAX: nat := 0xFFFF_FFFF_FFFF_FFFF
  /** The solvers are built for a 64-bit target, where `usize` is `u64`. */
  const USIZE_MAX: nat := U64_MAX

  /** `str::parse::<usize>` applied to a string of digits, as the nom `number`
      parsers do: fails on the empty string and on a value that does not fit. */
  function ParseDigits(d: string): (r: Answer<nat>)
    requires AllDigits(d)
    ensures r.Ok? <==> d != [] && DecimalValue(d) <= USIZE_MAX
    ensures r.Ok? ==> r.value == DecimalValue(d)
  {
    if d == [] then Err("cannot parse integer from empty string")
    else if DecimalValue(d) > USIZE_MAX then Err("number too large to fit in target type")
    else Ok(DecimalValue(d))
  }

  /** `str::parse::<u64>`: an optional `'+'`, then at least one digit, then a
      value that fits in 64 bits. */
  function ParseU64(s: string): (r: Answer<nat>)
    ensures r.Ok? ==> r.value <= U64_MAX
  {
    var d := if s != [] && s[0] == '+' then s[1..] else s;
    if d == [] then Err("cannot parse integer from empty string")
    else if !AllDigits(d) then Err("invalid digit found in string")
    else if DecimalValue(d) > U64_MAX then Err("number too large to fit in target type")
    else Ok(DecimalValue(d))
  }

  /** What `ParseU64` accepts: digits after at most one leading `'+'`; and a
      plain string of digits is read as its decimal value when that fits. */
  lemma ParseU64Reads(s: string)
    ensures s == [] ==> ParseU64(s).Err?
    ensures ParseU64(s).Ok? ==>
      exists k :: 0 <= k <= 1 && k < |s| && AllDigits(s[k..]) && ParseU64(s).value == DecimalValue(s[k..])
    ensures AllDigits(s) && s != [] ==>
      (ParseU64(s).Ok? <==> DecimalValue(s) <= U64_MAX) && (ParseU64(s).Ok? ==> ParseU64(s).value == DecimalValue(s))
  {
    if ParseU64(s).Ok? {
      var d := if s != [] && s[0] == '+' then s[1..] else s;
      assert d == s[|s| - |d|..];
    }
    if AllDigits(s) && s != [] {
      assert s[0] != '+';
    }
  }

  /** The canonical decimal spelling of `n`, as `format!("{n}")` writes it. */
  function Decimal(n: nat): (d: string)
    ensures d != [] && AllDigits(d)
    ensures d[0] == '0' ==> n == 0
    decreases n
  {
    var last := [('0' as int + n % 10) as char];
    if n < 10 then last else Decimal(n / 10) + last
  }

  /** Reading back the decimal spelling of a number gives the number. */
  lemma {:induction false} DecimalRoundTrip(n: nat)
    ensures DecimalValue(Decimal(n)) == n
    decreases n
  {
    var d := Decimal(n);
    if n >= 10 {
      DecimalRoundTrip(n / 10);
      assert d[..|d| - 1] == Decimal(n / 10);
    }
  }

  /** `TakeDigits` splits a decimal spelling from a tail that starts with a
      non-digit. */
  lemma {:induction false} TakeDigitsOfDecimal(d: string, rest: string)
    requires AllDigits(d)
    requires rest != [] ==> !IsDigit(rest[0])
    ensures TakeDigits(d + rest) == (d, rest)
    decreases |d|
  {
    if d != [] {
      TakeDigitsOfDecimal(d[1..], rest);
      assert (d + rest)[1..] == d[1..] + rest;
      assert [d[0]] + d[1..] == d;
    } else {
      assert d + rest == rest;
    }
  }
}
