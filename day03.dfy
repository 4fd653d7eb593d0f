/** Day 3, "Rucksack Reorganization" (2022/rust/src/bin/03.rs): every line
    lists the items of a rucksack, one letter per item, and every letter has
    a priority. Part 1 finds the item both halves of a line share, part 2 the
    item that each group of three lines shares. Item sets are `u64` masks
    with bit `p` set for priority `p`; here they are sets of bit positions. */
module Day03Rucksacks {
  import opened Outcomes
  import opened Text

  // ---------------------------------------------------------------------
  // Priorities.
  // ---------------------------------------------------------------------

  predicate IsLetter(c: char) {
    ('a' <= c <= 'z') || ('A' <= c <= 'Z')
  }

  /** `gen_priority_map`, as a lookup: a..z are 1..26 and A..Z are 27..52. */
  function Priority(c: char): (r: Option<nat>)
    ensures r.Some? <==> IsLetter(c)
    ensures r.Some? ==> 1 <= r.value <= 52
  {
    if 'a' <= c <= 'z' then Some(c as int - 'a' as int + 1)
    else if 'A' <= c <= 'Z' then Some(c as int - 'A' as int + 27)
    else None
  }

  /** The characters the map is built from, in the order it numbers them:
      `('a'..='z').chain('A'..='Z')`. */
  function Alphabet(): (a: string)
    ensures |a| == 52
  {
    seq(26, i requires 0 <= i < 26 => ('a' as int + i) as char)
      + seq(26, i requires 0 <= i < 26 => ('A' as int + i) as char)
  }

  /** A character's priority is its position in the alphabet, counting from 1,
      and characters outside it have none. */
  lemma PriorityIsPosition(c: char, p: nat)
    ensures Priority(c) == Some(p) <==> 1 <= p <= 52 && Alphabet()[p - 1] == c
  {
    var a := Alphabet();
    if 1 <= p <= 26 {
      assert a[p - 1] == ('a' as int + p - 1) as char;
    } else if 27 <= p <= 52 {
      assert a[p - 1] == ('A' as int + p - 27) as char;
    }
  }

  /** Different items have different priorities. */
  lemma PriorityInjective(c: char, d: char)
    requires Priority(c).Some? && Priority(c) == Priority(d)
    ensures c == d
  {
  }

  /** A priority is a bit position of a `u64`, and different positions give
      disjoint one-bit masks: so a mask is exactly the set of its bits. */
  lemma OneBitMasks(p: nat, q: nat)
    requires p < 64 && q < 64
    ensures ((1 as bv64) << p) & ((1 as bv64) << q) != 0 <==> p == q
  {
  }

  /** `u64::MAX`: every bit set. */
  function AllBits(): (m: set<nat>)
    ensures forall p: nat :: p in m <==> p < 64
  {
    Below(64)
  }

  /** The bit positions below `n`. */
  function Below(n: nat): (m: set<nat>)
    ensures forall p: nat :: p in m <==> p < n
  {
    if n == 0 then {} else Below(n - 1) + {n - 1}
  }

  function BadItem(c: char): string {
    "Incorrect item " + [c]
  }

  /** The mask of a string's items (`items |= 1 << prio` for every character),
      failing at the first character that is not an item. */
  function Items(s: string): (r: Answer<set<nat>>)
    ensures r.Ok? <==> forall k :: 0 <= k < |s| ==> IsLetter(s[k])
    ensures r.Ok? ==> forall k :: 0 <= k < |s| ==> Priority(s[k]).value in r.value
    ensures r.Ok? ==> forall p :: p in r.value ==> exists k :: 0 <= k < |s| && Priority(s[k]) == Some(p)
    ensures r.Err? ==> exists k :: 0 <= k < |s| && !IsLetter(s[k]) && r.error == BadItem(s[k])
  {
    if s == [] then Ok({})
    else match Priority(s[0])
      case None => Err(BadItem(s[0]))
      case Some(p) =>
        match Items(s[1..])
        case Err(e) =>
          assert forall k :: 0 <= k < |s[1..]| ==> s[1..][k] == s[k + 1];
          Err(e)
        case Ok(rest) =>
          assert forall k :: 0 <= k < |s[1..]| ==> s[1..][k] == s[k + 1];
          Ok({p} + rest)
  }

  /** For a string of letters, an item's priority is in its mask exactly when
      the item occurs in the string. */
  lemma InItems(s: string, c: char)
    requires Items(s).Ok? && IsLetter(c)
    ensures Priority(c).value in Items(s).value <==> c in s
  {
    if Priority(c).value in Items(s).value {
      var k :| 0 <= k < |s| && Priority(s[k]) == Some(Priority(c).value);
      PriorityInjective(s[k], c);
    }
  }

  /** The scan for a shared item: the priority of the first character whose
      bit is in `items`, nothing if there is none, or the error of the first
      character before it that is not an item. */
  function FirstShared(s: string, items: set<nat>): (r: Answer<Option<nat>>)
    ensures r.Ok? && r.value.Some? ==>
      r.value.value in items && exists k :: 0 <= k < |s| && Priority(s[k]) == r.value
    ensures r == Ok(None) ==> forall k :: 0 <= k < |s| ==> IsLetter(s[k]) && Priority(s[k]).value !in items
    ensures r.Err? ==> exists k :: 0 <= k < |s| && !IsLetter(s[k]) && r.error == BadItem(s[k])
  {
    if s == [] then Ok(None)
    else match Priority(s[0])
      case None => Err(BadItem(s[0]))
      case Some(p) =>
        if p in items then Ok(Some(p))
        else
          var r := FirstShared(s[1..], items);
          assert forall k :: 0 <= k < |s[1..]| ==> s[1..][k] == s[k + 1];
          r
  }

  /** The first character of `s` that is in `chars`: the reference for the
      scans, in terms of characters rather than masks. */
  function FirstIn(chars: set<char>, s: string): (r: Option<char>)
    ensures r.Some? ==> r.value in chars && r.value in s
    ensures r.None? ==> forall k :: 0 <= k < |s| ==> s[k] !in chars
  {
    if s == [] then None
    else if s[0] in chars then Some(s[0])
    else FirstIn(chars, s[1..])
  }

  /** On letters, scanning a mask finds the first character of the set that
      the mask stands for. */
  lemma {:induction false} FirstSharedIsFirstIn(s: string, items: set<nat>, chars: set<char>)
    requires forall k :: 0 <= k < |s| ==> IsLetter(s[k])
    requires forall c :: IsLetter(c) ==> (Priority(c).value in items <==> c in chars)
    ensures FirstShared(s, items) == match FirstIn(chars, s)
      case None => Ok(None)
      case Some(c) => Ok(Some(Priority(c).value))
  {
    if s != [] {
      assert IsLetter(s[0]);
      if s[0] !in chars {
        FirstSharedIsFirstIn(s[1..], items, chars);
      }
    }
  }

  /** The loop that builds a line's mask. */
  method CollectItems(s: string) returns (r: Answer<set<nat>>)
    ensures r == Items(s)
  {
    var items: set<nat> := {};
    JoinEmpty(Items(s));
    for i := 0 to |s|
      invariant Items(s) == Join(items, Items(s[i..]))
    {
      JoinStep(s, i, items);
      var prio := Priority(s[i]);
      if prio.None? {
        return Err(BadItem(s[i]));
      }
      items := items + {prio.value};
    }
    assert s[|s|..] == [];
    r := Ok(items);
  }

  /** `items` joined to a mask, or the error. */
  function Join(items: set<nat>, r: Answer<set<nat>>): Answer<set<nat>> {
    match r
    case Err(e) => Err(e)
    case Ok(more) => Ok(items + more)
  }

  lemma JoinEmpty(r: Answer<set<nat>>)
    ensures Join({}, r) == r
  {
    match r
    case Err(e) =>
    case Ok(more) => assert {} + more == more;
  }

  /** One character of the mask. */
  lemma JoinStep(s: string, i: nat, items: set<nat>)
    requires i < |s|
    ensures Join(items, Items(s[i..])) == match Priority(s[i])
      case None => Err(BadItem(s[i]))
      case Some(p) => Join(items + {p}, Items(s[i + 1..]))
  {
    assert s[i..][1..] == s[i + 1..];
    match Items(s[i + 1..])
    case Err(e) =>
    case Ok(more) =>
      if Priority(s[i]).Some? {
        var p := Priority(s[i]).value;
        assert items + ({p} + more) == (items + {p}) + more;
      }
  }

  /** The loop that scans a line for a shared item. */
  method FindShared(s: string, items: set<nat>) returns (r: Answer<Option<nat>>)
    ensures r == FirstShared(s, items)
  {
    for i := 0 to |s|
      invariant FirstShared(s, items) == FirstShared(s[i..], items)
    {
      assert s[i..][1..] == s[i + 1..];
      var prio := Priority(s[i]);
      if prio.None? {
        return Err(BadItem(s[i]));
      }
      if prio.value in items {
        return Ok(Some(prio.value));
      }
    }
    assert s[|s|..] == [];
    r := Ok(None);
  }

  // ---------------------------------------------------------------------
  // Byte lengths: `str::len` and `str::split_at` count UTF-8 bytes.
  // ---------------------------------------------------------------------

  function Utf8Len(c: char): (n: nat)
    ensures 1 <= n <= 4
  {
    if c as int < 0x80 then 1 else if c as int < 0x800 then 2 else if c as int < 0x10000 then 3 else 4
  }

  function ByteLen(s: string): nat {
    if s == [] then 0 else Utf8Len(s[0]) + ByteLen(s[1..])
  }

  /** `str::split_at(n)`: the characters making up the first `n` bytes and the
      rest, or nothing when byte `n` falls inside a character (where Rust
      panics). */
  function SplitAtByte(s: string, n: nat): (r: Option<(string, string)>)
    ensures r.Some? ==> r.value.0 + r.value.1 == s && ByteLen(r.value.0) == n
  {
    if n == 0 then Some(([], s))
    else if s == [] || Utf8Len(s[0]) > n then None
    else match SplitAtByte(s[1..], n - Utf8Len(s[0]))
      case None => None
      case Some((a, b)) =>
        assert [s[0]] + a + b == s;
        assert ([s[0]] + a)[1..] == a;
        Some(([s[0]] + a, b))
  }

  /** Letters take one byte each, so on them bytes and characters agree. */
  lemma {:induction false} LettersByBytes(s: string, n: nat)
    requires forall k :: 0 <= k < |s| ==> IsLetter(s[k])
    requires n <= |s|
    ensures ByteLen(s) == |s|
    ensures SplitAtByte(s, n) == Some((s[..n], s[n..]))
  {
    if s != [] {
      assert forall k :: 0 <= k < |s[1..]| ==> s[1..][k] == s[k + 1];
      LettersByBytes(s[1..], if n == 0 then 0 else n - 1);
      if n > 0 {
        assert [s[0]] + s[1..][..n - 1] == s[..n];
        assert s[1..][n - 1..] == s[n..];
      }
    }
  }

  // ---------------------------------------------------------------------
  // Part 1: the item both halves of a line share.
  // ---------------------------------------------------------------------

  const OddLine := "Odd number of items in line"
  const NotCharBoundary := "byte index is not a char boundary"

  function NoMatch(line: string): string {
    "No matches in line " + line
  }

  /** One line of `part1`: nothing for a blank line, otherwise the priority
      of the first item of the right half whose bit is in the left half's
      mask. */
  function Rucksack(line: string): (r: Answer<Option<nat>>)
    ensures r.Ok? && r.value.Some? ==> 1 <= r.value.value <= 52
    ensures r == Ok(None) <==> IsBlank(line)
    ensures !IsBlank(line) && ByteLen(Trim(line)) % 2 != 0 ==> r == Err(OddLine)
    ensures r.Ok? && !IsBlank(line) ==> var l := Trim(line);
      && ByteLen(l) % 2 == 0
      && SplitAtByte(l, ByteLen(l) / 2).Some?
      && AllLetters(SplitAtByte(l, ByteLen(l) / 2).value.0)
  {
    var l := Trim(line);
    if l == [] then Ok(None)
    else if ByteLen(l) % 2 != 0 then Err(OddLine)
    else match SplitAtByte(l, ByteLen(l) / 2)
      case None => Err(NotCharBoundary)
      case Some((left, right)) =>
        match Items(left)
        case Err(e) => Err(e)
        case Ok(items) =>
          match FirstShared(right, items)
          case Err(e) => Err(e)
          case Ok(None) => Err(NoMatch(l))
          case Ok(Some(p)) => Ok(Some(p))
  }

  /** The mask stops at the first character that is not an item. */
  lemma {:induction false} ItemsStopsAt(s: string, k: nat)
    requires k < |s| && !IsLetter(s[k])
    requires forall j :: 0 <= j < k ==> IsLetter(s[j])
    ensures Items(s) == Err(BadItem(s[k]))
  {
    if k > 0 {
      assert IsLetter(s[0]);
      assert forall j :: 0 <= j < k - 1 ==> s[1..][j] == s[j + 1];
      ItemsStopsAt(s[1..], k - 1);
    }
  }

  /** The scan stops at a character that is not an item when no item before
      it is in the mask. */
  lemma {:induction false} FirstSharedStopsAt(s: string, items: set<nat>, k: nat)
    requires k < |s| && !IsLetter(s[k])
    requires forall j :: 0 <= j < k ==> IsLetter(s[j]) && Priority(s[j]).value !in items
    ensures FirstShared(s, items) == Err(BadItem(s[k]))
  {
    if k > 0 {
      assert IsLetter(s[0]);
      assert forall j :: 0 <= j < k - 1 ==> s[1..][j] == s[j + 1];
      FirstSharedStopsAt(s[1..], items, k - 1);
    }
  }

  /** A line whose left half holds a character that is not an item fails
      with "Incorrect item" for the first such character. */
  lemma BadLeftItem(line: string, k: nat)
    requires var l := Trim(line);
      l != [] && ByteLen(l) % 2 == 0 && SplitAtByte(l, ByteLen(l) / 2).Some?
    requires var l := Trim(line); var left := SplitAtByte(l, ByteLen(l) / 2).value.0;
      k < |left| && !IsLetter(left[k]) && forall j :: 0 <= j < k ==> IsLetter(left[j])
    ensures var l := Trim(line); var left := SplitAtByte(l, ByteLen(l) / 2).value.0;
      Rucksack(line) == Err(BadItem(left[k]))
  {
    var l := Trim(line);
    ItemsStopsAt(SplitAtByte(l, ByteLen(l) / 2).value.0, k);
  }

  /** A line whose left half is all items fails with "Incorrect item" for
      the first character of the right half that is not an item, when no
      item before it occurs in the left half. */
  lemma BadRightItem(line: string, k: nat)
    requires var l := Trim(line);
      l != [] && ByteLen(l) % 2 == 0 && SplitAtByte(l, ByteLen(l) / 2).Some?
    requires var l := Trim(line); var halves := SplitAtByte(l, ByteLen(l) / 2).value;
      && AllLetters(halves.0)
      && k < |halves.1| && !IsLetter(halves.1[k])
      && forall j :: 0 <= j < k ==> IsLetter(halves.1[j]) && halves.1[j] !in halves.0
    ensures var l := Trim(line); var halves := SplitAtByte(l, ByteLen(l) / 2).value;
      Rucksack(line) == Err(BadItem(halves.1[k]))
  {
    var l := Trim(line);
    var (left, right) := SplitAtByte(l, ByteLen(l) / 2).value;
    forall j | 0 <= j < k
      ensures Priority(right[j]).value !in Items(left).value
    {
      InItems(left, right[j]);
    }
    FirstSharedStopsAt(right, Items(left).value, k);
  }

  /** A line of letters of even length is accepted exactly when its two
      halves have an item in common, and counts the priority of the first
      such item of the right half. */
  lemma LetterRucksack(line: string)
    requires var l := Trim(line);
      l != [] && |l| % 2 == 0 && forall k :: 0 <= k < |l| ==> IsLetter(l[k])
    ensures var l := Trim(line); var h := |l| / 2;
      Rucksack(line) == match FirstIn(set k | 0 <= k < h :: l[k], l[h..])
        case None => Err(NoMatch(l))
        case Some(c) => Ok(Some(Priority(c).value))
  {
    var l := Trim(line);
    var h := |l| / 2;
    LettersByBytes(l, h);
    var left, right := l[..h], l[h..];
    var chars := set k | 0 <= k < h :: l[k];
    assert forall k :: 0 <= k < |left| ==> left[k] == l[k];
    assert forall k :: 0 <= k < |right| ==> right[k] == l[h + k];
    forall c | IsLetter(c)
      ensures Priority(c).value in Items(left).value <==> c in chars
    {
      InItems(left, c);
      if c in left {
        var k :| 0 <= k < |left| && left[k] == c;
        assert l[k] == c;
      }
      if c in chars {
        var k :| 0 <= k < h && l[k] == c;
        assert left[k] == c;
      }
    }
    FirstSharedIsFirstIn(right, Items(left).value, chars);
  }

  /** How a line is read: nothing, a priority, or an error. */
  type Scan = string -> Answer<Option<nat>>

  /** The sum of the priorities the lines give from `sum` on, or the error of
      the first line that fails. */
  function Total(lines: seq<string>, scan: Scan, sum: nat): Answer<nat> {
    if lines == [] then Ok(sum)
    else match scan(lines[0])
      case Err(e) => Err(e)
      case Ok(p) => Total(lines[1..], scan, sum + if p.Some? then p.value else 0)
  }

  /** The sum fails exactly when one of the lines does. */
  lemma {:induction false} TotalFails(lines: seq<string>, scan: Scan, sum: nat)
    ensures Total(lines, scan, sum).Err? <==> exists k :: 0 <= k < |lines| && scan(lines[k]).Err?
  {
    if lines != [] {
      if scan(lines[0]).Ok? {
        var p := scan(lines[0]).value;
        TotalFails(lines[1..], scan, sum + if p.Some? then p.value else 0);
        assert forall k :: 0 <= k < |lines[1..]| ==> lines[1..][k] == lines[k + 1];
      }
    }
  }

  /** Each line adds at most `bound`. */
  lemma {:induction false} TotalBounds(lines: seq<string>, scan: Scan, sum: nat, bound: nat)
    requires forall l :: scan(l).Ok? && scan(l).value.Some? ==> scan(l).value.value <= bound
    ensures Total(lines, scan, sum).Ok? ==> sum <= Total(lines, scan, sum).value <= sum + bound * |lines|
  {
    if lines != [] && scan(lines[0]).Ok? {
      var p := scan(lines[0]).value;
      TotalBounds(lines[1..], scan, sum + if p.Some? then p.value else 0, bound);
    }
  }

  /** `part1` fails exactly when one of its lines does, and adds at most 52
      per line. */
  lemma Part1Total(lines: seq<string>)
    ensures Total(lines, Rucksack, 0).Err? <==> exists k :: 0 <= k < |lines| && Rucksack(lines[k]).Err?
    ensures Total(lines, Rucksack, 0).Ok? ==> Total(lines, Rucksack, 0).value <= 52 * |lines|
  {
    TotalFails(lines, Rucksack, 0);
    TotalBounds(lines, Rucksack, 0, 52);
  }

  /** One line of the sum. */
  lemma TotalStep(lines: seq<string>, i: nat, scan: Scan, sum: nat)
    requires i < |lines|
    ensures Total(lines[i..], scan, sum) == match scan(lines[i])
      case Err(e) => Err(e)
      case Ok(p) => Total(lines[i + 1..], scan, sum + if p.Some? then p.value else 0)
  {
    assert lines[i..][1..] == lines[i + 1..];
  }

  /** The loop of `part1`. */
  method Part1(lines: seq<string>) returns (r: Answer<nat>)
    ensures r == Total(lines, Rucksack, 0)
  {
    var sum: nat := 0;
    for i := 0 to |lines|
      invariant Total(lines, Rucksack, 0) == Total(lines[i..], Rucksack, sum)
    {
      TotalStep(lines, i, Rucksack, sum);
      var found := Rucksack(lines[i]);
      if found.Err? {
        return Err(found.error);
      }
      if found.value.Some? {
        sum := sum + found.value.value;
      }
    }
    assert lines[|lines|..] == [];
    r := Ok(sum);
  }

  // ---------------------------------------------------------------------
  // Part 2: the item each group of three lines shares.
  // ---------------------------------------------------------------------

  /** The variables of `part2`'s loop: the sum so far, the number of the line
      within its group (1, 2 or 3, and 4 or more once a third line had no
      match), and the mask of the items the group's lines so far share. */
  datatype GroupState = GroupState(sum: nat, lineNo: nat, shared: set<nat>)

  function Start(): GroupState {
    GroupState(0, 1, AllBits())
  }

  function Extra(n: nat): string {
    "Extra " + Decimal(n) + " line(s)"
  }

  /** A non-blank line of `part2`: a third line adds the priority of its
      first item in the shared mask and starts a new group, or moves on to
      line 4 if it has none; any other line narrows the shared mask. */
  function Visit(st: GroupState, l: string): (r: Answer<GroupState>)
    ensures r.Ok? && st.lineNo != 3 ==> r.value.lineNo == st.lineNo + 1 && r.value.sum == st.sum
    ensures r.Ok? ==> r.value.lineNo >= 1
  {
    if st.lineNo == 3 then
      match FirstShared(l, st.shared)
      case Err(e) => Err(e)
      case Ok(Some(p)) => Ok(GroupState(st.sum + p, 1, AllBits()))
      case Ok(None) => Ok(st.(lineNo := 4))
    else
      match Items(l)
      case Err(e) => Err(e)
      case Ok(items) => Ok(GroupState(st.sum, st.lineNo + 1, st.shared * items))
  }

  /** The lines that are not blank, trimmed. */
  function Contents(lines: seq<string>): (ls: seq<string>)
    ensures forall k :: 0 <= k < |ls| ==> ls[k] != []
  {
    if lines == [] then []
    else if Trim(lines[0]) == [] then Contents(lines[1..])
    else [Trim(lines[0])] + Contents(lines[1..])
  }

  /** `Visit` over trimmed, non-blank lines. */
  function Run(ls: seq<string>, st: GroupState): (r: Answer<GroupState>)
    ensures r.Ok? && st.lineNo >= 1 ==> r.value.lineNo >= 1
  {
    if ls == [] then Ok(st)
    else match Visit(st, ls[0])
      case Err(e) => Err(e)
      case Ok(next) => Run(ls[1..], next)
  }

  /** `part2`: the loop over the lines, then the check that the last group
      is complete. */
  function Badges(lines: seq<string>): Answer<nat> {
    match Run(Contents(lines), Start())
    case Err(e) => Err(e)
    case Ok(st) => if st.lineNo == 1 then Ok(st.sum) else Err(Extra(st.lineNo - 1))
  }

  /** One line of the loop. */
  lemma RunStep(lines: seq<string>, i: nat, st: GroupState)
    requires i < |lines|
    ensures Run(Contents(lines[i..]), st) ==
      if Trim(lines[i]) == [] then Run(Contents(lines[i + 1..]), st)
      else match Visit(st, Trim(lines[i]))
        case Err(e) => Err(e)
        case Ok(next) => Run(Contents(lines[i + 1..]), next)
  {
    assert lines[i..][1..] == lines[i + 1..];
    if Trim(lines[i]) != [] {
      var ls := Contents(lines[i..]);
      assert ls[1..] == Contents(lines[i + 1..]);
    }
  }

  /** A third line, by the outcome of its scan. */
  lemma VisitThird(st: GroupState, line: string)
    requires st.lineNo == 3
    ensures Visit(st, line) == match FirstShared(line, st.shared)
      case Err(e) => Err(e)
      case Ok(Some(p)) => Ok(GroupState(st.sum + p, 1, AllBits()))
      case Ok(None) => Ok(GroupState(st.sum, st.lineNo + 1, st.shared))
  {
  }

  /** A first or second line, by the outcome of its mask. */
  lemma VisitOther(st: GroupState, line: string)
    requires st.lineNo != 3
    ensures Visit(st, line) == match Items(line)
      case Err(e) => Err(e)
      case Ok(items) => Ok(GroupState(st.sum, st.lineNo + 1, st.shared * items))
  {
  }

  /** The loop of `part2`. */
  method Part2(lines: seq<string>) returns (r: Answer<nat>)
    ensures r == Badges(lines)
  {
    var sum: nat := 0;
    var lineNo: nat := 1;
    var shared := AllBits();
    for i := 0 to |lines|
      invariant Run(Contents(lines), Start()) == Run(Contents(lines[i..]), GroupState(sum, lineNo, shared))
    {
      RunStep(lines, i, GroupState(sum, lineNo, shared));
      var line := Trim(lines[i]);
      if line == [] {
        continue;
      }
      ghost var st := GroupState(sum, lineNo, shared);
      if lineNo == 3 {
        var found := FindShared(line, shared);
        VisitThird(st, line);
        if found.Err? {
          return Err(found.error);
        }
        if found.value.Some? {
          sum, lineNo, shared := sum + found.value.value, 1, AllBits();
          continue;
        }
      } else {
        var items := CollectItems(line);
        VisitOther(st, line);
        if items.Err? {
          return Err(items.error);
        }
        shared := shared * items.value;
      }
      lineNo := lineNo + 1;
    }
    assert lines[|lines|..] == [];
    if lineNo == 1 {
      r := Ok(sum);
    } else {
      r := Err(Extra(lineNo - 1));
    }
  }

  // The reference: the lines taken three at a time.

  function CharSet(s: string): set<char> {
    set k | 0 <= k < |s| :: s[k]
  }

  /** The sum of the priorities of the first item of every third line that
      also occurs in the two lines before it, or nothing if the lines do not
      split into such groups. */
  function GroupSum(ls: seq<string>): Option<nat> {
    if ls == [] then Some(0)
    else if |ls| < 3 then None
    else match FirstIn(CharSet(ls[0]) * CharSet(ls[1]), ls[2])
      case None => None
      case Some(c) =>
        match (Priority(c), GroupSum(ls[3..]))
        case (Some(p), Some(rest)) => Some(p + rest)
        case _ => None
  }

  predicate AllLetters(s: string) {
    forall k :: 0 <= k < |s| ==> IsLetter(s[k])
  }

  /** The mask two lines of letters share stands for the items they share. */
  lemma SharedMask(a: string, b: string)
    requires AllLetters(a) && AllLetters(b)
    ensures forall c :: IsLetter(c) ==>
      (Priority(c).value in AllBits() * Items(a).value * Items(b).value <==> c in CharSet(a) * CharSet(b))
  {
    forall c | IsLetter(c)
      ensures Priority(c).value in AllBits() * Items(a).value * Items(b).value <==> c in CharSet(a) * CharSet(b)
    {
      InItems(a, c);
      InItems(b, c);
      if c in a {
        var k :| 0 <= k < |a| && a[k] == c;
        assert c in CharSet(a);
      }
      if c in b {
        var k :| 0 <= k < |b| && b[k] == c;
        assert c in CharSet(b);
      }
    }
  }

  /** Once a third line had no match, every further line only counts up. */
  lemma {:induction false} Stuck(ls: seq<string>, st: GroupState)
    requires st.lineNo >= 4
    requires forall k :: 0 <= k < |ls| ==> AllLetters(ls[k])
    ensures Run(ls, st).Ok? && Run(ls, st).value.lineNo == st.lineNo + |ls|
  {
    if ls != [] {
      assert AllLetters(ls[0]);
      var next := Visit(st, ls[0]).value;
      assert forall k :: 0 <= k < |ls[1..]| ==> ls[1..][k] == ls[k + 1];
      Stuck(ls[1..], next);
    }
  }

  /** The first two lines of a group narrow the mask to the items they
      share. */
  lemma FirstTwo(ls: seq<string>, sum: nat)
    requires |ls| >= 2 && AllLetters(ls[0]) && AllLetters(ls[1])
    ensures Run(ls, GroupState(sum, 1, AllBits())) ==
      Run(ls[2..], GroupState(sum, 3, AllBits() * Items(ls[0]).value * Items(ls[1]).value))
  {
    var st1 := GroupState(sum, 2, AllBits() * Items(ls[0]).value);
    assert Run(ls, GroupState(sum, 1, AllBits())) == Run(ls[1..], st1);
    assert ls[1..][0] == ls[1] && ls[1..][1..] == ls[2..];
  }

  /** The third line of a group adds the priority of its first item that the
      other two lines share, or moves on to line 4. */
  lemma ThirdLine(ls: seq<string>, sum: nat, found: Option<char>)
    requires |ls| >= 3 && AllLetters(ls[0]) && AllLetters(ls[1]) && AllLetters(ls[2])
    requires found == FirstIn(CharSet(ls[0]) * CharSet(ls[1]), ls[2])
    ensures found.None? ==> (Run(ls, GroupState(sum, 1, AllBits())) ==
      Run(ls[3..], GroupState(sum, 4, AllBits() * Items(ls[0]).value * Items(ls[1]).value)))
    ensures found.Some? ==> (Run(ls, GroupState(sum, 1, AllBits())) ==
      Run(ls[3..], GroupState(sum + Priority(found.value).value, 1, AllBits())))
  {
    FirstTwo(ls, sum);
    var shared := AllBits() * Items(ls[0]).value * Items(ls[1]).value;
    SharedMask(ls[0], ls[1]);
    assert ls[2..][0] == ls[2] && ls[2..][1..] == ls[3..];
    ThirdStep(ls[2..], sum, shared, CharSet(ls[0]) * CharSet(ls[1]), found);
  }

  /** The step of `part2` on a third line, whose shared mask stands for the
      characters `chars`. */
  lemma ThirdStep(rest: seq<string>, sum: nat, shared: set<nat>, chars: set<char>, found: Option<char>)
    requires rest != [] && AllLetters(rest[0])
    requires forall c :: IsLetter(c) ==> (Priority(c).value in shared <==> c in chars)
    requires found == FirstIn(chars, rest[0])
    ensures found.None? ==> Run(rest, GroupState(sum, 3, shared)) == Run(rest[1..], GroupState(sum, 4, shared))
    ensures found.Some? ==>
      Run(rest, GroupState(sum, 3, shared)) == Run(rest[1..], GroupState(sum + Priority(found.value).value, 1, AllBits()))
  {
    FirstSharedIsFirstIn(rest[0], shared, chars);
  }

  /** A group of three lines of letters in the reference. */
  lemma GroupSumStep(ls: seq<string>, found: Option<char>)
    requires |ls| >= 3 && AllLetters(ls[2])
    requires found == FirstIn(CharSet(ls[0]) * CharSet(ls[1]), ls[2])
    ensures found.None? ==> GroupSum(ls).None?
    ensures found.Some? ==> (GroupSum(ls) ==
      match GroupSum(ls[3..]) case None => None case Some(rest) => Some(Priority(found.value).value + rest))
  {
    if found.Some? {
      var k :| 0 <= k < |ls[2]| && ls[2][k] == found.value;
      assert IsLetter(found.value);
    }
  }

  /** The loop's result `r` from running sum `sum` agrees with the
      reference's `g`: it ends at line 1 exactly when the reference has a
      sum, and then with that sum added. */
  predicate Agrees(r: Answer<GroupState>, g: Option<nat>, sum: nat) {
    && r.Ok?
    && (r.value.lineNo == 1 <==> g.Some?)
    && (g.Some? ==> r.value.sum == sum + g.value)
  }

  /** One or two lines left: the loop stops before line 3 and the reference
      has no sum. */
  lemma ShortGroup(ls: seq<string>, sum: nat)
    requires 1 <= |ls| <= 2 && forall k :: 0 <= k < |ls| ==> AllLetters(ls[k])
    ensures Agrees(Run(ls, GroupState(sum, 1, AllBits())), GroupSum(ls), sum)
  {
    if |ls| == 1 {
      assert AllLetters(ls[0]);
      assert ls[1..] == [];
    } else {
      assert AllLetters(ls[0]) && AllLetters(ls[1]);
      FirstTwo(ls, sum);
      assert ls[2..] == [];
    }
  }

  /** A group whose third line shares an item: the loop and the reference
      both go on with the rest, the priority added. */
  lemma MatchedGroup(ls: seq<string>, sum: nat, found: Option<char>)
    requires |ls| >= 3 && AllLetters(ls[0]) && AllLetters(ls[1]) && AllLetters(ls[2])
    requires found == FirstIn(CharSet(ls[0]) * CharSet(ls[1]), ls[2]) && found.Some?
    requires Agrees(Run(ls[3..], GroupState(sum + Priority(found.value).value, 1, AllBits())), GroupSum(ls[3..]),
      sum + Priority(found.value).value)
    ensures Agrees(Run(ls, GroupState(sum, 1, AllBits())), GroupSum(ls), sum)
  {
    ThirdLine(ls, sum, found);
    GroupSumStep(ls, found);
  }

  /** A group whose third line shares nothing: the reference has no sum and
      the loop never comes back to line 1. */
  lemma MissedGroup(ls: seq<string>, sum: nat, found: Option<char>)
    requires |ls| >= 3 && forall k :: 0 <= k < |ls| ==> AllLetters(ls[k])
    requires found == FirstIn(CharSet(ls[0]) * CharSet(ls[1]), ls[2]) && found.None?
    ensures Agrees(Run(ls, GroupState(sum, 1, AllBits())), GroupSum(ls), sum)
  {
    assert AllLetters(ls[0]) && AllLetters(ls[1]) && AllLetters(ls[2]);
    ThirdLine(ls, sum, found);
    GroupSumStep(ls, found);
    var rest := ls[3..];
    assert forall k :: 0 <= k < |rest| ==> rest[k] == ls[k + 3];
    Stuck(rest, GroupState(sum, 4, AllBits() * Items(ls[0]).value * Items(ls[1]).value));
  }

  /** Over lines of letters, the loop ends at line 1 exactly when the lines
      split into groups of three that each share an item, with the sum of
      their priorities. */
  lemma {:induction false} Grouped(ls: seq<string>, sum: nat)
    requires forall k :: 0 <= k < |ls| ==> AllLetters(ls[k])
    ensures Agrees(Run(ls, GroupState(sum, 1, AllBits())), GroupSum(ls), sum)
    decreases |ls|
  {
    if ls == [] {
    } else if |ls| < 3 {
      ShortGroup(ls, sum);
    } else {
      assert AllLetters(ls[0]) && AllLetters(ls[1]) && AllLetters(ls[2]);
      var found := FirstIn(CharSet(ls[0]) * CharSet(ls[1]), ls[2]);
      if found.None? {
        MissedGroup(ls, sum, found);
      } else {
        var rest := ls[3..];
        assert forall k :: 0 <= k < |rest| ==> rest[k] == ls[k + 3];
        Grouped(rest, sum + Priority(found.value).value);
        MatchedGroup(ls, sum, found);
      }
    }
  }

  /** `part2` on lines of letters: it succeeds exactly when the non-blank
      lines split into groups of three that each share an item, and then
      returns the sum of the priorities of those items; otherwise it reports
      the lines left over. */
  lemma Part2Groups(lines: seq<string>)
    requires forall k :: 0 <= k < |Contents(lines)| ==> AllLetters(Contents(lines)[k])
    ensures Badges(lines).Ok? <==> GroupSum(Contents(lines)).Some?
    ensures Badges(lines).Ok? ==> Badges(lines).value == GroupSum(Contents(lines)).value
    ensures Badges(lines).Err? ==> exists n: nat :: n >= 1 && Badges(lines) == Err(Extra(n))
  {
    Grouped(Contents(lines), 0);
  }
}
