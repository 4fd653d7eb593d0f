/** Day 1, "Calorie Counting" (2022/rust/src/bin/01.rs): the lines list the
    calories each elf carries, one number per line, with a blank line between
    elves. `parse` hands the total of every group to a callback; part 1 keeps
    the largest total, part 2 the three largest in a three-slot array. */
module Day01Calories {
  import opened Outcomes
  import opened Text

  const NotANumber := "Failed to parse non-empty line"
  const NoElves := "No elves in data"
  const FewerThanThree := "Less than 3 elves in data"

  // ---------------------------------------------------------------------
  // `parse`: the group totals.
  // ---------------------------------------------------------------------

  /** What a line is to `parse` once trimmed. */
  datatype Line = Blank | Number(value: nat) | Bad

  function Classify(line: string): Line {
    var l := Trim(line);
    if l == [] then Blank
    else match ParseU64(l)
      case Err(_) => Bad
      case Ok(v) => Number(v)
  }

  function Kinds(lines: seq<string>): (ks: seq<Line>)
    ensures |ks| == |lines|
  {
    if lines == [] then [] else [Classify(lines[0])] + Kinds(lines[1..])
  }

  lemma {:induction false} KindOf(lines: seq<string>, k: nat)
    requires k < |lines|
    ensures Kinds(lines)[k] == Classify(lines[k])
  {
    if k > 0 {
      KindOf(lines[1..], k - 1);
    }
  }

  /** The totals `parse` emits while reading lines of the given kinds with
      running total `sum`: a blank line emits the running total and resets
      it, a number is added to it, and anything else fails the run. A total
      still running when the lines run out is not emitted. */
  function Feed(kinds: seq<Line>, sum: nat): (r: Answer<seq<nat>>)
    ensures r.Err? ==> r.error == NotANumber
  {
    if kinds == [] then Ok([])
    else match kinds[0]
      case Bad => Err(NotANumber)
      case Number(v) => Feed(kinds[1..], sum + v)
      case Blank => Then([sum], Feed(kinds[1..], 0))
  }

  /** `out` followed by whatever `r` emits, or `r`'s error. */
  function Then(out: seq<nat>, r: Answer<seq<nat>>): Answer<seq<nat>> {
    match r
    case Err(e) => Err(e)
    case Ok(rest) => Ok(out + rest)
  }

  /** `parse` chains one empty, hence blank, line onto the input, so that
      the last group is emitted too. */
  function Emitted(lines: seq<string>): Answer<seq<nat>> {
    Feed(Kinds(lines) + [Blank], 0)
  }

  /** The loop of `parse`, with the callback's calls collected in order. */
  method Parse(lines: seq<string>) returns (r: Answer<seq<nat>>)
    ensures r == Emitted(lines)
  {
    var all := lines + [""];
    ghost var kinds := Kinds(lines) + [Blank];
    var out: seq<nat> := [];
    var sum := 0;
    assert kinds[0..] == kinds;
    ThenAppends([], [], Feed(kinds, 0));
    for i := 0 to |all|
      invariant Feed(kinds, 0) == Then(out, Feed(kinds[i..], sum))
    {
      if i < |lines| {
        KindOf(lines, i);
        assert all[i] == lines[i];
      }
      assert kinds[i] == Classify(all[i]);
      var l := Trim(all[i]);
      if l != [] {
        var v := ParseU64(l);
        if v.Err? {
          return Err(NotANumber);
        }
        FeedNumber(kinds, i, sum, v.value);
        sum := sum + v.value;
        continue;
      }
      FeedBlank(kinds, i, sum);
      ThenAppends(out, [sum], Feed(kinds[i + 1..], 0));
      out := out + [sum];
      sum := 0;
    }
    assert kinds[|all|..] == [];
    ThenAppends(out, [], Ok([]));
    r := Ok(out);
  }

  lemma FeedNumber(kinds: seq<Line>, i: nat, sum: nat, v: nat)
    requires i < |kinds| && kinds[i] == Number(v)
    ensures Feed(kinds[i..], sum) == Feed(kinds[i + 1..], sum + v)
  {
    assert kinds[i..][1..] == kinds[i + 1..];
  }

  lemma FeedBlank(kinds: seq<Line>, i: nat, sum: nat)
    requires i < |kinds| && kinds[i] == Blank
    ensures Feed(kinds[i..], sum) == Then([sum], Feed(kinds[i + 1..], 0))
  {
    assert kinds[i..][1..] == kinds[i + 1..];
  }

  lemma ThenAppends(out: seq<nat>, more: seq<nat>, r: Answer<seq<nat>>)
    ensures Then(out, Then(more, r)) == Then(out + more, r)
    ensures Then([], r) == r && Then(out, Ok([])) == Ok(out)
  {
    assert out + [] == out;
    match r
    case Err(e) =>
    case Ok(rest) =>
      assert out + (more + rest) == (out + more) + rest;
      assert [] + rest == rest;
  }

  // The totals are the sums of the groups of lines between blank lines.

  /** The numbers split into groups at blank lines, as `str::split` would:
      `k` blank lines give `k + 1` groups, some of them perhaps empty. */
  function Groups(kinds: seq<Line>): (gs: seq<seq<nat>>)
    ensures |gs| >= 1
  {
    if kinds == [] then [[]]
    else
      var rest := Groups(kinds[1..]);
      match kinds[0]
      case Blank => [[]] + rest
      case Number(v) => [[v] + rest[0]] + rest[1..]
      case Bad => rest
  }

  function Sum(xs: seq<nat>): nat {
    if xs == [] then 0 else xs[0] + Sum(xs[1..])
  }

  function Totals(gs: seq<seq<nat>>): (ts: seq<nat>)
    ensures |ts| == |gs|
  {
    if gs == [] then [] else [Sum(gs[0])] + Totals(gs[1..])
  }

  /** Without a bad line, `parse` emits the total of every group that a
      blank line closes, the first one counted on from the running total. */
  lemma {:induction false} FeedGroups(kinds: seq<Line>, sum: nat)
    requires Bad !in kinds
    ensures var gs := Groups(kinds);
      Feed(kinds + [Blank], sum) == Ok([sum + Sum(gs[0])] + Totals(gs[1..]))
  {
    var all := kinds + [Blank];
    if kinds == [] {
      assert all[1..] == [];
    } else {
      assert all[1..] == kinds[1..] + [Blank];
      assert kinds[0] == all[0] && kinds[0] in kinds;
      var rest := Groups(kinds[1..]);
      assert Bad !in kinds[1..] by {
        forall k | 0 <= k < |kinds[1..]|
          ensures kinds[1..][k] != Bad
        {
          assert kinds[1..][k] == kinds[k + 1];
        }
      }
      match kinds[0]
      case Blank =>
        FeedGroups(kinds[1..], 0);
      case Number(v) =>
        FeedGroups(kinds[1..], sum + v);
        assert ([v] + rest[0])[1..] == rest[0];
    }
  }

  /** `parse` fails exactly when some line is neither blank nor a number. */
  lemma {:induction false} FeedFails(kinds: seq<Line>, sum: nat)
    ensures Feed(kinds, sum).Err? <==> Bad in kinds
  {
    if kinds != [] {
      assert kinds == [kinds[0]] + kinds[1..];
      match kinds[0]
      case Bad =>
      case Number(v) => FeedFails(kinds[1..], sum + v);
      case Blank => FeedFails(kinds[1..], 0);
    }
  }

  /** A line that is neither blank nor a number shows among the kinds. */
  lemma BadKinds(lines: seq<string>)
    ensures Bad in Kinds(lines) <==> exists k :: 0 <= k < |lines| && Classify(lines[k]).Bad?
  {
    var kinds := Kinds(lines);
    if Bad in kinds {
      var k :| 0 <= k < |kinds| && kinds[k] == Bad;
      KindOf(lines, k);
    }
    if exists k :: 0 <= k < |lines| && Classify(lines[k]).Bad? {
      var k :| 0 <= k < |lines| && Classify(lines[k]).Bad?;
      KindOf(lines, k);
      assert kinds[k] in kinds;
    }
  }

  lemma BadInChained(kinds: seq<Line>)
    ensures Bad in kinds + [Blank] <==> Bad in kinds
  {
    if Bad in kinds + [Blank] {
      var k :| 0 <= k < |kinds| + 1 && (kinds + [Blank])[k] == Bad;
      assert k < |kinds| && kinds[k] == Bad;
    }
    if Bad in kinds {
      var k :| 0 <= k < |kinds| && kinds[k] == Bad;
      assert (kinds + [Blank])[k] == Bad;
    }
  }

  /** Each group of non-blank lines is emitted once, as the sum of its
      numbers, and a line that is neither blank nor a number fails the whole
      run. */
  lemma EmittedGroups(lines: seq<string>)
    ensures Emitted(lines).Err? <==> exists k :: 0 <= k < |lines| && Classify(lines[k]).Bad?
    ensures Emitted(lines).Ok? ==> Emitted(lines).value == Totals(Groups(Kinds(lines)))
  {
    ChainedFeed(Kinds(lines));
    BadKinds(lines);
  }

  lemma ChainedFeed(kinds: seq<Line>)
    ensures Feed(kinds + [Blank], 0).Err? <==> Bad in kinds
    ensures Feed(kinds + [Blank], 0).Ok? ==> Feed(kinds + [Blank], 0).value == Totals(Groups(kinds))
  {
    FeedFails(kinds + [Blank], 0);
    BadInChained(kinds);
    if Bad !in kinds {
      FeedGroups(kinds, 0);
      var gs := Groups(kinds);
      assert Totals(gs) == [Sum(gs[0])] + Totals(gs[1..]);
    }
  }

  /** There is always at least one total: the chained empty line emits one
      even for an empty input, so part 1's "No elves in data" cannot occur. */
  lemma AlwaysOneGroup(lines: seq<string>)
    ensures Emitted(lines).Ok? ==> |Emitted(lines).value| >= 1
  {
    EmittedGroups(lines);
  }

  // ---------------------------------------------------------------------
  // Part 1: the largest total.
  // ---------------------------------------------------------------------

  /** The callback of `part1`: a running maximum, replaced by every total
      that is larger. */
  method Highest(sums: seq<nat>) returns (r: Answer<nat>)
    ensures r.Err? <==> sums == []
    ensures r.Err? ==> r.error == NoElves
    ensures r.Ok? ==> r.value in sums && forall i :: 0 <= i < |sums| ==> sums[i] <= r.value
  {
    var max: Option<nat> := None;
    for i := 0 to |sums|
      invariant max.None? <==> i == 0
      invariant max.Some? ==> max.value in sums[..i]
      invariant max.Some? ==> forall j :: 0 <= j < i ==> sums[j] <= max.value
    {
      if !(max.Some? && sums[i] <= max.value) {
        max := Some(sums[i]);
      }
    }
    assert sums[..|sums|] == sums;
    if max.None? {
      return Err(NoElves);
    }
    r := Ok(max.value);
  }

  method Part1(lines: seq<string>) returns (r: Answer<nat>)
    ensures Emitted(lines).Err? ==> r == Err(NotANumber)
    ensures Emitted(lines).Ok? ==> r.Ok?
    ensures r.Ok? ==> var sums := Emitted(lines).value;
      r.value in sums && forall i :: 0 <= i < |sums| ==> sums[i] <= r.value
  {
    var sums := Parse(lines);
    if sums.Err? {
      return Err(sums.error);
    }
    AlwaysOneGroup(lines);
    r := Highest(sums.value);
  }

  // ---------------------------------------------------------------------
  // Part 2: the three largest totals.
  // ---------------------------------------------------------------------

  /** The callback of `part2` from slot `i` on, carrying `carry`: a filled
      slot whose value is below the carried one swaps it for the carried one
      and carries its own on; an empty slot takes the carried value and ends
      the pass; a pass that runs off the end drops the carried value. */
  function Pass(a: seq<Option<nat>>, i: nat, carry: nat): (b: seq<Option<nat>>)
    requires i <= |a|
    ensures |b| == |a|
    decreases |a| - i
  {
    if i == |a| then a
    else match a[i]
      case None => a[i := Some(carry)]
      case Some(v) => if v < carry then Pass(a[i := Some(carry)], i + 1, v) else Pass(a, i + 1, carry)
  }

  method Offer(slots: array<Option<nat>>, x: nat)
    modifies slots
    ensures slots[..] == Pass(old(slots[..]), 0, x)
  {
    var carry := x;
    for i := 0 to slots.Length
      invariant Pass(slots[..], i, carry) == Pass(old(slots[..]), 0, x)
    {
      match slots[i]
      case Some(v) =>
        if v < carry {
          slots[i], carry := Some(carry), v;
        }
      case None =>
        slots[i] := Some(carry);
        return;
    }
  }

  // The order statistics of a list of totals, counted rather than sorted.

  /** How many of `xs` exceed `v`. */
  function Above(xs: seq<nat>, v: nat): (n: nat)
    ensures n <= |xs|
  {
    if xs == [] then 0 else Above(xs[..|xs| - 1], v) + (if xs[|xs| - 1] > v then 1 else 0)
  }

  /** How many of `xs` are at least `v`. */
  function AtLeast(xs: seq<nat>, v: nat): (n: nat)
    ensures n <= |xs|
  {
    if xs == [] then 0 else AtLeast(xs[..|xs| - 1], v) + (if xs[|xs| - 1] >= v then 1 else 0)
  }

  /** `v` is the `k`-th largest of `xs`, counting from 0 and with repeated
      values taking one place each. */
  predicate KthLargest(xs: seq<nat>, k: nat, v: nat) {
    Above(xs, v) <= k < AtLeast(xs, v)
  }

  /** Slot `k` holds the `k`-th largest total so far, and is empty only when
      there have been no more than `k` totals. */
  predicate HoldsLargest(a: seq<Option<nat>>, xs: seq<nat>) {
    forall k :: 0 <= k < |a| ==>
      && (a[k].Some? <==> k < |xs|)
      && (a[k].Some? ==> KthLargest(xs, k, a[k].value))
  }

  lemma {:induction false} AboveBelowAtLeast(xs: seq<nat>, v: nat, w: nat)
    requires v <= w
    ensures Above(xs, w) <= Above(xs, v) && AtLeast(xs, w) <= AtLeast(xs, v)
    ensures v < w ==> AtLeast(xs, w) <= Above(xs, v)
  {
    if xs != [] {
      AboveBelowAtLeast(xs[..|xs| - 1], v, w);
    }
  }

  lemma {:induction false} AboveAtMostAtLeast(xs: seq<nat>, v: nat)
    ensures Above(xs, v) <= AtLeast(xs, v)
  {
    if xs != [] {
      AboveAtMostAtLeast(xs[..|xs| - 1], v);
    }
  }

  /** The `k`-th largest value is unique. */
  lemma KthLargestUnique(xs: seq<nat>, k: nat, v: nat, w: nat)
    requires KthLargest(xs, k, v) && KthLargest(xs, k, w)
    ensures v == w
  {
    if v < w {
      AboveBelowAtLeast(xs, v, w);
    } else if w < v {
      AboveBelowAtLeast(xs, w, v);
    }
  }

  /** Order statistics are non-increasing in their rank. */
  lemma KthLargestOrdered(xs: seq<nat>, k: nat, v: nat, k': nat, w: nat)
    requires KthLargest(xs, k, v) && KthLargest(xs, k', w) && k < k'
    ensures w <= v
  {
    if v < w {
      AboveBelowAtLeast(xs, v, w);
    }
  }

  /** The `k`-th largest value is one of the values. */
  lemma {:induction false} KthLargestOccurs(xs: seq<nat>, k: nat, v: nat)
    requires KthLargest(xs, k, v)
    ensures v in xs
    decreases |xs|
  {
    var init := xs[..|xs| - 1];
    if xs[|xs| - 1] != v {
      AboveAtMostAtLeast(init, v);
      if Above(init, v) <= k < AtLeast(init, v) {
        KthLargestOccurs(init, k, v);
      } else {
        KthLargestOccurs(init, k - 1, v);
      }
    }
  }

  /** The first slot from `i` on that a pass changes: the first empty one or
      the first whose value is below `x`. */
  function Entry(a: seq<Option<nat>>, i: nat, x: nat): (j: nat)
    requires i <= |a|
    ensures i <= j <= |a|
    ensures forall k :: i <= k < j ==> a[k].Some? && a[k].value >= x
    ensures j < |a| ==> a[j].None? || a[j].value < x
    decreases |a| - i
  {
    if i == |a| || a[i].None? || a[i].value < x then i else Entry(a, i + 1, x)
  }

  /** From slot `i` on, filled slots come first and their values do not
      increase. */
  predicate SortedFrom(a: seq<Option<nat>>, i: nat) {
    forall k, k' :: i <= k < k' < |a| && a[k'].Some? ==> a[k].Some? && a[k].value >= a[k'].value
  }

  /** Slot by slot, `b` is `a` with `x` entered at `j`: the slots before `j`
      keep their values, `j` takes `x`, and the later slots take their
      predecessors' values, unless slot `j` was empty. */
  predicate EnteredAt(a: seq<Option<nat>>, b: seq<Option<nat>>, j: nat, x: nat)
    requires |b| == |a| && j <= |a|
  {
    && (forall k :: 0 <= k < j ==> b[k] == a[k])
    && (j < |a| ==> b[j] == Some(x))
    && (forall k :: j < k < |a| ==> b[k] == if a[j].None? then a[k] else a[k - 1])
  }

  /** What a pass does: it enters `x` at the first slot it changes. */
  lemma {:induction false} PassAt(a: seq<Option<nat>>, i: nat, x: nat)
    requires i <= |a| && SortedFrom(a, i)
    ensures EnteredAt(a, Pass(a, i, x), Entry(a, i, x), x)
    decreases |a| - i
  {
    if i < |a| && a[i].Some? {
      if a[i].value < x {
        PassSwaps(a, i, x);
      } else {
        PassSkips(a, i, x);
        PassAt(a, i + 1, x);
      }
    }
  }

  /** A slot whose value is below `x` is where the pass enters it. */
  lemma PassSwaps(a: seq<Option<nat>>, i: nat, x: nat)
    requires i < |a| && SortedFrom(a, i) && a[i].Some? && a[i].value < x
    ensures Entry(a, i, x) == i && EnteredAt(a, Pass(a, i, x), i, x)
  {
    var v := a[i].value;
    var a' := a[i := Some(x)];
    assert Pass(a, i, x) == Pass(a', i + 1, v);
    ShiftIn(a', i + 1, v);
  }

  /** A slot whose value is at least `x` is passed over. */
  lemma PassSkips(a: seq<Option<nat>>, i: nat, x: nat)
    requires i < |a| && SortedFrom(a, i) && a[i].Some? && a[i].value >= x
    ensures Pass(a, i, x) == Pass(a, i + 1, x) && Entry(a, i, x) == Entry(a, i + 1, x)
    ensures SortedFrom(a, i + 1)
  {
  }

  /** Carrying a value no smaller than any slot's from `i` on shifts those
      slots down by one, the last one falling off. */
  lemma {:induction false} ShiftIn(a: seq<Option<nat>>, i: nat, v: nat)
    requires i <= |a| && SortedFrom(a, i)
    requires forall k :: i <= k < |a| && a[k].Some? ==> a[k].value <= v
    ensures var b := Pass(a, i, v);
      && (forall k :: 0 <= k < i ==> b[k] == a[k])
      && (i < |a| ==> b[i] == Some(v))
      && (forall k :: i < k < |a| ==> b[k] == a[k - 1])
    decreases |a| - i
  {
    if i < |a| {
      match a[i]
      case None =>
        assert forall k :: i <= k < |a| ==> a[k].None?;
      case Some(w) =>
        if w < v {
          ShiftIn(a[i := Some(v)], i + 1, w);
        } else {
          ShiftIn(a, i + 1, v);
        }
    }
  }

  /** Slots that hold the largest totals are in order. */
  lemma HoldsSorted(a: seq<Option<nat>>, xs: seq<nat>)
    requires HoldsLargest(a, xs)
    ensures SortedFrom(a, 0)
  {
    forall k, k' | 0 <= k < k' < |a| && a[k'].Some?
      ensures a[k].Some? && a[k].value >= a[k'].value
    {
      KthLargestOrdered(xs, k, a[k].value, k', a[k'].value);
    }
  }

  /** The counts grow by the one new total. */
  lemma Appended(xs: seq<nat>, x: nat, v: nat)
    ensures Above(xs + [x], v) == Above(xs, v) + (if x > v then 1 else 0)
    ensures AtLeast(xs + [x], v) == AtLeast(xs, v) + (if x >= v then 1 else 0)
  {
    assert (xs + [x])[..|xs|] == xs;
  }

  /** A value no smaller than the new total keeps its rank. */
  lemma KeepsRank(xs: seq<nat>, x: nat, k: nat, w: nat)
    requires KthLargest(xs, k, w) && x <= w
    ensures KthLargest(xs + [x], k, w)
  {
    Appended(xs, x, w);
  }

  /** A value below the new total moves one rank down. */
  lemma LosesRank(xs: seq<nat>, x: nat, k: nat, u: nat)
    requires KthLargest(xs, k, u) && u < x
    ensures KthLargest(xs + [x], k + 1, u)
  {
    Appended(xs, x, u);
  }

  /** The new total takes rank `j` when rank `j - 1` is at least as large and
      rank `j` is smaller or missing. */
  lemma TakesRank(xs: seq<nat>, x: nat, j: nat, before: Option<nat>, at: Option<nat>)
    requires j <= |xs|
    requires j > 0 ==> before.Some? && KthLargest(xs, j - 1, before.value) && before.value >= x
    requires at.Some? ==> KthLargest(xs, j, at.value) && at.value < x
    requires at.None? ==> j == |xs|
    ensures KthLargest(xs + [x], j, x)
  {
    Appended(xs, x, x);
    if j > 0 {
      AboveBelowAtLeast(xs, x, before.value);
    }
    AboveAtMostAtLeast(xs, x);
    if at.Some? {
      AboveBelowAtLeast(xs, at.value, x);
    }
  }

  /** One pass of the callback keeps each slot holding the total of its rank. */
  lemma InsertKeepsLargest(a: seq<Option<nat>>, xs: seq<nat>, x: nat)
    requires HoldsLargest(a, xs)
    ensures HoldsLargest(Pass(a, 0, x), xs + [x])
  {
    HoldsSorted(a, xs);
    PassAt(a, 0, x);
    var b := Pass(a, 0, x);
    var j := Entry(a, 0, x);
    var ys := xs + [x];
    if 0 < j {
      assert a[j - 1].Some?;
    }
    forall k | 0 <= k < |b|
      ensures (b[k].Some? <==> k < |ys|) && (b[k].Some? ==> KthLargest(ys, k, b[k].value))
    {
      if k < j {
        KeepsRank(xs, x, k, a[k].value);
      } else if k == j {
        TakesRank(xs, x, j, if j > 0 then a[j - 1] else None, a[j]);
      } else if a[j].Some? {
        if a[k - 1].Some? {
          if j < k - 1 {
            KthLargestOrdered(xs, j, a[j].value, k - 1, a[k - 1].value);
          }
          LosesRank(xs, x, k - 1, a[k - 1].value);
        }
      }
    }
  }

  /** `try_fold` adding up the slots, from `acc`: no sum at all once a slot is
      empty. */
  function TryFold(acc: nat, a: seq<Option<nat>>): (r: Option<nat>)
    ensures r.Some? <==> forall k :: 0 <= k < |a| ==> a[k].Some?
    ensures r.Some? ==> r.value >= acc
    decreases |a|
  {
    if a == [] then Some(acc)
    else match a[0]
      case None => None
      case Some(v) => TryFold(acc + v, a[1..])
  }

  /** The callback of `part2` over every total, then the sum of the three
      slots. */
  method TopThree(sums: seq<nat>) returns (r: Answer<nat>)
    ensures r.Ok? <==> |sums| >= 3
    ensures r.Err? ==> r.error == FewerThanThree
    ensures r.Ok? ==> exists v0: nat, v1: nat, v2: nat ::
      && KthLargest(sums, 0, v0) && KthLargest(sums, 1, v1) && KthLargest(sums, 2, v2)
      && r.value == v0 + v1 + v2
  {
    var slots := new Option<nat>[3](_ => Option<nat>.None);
    for i := 0 to |sums|
      invariant HoldsLargest(slots[..], sums[..i])
    {
      InsertKeepsLargest(slots[..], sums[..i], sums[i]);
      Offer(slots, sums[i]);
      assert sums[..i + 1] == sums[..i] + [sums[i]];
    }
    assert sums[..|sums|] == sums;
    var s: seq<Option<nat>> := slots[..];
    var total := TryFold(0, s);
    if total.None? {
      assert s[2].None?;
      return Err(FewerThanThree);
    }
    var v0, v1, v2 := s[0].value, s[1].value, s[2].value;
    assert TryFold(0, s) == TryFold(v0, s[1..]);
    assert TryFold(v0, s[1..]) == TryFold(v0 + v1, s[2..]) by {
      assert s[1..][1..] == s[2..];
    }
    assert TryFold(v0 + v1, s[2..]) == Some(v0 + v1 + v2) by {
      assert s[2..][1..] == [];
    }
    r := Ok(total.value);
    assert KthLargest(sums, 0, v0) && KthLargest(sums, 1, v1) && KthLargest(sums, 2, v2);
  }

  method Part2(lines: seq<string>) returns (r: Answer<nat>)
    ensures Emitted(lines).Err? ==> r == Err(NotANumber)
    ensures Emitted(lines).Ok? ==> var sums := Emitted(lines).value;
      && (r.Ok? <==> |sums| >= 3)
      && (r.Err? ==> r.error == FewerThanThree)
      && (r.Ok? ==> exists v0: nat, v1: nat, v2: nat ::
        && KthLargest(sums, 0, v0) && KthLargest(sums, 1, v1) && KthLargest(sums, 2, v2)
        && r.value == v0 + v1 + v2)
  {
    var sums := Parse(lines);
    if sums.Err? {
      return Err(sums.error);
    }
    r := TopThree(sums.value);
  }
}
