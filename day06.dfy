/** Day 6, "Tuning Trouble" (2022/rust/src/bin/06.rs): the first position at
    which the last `w` characters of the datastream are pairwise distinct. The
    source has three implementations -- a shifting buffer and two ring buffers
    -- that the tests require to agree; here each is a method proved equal to
    one reference definition, `Marker`. */
module Day06TuningTrouble {
  import opened Outcomes

  const NotEnoughItems := "Not enough items in collection"

  /** `s[i]`, under a name of its own so that the quantifier in `DistinctIn`
      is only instantiated where a proof asks for it. */
  function At(s: string, i: nat): char
    requires i < |s|
  {
    s[i]
  }

  /** The characters `s[lo..hi]` are pairwise distinct. */
  predicate DistinctIn(s: string, lo: nat, hi: nat)
    requires lo <= hi <= |s|
  {
    forall i, j :: lo <= i < j < hi ==> At(s, i) != At(s, j)
  }

  /** The `w` characters ending at index `p` of `s` are pairwise distinct. */
  predicate MarkerEndsAt(s: string, w: nat, p: nat) {
    w <= p + 1 <= |s| && DistinctIn(s, p + 1 - w, p + 1)
  }

  /** The answer all three implementations must give: one past the first index
      at or after `from` where a marker ends, or the error. */
  function FindMarker(s: string, w: nat, from: nat): (r: Answer<nat>)
    requires from <= |s|
    ensures r.Ok? ==> from < r.value <= |s|
    ensures r.Err? ==> r.error == NotEnoughItems
    decreases |s| - from
  {
    if from == |s| then Err(NotEnoughItems)
    else if MarkerEndsAt(s, w, from) then Ok(from + 1)
    else FindMarker(s, w, from + 1)
  }

  /** `FindMarker` finds the first marker from `from` on, and reports the
      error only when there is none. */
  lemma {:induction false} FindMarkerReads(s: string, w: nat, from: nat)
    requires from <= |s|
    ensures var r := FindMarker(s, w, from);
      && (r.Ok? ==> MarkerEndsAt(s, w, r.value - 1))
      && (r.Ok? ==> forall q :: from <= q < r.value - 1 ==> !MarkerEndsAt(s, w, q))
      && (r.Err? ==> forall q :: from <= q < |s| ==> !MarkerEndsAt(s, w, q))
    decreases |s| - from
  {
    if from < |s| && !MarkerEndsAt(s, w, from) {
      FindMarkerReads(s, w, from + 1);
    }
  }

  function Marker(s: string, w: nat): (r: Answer<nat>) {
    FindMarker(s, w, 0)
  }

  /** `n` is the length of the longest distinct run of characters that ends
      just before index `pos` of `s`. */
  ghost predicate MaximalAt(s: string, pos: nat, n: nat) {
    && n <= pos <= |s|
    && DistinctIn(s, pos - n, pos)
    && (n < pos ==> !DistinctIn(s, pos - n - 1, pos))
  }

  /** A window of `w` characters ending before `pos` is distinct exactly when
      it fits inside the longest distinct run. */
  lemma WindowVsMaximal(s: string, pos: nat, n: nat, w: nat)
    requires MaximalAt(s, pos, n) && w <= pos
    ensures DistinctIn(s, pos - w, pos) <==> w <= n
  {
    if w > n {
      var i, j :| pos - n - 1 <= i < j < pos && At(s, i) == At(s, j);
    }
  }

  /** Index of the last occurrence of `c` in `u`, if any. */
  function LastIndexOf(u: seq<char>, c: char): (r: Option<nat>)
    ensures r.Some? ==> r.value < |u| && u[r.value] == c
    ensures r.Some? ==> forall k :: r.value < k < |u| ==> u[k] != c
    ensures r.None? ==> forall k :: 0 <= k < |u| ==> u[k] != c
  {
    if u == [] then None
    else if u[|u| - 1] == c then Some(|u| - 1)
    else LastIndexOf(u[..|u| - 1], c)
  }

  /** `LastIndexOf` is determined by its contract. */
  lemma {:induction false} LastIndexOfIs(u: seq<char>, c: char, r: Option<nat>)
    requires r.Some? ==> r.value < |u| && u[r.value] == c
    requires r.Some? ==> forall k :: r.value < k < |u| ==> u[k] != c
    requires r.None? ==> forall k :: 0 <= k < |u| ==> u[k] != c
    ensures LastIndexOf(u, c) == r
  {
    if u != [] && u[|u| - 1] != c {
      LastIndexOfIs(u[..|u| - 1], c, r);
    }
  }

  /** The distinct suffix once `c` is appended: everything after the earlier
      `c`, if there is one, then `c`. */
  function AfterPush(u: seq<char>, c: char): seq<char> {
    match LastIndexOf(u, c)
    case Some(h) => u[h + 1..] + [c]
    case None => u + [c]
  }

  /** A slice of `s` grown by the character after it. */
  lemma SliceGrow(s: string, lo: nat, hi: nat, u: seq<char>)
    requires lo <= hi < |s| && u == s[lo..hi]
    ensures u + [s[hi]] == s[lo..hi + 1]
  {
  }

  /** A slice of `s` with its first `k` characters dropped, then grown by the
      character after it. */
  lemma SliceShiftGrow(s: string, lo: nat, hi: nat, u: seq<char>, k: nat)
    requires lo + k <= hi < |s| && u == s[lo..hi]
    ensures u[k..] + [s[hi]] == s[lo + k..hi + 1]
  {
    assert u[k..] == s[lo + k..hi];
  }

  /** What `u == s[lo..hi]` says about `s` when `s[hi]` is missing from
      `u[from..]`. */
  lemma Avoids(s: string, lo: nat, hi: nat, u: seq<char>, from: nat)
    requires lo <= hi < |s| && u == s[lo..hi]
    requires forall k :: from <= k < |u| ==> u[k] != s[hi]
    ensures forall i :: lo + from <= i < hi ==> At(s, i) != At(s, hi)
  {
    forall i | lo + from <= i < hi ensures At(s, i) != At(s, hi) {
      assert s[i] == u[i - lo];
    }
  }

  /** A character that differs from the whole longest distinct run of length
      `n` before it extends that run. */
  lemma Extend(s: string, pos: nat, n: nat)
    requires pos < |s| && MaximalAt(s, pos, n)
    requires forall i :: pos - n <= i < pos ==> At(s, i) != At(s, pos)
    ensures MaximalAt(s, pos + 1, n + 1)
  {
    if n < pos {
      var i, j :| pos - n - 1 <= i < j < pos && At(s, i) == At(s, j);
    }
  }

  /** A character whose last earlier occurrence inside the run is at `k`
      starts a run just after `k`. */
  lemma Restart(s: string, pos: nat, n: nat, k: nat)
    requires pos < |s| && MaximalAt(s, pos, n)
    requires pos - n <= k < pos && At(s, k) == At(s, pos)
    requires forall i :: k < i < pos ==> At(s, i) != At(s, pos)
    ensures MaximalAt(s, pos + 1, pos - k)
  {
  }

  /** Appending a character that does not occur in the longest distinct run
      `u` ending before `pos` extends the run. */
  lemma PushFresh(s: string, pos: nat, u: seq<char>)
    requires pos < |s| && MaximalAt(s, pos, |u|) && u == s[pos - |u|..pos]
    requires forall k :: 0 <= k < |u| ==> u[k] != s[pos]
    ensures MaximalAt(s, pos + 1, |u| + 1) && u + [s[pos]] == s[pos - |u|..pos + 1]
  {
    Avoids(s, pos - |u|, pos, u, 0);
    Extend(s, pos, |u|);
    SliceGrow(s, pos - |u|, pos, u);
  }

  /** Appending a character whose last occurrence in the longest distinct run
      `u` ending before `pos` is at `h` keeps only what follows `h`. */
  lemma PushRepeat(s: string, pos: nat, u: seq<char>, h: nat)
    requires pos < |s| && MaximalAt(s, pos, |u|) && u == s[pos - |u|..pos]
    requires h < |u| && u[h] == s[pos]
    requires forall k :: h < k < |u| ==> u[k] != s[pos]
    ensures MaximalAt(s, pos + 1, |u| - h)
    ensures u[h + 1..] + [s[pos]] == s[pos - |u| + h + 1..pos + 1]
  {
    Avoids(s, pos - |u|, pos, u, h + 1);
    assert s[pos - |u| + h] == u[h];
    Restart(s, pos, |u|, pos - |u| + h);
    SliceShiftGrow(s, pos - |u|, pos, u, h + 1);
  }

  /** Appending the character at `pos` to the longest distinct run `u` ending
      before `pos` gives the longest distinct run ending after it. */
  lemma PushKeepsMaximal(s: string, pos: nat, u: seq<char>)
    requires pos < |s| && MaximalAt(s, pos, |u|) && u == s[pos - |u|..pos]
    ensures MaximalAt(s, pos + 1, |AfterPush(u, s[pos])|)
    ensures AfterPush(u, s[pos]) == s[pos + 1 - |AfterPush(u, s[pos])|..pos + 1]
  {
    match LastIndexOf(u, s[pos])
    case None => PushFresh(s, pos, u);
    case Some(h) => PushRepeat(s, pos, u, h);
  }

  /** What every implementation keeps after consuming the first `pos`
      characters of `s` without finding a marker: its buffer holds `u`, the
      longest distinct run ending there, which is shorter than the window,
      and the answer is the first marker from `pos` on. */
  ghost predicate Scanned(s: string, w: nat, pos: nat, u: seq<char>) {
    && pos <= |s| && |u| < w
    && MaximalAt(s, pos, |u|) && u == s[pos - |u|..pos]
    && Marker(s, w) == FindMarker(s, w, pos)
  }

  /** The step every implementation takes for the character at `pos`: either
      the marker ends there, or the scan goes on with the new buffer. */
  lemma ScanStep(s: string, w: nat, pos: nat, u: seq<char>)
    requires Scanned(s, w, pos, u) && pos < |s|
    ensures |AfterPush(u, s[pos])| <= w
    ensures |AfterPush(u, s[pos])| == w ==> Marker(s, w) == Ok(pos + 1)
    ensures |AfterPush(u, s[pos])| < w ==> Scanned(s, w, pos + 1, AfterPush(u, s[pos]))
  {
    PushKeepsMaximal(s, pos, u);
    var n' := |AfterPush(u, s[pos])|;
    if w <= pos + 1 {
      WindowVsMaximal(s, pos + 1, n', w);
    }
    if n' == w {
      assert MarkerEndsAt(s, w, pos);
    } else {
      assert !MarkerEndsAt(s, w, pos);
    }
  }

  /** Nothing was found in the whole input. */
  lemma Exhausted(s: string, w: nat, u: seq<char>)
    requires Scanned(s, w, |s|, u)
    ensures Marker(s, w) == Err(NotEnoughItems)
  {
  }

  /** `parse`'s inner copy loop: moves `prev[start..len]` to the front. */
  method ShiftDown(prev: array<char>, start: nat, len: nat)
    requires start <= len <= prev.Length
    modifies prev
    ensures prev[..len - start] == old(prev[start..len])
  {
    var j := start;
    while j < len
      invariant start <= j <= len
      invariant forall k :: 0 <= k < j - start ==> prev[k] == old(prev[start + k])
      invariant forall k :: j <= k < prev.Length ==> prev[k] == old(prev[k])
    {
      prev[j - start] := prev[j];
      j := j + 1;
    }
  }

  /** One call of `parse`'s closure minus the final comparison: looks for `c`
      from the newest buffered character backwards; on a hit shifts the
      characters after it to the front, truncates and stores `c` last,
      otherwise pushes `c`. */
  method ShiftPush(prev: array<char>, len: nat, c: char) returns (len': nat)
    requires len < prev.Length
    modifies prev
    ensures len' <= len + 1
    ensures prev[..len'] == AfterPush(old(prev[..len]), c)
  {
    ghost var u := prev[..len];
    var i := len;
    while i > 0 && prev[i - 1] != c
      invariant 0 <= i <= len && prev[..len] == u
      invariant forall k :: i <= k < len ==> u[k] != c
    {
      i := i - 1;
    }
    LastIndexOfIs(u, c, if i > 0 then Some(i - 1) else None);
    if i > 0 {
      var h := i - 1;
      ShiftDown(prev, h + 1, len);
      len' := len - h;
      prev[len' - 1] := c;
      assert prev[..len'] == u[h + 1..] + [c];
    } else {
      prev[len] := c;
      len' := len + 1;
      assert prev[..len'] == u + [c];
    }
  }

  /** `parse::<W>`: a buffer of the last distinct characters that is shifted
      left in place past a repeated character. */
  method ParseShift(s: string, w: nat) returns (r: Answer<nat>)
    requires w >= 1
    ensures r == Marker(s, w)
  {
    var prev := new char[w];
    var len: nat := 0;
    var pos := 0;
    ghost var u := [];
    while pos < |s|
      invariant Scanned(s, w, pos, u) && len < prev.Length && prev[..len] == u
    {
      len, u := ShiftScan(s, w, pos, prev, len, u);
      if len == w {
        return Ok(pos + 1);
      }
      pos := pos + 1;
    }
    Exhausted(s, w, u);
    return Err(NotEnoughItems);
  }

  /** One turn of `parse`'s loop: the closure's call for `s[pos]`. */
  method ShiftScan(s: string, w: nat, pos: nat, prev: array<char>, len: nat, ghost u: seq<char>)
    returns (len': nat, ghost u': seq<char>)
    requires Scanned(s, w, pos, u) && pos < |s| && prev.Length == w && len < w && prev[..len] == u
    modifies prev
    ensures len' <= w
    ensures len' == w ==> Marker(s, w) == Ok(pos + 1)
    ensures len' < w ==> Scanned(s, w, pos + 1, u') && prev[..len'] == u'
  {
    ScanStep(s, w, pos, u);
    len' := ShiftPush(prev, len, s[pos]);
    u' := AfterPush(u, s[pos]);
  }

  /** The ring slot `k` places after slot `bs` in a ring of `w` slots. */
  function Slot(w: nat, bs: nat, k: nat): (r: nat)
    requires bs < w && k <= w
    ensures r < w
  {
    if bs + k < w then bs + k else bs + k - w
  }

  /** `%` on a value below twice the modulus subtracts it at most once. */
  lemma ModOnce(x: nat, w: nat)
    requires 0 < w && x < 2 * w
    ensures x % w == if x < w then x else x - w
  {
  }

  /** The ring buffer `a` holds `u` in the slots after `bs` (exclusive) up to
      `be` (inclusive), oldest first. */
  ghost predicate Ring(a: seq<char>, bs: nat, be: nat, u: seq<char>) {
    && bs < |a| && |u| < |a|
    && be == Slot(|a|, bs, |u|)
    && forall k :: 0 <= k < |u| ==> a[Slot(|a|, bs, k + 1)] == u[k]
  }

  /** The search loop of `parse_ring`'s closure: walks the ring from `be`
      back towards `bs` and stops at the newest slot holding `c`, or at `bs`
      when there is none. `d` counts the live slots up to the one reached. */
  method RingFind(prev: array<char>, bs: nat, be: nat, c: char, ghost u: seq<char>)
    returns (i: nat, ghost d: nat)
    requires Ring(prev[..], bs, be, u)
    ensures d <= |u| && i == Slot(prev.Length, bs, d)
    ensures LastIndexOf(u, c) == if d == 0 then None else Some(d - 1)
  {
    var w := prev.Length;
    i, d := be, |u|;
    while i != bs && prev[i] != c
      invariant d <= |u| && i == Slot(w, bs, d)
      invariant forall k :: d <= k < |u| ==> u[k] != c
      decreases d
    {
      assert u[d - 1] == prev[i];
      ModOnce(i + w - 1, w);
      i := (i + w - 1) % w;
      d := d - 1;
    }
    if d != 0 {
      assert u[d - 1] == prev[i];
    }
    LastIndexOfIs(u, c, if d == 0 then None else Some(d - 1));
  }

  /** One call of `parse_ring`'s closure: on a hit the ring restarts after the
      slot found; then `c` is written after `be`. Reports whether the ring
      became full, which only a miss can do. */
  method RingPush(prev: array<char>, bs: nat, be: nat, c: char, ghost u: seq<char>)
    returns (bs': nat, be': nat, full: bool)
    requires Ring(prev[..], bs, be, u)
    modifies prev
    ensures full <==> |AfterPush(u, c)| == prev.Length
    ensures !full ==> Ring(prev[..], bs', be', AfterPush(u, c))
  {
    var w := prev.Length;
    ghost var a := prev[..];
    var i, d := RingFind(prev, bs, be, c, u);
    ModOnce(be + 1, w);
    if i != bs {
      bs', be' := i, (be + 1) % w;
      prev[be'] := c;
      assert be' == Slot(w, bs, |u| + 1) && prev[..] == a[be' := c];
      RingRestart(a, prev[..], bs, u, c, d);
      assert AfterPush(u, c) == u[d..] + [c];
      return bs', be', false;
    }
    bs', be' := bs, (be + 1) % w;
    prev[be'] := c;
    full := be' == bs;
    if !full {
      assert be' == Slot(w, bs, |u| + 1) && prev[..] == a[be' := c];
      RingAppend(a, prev[..], bs, u, c);
      assert AfterPush(u, c) == u + [c];
    }
  }

  /** Writing `c` after the newest slot of a ring that is not yet full
      appends it. */
  lemma RingAppend(a: seq<char>, a': seq<char>, bs: nat, u: seq<char>, c: char)
    requires bs < |a| && |u| + 1 < |a| && Ring(a, bs, Slot(|a|, bs, |u|), u)
    requires a' == a[Slot(|a|, bs, |u| + 1) := c]
    ensures Ring(a', bs, Slot(|a|, bs, |u| + 1), u + [c])
  {
  }

  /** Moving the start to the slot of `u[d - 1]` and writing `c` after the
      newest slot keeps `u[d..] + [c]`. */
  lemma RingRestart(a: seq<char>, a': seq<char>, bs: nat, u: seq<char>, c: char, d: nat)
    requires bs < |a| && |u| < |a| && 1 <= d <= |u| && Ring(a, bs, Slot(|a|, bs, |u|), u)
    requires a' == a[Slot(|a|, bs, |u| + 1) := c]
    ensures Ring(a', Slot(|a|, bs, d), Slot(|a|, bs, |u| + 1), u[d..] + [c])
  {
    var w, s := |a|, Slot(|a|, bs, d);
    var v := u[d..] + [c];
    forall k | 0 <= k < |v| ensures a'[Slot(w, s, k + 1)] == v[k] {
      if k < |u| - d {
        assert Slot(w, s, k + 1) == Slot(w, bs, d + k + 1);
      }
    }
  }

  /** `parse_ring::<W>`: the last distinct characters kept in a ring of `W`
      slots between an exclusive start `bs` and an inclusive end `be`. */
  method ParseRing(s: string, w: nat) returns (r: Answer<nat>)
    requires w >= 1
    ensures r == Marker(s, w)
  {
    var prev := new char[w](_ => '\0');
    var bs: nat, be: nat := 0, 0;
    var pos := 0;
    ghost var u := [];
    while pos < |s|
      invariant Scanned(s, w, pos, u) && Ring(prev[..], bs, be, u)
    {
      var full;
      bs, be, full, u := RingScan(s, w, pos, prev, bs, be, u);
      if full {
        return Ok(pos + 1);
      }
      pos := pos + 1;
    }
    Exhausted(s, w, u);
    return Err(NotEnoughItems);
  }

  /** One turn of `parse_ring`'s loop: the closure's call for `s[pos]`. */
  method RingScan(s: string, w: nat, pos: nat, prev: array<char>, bs: nat, be: nat, ghost u: seq<char>)
    returns (bs': nat, be': nat, full: bool, ghost u': seq<char>)
    requires Scanned(s, w, pos, u) && pos < |s| && prev.Length == w && Ring(prev[..], bs, be, u)
    modifies prev
    ensures full ==> Marker(s, w) == Ok(pos + 1)
    ensures !full ==> Scanned(s, w, pos + 1, u') && Ring(prev[..], bs', be', u')
  {
    ScanStep(s, w, pos, u);
    bs', be', full := RingPush(prev, bs, be, s[pos], u);
    u' := AfterPush(u, s[pos]);
  }

  const PacketWindow := 4
  const MessageWindow := 14

  /** `part1`: the start-of-packet marker. */
  method Part1(input: string) returns (r: Answer<nat>)
    ensures r == Marker(input, PacketWindow)
  {
    r := ParseShift(input, PacketWindow);
  }

  /** `part2`: the start-of-message marker. */
  method Part2(input: string) returns (r: Answer<nat>)
    ensures r == Marker(input, MessageWindow)
  {
    r := ParseShift(input, MessageWindow);
  }

  /** A window of `w2` distinct characters contains one of `w1 <= w2`, so the
      shorter marker exists whenever the longer one does, and comes no later. */
  lemma MarkerMonotone(s: string, w1: nat, w2: nat)
    requires w1 <= w2
    ensures Marker(s, w2).Ok? ==> Marker(s, w1).Ok? && Marker(s, w1).value <= Marker(s, w2).value
  {
    var r2 := Marker(s, w2);
    FindMarkerReads(s, w1, 0);
    FindMarkerReads(s, w2, 0);
    if r2.Ok? {
      var p := r2.value - 1;
      assert MarkerEndsAt(s, w1, p);
    }
  }
}
