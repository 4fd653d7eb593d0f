/** Day 7, "No Space Left On Device" (2022/rust/src/bin/07.rs): a terminal
    transcript of `cd` and `ls` commands is replayed into an arena of
    directory nodes addressed by index; directory totals are computed once and
    cached, part 1 sums the small ones and part 2 searches, with pruning, for
    the smallest directory whose deletion frees enough space. */
module Day07DirectoryTree {
  import opened Outcomes
  import opened Text

  datatype Command = CdRoot | CdUp | CdDown(name: string) | Ls(size: nat)

  /** A directory of the arena: its subdirectories by name, the size of the
      files directly in it, and the memo for its total size. */
  datatype Node = Node(children: map<string, nat>, size: nat, totalSize: Option<nat>)

  const EmptyNode := Node(map[], 0, None)

  /** A node without its memo: everything a total size depends on. */
  datatype Dir = Dir(children: map<string, nat>, size: nat)

  function Dirs(nodes: seq<Node>): (d: seq<Dir>)
    ensures |d| == |nodes|
    ensures forall i :: 0 <= i < |nodes| ==> d[i] == Dir(nodes[i].children, nodes[i].size)
  {
    seq(|nodes|, i requires 0 <= i < |nodes| => Dir(nodes[i].children, nodes[i].size))
  }

  /** The arena invariant: the root exists, and every child id lies after its
      parent's id and inside the arena, so the tree is acyclic. */
  ghost predicate Arena(d: seq<Dir>) {
    && |d| >= 1
    && forall i, n :: 0 <= i < |d| && n in d[i].children ==> i < d[i].children[n] < |d|
  }

  /** The arena invariant plus a current path of valid ids. */
  ghost predicate Wf(nodes: seq<Node>, path: seq<nat>) {
    && Arena(Dirs(nodes))
    && forall k :: 0 <= k < |path| ==> path[k] < |nodes|
  }

  // ---------------------------------------------------------------------
  // Reference definitions of the three aggregates

  /** Files of directory `i` plus the totals of its subdirectories. */
  ghost function TotalSize(d: seq<Dir>, i: nat): nat
    requires Arena(d) && i < |d|
    decreases |d| - i, 1
  {
    d[i].size + ChildTotals(d, i, d[i].children.Keys)
  }

  /** The totals of the subdirectories of `i` that are named in `names`. */
  ghost function ChildTotals(d: seq<Dir>, i: nat, names: set<string>): nat
    requires Arena(d) && i < |d| && names <= d[i].children.Keys
    decreases |d| - i, 0, names
  {
    if names == {} then 0
    else
      var n :| n in names;
      TotalSize(d, d[i].children[n]) + ChildTotals(d, i, names - {n})
  }

  /** The sum does not depend on which name is taken first. */
  lemma {:induction false} ChildTotalsPick(d: seq<Dir>, i: nat, names: set<string>, n: string)
    requires Arena(d) && i < |d| && names <= d[i].children.Keys && n in names
    ensures ChildTotals(d, i, names) == TotalSize(d, d[i].children[n]) + ChildTotals(d, i, names - {n})
    decreases names
  {
    var m :| m in names && ChildTotals(d, i, names) == TotalSize(d, d[i].children[m]) + ChildTotals(d, i, names - {m});
    if m != n {
      ChildTotalsPick(d, i, names - {m}, n);
      ChildTotalsPick(d, i, names - {n}, m);
      assert names - {m} - {n} == names - {n} - {m};
    }
  }

  /** A subdirectory never holds more than its parent. */
  lemma ChildWithinParent(d: seq<Dir>, i: nat, n: string)
    requires Arena(d) && i < |d| && n in d[i].children
    ensures TotalSize(d, d[i].children[n]) <= TotalSize(d, i)
  {
    ChildTotalsPick(d, i, d[i].children.Keys, n);
  }

  const SmallLimit := 100_000

  /** The totals, at most `SmallLimit` each, of `i` and every directory below. */
  ghost function SmallSum(d: seq<Dir>, i: nat): nat
    requires Arena(d) && i < |d|
    decreases |d| - i, 1
  {
    (if TotalSize(d, i) <= SmallLimit then TotalSize(d, i) else 0)
    + ChildSmallSums(d, i, d[i].children.Keys)
  }

  ghost function ChildSmallSums(d: seq<Dir>, i: nat, names: set<string>): nat
    requires Arena(d) && i < |d| && names <= d[i].children.Keys
    decreases |d| - i, 0, names
  {
    if names == {} then 0
    else
      var n :| n in names;
      SmallSum(d, d[i].children[n]) + ChildSmallSums(d, i, names - {n})
  }

  lemma {:induction false} ChildSmallSumsPick(d: seq<Dir>, i: nat, names: set<string>, n: string)
    requires Arena(d) && i < |d| && names <= d[i].children.Keys && n in names
    ensures ChildSmallSums(d, i, names) == SmallSum(d, d[i].children[n]) + ChildSmallSums(d, i, names - {n})
    decreases names
  {
    var m :| m in names && ChildSmallSums(d, i, names) == SmallSum(d, d[i].children[m]) + ChildSmallSums(d, i, names - {m});
    if m != n {
      ChildSmallSumsPick(d, i, names - {m}, n);
      ChildSmallSumsPick(d, i, names - {n}, m);
      assert names - {m} - {n} == names - {n} - {m};
    }
  }

  function MinOpt(a: Option<nat>, b: Option<nat>): (r: Option<nat>)
    ensures r.None? <==> a.None? && b.None?
    ensures r.Some? ==> (r == a || r == b)
    ensures a.Some? ==> r.Some? && r.value <= a.value
    ensures b.Some? ==> r.Some? && r.value <= b.value
  {
    match (a, b)
    case (None, _) => b
    case (_, None) => a
    case (Some(x), Some(y)) => if x <= y then a else b
  }

  lemma MinOptSwap(a: Option<nat>, b: Option<nat>, c: Option<nat>)
    ensures MinOpt(a, MinOpt(b, c)) == MinOpt(b, MinOpt(a, c))
  {
  }

  /** `cur` lowered to the candidate, if there is one. */
  function MinOf(cur: nat, o: Option<nat>): (r: nat)
    ensures r <= cur && (o.Some? ==> r <= o.value)
    ensures r == cur || (o.Some? && r == o.value)
  {
    match o
    case None => cur
    case Some(v) => if v < cur then v else cur
  }

  /** The smallest total above `x` among the directories strictly below `i`,
      every subtree searched. */
  ghost function Lowest(d: seq<Dir>, i: nat, x: nat): (r: Option<nat>)
    requires Arena(d) && i < |d|
    ensures r.Some? ==> r.value > x
    decreases |d| - i, 1
  {
    ChildLowest(d, i, x, d[i].children.Keys)
  }

  ghost function ChildLowest(d: seq<Dir>, i: nat, x: nat, names: set<string>): (r: Option<nat>)
    requires Arena(d) && i < |d| && names <= d[i].children.Keys
    ensures r.Some? ==> r.value > x
    decreases |d| - i, 0, names
  {
    if names == {} then None
    else
      var n :| n in names;
      MinOpt(Candidate(d, d[i].children[n], x), ChildLowest(d, i, x, names - {n}))
  }

  /** What subdirectory `c` contributes: its own total if above `x`, and
      whatever lies below it. */
  ghost function Candidate(d: seq<Dir>, c: nat, x: nat): (r: Option<nat>)
    requires Arena(d) && c < |d|
    ensures r.Some? ==> r.value > x
    decreases |d| - c, 2
  {
    MinOpt(if TotalSize(d, c) > x then Some(TotalSize(d, c)) else None, Lowest(d, c, x))
  }

  lemma {:induction false} ChildLowestPick(d: seq<Dir>, i: nat, x: nat, names: set<string>, n: string)
    requires Arena(d) && i < |d| && names <= d[i].children.Keys && n in names
    ensures ChildLowest(d, i, x, names) == MinOpt(Candidate(d, d[i].children[n], x), ChildLowest(d, i, x, names - {n}))
    decreases names
  {
    var m :| m in names && ChildLowest(d, i, x, names) == MinOpt(Candidate(d, d[i].children[m], x), ChildLowest(d, i, x, names - {m}));
    if m != n {
      ChildLowestPick(d, i, x, names - {m}, n);
      ChildLowestPick(d, i, x, names - {n}, m);
      assert names - {m} - {n} == names - {n} - {m};
      MinOptSwap(Candidate(d, d[i].children[m], x), Candidate(d, d[i].children[n], x), ChildLowest(d, i, x, names - {m} - {n}));
    }
  }

  /** Pruning is sound: below a directory whose total is at most `x` there is
      no directory whose total exceeds `x`. */
  lemma {:induction false} NothingAboveBelow(d: seq<Dir>, i: nat, x: nat)
    requires Arena(d) && i < |d| && TotalSize(d, i) <= x
    ensures Lowest(d, i, x) == None
    decreases |d| - i
  {
    ChildrenWithin(d, i, x, d[i].children.Keys);
  }

  lemma {:induction false} ChildrenWithin(d: seq<Dir>, i: nat, x: nat, names: set<string>)
    requires Arena(d) && i < |d| && names <= d[i].children.Keys && TotalSize(d, i) <= x
    ensures ChildLowest(d, i, x, names) == None
    decreases |d| - i, names
  {
    if names != {} {
      var n :| n in names && ChildLowest(d, i, x, names) == MinOpt(Candidate(d, d[i].children[n], x), ChildLowest(d, i, x, names - {n}));
      var c := d[i].children[n];
      ChildWithinParent(d, i, n);
      NothingAboveBelow(d, c, x);
      ChildrenWithin(d, i, x, names - {n});
      assert Candidate(d, c, x) == None;
    }
  }

  // ---------------------------------------------------------------------
  // The memo

  /** Every memo that is set holds the directory's total size. */
  ghost predicate CacheSound(nodes: seq<Node>) {
    && Arena(Dirs(nodes))
    && forall i :: 0 <= i < |nodes| && nodes[i].totalSize.Some? ==>
         nodes[i].totalSize.value == TotalSize(Dirs(nodes), i)
  }

  predicate NoCache(nodes: seq<Node>) {
    forall i :: 0 <= i < |nodes| ==> nodes[i].totalSize.None?
  }

  // ---------------------------------------------------------------------
  // Commands

  /** `get_cur_dir`: the last id on the path, or the root. */
  function CurDir(path: seq<nat>): (r: nat)
    ensures path == [] ==> r == 0
    ensures path != [] ==> r == path[|path| - 1]
  {
    if path == [] then 0 else path[|path| - 1]
  }

  /** The effect of one command on the arena and the path. */
  function Apply(nodes: seq<Node>, path: seq<nat>, cmd: Command): (r: (seq<Node>, seq<nat>))
    requires Wf(nodes, path)
  {
    var cur := CurDir(path);
    match cmd
    case CdRoot => (nodes, [])
    case CdUp => (nodes, if path == [] then [] else path[..|path| - 1])
    case CdDown(name) =>
      if name in nodes[cur].children then (nodes, path + [nodes[cur].children[name]])
      else
        var id := |nodes|;
        var parent := nodes[cur].(children := nodes[cur].children[name := id]);
        (nodes[cur := parent] + [EmptyNode], path + [id])
    case Ls(size) => (nodes[cur := nodes[cur].(size := size)], path)
  }

  /** Every command keeps the arena invariant and adds no memo. */
  lemma ApplyKeepsWf(nodes: seq<Node>, path: seq<nat>, cmd: Command)
    requires Wf(nodes, path)
    ensures Wf(Apply(nodes, path, cmd).0, Apply(nodes, path, cmd).1)
    ensures NoCache(nodes) ==> NoCache(Apply(nodes, path, cmd).0)
  {
    var (nodes', path') := Apply(nodes, path, cmd);
    var cur := CurDir(path);
    var d, d' := Dirs(nodes), Dirs(nodes');
    if cmd.CdDown? && cmd.name !in nodes[cur].children {
      forall i, n | 0 <= i < |d'| && n in d'[i].children
        ensures i < d'[i].children[n] < |d'|
      {
        if i != cur && i < |nodes| {
          assert d'[i] == d[i];
        }
      }
    }
  }

  /** `cd` into a name the current directory already has moves there and
      leaves the arena as it is; a new name gets exactly one empty node, at
      the end, linked from the current directory only. */
  lemma CdDownEffect(nodes: seq<Node>, path: seq<nat>, name: string)
    requires Wf(nodes, path)
    ensures var (nodes', path') := Apply(nodes, path, CdDown(name));
      var cur := CurDir(path);
      && |path'| == |path| + 1 && path'[..|path|] == path
      && (name in nodes[cur].children ==> nodes' == nodes && path'[|path|] == nodes[cur].children[name])
      && (name !in nodes[cur].children ==>
            && |nodes'| == |nodes| + 1 && nodes'[|nodes|] == EmptyNode && path'[|path|] == |nodes|
            && nodes'[cur].children == nodes[cur].children[name := |nodes|]
            && nodes'[cur].size == nodes[cur].size
            && forall j :: 0 <= j < |nodes| && j != cur ==> nodes'[j] == nodes[j])
  {
  }

  /** `ls` overwrites the current directory's own size and changes nothing
      else; `cd /` empties the path and `cd ..` drops its last entry, which
      at the root changes nothing. */
  lemma LsAndCdUpEffect(nodes: seq<Node>, path: seq<nat>, size: nat)
    requires Wf(nodes, path)
    ensures var (nodes', path') := Apply(nodes, path, Ls(size));
      && path' == path && |nodes'| == |nodes|
      && nodes'[CurDir(path)].size == size
      && nodes'[CurDir(path)].children == nodes[CurDir(path)].children
      && forall j :: 0 <= j < |nodes| && j != CurDir(path) ==> nodes'[j] == nodes[j]
    ensures Apply(nodes, path, CdRoot) == (nodes, [])
    ensures Apply(nodes, path, CdUp).0 == nodes
    ensures path == [] ==> Apply(nodes, path, CdUp).1 == []
    ensures path != [] ==> Apply(nodes, path, CdUp).1 + [path[|path| - 1]] == path
  {
  }

  /** The arena after replaying `cmds` on a fresh tree. */
  function Replay(cmds: seq<Command>): (r: (seq<Node>, seq<nat>))
    ensures Wf(r.0, r.1) && NoCache(r.0)
  {
    if cmds == [] then ([EmptyNode], [])
    else
      var (nodes, path) := Replay(cmds[..|cmds| - 1]);
      ApplyKeepsWf(nodes, path, cmds[|cmds| - 1]);
      Apply(nodes, path, cmds[|cmds| - 1])
  }

  /** A tree with no memo set has a sound memo. */
  lemma NoCacheIsSound(nodes: seq<Node>)
    requires Arena(Dirs(nodes)) && NoCache(nodes)
    ensures CacheSound(nodes)
  {
  }

  /** The arena and the current path of the source's `Tree`. */
  class Tree {
    var nodes: seq<Node>
    var path: seq<nat>

    ghost predicate Valid()
      reads this
    {
      Wf(nodes, path) && CacheSound(nodes)
    }

    /** `Tree::new`: only the empty root, and the path at the root. */
    constructor ()
      ensures nodes == [EmptyNode] && path == []
      ensures Valid() && NoCache(nodes)
    {
      nodes := [EmptyNode];
      path := [];
    }

    /** `handle_command`. */
    method HandleCommand(cmd: Command)
      requires Wf(nodes, path)
      modifies this
      ensures (nodes, path) == Apply(old(nodes), old(path), cmd)
      ensures Wf(nodes, path)
      ensures old(NoCache(nodes)) ==> NoCache(nodes)
    {
      ApplyKeepsWf(nodes, path, cmd);
      match cmd
      case CdRoot =>
        path := [];
      case CdUp =>
        if path != [] {
          path := path[..|path| - 1];
        }
      case CdDown(name) =>
        var cur := CurDir(path);
        var id;
        if name in nodes[cur].children {
          id := nodes[cur].children[name];
        } else {
          id := |nodes|;
          ghost var parent := nodes[cur].(children := nodes[cur].children[name := id]);
          nodes := nodes + [EmptyNode];
          nodes := nodes[cur := nodes[cur].(children := nodes[cur].children[name := id])];
          assert nodes == old(nodes)[cur := parent] + [EmptyNode];
        }
        path := path + [id];
      case Ls(size) =>
        var cur := CurDir(path);
        nodes := nodes[cur := nodes[cur].(size := size)];
    }

    /** `get_total_size`: the memo if set, otherwise the files of `idx` plus
        the totals of its subdirectories, which is then memoised. */
    method GetTotalSize(idx: nat) returns (t: nat)
      requires Valid() && idx < |nodes|
      modifies this
      ensures Valid() && Dirs(nodes) == Dirs(old(nodes)) && path == old(path)
      ensures t == TotalSize(Dirs(nodes), idx) && nodes[idx].totalSize == Some(t)
      decreases |nodes| - idx
    {
      if nodes[idx].totalSize.Some? {
        return nodes[idx].totalSize.value;
      }
      ghost var d := Dirs(nodes);
      var children := nodes[idx].children;
      t := nodes[idx].size;
      var rest := children.Keys;
      while rest != {}
        invariant Valid() && Dirs(nodes) == d && path == old(path)
        invariant rest <= children.Keys == d[idx].children.Keys
        invariant t + ChildTotals(d, idx, rest) == TotalSize(d, idx)
        decreases rest
      {
        var n :| n in rest;
        ChildTotalsPick(d, idx, rest, n);
        var sub := GetTotalSize(children[n]);
        t := t + sub;
        rest := rest - {n};
      }
      nodes := nodes[idx := nodes[idx].(totalSize := Some(t))];
      assert Dirs(nodes) == d;
    }

    /** `sum_for_part_1`: the total of `idx` and the sum of the totals of at
        most `SmallLimit` in its subtree; memoises the total. */
    method SumForPart1(idx: nat) returns (total: nat, small: nat)
      requires Valid() && idx < |nodes|
      modifies this
      ensures Valid() && Dirs(nodes) == Dirs(old(nodes)) && path == old(path)
      ensures total == TotalSize(Dirs(nodes), idx) && small == SmallSum(Dirs(nodes), idx)
      ensures nodes[idx].totalSize == Some(total)
      decreases |nodes| - idx
    {
      ghost var d := Dirs(nodes);
      var children := nodes[idx].children;
      total, small := nodes[idx].size, 0;
      var rest := children.Keys;
      while rest != {}
        invariant Valid() && Dirs(nodes) == d && path == old(path)
        invariant rest <= children.Keys == d[idx].children.Keys
        invariant total + ChildTotals(d, idx, rest) == TotalSize(d, idx)
        invariant small + ChildSmallSums(d, idx, rest) == ChildSmallSums(d, idx, children.Keys)
        decreases rest
      {
        var n :| n in rest;
        ChildTotalsPick(d, idx, rest, n);
        ChildSmallSumsPick(d, idx, rest, n);
        var t, s := SumForPart1(children[n]);
        total, small := total + t, small + s;
        rest := rest - {n};
      }
      if total <= SmallLimit {
        small := small + total;
      }
      nodes := nodes[idx := nodes[idx].(totalSize := Some(total))];
      assert Dirs(nodes) == d;
    }

    /** `find_min_part_2`: lowers `curMin` to the smallest total above
        `spaceToFree` strictly below `parent`, skipping every subtree whose
        total is at most `spaceToFree`. */
    method FindMinPart2(parent: nat, curMin: nat, spaceToFree: nat) returns (r: nat)
      requires Valid() && parent < |nodes|
      modifies this
      ensures Valid() && Dirs(nodes) == Dirs(old(nodes)) && path == old(path)
      ensures r == MinOf(curMin, Lowest(Dirs(nodes), parent, spaceToFree))
      decreases |nodes| - parent
    {
      ghost var d := Dirs(nodes);
      var children := nodes[parent].children;
      r := curMin;
      var rest := children.Keys;
      while rest != {}
        invariant Valid() && Dirs(nodes) == d && path == old(path)
        invariant rest <= children.Keys == d[parent].children.Keys
        invariant MinOf(r, ChildLowest(d, parent, spaceToFree, rest)) == MinOf(curMin, Lowest(d, parent, spaceToFree))
        decreases rest
      {
        var n :| n in rest;
        ChildLowestPick(d, parent, spaceToFree, rest, n);
        rest := rest - {n};
        var idx := children[n];
        var size := GetTotalSize(idx);
        if size <= spaceToFree {
          NothingAboveBelow(d, idx, spaceToFree);
          continue;
        }
        if size < r {
          r := size;
        }
        r := FindMinPart2(idx, r, spaceToFree);
      }
    }
  }

  // ---------------------------------------------------------------------
  // The transcript grammar

  /** `is_not("\n")`: the longest prefix without a newline, which must not be
      empty. */
  function LineBody(s: string): (r: Option<(string, string)>)
    ensures r.None? <==> s == [] || s[0] == '\n'
    ensures r.Some? ==> r.value.0 != [] && r.value.0 + r.value.1 == s
    ensures r.Some? ==> '\n' !in r.value.0 && (r.value.1 == [] || r.value.1[0] == '\n')
  {
    var k := FirstNewline(s, 0);
    if k == 0 then None else Some((s[..k], s[k..]))
  }

  /** `opt(char('\n'))`. */
  function SkipNewline(s: string): (r: string)
    ensures |r| <= |s|
  {
    if s != [] && s[0] == '\n' then s[1..] else s
  }

  /** `dir NAME`: a directory line counts 0. */
  function DirLine(s: string): (r: Option<(nat, string)>)
    ensures r.Some? ==> r.value.0 == 0 && |r.value.1| < |s|
  {
    if |s| >= 4 && s[..4] == "dir " then
      match LineBody(s[4..])
      case None => None
      case Some((_, rest)) => Some((0, rest))
    else None
  }

  /** `SIZE NAME`: the number, then at least one more character. */
  function FileLine(s: string): (r: Option<(nat, string)>)
    ensures r.Some? ==> |r.value.1| < |s|
  {
    var (digits, after) := TakeDigits(s);
    match ParseDigits(digits)
    case Err(_) => None
    case Ok(size) =>
      match LineBody(after)
      case None => None
      case Some((_, rest)) => Some((size, rest))
  }

  /** One entry of `ls` output with its trailing newline, if any. */
  function LsEntry(s: string): (r: Option<(nat, string)>)
    ensures r.Some? ==> |r.value.1| < |s|
  {
    match DirLine(s)
    case Some((v, rest)) => Some((v, SkipNewline(rest)))
    case None =>
      match FileLine(s)
      case Some((v, rest)) => Some((v, SkipNewline(rest)))
      case None => None
  }

  /** `parse_ls_output`: the sum of the sizes of the entries up to the first
      line that is not one. */
  function LsOutput(s: string): (r: (nat, string))
    ensures |r.1| <= |s|
    decreases |s|
  {
    var entry := LsEntry(s);
    if entry.None? then (0, s)
    else
      var more := LsOutput(entry.value.1);
      (entry.value.0 + more.0, more.1)
  }

  lemma LsOutputUnfold(s: string)
    requires LsEntry(s).Some?
    ensures LsOutput(s).0 == LsEntry(s).value.0 + LsOutput(LsEntry(s).value.1).0
    ensures LsOutput(s).1 == LsOutput(LsEntry(s).value.1).1
  {
  }

  lemma LsOutputEnd(s: string)
    requires LsEntry(s).None?
    ensures LsOutput(s).0 == 0 && LsOutput(s).1 == s
  {
  }

  /** The command a trimmed `cd` argument stands for. */
  function CdTarget(arg: string): Command {
    if arg == "/" then CdRoot
    else if arg == ".." then CdUp
    else CdDown(arg)
  }

  /** `cd ARG`: the command its trimmed argument names. */
  function CdCommand(t: string): (r: Option<(Command, string)>)
    ensures r.Some? ==> |r.value.1| < |t|
  {
    if |t| >= 3 && t[..3] == "cd " then
      match LineBody(t[3..])
      case None => None
      case Some((arg, rest)) => Some((CdTarget(Trim(arg)), rest))
    else None
  }

  /** `ls` and its output: the total of the listed file sizes. */
  function LsCommand(t: string): (r: Option<(Command, string)>)
    ensures r.Some? ==> |r.value.1| < |t|
  {
    if |t| >= 3 && t[..3] == "ls\n" then
      var listing := LsOutput(t[3..]);
      Some((Ls(listing.0), listing.1))
    else None
  }

  /** One `$ ` command of the transcript with its trailing newline, if any. */
  function ParseCommand(s: string): (r: Option<(Command, string)>)
    ensures r.Some? ==> |r.value.1| < |s|
  {
    if |s| >= 2 && s[..2] == "$ " then
      var t := s[2..];
      var cmd := if CdCommand(t).Some? then CdCommand(t) else LsCommand(t);
      match cmd
      case None => None
      case Some((c, rest)) => Some((c, SkipNewline(rest)))
    else None
  }

  /** `parse`'s `fold_many0`: the commands up to the first text that is not
      one, and that text. */
  function Commands(s: string): (r: (seq<Command>, string))
    ensures |r.1| <= |s|
    decreases |s|
  {
    var next := ParseCommand(s);
    if next.None? then ([], s)
    else
      var more := Commands(next.value.1);
      ([next.value.0] + more.0, more.1)
  }

  /** A line of `ls` output as the terminal prints it. */
  datatype Entry = DirEntry(name: string) | FileEntry(size: nat, name: string)

  predicate Printable(e: Entry) {
    && '\n' !in e.name
    && (e.DirEntry? ==> e.name != [])
    && (e.FileEntry? ==> e.size <= USIZE_MAX)
  }

  function RenderEntry(e: Entry): string {
    match e
    case DirEntry(name) => "dir " + name + "\n"
    case FileEntry(size, name) => Decimal(size) + " " + name + "\n"
  }

  function Listing(es: seq<Entry>): string {
    if es == [] then [] else RenderEntry(es[0]) + Listing(es[1..])
  }

  /** The sizes of the files of a listing. */
  function ListedSize(es: seq<Entry>): nat {
    if es == [] then 0
    else (if es[0].FileEntry? then es[0].size else 0) + ListedSize(es[1..])
  }

  /** `is_not("\n")` stops exactly at the end of a line. */
  lemma LineBodyOfLine(body: string, rest: string)
    requires body != [] && '\n' !in body
    ensures LineBody(body + "\n" + rest) == Some((body, "\n" + rest))
  {
    var s := body + "\n" + rest;
    var k := FirstNewline(s, 0);
    assert s[|body|] == '\n';
    assert forall j :: 0 <= j < |body| ==> s[j] == body[j];
    assert s[..|body|] == body;
    assert s[|body|..] == "\n" + rest;
  }

  /** A printed directory line is read back as 0. */
  lemma DirRoundTrip(name: string, rest: string)
    requires name != [] && '\n' !in name
    ensures DirLine(("dir " + name + "\n") + rest) == Some((0, "\n" + rest))
  {
    var s := ("dir " + name + "\n") + rest;
    assert s[..4] == "dir ";
    assert s[4..] == name + "\n" + rest;
    LineBodyOfLine(name, rest);
  }

  /** A printed file line is read back as its size. */
  lemma FileRoundTrip(size: nat, name: string, rest: string)
    requires size <= USIZE_MAX && '\n' !in name
    ensures FileLine((Decimal(size) + " " + name + "\n") + rest) == Some((size, "\n" + rest))
    ensures DirLine((Decimal(size) + " " + name + "\n") + rest) == None
  {
    var d := Decimal(size);
    var after := " " + name + "\n" + rest;
    var s := (d + " " + name + "\n") + rest;
    assert s == d + after;
    TakeDigitsOfDecimal(d, after);
    DecimalRoundTrip(size);
    LineBodyOfLine(" " + name, rest);
    NotDirLine(s);
  }

  lemma NotDirLine(s: string)
    requires s != [] && IsDigit(s[0])
    ensures DirLine(s) == None
  {
    if |s| >= 4 {
      assert s[..4][0] != 'd';
    }
  }

  /** Each printed entry is read back with its size, files counting their
      size and directories 0. */
  lemma EntryRoundTrip(e: Entry, rest: string)
    requires Printable(e)
    ensures LsEntry(RenderEntry(e) + rest) == Some((if e.FileEntry? then e.size else 0, rest))
  {
    match e
    case DirEntry(name) => DirRoundTrip(name, rest);
    case FileEntry(size, name) => FileRoundTrip(size, name, rest);
  }

  lemma EntryThenOutput(e: Entry, rest: string)
    requires Printable(e)
    ensures LsOutput(RenderEntry(e) + rest).0 == (if e.FileEntry? then e.size else 0) + LsOutput(rest).0
    ensures LsOutput(RenderEntry(e) + rest).1 == LsOutput(rest).1
  {
    EntryRoundTrip(e, rest);
    LsOutputUnfold(RenderEntry(e) + rest);
  }

  /** `parse_ls_output` sums the file sizes of a printed listing and stops
      where the listing ends. */
  lemma {:induction false} ListingRoundTrip(es: seq<Entry>, tail: string)
    requires forall k :: 0 <= k < |es| ==> Printable(es[k])
    requires LsEntry(tail) == None
    ensures LsOutput(Listing(es) + tail).0 == ListedSize(es)
    ensures LsOutput(Listing(es) + tail).1 == tail
  {
    if es == [] {
      assert Listing(es) + tail == tail;
      LsOutputEnd(tail);
    } else {
      var rest := Listing(es[1..]) + tail;
      assert forall k :: 0 <= k < |es[1..]| ==> Printable(es[1..][k]);
      ListingRoundTrip(es[1..], tail);
      ListingCons(es, tail);
      EntryThenOutput(es[0], rest);
    }
  }

  lemma ListingCons(es: seq<Entry>, tail: string)
    requires es != []
    ensures Listing(es) + tail == RenderEntry(es[0]) + (Listing(es[1..]) + tail)
  {
  }

  /** A printed `cd` command is read back as the command its trimmed
      argument names. */
  lemma CdRoundTrip(arg: string, rest: string)
    requires arg != [] && '\n' !in arg
    ensures ParseCommand(("$ cd " + arg + "\n") + rest) == Some((CdTarget(Trim(arg)), rest))
  {
    var s := ("$ cd " + arg + "\n") + rest;
    assert s[..2] == "$ ";
    var t := s[2..];
    assert t[..3] == "cd ";
    assert t[3..] == arg + "\n" + rest;
    LineBodyOfLine(arg, rest);
  }

  /** A printed `ls` command with its listing is read back as the total size
      of the listed files. */
  lemma LsRoundTrip(es: seq<Entry>, tail: string)
    requires forall k :: 0 <= k < |es| ==> Printable(es[k])
    requires LsEntry(tail) == None
    ensures ParseCommand(("$ ls\n" + Listing(es)) + tail) == Some((Ls(ListedSize(es)), SkipNewline(tail)))
  {
    assert ("$ ls\n" + Listing(es)) + tail == "$ ls\n" + (Listing(es) + tail);
    LsCommandAt(Listing(es) + tail);
    ListingRoundTrip(es, tail);
  }

  lemma LsCommandAt(body: string)
    ensures ParseCommand("$ ls\n" + body) == Some((Ls(LsOutput(body).0), SkipNewline(LsOutput(body).1)))
  {
    var s := "$ ls\n" + body;
    assert s[..2] == "$ ";
    var t := s[2..];
    assert t == "ls\n" + body;
    assert t[..3] == "ls\n" && t[..3][0] != 'c';
    assert CdCommand(t) == None;
    assert t[3..] == body;
  }

  /** The commands of a transcript, replayed into a fresh tree. */
  function Session(input: string): (seq<Node>, seq<nat>) {
    Replay(Commands(input).0)
  }

  /** Reading one more command of the transcript. */
  lemma CommandsAdvance(input: string, done: seq<Command>, rest: string)
    requires Commands(input) == (done + Commands(rest).0, Commands(rest).1)
    requires ParseCommand(rest).Some?
    ensures var (cmd, rest') := ParseCommand(rest).value;
      Commands(input) == ((done + [cmd]) + Commands(rest').0, Commands(rest').1)
  {
    var (cmd, rest') := ParseCommand(rest).value;
    CommandsUnfold(rest);
    AppendCons(done, cmd, Commands(rest').0);
  }

  lemma AppendCons<T>(a: seq<T>, x: T, b: seq<T>)
    ensures a + ([x] + b) == (a + [x]) + b
  {
  }

  lemma CommandsUnfold(s: string)
    requires ParseCommand(s).Some?
    ensures Commands(s).0 == [ParseCommand(s).value.0] + Commands(ParseCommand(s).value.1).0
    ensures Commands(s).1 == Commands(ParseCommand(s).value.1).1
  {
  }

  /** Replaying one more command applies it to the replayed arena. */
  lemma ReplayAdvance(done: seq<Command>, cmd: Command)
    ensures Replay(done + [cmd]) == Apply(Replay(done).0, Replay(done).1, cmd)
  {
    assert (done + [cmd])[..|done|] == done;
  }

  /** `parse`: replays each command as soon as it is read. */
  method Parse(input: string) returns (tree: Tree, rest: string)
    ensures fresh(tree) && tree.Valid()
    ensures (tree.nodes, tree.path) == Session(input) && rest == Commands(input).1
  {
    tree := new Tree();
    rest := input;
    ghost var done: seq<Command> := [];
    assert done + Commands(rest).0 == Commands(rest).0;
    while true
      invariant Wf(tree.nodes, tree.path) && NoCache(tree.nodes)
      invariant (tree.nodes, tree.path) == Replay(done)
      invariant Commands(input) == (done + Commands(rest).0, Commands(rest).1)
      decreases |rest|
    {
      var next := ParseCommand(rest);
      if next.None? {
        assert Commands(rest) == ([], rest);
        assert done + [] == done;
        NoCacheIsSound(tree.nodes);
        return;
      }
      var (cmd, rest') := next.value;
      CommandsAdvance(input, done, rest);
      ReplayAdvance(done, cmd);
      tree.HandleCommand(cmd);
      done := done + [cmd];
      rest := rest';
    }
  }

  /** `part1`: the sum of the directory totals of at most 100,000. */
  method Part1(input: string) returns (r: nat)
    ensures r == SmallSum(Dirs(Session(input).0), 0)
  {
    var tree, _ := Parse(input);
    var _, small := tree.SumForPart1(0);
    r := small;
  }

  const TotalSpace := 70_000_000
  const FreeSpaceNeeded := 30_000_000

  /** The capacity checks of `part2`: how much must be freed. */
  function SpaceToFree(used: nat): (r: Answer<nat>)
  {
    if TotalSpace < used then Err("total_space<total_used_space")
    else if TotalSpace - used >= FreeSpaceNeeded then Err("current_free_space>=free_space_needed")
    else if used < FreeSpaceNeeded - (TotalSpace - used) then Answer<nat>.Err("total_used_space<space_to_free")
    else Ok(FreeSpaceNeeded - (TotalSpace - used))
  }

  /** The checks pass exactly when the used space lies between 40,000,001 and
      70,000,000; the space to free is then positive and below the used space,
      so the third check never fails. */
  lemma SpaceToFreeCases(used: nat)
    ensures SpaceToFree(used).Ok? <==> TotalSpace - FreeSpaceNeeded < used <= TotalSpace
    ensures SpaceToFree(used).Ok? ==> 0 < SpaceToFree(used).value < used
    ensures SpaceToFree(used) != Err("total_used_space<space_to_free")
  {
  }

  /** `part2`: the smallest total above the space to free, among the root
      and everything below it. */
  method Part2(input: string) returns (r: Answer<nat>)
    ensures var d := Dirs(Session(input).0);
      r == match SpaceToFree(TotalSize(d, 0))
           case Err(e) => Err(e)
           case Ok(need) => Ok(MinOf(TotalSize(d, 0), Lowest(d, 0, need)))
  {
    var tree, _ := Parse(input);
    var used := tree.GetTotalSize(0);
    if TotalSpace < used {
      return Err("total_space<total_used_space");
    }
    var free := TotalSpace - used;
    if free >= FreeSpaceNeeded {
      return Err("current_free_space>=free_space_needed");
    }
    var need := FreeSpaceNeeded - free;
    if used < need {
      return Err("total_used_space<space_to_free");
    }
    var best := tree.FindMinPart2(0, used, need);
    return Ok(best);
  }

  /** Deleting the directory part 2 picks frees enough space. */
  lemma Part2FreesEnough(d: seq<Dir>, need: nat)
    requires Arena(d) && SpaceToFree(TotalSize(d, 0)) == Ok(need)
    ensures MinOf(TotalSize(d, 0), Lowest(d, 0, need)) > need
  {
  }

  // The exact fit: deleting a directory whose total is exactly the space to
  // free leaves exactly the free space needed, which is enough, yet the
  // search skips such a directory because its total is not above the space
  // to free.

  /** No lower bound finds less: a candidate above `y` is also one above
      `x`. */
  predicate NoWorse(a: Option<nat>, b: Option<nat>) {
    b.Some? ==> a.Some? && a.value <= b.value
  }

  lemma {:induction false} LowestMonotone(d: seq<Dir>, i: nat, x: nat, y: nat)
    requires Arena(d) && i < |d| && x <= y
    ensures NoWorse(Lowest(d, i, x), Lowest(d, i, y))
    decreases |d| - i, 1
  {
    ChildLowestMonotone(d, i, x, y, d[i].children.Keys);
  }

  lemma {:induction false} ChildLowestMonotone(d: seq<Dir>, i: nat, x: nat, y: nat, names: set<string>)
    requires Arena(d) && i < |d| && names <= d[i].children.Keys && x <= y
    ensures NoWorse(ChildLowest(d, i, x, names), ChildLowest(d, i, y, names))
    decreases |d| - i, 0, names
  {
    if names != {} {
      var n :| n in names;
      ChildLowestPick(d, i, x, names, n);
      ChildLowestPick(d, i, y, names, n);
      LowestMonotone(d, d[i].children[n], x, y);
      ChildLowestMonotone(d, i, x, y, names - {n});
    }
  }

  /** The evidently intended answer of part 2: the smallest total, among the
      root and everything below it, that is at least the space to free. It
      frees enough, and it is never larger than the answer as written. */
  ghost function AtLeastNeed(d: seq<Dir>, need: nat): (r: nat)
    requires Arena(d) && 0 < need <= TotalSize(d, 0)
    ensures r >= need
    ensures r <= MinOf(TotalSize(d, 0), Lowest(d, 0, need))
  {
    LowestMonotone(d, 0, need - 1, need);
    MinOf(TotalSize(d, 0), Lowest(d, 0, need - 1))
  }

  /** A root with 40,000,000 bytes of files and one subdirectory `a` holding
      a single 1-byte file. */
  function ExactFit(): seq<Dir> {
    [Dir(map["a" := 1], 40_000_000), Dir(map[], 1)]
  }

  /** On `ExactFit` exactly 1 byte must be freed and `a` frees it: part 2 as
      written answers the root's 40,000,001, the intended answer is 1. */
  lemma ExactFitSkipped()
    ensures Arena(ExactFit())
    ensures SpaceToFree(TotalSize(ExactFit(), 0)) == Ok(1)
    ensures TotalSize(ExactFit(), 1) == 1
    ensures MinOf(TotalSize(ExactFit(), 0), Lowest(ExactFit(), 0, 1)) == 40_000_001
    ensures AtLeastNeed(ExactFit(), 1) == 1
  {
    var d := ExactFit();
    assert d[0].children.Keys == {"a"} && d[1].children.Keys == {};
    assert Arena(d);
    assert TotalSize(d, 1) == 1;
    ChildTotalsPick(d, 0, {"a"}, "a");
    assert TotalSize(d, 0) == 40_000_001;
    ChildLowestPick(d, 0, 1, {"a"}, "a");
    ChildLowestPick(d, 0, 0, {"a"}, "a");
    assert Lowest(d, 0, 1) == None;
    assert Lowest(d, 0, 0) == Some(1);
  }
}
