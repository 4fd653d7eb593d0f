/** Day 8, "Treetop Tree House": a square grid of digit heights is swept in place
    by four processors of one kind per row/column index (left to right, right to
    left, top to bottom, bottom to top). A visibility processor marks the trees
    taller than everything before them on the ray; a scenic processor multiplies
    each tree's score by how far it can see back along the ray. */
module Day08TreeGrid {
  import opened Outcomes
  import opened Text

  /** A tree of the grid: whether a pass found it visible, its height, and the
      product of the viewing distances found so far. */
  datatype Tree = Tree(visible: bool, height: nat, score: nat)

  /** Heights are decimal digits; `ScoreProc` keeps one table entry per height. */
  const HeightCount: nat := 10

  // ---------------------------------------------------------------------------
  // What one processor has seen along its ray
  // ---------------------------------------------------------------------------

  /** A tree of height `h` is seen from the start of a ray whose earlier heights
      are `before` when all of them are strictly lower. */
  predicate VisibleAfter(before: seq<nat>, h: nat) {
    forall k :: 0 <= k < |before| ==> before[k] < h
  }

  /** How many trees a tree of height `h` sees looking back along the ray: up to
      and including the nearest earlier tree at least as tall, or all of them. */
  function ViewDistance(before: seq<nat>, h: nat): (r: nat)
    ensures r <= |before|
    ensures 0 < |before| ==> 0 < r
    ensures r < |before| ==> before[|before| - r] >= h
    ensures forall k :: |before| - r < k < |before| ==> before[k] < h
  {
    if before == [] then 0
    else if before[|before| - 1] >= h then 1
    else 1 + ViewDistance(before[..|before| - 1], h)
  }

  /** The tallest of a non-empty run of heights. */
  function RunMax(before: seq<nat>): (m: nat)
    requires before != []
    ensures exists k :: 0 <= k < |before| && before[k] == m
    ensures forall k :: 0 <= k < |before| ==> before[k] <= m
  {
    if |before| == 1 then before[0]
    else
      var m := RunMax(before[..|before| - 1]);
      if before[|before| - 1] > m then before[|before| - 1] else m
  }

  /** Looking back from one tree further along the ray. */
  lemma ViewDistanceStep(before: seq<nat>, h: nat, x: nat)
    ensures ViewDistance(before + [h], x) == if x <= h then 1 else ViewDistance(before, x) + 1
  {
    assert (before + [h])[..|before|] == before;
  }

  // ---------------------------------------------------------------------------
  // The two processors
  // ---------------------------------------------------------------------------

  datatype Kind = Visibility | Scenic

  /** `VisProc` keeps the height of the last tree it marked; `ScoreProc` keeps a
      10-entry table that it updates in place. */
  datatype Proc = VisProc(last: Option<nat>) | ScoreProc(table: array<nat>)

  function Footprint(p: Proc): set<object> {
    if p.ScoreProc? then {p.table} else {}
  }

  /** A processor of `kind` is in the state it reaches after the heights
      `before` of its ray, counted from its last reset: a visibility processor
      holds their maximum, and entry `x` of a scenic processor's table holds the
      distance a tree of height `x` would see back along them. */
  ghost predicate Holds(kind: Kind, p: Proc, before: seq<nat>)
    reads Footprint(p)
  {
    match kind
    case Visibility => p == VisProc(if before == [] then None else Some(RunMax(before)))
    case Scenic =>
      && p.ScoreProc? && p.table.Length == HeightCount
      && forall x :: 0 <= x < HeightCount ==> p.table[x] == ViewDistance(before, x)
  }

  /** What processing a tree after the heights `before` does to it. */
  function Effect(kind: Kind, before: seq<nat>, t: Tree): Tree {
    match kind
    case Visibility => if VisibleAfter(before, t.height) then t.(visible := true) else t
    case Scenic => t.(score := t.score * ViewDistance(before, t.height))
  }

  /** `Processor::new`. */
  method NewProc(kind: Kind) returns (p: Proc)
    ensures Holds(kind, p, []) && fresh(Footprint(p))
  {
    match kind
    case Visibility =>
      p := VisProc(None);
    case Scenic =>
      var table := new nat[HeightCount](_ => 0);
      p := ScoreProc(table);
  }

  /** `Processor::reset`: back to the state of a fresh processor, in place. */
  method Reset(kind: Kind, p: Proc, ghost before: seq<nat>) returns (p': Proc)
    requires Holds(kind, p, before)
    modifies Footprint(p)
    ensures Holds(kind, p', []) && Footprint(p') == Footprint(p)
  {
    match p
    case VisProc(_) =>
      p' := VisProc(None);
    case ScoreProc(table) =>
      for x := 0 to table.Length
        invariant forall y :: 0 <= y < x ==> table[y] == 0
      {
        table[x] := 0;
      }
      p' := p;
  }

  /** Two processors reset side by side. */
  method ResetPair(kind: Kind, p: Proc, q: Proc, ghost pb: seq<nat>, ghost qb: seq<nat>) returns (p': Proc, q': Proc)
    requires Holds(kind, p, pb) && Holds(kind, q, qb) && Footprint(p) !! Footprint(q)
    modifies Footprint(p), Footprint(q)
    ensures Holds(kind, p', []) && Footprint(p') == Footprint(p)
    ensures Holds(kind, q', []) && Footprint(q') == Footprint(q)
  {
    p' := Reset(kind, p, pb);
    q' := Reset(kind, q, qb);
  }

  /** `Processor::process` on the tree in row `a`, column `b` of `g`. */
  method Process(kind: Kind, p: Proc, g: array2<Tree>, a: nat, b: nat, ghost before: seq<nat>)
    returns (p': Proc)
    requires a < g.Length0 && b < g.Length1
    requires Holds(kind, p, before) && g[a, b].height < HeightCount
    modifies g, Footprint(p)
    ensures Holds(kind, p', before + [old(g[a, b].height)]) && Footprint(p') == Footprint(p)
    ensures g[a, b] == Effect(kind, before, old(g[a, b]))
    ensures forall a', b' :: 0 <= a' < g.Length0 && 0 <= b' < g.Length1 && (a', b') != (a, b) ==>
      g[a', b'] == old(g[a', b'])
  {
    var t := g[a, b];
    match p
    case VisProc(last) =>
      VisProcStep(before, t);
      if !(last.Some? && t.height <= last.value) {
        g[a, b] := t.(visible := true);
        p' := VisProc(Some(t.height));
      } else {
        p' := p;
      }
    case ScoreProc(table) =>
      g[a, b] := t.(score := t.score * table[t.height]);
      RaiseTable(table, t.height, before);
      p' := p;
  }

  /** The table update of `ScoreProc::process` after a tree of height `h`:
      entries up to `h` restart at 1, the others grow by one. */
  method RaiseTable(table: array<nat>, h: nat, ghost before: seq<nat>)
    requires table.Length == HeightCount
    requires forall x :: 0 <= x < HeightCount ==> table[x] == ViewDistance(before, x)
    modifies table
    ensures forall x :: 0 <= x < HeightCount ==> table[x] == ViewDistance(before + [h], x)
  {
    for x := 0 to table.Length
      invariant forall y :: 0 <= y < x ==> table[y] == if y <= h then 1 else old(table[y]) + 1
      invariant forall y :: x <= y < table.Length ==> table[y] == old(table[y])
    {
      if x <= h {
        table[x] := 1;
      } else {
        table[x] := table[x] + 1;
      }
    }
    forall x | 0 <= x < HeightCount
      ensures table[x] == ViewDistance(before + [h], x)
    {
      ViewDistanceStep(before, h, x);
    }
  }

  /** The visibility processor marks a tree exactly when it is taller than
      every tree before it on the ray, and its state is the running maximum. */
  lemma VisProcStep(before: seq<nat>, t: Tree)
    ensures Effect(Visibility, before, t).visible <==> t.visible || before == [] || RunMax(before) < t.height
    ensures before != [] ==> RunMax(before + [t.height]) == if RunMax(before) < t.height then t.height else RunMax(before)
  {
    if before != [] {
      assert (before + [t.height])[..|before|] == before;
      if RunMax(before) < t.height {
        assert VisibleAfter(before, t.height);
      } else {
        var k :| 0 <= k < |before| && before[k] == RunMax(before);
      }
    }
  }

  // ---------------------------------------------------------------------------
  // Rays through a square grid
  // ---------------------------------------------------------------------------

  /** The four processors of `process`: `p_x`, `p_rev_x`, `p_y` and `p_rev_y`. */
  datatype Dir = FromLeft | FromRight | FromTop | FromBottom

  /** The `k`-th tree of ray `r` in direction `d` of an `n` by `n` grid. */
  function RayCell(n: nat, d: Dir, r: nat, k: nat): (c: (nat, nat))
    requires r < n && k < n
    ensures c.0 < n && c.1 < n
  {
    match d
    case FromLeft => (r, k)
    case FromRight => (r, n - 1 - k)
    case FromTop => (k, r)
    case FromBottom => (n - 1 - k, r)
  }

  /** Which ray of direction `d` goes through row `a`, column `b`, and at which
      step. */
  function RayPos(n: nat, d: Dir, a: nat, b: nat): (p: (nat, nat))
    requires a < n && b < n
    ensures p.0 < n && p.1 < n && RayCell(n, d, p.0, p.1) == (a, b)
  {
    match d
    case FromLeft => (a, b)
    case FromRight => (a, n - 1 - b)
    case FromTop => (b, a)
    case FromBottom => (b, n - 1 - a)
  }

  /** Each step of each ray lands on a different tree. */
  lemma RayPosOfCell(n: nat, d: Dir, r: nat, k: nat)
    requires r < n && k < n
    ensures RayPos(n, d, RayCell(n, d, r, k).0, RayCell(n, d, r, k).1) == (r, k)
  {
  }

  predicate IsSquare(H: seq<seq<nat>>) {
    forall r :: 0 <= r < |H| ==> |H[r]| == |H|
  }

  /** The heights along ray `r` of direction `d`, in the order its processor
      visits them. */
  function Ray(H: seq<seq<nat>>, d: Dir, r: nat): (ray: seq<nat>)
    requires IsSquare(H) && r < |H|
    ensures |ray| == |H|
  {
    seq(|H|, k requires 0 <= k < |H| => var c := RayCell(|H|, d, r, k); H[c.0][c.1])
  }

  /** The heights a processor of direction `d` has passed when it reaches the
      tree in row `a`, column `b`. */
  function Before(H: seq<seq<nat>>, d: Dir, a: nat, b: nat): seq<nat>
    requires IsSquare(H) && a < |H| && b < |H|
  {
    var p := RayPos(|H|, d, a, b);
    Ray(H, d, p.0)[..p.1]
  }

  /** The tree in row `a`, column `b` can be seen from outside the grid along
      at least one of the four directions. */
  predicate VisibleFromOutside(H: seq<seq<nat>>, a: nat, b: nat)
    requires IsSquare(H) && a < |H| && b < |H|
  {
    || VisibleAfter(Before(H, FromLeft, a, b), H[a][b])
    || VisibleAfter(Before(H, FromRight, a, b), H[a][b])
    || VisibleAfter(Before(H, FromTop, a, b), H[a][b])
    || VisibleAfter(Before(H, FromBottom, a, b), H[a][b])
  }

  /** The scenic score: the product of the four viewing distances. */
  function ScenicScore(H: seq<seq<nat>>, a: nat, b: nat): nat
    requires IsSquare(H) && a < |H| && b < |H|
  {
    Product(ViewDistance(Before(H, FromLeft, a, b), H[a][b]),
            ViewDistance(Before(H, FromRight, a, b), H[a][b]),
            ViewDistance(Before(H, FromTop, a, b), H[a][b]),
            ViewDistance(Before(H, FromBottom, a, b), H[a][b]))
  }

  function Product(l: nat, r: nat, u: nat, w: nat): nat {
    l * r * u * w
  }

  /** A tree on the edge is the first of some ray: it is always visible and its
      scenic score is 0. */
  lemma EdgeTree(H: seq<seq<nat>>, a: nat, b: nat)
    requires IsSquare(H) && a < |H| && b < |H|
    requires a == 0 || b == 0 || a == |H| - 1 || b == |H| - 1
    ensures VisibleFromOutside(H, a, b)
    ensures ScenicScore(H, a, b) == 0
  {
    var n := |H|;
    if b == 0 {
      assert Before(H, FromLeft, a, b) == [];
    } else if b == n - 1 {
      assert Before(H, FromRight, a, b) == [];
    } else if a == 0 {
      assert Before(H, FromTop, a, b) == [];
    } else {
      assert Before(H, FromBottom, a, b) == [];
    }
    ProductZero(ViewDistance(Before(H, FromLeft, a, b), H[a][b]), ViewDistance(Before(H, FromRight, a, b), H[a][b]),
                ViewDistance(Before(H, FromTop, a, b), H[a][b]), ViewDistance(Before(H, FromBottom, a, b), H[a][b]));
  }

  lemma ProductZero(l: nat, r: nat, u: nat, w: nat)
    ensures Product(l, r, u, w) == 0 <==> l == 0 || r == 0 || u == 0 || w == 0
  {
    if l != 0 && r != 0 && u != 0 && w != 0 {
      assert l * r > 0;
      assert l * r * u > 0;
    }
  }

  // ---------------------------------------------------------------------------
  // What the sweep has done so far
  // ---------------------------------------------------------------------------

  /** The heights each of the four processors passes before reaching one tree. */
  datatype Views = Views(left: seq<nat>, right: seq<nat>, top: seq<nat>, bottom: seq<nat>) {
    function Get(d: Dir): seq<nat> {
      match d
      case FromLeft => left
      case FromRight => right
      case FromTop => top
      case FromBottom => bottom
    }
  }

  function ViewsAt(H: seq<seq<nat>>, a: nat, b: nat): Views
    requires IsSquare(H) && a < |H| && b < |H|
  {
    Views(Before(H, FromLeft, a, b), Before(H, FromRight, a, b),
          Before(H, FromTop, a, b), Before(H, FromBottom, a, b))
  }

  predicate SeenFrom(V: Views, d: Dir, h: nat, S: set<Dir>) {
    d in S && VisibleAfter(V.Get(d), h)
  }

  function Factor(V: Views, d: Dir, h: nat, S: set<Dir>): nat {
    if d in S then ViewDistance(V.Get(d), h) else 1
  }

  /** The tree `t`, which sees the views `V`, once the processors of the
      directions in `S` have passed it. */
  function Swept(kind: Kind, t: Tree, V: Views, S: set<Dir>): Tree {
    var h := t.height;
    match kind
    case Visibility =>
      t.(visible := t.visible || SeenFrom(V, FromLeft, h, S) || SeenFrom(V, FromRight, h, S)
                    || SeenFrom(V, FromTop, h, S) || SeenFrom(V, FromBottom, h, S))
    case Scenic =>
      t.(score := t.score * Product(Factor(V, FromLeft, h, S), Factor(V, FromRight, h, S),
                                    Factor(V, FromTop, h, S), Factor(V, FromBottom, h, S)))
  }

  /** One more processor passing a tree adds its direction to the tree's sweep,
      whatever the order of the passes. */
  lemma SweptStep(kind: Kind, t: Tree, V: Views, S: set<Dir>, d: Dir)
    requires d !in S
    ensures Effect(kind, V.Get(d), Swept(kind, t, V, S)) == Swept(kind, t, V, S + {d})
  {
    if kind == Scenic {
      var h := t.height;
      Rescore(t.score, Factor(V, FromLeft, h, S), Factor(V, FromRight, h, S),
              Factor(V, FromTop, h, S), Factor(V, FromBottom, h, S), ViewDistance(V.Get(d), h));
    }
  }

  /** Multiplying in one more viewing distance fills the factor that was still 1. */
  lemma Rescore(s: nat, l: nat, r: nat, u: nat, w: nat, v: nat)
    ensures l == 1 ==> s * Product(l, r, u, w) * v == s * Product(v, r, u, w)
    ensures r == 1 ==> s * Product(l, r, u, w) * v == s * Product(l, v, u, w)
    ensures u == 1 ==> s * Product(l, r, u, w) * v == s * Product(l, r, v, w)
    ensures w == 1 ==> s * Product(l, r, u, w) * v == s * Product(l, r, u, v)
  {
    assert s * Product(l, r, u, w) * v == s * (l * r * u * w * v);
  }

  /** How far each of the four processors has got through the current row or
      column index. */
  datatype Counts = Counts(left: nat, right: nat, top: nat, bottom: nat) {
    function Get(d: Dir): nat {
      match d
      case FromLeft => left
      case FromRight => right
      case FromTop => top
      case FromBottom => bottom
    }

    function Bump(d: Dir): Counts {
      match d
      case FromLeft => this.(left := left + 1)
      case FromRight => this.(right := right + 1)
      case FromTop => this.(top := top + 1)
      case FromBottom => this.(bottom := bottom + 1)
    }
  }

  /** The processor of direction `d` has passed row `a`, column `b`: it has
      finished the rays before `i`, and `c` steps of ray `i`. */
  predicate Passed(n: nat, d: Dir, a: nat, b: nat, i: nat, c: nat)
    requires a < n && b < n
  {
    var p := RayPos(n, d, a, b);
    p.0 < i || (p.0 == i && p.1 < c)
  }

  function PassedDirs(n: nat, a: nat, b: nat, i: nat, c: Counts): set<Dir>
    requires a < n && b < n
  {
    (if Passed(n, FromLeft, a, b, i, c.left) then {FromLeft} else {})
    + (if Passed(n, FromRight, a, b, i, c.right) then {FromRight} else {})
    + (if Passed(n, FromTop, a, b, i, c.top) then {FromTop} else {})
    + (if Passed(n, FromBottom, a, b, i, c.bottom) then {FromBottom} else {})
  }

  /** Moving processor `d` one step on adds `d` to the tree it reaches, and to
      no other tree. */
  lemma PassedStep(n: nat, d: Dir, a: nat, b: nat, i: nat, c: Counts)
    requires a < n && b < n
    ensures RayPos(n, d, a, b) == (i, c.Get(d)) ==>
      d !in PassedDirs(n, a, b, i, c) && PassedDirs(n, a, b, i, c.Bump(d)) == PassedDirs(n, a, b, i, c) + {d}
    ensures RayPos(n, d, a, b) != (i, c.Get(d)) ==>
      PassedDirs(n, a, b, i, c.Bump(d)) == PassedDirs(n, a, b, i, c)
  {
    match d
    case FromLeft =>
    case FromRight =>
    case FromTop =>
    case FromBottom =>
  }

  /** `o` is a grid of trees of heights `H`. */
  ghost predicate GridOf(o: seq<seq<Tree>>, H: seq<seq<nat>>) {
    && IsSquare(H) && |o| == |H|
    && (forall a :: 0 <= a < |o| ==> |o[a]| == |H|)
    && (forall a, b :: 0 <= a < |H| && 0 <= b < |H| ==> o[a][b].height == H[a][b] < HeightCount)
  }

  /** Every tree of `g` has been passed exactly by the processors `PassedDirs`
      names, starting from the grid `o`. */
  ghost predicate Progress(g: array2<Tree>, kind: Kind, H: seq<seq<nat>>, o: seq<seq<Tree>>, i: nat, c: Counts)
    reads g
  {
    && GridOf(o, H) && g.Length0 == |H| && g.Length1 == |H|
    && forall a, b :: 0 <= a < |H| && 0 <= b < |H| ==> CellDone(g, kind, H, o, a, b, i, c)
  }

  /** The tree in row `a`, column `b` of `g` has been passed exactly by the
      processors `PassedDirs` names. */
  ghost predicate CellDone(g: array2<Tree>, kind: Kind, H: seq<seq<nat>>, o: seq<seq<Tree>>, a: nat, b: nat, i: nat, c: Counts)
    reads g
  {
    && IsSquare(H) && a < |H| && b < |H| && a < |o| && b < |o[a]| && a < g.Length0 && b < g.Length1
    && g[a, b] == Swept(kind, o[a][b], ViewsAt(H, a, b), PassedDirs(|H|, a, b, i, c))
  }

  /** The call `p.process(&mut v[..][..])` for step `j` of ray `i` in direction
      `d`, with what it does to the sweep. */
  method Visit(kind: Kind, g: array2<Tree>, ghost H: seq<seq<nat>>, ghost o: seq<seq<Tree>>,
               n: nat, d: Dir, i: nat, j: nat, p: Proc, ghost c: Counts)
    returns (p': Proc)
    requires Progress(g, kind, H, o, i, c) && n == |H| && i < n && j < n && c.Get(d) == j
    requires Holds(kind, p, Ray(H, d, i)[..j])
    modifies g, Footprint(p)
    ensures Progress(g, kind, H, o, i, c.Bump(d))
    ensures Holds(kind, p', Ray(H, d, i)[..j + 1]) && Footprint(p') == Footprint(p)
  {
    var cell := RayCell(n, d, i, j);
    p' := VisitTree(kind, g, H, o, n, d, i, j, p, c, cell.0, cell.1);
    VisitStep(kind, H, o, d, i, j, c);
    forall a, b | 0 <= a < n && 0 <= b < n
      ensures CellDone(g, kind, H, o, a, b, i, c.Bump(d))
    {
      if (a, b) != cell {
        assert old(CellDone(g, kind, H, o, a, b, i, c));
      }
    }
  }

  /** The call itself: the tree in row `x`, column `y` is processed, and no
      other tree changes. */
  method VisitTree(kind: Kind, g: array2<Tree>, ghost H: seq<seq<nat>>, ghost o: seq<seq<Tree>>,
                   n: nat, d: Dir, i: nat, j: nat, p: Proc, ghost c: Counts, x: nat, y: nat)
    returns (p': Proc)
    requires GridOf(o, H) && n == |H| && i < n && j < n && c.Get(d) == j && (x, y) == RayCell(n, d, i, j)
    requires g.Length0 == n && g.Length1 == n && CellDone(g, kind, H, o, x, y, i, c)
    requires Holds(kind, p, Ray(H, d, i)[..j])
    modifies g, Footprint(p)
    ensures CellDone(g, kind, H, o, x, y, i, c.Bump(d))
    ensures Holds(kind, p', Ray(H, d, i)[..j + 1]) && Footprint(p') == Footprint(p)
    ensures forall a, b :: 0 <= a < g.Length0 && 0 <= b < g.Length1 && (a, b) != (x, y) ==> g[a, b] == old(g[a, b])
  {
    VisitStep(kind, H, o, d, i, j, c);
    p' := Process(kind, p, g, x, y, Ray(H, d, i)[..j]);
  }

  /** What `Visit` needs to know about the tree it reaches: it is the `j`-th of
      the ray, processing it completes its sweep by direction `d`, and every
      other tree keeps its set of passed directions. */
  lemma VisitStep(kind: Kind, H: seq<seq<nat>>, o: seq<seq<Tree>>, d: Dir, i: nat, j: nat, c: Counts)
    requires GridOf(o, H) && i < |H| && j < |H| && c.Get(d) == j
    ensures var cell := RayCell(|H|, d, i, j);
      && Ray(H, d, i)[..j + 1] == Ray(H, d, i)[..j] + [o[cell.0][cell.1].height]
      && Effect(kind, Ray(H, d, i)[..j], Swept(kind, o[cell.0][cell.1], ViewsAt(H, cell.0, cell.1), PassedDirs(|H|, cell.0, cell.1, i, c)))
         == Swept(kind, o[cell.0][cell.1], ViewsAt(H, cell.0, cell.1), PassedDirs(|H|, cell.0, cell.1, i, c.Bump(d)))
      && Swept(kind, o[cell.0][cell.1], ViewsAt(H, cell.0, cell.1), PassedDirs(|H|, cell.0, cell.1, i, c)).height
         == o[cell.0][cell.1].height < HeightCount
      && forall a, b :: 0 <= a < |H| && 0 <= b < |H| && (a, b) != cell ==>
           PassedDirs(|H|, a, b, i, c.Bump(d)) == PassedDirs(|H|, a, b, i, c)
  {
    var n := |H|;
    var cell := RayCell(n, d, i, j);
    RayPosOfCell(n, d, i, j);
    assert Ray(H, d, i)[..j + 1] == Ray(H, d, i)[..j] + [H[cell.0][cell.1]];
    PassedStep(n, d, cell.0, cell.1, i, c);
    SweptStep(kind, o[cell.0][cell.1], ViewsAt(H, cell.0, cell.1), PassedDirs(n, cell.0, cell.1, i, c), d);
    forall a, b | 0 <= a < n && 0 <= b < n && (a, b) != cell
      ensures PassedDirs(n, a, b, i, c.Bump(d)) == PassedDirs(n, a, b, i, c)
    {
      PassedStep(n, d, a, b, i, c);
    }
  }

  /** Before the sweep, no processor has passed any tree. */
  lemma ProgressStart(g: array2<Tree>, kind: Kind, H: seq<seq<nat>>, o: seq<seq<Tree>>)
    requires GridOf(o, H) && g.Length0 == |H| && g.Length1 == |H|
    requires forall a, b :: 0 <= a < |H| && 0 <= b < |H| ==> g[a, b] == o[a][b]
    ensures Progress(g, kind, H, o, 0, Counts(0, 0, 0, 0))
  {
    forall a, b | 0 <= a < |H| && 0 <= b < |H|
      ensures CellDone(g, kind, H, o, a, b, 0, Counts(0, 0, 0, 0))
    {
      assert PassedDirs(|H|, a, b, 0, Counts(0, 0, 0, 0)) == {};
    }
  }

  /** Finishing all rays of index `i` is starting those of index `i + 1`. */
  lemma ProgressNextIndex(g: array2<Tree>, kind: Kind, H: seq<seq<nat>>, o: seq<seq<Tree>>, i: nat)
    requires Progress(g, kind, H, o, i, Counts(|H|, |H|, |H|, |H|))
    ensures Progress(g, kind, H, o, i + 1, Counts(0, 0, 0, 0))
  {
    var n, next := |H|, i + 1;
    forall a, b | 0 <= a < n && 0 <= b < n
      ensures CellDone(g, kind, H, o, a, b, next, Counts(0, 0, 0, 0))
    {
      assert CellDone(g, kind, H, o, a, b, i, Counts(n, n, n, n));
      assert PassedDirs(n, a, b, i, Counts(n, n, n, n)) == PassedDirs(n, a, b, next, Counts(0, 0, 0, 0));
    }
  }

  /** Once every ray is done, every tree has been passed from all four sides. */
  lemma ProgressEnd(g: array2<Tree>, kind: Kind, H: seq<seq<nat>>, o: seq<seq<Tree>>)
    requires Progress(g, kind, H, o, |H|, Counts(0, 0, 0, 0))
    ensures forall a, b :: 0 <= a < |H| && 0 <= b < |H| ==> g[a, b] == Outcome(kind, H, o[a][b], a, b)
  {
    var n := |H|;
    forall a, b | 0 <= a < n && 0 <= b < n
      ensures g[a, b] == Outcome(kind, H, o[a][b], a, b)
    {
      assert CellDone(g, kind, H, o, a, b, n, Counts(0, 0, 0, 0));
      PassedAll(n, a, b);
      SweptAll(kind, H, o[a][b], a, b);
    }
  }

  /** Past the last ray, every processor has passed every tree. */
  lemma PassedAll(n: nat, a: nat, b: nat)
    requires a < n && b < n
    ensures PassedDirs(n, a, b, n, Counts(0, 0, 0, 0)) == AllDirs
  {
    assert Passed(n, FromLeft, a, b, n, 0) && Passed(n, FromRight, a, b, n, 0);
    assert Passed(n, FromTop, a, b, n, 0) && Passed(n, FromBottom, a, b, n, 0);
  }

  const AllDirs: set<Dir> := {FromLeft, FromRight, FromTop, FromBottom}

  /** Passed from all four sides, a tree has had all it gets from the sweep. */
  lemma SweptAll(kind: Kind, H: seq<seq<nat>>, t: Tree, a: nat, b: nat)
    requires IsSquare(H) && a < |H| && b < |H| && t.height == H[a][b]
    ensures Swept(kind, t, ViewsAt(H, a, b), AllDirs) == Outcome(kind, H, t, a, b)
  {
    var V := ViewsAt(H, a, b);
    SweptAllDirs(kind, t, V);
    assert V.left == Before(H, FromLeft, a, b) && V.right == Before(H, FromRight, a, b);
    assert V.top == Before(H, FromTop, a, b) && V.bottom == Before(H, FromBottom, a, b);
  }

  /** Passed by all four processors, a tree has had the effect of each. */
  lemma SweptAllDirs(kind: Kind, t: Tree, V: Views)
    ensures var h := t.height;
      Swept(kind, t, V, AllDirs) == match kind
        case Visibility =>
          t.(visible := t.visible || VisibleAfter(V.left, h) || VisibleAfter(V.right, h)
                        || VisibleAfter(V.top, h) || VisibleAfter(V.bottom, h))
        case Scenic =>
          t.(score := t.score * Product(ViewDistance(V.left, h), ViewDistance(V.right, h),
                                        ViewDistance(V.top, h), ViewDistance(V.bottom, h)))
  {
    assert FromLeft in AllDirs && FromRight in AllDirs && FromTop in AllDirs && FromBottom in AllDirs;
  }

  /** The trees of `g`, row by row. */
  function Cells(g: array2<Tree>): (o: seq<seq<Tree>>)
    reads g
    ensures |o| == g.Length0 && forall a :: 0 <= a < |o| ==> |o[a]| == g.Length1
    ensures forall a, b :: 0 <= a < g.Length0 && 0 <= b < g.Length1 ==> o[a][b] == g[a, b]
  {
    seq(g.Length0, a requires 0 <= a < g.Length0 reads g =>
      seq(g.Length1, b requires 0 <= b < g.Length1 reads g => g[a, b]))
  }

  function HeightsOf(o: seq<seq<Tree>>): (H: seq<seq<nat>>)
    ensures |H| == |o| && forall a :: 0 <= a < |o| ==> |H[a]| == |o[a]|
    ensures forall a, b :: 0 <= a < |o| && 0 <= b < |o[a]| ==> H[a][b] == o[a][b].height
  {
    seq(|o|, a requires 0 <= a < |o| => seq(|o[a]|, b requires 0 <= b < |o[a]| => o[a][b].height))
  }

  /** The whole tree after all four passes of `kind`. */
  function Outcome(kind: Kind, H: seq<seq<nat>>, t: Tree, a: nat, b: nat): Tree
    requires IsSquare(H) && a < |H| && b < |H|
  {
    match kind
    case Visibility => t.(visible := t.visible || VisibleFromOutside(H, a, b))
    case Scenic => t.(score := t.score * ScenicScore(H, a, b))
  }

  /** One step of the inner loop of `process`: each of the four processors
      passes the `j`-th tree of its ray `i`. */
  method ProcessStep(kind: Kind, g: array2<Tree>, ghost H: seq<seq<nat>>, ghost o: seq<seq<Tree>>,
                     n: nat, i: nat, j: nat, px: Proc, prx: Proc, py: Proc, pry: Proc)
    returns (px': Proc, prx': Proc, py': Proc, pry': Proc)
    requires Progress(g, kind, H, o, i, Counts(j, j, j, j)) && n == |H| && i < n && j < n
    requires Holds(kind, px, Ray(H, FromLeft, i)[..j]) && Holds(kind, prx, Ray(H, FromRight, i)[..j])
    requires Holds(kind, py, Ray(H, FromTop, i)[..j]) && Holds(kind, pry, Ray(H, FromBottom, i)[..j])
    requires Footprint(px) !! Footprint(prx) !! Footprint(py) !! Footprint(pry)
    modifies g, Footprint(px), Footprint(prx), Footprint(py), Footprint(pry)
    ensures Progress(g, kind, H, o, i, Counts(j + 1, j + 1, j + 1, j + 1))
    ensures Holds(kind, px', Ray(H, FromLeft, i)[..j + 1]) && Holds(kind, prx', Ray(H, FromRight, i)[..j + 1])
    ensures Holds(kind, py', Ray(H, FromTop, i)[..j + 1]) && Holds(kind, pry', Ray(H, FromBottom, i)[..j + 1])
    ensures Footprint(px') == Footprint(px) && Footprint(prx') == Footprint(prx)
    ensures Footprint(py') == Footprint(py) && Footprint(pry') == Footprint(pry)
  {
    px', prx' := VisitPair(kind, g, H, o, n, FromLeft, FromRight, i, j, px, prx, Counts(j, j, j, j));
    py', pry' := VisitPair(kind, g, H, o, n, FromTop, FromBottom, i, j, py, pry, Counts(j + 1, j + 1, j, j));
  }

  /** Two of the processors, of directions `d` and `e`, pass the `j`-th tree
      of their rays `i`. */
  method VisitPair(kind: Kind, g: array2<Tree>, ghost H: seq<seq<nat>>, ghost o: seq<seq<Tree>>,
                   n: nat, d: Dir, e: Dir, i: nat, j: nat, p: Proc, q: Proc, ghost c: Counts)
    returns (p': Proc, q': Proc)
    requires Progress(g, kind, H, o, i, c) && n == |H| && i < n && j < n
    requires d != e && c.Get(d) == j && c.Get(e) == j
    requires Holds(kind, p, Ray(H, d, i)[..j]) && Holds(kind, q, Ray(H, e, i)[..j])
    requires Footprint(p) !! Footprint(q)
    modifies g, Footprint(p), Footprint(q)
    ensures Progress(g, kind, H, o, i, c.Bump(d).Bump(e))
    ensures Holds(kind, p', Ray(H, d, i)[..j + 1]) && Holds(kind, q', Ray(H, e, i)[..j + 1])
    ensures Footprint(p') == Footprint(p) && Footprint(q') == Footprint(q)
  {
    p' := Visit(kind, g, H, o, n, d, i, j, p, c);
    assert c.Bump(d).Get(e) == j by {
      match d case FromLeft => case FromRight => case FromTop => case FromBottom =>
    }
    q' := Visit(kind, g, H, o, n, e, i, j, q, c.Bump(d));
  }

  /** The inner loop of `process`: the four processors walk their rays of
      index `i` side by side, from first tree to last. */
  method SweepIndex(kind: Kind, g: array2<Tree>, ghost H: seq<seq<nat>>, ghost o: seq<seq<Tree>>,
                    n: nat, i: nat, px: Proc, prx: Proc, py: Proc, pry: Proc)
    returns (px': Proc, prx': Proc, py': Proc, pry': Proc)
    requires Progress(g, kind, H, o, i, Counts(0, 0, 0, 0)) && n == |H| && i < n
    requires Holds(kind, px, []) && Holds(kind, prx, []) && Holds(kind, py, []) && Holds(kind, pry, [])
    requires Footprint(px) !! Footprint(prx) !! Footprint(py) !! Footprint(pry)
    modifies g, Footprint(px), Footprint(prx), Footprint(py), Footprint(pry)
    ensures Progress(g, kind, H, o, i, Counts(n, n, n, n))
    ensures Holds(kind, px', Ray(H, FromLeft, i)[..n]) && Holds(kind, prx', Ray(H, FromRight, i)[..n])
    ensures Holds(kind, py', Ray(H, FromTop, i)[..n]) && Holds(kind, pry', Ray(H, FromBottom, i)[..n])
    ensures Footprint(px') == Footprint(px) && Footprint(prx') == Footprint(prx)
    ensures Footprint(py') == Footprint(py) && Footprint(pry') == Footprint(pry)
  {
    px', prx', py', pry' := px, prx, py, pry;
    assert Ray(H, FromLeft, i)[..0] == [] && Ray(H, FromRight, i)[..0] == [];
    assert Ray(H, FromTop, i)[..0] == [] && Ray(H, FromBottom, i)[..0] == [];
    for j := 0 to n
      invariant Progress(g, kind, H, o, i, Counts(j, j, j, j))
      invariant Holds(kind, px', Ray(H, FromLeft, i)[..j]) && Holds(kind, prx', Ray(H, FromRight, i)[..j])
      invariant Holds(kind, py', Ray(H, FromTop, i)[..j]) && Holds(kind, pry', Ray(H, FromBottom, i)[..j])
      invariant Footprint(px') == Footprint(px) && Footprint(prx') == Footprint(prx)
      invariant Footprint(py') == Footprint(py) && Footprint(pry') == Footprint(pry)
    {
      px', prx', py', pry' := ProcessStep(kind, g, H, o, n, i, j, px', prx', py', pry');
    }
  }

  /** `process`: every tree of a square grid ends up marked visible exactly when
      it is visible from some side, or with its score multiplied by its scenic
      score, however the four passes interleave. */
  method ProcessGrid(kind: Kind, g: array2<Tree>)
    requires g.Length0 == g.Length1
    requires forall a, b :: 0 <= a < g.Length0 && 0 <= b < g.Length1 ==> g[a, b].height < HeightCount
    modifies g
    ensures forall a, b :: 0 <= a < g.Length0 && 0 <= b < g.Length1 ==>
      g[a, b] == Outcome(kind, HeightsOf(old(Cells(g))), old(g[a, b]), a, b)
  {
    var n := g.Length0;
    ghost var o := Cells(g);
    ghost var H := HeightsOf(o);
    ProgressStart(g, kind, H, o);
    var px := NewProc(kind);
    var prx := NewProc(kind);
    var py := NewProc(kind);
    var pry := NewProc(kind);
    ghost var left, right, top, bottom := [], [], [], [];
    for i := 0 to n
      invariant Progress(g, kind, H, o, i, Counts(0, 0, 0, 0))
      invariant Holds(kind, px, left) && Holds(kind, prx, right) && Holds(kind, py, top) && Holds(kind, pry, bottom)
      invariant fresh(Footprint(px) + Footprint(prx) + Footprint(py) + Footprint(pry))
      invariant Footprint(px) !! Footprint(prx) !! Footprint(py) !! Footprint(pry)
    {
      px, prx, py, pry := SweepRound(kind, g, H, o, n, i, px, prx, py, pry, left, right, top, bottom);
      left, right, top, bottom := Ray(H, FromLeft, i)[..n], Ray(H, FromRight, i)[..n],
                                  Ray(H, FromTop, i)[..n], Ray(H, FromBottom, i)[..n];
    }
    ProgressEnd(g, kind, H, o);
  }

  /** One turn of the outer loop of `process`: reset the four processors, then
      sweep the rays of index `i`. */
  method SweepRound(kind: Kind, g: array2<Tree>, ghost H: seq<seq<nat>>, ghost o: seq<seq<Tree>>,
                    n: nat, i: nat, px: Proc, prx: Proc, py: Proc, pry: Proc,
                    ghost left: seq<nat>, ghost right: seq<nat>, ghost top: seq<nat>, ghost bottom: seq<nat>)
    returns (px': Proc, prx': Proc, py': Proc, pry': Proc)
    requires Progress(g, kind, H, o, i, Counts(0, 0, 0, 0)) && n == |H| && i < n
    requires Holds(kind, px, left) && Holds(kind, prx, right) && Holds(kind, py, top) && Holds(kind, pry, bottom)
    requires Footprint(px) !! Footprint(prx) !! Footprint(py) !! Footprint(pry)
    modifies g, Footprint(px), Footprint(prx), Footprint(py), Footprint(pry)
    ensures Progress(g, kind, H, o, i + 1, Counts(0, 0, 0, 0))
    ensures Holds(kind, px', Ray(H, FromLeft, i)[..n]) && Holds(kind, prx', Ray(H, FromRight, i)[..n])
    ensures Holds(kind, py', Ray(H, FromTop, i)[..n]) && Holds(kind, pry', Ray(H, FromBottom, i)[..n])
    ensures Footprint(px') == Footprint(px) && Footprint(prx') == Footprint(prx)
    ensures Footprint(py') == Footprint(py) && Footprint(pry') == Footprint(pry)
  {
    px', prx' := ResetPair(kind, px, prx, left, right);
    py', pry' := ResetPair(kind, py, pry, top, bottom);
    px', prx', py', pry' := SweepIndex(kind, g, H, o, n, i, px', prx', py', pry');
    ProgressNextIndex(g, kind, H, o, i);
  }

  // ---------------------------------------------------------------------------
  // Input, and the two answers
  // ---------------------------------------------------------------------------

  /** The lines of the trimmed input, one grid row each. */
  function Rows(input: string): seq<string> {
    Lines(Trim(input))
  }

  predicate DigitRows(ls: seq<string>) {
    forall i :: 0 <= i < |ls| ==> AllDigits(ls[i])
  }

  function Digit(c: char): nat
    requires IsDigit(c)
  {
    c as int - '0' as int
  }

  /** The grid `parse` builds: every tree not yet visible, with score 1. */
  function Planted(ls: seq<string>): (v: seq<seq<Tree>>)
    requires DigitRows(ls)
    ensures |v| == |ls| && forall i :: 0 <= i < |ls| ==> v[i] == PlantedRow(ls[i])
  {
    seq(|ls|, i requires 0 <= i < |ls| => PlantedRow(ls[i]))
  }

  function PlantedRow(line: string): (row: seq<Tree>)
    requires AllDigits(line)
    ensures |row| == |line| && forall j :: 0 <= j < |line| ==> row[j] == Tree(false, Digit(line[j]), 1)
  {
    seq(|line|, j requires 0 <= j < |line| => Tree(false, Digit(line[j]), 1))
  }

  /** `parse`: one tree per character of each line of the trimmed input, with
      its digit as height; any other character is an error. */
  method Parse(input: string) returns (r: Answer<seq<seq<Tree>>>)
    ensures r.Ok? <==> DigitRows(Rows(input))
    ensures r.Ok? ==> r.value == Planted(Rows(input))
    ensures r.Err? ==> r.error == "Incorrect input"
  {
    var ls := Rows(input);
    var v: seq<seq<Tree>> := [];
    for i := 0 to |ls|
      invariant |v| == i
      invariant forall k :: 0 <= k < i ==> AllDigits(ls[k]) && v[k] == PlantedRow(ls[k])
    {
      var line := ls[i];
      var v2: seq<Tree> := [];
      for j := 0 to |line|
        invariant |v2| == j
        invariant forall k :: 0 <= k < j ==> IsDigit(line[k]) && v2[k] == Tree(false, Digit(line[k]), 1)
      {
        var c := line[j];
        if !IsDigit(c) {
          assert !AllDigits(ls[i]);
          return Err("Incorrect input");
        }
        v2 := v2 + [Tree(false, Digit(c), 1)];
      }
      assert v2 == PlantedRow(line);
      v := v + [v2];
    }
    assert v == Planted(ls);
    r := Ok(v);
  }

  /** The bounds `process` relies on, in terms of the row lengths `m`: every
      `v[j][i]` and `v[col_len - 1 - j][i]` it reads exists. */
  predicate InBounds(m: seq<nat>) {
    forall i, j :: 0 <= i < |m| && 0 <= j < m[i] ==> ColumnReadable(m, i, j)
  }

  /** Column `i` exists in rows `j` and `|m| - 1 - j`. */
  predicate ColumnReadable(m: seq<nat>, i: nat, j: nat) {
    j < |m| && i < m[j] && i < m[|m| - 1 - j]
  }

  /** When the first and the last row are not empty, `process` stays within
      the grid exactly when the grid is square. */
  lemma InBoundsIffSquare(m: seq<nat>)
    requires m != [] ==> m[0] > 0 && m[|m| - 1] > 0
    ensures InBounds(m) <==> forall i :: 0 <= i < |m| ==> m[i] == |m|
  {
    var n := |m|;
    if InBounds(m) && n > 0 {
      assert ColumnReadable(m, n - 1, 0);
      assert ColumnReadable(m, 0, m[0] - 1);
      forall k | 0 <= k < n
        ensures m[k] == n
      {
        assert ColumnReadable(m, 0, k);
        assert ColumnReadable(m, n - 1, k);
        assert ColumnReadable(m, k, m[k] - 1);
      }
    }
  }

  function RowLengths(v: seq<seq<Tree>>): (m: seq<nat>)
    ensures |m| == |v| && forall i :: 0 <= i < |v| ==> m[i] == |v[i]|
  {
    seq(|v|, i requires 0 <= i < |v| => |v[i]|)
  }

  /** The trimmed input never gives an empty first or last row, so the bounds
      check of `process` is the squareness of the grid. */
  lemma RowsEnds(input: string)
    ensures Rows(input) != [] ==> Rows(input)[0] != [] && Rows(input)[|Rows(input)| - 1] != []
  {
    var t := Trim(input);
    if t != [] {
      TrimEnds(input);
      FirstLineNonEmpty(t);
      LastLineNonEmpty(t);
    }
  }

  /** The panic `process` ends in on a grid that is not square. */
  const IndexPanic := "index out of bounds"

  /** The heights of the grid the input describes. */
  function InputHeights(input: string): seq<seq<nat>>
    requires DigitRows(Rows(input))
  {
    HeightsOf(Planted(Rows(input)))
  }

  /** Parses the input and sweeps it with processors of `kind`; the source
      panics where this returns `IndexPanic`. */
  method Sweep(input: string, kind: Kind) returns (r: Answer<seq<seq<Tree>>>)
    ensures !DigitRows(Rows(input)) ==> r == Err("Incorrect input")
    ensures DigitRows(Rows(input)) && !IsSquare(InputHeights(input)) ==> r == Err(IndexPanic)
    ensures DigitRows(Rows(input)) && IsSquare(InputHeights(input)) ==>
      r.Ok? && GridOf(r.value, InputHeights(input))
      && forall a, b :: 0 <= a < |r.value| && 0 <= b < |r.value| ==>
           r.value[a][b] == Outcome(kind, InputHeights(input), Tree(false, InputHeights(input)[a][b], 1), a, b)
  {
    var parsed := Parse(input);
    if parsed.Err? {
      return Err(parsed.error);
    }
    var v := parsed.value;
    PlantedGrid(input);
    if !InBounds(RowLengths(v)) {
      return Err(IndexPanic);
    }
    var g := ToArray(v);
    ProcessGrid(kind, g);
    r := Ok(Cells(g));
  }

  /** The parsed grid passes the bounds check of `process` exactly when it is
      square, and then it is the grid of its heights, unmarked, with score 1. */
  lemma PlantedGrid(input: string)
    requires DigitRows(Rows(input))
    ensures var v := Planted(Rows(input)); var H := InputHeights(input);
      && (InBounds(RowLengths(v)) <==> IsSquare(H))
      && (IsSquare(H) ==> GridOf(v, H))
      && forall a, b :: 0 <= a < |v| && 0 <= b < |v[a]| ==> v[a][b] == Tree(false, H[a][b], 1)
  {
    var v := Planted(Rows(input));
    var m := RowLengths(v);
    RowsEnds(input);
    InBoundsIffSquare(m);
  }

  /** The parsed rows of a square grid, as a two-dimensional array. */
  method ToArray(v: seq<seq<Tree>>) returns (g: array2<Tree>)
    requires forall a :: 0 <= a < |v| ==> |v[a]| == |v|
    ensures fresh(g) && g.Length0 == g.Length1 == |v| && Cells(g) == v
  {
    var n := |v|;
    g := new Tree[n, n]((a, b) requires 0 <= a < n && 0 <= b < n => v[a][b]);
    assert forall a :: 0 <= a < n ==> Cells(g)[a] == v[a];
  }

  /** `flatten`: the rows one after the other. */
  function Flatten(v: seq<seq<Tree>>): seq<Tree> {
    if v == [] then [] else Flatten(v[..|v| - 1]) + v[|v| - 1]
  }

  /** Every tree of the grid is in the flattened sequence, and nothing else is. */
  lemma {:induction false} FlattenMembers(v: seq<seq<Tree>>)
    ensures forall a, b :: 0 <= a < |v| && 0 <= b < |v[a]| ==> v[a][b] in Flatten(v)
    ensures forall t :: t in Flatten(v) ==> exists a, b :: 0 <= a < |v| && 0 <= b < |v[a]| && v[a][b] == t
  {
    if v != [] {
      var k := |v| - 1;
      FlattenMembers(v[..k]);
      forall t | t in Flatten(v)
        ensures exists a, b :: 0 <= a < |v| && 0 <= b < |v[a]| && v[a][b] == t
      {
        if t in Flatten(v[..k]) {
          var a, b :| 0 <= a < k && 0 <= b < |v[..k][a]| && v[..k][a][b] == t;
          assert v[a][b] == t;
        } else {
          var b :| 0 <= b < |v[k]| && v[k][b] == t;
        }
      }
    }
  }

  /** `.map(|t| usize::from(t.visible)).sum()`. */
  function CountVisible(ts: seq<Tree>): (c: nat)
    ensures c <= |ts|
  {
    if ts == [] then 0 else CountVisible(ts[..|ts| - 1]) + (if ts[|ts| - 1].visible then 1 else 0)
  }

  lemma {:induction false} CountVisibleConcat(xs: seq<Tree>, ys: seq<Tree>)
    ensures CountVisible(xs + ys) == CountVisible(xs) + CountVisible(ys)
    decreases |ys|
  {
    if ys != [] {
      var k := |ys| - 1;
      assert (xs + ys)[..|xs| + k] == xs + ys[..k];
      CountVisibleConcat(xs, ys[..k]);
    } else {
      assert xs + ys == xs;
    }
  }

  /** The visible trees among the first `c` of row `a`. */
  ghost function MarkedInRow(v: seq<seq<Tree>>, a: nat, c: nat): set<(nat, nat)>
    requires a < |v| && c <= |v[a]|
  {
    set b: nat | b < c && v[a][b].visible :: (a, b)
  }

  /** The visible trees of the first `k` rows. */
  ghost function Marked(v: seq<seq<Tree>>, k: nat): set<(nat, nat)>
    requires k <= |v|
  {
    set a: nat, b: nat | a < k && b < |v[a]| && v[a][b].visible :: (a, b)
  }

  lemma {:induction false} CountRow(v: seq<seq<Tree>>, a: nat, c: nat)
    requires a < |v| && c <= |v[a]|
    ensures CountVisible(v[a][..c]) == |MarkedInRow(v, a, c)|
    decreases c
  {
    if c > 0 {
      CountRow(v, a, c - 1);
      assert v[a][..c][..c - 1] == v[a][..c - 1];
      if v[a][c - 1].visible {
        assert MarkedInRow(v, a, c) == MarkedInRow(v, a, c - 1) + {(a, c - 1)};
      } else {
        assert MarkedInRow(v, a, c) == MarkedInRow(v, a, c - 1);
      }
    } else {
      assert MarkedInRow(v, a, c) == {};
    }
  }

  /** Summing the visibility flags of the flattened grid counts its visible
      trees. */
  lemma {:induction false} CountGrid(v: seq<seq<Tree>>, k: nat)
    requires k <= |v|
    ensures CountVisible(Flatten(v[..k])) == |Marked(v, k)|
    decreases k
  {
    if k > 0 {
      CountGrid(v, k - 1);
      assert v[..k][..k - 1] == v[..k - 1];
      CountVisibleConcat(Flatten(v[..k - 1]), v[k - 1]);
      CountRow(v, k - 1, |v[k - 1]|);
      assert v[k - 1][..|v[k - 1]|] == v[k - 1];
      MarkedStep(v, k);
    } else {
      assert Marked(v, k) == {};
    }
  }

  /** The visible trees of `k` rows are those of the first `k - 1` rows and,
      apart from them, those of row `k - 1`. */
  lemma MarkedStep(v: seq<seq<Tree>>, k: nat)
    requires 0 < k <= |v|
    ensures Marked(v, k) == Marked(v, k - 1) + MarkedInRow(v, k - 1, |v[k - 1]|)
    ensures Marked(v, k - 1) !! MarkedInRow(v, k - 1, |v[k - 1]|)
  {
  }

  /** `.map(|t| t.score).max()`. */
  function MaxScore(ts: seq<Tree>): (m: Option<nat>)
    ensures m.None? <==> ts == []
    ensures m.Some? ==> exists k :: 0 <= k < |ts| && ts[k].score == m.value
    ensures m.Some? ==> forall k :: 0 <= k < |ts| ==> ts[k].score <= m.value
  {
    if ts == [] then None
    else
      var last := ts[|ts| - 1].score;
      match MaxScore(ts[..|ts| - 1])
      case None => Some(last)
      case Some(m) => Some(if last > m then last else m)
  }

  /** The trees visible from outside the grid, by position. */
  ghost function VisibleTrees(H: seq<seq<nat>>): set<(nat, nat)>
    requires IsSquare(H)
  {
    set a: nat, b: nat | a < |H| && b < |H| && VisibleFromOutside(H, a, b) :: (a, b)
  }

  /** `m` is the highest scenic score of the grid. */
  ghost predicate IsBestScore(H: seq<seq<nat>>, m: nat)
    requires IsSquare(H)
  {
    IsHighest(ScoreGrid(H), m)
  }

  /** The scenic score of every tree, row by row. */
  function ScoreGrid(H: seq<seq<nat>>): (sc: seq<seq<nat>>)
    requires IsSquare(H)
    ensures |sc| == |H| && forall a :: 0 <= a < |H| ==> |sc[a]| == |H|
    ensures forall a, b :: 0 <= a < |H| && 0 <= b < |H| ==> sc[a][b] == ScenicScore(H, a, b)
  {
    seq(|H|, a requires 0 <= a < |H| => seq(|H|, b requires 0 <= b < |H| => ScenicScore(H, a, b)))
  }

  /** `m` occurs in the square grid `sc` and nothing in it is higher. */
  predicate IsHighest(sc: seq<seq<nat>>, m: nat)
    requires forall a :: 0 <= a < |sc| ==> |sc[a]| == |sc|
  {
    && (exists a, b :: 0 <= a < |sc| && 0 <= b < |sc| && sc[a][b] == m)
    && (forall a, b :: 0 <= a < |sc| && 0 <= b < |sc| ==> sc[a][b] <= m)
  }

  /** `part1`: the number of trees visible from outside the grid. */
  method Part1(input: string) returns (r: Answer<nat>)
    ensures !DigitRows(Rows(input)) ==> r == Err("Incorrect input")
    ensures DigitRows(Rows(input)) && !IsSquare(InputHeights(input)) ==> r == Err(IndexPanic)
    ensures DigitRows(Rows(input)) && IsSquare(InputHeights(input)) ==>
      r == Ok(|VisibleTrees(InputHeights(input))|)
  {
    var swept := Sweep(input, Visibility);
    if swept.Err? {
      return Err(swept.error);
    }
    var v := swept.value;
    r := Ok(CountVisible(Flatten(v)));
    VisibleOfGrid(v, InputHeights(input));
  }

  /** Summing the visibility flags of the swept grid counts the trees visible
      from outside. */
  lemma VisibleOfGrid(v: seq<seq<Tree>>, H: seq<seq<nat>>)
    requires IsSquare(H) && |v| == |H| && forall a :: 0 <= a < |v| ==> |v[a]| == |H|
    requires forall a, b :: 0 <= a < |H| && 0 <= b < |H| ==> v[a][b].visible == VisibleFromOutside(H, a, b)
    ensures CountVisible(Flatten(v)) == |VisibleTrees(H)|
  {
    CountGrid(v, |v|);
    assert v[..|v|] == v;
    assert Marked(v, |v|) == VisibleTrees(H);
  }

  /** `part2`: the highest scenic score; an empty grid has none. */
  method Part2(input: string) returns (r: Answer<nat>)
    ensures !DigitRows(Rows(input)) ==> r == Err("Incorrect input")
    ensures DigitRows(Rows(input)) && !IsSquare(InputHeights(input)) ==> r == Err(IndexPanic)
    ensures DigitRows(Rows(input)) && IsSquare(InputHeights(input)) && |InputHeights(input)| == 0 ==>
      r == Err("No max??")
    ensures DigitRows(Rows(input)) && IsSquare(InputHeights(input)) && |InputHeights(input)| > 0 ==>
      r.Ok? && IsBestScore(InputHeights(input), r.value)
  {
    var swept := Sweep(input, Scenic);
    if swept.Err? {
      return Err(swept.error);
    }
    var v := swept.value;
    ghost var H := InputHeights(input);
    var best := MaxScore(Flatten(v));
    BestOfGrid(v, H);
    if best.None? {
      return Err("No max??");
    }
    r := Ok(best.value);
  }

  /** The maximum over the flattened grid is the highest score of the grid,
      and there is one exactly when the grid is not empty. */
  lemma BestOfGrid(v: seq<seq<Tree>>, H: seq<seq<nat>>)
    requires IsSquare(H) && |v| == |H| && forall a :: 0 <= a < |v| ==> |v[a]| == |H|
    requires forall a, b :: 0 <= a < |H| && 0 <= b < |H| ==> v[a][b].score == ScenicScore(H, a, b)
    ensures MaxScore(Flatten(v)).None? <==> |H| == 0
    ensures MaxScore(Flatten(v)).Some? ==> IsBestScore(H, MaxScore(Flatten(v)).value)
  {
    var sc := ScoreGrid(H);
    forall a, b | 0 <= a < |H| && 0 <= b < |H|
      ensures v[a][b].score == sc[a][b]
    {
    }
    MaxOfGrid(v, sc);
  }

  /** The maximum over the flattened grid is the highest entry of any grid
      that holds the same scores. */
  lemma MaxOfGrid(v: seq<seq<Tree>>, sc: seq<seq<nat>>)
    requires |v| == |sc| && forall a :: 0 <= a < |v| ==> |v[a]| == |sc[a]| == |v|
    requires forall a, b :: 0 <= a < |v| && 0 <= b < |v| ==> v[a][b].score == sc[a][b]
    ensures MaxScore(Flatten(v)).None? <==> |v| == 0
    ensures MaxScore(Flatten(v)).Some? ==> IsHighest(sc, MaxScore(Flatten(v)).value)
  {
    FlattenMembers(v);
    var f := Flatten(v);
    if |v| > 0 {
      assert v[0][0] in f;
    }
    if f != [] {
      var m := MaxScore(f).value;
      var k :| 0 <= k < |f| && f[k].score == m;
      assert f[k] in f;
      var a, b :| 0 <= a < |v| && 0 <= b < |v[a]| && v[a][b] == f[k];
      assert sc[a][b] == m;
      forall a', b' | 0 <= a' < |v| && 0 <= b' < |v|
        ensures sc[a'][b'] <= m
      {
        assert v[a'][b'] in f;
      }
    }
  }
}
