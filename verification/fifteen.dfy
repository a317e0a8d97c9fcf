/**
 * The game-of-fifteen engine: a 4x4 board `state[x][y]` holding the tiles
 * 0..15, where 0 is the empty square. The board is an immutable value and
 * `Hit` returns the next board (or the error the engine raises).
 */
module Fifteen {
  import opened Wrappers
  import opened PyText

  /** The side length of the board. */
  const Side: int := 4

  type Grid = seq<seq<int>>

  /** A square of the board, first index then second index: `state[x][y]`. */
  datatype Pos = Pos(x: int, y: int)

  /** The engine's only error: a hit outside the board. */
  datatype HitError = InvalidCoordinate(x: int, y: int)

  predicate InBounds(p: Pos) {
    0 <= p.x <= 3 && 0 <= p.y <= 3
  }

  /** A board has four columns of four squares each. */
  predicate WellShaped(g: Grid) {
    |g| == Side && forall x :: 0 <= x < |g| ==> |g[x]| == Side
  }

  function At(g: Grid, p: Pos): int
    requires WellShaped(g) && InBounds(p)
  {
    g[p.x][p.y]
  }

  // ---------------------------------------------------------------------
  // Neighbours
  // ---------------------------------------------------------------------

  /** The four candidate neighbours of (x, y) in the engine's fixed order. */
  function Candidates(x: int, y: int): seq<Pos> {
    [Pos(x - 1, y), Pos(x + 1, y), Pos(x, y - 1), Pos(x, y + 1)]
  }

  /** Where `p` stands in the candidate order of (x, y); 4 when it is no candidate. */
  function Rank(p: Pos, x: int, y: int): nat {
    if p == Pos(x - 1, y) then 0
    else if p == Pos(x + 1, y) then 1
    else if p == Pos(x, y - 1) then 2
    else if p == Pos(x, y + 1) then 3
    else 4
  }

  function KeepInBounds(p: Pos): seq<Pos> {
    if InBounds(p) then [p] else []
  }

  /**
   * The in-bounds orthogonal neighbours of (x, y): the candidates that lie
   * on the board, in candidate order.
   */
  function Neighbors(x: int, y: int): (r: seq<Pos>)
    ensures forall p :: p in r <==> p in Candidates(x, y) && InBounds(p)
    ensures forall i, j :: 0 <= i < j < |r| ==> Rank(r[i], x, y) < Rank(r[j], x, y)
  {
    var c := Candidates(x, y);
    var r := KeepInBounds(c[0]) + KeepInBounds(c[1]) + KeepInBounds(c[2]) + KeepInBounds(c[3]);
    assert forall k :: 0 <= k < 4 ==> Rank(c[k], x, y) == k;
    r
  }

  /** A neighbour is exactly an on-board square at Manhattan distance one. */
  lemma NeighborsAreAdjacentSquares(x: int, y: int, p: Pos)
    ensures p in Neighbors(x, y) <==> InBounds(p) && Distance(p, Pos(x, y)) == 1
  {
    CandidatesAtDistanceOne(x, y, p);
  }

  lemma CandidatesAtDistanceOne(x: int, y: int, p: Pos)
    ensures p in Candidates(x, y) <==> Distance(p, Pos(x, y)) == 1
  {
    if Distance(p, Pos(x, y)) == 1 {
      if p.x == x {
        assert p == Pos(x, y - 1) || p == Pos(x, y + 1);
      } else {
        assert p == Pos(x - 1, y) || p == Pos(x + 1, y);
      }
    }
  }

  function Distance(p: Pos, q: Pos): nat {
    Abs(p.x - q.x) + Abs(p.y - q.y)
  }

  /**
   * A corner has two neighbours: first the one along x, then the one along
   * y. This covers the four corner cases of the engine's test.
   */
  lemma NeighborsOfCorner(x: int, y: int)
    requires (x == 0 || x == 3) && (y == 0 || y == 3)
    ensures Neighbors(x, y) == [Pos(if x == 0 then 1 else 2, y), Pos(x, if y == 0 then 1 else 2)]
  {
    var c := Candidates(x, y);
    assert KeepInBounds(c[0]) + KeepInBounds(c[1]) == [Pos(if x == 0 then 1 else 2, y)];
    assert KeepInBounds(c[2]) + KeepInBounds(c[3]) == [Pos(x, if y == 0 then 1 else 2)];
  }

  /** An inner square has all four candidates as neighbours, as the test expects for (2, 2). */
  lemma NeighborsOfInnerSquare(x: int, y: int)
    requires 1 <= x <= 2 && 1 <= y <= 2
    ensures Neighbors(x, y) == Candidates(x, y)
  {
  }

  // ---------------------------------------------------------------------
  // Construction and the permutation invariant
  // ---------------------------------------------------------------------

  /** The board read in the order the constructor fills it: x-major, then y. */
  function Flatten(g: Grid): (s: seq<int>)
    requires WellShaped(g)
    ensures |s| == Side * Side
  {
    seq(Side * Side, i requires 0 <= i < Side * Side => g[i / Side][i % Side])
  }

  /**
   * The constructor, with the shuffled list passed in instead of drawn at
   * random: `state[x][y] = numbers[x * 4 + y]`.
   */
  function FromNumbers(numbers: seq<int>): (g: Grid)
    requires |numbers| == Side * Side
    ensures WellShaped(g)
    ensures forall x, y :: 0 <= x < Side && 0 <= y < Side ==> g[x][y] == numbers[x * Side + y]
  {
    seq(Side, x requires 0 <= x < Side => seq(Side, y requires 0 <= y < Side => numbers[x * Side + y]))
  }

  /** Reading the constructed board back gives the numbers it was built from. */
  lemma FlattenFromNumbers(numbers: seq<int>)
    requires |numbers| == Side * Side
    ensures Flatten(FromNumbers(numbers)) == numbers
  {
    var g := FromNumbers(numbers);
    forall i | 0 <= i < Side * Side
      ensures Flatten(g)[i] == numbers[i]
    {
      assert (i / Side) * Side + i % Side == i;
    }
  }

  /** Building from a board's reading gives the board back. */
  lemma FromNumbersFlatten(g: Grid)
    requires WellShaped(g)
    ensures FromNumbers(Flatten(g)) == g
  {
    var h := FromNumbers(Flatten(g));
    forall x | 0 <= x < Side
      ensures h[x] == g[x]
    {
      forall y | 0 <= y < Side
        ensures h[x][y] == g[x][y]
      {
        assert (x * Side + y) / Side == x;
        assert (x * Side + y) % Side == y;
      }
    }
  }

  /** The list 0, 1, ..., n - 1, as `range(n)` produces it. */
  function Range(n: nat): (s: seq<int>)
    ensures |s| == n
  {
    if n == 0 then [] else Range(n - 1) + [n - 1]
  }

  /** Every number below `n` occurs in `range(n)` exactly once, and nothing else does. */
  lemma {:induction false} RangeCounts(n: nat, v: int)
    ensures multiset(Range(n))[v] == if 0 <= v < n then 1 else 0
  {
    if n > 0 {
      RangeCounts(n - 1, v);
      assert multiset(Range(n)) == multiset(Range(n - 1)) + multiset{n - 1};
      assert multiset{n - 1}[v] == if v == n - 1 then 1 else 0;
    }
  }

  /** The sixteen tiles of a fresh game. */
  function Tiles(): seq<int> {
    Range(Side * Side)
  }

  /** The board invariant: the squares hold a permutation of 0..15. */
  predicate Valid(g: Grid) {
    WellShaped(g) && multiset(Flatten(g)) == multiset(Tiles())
  }

  /** A board built from a list is valid exactly when the list is a permutation of 0..15. */
  lemma FromNumbersValid(numbers: seq<int>)
    requires |numbers| == Side * Side
    ensures Valid(FromNumbers(numbers)) <==> multiset(numbers) == multiset(Tiles())
  {
    FlattenFromNumbers(numbers);
  }

  /** On a valid board every tile, the empty square included, occurs exactly once. */
  lemma ValidTilesOnce(g: Grid, v: int)
    requires Valid(g)
    ensures multiset(Flatten(g))[v] == if 0 <= v < Side * Side then 1 else 0
  {
    RangeCounts(Side * Side, v);
  }

  // ---------------------------------------------------------------------
  // Hit
  // ---------------------------------------------------------------------

  /** The board with square `p` set to `v`. */
  function Set(g: Grid, p: Pos, v: int): (h: Grid)
    requires WellShaped(g) && InBounds(p)
    ensures WellShaped(h)
    ensures At(h, p) == v
    ensures forall q :: InBounds(q) && q != p ==> At(h, q) == At(g, q)
  {
    g[p.x := g[p.x][p.y := v]]
  }

  /** `h` is `g` with the tile at `src` slid into `dst`, which becomes the source's value; `src` becomes empty. */
  ghost predicate SlidInto(g: Grid, h: Grid, src: Pos, dst: Pos)
    requires WellShaped(g) && WellShaped(h) && InBounds(src) && InBounds(dst)
  {
    && At(h, dst) == At(g, src)
    && At(h, src) == 0
    && forall q :: InBounds(q) && q != src && q != dst ==> At(h, q) == At(g, q)
  }

  /** `i` indexes the first neighbour in `ns` that holds the empty square. */
  predicate IsFirstEmpty(g: Grid, ns: seq<Pos>, i: int)
    requires WellShaped(g) && forall n :: n in ns ==> InBounds(n)
  {
    && 0 <= i < |ns|
    && At(g, ns[i]) == 0
    && forall j :: 0 <= j < i ==> At(g, ns[j]) != 0
  }

  /** The index of the first neighbour in `ns` holding 0, or |ns| when none does. */
  function FirstEmpty(g: Grid, ns: seq<Pos>): (i: nat)
    requires WellShaped(g) && forall n :: n in ns ==> InBounds(n)
    ensures i <= |ns|
    ensures i < |ns| ==> IsFirstEmpty(g, ns, i)
    ensures i == |ns| ==> forall n :: n in ns ==> At(g, n) != 0
  {
    if |ns| == 0 then 0
    else if At(g, ns[0]) == 0 then 0
    else 1 + FirstEmpty(g, ns[1..])
  }

  /**
   * One click on square (x, y): an error off the board; otherwise the tile
   * slides into the first empty neighbour, or nothing changes.
   */
  function Hit(g: Grid, x: int, y: int): (r: Result<Grid, HitError>)
    requires WellShaped(g)
    ensures r.Err? <==> !InBounds(Pos(x, y))
    ensures r.Err? ==> r.error == InvalidCoordinate(x, y)
    ensures r.Ok? ==> WellShaped(r.value)
    ensures r.Ok? && At(g, Pos(x, y)) == 0 ==> r.value == g
    ensures r.Ok? && (forall n :: n in Neighbors(x, y) ==> At(g, n) != 0) ==> r.value == g
    ensures r.Ok? && At(g, Pos(x, y)) != 0 ==>
              forall i :: IsFirstEmpty(g, Neighbors(x, y), i) ==>
                SlidInto(g, r.value, Pos(x, y), Neighbors(x, y)[i])
  {
    var src := Pos(x, y);
    if !InBounds(src) then Err(InvalidCoordinate(x, y))
    else if At(g, src) == 0 then Ok(g)
    else
      var ns := Neighbors(x, y);
      var i := FirstEmpty(g, ns);
      if i == |ns| then Ok(g)
      else Ok(Set(Set(g, ns[i], At(g, src)), src, 0))
  }

  /**
   * The engine's loop as written: walk the neighbours in order and slide
   * into the first empty one, then stop.
   */
  method HitLoop(g: Grid, x: int, y: int) returns (r: Result<Grid, HitError>)
    requires WellShaped(g)
    ensures r == Hit(g, x, y)
  {
    if x < 0 || x > 3 || y < 0 || y > 3 {
      return Err(InvalidCoordinate(x, y));
    }
    var src := Pos(x, y);
    if At(g, src) == 0 {
      return Ok(g);
    }
    var ns := Neighbors(x, y);
    var state := g;
    var k := 0;
    while k < |ns|
      invariant 0 <= k <= |ns|
      invariant forall j :: 0 <= j < k ==> At(g, ns[j]) != 0
      invariant state == g
    {
      var n := ns[k];
      if At(state, n) == 0 {
        FirstEmptyIs(g, ns, k);
        state := Set(state, n, At(state, src));
        state := Set(state, src, 0);
        return Ok(state);
      }
      k := k + 1;
    }
    FirstEmptyIs(g, ns, |ns|);
    return Ok(state);
  }

  /** `FirstEmpty` returns any index that all earlier neighbours are non-empty before and that is empty or the end. */
  lemma {:induction false} FirstEmptyIs(g: Grid, ns: seq<Pos>, k: nat)
    requires WellShaped(g) && forall n :: n in ns ==> InBounds(n)
    requires k <= |ns|
    requires forall j :: 0 <= j < k ==> At(g, ns[j]) != 0
    requires k < |ns| ==> At(g, ns[k]) == 0
    ensures FirstEmpty(g, ns) == k
  {
    if k > 0 {
      assert forall n :: n in ns[1..] ==> n in ns;
      assert forall j :: 0 <= j < k - 1 ==> ns[1..][j] == ns[j + 1];
      FirstEmptyIs(g, ns[1..], k - 1);
    }
  }

  /** A hit changes at most two squares: the source and one empty neighbour. */
  lemma HitAtMostOneSwap(g: Grid, x: int, y: int)
    requires WellShaped(g) && InBounds(Pos(x, y))
    ensures exists d :: InBounds(d) &&
              forall q :: InBounds(q) && q != Pos(x, y) && q != d ==> At(Hit(g, x, y).value, q) == At(g, q)
  {
    var src := Pos(x, y);
    var ns := Neighbors(x, y);
    var i := FirstEmpty(g, ns);
    var h := Hit(g, x, y).value;
    if At(g, src) != 0 && i < |ns| {
      assert h == Set(Set(g, ns[i], At(g, src)), src, 0);
      assert InBounds(ns[i]);
      assert forall q :: InBounds(q) && q != src && q != ns[i] ==> At(h, q) == At(g, q);
    }
  }

  // ---------------------------------------------------------------------
  // Invariant preservation
  // ---------------------------------------------------------------------

  /** Setting a square updates the board's reading at that square's index. */
  lemma FlattenSet(g: Grid, p: Pos, v: int)
    requires WellShaped(g) && InBounds(p)
    ensures Flatten(Set(g, p, v)) == Flatten(g)[Offset(p) := v]
  {
    var k := Offset(p);
    forall i | 0 <= i < Side * Side
      ensures Flatten(Set(g, p, v))[i] == Flatten(g)[k := v][i]
    {
      OffsetOf(i);
    }
  }

  /** Where square `p` stands in the board's x-major reading. */
  function Offset(p: Pos): (k: nat)
    requires InBounds(p)
    ensures k < Side * Side && k / Side == p.x && k % Side == p.y
  {
    p.x * Side + p.y
  }

  /** Every index of the reading is the offset of exactly one square. */
  lemma OffsetOf(i: int)
    requires 0 <= i < Side * Side
    ensures InBounds(Pos(i / Side, i % Side)) && Offset(Pos(i / Side, i % Side)) == i
    ensures forall p :: InBounds(p) && Offset(p) == i ==> p == Pos(i / Side, i % Side)
  {
  }

  /** Exchanging two entries of a list keeps its multiset of values. */
  lemma SwapKeepsMultiset(s: seq<int>, a: nat, b: nat)
    requires a < |s| && b < |s|
    ensures multiset(s[a := s[b]][b := s[a]]) == multiset(s)
  {
    var s1 := s[a := s[b]];
    assert multiset(s1) == multiset(s) - multiset{s[a]} + multiset{s[b]};
    var s2 := s1[b := s[a]];
    assert multiset(s2) == multiset(s1) - multiset{s1[b]} + multiset{s[a]};
  }

  /** Sliding the tile at `src` into the empty square `dst` permutes the board's values. */
  lemma SlideKeepsMultiset(g: Grid, src: Pos, dst: Pos)
    requires WellShaped(g) && InBounds(src) && InBounds(dst)
    requires At(g, dst) == 0
    ensures multiset(Flatten(Set(Set(g, dst, At(g, src)), src, 0))) == multiset(Flatten(g))
  {
    var v := At(g, src);
    var h1 := Set(g, dst, v);
    var s := Flatten(g);
    var a := Offset(dst);
    var b := Offset(src);
    FlattenSet(g, dst, v);
    FlattenSet(h1, src, 0);
    assert s[a] == 0 && s[b] == v;
    SwapKeepsMultiset(s, a, b);
  }

  /** A hit on a valid board yields a valid board: the tiles are only permuted. */
  lemma HitPreservesValid(g: Grid, x: int, y: int)
    requires WellShaped(g)
    ensures Valid(g) && Hit(g, x, y).Ok? ==> Valid(Hit(g, x, y).value)
  {
    var src := Pos(x, y);
    if Valid(g) && InBounds(src) && At(g, src) != 0 {
      var ns := Neighbors(x, y);
      var i := FirstEmpty(g, ns);
      if i < |ns| {
        assert Hit(g, x, y).value == Set(Set(g, ns[i], At(g, src)), src, 0);
        SlideKeepsMultiset(g, src, ns[i]);
      }
    }
  }

  /** The board after a sequence of in-bounds clicks. */
  function Play(g: Grid, clicks: seq<Pos>): (h: Grid)
    requires WellShaped(g)
    requires forall c :: c in clicks ==> InBounds(c)
    ensures WellShaped(h)
    decreases |clicks|
  {
    if |clicks| == 0 then g
    else Play(Hit(g, clicks[0].x, clicks[0].y).value, clicks[1..])
  }

  /** Any sequence of clicks keeps a valid board valid. */
  lemma {:induction false} PlayKeepsValid(g: Grid, clicks: seq<Pos>)
    requires Valid(g)
    requires forall c :: c in clicks ==> InBounds(c)
    ensures Valid(Play(g, clicks))
    decreases |clicks|
  {
    if |clicks| > 0 {
      HitPreservesValid(g, clicks[0].x, clicks[0].y);
      PlayKeepsValid(Hit(g, clicks[0].x, clicks[0].y).value, clicks[1..]);
    }
  }

  // ---------------------------------------------------------------------
  // The scenario of the engine's test
  // ---------------------------------------------------------------------

  /** The solved layout with the empty square swapped into (2, 2). */
  const Scenario: Grid := [[1, 2, 3, 4], [5, 6, 7, 8], [9, 10, 0, 12], [13, 14, 15, 11]]

  lemma HitScenarioOffBoard()
    ensures Hit(Scenario, -1, 2).Err? && Hit(Scenario, 2, -1).Err?
    ensures Hit(Scenario, 5, 2).Err? && Hit(Scenario, 2, 5).Err?
  {
  }

  lemma HitScenarioNoMove()
    ensures Hit(Scenario, 0, 0) == Ok(Scenario)
    ensures Hit(Scenario, 2, 2) == Ok(Scenario)
  {
    assert Neighbors(0, 0) == [Pos(1, 0), Pos(0, 1)];
  }

  lemma HitScenarioSlide()
    ensures Hit(Scenario, 1, 2).Ok?
    ensures Hit(Scenario, 1, 2).value[1][2] == 0 && Hit(Scenario, 1, 2).value[2][2] == Scenario[1][2]
    ensures Hit(Scenario, 1, 2).value != Scenario
  {
    assert Neighbors(1, 2) == [Pos(0, 2), Pos(2, 2), Pos(1, 1), Pos(1, 3)];
    assert FirstEmpty(Scenario, Neighbors(1, 2)) == 1;
  }
}
