/** The pre-generator: a walk over the sections of a square spiral around a
    centre, requesting a LOD for each section it passes. */
module PreGenerator {
  import opened Wrappers
  import opened JavaInt

  /** A section position, in section coordinates. */
  datatype Section = Section(x: int, z: int)

  /** `(int) Math.pow((double) blockToChunk(radius) / 2, 2)`: the square of
      half the radius in chunks, truncated and saturated to an int. The
      double arithmetic is exact below the saturation point. */
  function TotalSteps(radiusInChunks: int32): (n: int32)
    ensures n >= 0
  {
    Saturate32(radiusInChunks * radiusInChunks / 4)
  }

  /** The target is the number of cells of a (c/2)-by-(c/2) square for an
      even radius c in chunks, and h * (h + 1) for an odd one, 2h + 1. */
  lemma TotalStepsIsHalfSquared(radiusInChunks: int32)
    requires 0 <= radiusInChunks <= 92681
    ensures radiusInChunks % 2 == 0 ==> TotalSteps(radiusInChunks) == (radiusInChunks / 2) * (radiusInChunks / 2)
    ensures radiusInChunks % 2 == 1 ==> TotalSteps(radiusInChunks) == (radiusInChunks / 2) * (radiusInChunks / 2 + 1)
  {
    var c: int := radiusInChunks;
    var h := c / 2;
    var q := if c % 2 == 0 then h * h else h * (h + 1);
    SquareOfHalves(c, h);
    assert c * c / 4 == q;
    HalfSquaredFits(h);
    assert q <= h * (h + 1) <= INT_MAX;
  }

  /** `c * c` is four times the half-squared count, plus one for odd `c`. */
  lemma SquareOfHalves(c: nat, h: nat)
    requires h == c / 2
    ensures c % 2 == 0 ==> c * c == 4 * (h * h)
    ensures c % 2 == 1 ==> c * c == 4 * (h * (h + 1)) + 1
  {
    if c % 2 == 0 {
      assert c == 2 * h;
    } else {
      assert c == 2 * h + 1;
    }
  }

  /** Below the saturation point: h * (h + 1) fits in an int. */
  lemma HalfSquaredFits(h: nat)
    requires h <= 46340
    ensures h * h <= h * (h + 1) <= INT_MAX
  {
    var d: nat := 46340 - h;
    var e: nat := h + 1;
    assert h * e == h * h + h;
    assert 46340 * e == h * e + d * e;
    assert d * e >= 0;
  }

  /** What the constructor records: the centre converted from blocks to
      sections, and the target number of steps. */
  datatype Plan = Plan(center: Section, force: bool, totalSteps: int32)

  function NewPlan(centerX: int32, centerZ: int32, radius: int32, force: bool,
                   blockToSection: int32 -> int32, blockToChunk: int32 -> int32): (p: Plan)
    ensures p.center == Section(blockToSection(centerX), blockToSection(centerZ))
    ensures p.totalSteps == TotalSteps(blockToChunk(radius))
  {
    Plan(Section(blockToSection(centerX), blockToSection(centerZ)), force, TotalSteps(blockToChunk(radius)))
  }

  // ---------------------------------------------------------------
  // The spiral
  // ---------------------------------------------------------------

  /** `directions[dirIndex]`: north, east, south, west in turn. */
  function Direction(dirIndex: nat): Section
    requires dirIndex < 4
  {
    if dirIndex == 0 then Section(0, 1)
    else if dirIndex == 1 then Section(1, 0)
    else if dirIndex == 2 then Section(0, -1)
    else Section(-1, 0)
  }

  function Add(a: Section, b: Section): Section
  {
    Section(a.x + b.x, a.z + b.z)
  }

  /** The corner where pass `m` of the outer loop begins, relative to the
      centre: (0,0), (1,1), (-1,-1), (2,2), (-2,-2), ... */
  function Corner(m: nat): int
  {
    if m % 2 == 0 then -(m / 2) else (m + 1) / 2
  }

  /** The offset from the centre after `t` steps along side `turn` (0 or 1)
      of outer pass `m`, whose two sides have `m + 1` steps each. */
  function SidePoint(m: nat, turn: nat, t: nat): Section
    requires turn < 2
  {
    var s := Corner(m);
    if m % 2 == 0 then
      if turn == 0 then Section(s, s + t) else Section(s + t, s + m + 1)
    else
      if turn == 0 then Section(s, s - t) else Section(s - t, s - (m + 1))
  }

  /** The number of steps taken before side `turn` of pass `m` begins. */
  function SideBase(m: nat, turn: nat): nat
  {
    Pronic(m) + (if turn == 0 then 0 else m + 1)
  }

  /** The steps taken before ring `a` of the spiral, two passes wide. */
  function RingBase(a: nat): nat
  {
    Pronic(2 * a)
  }

  /** The reference numbering of the plane: the spiral's n-th cell has
      number n, the centre 0. Ring `a` is a left edge x = -a, a top edge
      z = a + 1, a right edge x = a + 1 and a bottom edge z = -a - 1. */
  function Index(p: Section): nat
  {
    if p.x <= 0 && p.x + 1 <= p.z <= -p.x + 1 then
      var a := -p.x;
      RingBase(a) + p.z + a
    else if p.z >= 1 && -p.z + 2 <= p.x <= p.z then
      var a := p.z - 1;
      RingBase(a) + (2 * a + 1) + p.x + a
    else if p.x >= 1 && -p.x <= p.z <= p.x - 1 then
      var a := p.x - 1;
      RingBase(a) + 2 * (2 * a + 1) + (a + 1 - p.z)
    else if p.z <= -1 && p.z <= p.x <= -p.z - 1 then
      var a := -p.z - 1;
      RingBase(a) + 2 * (2 * a + 1) + (2 * a + 2) + (a + 1 - p.x)
    else 0
  }

  /** Every cell of a side carries the number of steps taken to reach it. */
  lemma IndexOfSidePoint(m: nat, turn: nat, t: nat)
    requires turn < 2 && 1 <= t <= m + 1
    ensures Index(SidePoint(m, turn, t)) == SideBase(m, turn) + t
  {
    var a := m / 2;
    if m % 2 == 0 {
      assert m == 2 * a;
      assert SideBase(m, 0) == RingBase(a);
      if turn == 1 {
        assert SideBase(m, 1) == RingBase(a) + (2 * a + 1);
      }
    } else {
      assert m == 2 * a + 1;
      assert SideBase(m, 0) == RingBase(a) + 2 * (2 * a + 1);
      if turn == 1 {
        assert SideBase(m, 1) == RingBase(a) + 2 * (2 * a + 1) + (2 * a + 2);
      }
    }
  }

  lemma SideBaseNext(m: nat)
    ensures SideBase(m, 0) + (m + 1) == SideBase(m, 1)
    ensures SideBase(m, 1) + (m + 1) == SideBase(m + 1, 0)
    ensures SideBase(m, 0) == Pronic(m) && SideBase(m + 1, 0) == Pronic(m + 1)
  {
  }

  /** A step along a side moves one cell in the side's direction, and the
      next side starts where the last one ended. */
  lemma SidePointSteps(m: nat, turn: nat, t: nat)
    requires turn < 2
    ensures SidePoint(m, turn, t + 1) == Add(SidePoint(m, turn, t), Direction((2 * m + turn) % 4))
    ensures SidePoint(m, 1, 0) == SidePoint(m, 0, m + 1)
    ensures SidePoint(m + 1, 0, 0) == SidePoint(m, 1, m + 1)
  {
    PassParity(m);
  }

  /** The direction indices and corners of consecutive passes: an even
      pass goes north then east, an odd one south then west, and the next
      pass starts at the mirrored corner. */
  lemma PassParity(m: nat)
    ensures m % 2 == 0 ==> (2 * m) % 4 == 0 && (2 * m + 1) % 4 == 1 && (m + 1) % 2 == 1 && Corner(m + 1) == 1 - Corner(m)
    ensures m % 2 == 1 ==> (2 * m) % 4 == 2 && (2 * m + 1) % 4 == 3 && (m + 1) % 2 == 0 && Corner(m + 1) == -Corner(m)
  {
    var a := m / 2;
    if m % 2 == 0 {
      assert m == 2 * a && 2 * m == 4 * a && m + 1 == 2 * a + 1;
    } else {
      assert m == 2 * a + 1 && 2 * m == 4 * a + 2 && m + 1 == 2 * (a + 1);
    }
  }

  /** Taking the side's direction from its t-th cell reaches its next
      cell, a neighbour. */
  lemma MoveAlong(center: Section, m: nat, turn: nat, t: nat)
    requires turn < 2
    ensures Add(Add(center, SidePoint(m, turn, t)), Direction((2 * m + turn) % 4)) == Add(center, SidePoint(m, turn, t + 1))
    ensures Rel(center, Add(center, SidePoint(m, turn, t + 1))) == SidePoint(m, turn, t + 1)
    ensures Adjacent(Add(center, SidePoint(m, turn, t)), Add(center, SidePoint(m, turn, t + 1)))
  {
    SidePointSteps(m, turn, t);
    StepIsAdjacent(Add(center, SidePoint(m, turn, t)), (2 * m + turn) % 4);
  }

  predicate Adjacent(a: Section, b: Section)
  {
    (a.x == b.x && (a.z == b.z + 1 || a.z + 1 == b.z)) || (a.z == b.z && (a.x == b.x + 1 || a.x + 1 == b.x))
  }

  lemma StepIsAdjacent(p: Section, dirIndex: nat)
    requires dirIndex < 4
    ensures Adjacent(p, Add(p, Direction(dirIndex)))
  {
  }

  /** The steps of `k` full passes: 2 + 4 + ... + 2k. */
  function Pronic(k: nat): nat
  {
    if k == 0 then 0 else Pronic(k - 1) + 2 * k
  }

  /** ... which is the pronic number k * (k + 1). */
  lemma {:induction false} PronicClosedForm(k: nat)
    ensures Pronic(k) == k * (k + 1)
  {
    if k > 0 {
      PronicClosedForm(k - 1);
    }
  }

  lemma {:induction false} PronicGrows(j: nat, k: nat)
    requires j <= k
    ensures Pronic(j) <= Pronic(k)
    decreases k - j
  {
    if j < k {
      PronicGrows(j, k - 1);
    }
  }

  /** A number strictly between two consecutive pronic numbers is none. */
  lemma PronicBetween(m: nat, n: int)
    requires Pronic(m) < n < Pronic(m + 1)
    ensures forall k: nat :: Pronic(k) != n
  {
    forall k: nat
      ensures Pronic(k) != n
    {
      if k <= m {
        PronicGrows(k, m);
      } else {
        PronicGrows(m + 1, k);
      }
    }
  }

  // ---------------------------------------------------------------
  // The walk
  // ---------------------------------------------------------------

  /** A LOD request of the walk. */
  datatype Request = Request(x: int, z: int, detailLevel: nat)

  /** A position relative to the centre. */
  function Rel(center: Section, p: Section): Section
  {
    Section(p.x - center.x, p.z - center.z)
  }

  /** What a walk that took the positions `visited` has done: the i-th
      position is the spiral's cell i + 1, the first is north of the
      centre, each is next to the one before, and a detail-6 request was
      made for exactly those positions that were forced or had no LOD. */
  ghost predicate Walked(plan: Plan, lodExists: Section -> bool, visited: seq<Section>, requests: seq<Request>)
  {
    InSpiralOrder(plan.center, visited, |visited|) &&
    (|visited| > 0 ==> visited[0] == Section(plan.center.x, plan.center.z + 1)) &&
    (forall i | 0 <= i < |visited| - 1 :: Adjacent(visited[i], visited[i + 1])) &&
    requests == Requested(plan, lodExists, visited, |visited|)
  }

  /** The first `n` positions are the spiral's cells 1 to n, in order. */
  ghost predicate InSpiralOrder(center: Section, visited: seq<Section>, n: nat)
    requires n <= |visited|
  {
    n == 0 || (InSpiralOrder(center, visited, n - 1) && Index(Rel(center, visited[n - 1])) == n)
  }

  lemma {:induction false} SpiralOrderIndex(center: Section, visited: seq<Section>, n: nat, i: nat)
    requires n <= |visited| && InSpiralOrder(center, visited, n) && i < n
    ensures Index(Rel(center, visited[i])) == i + 1
  {
    if i < n - 1 {
      SpiralOrderIndex(center, visited, n - 1, i);
    }
  }

  lemma {:induction false} SpiralOrderPrefix(center: Section, visited: seq<Section>, next: Section, n: nat)
    requires n <= |visited|
    ensures InSpiralOrder(center, visited + [next], n) == InSpiralOrder(center, visited, n)
  {
    if n > 0 {
      SpiralOrderPrefix(center, visited, next, n - 1);
    }
  }

  /** A walk in spiral order never repeats a position and never stands on
      the centre. */
  lemma WalkedIsInjective(plan: Plan, lodExists: Section -> bool, visited: seq<Section>, requests: seq<Request>)
    requires Walked(plan, lodExists, visited, requests)
    ensures forall i | 0 <= i < |visited| :: Index(Rel(plan.center, visited[i])) == i + 1
    ensures forall i, j | 0 <= i < j < |visited| :: visited[i] != visited[j]
    ensures forall i | 0 <= i < |visited| :: visited[i] != plan.center
  {
    forall i | 0 <= i < |visited|
      ensures Index(Rel(plan.center, visited[i])) == i + 1
    {
      SpiralOrderIndex(plan.center, visited, |visited|, i);
    }
    forall i, j | 0 <= i < j < |visited|
      ensures visited[i] != visited[j]
    {
      assert Index(Rel(plan.center, visited[i])) != Index(Rel(plan.center, visited[j]));
    }
    forall i | 0 <= i < |visited|
      ensures visited[i] != plan.center
    {
      assert Rel(plan.center, plan.center) == Section(0, 0);
    }
  }

  /** The request taking position `p` makes: one at detail level 6 when
      the plan forces regeneration or the repository has no LOD for `p`. */
  function NewRequests(plan: Plan, lodExists: Section -> bool, p: Section): seq<Request>
  {
    if plan.force || !lodExists(p) then [Request(p.x, p.z, 6)] else []
  }

  /** The requests for the first `n` positions: one at detail level 6 for
      each position that is forced or has no LOD yet, in order. */
  function Requested(plan: Plan, lodExists: Section -> bool, visited: seq<Section>, n: nat): seq<Request>
    requires n <= |visited|
  {
    if n == 0 then []
    else
      Requested(plan, lodExists, visited, n - 1) + NewRequests(plan, lodExists, visited[n - 1])
  }

  /** The requests are exactly the positions forced or without a LOD. */
  lemma {:induction false} RequestedMeaning(plan: Plan, lodExists: Section -> bool, visited: seq<Section>, n: nat, p: Section)
    requires n <= |visited|
    ensures forall r | r in Requested(plan, lodExists, visited, n) :: r.detailLevel == 6
    ensures Request(p.x, p.z, 6) in Requested(plan, lodExists, visited, n) <==> p in visited[..n] && (plan.force || !lodExists(p))
  {
    if n > 0 {
      RequestedMeaning(plan, lodExists, visited, n - 1, p);
      assert visited[..n] == visited[..n - 1] + [visited[n - 1]];
    }
  }

  /** Requests depend only on the positions they cover. */
  lemma {:induction false} RequestedPrefix(plan: Plan, lodExists: Section -> bool, visited: seq<Section>, next: Section, n: nat)
    requires n <= |visited|
    ensures Requested(plan, lodExists, visited + [next], n) == Requested(plan, lodExists, visited, n)
  {
    if n > 0 {
      RequestedPrefix(plan, lodExists, visited, next, n - 1);
    }
  }

  /** Where the walk stands after `n` positions, `next` being its next. */
  function Last(plan: Plan, visited: seq<Section>): Section
  {
    if |visited| == 0 then plan.center else visited[|visited| - 1]
  }

  /** Taking one more position, the spiral's next cell, keeps the walk's
      record. */
  lemma WalkedExtend(plan: Plan, lodExists: Section -> bool, visited: seq<Section>, requests: seq<Request>, next: Section)
    requires Walked(plan, lodExists, visited, requests)
    requires Index(Rel(plan.center, next)) == |visited| + 1
    requires Adjacent(Last(plan, visited), next)
    requires |visited| == 0 ==> next == Section(plan.center.x, plan.center.z + 1)
    ensures Walked(plan, lodExists, visited + [next], requests + NewRequests(plan, lodExists, next))
  {
    RequestedPrefix(plan, lodExists, visited, next, |visited|);
    SpiralOrderPrefix(plan.center, visited, next, |visited|);
  }

  /** One step along side `turn` of pass `m`: the cell one move further in
      the side's direction is the spiral's next cell, and taking it keeps
      the walk's record. */
  lemma SideStep(plan: Plan, lodExists: Section -> bool, m: nat, turn: nat, t: nat,
                 visited: seq<Section>, requests: seq<Request>)
    requires turn < 2 && t <= m
    requires Walked(plan, lodExists, visited, requests)
    requires |visited| == SideBase(m, turn) + t
    requires Last(plan, visited) == Add(plan.center, SidePoint(m, turn, t))
    ensures Add(Last(plan, visited), Direction((2 * m + turn) % 4)) == Add(plan.center, SidePoint(m, turn, t + 1))
    ensures var next := Add(plan.center, SidePoint(m, turn, t + 1));
      Walked(plan, lodExists, visited + [next], requests + NewRequests(plan, lodExists, next))
  {
    SideCell(plan.center, m, turn, t);
    WalkedExtend(plan, lodExists, visited, requests, Add(plan.center, SidePoint(m, turn, t + 1)));
  }

  /** The geometry of one step along a side: the next cell is one move
      away, carries the next spiral number, and the very first cell is
      north of the centre. */
  lemma SideCell(center: Section, m: nat, turn: nat, t: nat)
    requires turn < 2 && t <= m
    ensures var next := Add(center, SidePoint(m, turn, t + 1));
      Add(Add(center, SidePoint(m, turn, t)), Direction((2 * m + turn) % 4)) == next &&
      Adjacent(Add(center, SidePoint(m, turn, t)), next) &&
      Index(Rel(center, next)) == SideBase(m, turn) + t + 1 &&
      (SideBase(m, turn) + t == 0 ==> next == Section(center.x, center.z + 1))
  {
    MoveAlong(center, m, turn, t);
    IndexOfSidePoint(m, turn, t + 1);
  }

  /** One side of one pass: up to `m + 1` positions, each preceded by the
      `run` check and the step count. `ended` says the walk stopped inside
      the side, for `stop()` or for reaching the target. */
  method WalkSide(plan: Plan, stopAt: Option<nat>, lodExists: Section -> bool, m: nat, turn: nat,
                  visited0: seq<Section>, requests0: seq<Request>)
    returns (visited: seq<Section>, requests: seq<Request>, stepsSoFar: int, ended: bool)
    requires turn < 2
    requires Walked(plan, lodExists, visited0, requests0)
    requires |visited0| == SideBase(m, turn) && Pronic(m) < plan.totalSteps && |visited0| <= plan.totalSteps
    requires stopAt.Some? ==> |visited0| <= stopAt.value
    requires Last(plan, visited0) == Add(plan.center, SidePoint(m, turn, 0))
    ensures Walked(plan, lodExists, visited, requests)
    ensures !ended ==>
      stepsSoFar == |visited| == SideBase(m, turn) + m + 1 && stepsSoFar <= plan.totalSteps &&
      (stopAt.Some? ==> stepsSoFar <= stopAt.value) &&
      Last(plan, visited) == Add(plan.center, SidePoint(m, turn, m + 1))
    ensures ended ==> StoppedEarly(plan, stopAt, |visited|, stepsSoFar)
  {
    visited, requests, stepsSoFar := visited0, requests0, |visited0|;
    var current := Last(plan, visited0);
    var dirIndex := (2 * m + turn) % 4;
    var t := 0;
    while t < m + 1
      invariant t <= m + 1 && |visited| == stepsSoFar == SideBase(m, turn) + t <= plan.totalSteps
      invariant stopAt.Some? ==> stepsSoFar <= stopAt.value
      invariant current == Add(plan.center, SidePoint(m, turn, t))
      invariant current == Last(plan, visited)
      invariant Walked(plan, lodExists, visited, requests)
    {
      if stopAt.Some? && stopAt.value == stepsSoFar {
        return visited, requests, stepsSoFar, true;
      }
      stepsSoFar := stepsSoFar + 1;
      if stepsSoFar > plan.totalSteps {
        SideBaseNext(m);
        PronicBetween(m, plan.totalSteps);
        return visited, requests, stepsSoFar, true;
      }
      SideStep(plan, lodExists, m, turn, t, visited, requests);
      current := Add(current, Direction(dirIndex));
      visited := visited + [current];
      requests := requests + NewRequests(plan, lodExists, current);
      t := t + 1;
    }
    ended := false;
  }

  /** How a walk can end inside a side: stopped after `stopAt` positions,
      or past the target, which then is no pronic number, with one step
      more counted than taken. */
  ghost predicate StoppedEarly(plan: Plan, stopAt: Option<nat>, taken: nat, stepsSoFar: int)
  {
    (stopAt.Some? && stepsSoFar == taken == stopAt.value <= plan.totalSteps) ||
    (stepsSoFar == plan.totalSteps + 1 && taken == plan.totalSteps &&
     (stopAt.Some? ==> plan.totalSteps < stopAt.value) && forall k: nat :: Pronic(k) != plan.totalSteps)
  }

  /** One pass of the outer loop: its two sides, the second only when the
      first did not end the walk. */
  method WalkPass(plan: Plan, stopAt: Option<nat>, lodExists: Section -> bool, m: nat,
                  visited0: seq<Section>, requests0: seq<Request>)
    returns (visited: seq<Section>, requests: seq<Request>, stepsSoFar: int, ended: bool)
    requires Walked(plan, lodExists, visited0, requests0)
    requires |visited0| == Pronic(m) < plan.totalSteps
    requires stopAt.Some? ==> |visited0| <= stopAt.value
    requires Last(plan, visited0) == Add(plan.center, SidePoint(m, 0, 0))
    ensures Walked(plan, lodExists, visited, requests)
    ensures !ended ==>
      stepsSoFar == |visited| == Pronic(m + 1) <= plan.totalSteps &&
      (stopAt.Some? ==> stepsSoFar <= stopAt.value) &&
      Last(plan, visited) == Add(plan.center, SidePoint(m + 1, 0, 0))
    ensures ended ==> StoppedEarly(plan, stopAt, |visited|, stepsSoFar)
  {
    SideBaseNext(m);
    visited, requests, stepsSoFar, ended := WalkSide(plan, stopAt, lodExists, m, 0, visited0, requests0);
    if !ended {
      SidePointSteps(m, 0, 0);
      visited, requests, stepsSoFar, ended := WalkSide(plan, stopAt, lodExists, m, 1, visited, requests);
      if !ended {
        SidePointSteps(m, 1, 0);
      }
    }
  }

  /** `run`: the spiral walk. `stopAt` is the number of positions taken
      when another thread calls `stop()`, if it does; `lodExists` answers
      the repository. Returns the positions taken, the requests made, and
      the final `stepsSoFar`. */
  method Walk(plan: Plan, stopAt: Option<nat>, lodExists: Section -> bool)
    returns (visited: seq<Section>, requests: seq<Request>, stepsSoFar: int)
    ensures var total := if plan.totalSteps < 0 then 0 else plan.totalSteps as nat;
      |visited| == (if stopAt.Some? && stopAt.value < total then stopAt.value else total)
    ensures Walked(plan, lodExists, visited, requests)
    ensures stopAt.Some? && stopAt.value <= plan.totalSteps ==> stepsSoFar == stopAt.value
    ensures (stopAt.None? || stopAt.value > plan.totalSteps) && plan.totalSteps > 0 ==>
      (stepsSoFar == plan.totalSteps || stepsSoFar == plan.totalSteps + 1) &&
      (stepsSoFar == plan.totalSteps <==> exists k: nat :: Pronic(k) == plan.totalSteps)
  {
    visited, requests, stepsSoFar := [], [], 0;
    var step := 1;
    var ended := false;
    while stepsSoFar < plan.totalSteps && !ended
      invariant step >= 1 && Walked(plan, lodExists, visited, requests)
      invariant !ended ==> stepsSoFar == |visited| == Pronic(step - 1)
      invariant !ended ==> stepsSoFar == 0 || stepsSoFar <= plan.totalSteps
      invariant !ended && stopAt.Some? ==> stepsSoFar <= stopAt.value
      invariant !ended ==> Last(plan, visited) == Add(plan.center, SidePoint(step - 1, 0, 0))
      invariant ended ==> StoppedEarly(plan, stopAt, |visited|, stepsSoFar)
      decreases plan.totalSteps - stepsSoFar, if ended then 0 else 1
    {
      visited, requests, stepsSoFar, ended := WalkPass(plan, stopAt, lodExists, step - 1, visited, requests);
      step := step + 1;
    }
    if !ended && plan.totalSteps > 0 {
      assert Pronic(step - 1) == plan.totalSteps;
    }
  }

  /** `getCompletedRequests`: the steps taken less the requests in flight. */
  function CompletedRequests(stepsSoFar: int, inFlight: int): int
  {
    stepsSoFar - inFlight
  }

  /** A walk that is never stopped, read once every request has settled:
      the completed count reaches the target exactly when the target is a
      pronic number (a whole number of passes), and otherwise overshoots it
      by one, because the step that trips the bound is counted too. */
  method SettledProgress(plan: Plan, lodExists: Section -> bool) returns (completed: int, target: int)
    requires plan.totalSteps > 0
    ensures target == plan.totalSteps
    ensures completed == target || completed == target + 1
    ensures completed == target <==> exists k: nat :: Pronic(k) == target
  {
    var visited, requests, stepsSoFar := Walk(plan, None, lodExists);
    completed := CompletedRequests(stepsSoFar, 0);
    target := plan.totalSteps;
  }

  /** A radius of 7 chunks targets 12 steps, three full passes
      (2 + 4 + 6); a radius of 6 targets 9, which no number of passes
      gives. */
  lemma PronicTargets()
    ensures TotalSteps(7) == 12 && Pronic(3) == 12
    ensures TotalSteps(6) == 9 && forall k: nat :: Pronic(k) != 9
  {
    PronicBetween(2, 9);
  }
}
