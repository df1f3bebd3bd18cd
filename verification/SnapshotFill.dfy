/**
 The preview snapshot of a running field: each preview cell samples one pixel of
 the native field, and cells whose pixel is not published yet are filled from
 their nearest published cell by a breadth-first search over the owner array.
 */
module SnapshotFill {
  import opened Arithmetic
  import opened Grid

  function Abs(a: int): nat {
    if a < 0 then -a else a
  }

  /** Manhattan distance between two cells. */
  function Dist(a: Cell, b: Cell): nat {
    Abs(a.x - b.x) + Abs(a.y - b.y)
  }

  /** The positions of all cells of a `w` by `h` grid, by index. */
  ghost function Cells(w: nat, h: nat): (at: seq<Cell>)
    requires w > 0
    ensures |at| == w * h && forall i :: 0 <= i < w * h ==> at[i] == CellAt(i, w)
  {
    seq(w * h, i => CellAt(i, w))
  }

  /** Distance between the cells stored at two indices. */
  function Gap(at: seq<Cell>, i: int, j: int): nat
    requires 0 <= i < |at| && 0 <= j < |at|
  {
    Dist(at[i], at[j])
  }

  /** The four neighbours in the order the search visits them. */
  function Neighbour(c: Cell, k: int): Cell {
    if k == 0 then Cell(c.x - 1, c.y)
    else if k == 1 then Cell(c.x + 1, c.y)
    else if k == 2 then Cell(c.x, c.y - 1)
    else Cell(c.x, c.y + 1)
  }

  // ---- Search state -------------------------------------------------------

  /** Index `s` held a published sample before the search began. */
  predicate Seed(start: seq<int>, s: int) {
    0 <= s < |start| && start[s] >= 0
  }

  /** The owner array as the sampling loop leaves it: a cell owns itself or nobody does. */
  predicate Seeded(start: seq<int>) {
    forall i :: 0 <= i < |start| ==> start[i] == i || start[i] == -1
  }

  predicate Owned(o: seq<int>, i: int) {
    0 <= i < |o| && o[i] >= 0
  }

  /** `owner` is a seed, and no seed is closer to cell `i`. */
  ghost predicate NearestSeed(at: seq<Cell>, start: seq<int>, i: int, owner: int)
    requires |at| == |start| && 0 <= i < |at|
  {
    Seed(start, owner) && forall s :: Seed(start, s) ==> Gap(at, i, owner) <= Gap(at, i, s)
  }

  predicate Adjacent(at: seq<Cell>, i: int, j: int)
    requires 0 <= i < |at| && 0 <= j < |at|
  {
    Gap(at, i, j) == 1
  }

  /** Every owned cell has a nearest seed as owner, and the queue lists exactly the owned cells. */
  ghost predicate OwnersExact(at: seq<Cell>, o: seq<int>, start: seq<int>, queue: seq<int>) {
    && |o| == |start| == |at|
    && (forall i :: Seed(start, i) ==> Owned(o, i) && o[i] == i)
    && (forall i :: Owned(o, i) ==> NearestSeed(at, start, i, o[i]))
    && (forall a :: 0 <= a < |queue| ==> Owned(o, queue[a]))
    && (forall i :: Owned(o, i) ==> i in queue)
  }

  /** Distance of an owned cell to its owner. */
  function Depth(at: seq<Cell>, o: seq<int>, i: int): nat
    requires |o| == |at| && Owned(o, i) && o[i] < |at|
  {
    Gap(at, i, o[i])
  }

  ghost predicate OwnersInRange(o: seq<int>, queue: seq<int>) {
    forall a :: 0 <= a < |queue| ==> Owned(o, queue[a]) && o[queue[a]] < |o|
  }

  /** The queue is layered: depths never decrease and span at most two layers from `head`. */
  ghost predicate Layered(at: seq<Cell>, o: seq<int>, queue: seq<int>, head: nat)
    requires |o| == |at| && OwnersInRange(o, queue)
  {
    && (forall a, b :: 0 <= a <= b < |queue| ==> Depth(at, o, queue[a]) <= Depth(at, o, queue[b]))
    && (forall b :: head < |queue| && 0 <= b < |queue| ==>
          Depth(at, o, queue[b]) <= Depth(at, o, queue[head]) + 1)
  }

  /** All neighbours of the cells before `head` are owned. */
  ghost predicate Expanded(at: seq<Cell>, o: seq<int>, queue: seq<int>, head: nat)
    requires |o| == |at| && OwnersInRange(o, queue) && head <= |queue|
  {
    forall a, v :: 0 <= a < head && 0 <= v < |o| && Adjacent(at, queue[a], v) ==> Owned(o, v)
  }

  ghost predicate Searching(at: seq<Cell>, o: seq<int>, start: seq<int>, queue: seq<int>, head: nat) {
    && head <= |queue|
    && OwnersExact(at, o, start, queue)
    && OwnersInRange(o, queue)
    && Layered(at, o, queue, head)
    && Expanded(at, o, queue, head)
  }

  // ---- Geometry -----------------------------------------------------------

  predicate Apart(i: int, j: int) {
    i != j
  }

  /** From any cell other than `s` some neighbour is one step closer to `s`. */
  ghost predicate Connected(at: seq<Cell>) {
    forall u, s {:trigger Apart(u, s)} :: 0 <= u < |at| && 0 <= s < |at| && Apart(u, s) ==>
      exists v :: 0 <= v < |at| && Adjacent(at, v, u) && Gap(at, v, s) == Gap(at, u, s) - 1
  }

  lemma StepToward(a: Cell, b: Cell, w: nat, h: nat) returns (c: Cell)
    requires InGrid(a, w, h) && InGrid(b, w, h) && a != b
    ensures InGrid(c, w, h) && Dist(c, a) == 1 && Dist(c, b) == Dist(a, b) - 1
  {
    c := if a.x < b.x then Cell(a.x + 1, a.y)
         else if a.x > b.x then Cell(a.x - 1, a.y)
         else if a.y < b.y then Cell(a.x, a.y + 1)
         else Cell(a.x, a.y - 1);
  }

  lemma GridConnected(w: nat, h: nat)
    requires w > 0
    ensures Connected(Cells(w, h))
  {
    var at := Cells(w, h);
    forall u, s | 0 <= u < |at| && 0 <= s < |at| && Apart(u, s)
      ensures exists v :: 0 <= v < |at| && Adjacent(at, v, u) && Gap(at, v, s) == Gap(at, u, s) - 1
    {
      CellRoundTrip(u, w, h);
      CellRoundTrip(s, w, h);
      var c := StepToward(at[u], at[s], w, h);
      IndexRoundTrip(c, w, h);
      var v := Index(c, w);
      assert at[v] == c;
      assert Adjacent(at, v, u) && Gap(at, v, s) == Gap(at, u, s) - 1;
    }
  }

  /** Every position of the grid is stored at its row-major index, and nothing else is. */
  ghost predicate RowMajor(at: seq<Cell>, w: nat, h: nat) {
    && w > 0 && |at| == w * h
    && (forall c {:trigger Index(c, w)} :: InGrid(c, w, h) ==> 0 <= Index(c, w) < |at| && at[Index(c, w)] == c)
    && (forall i {:trigger CellAt(i, w)} :: 0 <= i < |at| ==> at[i] == CellAt(i, w))
  }

  lemma CellsRowMajor(w: nat, h: nat)
    requires w > 0
    ensures RowMajor(Cells(w, h), w, h)
  {
    forall c | InGrid(c, w, h)
      ensures 0 <= Index(c, w) < w * h && CellAt(Index(c, w), w) == c
    {
      IndexRoundTrip(c, w, h);
    }
  }

  lemma AdjacentIsNeighbour(a: Cell, b: Cell) returns (k: int)
    requires Dist(a, b) == 1
    ensures 0 <= k < 4 && Neighbour(a, k) == b
  {
    k := if b.x < a.x then 0 else if b.x > a.x then 1 else if b.y < a.y then 2 else 3;
  }

  // ---- Breadth-first argument ---------------------------------------------

  /**
   A cell still without an owner is farther from every seed than the cell at the
   head of the queue is from its owner: walking towards the seed, the first owned
   cell met has an unowned neighbour, so it has not been expanded yet.
   */
  lemma {:induction false} Frontier(at: seq<Cell>, o: seq<int>, start: seq<int>, queue: seq<int>, head: nat,
                                    u: int, s: int)
    requires Connected(at) && Searching(at, o, start, queue, head) && head < |queue|
    requires 0 <= u < |o| && !Owned(o, u) && Seed(start, s)
    ensures Gap(at, u, s) >= Depth(at, o, queue[head]) + 1
    decreases Gap(at, u, s)
  {
    assert Apart(u, s);
    var v :| 0 <= v < |at| && Adjacent(at, v, u) && Gap(at, v, s) == Gap(at, u, s) - 1;
    if Owned(o, v) {
      var a :| 0 <= a < |queue| && queue[a] == v;
      assert a >= head;
      assert NearestSeed(at, start, v, o[v]);
    } else {
      Frontier(at, o, start, queue, head, v, s);
    }
  }

  /** Once the queue is exhausted no cell can lack an owner. */
  lemma {:induction false} NoneLeft(at: seq<Cell>, o: seq<int>, start: seq<int>, queue: seq<int>, u: int, s: int)
    requires Connected(at) && Searching(at, o, start, queue, |queue|)
    requires 0 <= u < |o| && Seed(start, s)
    ensures Owned(o, u)
    decreases Gap(at, u, s)
  {
    if Apart(u, s) {
      var v :| 0 <= v < |at| && Adjacent(at, v, u) && Gap(at, v, s) == Gap(at, u, s) - 1;
      NoneLeft(at, o, start, queue, v, s);
      var a :| 0 <= a < |queue| && queue[a] == v;
      assert Adjacent(at, queue[a], u) && Owned(o, u);
    }
  }

  lemma AllNearest(at: seq<Cell>, o: seq<int>, start: seq<int>, queue: seq<int>)
    requires Connected(at) && Searching(at, o, start, queue, |queue|)
    requires exists s :: Seed(start, s)
    ensures forall i :: 0 <= i < |o| ==> NearestSeed(at, start, i, o[i])
  {
    var s :| Seed(start, s);
    forall i | 0 <= i < |o|
      ensures Owned(o, i)
    {
      NoneLeft(at, o, start, queue, i, s);
    }
  }

  /** A newly reached neighbour of the head sits exactly one layer deeper, at its true distance. */
  lemma NextLayer(at: seq<Cell>, o: seq<int>, start: seq<int>, queue: seq<int>, head: nat, v: int)
    requires Connected(at) && Searching(at, o, start, queue, head) && head < |queue|
    requires 0 <= v < |o| && !Owned(o, v) && Adjacent(at, queue[head], v)
    ensures NearestSeed(at, start, v, o[queue[head]])
    ensures Gap(at, v, o[queue[head]]) == Depth(at, o, queue[head]) + 1
  {
    assert NearestSeed(at, start, queue[head], o[queue[head]]);
    forall s | Seed(start, s)
      ensures Depth(at, o, queue[head]) + 1 <= Gap(at, v, s)
    {
      Frontier(at, o, start, queue, head, v, s);
    }
  }

  /** Giving an unowned neighbour `v` of the head the head's owner keeps the search state. */
  lemma Visit(at: seq<Cell>, o: seq<int>, start: seq<int>, queue: seq<int>, head: nat, v: int)
    requires Connected(at) && Searching(at, o, start, queue, head) && head < |queue|
    requires 0 <= v < |o| && !Owned(o, v) && Adjacent(at, queue[head], v)
    ensures Searching(at, o[v := o[queue[head]]], start, queue + [v], head)
  {
    NextLayer(at, o, start, queue, head, v);
    VisitOwners(at, o, start, queue, v, o[queue[head]]);
    VisitLayers(at, o, queue, head, v, o[queue[head]]);
  }

  lemma VisitOwners(at: seq<Cell>, o: seq<int>, start: seq<int>, queue: seq<int>, v: int, top: int)
    requires OwnersExact(at, o, start, queue)
    requires 0 <= v < |o| && !Owned(o, v) && NearestSeed(at, start, v, top)
    ensures OwnersExact(at, o[v := top], start, queue + [v])
  {
    var o', queue' := o[v := top], queue + [v];
    assert queue'[|queue|] == v;
    assert forall a :: 0 <= a < |queue| ==> queue'[a] == queue[a];
    forall i | Owned(o', i)
      ensures NearestSeed(at, start, i, o'[i]) && i in queue'
    {
      assert i == v || (Owned(o, i) && i in queue);
    }
  }

  lemma VisitLayers(at: seq<Cell>, o: seq<int>, queue: seq<int>, head: nat, v: int, top: int)
    requires |o| == |at| && head < |queue| && 0 <= v < |o| && !Owned(o, v) && 0 <= top < |o|
    requires OwnersInRange(o, queue) && Layered(at, o, queue, head) && Expanded(at, o, queue, head)
    requires Gap(at, v, top) == Depth(at, o, queue[head]) + 1
    ensures OwnersInRange(o[v := top], queue + [v])
    ensures Layered(at, o[v := top], queue + [v], head) && Expanded(at, o[v := top], queue + [v], head)
  {
    var o', queue' := o[v := top], queue + [v];
    assert forall a :: 0 <= a < |queue| ==> queue'[a] == queue[a] && queue[a] != v;
    assert OwnersInRange(o', queue');
    assert forall a :: 0 <= a < |queue| ==> Depth(at, o', queue'[a]) == Depth(at, o, queue[a]);
    forall a, u | 0 <= a < head && 0 <= u < |o| && Adjacent(at, queue'[a], u)
      ensures Owned(o', u)
    {
      assert Adjacent(at, queue[a], u) && Owned(o, u);
      assert o'[u] == if u == v then top else o[u];
    }
  }

  /** Advancing past a head whose neighbours are all owned keeps the search state. */
  lemma Advance(at: seq<Cell>, o: seq<int>, start: seq<int>, queue: seq<int>, head: nat, w: nat, h: nat)
    requires RowMajor(at, w, h)
    requires Searching(at, o, start, queue, head) && head < |queue|
    requires forall k :: 0 <= k < 4 ==> Covered(o, at[queue[head]], k, w, h)
    ensures Searching(at, o, start, queue, head + 1)
  {
    forall v | 0 <= v < |o| && Adjacent(at, queue[head], v)
      ensures Owned(o, v)
    {
      var k := AdjacentIsNeighbour(at[queue[head]], at[v]);
      CellRoundTrip(v, w, h);
      assert Covered(o, at[queue[head]], k, w, h);
    }
  }

  /** Before the first expansion the queue holds the seeds, all at depth zero. */
  lemma SeedsReady(at: seq<Cell>, start: seq<int>, queue: seq<int>)
    requires |at| == |start| && Seeded(start)
    requires forall a :: 0 <= a < |queue| ==> Seed(start, queue[a])
    requires forall i :: Seed(start, i) ==> i in queue
    ensures Searching(at, start, start, queue, 0)
  {
  }

  ghost function Open(o: seq<int>): set<int> {
    set i | 0 <= i < |o| && o[i] < 0
  }

  /**
   The in-place search. Every cell ends up owned by a published sample, and no
   published sample is closer to the cell than its owner.
   */
  method FillFromNearest(owner: array<int>, w: nat, h: nat)
    requires w > 0 && owner.Length == w * h
    requires Seeded(owner[..]) && exists s :: Seed(owner[..], s)
    modifies owner
    ensures forall i :: 0 <= i < w * h ==> NearestSeed(Cells(w, h), old(owner[..]), i, owner[i])
    ensures forall i :: 0 <= i < w * h ==> 0 <= owner[i] < w * h && old(owner[..])[owner[i]] >= 0
    ensures forall i, s :: 0 <= i < w * h && 0 <= s < w * h && old(owner[..])[s] >= 0 ==>
              Between(i % w, owner[i] % w) + Between(i / w, owner[i] / w) <= Between(i % w, s % w) + Between(i / w, s / w)
  {
    ghost var at := Cells(w, h);
    ghost var start := owner[..];
    GridConnected(w, h);
    CellsRowMajor(w, h);
    Search(owner, w, h, at);
    forall i | 0 <= i < w * h
      ensures Seed(start, owner[i])
      ensures forall s :: 0 <= s < w * h && start[s] >= 0 ==>
                Between(i % w, owner[i] % w) + Between(i / w, owner[i] / w) <= Between(i % w, s % w) + Between(i / w, s / w)
    {
      NearestInSteps(start, i, owner[i], w, h);
    }
  }

  /** How far apart two numbers are. */
  function Between(a: int, b: int): (d: nat)
    ensures d == a - b || d == b - a
  {
    if a <= b then b - a else a - b
  }

  /** Distance counts the steps in both directions. */
  lemma NearestInSteps(start: seq<int>, i: int, owner: int, w: nat, h: nat)
    requires w > 0 && |start| == w * h && 0 <= i < w * h && NearestSeed(Cells(w, h), start, i, owner)
    ensures forall s :: 0 <= s < w * h && start[s] >= 0 ==>
              Between(i % w, owner % w) + Between(i / w, owner / w) <= Between(i % w, s % w) + Between(i / w, s / w)
  {
    var at := Cells(w, h);
    forall s | 0 <= s < w * h && start[s] >= 0
      ensures Between(i % w, owner % w) + Between(i / w, owner / w) <= Between(i % w, s % w) + Between(i / w, s / w)
    {
      assert Seed(start, s) && Gap(at, i, owner) <= Gap(at, i, s);
      assert at[i] == CellAt(i, w) && at[owner] == CellAt(owner, w) && at[s] == CellAt(s, w);
    }
  }

  method Search(owner: array<int>, w: nat, h: nat, ghost at: seq<Cell>)
    requires RowMajor(at, w, h) && Connected(at) && owner.Length == |at|
    requires Seeded(owner[..]) && exists s :: Seed(owner[..], s)
    modifies owner
    ensures forall i :: 0 <= i < |at| ==> NearestSeed(at, old(owner[..]), i, owner[i])
  {
    ghost var start := owner[..];
    var queue := CollectSeeds(owner);
    SeedsReady(at, start, queue);
    var head := 0;
    while head < |queue|
      invariant Searching(at, owner[..], start, queue, head)
      decreases |Open(owner[..])|, |queue| - head
    {
      queue := Expand(owner, w, h, at, start, queue, head);
      head := head + 1;
    }
    AllNearest(at, owner[..], start, queue);
  }

  method CollectSeeds(owner: array<int>) returns (queue: seq<int>)
    ensures forall a :: 0 <= a < |queue| ==> Seed(owner[..], queue[a])
    ensures forall i :: Seed(owner[..], i) ==> i in queue
  {
    queue := [];
    for i := 0 to owner.Length
      invariant forall a :: 0 <= a < |queue| ==> 0 <= queue[a] < i && Seed(owner[..], queue[a])
      invariant forall j :: 0 <= j < i && Seed(owner[..], j) ==> j in queue
    {
      if owner[i] >= 0 {
        queue := queue + [i];
      }
    }
  }

  /** The `k`-th neighbour of `cell` is outside the grid or owned. */
  predicate Covered(o: seq<int>, cell: Cell, k: int, w: nat, h: nat) {
    InGrid(Neighbour(cell, k), w, h) ==> Owned(o, Index(Neighbour(cell, k), w))
  }

  /** Owned cells stay owned, and queueing something means an open cell was closed. */
  ghost predicate Grown(before: seq<int>, after: seq<int>, queue: seq<int>, queue': seq<int>) {
    && (forall i :: Owned(before, i) ==> Owned(after, i))
    && queue <= queue'
    && |Open(after)| <= |Open(before)|
    && (|queue'| > |queue| ==> |Open(after)| < |Open(before)|)
  }

  lemma CoveredGrows(before: seq<int>, after: seq<int>, cell: Cell, k: int, w: nat, h: nat)
    requires forall i :: Owned(before, i) ==> Owned(after, i)
    requires forall j :: 0 <= j < k ==> Covered(before, cell, j, w, h)
    requires Covered(after, cell, k, w, h)
    ensures forall j :: 0 <= j < k + 1 ==> Covered(after, cell, j, w, h)
  {
    forall j | 0 <= j < k
      ensures Covered(after, cell, j, w, h)
    {
      assert Covered(before, cell, j, w, h);
    }
  }

  /** One iteration of the search: claim the unowned neighbours of the head and move on. */
  method Expand(owner: array<int>, w: nat, h: nat, ghost at: seq<Cell>, ghost start: seq<int>,
                queue: seq<int>, head: nat)
    returns (queue': seq<int>)
    requires RowMajor(at, w, h) && Connected(at)
    requires Searching(at, owner[..], start, queue, head) && head < |queue|
    modifies owner
    ensures Searching(at, owner[..], start, queue', head + 1)
    ensures Grown(old(owner[..]), owner[..], queue, queue')
  {
    var cell := CellAt(queue[head], w);
    queue' := queue;
    for k := 0 to 4
      invariant Searching(at, owner[..], start, queue', head)
      invariant forall j :: 0 <= j < k ==> Covered(owner[..], cell, j, w, h)
      invariant Grown(old(owner[..]), owner[..], queue, queue')
    {
      var n := Neighbour(cell, k);
      ghost var before := owner[..];
      if 0 <= n.x < w && 0 <= n.y < h {
        queue' := Claim(owner, at, start, queue', head, Index(n, w));
      }
      CoveredGrows(before, owner[..], cell, k, w, h);
    }
    Advance(at, owner[..], start, queue', head, w, h);
  }

  method Claim(owner: array<int>, ghost at: seq<Cell>, ghost start: seq<int>, queue: seq<int>, head: nat, ni: int)
    returns (queue': seq<int>)
    requires Connected(at) && Searching(at, owner[..], start, queue, head) && head < |queue|
    requires 0 <= ni < owner.Length && Adjacent(at, queue[head], ni)
    modifies owner
    ensures Searching(at, owner[..], start, queue', head)
    ensures Owned(owner[..], ni) && Grown(old(owner[..]), owner[..], queue, queue')
  {
    ghost var before := owner[..];
    if owner[ni] >= 0 {
      return queue;
    }
    Visit(at, before, start, queue, head, ni);
    assert ni in Open(before);
    owner[ni] := owner[queue[head]];
    assert owner[..] == before[ni := before[queue[head]]];
    assert Open(owner[..]) == Open(before) - {ni};
    queue' := queue + [ni];
  }

  // ---- Sampling the native field ------------------------------------------

  const MIN_PREVIEW_DIM: nat := 16
  const MAX_PREVIEW_DIM: nat := 1024

  function Min(a: int, b: int): int {
    if a < b then a else b
  }

  /** The native coordinate under the centre of preview coordinate `k`. */
  function SourceAxis(k: int, full: int, preview: nat): int
    requires preview > 0
  {
    Min(full - 1, ((2 * k + 1) * full) / (2 * preview))
  }

  function SourceIndex(i: int, fullW: nat, fullH: nat, w: nat, h: nat): int
    requires w > 0 && h > 0
  {
    var c := CellAt(i, w);
    Index(Cell(SourceAxis(c.x, fullW, w), SourceAxis(c.y, fullH, h)), fullW)
  }

  /** A preview never asks for more cells than pixels, so the clamp is idle and no pixel is sampled twice. */
  lemma SourceAxisStrict(k: int, full: nat, preview: nat)
    requires 0 <= k < preview <= full
    ensures 0 <= SourceAxis(k, full, preview) == ((2 * k + 1) * full) / (2 * preview) < full
    ensures k + 1 < preview ==> SourceAxis(k, full, preview) < SourceAxis(k + 1, full, preview)
  {
    SourceAxisBelow(k, full, preview);
    if k + 1 < preview {
      SourceAxisBelow(k + 1, full, preview);
      assert (2 * (k + 1) + 1) * full == (2 * k + 1) * full + 2 * full;
      DivStep((2 * k + 1) * full, 2 * full, 2 * preview);
    }
  }

  lemma SourceAxisBelow(k: int, full: nat, preview: nat)
    requires 0 <= k < preview && full > 0
    ensures 0 <= ((2 * k + 1) * full) / (2 * preview) < full
  {
    MulMonotone(0, 2 * k + 1, full, full);
    MulMonotone(2 * k + 2, 2 * preview, full, full);
    assert full * (2 * preview) == (2 * k + 2) * full + (2 * preview - 2 * k - 2) * full;
    DivBelow((2 * k + 1) * full, 2 * preview, full);
  }

  lemma SourceInField(i: int, fullW: nat, fullH: nat, w: nat, h: nat)
    requires 0 < w <= fullW && 0 < h <= fullH && 0 <= i < w * h
    ensures 0 <= SourceIndex(i, fullW, fullH, w, h) < fullW * fullH
  {
    CellRoundTrip(i, w, h);
    var c := CellAt(i, w);
    SourceAxisStrict(c.x, fullW, w);
    SourceAxisStrict(c.y, fullH, h);
    IndexRoundTrip(Cell(SourceAxis(c.x, fullW, w), SourceAxis(c.y, fullH, h)), fullW, fullH);
  }

  /** Whether preview cell `i` shows a pixel that has been published. */
  predicate Visible(published: seq<bool>, i: int, fullW: nat, fullH: nat, w: nat, h: nat)
    requires w > 0 && h > 0
  {
    var source := SourceIndex(i, fullW, fullH, w, h);
    0 <= source < |published| && published[source]
  }

  /** The owner array before the fill. */
  ghost function Sampled(published: seq<bool>, fullW: nat, fullH: nat, w: nat, h: nat): (start: seq<int>)
    requires w > 0 && h > 0
    ensures |start| == w * h
  {
    seq(w * h, i => if Visible(published, i, fullW, fullH, w, h) then i else -1)
  }

  datatype Snapshot<T> =
    | BadDimensions
    | Unavailable
    | Preview(width: nat, height: nat, samples: seq<T>)

  /** Preview cell `i` shows the native sample of a nearest visible preview cell. */
  ghost predicate ShowsNearest<T>(p: Snapshot<T>, i: int, published: seq<bool>, field: seq<T>, fullW: nat, fullH: nat)
    requires p.Preview? && p.width > 0 && p.height > 0
    requires 0 <= i < p.width * p.height == |p.samples|
  {
    exists o :: NearestSeed(Cells(p.width, p.height), Sampled(published, fullW, fullH, p.width, p.height), i, o) &&
                Shows(p, i, o, field, fullW, fullH)
  }

  predicate Shows<T(==)>(p: Snapshot<T>, i: int, o: int, field: seq<T>, fullW: nat, fullH: nat)
    requires p.Preview? && p.width > 0 && p.height > 0
    requires 0 <= i < |p.samples|
  {
    var source := SourceIndex(o, fullW, fullH, p.width, p.height);
    0 <= source < |field| && p.samples[i] == field[source]
  }

  /** The centre pixel of a preview cell, in numbers. */
  lemma CentrePixel(i: int, fullW: nat, fullH: nat, w: nat, h: nat)
    requires 0 < w <= fullW && 0 < h <= fullH && 0 <= i < w * h
    ensures SourceIndex(i, fullW, fullH, w, h) ==
            (2 * (i / w) + 1) * fullH / (2 * h) * fullW + (2 * (i % w) + 1) * fullW / (2 * w)
  {
    CellRoundTrip(i, w, h);
    SourceAxisStrict(i % w, fullW, w);
    SourceAxisStrict(i / w, fullH, h);
  }

  /** What a preview of nearest samples shows, pixel by pixel. */
  lemma PreviewShows<T>(p: Snapshot<T>, published: seq<bool>, field: seq<T>, fullW: nat, fullH: nat)
    requires p.Preview? && 0 < p.width <= fullW && 0 < p.height <= fullH
    requires |p.samples| == p.width * p.height && |field| == fullW * fullH
    requires forall i :: 0 <= i < |p.samples| ==> ShowsNearest(p, i, published, field, fullW, fullH)
    ensures forall shown :: shown in p.samples ==>
              exists s :: 0 <= s < |published| && s < |field| && published[s] && field[s] == shown
    ensures forall i :: 0 <= i < |p.samples| ==>
              var s := SourceIndex(i, fullW, fullH, p.width, p.height);
              0 <= s < |field| && (s < |published| && published[s] ==> p.samples[i] == field[s])
  {
    hide SourceIndex, ShowsNearest;
    forall shown | shown in p.samples
      ensures exists s :: 0 <= s < |published| && s < |field| && published[s] && field[s] == shown
    {
      var i :| 0 <= i < |p.samples| && p.samples[i] == shown;
      CellShows(p, i, published, field, fullW, fullH);
    }
    forall i | 0 <= i < |p.samples|
      ensures var s := SourceIndex(i, fullW, fullH, p.width, p.height);
              0 <= s < |field| && (s < |published| && published[s] ==> p.samples[i] == field[s])
    {
      SourceInField(i, fullW, fullH, p.width, p.height);
      CellShows(p, i, published, field, fullW, fullH);
    }
  }

  lemma CellShows<T>(p: Snapshot<T>, i: int, published: seq<bool>, field: seq<T>, fullW: nat, fullH: nat)
    requires p.Preview? && p.width > 0 && p.height > 0 && 0 <= i < |p.samples| == p.width * p.height
    requires ShowsNearest(p, i, published, field, fullW, fullH)
    ensures exists s :: 0 <= s < |published| && s < |field| && published[s] && field[s] == p.samples[i]
    ensures var s := SourceIndex(i, fullW, fullH, p.width, p.height);
            0 <= s < |published| && published[s] ==> s < |field| && p.samples[i] == field[s]
  {
    hide SourceIndex;
    var at, start := Cells(p.width, p.height), Sampled(published, fullW, fullH, p.width, p.height);
    var o :| NearestSeed(at, start, i, o) && Shows(p, i, o, field, fullW, fullH);
    var s := SourceIndex(o, fullW, fullH, p.width, p.height);
    assert Visible(published, o, fullW, fullH, p.width, p.height);
    assert 0 <= s < |published| && published[s] && p.samples[i] == field[s];
    if Visible(published, i, fullW, fullH, p.width, p.height) {
      assert Seed(start, i) && Gap(at, i, o) <= Gap(at, i, i) == 0;
      SamePosition(i, o, p.width, p.height);
    }
  }

  lemma SamePosition(i: int, j: int, w: nat, h: nat)
    requires w > 0 && 0 <= i < w * h && 0 <= j < w * h && Gap(Cells(w, h), i, j) == 0
    ensures i == j
  {
    CellRoundTrip(i, w, h);
    CellRoundTrip(j, w, h);
    assert CellAt(i, w) == CellAt(j, w);
  }

  /** With every pixel published the first cell already has something to show. */
  lemma SomethingVisible(published: seq<bool>, fullW: nat, fullH: nat, w: nat, h: nat)
    requires 0 < w <= fullW && 0 < h <= fullH
    ensures |published| == fullW * fullH && (forall s :: 0 <= s < |published| ==> published[s]) ==>
              exists i :: 0 <= i < w * h && Visible(published, i, fullW, fullH, w, h)
  {
    hide SourceIndex;
    MulMonotone(1, w, 1, h);
    SourceInField(0, fullW, fullH, w, h);
    if |published| == fullW * fullH && forall s :: 0 <= s < |published| ==> published[s] {
      assert Visible(published, 0, fullW, fullH, w, h);
    }
  }

  /**
   The snapshot of a session: rejected when too small, unavailable until some
   preview cell is published, and otherwise every cell shows the native sample of
   a nearest visible cell.
   */
  method TakeSnapshot<T(==)>(published: seq<bool>, field: seq<T>, revision: nat, completedPixels: nat,
                         fullW: nat, fullH: nat, askedW: int, askedH: int)
    returns (snapshot: Snapshot<T>)
    ensures snapshot.BadDimensions? <==>
              Min(askedW, Min(fullW, MAX_PREVIEW_DIM)) < MIN_PREVIEW_DIM ||
              Min(askedH, Min(fullH, MAX_PREVIEW_DIM)) < MIN_PREVIEW_DIM
    ensures snapshot.Preview? ==>
              && snapshot.width == Min(askedW, Min(fullW, MAX_PREVIEW_DIM))
              && snapshot.height == Min(askedH, Min(fullH, MAX_PREVIEW_DIM))
              && snapshot.width > 0 && snapshot.height > 0
              && |snapshot.samples| == snapshot.width * snapshot.height
              && forall i :: 0 <= i < |snapshot.samples| ==>
                   ShowsNearest(snapshot, i, published, field, fullW, fullH)
    ensures !snapshot.BadDimensions? ==>
              var w, h := Min(askedW, Min(fullW, MAX_PREVIEW_DIM)), Min(askedH, Min(fullH, MAX_PREVIEW_DIM));
              (snapshot.Preview? <==>
                revision != 0 && completedPixels != 0 && |field| == fullW * fullH &&
                exists i :: 0 <= i < w * h && Visible(published, i, fullW, fullH, w, h))
    // A preview has no more cells than asked for and no more than pixels, at most 1024 and at least 16 a side.
    ensures snapshot.BadDimensions? <==> askedW < 16 || fullW < 16 || askedH < 16 || fullH < 16
    ensures snapshot.Preview? ==>
              && snapshot.width <= askedW && snapshot.width <= fullW && snapshot.width <= 1024
              && (snapshot.width == askedW || snapshot.width == fullW || snapshot.width == 1024)
              && snapshot.height <= askedH && snapshot.height <= fullH && snapshot.height <= 1024
              && (snapshot.height == askedH || snapshot.height == fullH || snapshot.height == 1024)
    // Only published pixels are shown.
    ensures snapshot.Preview? ==>
              forall shown :: shown in snapshot.samples ==>
                exists s :: 0 <= s < |published| && s < |field| && published[s] && field[s] == shown
    // A cell whose centre pixel is published shows that very pixel.
    ensures snapshot.Preview? ==>
              forall i :: 0 <= i < |snapshot.samples| ==>
                var s := SourceIndex(i, fullW, fullH, snapshot.width, snapshot.height);
                0 <= s < |field| && (s < |published| && published[s] ==> snapshot.samples[i] == field[s])
    // A fully published field always has a preview.
    ensures !snapshot.BadDimensions? && revision != 0 && completedPixels != 0 && |field| == fullW * fullH == |published| &&
            (forall s :: 0 <= s < |published| ==> published[s]) ==>
              snapshot.Preview?
  {
    hide SourceIndex, NearestSeed, Visible;
    var w := Min(askedW, Min(fullW, MAX_PREVIEW_DIM));
    var h := Min(askedH, Min(fullH, MAX_PREVIEW_DIM));
    if w < MIN_PREVIEW_DIM || h < MIN_PREVIEW_DIM {
      return BadDimensions;
    }
    if revision == 0 || completedPixels == 0 || |field| != fullW * fullH {
      return Unavailable;
    }
    var owner, seen := SampleOwners(published, fullW, fullH, w, h);
    ghost var start := Sampled(published, fullW, fullH, w, h);
    if !seen {
      SomethingVisible(published, fullW, fullH, w, h);
      return Unavailable;
    }
    FillFromNearest(owner, w, h);
    var samples := ReadSamples(owner[..], field, fullW, fullH, w, h);
    snapshot := Preview(w, h, samples);
    forall i | 0 <= i < w * h
      ensures ShowsNearest(snapshot, i, published, field, fullW, fullH)
    {
      assert Shows(snapshot, i, owner[i], field, fullW, fullH);
    }
    PreviewShows(snapshot, published, field, fullW, fullH);
  }

  method ReadSamples<T>(owner: seq<int>, field: seq<T>, fullW: nat, fullH: nat, w: nat, h: nat)
    returns (samples: seq<T>)
    requires 0 < w <= fullW && 0 < h <= fullH && |owner| == w * h && |field| == fullW * fullH
    requires forall i :: 0 <= i < |owner| ==> 0 <= owner[i] < w * h
    ensures |samples| == |owner|
    ensures forall i :: 0 <= i < |owner| ==>
              0 <= SourceIndex(owner[i], fullW, fullH, w, h) < |field| &&
              samples[i] == field[SourceIndex(owner[i], fullW, fullH, w, h)]
  {
    samples := [];
    for i := 0 to |owner|
      invariant |samples| == i
      invariant forall j :: 0 <= j < i ==>
                  0 <= SourceIndex(owner[j], fullW, fullH, w, h) < |field| &&
                  samples[j] == field[SourceIndex(owner[j], fullW, fullH, w, h)]
    {
      SourceInField(owner[i], fullW, fullH, w, h);
      samples := samples + [field[SourceIndex(owner[i], fullW, fullH, w, h)]];
    }
  }

  method SampleOwners(published: seq<bool>, fullW: nat, fullH: nat, w: nat, h: nat)
    returns (owner: array<int>, seen: bool)
    requires w > 0 && h > 0
    ensures fresh(owner) && owner[..] == Sampled(published, fullW, fullH, w, h)
    ensures Seeded(owner[..])
    ensures seen <==> exists s :: Seed(owner[..], s)
    ensures seen <==> exists i :: 0 <= i < w * h && Visible(published, i, fullW, fullH, w, h)
    ensures forall i :: 0 <= i < w * h ==>
              var s := SourceIndex(i, fullW, fullH, w, h);
              owner[i] == if 0 <= s < |published| && published[s] then i else -1
  {
    owner := new int[w * h](_ => -1);
    seen := false;
    for y := 0 to h
      invariant y * w <= w * h && SampledTo(owner[..], published, y * w, fullW, fullH, w, h)
      invariant seen <==> exists i :: 0 <= i < y * w && Visible(published, i, fullW, fullH, w, h)
    {
      MulMonotone(y + 1, h, w, w);
      assert (y + 1) * w == y * w + w;
      for x := 0 to w
        invariant SampledTo(owner[..], published, y * w + x, fullW, fullH, w, h)
        invariant seen <==> exists i :: 0 <= i < y * w + x && Visible(published, i, fullW, fullH, w, h)
      {
        SourceOfTarget(x, y, fullW, fullH, w, h);
        var hit := SampleCell(owner, published, x, y, fullW, fullH, w, h);
        seen := seen || hit;
      }
    }
    if seen {
      var i :| 0 <= i < w * h && Visible(published, i, fullW, fullH, w, h);
      assert Seed(owner[..], i);
    }
  }

  method SampleCell(owner: array<int>, published: seq<bool>, x: nat, y: nat, fullW: nat, fullH: nat, w: nat, h: nat)
    returns (hit: bool)
    requires x < w && y < h && 0 <= y * w + x < w * h
    requires SampledTo(owner[..], published, y * w + x, fullW, fullH, w, h)
    modifies owner
    ensures SampledTo(owner[..], published, y * w + x + 1, fullW, fullH, w, h)
    ensures hit == Visible(published, y * w + x, fullW, fullH, w, h)
  {
    var target := y * w + x;
    var source := Index(Cell(SourceAxis(x, fullW, w), SourceAxis(y, fullH, h)), fullW);
    SourceOfTarget(x, y, fullW, fullH, w, h);
    hit := 0 <= source < |published| && published[source];
    if hit {
      owner[target] := target;
    }
  }

  ghost predicate SampledTo(o: seq<int>, published: seq<bool>, n: int, fullW: nat, fullH: nat, w: nat, h: nat)
    requires w > 0 && h > 0
  {
    && |o| == w * h
    && (forall i :: 0 <= i < |o| && i < n ==> o[i] == if Visible(published, i, fullW, fullH, w, h) then i else -1)
    && (forall i :: n <= i < |o| ==> 0 <= i ==> o[i] == -1)
  }

  lemma SourceOfTarget(x: nat, y: nat, fullW: nat, fullH: nat, w: nat, h: nat)
    requires x < w && y < h
    ensures 0 <= y * w + x < w * h
    ensures Index(Cell(SourceAxis(x, fullW, w), SourceAxis(y, fullH, h)), fullW) ==
            SourceIndex(y * w + x, fullW, fullH, w, h)
  {
    IndexRoundTrip(Cell(x, y), w, h);
  }
}
