/** The bot's breadth-first search for the first step toward a goal. */
module Search {
  import opened Values
  import opened Grid
  import opened Sets

  /** What the search is given: the map, the cells it may not enter, and where it wants to go. */
  datatype Task = Task(m: GameMap, start: Cell, goals: set<Cell>, blocked: set<Cell>) {
    predicate Free(c: Cell)
      requires m.Valid()
    {
      c !in blocked && m.IsFloor(c.x, c.y)
    }
  }

  function Next(c: Cell, d: Dir): Cell { Ahead(c, d, 1) }

  // ----- paths -----

  /** A step from `a` to `b` that the bot may take: to a floor cell one row up or down, or one column left or right,
      that is not blocked. */
  ghost predicate StepTo(t: Task, a: Cell, b: Cell)
    requires t.m.Valid()
  {
    && Distance(a.x, b.x) + Distance(a.y, b.y) == 1
    && b !in t.blocked && 0 <= b.x < t.m.width && 0 <= b.y < t.m.height && t.m.rows[b.y][b.x] == '.'
  }

  /** The cell beside `c` by compass; rows are counted southward. */
  predicate Beside(c: Cell, d: Dir, b: Cell) {
    && b.x - c.x == (match d case E => 1 case W => -1 case _ => 0)
    && b.y - c.y == (match d case S => 1 case N => -1 case _ => 0)
  }

  /** The four cells tried are those a step may lead to, each in its direction. */
  lemma StepsAreTried(t: Task, a: Cell, b: Cell)
    requires t.m.Valid()
    ensures StepTo(t, a, b) <==> t.Free(b) && exists d :: d in DIRS && b == Next(a, d)
    ensures forall d :: b == Next(a, d) <==> Beside(a, d, b)
  {
    if StepTo(t, a, b) {
      var d := if b.x > a.x then E else if b.x < a.x then W else if b.y > a.y then S else N;
      assert DIRS[0] == N && DIRS[1] == E && DIRS[2] == S && DIRS[3] == W;
      assert b == Next(a, d) && d in DIRS;
    }
  }

  ghost predicate Path(t: Task, p: seq<Cell>)
    requires t.m.Valid()
  {
    p != [] && forall i :: 0 <= i < |p| - 1 ==> StepTo(t, p[i], p[i + 1])
  }

  /** A walk from the start to some goal. */
  ghost predicate Reaches(t: Task, p: seq<Cell>)
    requires t.m.Valid()
  {
    Path(t, p) && p[0] == t.start && p[|p| - 1] in t.goals
  }

  /** `d` is the first step of a shortest walk to a goal. */
  ghost predicate BestFirstStep(t: Task, d: Dir)
    requires t.m.Valid()
  {
    exists p :: Reaches(t, p) && |p| > 1 && Beside(t.start, d, p[1]) && forall q :: Reaches(t, q) ==> |p| <= |q|
  }

  // ----- the search tree -----

  /** `seen`: the cell each cell was reached from, and how. */
  type Seen = map<Cell, Option<(Cell, Dir)>>

  /** `dist` is the depth of each cell in the tree of `seen`. */
  ghost predicate Tree(t: Task, seen: Seen, dist: map<Cell, nat>)
    requires t.m.Valid()
  {
    && dist.Keys == seen.Keys && t.start in seen && seen[t.start] == None && dist[t.start] == 0
    && forall c :: c in seen && c != t.start ==>
         && seen[c].Some? && t.Free(c)
         && var (a, d) := seen[c].value;
         a in seen && c == Next(a, d) && dist[c] == dist[a] + 1
  }

  /** The queue is ordered by depth and spans at most two depths, the lower one `level`. */
  ghost predicate Queue(q: seq<Cell>, dist: map<Cell, nat>, level: nat) {
    && (forall i :: 0 <= i < |q| ==> q[i] in dist && level <= dist[q[i]] <= level + 1)
    && forall i, j :: 0 <= i < j < |q| ==> dist[q[i]] <= dist[q[j]]
  }

  /** Every free neighbour of `c`, in the directions tried so far, has been seen at most one deeper. */
  ghost predicate Expanded(t: Task, c: Cell, dist: map<Cell, nat>, tried: nat)
    requires t.m.Valid() && tried <= 4
  {
    c in dist && forall i :: 0 <= i < tried ==> var b := Next(c, DIRS[i]); t.Free(b) ==>
        b in dist && dist[b] <= dist[c] + 1
  }

  /** Cells that have left the queue are expanded and no deeper than `level`. */
  ghost predicate Finished(t: Task, seen: Seen, dist: map<Cell, nat>, waiting: seq<Cell>, level: nat)
    requires t.m.Valid()
  {
    forall c :: c in seen && c !in waiting ==> c in dist && dist[c] <= level && Expanded(t, c, dist, 4)
  }

  /** What the outer loop keeps. */
  ghost predicate Searching(t: Task, seen: Seen, dist: map<Cell, nat>, q: seq<Cell>, level: nat)
    requires t.m.Valid()
  {
    && Tree(t, seen, dist) && Queue(q, dist, level) && Finished(t, seen, dist, q, level)
    && forall c :: c in seen ==> c !in t.goals
  }

  // ----- why the first goal met is the nearest -----

  /** While all cells above `level` are expanded, the cell `i` steps along any walk has been seen at depth `i`
      or less. */
  lemma {:induction false} SeenAlong(t: Task, seen: Seen, dist: map<Cell, nat>, level: nat, p: seq<Cell>, i: nat)
    requires t.m.Valid() && Tree(t, seen, dist) && Path(t, p) && p[0] == t.start && i < |p| && i <= level
    requires forall c :: c in seen && dist[c] < level ==> Expanded(t, c, dist, 4)
    ensures p[i] in dist && dist[p[i]] <= i
  {
    if i > 0 {
      SeenAlong(t, seen, dist, level, p, i - 1);
      assert StepTo(t, p[i - 1], p[i - 1 + 1]);
      StepSeen(t, dist, p[i - 1], p[i]);
    }
  }

  lemma StepSeen(t: Task, dist: map<Cell, nat>, a: Cell, b: Cell)
    requires t.m.Valid() && Expanded(t, a, dist, 4) && StepTo(t, a, b)
    ensures b in dist && dist[b] <= dist[a] + 1
  {
    StepsAreTried(t, a, b);
    var d :| b == Next(a, d);
    var i := match d case N => 0 case E => 1 case S => 2 case W => 3;
    assert DIRS[i] == d;
  }

  /** No goal is nearer than one step below the cells now being expanded. */
  lemma GoalsAreFar(t: Task, seen: Seen, dist: map<Cell, nat>, level: nat, p: seq<Cell>)
    requires t.m.Valid() && Tree(t, seen, dist) && Reaches(t, p)
    requires forall c :: c in seen && dist[c] < level ==> Expanded(t, c, dist, 4)
    requires forall c :: c in seen ==> c !in t.goals
    ensures |p| >= level + 2
  {
    if |p| - 1 <= level { SeenAlong(t, seen, dist, level, p, |p| - 1); }
  }

  /** When nothing waits any more, no goal can be reached. */
  lemma NothingReached(t: Task, seen: Seen, dist: map<Cell, nat>, level: nat, p: seq<Cell>)
    requires t.m.Valid() && Searching(t, seen, dist, [], level)
    ensures !Reaches(t, p)
  {
    if Reaches(t, p) { GoalsAreFar(t, seen, dist, |p|, p); }
  }

  // ----- the bound on cells seen -----

  function Row(width: nat, y: int): (cells: set<Cell>)
    ensures |cells| == width && forall c :: c in cells <==> 0 <= c.x < width && c.y == y
  {
    if width == 0 then {} else Row(width - 1, y) + {Cell(width - 1, y)}
  }

  function Rows(width: nat, height: nat): (cells: set<Cell>)
    ensures |cells| == width * height && forall c :: c in cells <==> 0 <= c.x < width && 0 <= c.y < height
  {
    if height == 0 then {}
    else
      assert Rows(width, height - 1) !! Row(width, height - 1);
      assert width * height == width * (height - 1) + width;
      Rows(width, height - 1) + Row(width, height - 1)
  }

  /** Besides the start only floor cells are ever seen. */
  lemma FewSeen(t: Task, seen: Seen, dist: map<Cell, nat>)
    requires t.m.Valid() && Tree(t, seen, dist)
    ensures |seen| <= t.m.width * t.m.height + 1
  {
    var all := Rows(t.m.width, t.m.height);
    assert seen.Keys <= all + {t.start};
    SubsetSize(seen.Keys, all + {t.start});
    assert |seen| == |seen.Keys|;
  }

  // ----- expanding one cell -----

  /** What trying the four directions of `cur` keeps. */
  ghost predicate Expanding(t: Task, seen: Seen, dist: map<Cell, nat>, q: seq<Cell>, cur: Cell, tried: nat)
    requires t.m.Valid() && tried <= 4
  {
    && Tree(t, seen, dist) && Expanded(t, cur, dist, tried) && Queue(q, dist, dist[cur])
    && (forall c :: c in seen && c !in q && c != cur ==> c in dist && dist[c] <= dist[cur] && Expanded(t, c, dist, 4))
    && forall c :: c in seen ==> c !in t.goals
  }

  lemma StartExpanding(t: Task, seen: Seen, dist: map<Cell, nat>, q: seq<Cell>, level: nat)
    requires t.m.Valid() && q != [] && Searching(t, seen, dist, q, level)
    ensures q[0] in dist && Expanding(t, seen, dist, q[1..], q[0], 0)
  {
    hide Tree;
    assert q == [q[0]] + q[1..];
    forall c | c in seen && c !in q[1..] && c != q[0]
      ensures c in dist && dist[c] <= dist[q[0]] && Expanded(t, c, dist, 4)
    {
      assert c !in q;
    }
  }

  lemma StopExpanding(t: Task, seen: Seen, dist: map<Cell, nat>, q: seq<Cell>, cur: Cell)
    requires t.m.Valid() && Expanding(t, seen, dist, q, cur, 4)
    ensures Searching(t, seen, dist, q, dist[cur])
  {
    hide Tree, Queue;
  }

  /** A neighbour already seen, or not free. */
  lemma SkipNeighbour(t: Task, seen: Seen, dist: map<Cell, nat>, q: seq<Cell>, cur: Cell, tried: nat)
    requires t.m.Valid() && tried < 4 && cur in dist && Expanding(t, seen, dist, q, cur, tried)
    requires var b := Next(cur, DIRS[tried]); b in seen || !t.Free(b)
    ensures Expanding(t, seen, dist, q, cur, tried + 1)
  {
    var b := Next(cur, DIRS[tried]);
    if b in seen && b in q {
      var i :| 0 <= i < |q| && q[i] == b;
    }
  }

  /** A new neighbour goes to the end of the queue, one deeper. */
  lemma AddNeighbour(t: Task, seen: Seen, dist: map<Cell, nat>, q: seq<Cell>, cur: Cell, tried: nat)
    requires t.m.Valid() && tried < 4 && cur in dist && Expanding(t, seen, dist, q, cur, tried)
    requires var b := Next(cur, DIRS[tried]); b !in seen && t.Free(b)
    ensures var b := Next(cur, DIRS[tried]);
            var seen1, dist1 := seen[b := Some((cur, DIRS[tried]))], dist[b := dist[cur] + 1];
            && Tree(t, seen1, dist1)
            && (b !in t.goals ==> Expanding(t, seen1, dist1, q + [b], cur, tried + 1))
  {
    hide Queue, Tree;
    var d := DIRS[tried];
    var b := Next(cur, d);
    InTree(t, seen, dist);
    var dist1 := dist[b := dist[cur] + 1];
    TreeGrows(t, seen, dist, cur, d);
    QueueGrows(q, dist, dist[cur], b);
    if b !in t.goals {
      forall c | c in seen && c !in q && c != cur ensures Expanded(t, c, dist1, 4) {
        StaysExpanded(t, c, dist, b, dist1[b], 4);
      }
      StaysExpanded(t, cur, dist, b, dist1[b], tried);
    }
  }

  lemma TreeGrows(t: Task, seen: Seen, dist: map<Cell, nat>, cur: Cell, d: Dir)
    requires t.m.Valid() && Tree(t, seen, dist) && cur in seen
    requires Next(cur, d) !in seen && t.Free(Next(cur, d))
    ensures Tree(t, seen[Next(cur, d) := Some((cur, d))], dist[Next(cur, d) := dist[cur] + 1])
  {
  }

  lemma QueueGrows(q: seq<Cell>, dist: map<Cell, nat>, level: nat, b: Cell)
    requires Queue(q, dist, level) && b !in dist
    ensures Queue(q + [b], dist[b := level + 1], level)
  {
  }

  lemma StaysExpanded(t: Task, c: Cell, dist: map<Cell, nat>, b: Cell, n: nat, tried: nat)
    requires t.m.Valid() && tried <= 4 && Expanded(t, c, dist, tried) && b !in dist
    ensures Expanded(t, c, dist[b := n], tried)
  {
  }

  lemma QueueDeep(q: seq<Cell>, dist: map<Cell, nat>, level: nat)
    requires Queue(q, dist, level)
    ensures forall c :: c in q ==> c in dist && dist[c] >= level
  {
  }

  /** The goal just met is at the least possible depth. */
  lemma GoalIsNearest(t: Task, seen: Seen, dist: map<Cell, nat>, q: seq<Cell>, cur: Cell, tried: nat)
    requires t.m.Valid() && tried < 4 && cur in dist && Expanding(t, seen, dist, q, cur, tried)
    ensures forall p :: Reaches(t, p) ==> |p| >= dist[cur] + 2
  {
    hide Tree, Reaches, Queue, Expanded;
    QueueDeep(q, dist, dist[cur]);
    InTree(t, seen, dist);
    forall p | Reaches(t, p) ensures |p| >= dist[cur] + 2 { GoalsAreFar(t, seen, dist, dist[cur], p); }
  }

  /** The loop over the four directions. */
  method Expand(t: Task, seen0: Seen, q0: seq<Cell>, ghost dist0: map<Cell, nat>, ghost level: nat)
    returns (goal: Option<Cell>, seen: Seen, q: seq<Cell>, ghost dist: map<Cell, nat>)
    requires t.m.Valid() && q0 != [] && Searching(t, seen0, dist0, q0, level)
    ensures q0[0] in dist && Tree(t, seen, dist)
    ensures goal.None? ==> Searching(t, seen, dist, q, dist[q0[0]])
    ensures goal.None? ==> |seen| > |seen0| || (|seen| == |seen0| && |q| < |q0|)
    ensures goal.Some? ==> goal.value in t.goals && goal.value in seen && dist[goal.value] == dist[q0[0]] + 1
    ensures goal.Some? ==> forall p :: Reaches(t, p) ==> |p| >= dist[q0[0]] + 2
  {
    hide Queue, Finished, Tree, Reaches, Expanded;
    StartExpanding(t, seen0, dist0, q0, level);
    var cur := q0[0];
    goal, seen, q, dist := None, seen0, q0[1..], dist0;
    for i := 0 to 4
      invariant cur in dist && Expanding(t, seen, dist, q, cur, i)
      invariant |seen| - |seen0| == |q| - |q0| + 1 && |seen| >= |seen0|
    {
      var d := DIRS[i];
      var nxt := Next(cur, d);
      if nxt in seen || nxt in t.blocked || !t.m.IsFloor(nxt.x, nxt.y) {
        SkipNeighbour(t, seen, dist, q, cur, i);
      } else {
        AddNeighbour(t, seen, dist, q, cur, i);
        GoalIsNearest(t, seen, dist, q, cur, i);
        InTree(t, seen, dist);
        seen := seen[nxt := Some((cur, d))];
        dist := dist[nxt := dist[cur] + 1];
        if nxt in t.goals { return Some(nxt), seen, q, dist; }
        q := q + [nxt];
      }
    }
    StopExpanding(t, seen, dist, q, cur);
  }

  lemma InTree(t: Task, seen: Seen, dist: map<Cell, nat>)
    requires t.m.Valid() && Tree(t, seen, dist)
    ensures dist.Keys == seen.Keys
  {
  }

  /** Back along the tree to the step taken from the start. */
  method WalkBack(t: Task, seen: Seen, goal: Cell, ghost dist: map<Cell, nat>) returns (d: Dir)
    requires t.m.Valid() && Tree(t, seen, dist) && goal in seen && goal in t.goals && goal != t.start
    requires forall p :: Reaches(t, p) ==> |p| >= dist[goal] + 1
    ensures BestFirstStep(t, d)
  {
    var node := goal;
    ghost var tail := [goal];
    while seen[node].value.0 != t.start
      invariant node in seen && node != t.start && seen[node].Some?
      invariant Path(t, tail) && tail[0] == node && tail[|tail| - 1] == goal
      invariant |tail| + dist[node] == dist[goal] + 1
      decreases dist[node]
    {
      OneBack(t, seen, dist, node, tail);
      node := seen[node].value.0;
      tail := [node] + tail;
    }
    d := seen[node].value.1;
    OneBack(t, seen, dist, node, tail);
    ghost var p := [t.start] + tail;
    StepsAreTried(t, t.start, p[1]);
    assert Reaches(t, p) && Beside(t.start, d, p[1]);
  }

  lemma OneBack(t: Task, seen: Seen, dist: map<Cell, nat>, node: Cell, tail: seq<Cell>)
    requires t.m.Valid() && Tree(t, seen, dist) && node in seen && node != t.start && seen[node].Some?
    requires Path(t, tail) && tail[0] == node
    ensures Path(t, [seen[node].value.0] + tail)
  {
    var a := seen[node].value.0;
    var p := [a] + tail;
    assert node == Next(a, seen[node].value.1);
    StepsAreTried(t, a, node);
    forall i | 0 <= i < |p| - 1 ensures StepTo(t, p[i], p[i + 1]) {
      if i > 0 { assert StepTo(t, tail[i - 1], tail[i - 1 + 1]); }
    }
  }

  // ----- the search -----

  const MAX_W: nat := 64
  const MAX_H: nat := 48
  const LIMIT: nat := 4000

  /** No legal map has as many cells as the search's limit. */
  lemma LegalMapsFit(m: GameMap)
    requires m.width <= MAX_W && m.height <= MAX_H
    ensures m.width * m.height + 1 < LIMIT
  {
    assert m.width * m.height <= MAX_W * m.height;
  }

  /** `first_step`.  A returned direction begins a shortest walk to a goal; no direction, when not already at a
      goal, means that no goal can be reached, provided the limit exceeds the number of cells. */
  method FirstStep(t: Task, limit: nat) returns (r: Option<Dir>)
    requires t.m.Valid()
    ensures r.Some? ==> t.start !in t.goals && BestFirstStep(t, r.value)
    ensures r.None? && t.start !in t.goals && t.m.width * t.m.height + 1 < limit ==> forall p :: !Reaches(t, p)
    ensures r.None? && t.start !in t.goals && t.m.width <= 64 && t.m.height <= 48 && limit == 4000 ==>
              forall p :: !Reaches(t, p)
    ensures t.start in t.goals ==> r == None
  {
    hide Queue, Finished, Expanded, Tree, Reaches, BestFirstStep;
    if t.start in t.goals { return None; }
    var seen: Seen := map[t.start := None];
    var q := [t.start];
    ghost var dist: map<Cell, nat> := map[t.start := 0];
    ghost var level: nat := 0;
    assert Searching(t, seen, dist, q, level) by { AtFirst(t); }
    while q != [] && |seen| < limit
      invariant Searching(t, seen, dist, q, level)
      decreases t.m.width * t.m.height + 1 - |seen|, |q|
    {
      FewSeen(t, seen, dist);
      ghost var cur := q[0];
      var goal: Option<Cell>;
      goal, seen, q, dist := Expand(t, seen, q, dist, level);
      level := dist[cur];
      FewSeen(t, seen, dist);
      if goal.Some? {
        var d := WalkBack(t, seen, goal.value, dist);
        return Some(d);
      }
    }
    FewSeen(t, seen, dist);
    if t.m.width <= MAX_W && t.m.height <= MAX_H { LegalMapsFit(t.m); }
    if q == [] {
      forall p ensures !Reaches(t, p) { NothingReached(t, seen, dist, level, p); }
    }
    r := None;
  }

  lemma AtFirst(t: Task)
    requires t.m.Valid() && t.start !in t.goals
    ensures Searching(t, map[t.start := None], map[t.start := 0], [t.start], 0)
  {
  }
}
