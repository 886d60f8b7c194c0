/**
 * The maze solver of MazeSolve: a route stack of visited positions, kept as
 * a linked LIFO list in the program and as a sequence (top first) here, and
 * the depth-first walk `check` over a copy of the global 20 by 30 maze.
 */
module MazeSolve {
  import opened Wrappers

  const MAX_X: int := 20
  const MAX_Y: int := 30

  /** A stack node's payload: a position and the direction taken from it. */
  datatype Entry = Entry(x: int, y: int, direction: char)

  function Pos(e: Entry): (int, int)
  {
    (e.x, e.y)
  }

  predicate InBounds(p: (int, int))
  {
    0 <= p.0 < MAX_X && 0 <= p.1 < MAX_Y
  }

  /** The position reached by leaving e's position in e's direction. */
  function Step(e: Entry): (r: (int, int))
    requires e.direction in "DRUL"
    ensures (r.0 - e.x) * (r.0 - e.x) + (r.1 - e.y) * (r.1 - e.y) == 1
  {
    match e.direction
    case 'D' => (e.x + 1, e.y)
    case 'R' => (e.x, e.y + 1)
    case 'U' => (e.x - 1, e.y)
    case 'L' => (e.x, e.y - 1)
  }

  /** The stack after push: the new entry on top, the old ones beneath it. */
  function Pushed(stack: seq<Entry>, e: Entry): (r: seq<Entry>)
    ensures |r| == |stack| + 1 && r[0] == e && r[1..] == stack
  {
    [e] + stack
  }

  /**
   * What pop does to the stack and to its two reference arguments, and the
   * pointer it returns (the new top, None for NULL).
   */
  function Popped(stack: seq<Entry>, xx: int, yy: int): (r: (seq<Entry>, int, int, Option<Entry>))
    ensures stack == [] ==> r.0 == [] && r.1 == xx && r.2 == yy
    ensures stack != [] ==> r.0 == stack[1..] && r.1 == stack[0].x && r.2 == stack[0].y
    ensures r.3.None? <==> r.0 == []
    ensures r.3.Some? ==> r.3.value == r.0[0]
  {
    var rest := if stack == [] then [] else stack[1..];
    var top := if rest == [] then None else Some(rest[0]);
    if stack == [] then (rest, xx, yy, top) else (rest, stack[0].x, stack[0].y, top)
  }

  /** LIFO: popping right after a push gives back the pushed position and the old stack. */
  lemma PushPop(stack: seq<Entry>, e: Entry, xx: int, yy: int)
    ensures Popped(Pushed(stack, e), xx, yy).0 == stack
    ensures Popped(Pushed(stack, e), xx, yy).1 == e.x && Popped(Pushed(stack, e), xx, yy).2 == e.y
  {
  }

  /** The program's global state beside the stack: the maze and the success flag. */
  class Board {
    var flag: bool
    const maze: array2<int>

    constructor(maze: array2<int>)
      ensures this.maze == maze && !flag
    {
      this.maze := maze;
      flag := false;
    }

    predicate Valid()
      reads this
    {
      maze.Length0 == MAX_X && maze.Length1 == MAX_Y
    }
  }

  /** A cell with all four neighbours inside the maze. */
  predicate Interior(p: (int, int))
  {
    1 <= p.0 < MAX_X - 1 && 1 <= p.1 < MAX_Y - 1
  }

  /** The cell a pair of rand() results opens in createMaze: x in 1..MAX_X-2, y in 1..MAX_Y-2. */
  function Dig(roll: (nat, nat)): (r: (int, int))
    ensures Interior(r)
  {
    (roll.0 % (MAX_X - 2) + 1, roll.1 % (MAX_Y - 2) + 1)
  }

  /** The cells opened by a sequence of rand() pairs, all of them interior. */
  function Dug(rolls: seq<(nat, nat)>): (r: set<(int, int)>)
    ensures forall p :: p in r ==> Interior(p)
  {
    if rolls == [] then {} else Dug(rolls[..|rolls| - 1]) + {Dig(rolls[|rolls| - 1])}
  }

  /** Dug opens exactly the cells some pair of draws picks. */
  lemma {:induction false} DugMembers(rolls: seq<(nat, nat)>, p: (int, int))
    ensures p in Dug(rolls) <==> exists k :: 0 <= k < |rolls| && Dig(rolls[k]) == p
  {
    if rolls != [] {
      var init := rolls[..|rolls| - 1];
      DugMembers(init, p);
      if p in Dug(init) {
        var k :| 0 <= k < |init| && Dig(init[k]) == p;
        assert rolls[k] == init[k];
      }
      if exists k :: 0 <= k < |rolls| && Dig(rolls[k]) == p {
        var k :| 0 <= k < |rolls| && Dig(rolls[k]) == p;
        if k < |init| {
          assert init[k] == rolls[k];
        }
      }
    }
  }

  /**
   * The value createMaze leaves in cell (i, j): 3 at the entrance (0, 1);
   * open (0) at the start (1, 1), the two exit cells (MAX_X - 2, MAX_Y - 2)
   * and (MAX_X - 1, MAX_Y - 2), and every cell the draws opened; a wall (1)
   * everywhere else.
   */
  function CreatedCell(rolls: seq<(nat, nat)>, i: int, j: int): int
  {
    if (i, j) == (0, 1) then 3
    else if (i, j) == (1, 1) || (i, j) == (MAX_X - 2, MAX_Y - 2) || (i, j) == (MAX_X - 1, MAX_Y - 2) || (i, j) in Dug(rolls) then 0
    else 1
  }

  /** `maze` is what createMaze builds from the draws `rolls`. */
  ghost predicate IsCreated(maze: array2<int>, rolls: seq<(nat, nat)>)
    reads maze
  {
    && maze.Length0 == MAX_X && maze.Length1 == MAX_Y
    && forall i, j :: 0 <= i < MAX_X && 0 <= j < MAX_Y ==> maze[i, j] == CreatedCell(rolls, i, j)
  }

  /** createMaze's first loops: every cell becomes a wall. */
  method FillWalls(maze: array2<int>)
    requires maze.Length0 == MAX_X && maze.Length1 == MAX_Y
    modifies maze
    ensures forall i, j :: 0 <= i < MAX_X && 0 <= j < MAX_Y ==> maze[i, j] == 1
  {
    for x := 0 to MAX_X
      invariant forall i, j :: 0 <= i < x && 0 <= j < MAX_Y ==> maze[i, j] == 1
    {
      for y := 0 to MAX_Y
        invariant forall i, j :: 0 <= i < x && 0 <= j < MAX_Y ==> maze[i, j] == 1
        invariant forall j :: 0 <= j < y ==> maze[x, j] == 1
      {
        maze[x, y] := 1;
      }
    }
  }

  /** createMaze's random loop: each pair of draws opens the cell it picks in a maze of walls. */
  method DigCells(maze: array2<int>, rolls: seq<(nat, nat)>)
    requires maze.Length0 == MAX_X && maze.Length1 == MAX_Y
    requires forall i, j :: 0 <= i < MAX_X && 0 <= j < MAX_Y ==> maze[i, j] == 1
    modifies maze
    ensures forall a, b :: 0 <= a < MAX_X && 0 <= b < MAX_Y ==> maze[a, b] == (if (a, b) in Dug(rolls) then 0 else 1)
  {
    ghost var dug: set<(int, int)> := {};
    for i := 0 to |rolls|
      invariant dug == Dug(rolls[..i])
      invariant forall a, b :: 0 <= a < MAX_X && 0 <= b < MAX_Y ==> maze[a, b] == (if (a, b) in dug then 0 else 1)
    {
      var x := rolls[i].0 % (MAX_X - 2) + 1;
      var y := rolls[i].1 % (MAX_Y - 2) + 1;
      maze[x, y] := 0;
      assert rolls[..i + 1][..i] == rolls[..i];
      dug := dug + {(x, y)};
    }
    assert rolls[..|rolls|] == rolls;
  }

  /** A created maze keeps (MAX_X - 1, MAX_Y - 1), the cell check's exit test looks for, a wall. */
  lemma CreatedExitIsWall(maze: array2<int>, rolls: seq<(nat, nat)>)
    requires IsCreated(maze, rolls)
    ensures !Open(maze, (MAX_X - 1, MAX_Y - 1))
  {
    assert !Interior((MAX_X - 1, MAX_Y - 1));
  }

  /** In a created maze the only open border cell is (MAX_X - 1, MAX_Y - 2). */
  lemma CreatedOnlyOpening(maze: array2<int>, rolls: seq<(nat, nat)>)
    requires IsCreated(maze, rolls)
    ensures OnlyOpening(maze, (MAX_X - 1, MAX_Y - 2))
  {
  }

  /** temp[x][y], or None where that read is outside the array. */
  function At(temp: array2<int>, p: (int, int)): (r: Option<int>)
    reads temp
    requires temp.Length0 == MAX_X && temp.Length1 == MAX_Y
    ensures r.None? <==> !InBounds(p)
  {
    if InBounds(p) then Some(temp[p.0, p.1]) else None
  }

  /** A cell of the maze that is open (0). */
  predicate Open(maze: array2<int>, p: (int, int))
    reads maze
  {
    0 <= p.0 < maze.Length0 && 0 <= p.1 < maze.Length1 && maze[p.0, p.1] == 0
  }

  /**
   * `route` (top first) is a walk starting at `origin`: the bottom entry
   * stands at the origin, each entry stands where the one beneath it led,
   * and every step enters an open cell of the maze.
   */
  ghost predicate IsWalk(maze: array2<int>, route: seq<Entry>, origin: (int, int))
    reads maze
  {
    && (forall k :: 0 <= k < |route| ==> route[k].direction in "DRUL" && Open(maze, Step(route[k])))
    && (route != [] ==> Pos(route[|route| - 1]) == origin)
    && (forall k :: 0 < k < |route| ==> Step(route[k]) == Pos(route[k - 1]))
  }

  /** The walk's current end. */
  function Reached(route: seq<Entry>, origin: (int, int)): (int, int)
    requires forall k :: 0 <= k < |route| ==> route[k].direction in "DRUL"
  {
    if route == [] then origin else Step(route[0])
  }

  /** The local copy `temp` that check works on. */
  method CopyMaze(maze: array2<int>) returns (temp: array2<int>)
    requires maze.Length0 == MAX_X && maze.Length1 == MAX_Y
    ensures fresh(temp) && temp.Length0 == MAX_X && temp.Length1 == MAX_Y
    ensures forall i, j :: 0 <= i < MAX_X && 0 <= j < MAX_Y ==> temp[i, j] == maze[i, j]
  {
    temp := new int[MAX_X, MAX_Y];
    for x := 0 to MAX_X
      invariant forall i, j :: 0 <= i < x && 0 <= j < MAX_Y ==> temp[i, j] == maze[i, j]
    {
      for y := 0 to MAX_Y
        invariant forall i, j :: 0 <= i < x && 0 <= j < MAX_Y ==> temp[i, j] == maze[i, j]
        invariant forall j :: 0 <= j < y ==> temp[x, j] == maze[x, j]
      {
        temp[x, y] := maze[x, y];
      }
    }
  }

  /**
   * What check's walk guarantees at any point: the stack is the walk
   * `route` from `origin` above the older entries `base`, and `entered`
   * lists each entered cell once, all of them open in the maze.
   */
  ghost predicate Settled(maze: array2<int>, stack: seq<Entry>, base: seq<Entry>, route: seq<Entry>, origin: (int, int), entered: seq<(int, int)>)
    reads maze
  {
    && stack == route + base
    && IsWalk(maze, route, origin)
    && (forall i, j :: 0 <= i < j < |entered| ==> entered[i] != entered[j])
    && (forall i :: 0 <= i < |entered| ==> Open(maze, entered[i]))
  }

  /**
   * How temp relates to the maze during check: `zeros` is the set of cells
   * still open in temp, every cell open in temp is open in the maze, and
   * the entered cells are closed in temp.
   */
  ghost predicate Marks(maze: array2<int>, temp: array2<int>, zeros: set<(int, int)>, entered: seq<(int, int)>)
    reads maze, temp
  {
    && maze.Length0 == MAX_X && maze.Length1 == MAX_Y && temp.Length0 == MAX_X && temp.Length1 == MAX_Y && temp != maze
    && (forall i, j :: 0 <= i < MAX_X && 0 <= j < MAX_Y ==> (temp[i, j] == 0 <==> (i, j) in zeros))
    && (forall i, j :: 0 <= i < MAX_X && 0 <= j < MAX_Y && temp[i, j] == 0 ==> maze[i, j] == 0)
    && (forall i :: 0 <= i < |entered| ==> InBounds(entered[i]) && temp[entered[i].0, entered[i].1] != 0)
  }

  /** The state check keeps between two rounds: Marks, Settled, and the walk ends at (x, y). */
  ghost predicate Walking(maze: array2<int>, temp: array2<int>, zeros: set<(int, int)>, stack: seq<Entry>, base: seq<Entry>,
                          route: seq<Entry>, origin: (int, int), entered: seq<(int, int)>, x: int, y: int)
    reads maze, temp
  {
    && Marks(maze, temp, zeros, entered)
    && Settled(maze, stack, base, route, origin, entered)
    && (x, y) == Reached(route, origin)
  }

  /** Every open cell of the maze is interior, except possibly `exit`. */
  ghost predicate OnlyOpening(maze: array2<int>, exit: (int, int))
    reads maze
  {
    forall i, j :: 0 <= i < maze.Length0 && 0 <= j < maze.Length1 && maze[i, j] == 0 ==> Interior((i, j)) || (i, j) == exit
  }

  /**
   * In a maze whose border is closed but for `exit`, a walk from an interior
   * cell stays interior: its current end and every cell it left.
   */
  ghost predicate Fenced(maze: array2<int>, exit: (int, int), base: seq<Entry>, route: seq<Entry>, origin: (int, int), x: int, y: int)
    reads maze
  {
    OnlyOpening(maze, exit) && base == [] && Interior(origin) ==>
      Interior((x, y)) && forall k :: 0 <= k < |route| ==> Interior(Pos(route[k]))
  }

  /** temp[x][y] = 2: the current cell is closed. */
  method Close(maze: array2<int>, temp: array2<int>, ghost zeros: set<(int, int)>, ghost stack: seq<Entry>, ghost base: seq<Entry>,
               ghost route: seq<Entry>, ghost origin: (int, int), ghost entered: seq<(int, int)>, x: int, y: int)
    returns (ghost zeros': set<(int, int)>)
    requires Walking(maze, temp, zeros, stack, base, route, origin, entered, x, y) && InBounds((x, y))
    modifies temp
    ensures Walking(maze, temp, zeros', stack, base, route, origin, entered, x, y)
    ensures zeros' == zeros - {(x, y)} && |zeros'| <= |zeros| && temp[x, y] == 2
    ensures forall i, j :: 0 <= i < MAX_X && 0 <= j < MAX_Y && (i, j) != (x, y) ==> temp[i, j] == old(temp[i, j])
  {
    temp[x, y] := 2;
    zeros' := zeros - {(x, y)};
  }

  /**
   * One forward move: push the current cell with direction d, mark it with
   * `mark`, and enter the open neighbour in that direction, marking it 7.
   */
  method Advance(maze: array2<int>, temp: array2<int>, s: RouteStack, ghost zeros: set<(int, int)>, ghost base: seq<Entry>,
                 ghost route: seq<Entry>, ghost origin: (int, int), ghost entered: seq<(int, int)>, x: int, y: int, d: char, mark: int)
    returns (x': int, y': int, ghost zeros': set<(int, int)>, ghost route': seq<Entry>, ghost entered': seq<(int, int)>)
    requires Walking(maze, temp, zeros, s.entries, base, route, origin, entered, x, y)
    requires InBounds((x, y)) && d in "DRUL" && mark != 0
    requires InBounds(Step(Entry(x, y, d))) && temp[Step(Entry(x, y, d)).0, Step(Entry(x, y, d)).1] == 0
    modifies temp, s
    ensures (x', y') == Step(Entry(x, y, d))
    ensures s.entries == Pushed(old(s.entries), Entry(x, y, d)) && route' == Pushed(route, Entry(x, y, d))
    ensures Walking(maze, temp, zeros', s.entries, base, route', origin, entered', x', y')
    ensures entered' == entered + [(x', y')] && zeros' == zeros - {(x, y), (x', y')} && |zeros'| < |zeros|
    ensures temp[x, y] == mark && temp[x', y'] == 7
    ensures forall i, j :: 0 <= i < MAX_X && 0 <= j < MAX_Y && (i, j) != (x, y) && (i, j) != (x', y') ==> temp[i, j] == old(temp[i, j])
  {
    var e := Entry(x, y, d);
    x', y' := Step(e).0, Step(e).1;
    ghost var stack := s.entries;
    s.Push(x, y, d);
    route' := [e] + route;
    entered' := entered + [(x', y')];
    zeros' := MarkStep(maze, temp, zeros, entered, x, y, mark, x', y');
    WalkExtends(maze, stack, base, route, origin, entered, e);
  }

  /** temp[x][y] = mark and temp[tx][ty] = 7: the cell left and the cell entered are closed. */
  method MarkStep(maze: array2<int>, temp: array2<int>, ghost zeros: set<(int, int)>, ghost entered: seq<(int, int)>,
                  x: int, y: int, mark: int, tx: int, ty: int)
    returns (ghost zeros': set<(int, int)>)
    requires Marks(maze, temp, zeros, entered) && InBounds((x, y)) && InBounds((tx, ty)) && (x, y) != (tx, ty)
    requires mark != 0 && temp[tx, ty] == 0
    modifies temp
    ensures Marks(maze, temp, zeros', entered + [(tx, ty)]) && zeros' == zeros - {(x, y), (tx, ty)} && |zeros'| < |zeros|
    ensures (tx, ty) !in entered && Open(maze, (tx, ty))
    ensures temp[x, y] == mark && temp[tx, ty] == 7
    ensures forall i, j :: 0 <= i < MAX_X && 0 <= j < MAX_Y && (i, j) != (x, y) && (i, j) != (tx, ty) ==> temp[i, j] == old(temp[i, j])
  {
    temp[x, y] := mark;
    temp[tx, ty] := 7;
    zeros' := zeros - {(x, y), (tx, ty)};
  }

  /** Pushing e, which leaves the walk's end for an open cell not entered before, extends the walk. */
  lemma WalkExtends(maze: array2<int>, stack: seq<Entry>, base: seq<Entry>, route: seq<Entry>, origin: (int, int),
                    entered: seq<(int, int)>, e: Entry)
    requires Settled(maze, stack, base, route, origin, entered) && Pos(e) == Reached(route, origin)
    requires e.direction in "DRUL" && Open(maze, Step(e)) && Step(e) !in entered
    ensures Settled(maze, [e] + stack, base, [e] + route, origin, entered + [Step(e)])
    ensures Reached([e] + route, origin) == Step(e)
  {
    var route' := [e] + route;
    assert forall k :: 0 < k < |route'| ==> route'[k] == route[k - 1];
  }

  /** All four neighbours of (x, y) lie inside temp and are closed. */
  predicate Blocked(temp: array2<int>, x: int, y: int)
    reads temp
    requires temp.Length0 == MAX_X && temp.Length1 == MAX_Y
  {
    && Reading(temp, (x + 1, y)) == Some(false) && Reading(temp, (x, y + 1)) == Some(false)
    && Reading(temp, (x - 1, y)) == Some(false) && Reading(temp, (x, y - 1)) == Some(false)
  }

  /**
   * What the direction tests of one pass decide: move in a direction, find
   * every neighbour closed, or read outside the array first.
   */
  datatype Choice = Go(direction: char) | NoneOpen | ReadsOutside

  /**
   * Tests `readings` in order, each None for a read outside the array or
   * Some(whether the cell is open): the first open one picks its direction
   * in `dirs`, and a read outside the array before it picks ReadsOutside.
   */
  function Pick(readings: seq<Option<bool>>, dirs: string): (r: Choice)
    requires |readings| == |dirs|
    ensures forall i :: 0 <= i < |readings| && readings[i] != Some(false) && (forall j :: 0 <= j < i ==> readings[j] == Some(false)) ==>
              r == (if readings[i].None? then ReadsOutside else Go(dirs[i]))
    ensures r == NoneOpen <==> forall j :: 0 <= j < |readings| ==> readings[j] == Some(false)
    ensures r.Go? ==> exists i :: 0 <= i < |readings| && readings[i] == Some(true) && dirs[i] == r.direction
    ensures r == ReadsOutside ==> exists i :: 0 <= i < |readings| && readings[i].None?
  {
    if readings == [] then NoneOpen
    else if readings[0].None? then ReadsOutside
    else if readings[0].value then Go(dirs[0])
    else
      var r := Pick(readings[1..], dirs[1..]);
      assert forall i :: 1 <= i < |readings| ==> readings[1..][i - 1] == readings[i] && dirs[1..][i - 1] == dirs[i];
      r
  }

  /** What a direction test reads from temp at p. */
  function Reading(temp: array2<int>, p: (int, int)): Option<bool>
    reads temp
    requires temp.Length0 == MAX_X && temp.Length1 == MAX_Y
  {
    if InBounds(p) then Some(temp[p.0, p.1] == 0) else None
  }

  /**
   * The four direction tests in the program's order, Down, Right, Up and
   * Left, each reading None outside the array or whether the cell is open.
   */
  function FirstOf(down: Option<bool>, right: Option<bool>, up: Option<bool>, left: Option<bool>): Choice
  {
    if down.None? then ReadsOutside else if down.value then Go('D') else
    if right.None? then ReadsOutside else if right.value then Go('R') else
    if up.None? then ReadsOutside else if up.value then Go('U') else
    if left.None? then ReadsOutside else if left.value then Go('L') else
    NoneOpen
  }

  /** The program's four tests pick as Pick does over "DRUL". */
  lemma FirstOfPicks(down: Option<bool>, right: Option<bool>, up: Option<bool>, left: Option<bool>)
    ensures FirstOf(down, right, up, left) == Pick([down, right, up, left], "DRUL")
  {
    assert [down, right, up, left][1..] == [right, up, left] && "DRUL"[1..] == "RUL";
    assert [right, up, left][1..] == [up, left] && "RUL"[1..] == "UL";
    assert [up, left][1..] == [left] && "UL"[1..] == "L";
    assert [left][1..] == [] && "L"[1..] == [];
    assert Pick([left], "L") == FirstOf(Some(false), Some(false), Some(false), left);
    assert Pick([up, left], "UL") == FirstOf(Some(false), Some(false), up, left);
    assert Pick([right, up, left], "RUL") == FirstOf(Some(false), right, up, left);
  }

  /**
   * The direction tests of one pass at (x, y): Down, Right, Up and Left,
   * reading temp[x + 1][y], temp[x][y + 1], temp[x - 1][y] and temp[x][y - 1].
   */
  function FirstOpen(temp: array2<int>, x: int, y: int): (r: Choice)
    reads temp
    requires temp.Length0 == MAX_X && temp.Length1 == MAX_Y
    ensures r.Go? ==> r.direction in "DRUL" && At(temp, Step(Entry(x, y, r.direction))) == Some(0)
    ensures r == NoneOpen <==> Blocked(temp, x, y)
    ensures r == ReadsOutside ==> !Interior((x, y))
  {
    FirstOf(Reading(temp, (x + 1, y)), Reading(temp, (x, y + 1)), Reading(temp, (x - 1, y)), Reading(temp, (x, y - 1)))
  }

  /** The mark a cell gets when the walk leaves it: 3 Down, 4 Right, 6 Up, 5 Left. */
  function DirMark(d: char): int
  {
    match d
    case 'D' => 3
    case 'R' => 4
    case 'U' => 6
    case _ => 5
  }

  /** The open cells of the maze. */
  ghost function OpenCells(maze: array2<int>): (r: set<(int, int)>)
    reads maze
    requires maze.Length0 == MAX_X && maze.Length1 == MAX_Y
    ensures forall p :: p in r <==> Open(maze, p)
  {
    set i, j | 0 <= i < MAX_X && 0 <= j < MAX_Y && maze[i, j] == 0 :: (i, j)
  }

  /** A cell the walk may still enter: one of the open `cells`, and neither in `visited` nor the origin. */
  predicate Free(cells: set<(int, int)>, visited: seq<(int, int)>, origin: (int, int), p: (int, int))
  {
    p in cells && p !in visited && p != origin
  }

  function FreeReading(cells: set<(int, int)>, visited: seq<(int, int)>, origin: (int, int), p: (int, int)): Option<bool>
  {
    if InBounds(p) then Some(Free(cells, visited, origin, p)) else None
  }

  /**
   * The direction tests of one pass at (x, y) in terms of the maze, whose
   * open cells are `cells`: the first of Down, Right, Up and Left whose
   * neighbour is free, reading outside the maze first where the program does.
   */
  function FirstFree(cells: set<(int, int)>, visited: seq<(int, int)>, origin: (int, int), x: int, y: int): (r: Choice)
    ensures r.Go? ==> r.direction in "DRUL" && Free(cells, visited, origin, Step(Entry(x, y, r.direction)))
  {
    FirstOf(FreeReading(cells, visited, origin, (x + 1, y)), FreeReading(cells, visited, origin, (x, y + 1)),
            FreeReading(cells, visited, origin, (x - 1, y)), FreeReading(cells, visited, origin, (x, y - 1)))
  }

  /**
   * Away from the current cell (x, y), the cells open in temp are exactly
   * those the walk may still enter.
   */
  ghost predicate Tracks(cells: set<(int, int)>, zeros: set<(int, int)>, entered: seq<(int, int)>, origin: (int, int), x: int, y: int)
  {
    forall p :: p != (x, y) ==> (p in zeros <==> Free(cells, entered, origin, p))
  }

  /**
   * Every step of the walk `route` was, when it was taken, the first of
   * Down, Right, Up and Left leading to a cell that was free then:
   * stamps[k] is how many cells had been entered before step k, and step k
   * entered cell entered[stamps[k]].
   */
  ghost predicate Ordered(cells: set<(int, int)>, route: seq<Entry>, stamps: seq<nat>, entered: seq<(int, int)>, origin: (int, int))
  {
    |stamps| == |route| && forall k :: 0 <= k < |route| ==> Chosen(cells, route[k], stamps[k], entered, origin)
  }

  /** Step e entered cell entered[stamp], and was the first free one from e's cell once stamp cells had been entered. */
  ghost predicate Chosen(cells: set<(int, int)>, e: Entry, stamp: nat, entered: seq<(int, int)>, origin: (int, int))
  {
    && stamp < |entered| && e.direction in "DRUL" && entered[stamp] == Step(e)
    && FirstFree(cells, entered[..stamp], origin, e.x, e.y) == Go(e.direction)
  }

  /** Entering more cells keeps a step Chosen. */
  lemma ChosenKept(cells: set<(int, int)>, e: Entry, stamp: nat, entered: seq<(int, int)>, origin: (int, int), c: (int, int))
    requires Chosen(cells, e, stamp, entered, origin)
    ensures Chosen(cells, e, stamp, entered + [c], origin)
  {
    assert (entered + [c])[..stamp] == entered[..stamp];
  }

  /** With Tracks, the tests on temp decide as the tests on the maze do. */
  lemma FirstOpenIsFree(maze: array2<int>, temp: array2<int>, cells: set<(int, int)>, zeros: set<(int, int)>, entered: seq<(int, int)>,
                         origin: (int, int), x: int, y: int)
    requires Marks(maze, temp, zeros, entered) && Tracks(cells, zeros, entered, origin, x, y)
    ensures FirstOpen(temp, x, y) == FirstFree(cells, entered, origin, x, y)
  {
    NeighbourReading(maze, temp, cells, zeros, entered, origin, x, y, (x + 1, y));
    NeighbourReading(maze, temp, cells, zeros, entered, origin, x, y, (x, y + 1));
    NeighbourReading(maze, temp, cells, zeros, entered, origin, x, y, (x - 1, y));
    NeighbourReading(maze, temp, cells, zeros, entered, origin, x, y, (x, y - 1));
  }

  lemma NeighbourReading(maze: array2<int>, temp: array2<int>, cells: set<(int, int)>, zeros: set<(int, int)>, entered: seq<(int, int)>, origin: (int, int),
                         x: int, y: int, p: (int, int))
    requires Marks(maze, temp, zeros, entered) && Tracks(cells, zeros, entered, origin, x, y) && p != (x, y)
    ensures Reading(temp, p) == FreeReading(cells, entered, origin, p)
  {
    if InBounds(p) {
      assert temp[p.0, p.1] == 0 <==> p in zeros;
    }
  }

  /** Closing the current cell keeps Tracks. */
  lemma TracksClose(cells: set<(int, int)>, zeros: set<(int, int)>, entered: seq<(int, int)>, origin: (int, int), x: int, y: int)
    requires Tracks(cells, zeros, entered, origin, x, y)
    ensures Tracks(cells, zeros - {(x, y)}, entered, origin, x, y)
  {
  }

  /**
   * Leaving a closed current cell that is the origin or was entered, for
   * (tx, ty), or (with no cell entered) for any cell, keeps Tracks.
   */
  lemma TracksMove(cells: set<(int, int)>, zeros: set<(int, int)>, entered: seq<(int, int)>, origin: (int, int), x: int, y: int,
                   zeros': set<(int, int)>, entered': seq<(int, int)>, tx: int, ty: int)
    requires Tracks(cells, zeros, entered, origin, x, y) && (x, y) !in zeros && ((x, y) == origin || (x, y) in entered)
    requires (zeros', entered') == (zeros, entered) || (zeros', entered') == (zeros - {(x, y), (tx, ty)}, entered + [(tx, ty)])
    ensures Tracks(cells, zeros', entered', origin, tx, ty)
  {
    forall p | p != (tx, ty)
      ensures p in zeros' <==> Free(cells, entered', origin, p)
    {
      if p == (x, y) {
        assert p == origin || p in entered';
      }
    }
  }

  /** A step chosen by the tests on the maze extends Ordered. */
  lemma OrderedPush(cells: set<(int, int)>, route: seq<Entry>, stamps: seq<nat>, entered: seq<(int, int)>, origin: (int, int), e: Entry)
    requires Ordered(cells, route, stamps, entered, origin)
    requires e.direction in "DRUL" && FirstFree(cells, entered, origin, e.x, e.y) == Go(e.direction)
    ensures Ordered(cells, [e] + route, [|entered|] + stamps, entered + [Step(e)], origin)
  {
    var entered' := entered + [Step(e)];
    assert entered'[..|entered|] == entered;
    forall k | 0 <= k < |route|
      ensures Chosen(cells, route[k], stamps[k], entered', origin)
    {
      ChosenKept(cells, route[k], stamps[k], entered, origin, Step(e));
    }
    assert Chosen(cells, e, |entered|, entered', origin);
    assert forall k :: 0 < k < |route| + 1 ==> ([e] + route)[k] == route[k - 1] && ([|entered|] + stamps)[k] == stamps[k - 1];
  }

  /** The end of an Ordered walk is its origin or a cell it entered. */
  lemma ReachedEntered(cells: set<(int, int)>, route: seq<Entry>, stamps: seq<nat>, entered: seq<(int, int)>, origin: (int, int))
    requires Ordered(cells, route, stamps, entered, origin)
    ensures Reached(route, origin) == origin || Reached(route, origin) in entered
  {
    if route != [] {
      assert Chosen(cells, route[0], stamps[0], entered, origin);
    }
  }

  /** Popping the top step keeps Ordered. */
  lemma OrderedPop(cells: set<(int, int)>, route: seq<Entry>, stamps: seq<nat>, entered: seq<(int, int)>, origin: (int, int))
    requires Ordered(cells, route, stamps, entered, origin)
    ensures Ordered(cells, if route != [] then route[1..] else [], if stamps != [] then stamps[1..] else [], entered, origin)
  {
    if route != [] {
      assert forall k :: 0 <= k < |route| - 1 ==> route[1..][k] == route[k + 1] && stamps[1..][k] == stamps[k + 1];
    }
  }

  /** A pass at the opened border cell (MAX_X - 1, MAX_Y - 2) first reads temp[MAX_X][MAX_Y - 2], outside the array. */
  lemma OpenedExitReadsOutside(temp: array2<int>)
    requires temp.Length0 == MAX_X && temp.Length1 == MAX_Y
    ensures FirstOpen(temp, MAX_X - 1, MAX_Y - 2) == ReadsOutside
  {
  }

  /**
   * The direction tests of one pass: the choice is FirstOpen of temp; on
   * Go(d) the current cell is pushed with d and marked DirMark(d), and the
   * neighbour in direction d is entered and marked 7; otherwise nothing
   * changes.
   */
  method Forward(maze: array2<int>, temp: array2<int>, s: RouteStack, ghost zeros: set<(int, int)>, ghost base: seq<Entry>,
                 ghost route: seq<Entry>, ghost origin: (int, int), ghost entered: seq<(int, int)>, x: int, y: int)
    returns (x': int, y': int, choice: Choice, ghost zeros': set<(int, int)>, ghost route': seq<Entry>, ghost entered': seq<(int, int)>)
    requires Walking(maze, temp, zeros, s.entries, base, route, origin, entered, x, y) && InBounds((x, y))
    modifies temp, s
    ensures choice == old(FirstOpen(temp, x, y))
    ensures choice == NoneOpen ==> Blocked(temp, x, y)
    ensures choice == ReadsOutside ==> !Interior((x, y))
    ensures Walking(maze, temp, zeros', s.entries, base, route', origin, entered', x', y')
    ensures !choice.Go? ==> x' == x && y' == y && zeros' == zeros && route' == route && entered' == entered
    ensures !choice.Go? ==> unchanged(temp) && s.entries == old(s.entries)
    ensures choice.Go? ==> (x', y') == Step(Entry(x, y, choice.direction)) && route' == Pushed(route, Entry(x, y, choice.direction))
    ensures choice.Go? ==> s.entries == Pushed(old(s.entries), Entry(x, y, choice.direction))
    ensures choice.Go? ==> entered' == entered + [(x', y')] && zeros' == zeros - {(x, y), (x', y')} && |zeros'| < |zeros|
    ensures choice.Go? ==> temp[x, y] == DirMark(choice.direction) && temp[x', y'] == 7
    ensures choice.Go? ==> forall i, j :: 0 <= i < MAX_X && 0 <= j < MAX_Y && (i, j) != (x, y) && (i, j) != (x', y') ==> temp[i, j] == old(temp[i, j])
  {
    x', y', zeros', route', entered' := x, y, zeros, route, entered;
    choice := FirstOpen(temp, x, y);
    if choice.Go? {
      var d := choice.direction;
      x', y', zeros', route', entered' := Advance(maze, temp, s, zeros, base, route, origin, entered, x, y, d, DirMark(d));
    }
  }

  /** Before the first round the walk is empty and every cell open in temp is in `zeros`. */
  lemma StartWalk(maze: array2<int>, temp: array2<int>, stack: seq<Entry>) returns (zeros: set<(int, int)>)
    requires maze.Length0 == MAX_X && maze.Length1 == MAX_Y && temp.Length0 == MAX_X && temp.Length1 == MAX_Y && temp != maze
    requires forall i, j :: 0 <= i < MAX_X && 0 <= j < MAX_Y ==> temp[i, j] == maze[i, j]
    ensures Walking(maze, temp, zeros, stack, stack, [], (1, 1), [], 1, 1)
    ensures Tracks(OpenCells(maze), zeros, [], (1, 1), 1, 1)
  {
    zeros := set i, j | 0 <= i < MAX_X && 0 <= j < MAX_Y && temp[i, j] == 0 :: (i, j);
  }

  /**
   * The test after a pop that returned NULL, read left to right with
   * short-circuit: None where it reads outside temp before meeting an open
   * neighbour, otherwise whether all four neighbours are closed.
   */
  function AllClosed(temp: array2<int>, x: int, y: int): (r: Option<bool>)
    reads temp
    requires temp.Length0 == MAX_X && temp.Length1 == MAX_Y
    ensures r == Some(true) <==> Blocked(temp, x, y)
  {
    var up := At(temp, (x - 1, y));
    if up.None? then None else if up.value == 0 then Some(false) else
    var left := At(temp, (x, y - 1));
    if left.None? then None else if left.value == 0 then Some(false) else
    var down := At(temp, (x + 1, y));
    if down.None? then None else if down.value == 0 then Some(false) else
    var right := At(temp, (x, y + 1));
    if right.None? then None else Some(right.value != 0)
  }

  /**
   * Backtracking: pop the top entry into (x, y). The walk loses its top
   * step, or, once it is empty, starts over from the older entry popped.
   */
  method Retreat(maze: array2<int>, temp: array2<int>, s: RouteStack, exit: (int, int), ghost zeros: set<(int, int)>, ghost base: seq<Entry>,
                 ghost route: seq<Entry>, ghost origin: (int, int), ghost entered: seq<(int, int)>, x: int, y: int)
    returns (x': int, y': int, head: Option<Entry>, ghost base': seq<Entry>, ghost route': seq<Entry>, ghost origin': (int, int))
    requires Walking(maze, temp, zeros, s.entries, base, route, origin, entered, x, y)
    requires Fenced(maze, exit, base, route, origin, x, y)
    modifies s
    ensures (s.entries, x', y', head) == Popped(old(s.entries), x, y)
    ensures Walking(maze, temp, zeros, s.entries, base', route', origin', entered, x', y')
    ensures Fenced(maze, exit, base', route', origin', x', y')
    ensures route != [] ==> base' == base && origin' == origin && route' == route[1..]
    ensures route == [] ==> route' == [] && base' == (if base == [] then [] else base[1..])
    ensures base == [] ==> origin' == origin
  {
    route', base', origin' := route, base, origin;
    if route != [] {
      route' := route[1..];
    } else if base != [] {
      origin' := Pos(base[0]);
      base' := base[1..];
    }
    x', y', head := s.Pop(x, y);
  }

  datatype Outcome =
    | Found       // the exit was reached; flag is set
    | NoRoute     // the walk backtracked past its start
    | OutOfRange  // the program would read or write temp outside its bounds

  class RouteStack {
    /** The linked nodes from head to tail. */
    var entries: seq<Entry>

    constructor()
      ensures entries == []
    {
      entries := [];
    }

    method Push(xx: int, yy: int, ddirection: char)
      modifies this
      ensures entries == Pushed(old(entries), Entry(xx, yy, ddirection))
    {
      entries := [Entry(xx, yy, ddirection)] + entries;
    }

    /** pop(xx, yy): the reference arguments come in as xx, yy and go out as x', y'. */
    method Pop(xx: int, yy: int) returns (x': int, y': int, head: Option<Entry>)
      modifies this
      ensures (entries, x', y', head) == Popped(old(entries), xx, yy)
    {
      x', y' := xx, yy;
      if entries != [] {
        x', y' := entries[0].x, entries[0].y;
        entries := entries[1..];
      }
      head := if entries == [] then None else Some(entries[0]);
    }

    /**
     * createMaze: fill the maze with walls, open the cell each pair of
     * draws picks (MAX_X * MAX_Y pairs), then open the start and the exit
     * cells and mark the entrance with 3. `rolls` stands for the rand()
     * results, x first.
     */
    method CreateMaze(board: Board, rolls: seq<(nat, nat)>)
      requires board.Valid() && |rolls| == MAX_X * MAX_Y
      modifies board.maze
      ensures IsCreated(board.maze, rolls)
    {
      var maze := board.maze;
      FillWalls(maze);
      DigCells(maze, rolls);
      maze[1, 1] := 0;
      maze[MAX_X - 2, MAX_Y - 2] := 0;
      maze[0, 1] := 3;
      maze[MAX_X - 1, MAX_Y - 2] := 0;
    }

    /**
     * check(s): walk from (1, 1) over a copy of the maze, trying Down,
     * Right, Up and Left in that order, pushing the cell left on `s` and
     * backtracking with pop when no neighbour is open, until the walk
     * reaches (MAX_X - 1, MAX_Y - 1).
     *
     * The ghost results describe the walk: the entries it pushed that are
     * still on `s` (`route`, from `origin`), the older entries beneath them
     * (`base`), every cell it entered (`entered`, in order) and, for each
     * step of `route`, how many cells had been entered before it
     * (`stamps`). Started on an empty stack, every step of the route is
     * Ordered: the first of Down, Right, Up and Left that led to an open,
     * not yet entered cell when it was taken.
     */
    method Check(board: Board, s: RouteStack)
      returns (outcome: Outcome, ghost route: seq<Entry>, ghost origin: (int, int), ghost base: seq<Entry>, ghost entered: seq<(int, int)>,
               ghost stamps: seq<nat>)
      requires board.Valid()
      modifies board, s
      ensures unchanged(board.maze)
      ensures board.flag == (old(board.flag) || outcome == Found)
      ensures s.entries == route + base && IsWalk(board.maze, route, origin)
      ensures old(s.entries) == [] ==> origin == (1, 1) && base == [] && Ordered(OpenCells(board.maze), route, stamps, entered, origin)
      ensures outcome == Found ==> route != [] && Reached(route, origin) == (MAX_X - 1, MAX_Y - 1)
      ensures outcome == Found ==> Open(board.maze, (MAX_X - 1, MAX_Y - 1))
      ensures outcome == NoRoute ==> s.entries == []
      ensures forall i, j :: 0 <= i < j < |entered| ==> entered[i] != entered[j]
      ensures forall i :: 0 <= i < |entered| ==> Open(board.maze, entered[i])
    {
      outcome, route, origin, base, entered, stamps := Search(board, s, (MAX_X - 1, MAX_Y - 1));
    }

    /**
     * check with the exit test at (MAX_X - 1, MAX_Y - 2), the border cell
     * createMaze opens: on a maze whose only open border cell is that one,
     * the search never reads outside temp.
     */
    method CheckToExit(board: Board, s: RouteStack)
      returns (outcome: Outcome, ghost route: seq<Entry>, ghost origin: (int, int), ghost base: seq<Entry>, ghost entered: seq<(int, int)>,
               ghost stamps: seq<nat>)
      requires board.Valid()
      modifies board, s
      ensures unchanged(board.maze)
      ensures board.flag == (old(board.flag) || outcome == Found)
      ensures s.entries == route + base && IsWalk(board.maze, route, origin)
      ensures old(s.entries) == [] ==> origin == (1, 1) && base == [] && Ordered(OpenCells(board.maze), route, stamps, entered, origin)
      ensures outcome == Found ==> route != [] && Reached(route, origin) == (MAX_X - 1, MAX_Y - 2)
      ensures outcome == NoRoute ==> s.entries == []
      ensures OnlyOpening(board.maze, (MAX_X - 1, MAX_Y - 2)) && old(s.entries) == [] ==> outcome != OutOfRange
    {
      outcome, route, origin, base, entered, stamps := Search(board, s, (MAX_X - 1, MAX_Y - 2));
    }
  }

  /** check's loop, with the cell whose entry ends the search as a parameter. */
  method Search(board: Board, s: RouteStack, exit: (int, int))
    returns (outcome: Outcome, ghost route: seq<Entry>, ghost origin: (int, int), ghost base: seq<Entry>, ghost entered: seq<(int, int)>,
             ghost stamps: seq<nat>)
    requires board.Valid()
    modifies board, s
    ensures unchanged(board.maze)
    ensures board.flag == (old(board.flag) || outcome == Found)
    ensures Settled(board.maze, s.entries, base, route, origin, entered)
    ensures old(s.entries) == [] ==> origin == (1, 1) && base == [] && Ordered(OpenCells(board.maze), route, stamps, entered, origin)
    ensures outcome == Found ==> route != [] && Reached(route, origin) == exit
    ensures outcome == NoRoute ==> s.entries == []
    ensures OnlyOpening(board.maze, exit) && old(s.entries) == [] ==> outcome != OutOfRange
  {
    var maze := board.maze;
    var temp := CopyMaze(maze);
    var x, y := 1, 1;
    ghost var zeros := StartWalk(maze, temp, s.entries);
    ghost var cells := OpenCells(maze);
    route, origin, base, entered, stamps := [], (1, 1), s.entries, [], [];
    while true
      invariant board.Valid() && board.maze == maze && board.flag == old(board.flag)
      invariant Walking(maze, temp, zeros, s.entries, base, route, origin, entered, x, y)
      invariant Fenced(maze, exit, base, route, origin, x, y)
      invariant old(s.entries) == [] ==> origin == (1, 1) && base == []
      invariant old(s.entries) == [] ==> Ordered(cells, route, stamps, entered, origin) && Tracks(cells, zeros, entered, origin, x, y)
      decreases |zeros|, |s.entries|
    {
      var stop;
      x, y, stop, zeros, base, route, origin, entered, stamps := Round(maze, temp, s, exit, cells, zeros, base, route, origin, entered, stamps, old(s.entries) == [], x, y);
      if stop.Some? {
        if stop.value == Found {
          board.flag := true;
        }
        return stop.value, route, origin, base, entered, stamps;
      }
    }
  }

  /**
   * One pass of check's loop from (x, y): close the cell, then Explore.
   * `stop` is the outcome when the pass ends the search, None when the loop
   * goes on.
   */
  method Round(maze: array2<int>, temp: array2<int>, s: RouteStack, exit: (int, int), ghost cells: set<(int, int)>, ghost zeros: set<(int, int)>, ghost base: seq<Entry>,
               ghost route: seq<Entry>, ghost origin: (int, int), ghost entered: seq<(int, int)>, ghost stamps: seq<nat>, ghost tracking: bool,
               x: int, y: int)
    returns (x': int, y': int, stop: Option<Outcome>, ghost zeros': set<(int, int)>, ghost base': seq<Entry>,
             ghost route': seq<Entry>, ghost origin': (int, int), ghost entered': seq<(int, int)>, ghost stamps': seq<nat>)
    requires Walking(maze, temp, zeros, s.entries, base, route, origin, entered, x, y)
    requires Fenced(maze, exit, base, route, origin, x, y)
    requires tracking ==> base == [] && Ordered(cells, route, stamps, entered, origin) && Tracks(cells, zeros, entered, origin, x, y)
    modifies temp, s
    ensures Settled(maze, s.entries, base', route', origin', entered')
    ensures base == [] ==> base' == [] && origin' == origin
    ensures tracking ==> Ordered(cells, route', stamps', entered', origin')
    ensures stop.None? ==> Walking(maze, temp, zeros', s.entries, base', route', origin', entered', x', y')
    ensures stop.None? ==> Fenced(maze, exit, base', route', origin', x', y')
    ensures stop.None? && tracking ==> Tracks(cells, zeros', entered', origin', x', y')
    ensures stop.None? ==> |zeros'| < |zeros| || (|zeros'| == |zeros| && |s.entries| < |old(s.entries)|)
    ensures stop == Some(Found) ==> route' != [] && Reached(route', origin') == exit
    ensures stop == Some(NoRoute) ==> s.entries == []
    ensures OnlyOpening(maze, exit) && base == [] && Interior(origin) ==> stop != Some(OutOfRange)
  {
    if !InBounds((x, y)) {
      return x, y, Some(OutOfRange), zeros, base, route, origin, entered, stamps;
    }
    ghost var closed := Close(maze, temp, zeros, s.entries, base, route, origin, entered, x, y);
    if tracking {
      TracksClose(cells, zeros, entered, origin, x, y);
      FirstOpenIsFree(maze, temp, cells, closed, entered, origin, x, y);
    }
    var choice;
    x', y', stop, zeros', base', route', origin', entered', choice := Explore(maze, temp, s, exit, closed, base, route, origin, entered, x, y);
    stamps' := stamps;
    if tracking {
      stamps' := PassOrdered(cells, closed, route, stamps, entered, origin, x, y, choice, zeros', route', entered', x', y');
    }
  }

  /**
   * How a pass that chose `choice` at (x, y) keeps Ordered and Tracks; the
   * result is the new stamps.
   */
  lemma PassOrdered(cells: set<(int, int)>, zeros: set<(int, int)>, route: seq<Entry>, stamps: seq<nat>, entered: seq<(int, int)>, origin: (int, int),
                    x: int, y: int, choice: Choice, zeros': set<(int, int)>, route': seq<Entry>, entered': seq<(int, int)>, x': int, y': int)
    returns (stamps': seq<nat>)
    requires Ordered(cells, route, stamps, entered, origin) && Tracks(cells, zeros, entered, origin, x, y)
    requires (x, y) !in zeros && (x, y) == Reached(route, origin)
    requires choice == FirstFree(cells, entered, origin, x, y)
    requires choice.Go? ==> route' == Pushed(route, Entry(x, y, choice.direction)) && (x', y') == Step(Entry(x, y, choice.direction))
    requires choice.Go? ==> entered' == entered + [(x', y')] && zeros' == zeros - {(x, y), (x', y')}
    requires !choice.Go? ==> entered' == entered && zeros' == zeros
    requires choice == NoneOpen ==> route' == (if route != [] then route[1..] else [])
    requires choice == ReadsOutside ==> route' == route
    ensures Ordered(cells, route', stamps', entered', origin)
    ensures choice != ReadsOutside ==> Tracks(cells, zeros', entered', origin, x', y')
  {
    ReachedEntered(cells, route, stamps, entered, origin);
    stamps' := stamps;
    if choice.Go? {
      stamps' := [|entered|] + stamps;
      OrderedPush(cells, route, stamps, entered, origin, Entry(x, y, choice.direction));
      TracksMove(cells, zeros, entered, origin, x, y, zeros', entered', x', y');
    } else if choice == NoneOpen {
      stamps' := if stamps != [] then stamps[1..] else [];
      OrderedPop(cells, route, stamps, entered, origin);
      TracksMove(cells, zeros, entered, origin, x, y, zeros', entered', x', y');
    }
  }

  /**
   * The rest of a pass once (x, y) is closed: the direction tests, and
   * backtracking when none of them moves. `choice` is what the tests chose.
   */
  method Explore(maze: array2<int>, temp: array2<int>, s: RouteStack, exit: (int, int), ghost zeros: set<(int, int)>, ghost base: seq<Entry>,
                 ghost route: seq<Entry>, ghost origin: (int, int), ghost entered: seq<(int, int)>, x: int, y: int)
    returns (x': int, y': int, stop: Option<Outcome>, ghost zeros': set<(int, int)>, ghost base': seq<Entry>,
             ghost route': seq<Entry>, ghost origin': (int, int), ghost entered': seq<(int, int)>, choice: Choice)
    requires Walking(maze, temp, zeros, s.entries, base, route, origin, entered, x, y) && InBounds((x, y))
    requires Fenced(maze, exit, base, route, origin, x, y)
    modifies temp, s
    ensures choice == old(FirstOpen(temp, x, y))
    ensures choice.Go? ==> route' == Pushed(route, Entry(x, y, choice.direction)) && (x', y') == Step(Entry(x, y, choice.direction))
    ensures choice.Go? ==> entered' == entered + [(x', y')] && zeros' == zeros - {(x, y), (x', y')} && |zeros'| < |zeros|
    ensures !choice.Go? ==> entered' == entered && zeros' == zeros
    ensures choice == NoneOpen ==> route' == (if route != [] then route[1..] else []) || base != []
    ensures choice == ReadsOutside ==> route' == route && stop == Some(OutOfRange)
    ensures Settled(maze, s.entries, base', route', origin', entered')
    ensures base == [] ==> base' == [] && origin' == origin
    ensures stop.None? ==> Walking(maze, temp, zeros', s.entries, base', route', origin', entered', x', y')
    ensures stop.None? ==> Fenced(maze, exit, base', route', origin', x', y')
    ensures stop.None? && !choice.Go? ==> |s.entries| < |old(s.entries)|
    ensures stop == Some(Found) ==> route' != [] && Reached(route', origin') == exit
    ensures stop == Some(NoRoute) ==> s.entries == []
    ensures OnlyOpening(maze, exit) && base == [] && Interior(origin) ==> stop != Some(OutOfRange)
  {
    x', y', zeros', base', route', origin', entered' := x, y, zeros, base, route, origin, entered;
    x', y', choice, zeros', route', entered' := Forward(maze, temp, s, zeros, base, route, origin, entered, x, y);
    if choice == ReadsOutside {
      return x', y', Some(OutOfRange), zeros', base', route', origin', entered', choice;
    }
    if choice.Go? {
      if (x', y') == exit {
        return x', y', Some(Found), zeros', base', route', origin', entered', choice;
      }
      if OnlyOpening(maze, exit) && base == [] && Interior(origin) {
        assert Open(maze, Step(route'[0]));
      }
      return x', y', None, zeros', base', route', origin', entered', choice;
    }

    // No open neighbour: step back to the cell the top entry left.
    x', y', stop, base', route', origin' := Backtrack(maze, temp, s, exit, zeros, base, route, origin, entered, x, y);
  }

  /** The marks check leaves when it gives up: 7 at the entrance (0, 1), 2 at the start unless it is a wall. */
  method GiveUp(temp: array2<int>)
    requires temp.Length0 == MAX_X && temp.Length1 == MAX_Y
    modifies temp
    ensures temp[0, 1] == 7 && temp[1, 1] == (if old(temp[1, 1]) != 1 then 2 else 1)
    ensures forall i, j :: 0 <= i < MAX_X && 0 <= j < MAX_Y && (i, j) != (0, 1) && (i, j) != (1, 1) ==> temp[i, j] == old(temp[i, j])
  {
    temp[0, 1] := 7;
    if temp[1, 1] != 1 {
      temp[1, 1] := 2;
    }
  }

  /**
   * The end of a pass in which no neighbour was open: pop into (x, y); when
   * pop returns NULL and the neighbours of the popped position are closed
   * as well, mark the entrance (7) and the start (2 unless it is a wall) in
   * temp and give up.
   */
  method Backtrack(maze: array2<int>, temp: array2<int>, s: RouteStack, exit: (int, int), ghost zeros: set<(int, int)>, ghost base: seq<Entry>,
                   ghost route: seq<Entry>, ghost origin: (int, int), ghost entered: seq<(int, int)>, x: int, y: int)
    returns (x': int, y': int, stop: Option<Outcome>, ghost base': seq<Entry>, ghost route': seq<Entry>, ghost origin': (int, int))
    requires Walking(maze, temp, zeros, s.entries, base, route, origin, entered, x, y) && Blocked(temp, x, y)
    requires Fenced(maze, exit, base, route, origin, x, y)
    modifies temp, s
    ensures Settled(maze, s.entries, base', route', origin', entered)
    ensures base == [] ==> base' == [] && origin' == origin
    ensures stop.None? ==> Walking(maze, temp, zeros, s.entries, base', route', origin', entered, x', y')
    ensures stop.None? ==> Fenced(maze, exit, base', route', origin', x', y')
    ensures stop.None? ==> |s.entries| < |old(s.entries)|
    ensures route != [] ==> route' == route[1..]
    ensures route == [] && base == [] ==> route' == []
    ensures stop != Some(Found)
    ensures stop == Some(NoRoute) ==> s.entries == []
    ensures OnlyOpening(maze, exit) && base == [] && Interior(origin) ==> stop != Some(OutOfRange)
  {
    var head;
    x', y', head, base', route', origin' := Retreat(maze, temp, s, exit, zeros, base, route, origin, entered, x, y);
    if head.None? {
      var closed := AllClosed(temp, x', y');
      if closed.None? {
        return x', y', Some(OutOfRange), base', route', origin';
      }
      if closed.value {
        GiveUp(temp);
        return x', y', Some(NoRoute), base', route', origin';
      }
    }
    stop := None;
  }
}
