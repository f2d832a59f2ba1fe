/** The background generator of src/main.rs (`normal_mode_thread`): its tick
    length, its weighted choice of log category, and its loop, which runs one
    tick at a time until it sees the exit flag at the loop head.

    The shared flags are not modelled as memory: each tick is given what the
    worker reads from them (the exit flag at the loop head, the matrix flag
    after the first sleep) together with the random draws the tick consumes.
    Sleeping is modelled by the milliseconds it adds to the elapsed time. */
module Worker {
  import Matrix

  /** The six normal-mode log kinds, each printed by its own generator. */
  datatype Category = System | Database | Network | AI | Security | Processing

  /** The categories in the order the `match` lists them. */
  const Categories: seq<Category> := [System, Database, Network, AI, Security, Processing]

  /** The category draw is taken from `0..Draws`. */
  const Draws: nat := 10

  /** How many of the ten draws select each category. */
  function Weight(c: Category): nat
  {
    match c
    case System => 3
    case Database => 2
    case Network => 2
    case AI => 1
    case Security => 1
    case Processing => 1
  }

  /** The position of a category in `Categories`. */
  function Rank(c: Category): (k: nat)
    ensures k < |Categories| && Categories[k] == c
  {
    match c
    case System => 0
    case Database => 1
    case Network => 2
    case AI => 3
    case Security => 4
    case Processing => 5
  }

  /** The sum of the weights of `cs`. */
  function TotalWeight(cs: seq<Category>): nat
  {
    if cs == [] then 0 else TotalWeight(cs[..|cs| - 1]) + Weight(cs[|cs| - 1])
  }

  /** The first draw that selects `c`: the weights of the categories listed
      before it, added up. */
  function Offset(c: Category): nat
  {
    TotalWeight(Categories[..Rank(c)])
  }

  /** `match rng.gen_range(0..10)` of a normal-mode tick: the category whose
      run of draws in the weight table holds the draw. */
  function Pick(r: int): (c: Category)
    requires 0 <= r < Draws
    ensures Offset(c) <= r < Offset(c) + Weight(c)
  {
    OffsetsAccumulate();
    if r <= 2 then System
    else if r <= 4 then Database
    else if r <= 6 then Network
    else if r == 7 then AI
    else if r == 8 then Security
    else Processing
  }

  /** The draws of consecutive categories in `Categories` follow one another. */
  lemma OffsetsAccumulate()
    ensures Offset(System) == 0
    ensures Offset(Database) == Offset(System) + Weight(System)
    ensures Offset(Network) == Offset(Database) + Weight(Database)
    ensures Offset(AI) == Offset(Network) + Weight(Network)
    ensures Offset(Security) == Offset(AI) + Weight(AI)
    ensures Offset(Processing) == Offset(Security) + Weight(Security)
    ensures Offset(Processing) + Weight(Processing) == Draws
  {
    var cs := Categories;
    assert cs[..0] == [];
    assert cs[..2][..1] == cs[..1];
    assert cs[..3][..2] == cs[..2];
    assert cs[..4][..3] == cs[..3];
    assert cs[..5][..4] == cs[..4];
  }

  /** Each category is selected by exactly the run of `Weight(c)` draws that
      starts at `Offset(c)`: the choice follows the weight table, and every
      draw selects one category. */
  lemma PickFollowsWeights(r: int, c: Category)
    requires 0 <= r < Draws
    ensures Pick(r) == c <==> Offset(c) <= r < Offset(c) + Weight(c)
  {
    OffsetsAccumulate();
  }

  /** The draws selecting a category. */
  function DrawsOf(c: Category): set<int>
  {
    set r | 0 <= r < Draws && Pick(r) == c
  }

  /** Each category is selected by as many of the ten draws as its weight:
      3, 2, 2, 1, 1, 1. */
  lemma {:induction false} DrawCount(c: Category)
    ensures |DrawsOf(c)| == Weight(c)
  {
    match c
    case System => assert DrawsOf(c) == {0, 1, 2};
    case Database => assert DrawsOf(c) == {3, 4};
    case Network => assert DrawsOf(c) == {5, 6};
    case AI => assert DrawsOf(c) == {7};
    case Security => assert DrawsOf(c) == {8};
    case Processing => assert DrawsOf(c) == {9};
  }

  /** The base delay: 200 ms in quick mode, 2000 ms otherwise. */
  function BaseDelay(quick: bool): nat
  {
    if quick then 200 else 2000
  }

  /** The milliseconds one tick sleeps: the base delay, and in matrix mode a
      further half of it (`delay / 2` on whole milliseconds). Since the base
      delay is even, a matrix tick is exactly one and a half normal ticks. */
  function TickLength(quick: bool, matrix: bool): (ms: nat)
    ensures !matrix ==> ms == BaseDelay(quick)
    ensures matrix ==> 2 * ms == 3 * BaseDelay(quick)
    ensures quick ==> ms == (if matrix then 300 else 200)
    ensures !quick ==> ms == (if matrix then 3000 else 2000)
  {
    var delay := BaseDelay(quick);
    if matrix then delay + delay / 2 else delay
  }

  /** What a tick reads and draws: the exit flag at the loop head, the matrix
      flag after the first sleep, the category draw of a normal tick and the
      draws of a matrix tick. */
  datatype Tick = Tick(exit: bool, matrix: bool, category: int, rain: Matrix.RainDraws)

  /** Draws the generator can produce: a category draw in `0..Draws`, and in
      matrix mode rain draws that `Matrix.GenerateMatrixCode` accepts. */
  predicate ValidTick(t: Tick)
  {
    && 0 <= t.category < Draws
    && (t.matrix ==> Matrix.ValidDraws(t.rain))
  }

  /** What one tick prints: a log line of some category, or the rain line
      `Matrix.GenerateMatrixCode` builds from the given draws. */
  datatype Output = Log(category: Category) | Rain(draws: Matrix.RainDraws)

  /** The line a tick prints: a rain line when it reads matrix mode as on,
      otherwise a log line of the category its draw picks. */
  function Emit(t: Tick): (o: Output)
    requires ValidTick(t)
    ensures o.Rain? <==> t.matrix
    ensures o.Rain? ==> o.draws == t.rain && Matrix.ValidDraws(o.draws)
    ensures o.Log? ==> Offset(o.category) <= t.category < Offset(o.category) + Weight(o.category)
  {
    if t.matrix then Rain(t.rain) else Log(Pick(t.category))
  }

  /** The milliseconds slept by the first `n` ticks, each at its own length. */
  function Slept(quick: bool, ticks: seq<Tick>, n: nat): nat
    requires n <= |ticks|
  {
    if n == 0 then 0 else Slept(quick, ticks, n - 1) + TickLength(quick, ticks[n - 1].matrix)
  }

  /** The `while !should_exit` loop over the given ticks. It runs ticks until
      one of them reads the exit flag as set, printing one line per tick it
      runs, and reports whether it stopped that way or ran out of ticks. */
  method Run(quick: bool, ticks: seq<Tick>) returns (out: seq<Output>, elapsed: nat, stopped: bool)
    requires forall i :: 0 <= i < |ticks| ==> ValidTick(ticks[i])
    ensures |out| <= |ticks|
    ensures forall i :: 0 <= i < |out| ==> !ticks[i].exit
    ensures stopped <==> |out| < |ticks|
    ensures stopped ==> ticks[|out|].exit
    ensures forall i :: 0 <= i < |out| ==> out[i] == Emit(ticks[i])
    ensures elapsed == Slept(quick, ticks, |out|)
  {
    var delay := BaseDelay(quick);
    out, elapsed := [], 0;
    var i := 0;
    while i < |ticks| && !ticks[i].exit
      invariant 0 <= i <= |ticks|
      invariant |out| == i
      invariant forall j :: 0 <= j < i ==> !ticks[j].exit && out[j] == Emit(ticks[j])
      invariant elapsed == Slept(quick, ticks, i)
    {
      var t := ticks[i];
      elapsed := elapsed + delay;
      out := out + [Emit(t)];
      if t.matrix {
        elapsed := elapsed + delay / 2;
      }
      i := i + 1;
    }
    stopped := i < |ticks|;
  }

  /** With matrix mode off throughout, consecutive lines are one base delay
      apart: `n` ticks sleep `n` times 200 ms (quick) or 2000 ms. */
  lemma {:induction false} NormalCadence(quick: bool, ticks: seq<Tick>, n: nat)
    requires n <= |ticks|
    requires forall i :: 0 <= i < n ==> !ticks[i].matrix
    ensures Slept(quick, ticks, n) == n * BaseDelay(quick)
  {
    if n > 0 {
      NormalCadence(quick, ticks, n - 1);
    }
  }

  /** In matrix mode throughout, every tick sleeps 300 ms (quick) or 3000 ms. */
  lemma {:induction false} MatrixCadence(quick: bool, ticks: seq<Tick>, n: nat)
    requires n <= |ticks|
    requires forall i :: 0 <= i < n ==> ticks[i].matrix
    ensures 2 * Slept(quick, ticks, n) == 3 * n * BaseDelay(quick)
  {
    if n > 0 {
      MatrixCadence(quick, ticks, n - 1);
    }
  }
}
