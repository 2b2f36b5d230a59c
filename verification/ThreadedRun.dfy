/** GemmRunWithA of bestla_parallel.h as a state machine: every thread quantises its blocks of the activations, waits
    at the barrier, and then computes its elements of C. Steps of different threads interleave freely. */
module ThreadedRun {
  import opened Utils
  import opened Scheduling

  type Cell = (int, int)

  /** Where a thread is, with what it still has to write in its present phase. */
  datatype Phase =
    | Quantising(todo: set<Cell>)
    | AtBarrier
    | Multiplying(todo: set<Cell>)
    | Done

  /** The work: how activations and results are split, the value of an activation block, and the value of a result
      computed from a table of quantised blocks. */
  datatype Plan<!Q, !R> = Plan(threads: nat, kblock: pos, ga: Grid, gc: Grid, stepC: Dim2,
                               quant: Cell -> Q, product: (map<Cell, Q>, Cell) -> R)
  {
    ghost predicate Valid() {
      && Tiling(ga, Dim2(1, kblock), threads) && Tiling(gc, stepC, threads)
      && (ga.valid > 0 ==> ga.perRow > 0) && (gc.valid > 0 ==> gc.perRow > 0)
    }

    /** All activation blocks: row, K block. */
    function BlocksA(): set<Cell>
      requires ga.size.d1 >= 0
    {
      set i, kb | 0 <= i < ga.size.d0 && 0 <= kb < Updiv(ga.size.d1, kblock) :: (i, kb)
    }

    function CellsC(): set<Cell> {
      set i, j | 0 <= i < gc.size.d0 && 0 <= j < gc.size.d1 :: (i, j)
    }

    /** What getIndex gives thread t to quantise and to compute. */
    function OwnA(t: nat): set<Cell>
      requires Valid()
    {
      set c | c in BlocksA() && Inside(GetIndex(ga, t), c.0, c.1 * kblock) :: c
    }

    function OwnC(t: nat): set<Cell>
      requires Valid()
    {
      set c | c in CellsC() && Inside(GetIndex(gc, t), c.0, c.1) :: c
    }

    /** The sequential result. */
    function FullCodes(): map<Cell, Q>
      requires Valid()
    {
      map c | c in BlocksA() :: quant(c)
    }

    function FullResult(): map<Cell, R>
      requires Valid()
    {
      map c | c in CellsC() :: product(FullCodes(), c)
    }
  }

  datatype State<!Q, !R> = State(pc: seq<Phase>, codes: map<Cell, Q>, result: map<Cell, R>)

  datatype Action = Quantise(cell: Cell) | Arrive | Leave | Multiply(cell: Cell) | Finish

  ghost predicate Init<Q, R>(p: Plan<Q, R>, s: State<Q, R>)
    requires p.Valid()
  {
    && |s.pc| == p.threads && (forall t | 0 <= t < p.threads :: s.pc[t] == Quantising(p.OwnA(t)))
    && s.codes == map[] && s.result == map[]
  }

  ghost predicate Step<Q, R>(p: Plan<Q, R>, s: State<Q, R>, s': State<Q, R>, t: nat, a: Action)
    requires p.Valid()
  {
    && t < |s.pc|
    && match a
       case Quantise(c) =>
         && s.pc[t].Quantising? && c in s.pc[t].todo
         && s' == State(s.pc[t := Quantising(s.pc[t].todo - {c})], s.codes[c := p.quant(c)], s.result)
       case Arrive =>
         s.pc[t] == Quantising({}) && s' == s.(pc := s.pc[t := AtBarrier])
       case Leave =>
         // a barrier lets a thread go when every thread has arrived
         && s.pc[t] == AtBarrier && (forall u | 0 <= u < |s.pc| :: !s.pc[u].Quantising?)
         && s' == s.(pc := s.pc[t := Multiplying(p.OwnC(t))])
       case Multiply(c) =>
         && s.pc[t].Multiplying? && c in s.pc[t].todo
         && s' == State(s.pc[t := Multiplying(s.pc[t].todo - {c})], s.codes, s.result[c := p.product(s.codes, c)])
       case Finish =>
         s.pc[t] == Multiplying({}) && s' == s.(pc := s.pc[t := Phase.Done])
  }

  // ----- who owns what

  lemma OwnerOfBlock<Q, R>(p: Plan<Q, R>, c: Cell) returns (t: nat)
    requires p.Valid() && c in p.BlocksA()
    ensures t < p.threads && forall u: nat :: c in p.OwnA(u) <==> u == t
  {
    UpdivBounds(p.ga.size.d1, p.kblock, c.1);
    MulMono(0, c.1, p.kblock);
    ExactCover(p.ga, Dim2(1, p.kblock), p.threads, c.0, c.1 * p.kblock);
    t := Owner(p.ga, c.0, c.1 * p.kblock);
  }

  lemma OwnerOfCell<Q, R>(p: Plan<Q, R>, c: Cell) returns (t: nat)
    requires p.Valid() && c in p.CellsC()
    ensures t < p.threads && forall u: nat :: c in p.OwnC(u) <==> u == t
  {
    ExactCover(p.gc, p.stepC, p.threads, c.0, c.1);
    t := Owner(p.gc, c.0, c.1);
  }

  /** A thread's activation rectangle is whole K blocks: whoever owns a block owns all its elements. */
  lemma WholeBlocks<Q, R>(p: Plan<Q, R>, t: nat, i: int, k: int)
    requires p.Valid() && t < p.ga.valid && Inside(GetIndex(p.ga, t), i, k)
    ensures (i, k / p.kblock) in p.OwnA(t)
    ensures forall k' | 0 <= k' < p.ga.size.d1 && k' / p.kblock == k / p.kblock :: Inside(GetIndex(p.ga, t), i, k')
  {
    var g := p.ga;
    RectangleShape(g, Dim2(1, p.kblock), p.threads, t);
    var r := GetIndex(g, t);
    var lo, hi, kb := r.loc.d1, r.loc.d1 + r.size.d1, k / p.kblock;
    DivMod(k, p.kblock);
    DivBounds(k, p.kblock, 0);
    UpdivBounds(g.size.d1, p.kblock, kb);
    DivMod(lo, p.kblock);
    DivBounds(k, p.kblock, lo / p.kblock);
    MulMono(lo / p.kblock, kb, p.kblock);
    forall k' | 0 <= k' < g.size.d1 && k' / p.kblock == kb
      ensures lo <= k' < hi
    {
      DivMod(k', p.kblock);
      if hi < g.size.d1 {
        MultiplesAdd(lo, r.size.d1, p.kblock);
        DivMod(hi, p.kblock);
        DivBounds(k, p.kblock, hi / p.kblock);
        DivBounds(k', p.kblock, hi / p.kblock);
      }
    }
    ModOfMultiple(kb, p.kblock);
    MulMono(0, kb, p.kblock);
  }

  // ----- what holds in every reachable state

  predicate Past<Q, R>(s: State<Q, R>, t: nat)
    requires t < |s.pc|
  {
    s.pc[t].Multiplying? || s.pc[t].Done?
  }

  /** Thread t has written block c, if it is t's to write. */
  predicate Quantised<Q, R>(s: State<Q, R>, t: nat, c: Cell)
    requires t < |s.pc|
  {
    !(s.pc[t].Quantising? && c in s.pc[t].todo)
  }

  predicate Computed<Q, R>(s: State<Q, R>, t: nat, c: Cell)
    requires t < |s.pc|
  {
    s.pc[t].Done? || (s.pc[t].Multiplying? && c !in s.pc[t].todo)
  }

  ghost predicate Inv<Q, R>(p: Plan<Q, R>, s: State<Q, R>)
    requires p.Valid()
  {
    && |s.pc| == p.threads
    && (forall t: nat | t < p.threads ::
          (s.pc[t].Quantising? ==> s.pc[t].todo <= p.OwnA(t)) && (s.pc[t].Multiplying? ==> s.pc[t].todo <= p.OwnC(t)))
    // codes: exactly the blocks their owners have written, with the right values
    && s.codes.Keys <= p.BlocksA()
    && (forall t: nat, c | t < p.threads && c in p.OwnA(t) :: c in s.codes <==> Quantised(s, t, c))
    && (forall c | c in s.codes :: s.codes[c] == p.quant(c))
    // the barrier: nobody multiplies while somebody quantises
    && (forall t: nat, u: nat | t < p.threads && u < p.threads && Past(s, t) :: !s.pc[u].Quantising?)
    // results: exactly the elements their owners have computed, from the full table
    && s.result.Keys <= p.CellsC()
    && (forall t: nat, c | t < p.threads && c in p.OwnC(t) :: c in s.result <==> Computed(s, t, c))
    && (forall c | c in s.result :: s.result[c] == p.product(p.FullCodes(), c))
  }

  lemma InitInv<Q, R>(p: Plan<Q, R>, s: State<Q, R>)
    requires p.Valid() && Init(p, s)
    ensures Inv(p, s)
  {
    forall t: nat, c | t < p.threads && c in p.OwnA(t)
      ensures c in s.codes <==> Quantised(s, t, c)
    {
      assert s.pc[t] == Quantising(p.OwnA(t));
    }
  }

  /** Once nobody quantises, the table of codes is complete. */
  lemma AllQuantised<Q, R>(p: Plan<Q, R>, s: State<Q, R>)
    requires p.Valid() && Inv(p, s) && forall u: nat | u < p.threads :: !s.pc[u].Quantising?
    ensures s.codes == p.FullCodes()
  {
    forall c | c in p.BlocksA()
      ensures c in s.codes
    {
      var t := OwnerOfBlock(p, c);
      assert Quantised(s, t, c);
    }
  }

  /** Safety: a thread in the GEMM phase finds every activation block quantised, with its final value. */
  lemma GemmAfterQuantise<Q, R>(p: Plan<Q, R>, s: State<Q, R>, t: nat)
    requires p.Valid() && Inv(p, s) && t < p.threads && Past(s, t)
    ensures s.codes == p.FullCodes()
  {
    AllQuantised(p, s);
  }

  /** Writes are disjoint: a block or element that one thread still has to write is nobody else's and is not yet
      written. */
  lemma WritesDisjoint<Q, R>(p: Plan<Q, R>, s: State<Q, R>, t: nat, u: nat, c: Cell)
    requires p.Valid() && Inv(p, s) && t < p.threads && u < p.threads
    ensures s.pc[t].Quantising? && c in s.pc[t].todo ==>
              c !in s.codes && (s.pc[u].Quantising? && c in s.pc[u].todo ==> u == t)
    ensures s.pc[t].Multiplying? && c in s.pc[t].todo ==>
              c !in s.result && (s.pc[u].Multiplying? && c in s.pc[u].todo ==> u == t)
  {
    if s.pc[t].Quantising? && c in s.pc[t].todo {
      assert !Quantised(s, t, c);
      var o := OwnerOfBlock(p, c);
    }
    if s.pc[t].Multiplying? && c in s.pc[t].todo {
      assert !Computed(s, t, c);
      var o := OwnerOfCell(p, c);
    }
  }

  lemma StepQuantise<Q, R>(p: Plan<Q, R>, s: State<Q, R>, s': State<Q, R>, t: nat, c: Cell)
    requires p.Valid() && Inv(p, s) && Step(p, s, s', t, Quantise(c))
    ensures Inv(p, s')
  {
    assert c in p.OwnA(t);
    var o := OwnerOfBlock(p, c);
    forall u: nat, d | u < p.threads && d in p.OwnA(u)
      ensures d in s'.codes <==> Quantised(s', u, d)
    {
      assert d in s.codes <==> Quantised(s, u, d);
    }
    forall u: nat, d | u < p.threads && d in p.OwnC(u)
      ensures d in s'.result <==> Computed(s', u, d)
    {
      assert d in s.result <==> Computed(s, u, d);
    }
    forall u: nat | u < p.threads
      ensures !Past(s', u)
    {
      assert !Past(s, u);
    }
  }

  lemma StepMultiply<Q, R>(p: Plan<Q, R>, s: State<Q, R>, s': State<Q, R>, t: nat, c: Cell)
    requires p.Valid() && Inv(p, s) && Step(p, s, s', t, Multiply(c))
    ensures Inv(p, s')
  {
    assert Past(s, t);
    GemmAfterQuantise(p, s, t);
    assert c in p.OwnC(t);
    var o := OwnerOfCell(p, c);
    forall u: nat, d | u < p.threads && d in p.OwnA(u)
      ensures d in s'.codes <==> Quantised(s', u, d)
    {
      assert d in s.codes <==> Quantised(s, u, d);
    }
    forall u: nat, d | u < p.threads && d in p.OwnC(u)
      ensures d in s'.result <==> Computed(s', u, d)
    {
      assert d in s.result <==> Computed(s, u, d);
    }
  }

  lemma StepMove<Q, R>(p: Plan<Q, R>, s: State<Q, R>, s': State<Q, R>, t: nat, a: Action)
    requires p.Valid() && Inv(p, s) && Step(p, s, s', t, a) && !a.Quantise? && !a.Multiply?
    ensures Inv(p, s')
  {
    forall u: nat, d | u < p.threads && d in p.OwnA(u)
      ensures d in s'.codes <==> Quantised(s', u, d)
    {
      assert d in s.codes <==> Quantised(s, u, d);
    }
    forall u: nat, d | u < p.threads && d in p.OwnC(u)
      ensures d in s'.result <==> Computed(s', u, d)
    {
      assert d in s.result <==> Computed(s, u, d);
    }
    forall u: nat, v: nat | u < p.threads && v < p.threads && Past(s', u)
      ensures !s'.pc[v].Quantising?
    {
      assert Past(s, u) ==> !s.pc[v].Quantising?;
      assert Past(s, u) || (u == t && a.Leave?);
    }
  }

  lemma StepInv<Q, R>(p: Plan<Q, R>, s: State<Q, R>, s': State<Q, R>, t: nat, a: Action)
    requires p.Valid() && Inv(p, s) && Step(p, s, s', t, a)
    ensures Inv(p, s')
  {
    match a
    case Quantise(c) => StepQuantise(p, s, s', t, c);
    case Multiply(c) => StepMultiply(p, s, s', t, c);
    case Arrive => StepMove(p, s, s', t, a);
    case Leave => StepMove(p, s, s', t, a);
    case Finish => StepMove(p, s, s', t, a);
  }

  // ----- runs

  ghost predicate Next<Q(!new), R(!new)>(p: Plan<Q, R>, s: State<Q, R>, s': State<Q, R>)
    requires p.Valid()
  {
    exists t: nat, a :: Step(p, s, s', t, a)
  }

  /** A run: any interleaving of the threads' steps. */
  ghost predicate IsRun<Q(!new), R(!new)>(p: Plan<Q, R>, run: seq<State<Q, R>>)
    requires p.Valid()
  {
    && |run| > 0 && Init(p, run[0])
    && forall i | 0 <= i < |run| - 1 :: Next(p, run[i], run[i + 1])
  }

  /** The invariant holds in every reachable state. */
  lemma {:induction false} RunInv<Q(!new), R(!new)>(p: Plan<Q, R>, run: seq<State<Q, R>>, i: nat)
    requires p.Valid() && IsRun(p, run) && i < |run|
    ensures Inv(p, run[i])
  {
    if i == 0 {
      InitInv(p, run[0]);
    } else {
      RunInv(p, run, i - 1);
      assert Next(p, run[i - 1], run[i - 1 + 1]);
      var t: nat, a :| Step(p, run[i - 1], run[i], t, a);
      StepInv(p, run[i - 1], run[i], t, a);
    }
  }

  /** No thread can take a step. */
  ghost predicate Stuck<Q(!new), R(!new)>(p: Plan<Q, R>, s: State<Q, R>)
    requires p.Valid()
  {
    forall t: nat, a, s' :: !Step(p, s, s', t, a)
  }

  ghost predicate Finished<Q, R>(s: State<Q, R>) {
    forall t | 0 <= t < |s.pc| :: s.pc[t].Done?
  }

  /** No deadlock: as long as a thread is not done, some thread can take a step. */
  lemma Progress<Q, R>(p: Plan<Q, R>, s: State<Q, R>) returns (t: nat, a: Action, s': State<Q, R>)
    requires p.Valid() && Inv(p, s) && !Finished(s)
    ensures Step(p, s, s', t, a)
  {
    if u: nat :| u < |s.pc| && s.pc[u].Quantising? {
      t := u;
      if s.pc[u].todo == {} {
        a, s' := Arrive, s.(pc := s.pc[t := AtBarrier]);
      } else {
        var c :| c in s.pc[u].todo;
        a, s' := Quantise(c), State(s.pc[t := Quantising(s.pc[t].todo - {c})], s.codes[c := p.quant(c)], s.result);
      }
    } else {
      t :| 0 <= t < |s.pc| && !s.pc[t].Done?;
      if s.pc[t].AtBarrier? {
        a, s' := Leave, s.(pc := s.pc[t := Multiplying(p.OwnC(t))]);
      } else if s.pc[t].todo == {} {
        a, s' := Finish, s.(pc := s.pc[t := Phase.Done]);
      } else {
        var c :| c in s.pc[t].todo;
        a, s' := Multiply(c), State(s.pc[t := Multiplying(s.pc[t].todo - {c})], s.codes,
                                    s.result[c := p.product(s.codes, c)]);
      }
    }
  }

  /** The steps a thread still has to take. */
  function Left<Q, R>(p: Plan<Q, R>, ph: Phase, t: nat): nat
    requires p.Valid()
  {
    match ph
    case Quantising(todo) => |todo| + |p.OwnC(t)| + 3
    case AtBarrier => |p.OwnC(t)| + 2
    case Multiplying(todo) => |todo| + 1
    case Done => 0
  }

  function Remaining<Q, R>(p: Plan<Q, R>, pc: seq<Phase>): nat
    requires p.Valid()
  {
    if pc == [] then 0 else Remaining(p, pc[..|pc| - 1]) + Left(p, pc[|pc| - 1], |pc| - 1)
  }

  lemma {:induction false} RemainingUpdate<Q, R>(p: Plan<Q, R>, pc: seq<Phase>, t: nat, ph: Phase)
    requires p.Valid() && t < |pc|
    ensures Remaining(p, pc[t := ph]) == Remaining(p, pc) - Left(p, pc[t], t) + Left(p, ph, t)
  {
    var n := |pc| - 1;
    if t == n {
      assert pc[t := ph][..n] == pc[..n];
    } else {
      assert pc[t := ph][..n] == pc[..n][t := ph];
      RemainingUpdate(p, pc[..n], t, ph);
    }
  }

  /** Every step is one of finitely many: the count of steps left drops by exactly one. */
  lemma StepCounts<Q, R>(p: Plan<Q, R>, s: State<Q, R>, s': State<Q, R>, t: nat, a: Action)
    requires p.Valid() && Step(p, s, s', t, a)
    ensures Remaining(p, s'.pc) == Remaining(p, s.pc) - 1
  {
    RemainingUpdate(p, s.pc, t, s'.pc[t]);
  }

  /** In a finished state the codes and the result are those of the sequential computation. */
  lemma FinishedResult<Q, R>(p: Plan<Q, R>, s: State<Q, R>)
    requires p.Valid() && Inv(p, s) && Finished(s)
    ensures s.codes == p.FullCodes() && s.result == p.FullResult()
  {
    AllQuantised(p, s);
    forall c | c in p.CellsC()
      ensures c in s.result
    {
      var t := OwnerOfCell(p, c);
      assert Computed(s, t, c);
    }
  }

  lemma {:induction false} RunCounts<Q(!new), R(!new)>(p: Plan<Q, R>, run: seq<State<Q, R>>, i: nat)
    requires p.Valid() && IsRun(p, run) && i < |run|
    ensures Remaining(p, run[i].pc) + i == Remaining(p, run[0].pc)
  {
    if i > 0 {
      RunCounts(p, run, i - 1);
      assert Next(p, run[i - 1], run[i - 1 + 1]);
      var t: nat, a :| Step(p, run[i - 1], run[i], t, a);
      StepCounts(p, run[i - 1], run[i], t, a);
    }
  }

  /** Every interleaving ends, after the same number of steps, and ends in the sequential result: a run that cannot be
      extended has all threads done and holds exactly the codes and the results one thread would have computed. */
  lemma EveryInterleaving<Q(!new), R(!new)>(p: Plan<Q, R>, run: seq<State<Q, R>>)
    requires p.Valid() && IsRun(p, run)
    ensures |run| <= Remaining(p, run[0].pc) + 1
    ensures Stuck(p, run[|run| - 1]) ==>
              var last := run[|run| - 1];
              && Finished(last) && last.codes == p.FullCodes() && last.result == p.FullResult()
              && |run| == Remaining(p, run[0].pc) + 1
  {
    var last := run[|run| - 1];
    RunInv(p, run, |run| - 1);
    RunCounts(p, run, |run| - 1);
    if Stuck(p, last) {
      if !Finished(last) {
        var t, a, s' := Progress(p, last);
      }
      FinishedResult(p, last);
      NothingLeft(p, last.pc);
    }
  }

  lemma {:induction false} NothingLeft<Q, R>(p: Plan<Q, R>, pc: seq<Phase>)
    requires p.Valid() && forall t | 0 <= t < |pc| :: pc[t].Done?
    ensures Remaining(p, pc) == 0
  {
    if pc != [] {
      NothingLeft(p, pc[..|pc| - 1]);
    }
  }

  /** The two schedulers give a plan: for every problem, K block size and thread count the activation grid of
      createParallel is a tiling by whole K blocks. */
  lemma SchedulersGivePlan<Q, R>(threads: pos, m: nat, k: nat, kblock: pos, gc: Grid, stepC: Dim2, quant: Cell -> Q,
                                 product: (map<Cell, Q>, Cell) -> R)
    requires Tiling(gc, stepC, threads)
    ensures Plan(threads, kblock, Schedule(Dim2(m, k), Dim2(1, kblock), threads), gc, stepC, quant, product).Valid()
  {
    var ga := Schedule(Dim2(m, k), Dim2(1, kblock), threads);
    ScheduleTiles(Dim2(m, k), Dim2(1, kblock), threads);
    PerRowPositive(ga, Dim2(1, kblock), threads);
    PerRowPositive(gc, stepC, threads);
  }
}
