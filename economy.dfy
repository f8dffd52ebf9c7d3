/** The spawn rule run once at the start of every tick (MyBot.update, lines 24-37). */
module Economy {
  import opened LiaApi

  /** The number of workers among the units. */
  function WorkerCount(units: seq<UnitData>): (n: nat)
    ensures n <= |units|
  {
    if units == [] then 0
    else WorkerCount(units[..|units| - 1]) + (if units[|units| - 1].utype == Worker then 1 else 0)
  }

  /** The counting loop of lines 27-29. */
  method CountWorkers(units: seq<UnitData>) returns (numberOfWorkers: nat)
    ensures numberOfWorkers == WorkerCount(units)
  {
    numberOfWorkers := 0;
    for i := 0 to |units|
      invariant numberOfWorkers == WorkerCount(units[..i])
    {
      assert units[..i + 1][..i] == units[..i];
      if units[i].utype == Worker {
        numberOfWorkers := numberOfWorkers + 1;
      }
    }
    assert units[..|units|] == units;
  }

  /** `workers / (float) total < 0.5f`. With no units the quotient is NaN and
      every comparison with NaN is false, hence the `total > 0` conjunct. */
  predicate WorkerShareLow(workers: nat, total: nat)
  {
    total > 0 && (workers as real) / (total as real) < 0.5
  }

  /** The share test in integer terms: fewer than half of the units are workers. */
  lemma WorkerShareLowIff(workers: nat, total: nat)
    ensures WorkerShareLow(workers, total) <==> 2 * workers < total
  {
    if total > 0 {
      var w, t := workers as real, total as real;
      var q := w / t;
      QuotientTimesDivisor(w, t);
      ScaleLess(q, 0.5, t);
      assert q < 0.5 <==> w < 0.5 * t;
      assert w < 0.5 * t <==> 2.0 * w < t;
      assert (2 * workers) as real == 2.0 * w;
    }
  }

  lemma QuotientTimesDivisor(w: real, t: real)
    requires t > 0.0
    ensures (w / t) * t == w
  {
  }

  /** Multiplying both sides by a positive factor keeps a strict order. */
  lemma ScaleLess(q: real, c: real, t: real)
    requires t > 0.0
    ensures q < c <==> q * t < c * t
  {
    if q < c {
      PositiveProduct(c - q, t);
      assert (c - q) * t == c * t - q * t;
    } else if q > c {
      PositiveProduct(q - c, t);
      assert (q - c) * t == q * t - c * t;
    }
  }

  lemma PositiveProduct(a: real, b: real)
    requires a > 0.0 && b > 0.0
    ensures a * b > 0.0
  {
  }

  /** Which unit, if any, to spawn this tick. */
  function SpawnDecision(cfg: Config, workers: nat, total: nat, resources: int): (d: Option<UnitType>)
    ensures d == Some(Worker) <==> WorkerShareLow(workers, total) && resources >= cfg.workerPrice
    ensures d == Some(Warrior) <==> !WorkerShareLow(workers, total) && resources >= cfg.warriorPrice
    ensures d == None <==> if WorkerShareLow(workers, total) then resources < cfg.workerPrice else resources < cfg.warriorPrice
  {
    if WorkerShareLow(workers, total) then
      if resources >= cfg.workerPrice then Some(Worker) else None
    else if resources >= cfg.warriorPrice then Some(Warrior) else None
  }

  /** The spawn calls issued for a decision: at most one. */
  function SpawnCommands(d: Option<UnitType>): (cs: seq<Command>)
    ensures |cs| <= 1
    ensures forall t :: cs == [Spawn(t)] <==> d == Some(t)
  {
    match d
    case None => []
    case Some(t) => [Spawn(t)]
  }

  /** The number of spawn calls in a command sequence. */
  function CountSpawns(cs: seq<Command>): nat
  {
    if cs == [] then 0 else (if cs[0].Spawn? then 1 else 0) + CountSpawns(cs[1..])
  }

  lemma SpawnCountOfDecision(d: Option<UnitType>)
    ensures CountSpawns(SpawnCommands(d)) == |SpawnCommands(d)|
  {
    var cs := SpawnCommands(d);
    if cs != [] {
      assert cs[1..] == [];
    }
  }

  lemma {:induction false} CountSpawnsAppend(a: seq<Command>, b: seq<Command>)
    ensures CountSpawns(a + b) == CountSpawns(a) + CountSpawns(b)
  {
    if a == [] {
      assert a + b == b;
    } else {
      assert (a + b)[0] == a[0] && (a + b)[1..] == a[1..] + b;
      CountSpawnsAppend(a[1..], b);
    }
  }

  /** A command sequence without spawn calls counts none. */
  lemma {:induction false} NoSpawnsAtAll(cs: seq<Command>)
    requires forall k :: 0 <= k < |cs| ==> !cs[k].Spawn?
    ensures CountSpawns(cs) == 0
  {
    if cs != [] {
      assert forall k :: 0 <= k < |cs[1..]| ==> cs[1..][k] == cs[k + 1];
      NoSpawnsAtAll(cs[1..]);
    }
  }

  /** The spawn rule of the tick, stated on the snapshot: a worker when fewer
      than half of the units are workers and a worker is affordable; a warrior
      when at least half are (or there are no units at all) and a warrior is
      affordable; nothing otherwise. */
  lemma SpawnRule(cfg: Config, units: seq<UnitData>, resources: int)
    ensures var d := SpawnDecision(cfg, WorkerCount(units), |units|, resources);
      && (d == Some(Worker) <==> 2 * WorkerCount(units) < |units| && resources >= cfg.workerPrice)
      && (d == Some(Warrior) <==> 2 * WorkerCount(units) >= |units| && resources >= cfg.warriorPrice)
      && (d == None <==> if 2 * WorkerCount(units) < |units| then resources < cfg.workerPrice
                         else resources < cfg.warriorPrice)
      && (units == [] ==> (d == Some(Warrior) <==> resources >= cfg.warriorPrice))
      && CountSpawns(SpawnCommands(d)) <= 1
  {
    WorkerShareLowIff(WorkerCount(units), |units|);
    var cs := SpawnCommands(SpawnDecision(cfg, WorkerCount(units), |units|, resources));
    if cs != [] {
      assert cs[1..] == [];
    }
  }
}
