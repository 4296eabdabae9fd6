/**
  The `__main__` block of the prime generation script, run sequentially: the
  producer fills the work queue, the workers move as a schedule says, and the
  collector drains the results queue until it has counted one acknowledgement
  per worker. The two queues and the workers' control states are the fields of
  one `Pipeline` object. The methods that move the workers are tied to the
  transition system of module Protocol, whose lemmas carry the proofs; the
  producer and the collector are specified over the queue contents.
 */
module PrimeGeneration {
  import opened Primality
  import opened Messages
  import opened Protocol

  class Pipeline {
    /** `nbr_workers`: the size of the pool. */
    const nbrWorkers: nat
    /** `possible_primes_queue`, head first. */
    var work: seq<Work>
    /** `definite_primes_queue`, head first. */
    var results: seq<Msg>
    /** Where each worker process is in its `while True` loop. */
    var phases: seq<Phase>
    /** Per worker, what it has taken and what it has put (proof bookkeeping). */
    ghost var taken: seq<seq<Work>>
    ghost var pushed: seq<seq<Msg>>

    ghost function Snapshot(): State
      reads this
    {
      State(work, results, phases, taken, pushed)
    }

    ghost predicate Valid()
      reads this
    {
      WellFormed(Snapshot()) && |phases| == nbrWorkers
    }

    /** Both queues created empty and the `nbrWorkers` worker processes
        started, each about to `get`. */
    constructor (nbrWorkers: nat)
      ensures Valid() && this.nbrWorkers == nbrWorkers
      ensures Snapshot() == Initial([], nbrWorkers)
    {
      this.nbrWorkers := nbrWorkers;
      work, results := [], [];
      phases := seq(nbrWorkers, _ => Waiting);
      taken := seq(nbrWorkers, _ => []);
      pushed := seq(nbrWorkers, _ => []);
    }

    /** The producer: put every number of `range(1, upper)` in ascending
        order, then one poison pill per worker. */
    method Produce(upper: int)
      requires Valid()
      modifies this
      ensures Valid()
      ensures work == old(work) + Produced(upper, nbrWorkers)
      ensures results == old(results) && phases == old(phases)
      ensures taken == old(taken) && pushed == old(pushed)
    {
      var possiblePrime := 1;
      while possiblePrime < upper
        invariant 1 <= possiblePrime <= if upper >= 1 then upper else 1
        invariant work == old(work) + Candidates(possiblePrime)
        invariant results == old(results) && phases == old(phases)
        invariant taken == old(taken) && pushed == old(pushed)
      {
        work := work + [Value(possiblePrime)];
        possiblePrime := possiblePrime + 1;
      }
      if upper <= 1 {
        assert possiblePrime == 1;
      }
      var pill := 0;
      while pill < nbrWorkers
        invariant pill <= nbrWorkers
        invariant work == old(work) + Candidates(upper) + Pills(pill)
        invariant results == old(results) && phases == old(phases)
        invariant taken == old(taken) && pushed == old(pushed)
      {
        work := work + [AllDone];
        pill := pill + 1;
      }
    }

    /** One move of worker `w` in its loop: either the `get` or the handling of
        what it got (ack and exit on a pill; filter and maybe put on a
        candidate). A worker that has exited or waits on an empty queue does
        not move. */
    method WorkerStep(w: nat) returns (moved: bool)
      requires Valid()
      modifies this
      ensures Valid()
      ensures moved == Enabled(old(Snapshot()), w)
      ensures Snapshot() == Step(old(Snapshot()), w)
    {
      if w >= |phases| {
        return false;
      }
      match phases[w] {
        case Exited =>
          moved := false;
        case Waiting =>
          if work == [] {
            moved := false;
          } else {
            var item := work[0];
            work := work[1..];
            phases := phases[w := Holding(item)];
            taken := taken[w := taken[w] + [item]];
            moved := true;
          }
        case Holding(item) =>
          moved := true;
          match item {
            case AllDone =>
              results := results + [WorkerFinished];
              pushed := pushed[w := pushed[w] + [WorkerFinished]];
              phases := phases[w := Exited];
            case Value(n) =>
              var emit := CheckCandidate(n);
              if emit {
                results := results + [Prime(n)];
                pushed := pushed[w := pushed[w] + [Prime(n)]];
              } else {
                assert results + [] == results && pushed[w] + [] == pushed[w];
                assert pushed[w := pushed[w]] == pushed;
              }
              phases := phases[w := Waiting];
          }
      }
    }

    /** The workers move in the order `schedule` says. */
    method RunSchedule(schedule: seq<nat>)
      requires Valid()
      modifies this
      ensures Valid()
      ensures Snapshot() == Run(old(Snapshot()), schedule)
    {
      for k := 0 to |schedule|
        invariant Valid()
        invariant Snapshot() == Run(old(Snapshot()), schedule[..k])
      {
        assert schedule[..k + 1] == schedule[..k] + [schedule[k]];
        RunExtend(old(Snapshot()), schedule[..k], schedule[k]);
        var _ := WorkerStep(schedule[k]);
      }
      assert schedule[..|schedule|] == schedule;
    }

    /** The lowest-numbered worker that has not exited, or `nbrWorkers` when
        every worker has: the choice of the next worker to move in `Settle`. */
    method FirstRunning() returns (w: nat)
      requires Valid()
      ensures w <= nbrWorkers
      ensures forall v :: 0 <= v < w ==> phases[v] == Exited
      ensures w < nbrWorkers ==> phases[w] != Exited
    {
      w := 0;
      while w < nbrWorkers && phases[w] == Exited
        invariant w <= nbrWorkers
        invariant forall v :: 0 <= v < w ==> phases[v] == Exited
      {
        w := w + 1;
      }
    }

    /** Lets workers move, lowest-numbered first, until every worker has
        exited. It always ends: a worker that has not exited can always move,
        and every move brings the pool closer to the end. */
    method Settle(ghost produced: seq<Work>) returns (ghost schedule: seq<nat>)
      requires Valid() && Inv(Snapshot(), produced, nbrWorkers)
      requires PillCount(produced) == nbrWorkers
      modifies this
      ensures Valid() && Inv(Snapshot(), produced, nbrWorkers) && AllExited(Snapshot())
      ensures Snapshot() == Run(old(Snapshot()), schedule)
    {
      schedule := [];
      while true
        invariant Valid() && Inv(Snapshot(), produced, nbrWorkers)
        invariant Snapshot() == Run(old(Snapshot()), schedule)
        decreases Pending(Snapshot())
      {
        var w := FirstRunning();
        if w == nbrWorkers {
          break;
        }
        SchedulerStep(Snapshot(), produced, nbrWorkers, w);
        RunExtend(old(Snapshot()), schedule, w);
        var _ := WorkerStep(w);
        schedule := schedule + [w];
      }
    }

    /** `definite_primes_queue.get()` on a non-empty queue. */
    method NextResult() returns (m: Msg)
      requires Valid() && results != []
      modifies this
      ensures Valid() && m == old(results)[0] && results == old(results)[1..]
      ensures work == old(work) && phases == old(phases)
      ensures taken == old(taken) && pushed == old(pushed)
    {
      m := results[0];
      results := results[1..];
    }

    /** The collector: take results off the queue, keeping values and counting
        acknowledgements, and stop at the `nbrWorkers`-th acknowledgement.
        `complete` is false when the queue runs dry first, where the script's
        blocking `get` would wait for ever. */
    method Collect() returns (primes: seq<nat>, count: nat, complete: bool)
      requires Valid()
      modifies this
      ensures Valid()
      ensures work == old(work) && phases == old(phases)
      ensures taken == old(taken) && pushed == old(pushed)
      ensures |results| <= |old(results)| && results == old(results)[|old(results)| - |results|..]
      ensures var got := old(results)[..|old(results)| - |results|];
              primes == PrimesOf(got) && count == Acks(got)
              && (complete <==> nbrWorkers >= 1 && Acks(old(results)) >= nbrWorkers)
              && (complete ==> count == nbrWorkers && |got| > 0 && got[|got| - 1] == WorkerFinished)
              && (!complete ==> results == [])
    {
      primes, count, complete := [], 0, false;
      ghost var start, i := results, 0;
      while results != []
        invariant i <= |start| && results == start[i..]
        invariant primes == PrimesOf(start[..i]) && count == Acks(start[..i])
        invariant nbrWorkers == 0 || count < nbrWorkers
        invariant !complete
        invariant work == old(work) && phases == old(phases)
        invariant taken == old(taken) && pushed == old(pushed)
        decreases |results|
      {
        var newResult := NextResult();
        assert start[..i + 1] == start[..i] + [newResult];
        AcksConcat(start[..i], [newResult]);
        PrimesOfConcat(start[..i], [newResult]);
        SingleMsg(newResult);
        i := i + 1;
        if newResult == WorkerFinished {
          count := count + 1;
          if count == nbrWorkers {
            complete := true;
            break;
          }
        } else {
          primes := primes + [newResult.n];
        }
      }
      assert start == start[..i] + results;
      AcksConcat(start[..i], results);
    }
  }

  /** The script up to the collector: the pool is started, the producer runs,
      the workers move as `schedule` says and then until every one has exited. */
  method RunWorkers(upper: int, nbrWorkers: nat, schedule: seq<nat>)
    returns (pipeline: Pipeline, ghost rest: seq<nat>)
    ensures fresh(pipeline) && pipeline.Valid() && pipeline.nbrWorkers == nbrWorkers
    ensures pipeline.Snapshot()
            == Run(Run(Initial(Produced(upper, nbrWorkers), nbrWorkers), schedule), rest)
    ensures Inv(pipeline.Snapshot(), Produced(upper, nbrWorkers), nbrWorkers)
    ensures AllExited(pipeline.Snapshot())
  {
    pipeline := new Pipeline(nbrWorkers);
    pipeline.Produce(upper);
    ghost var produced := Produced(upper, nbrWorkers);
    assert pipeline.Snapshot() == Initial(produced, nbrWorkers);
    InitialInv(produced, nbrWorkers);
    pipeline.RunSchedule(schedule);
    RunInv(Initial(produced, nbrWorkers), produced, nbrWorkers, schedule);
    rest := pipeline.Settle(produced);
  }

  /** The script end to end, for `nbr_workers` workers and the candidates
      `range(1, upper)`: the workers first move as `schedule` says, whatever it
      is, and then until every one has exited; then the collector runs. It
      completes exactly when there is at least one worker; it then counts one
      acknowledgement per worker and has collected every candidate the filter
      accepts exactly once and nothing else. */
  method RunPipeline(upper: int, nbrWorkers: nat, schedule: seq<nat>)
    returns (primes: seq<nat>, count: nat, complete: bool)
    ensures complete <==> nbrWorkers >= 1
    ensures complete ==> count == nbrWorkers
    ensures complete ==> multiset(primes) == multiset(Accepted(Candidates(upper)))
    ensures complete ==> forall v :: multiset(primes)[v] == if 1 <= v < upper && PassesFilter(v) then 1 else 0
  {
    var pipeline, rest := RunWorkers(upper, nbrWorkers, schedule);
    ghost var final := pipeline.results;
    FinalResults(pipeline.Snapshot(), upper, nbrWorkers);
    primes, count, complete := pipeline.Collect();
    if complete {
      ghost var k := |final| - |pipeline.results|;
      ConsumedAll(final, k, nbrWorkers);
      assert final[..k] == final;
      assert primes == PrimesOf(final);
      AcceptedCandidates(upper);
    }
  }

  /** The script's configuration: four workers, candidates `range(1, 200_000_000)`. */
  const ScriptWorkers: nat := 4
  const ScriptUpper: int := 200_000_000

  /** The script as configured, under any schedule of its workers: the collector
      finishes with one acknowledgement per worker, and `primes` holds every
      number below the bound that the filter accepts, each once. */
  method Script(schedule: seq<nat>) returns (primes: seq<nat>, count: nat)
    ensures count == ScriptWorkers
    ensures forall v :: multiset(primes)[v] == if 1 <= v < ScriptUpper && PassesFilter(v) then 1 else 0
  {
    var complete;
    primes, count, complete := RunPipeline(ScriptUpper, ScriptWorkers, schedule);
  }
}
