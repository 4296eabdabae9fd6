# Prime generation with a work queue and poison pills

The script `multiprocessing/prime_generation_with_queue.py` finds primes with a
producer and a pool of workers:

- The main process puts every number of `range(1, 200_000_000)` on a work
  queue. It then puts one poison pill (`FLAG_ALL_DONE`) per worker.
- Each of `nbr_workers = 4` worker processes runs `check_prime`. It takes
  numbers off the work queue:
  - an even number is dropped;
  - an odd number is trial-divided by the odd numbers from 3 to
    `int(math.sqrt(n))`, and put on a results queue if none divides it;
  - a pill makes the worker put one acknowledgement
    (`FLAG_WORKER_FINISHED_PROCESSING`) and exit.
- The main process then drains the results queue. It keeps the numbers and
  counts the acknowledgements, and stops at the `nbr_workers`-th one.

This project models that pipeline in Dafny and proves that it works. It has
four modules:

- `Primality` (`primality.dfy`): the filter. `CheckCandidate` is the trial
  division loop, proved against the predicate `PassesFilter`. Lemmas relate
  the filter to primality.
- `Messages` (`messages.dfy`): the two kinds of queue item. `Work` is a
  candidate or the pill; `Msg` is an accepted value or the acknowledgement.
  The module also holds the producer's output and the counting functions
  (pills, acknowledgements, accepted values).
- `Protocol` (`protocol.dfy`): the worker pool as a transition system.
  - A state holds both queues, each worker's phase (about to `get`, holding
    an item, exited) and each worker's history.
  - `Step` moves one worker. A get and the handling that follows are two
    separate moves, so other workers can act between a worker's `get` and its
    `put`.
  - `Run` plays an arbitrary schedule of moves.
  - `Inv` is the invariant that every reachable state keeps. The end-to-end
    lemmas are stated over it.
- `PrimeGeneration` (`pipeline.dfy`): the script itself, as a `Pipeline`
  object. Its fields are the two queues and the workers' phases.
  - `Produce` has the producer's two loops.
  - `WorkerStep` is one move of a worker.
  - `RunSchedule` moves the workers in the order of a given schedule.
  - `Settle` moves workers until every one has exited. Its helper
    `FirstRunning` picks the next worker to move, the lowest-numbered one that
    has not exited; this choice is the model's own and stands for no code of
    the script.
  - `Collect` is the collector's loop, and `NextResult` its `get`.
  - `RunPipeline` and `Script` run the whole script.

  What ties each method to the pure model:
  - the constructor, `WorkerStep`, `RunSchedule` and `Settle` leave the
    object in the state given by `Protocol.Initial`, `Protocol.Step` and
    `Protocol.Run`;
  - `Produce` appends exactly `Messages.Produced` to the work queue;
  - `CheckCandidate` returns `Primality.PassesFilter`;
  - `Collect`'s contract describes the prefix of the results queue it
    consumes, through `Messages.PrimesOf` and `Messages.Acks`.

The filter is modelled as the code writes it:

- 2 is dropped because it is even.
- 1 is kept because `range(3, 2, 2)` is empty.
- For every odd `n >= 3` the filter is exactly primality.

Textbook primality includes 2 and excludes 1. The script does the opposite,
and the model follows the script (`Primality.FilterDiffersAtOneAndTwo`,
`Messages.OneAndTwo`).

`int(math.sqrt(n))` is modelled as the exact integer square root `Isqrt`.
The two agree for every candidate the script produces, which stay below
200 000 000. Such a candidate converts to a double exactly. For it, the
correctly rounded square root of a non-square `n` just below `(k+1)^2`
cannot round up to `k + 1` while `(k+1)^2 <= 2^52`. So the truncation
yields the floor square root.

The producer runs to completion before any worker moves, and the collector
runs after every worker has exited. The outcomes are the same as with real
concurrency, for two reasons:

- The producer only appends to the work queue, and a worker only takes its
  head. So every interleaving hands each worker the same kind of item at the
  same position of the queue as some schedule that starts after the producer.
- The collector only takes from the head of the results queue, and nothing
  is put there after the last acknowledgement. So collecting later sees the
  same sequence.

Between the producer and the collector, the workers' moves follow an
arbitrary schedule. Every result is proved for every schedule.

## Model

| member | source | states |
|---|---|---|
| Primality.IsqrtBounds | multiprocessing/prime_generation_with_queue.py:20 | `Isqrt(n)` is the largest number whose square is at most `n`: the exact value of `int(math.sqrt(n))` |
| Primality.CheckCandidate | multiprocessing/prime_generation_with_queue.py:18-24 | The even test followed by the `for ... break ... else` over `range(3, isqrt(n) + 1, 2)`. It reaches the put exactly when `n` is odd and no odd `i` with `3 <= i <= isqrt(n)` divides it |
| Primality.FilterCharacterisation | multiprocessing/prime_generation_with_queue.py:18-24 | The filter accepts `n` if and only if `n` is 1 or an odd prime. So every even candidate, 2 included, is dropped, and for odd `n >= 3` the filter is primality |
| Primality.FilterDiffersAtOneAndTwo | multiprocessing/prime_generation_with_queue.py:18-24 | The filter keeps 1, which is not prime, and drops 2, which is |
| Primality.SmallOddDivisor | multiprocessing/prime_generation_with_queue.py:20-22 | An odd composite `n` has an odd divisor between 3 and `isqrt(n)`, so stopping the trial division at the square root misses no divisor |
| Messages.Candidates | multiprocessing/prime_generation_with_queue.py:44-48 | The candidates of `range(1, upper)`: `upper - 1` of them (none if `upper <= 1`), the `i`-th being `i + 1` |
| Messages.Pills | multiprocessing/prime_generation_with_queue.py:52-53 | `k` items, all of them the pill |
| Messages.Produced | multiprocessing/prime_generation_with_queue.py:44-53 | The producer's output is the candidates in ascending order followed by exactly `nbrWorkers` pills. It holds `nbrWorkers` pills in all, and its accepted candidates are those of the range |
| Messages.PillsInPrefix | multiprocessing/prime_generation_with_queue.py:47-53 | A prefix of the producer's output holds no pill while it lies within the candidates, then one per further item |
| Messages.AcceptedCandidates | multiprocessing/prime_generation_with_queue.py:18-24 | Applying the filter to `range(1, upper)` yields every `1 <= v < upper` that passes the filter exactly once, and nothing else |
| Messages.OneAndTwo | multiprocessing/prime_generation_with_queue.py:18-24 | On the candidates 1 and 2 the filter's output is `[1]` |
| Messages.ConsumedAll | multiprocessing/prime_generation_with_queue.py:57-63 | A collector that stops at the `n`-th acknowledgement, on a queue holding exactly `n` and ending with one, has consumed the whole queue |
| Protocol.Initial | multiprocessing/prime_generation_with_queue.py:32-40 | The pool just after start-up: `nbrWorkers` workers, each about to `get`, with nothing taken or put |
| Protocol.Reaction | multiprocessing/prime_generation_with_queue.py:13-24 | One item causes at most one put. A pill causes exactly one acknowledgement. A candidate causes no acknowledgement, and the only value it can put is itself, exactly when the filter accepts it |
| Protocol.OutputsCounts | multiprocessing/prime_generation_with_queue.py:11-24 | Over any sequence of items a worker handles, it acknowledges once per pill and puts exactly the accepted candidates, in the order it got them |
| Protocol.Step | multiprocessing/prime_generation_with_queue.py:11-24 | One move of a worker keeps the state well formed and the pool size. A worker that cannot move (exited, or waiting on an empty queue) changes nothing |
| Protocol.InitialInv | multiprocessing/prime_generation_with_queue.py:32-53 | The invariant holds when the workers start on the producer's output |
| Protocol.StepInv | multiprocessing/prime_generation_with_queue.py:11-24 | Every move of every worker keeps the invariant: the FIFO queue, the accounting of accepted values and pills, every worker's history, and the final acknowledgement |
| Protocol.RunInv | multiprocessing/prime_generation_with_queue.py:11-24 | Whatever the schedule, the invariant holds |
| Protocol.StepProgress | multiprocessing/prime_generation_with_queue.py:11-24 | Every move that happens brings the pool exactly one move closer to the end: two moves per queued item, one per held item |
| Protocol.NotExitedIsEnabled | multiprocessing/prime_generation_with_queue.py:12-53 | No worker blocks for ever: with one pill per worker in the producer's output, a worker that has not exited can always move |
| Protocol.ExitedIsFinal | multiprocessing/prime_generation_with_queue.py:13-16 | A worker that has handled its pill never moves again: it takes nothing more and puts nothing more |
| Protocol.WorkerDiscipline | multiprocessing/prime_generation_with_queue.py:11-24 | At every moment, each worker has taken a pill only if it holds it or has exited, and has acknowledged exactly when it has exited. An exited worker took exactly one pill and put exactly one acknowledgement, and that acknowledgement was the last thing it put |
| Protocol.Completion | multiprocessing/prime_generation_with_queue.py:11-53 | Once all `nbrWorkers >= 1` workers have exited, the work queue is empty and each worker took exactly one pill and put exactly one acknowledgement. So each pill went to a distinct worker. The results queue then holds `nbrWorkers` acknowledgements, ends with one, and its values are, as a multiset, the accepted candidates of the range |
| Protocol.FinalResults | multiprocessing/prime_generation_with_queue.py:55-66 | What the collector finds once every worker has exited: `nbrWorkers` acknowledgements, and if there is a worker, one of them last and the values being the accepted candidates |
| Protocol.SchedulerStep | multiprocessing/prime_generation_with_queue.py:11-24 | Moving a worker that has not exited is always possible, keeps the invariant and makes progress |
| Protocol.ScheduleOutcome | multiprocessing/prime_generation_with_queue.py:10-66 | For every schedule after which all workers have exited, the results queue holds one acknowledgement per worker and, as a multiset, exactly the accepted candidates of the range |
| Protocol.WorkerCountIrrelevant | multiprocessing/prime_generation_with_queue.py:28-40 | The multiset of collected values does not depend on the number of workers nor on the schedule |
| PrimeGeneration.Pipeline.constructor | multiprocessing/prime_generation_with_queue.py:32-40 | Both queues start empty, and `nbrWorkers` workers start, each about to `get` |
| PrimeGeneration.Pipeline.Produce | multiprocessing/prime_generation_with_queue.py:44-53 | The producer's two loops append the candidates of `range(1, upper)` in ascending order, then `nbrWorkers` pills, to the work queue, and change nothing else |
| PrimeGeneration.Pipeline.WorkerStep | multiprocessing/prime_generation_with_queue.py:11-24 | One move of worker `w` is exactly `Protocol.Step`, and it reports whether the worker could move |
| PrimeGeneration.Pipeline.RunSchedule | multiprocessing/prime_generation_with_queue.py:11-24 | Moving the workers in schedule order is exactly `Protocol.Run` |
| PrimeGeneration.Pipeline.Settle | multiprocessing/prime_generation_with_queue.py:11-24 | Moving workers that have not exited always ends, with every worker exited. The moves form a schedule, and the invariant holds throughout |
| PrimeGeneration.Pipeline.NextResult | multiprocessing/prime_generation_with_queue.py:58 | `get` on the results queue removes and returns its head |
| PrimeGeneration.Pipeline.Collect | multiprocessing/prime_generation_with_queue.py:56-66 | The collector removes a prefix of the results queue and keeps its values in order. Its counter is the number of acknowledgements in that prefix. It completes exactly when there are workers and the queue holds at least `nbrWorkers` acknowledgements, and then the counter equals `nbrWorkers` and the prefix ends at that acknowledgement. Otherwise it has emptied the queue |
| PrimeGeneration.RunWorkers | multiprocessing/prime_generation_with_queue.py:32-53 | Start-up, producer and workers, with the workers first following the given schedule and then moving until all have exited. The result is a state reached by a schedule, satisfying the invariant, with every worker exited |
| PrimeGeneration.RunPipeline | multiprocessing/prime_generation_with_queue.py:27-66 | The script end to end, for any number of workers and any schedule. It completes exactly when there is at least one worker. The counter then equals `nbrWorkers`, and the collected values are every accepted candidate of the range, each once |
| PrimeGeneration.Script | multiprocessing/prime_generation_with_queue.py:27-66 | With the script's four workers and `range(1, 200_000_000)`, under any schedule, the counter is 4 and the collected values are every number below the bound that the filter accepts, each once |

## Left out

- `multiprocessing.Manager`, `Process` and real parallelism. Worker concurrency is an explicit schedule of moves. The producer and the collector run before and after the workers; the reason these orders give the same outcomes is explained above, but that commutation is not itself proved.
- `time.time()` and every `print`: they affect no queue.
- `math.sqrt` on floating point: it is modelled by the exact integer square root, which agrees with it on every candidate below 2^52.
- The `maxsize` bound suggested in a comment on line 33: the script does not set it, so in the model `put` never blocks.
- Negative candidates: the producer enqueues only `range(1, …)`, and candidates are `nat`.
- `PrimeGeneration.Pipeline.Collect`: with `nbr_workers == 0` the script's collector blocks for ever on an empty queue. The model stops when the queue is empty and returns `complete == false` instead.
- The timing and the summary of line 69 (`len(primes)` and the first and last ten values) are output only.
- The byte-string flags are tagged datatype constructors. A candidate can therefore never be mistaken for a flag, which holds in the script too, since integers never equal byte strings.
- The other files of the repository (the estimation scripts, the thread and `asyncio` examples) are not part of this model.
