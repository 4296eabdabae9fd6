/**
  The worker pool as a transition system. Each worker runs the loop of
  `check_prime`: it takes the head of the work queue (`get`), then handles it;
  a poison pill makes it put one acknowledgement and exit, a candidate makes it
  put the candidate if the filter accepts it. The two halves are separate steps
  so that other workers may act between a worker's `get` and its `put`. A
  schedule (a sequence of worker numbers) says which worker moves next; a worker
  that has exited, or that waits on an empty queue, does not move.
 */
module Protocol {
  import opened Primality
  import opened Messages

  /** A worker's control state: about to `get`, holding the item it got, or exited. */
  datatype Phase = Waiting | Holding(item: Work) | Exited

  /** The two queues, every worker's phase and, per worker, the history of
      what it took from the work queue and what it put on the results queue. */
  datatype State = State(
    work: seq<Work>,
    results: seq<Msg>,
    phases: seq<Phase>,
    taken: seq<seq<Work>>,
    pushed: seq<seq<Msg>>)

  predicate WellFormed(s: State) {
    |s.taken| == |s.phases| && |s.pushed| == |s.phases|
  }

  /** `nbrWorkers` started workers over the work queue `work`; nothing has been
      taken or put yet. */
  function Initial(work: seq<Work>, nbrWorkers: nat): (s: State)
    ensures WellFormed(s) && |s.phases| == nbrWorkers
    ensures s.work == work && s.results == []
    ensures forall w :: 0 <= w < nbrWorkers ==>
              s.phases[w] == Waiting && s.taken[w] == [] && s.pushed[w] == []
  {
    State(work, [], seq(nbrWorkers, _ => Waiting), seq(nbrWorkers, _ => []), seq(nbrWorkers, _ => []))
  }

  /** What a worker puts on the results queue after getting `x`: one
      acknowledgement for a pill, its own value for an accepted candidate,
      nothing for a rejected one. */
  function Reaction(x: Work): (r: seq<Msg>)
    ensures |r| <= 1
    ensures Acks(r) == PillCount([x])
    ensures PrimesOf(r) == Accepted([x])
  {
    match x
    case AllDone => [WorkerFinished]
    case Value(n) => if PassesFilter(n) then [Prime(n)] else []
  }

  /** Everything a worker puts after handling the items `t` in turn. */
  function Outputs(t: seq<Work>): seq<Msg> {
    if t == [] then [] else Reaction(t[0]) + Outputs(t[1..])
  }

  lemma {:induction false} OutputsConcat(a: seq<Work>, b: seq<Work>)
    ensures Outputs(a + b) == Outputs(a) + Outputs(b)
  {
    if a == [] {
      assert a + b == b;
    } else {
      assert (a + b)[1..] == a[1..] + b;
      OutputsConcat(a[1..], b);
    }
  }

  /** A worker acknowledges once per pill it handled, and puts exactly the
      accepted candidates it handled, in the order it handled them. */
  lemma {:induction false} OutputsCounts(t: seq<Work>)
    ensures Acks(Outputs(t)) == PillCount(t)
    ensures PrimesOf(Outputs(t)) == Accepted(t)
  {
    if t != [] {
      OutputsCounts(t[1..]);
      AcksConcat(Reaction(t[0]), Outputs(t[1..]));
      PrimesOfConcat(Reaction(t[0]), Outputs(t[1..]));
      var r := Reaction(t[0]);
      assert PillCount(t) == PillCount([t[0]]) + PillCount(t[1..]);
      assert Accepted(t) == Accepted([t[0]]) + Accepted(t[1..]);
    }
  }

  /** Worker `w` can move: it holds an item, or it waits and the queue is not empty. */
  predicate Enabled(s: State, w: nat) {
    w < |s.phases| && (s.phases[w].Holding? || (s.phases[w] == Waiting && s.work != []))
  }

  /** One move of worker `w`. */
  function Step(s: State, w: nat): (r: State)
    requires WellFormed(s)
    ensures WellFormed(r) && |r.phases| == |s.phases|
    ensures !Enabled(s, w) ==> r == s
  {
    if w >= |s.phases| then s
    else match s.phases[w]
      case Exited => s
      case Waiting =>
        if s.work == [] then s
        else
          var x := s.work[0];
          s.(work := s.work[1..],
             phases := s.phases[w := Holding(x)],
             taken := s.taken[w := s.taken[w] + [x]])
      case Holding(x) =>
        var out := Reaction(x);
        s.(results := s.results + out,
           phases := s.phases[w := if x == AllDone then Exited else Waiting],
           pushed := s.pushed[w := s.pushed[w] + out])
  }

  /** The moves of `schedule`, in order. */
  function Run(s: State, schedule: seq<nat>): (r: State)
    requires WellFormed(s)
    ensures WellFormed(r) && |r.phases| == |s.phases|
  {
    if schedule == [] then s
    else Step(Run(s, schedule[..|schedule| - 1]), schedule[|schedule| - 1])
  }

  predicate AllExited(s: State) {
    forall w :: 0 <= w < |s.phases| ==> s.phases[w] == Exited
  }

  // Counting over the workers' phases.

  function ExitedCount(ph: seq<Phase>): nat {
    if ph == [] then 0 else (if ph[0] == Exited then 1 else 0) + ExitedCount(ph[1..])
  }

  function HoldingCount(ph: seq<Phase>): nat {
    if ph == [] then 0 else (if ph[0].Holding? then 1 else 0) + HoldingCount(ph[1..])
  }

  function HoldingPillCount(ph: seq<Phase>): nat {
    if ph == [] then 0 else (if ph[0] == Holding(AllDone) then 1 else 0) + HoldingPillCount(ph[1..])
  }

  /** The accepted candidates that workers hold but have not put yet. */
  function HeldOne(p: Phase): multiset<nat> {
    match p
    case Holding(x) => multiset(Accepted([x]))
    case _ => multiset{}
  }

  function HeldAccepted(ph: seq<Phase>): multiset<nat> {
    if ph == [] then multiset{} else HeldOne(ph[0]) + HeldAccepted(ph[1..])
  }

  /** Moves still to come: two per queued item (take, handle), one per held item. */
  function Pending(s: State): nat {
    2 * |s.work| + HoldingCount(s.phases)
  }

  lemma {:induction false} ExitedUpdate(ph: seq<Phase>, w: nat, p: Phase)
    requires w < |ph|
    ensures ExitedCount(ph[w := p]) + (if ph[w] == Exited then 1 else 0)
            == ExitedCount(ph) + (if p == Exited then 1 else 0)
  {
    if w > 0 {
      assert ph[w := p][1..] == ph[1..][w - 1 := p];
      ExitedUpdate(ph[1..], w - 1, p);
    } else {
      assert ph[w := p][1..] == ph[1..];
    }
  }

  lemma {:induction false} HoldingUpdate(ph: seq<Phase>, w: nat, p: Phase)
    requires w < |ph|
    ensures HoldingCount(ph[w := p]) + (if ph[w].Holding? then 1 else 0)
            == HoldingCount(ph) + (if p.Holding? then 1 else 0)
  {
    if w > 0 {
      assert ph[w := p][1..] == ph[1..][w - 1 := p];
      HoldingUpdate(ph[1..], w - 1, p);
    } else {
      assert ph[w := p][1..] == ph[1..];
    }
  }

  lemma {:induction false} HoldingPillUpdate(ph: seq<Phase>, w: nat, p: Phase)
    requires w < |ph|
    ensures HoldingPillCount(ph[w := p]) + (if ph[w] == Holding(AllDone) then 1 else 0)
            == HoldingPillCount(ph) + (if p == Holding(AllDone) then 1 else 0)
  {
    if w > 0 {
      assert ph[w := p][1..] == ph[1..][w - 1 := p];
      HoldingPillUpdate(ph[1..], w - 1, p);
    } else {
      assert ph[w := p][1..] == ph[1..];
    }
  }

  lemma {:induction false} HeldUpdate(ph: seq<Phase>, w: nat, p: Phase)
    requires w < |ph|
    ensures HeldAccepted(ph[w := p]) + HeldOne(ph[w]) == HeldAccepted(ph) + HeldOne(p)
  {
    var a := ph[w := p];
    if w > 0 {
      assert a[1..] == ph[1..][w - 1 := p];
      assert a[0] == ph[0] && ph[1..][w - 1] == ph[w];
      HeldUpdate(ph[1..], w - 1, p);
      HeldCons(a);
      HeldCons(ph);
      MultisetShift(HeldOne(ph[0]), HeldAccepted(a[1..]), HeldOne(ph[w]), HeldAccepted(ph[1..]), HeldOne(p));
    } else {
      assert a[1..] == ph[1..];
    }
  }

  lemma HeldCons(ph: seq<Phase>)
    requires ph != []
    ensures HeldAccepted(ph) == HeldOne(ph[0]) + HeldAccepted(ph[1..])
  {}

  lemma MultisetShift(a: multiset<nat>, b: multiset<nat>, c: multiset<nat>, d: multiset<nat>, e: multiset<nat>)
    requires b + c == d + e
    ensures a + b + c == a + d + e
  {
    forall v
      ensures (a + b + c)[v] == (a + d + e)[v]
    {
      assert (b + c)[v] == (d + e)[v];
    }
  }

  /** Changing one worker's phase changes each count by that worker's share. */
  lemma CountsUpdate(ph: seq<Phase>, w: nat, p: Phase)
    requires w < |ph|
    ensures ExitedCount(ph[w := p]) + (if ph[w] == Exited then 1 else 0)
            == ExitedCount(ph) + (if p == Exited then 1 else 0)
    ensures HoldingCount(ph[w := p]) + (if ph[w].Holding? then 1 else 0)
            == HoldingCount(ph) + (if p.Holding? then 1 else 0)
    ensures HoldingPillCount(ph[w := p]) + (if ph[w] == Holding(AllDone) then 1 else 0)
            == HoldingPillCount(ph) + (if p == Holding(AllDone) then 1 else 0)
    ensures HeldAccepted(ph[w := p]) + HeldOne(ph[w]) == HeldAccepted(ph) + HeldOne(p)
  {
    ExitedUpdate(ph, w, p);
    HoldingUpdate(ph, w, p);
    HoldingPillUpdate(ph, w, p);
    HeldUpdate(ph, w, p);
  }

  lemma {:induction false} CountsAllExited(ph: seq<Phase>)
    requires forall w :: 0 <= w < |ph| ==> ph[w] == Exited
    ensures ExitedCount(ph) == |ph| && HoldingPillCount(ph) == 0 && HoldingCount(ph) == 0
    ensures HeldAccepted(ph) == multiset{}
  {
    if ph != [] {
      CountsAllExited(ph[1..]);
    }
  }

  lemma {:induction false} CountsAllWaiting(ph: seq<Phase>)
    requires forall w :: 0 <= w < |ph| ==> ph[w] == Waiting
    ensures ExitedCount(ph) == 0 && HoldingPillCount(ph) == 0 && HoldingCount(ph) == 0
    ensures HeldAccepted(ph) == multiset{}
  {
    if ph != [] {
      CountsAllWaiting(ph[1..]);
    }
  }

  /** A waiting worker is neither exited nor holding a pill, so fewer than all
      workers are. */
  lemma {:induction false} CountsWithWaiting(ph: seq<Phase>, w: nat)
    requires w < |ph| && ph[w] == Waiting
    ensures ExitedCount(ph) + HoldingPillCount(ph) < |ph|
  {
    if w > 0 {
      CountsWithWaiting(ph[1..], w - 1);
    } else {
      CountsBound(ph[1..]);
    }
  }

  lemma {:induction false} CountsBound(ph: seq<Phase>)
    ensures ExitedCount(ph) + HoldingPillCount(ph) <= |ph|
  {
    if ph != [] {
      CountsBound(ph[1..]);
    }
  }

  // The invariant of the pool.

  predicate NoPill(t: seq<Work>) {
    forall i :: 0 <= i < |t| ==> t[i] != AllDone
  }

  lemma {:induction false} NoPillCount(t: seq<Work>)
    requires NoPill(t)
    ensures PillCount(t) == 0
  {
    if t != [] {
      NoPillCount(t[1..]);
    }
  }

  /** What one worker has taken (`t`) and put (`u`) in phase `p`: it took no
      pill before its last item, and it has put exactly the reactions to the
      items it finished handling. */
  predicate WorkerHistory(p: Phase, t: seq<Work>, u: seq<Msg>) {
    match p
    case Waiting => NoPill(t) && u == Outputs(t)
    case Holding(x) => |t| > 0 && t[|t| - 1] == x && NoPill(t[..|t| - 1]) && u == Outputs(t[..|t| - 1])
    case Exited => |t| > 0 && t[|t| - 1] == AllDone && NoPill(t[..|t| - 1]) && u == Outputs(t)
  }

  /** The items taken so far: the part of the producer's output `produced` that
      is no longer on the work queue. */
  function TakenSoFar(s: State, produced: seq<Work>): seq<Work>
    requires |s.work| <= |produced|
  {
    produced[..|produced| - |s.work|]
  }

  /** Invariant of every state the pool reaches from the producer's output
      `produced` with `nbrWorkers` workers:
      - the work queue is what remains of `produced` (FIFO, each item taken once);
      - every taken candidate the filter accepts is either on the results queue
        or held by a worker (as multisets: workers race);
      - there is one acknowledgement per exited worker, and every pill taken
        so far is held or has made its worker exit;
      - each worker's own history is consistent with its phase;
      - once every worker has exited, an acknowledgement is the last result. */
  predicate Inv(s: State, produced: seq<Work>, nbrWorkers: nat) {
    && WellFormed(s) && |s.phases| == nbrWorkers
    && QueueInv(s, produced)
    && CountInv(s, produced)
    && HistoryInv(s)
    && EndInv(s)
  }

  predicate QueueInv(s: State, produced: seq<Work>) {
    |s.work| <= |produced| && s.work == produced[|produced| - |s.work|..]
  }

  predicate CountInv(s: State, produced: seq<Work>)
    requires |s.work| <= |produced|
  {
    && multiset(PrimesOf(s.results)) + HeldAccepted(s.phases)
       == multiset(Accepted(TakenSoFar(s, produced)))
    && Acks(s.results) == ExitedCount(s.phases)
    && PillCount(TakenSoFar(s, produced)) == ExitedCount(s.phases) + HoldingPillCount(s.phases)
  }

  predicate HistoryInv(s: State)
    requires WellFormed(s)
  {
    forall w :: 0 <= w < |s.phases| ==> WorkerHistory(s.phases[w], s.taken[w], s.pushed[w])
  }

  predicate EndInv(s: State) {
    |s.phases| > 0 && AllExited(s) ==>
      |s.results| > 0 && s.results[|s.results| - 1] == WorkerFinished
  }

  lemma InitialInv(produced: seq<Work>, nbrWorkers: nat)
    ensures Inv(Initial(produced, nbrWorkers), produced, nbrWorkers)
  {
    var s := Initial(produced, nbrWorkers);
    CountsAllWaiting(s.phases);
    assert TakenSoFar(s, produced) == [];
    assert produced[|produced| - |s.work|..] == produced;
    forall w | 0 <= w < nbrWorkers
      ensures WorkerHistory(s.phases[w], s.taken[w], s.pushed[w])
    {
      assert s.taken[w] == [];
    }
  }

  /** A `get` removes the head of the work queue, which is the next item of the
      producer's output. */
  lemma TakeQueue(s: State, produced: seq<Work>, w: nat)
    requires WellFormed(s) && QueueInv(s, produced)
    requires w < |s.phases| && s.phases[w] == Waiting && s.work != []
    ensures QueueInv(Step(s, w), produced)
    ensures TakenSoFar(Step(s, w), produced) == TakenSoFar(s, produced) + [s.work[0]]
  {
    var r := Step(s, w);
    var k := |produced| - |s.work|;
    assert produced[k] == s.work[0];
    assert r.work == produced[k + 1..];
    assert produced[..k + 1] == produced[..k] + [produced[k]];
  }

  lemma TakeCounts(s: State, produced: seq<Work>, w: nat)
    requires WellFormed(s) && QueueInv(s, produced) && CountInv(s, produced)
    requires w < |s.phases| && s.phases[w] == Waiting && s.work != []
    ensures QueueInv(Step(s, w), produced) && CountInv(Step(s, w), produced)
  {
    var r := Step(s, w);
    var x := s.work[0];
    assert r.results == s.results && r.phases == s.phases[w := Holding(x)];
    var t := TakenSoFar(s, produced);
    TakeQueue(s, produced, w);
    assert TakenSoFar(r, produced) == t + [x];
    AcceptedConcat(t, [x]);
    assert multiset(Accepted(t + [x])) == multiset(Accepted(t)) + multiset(Accepted([x]));
    PillCountConcat(t, [x]);
    ExitedUpdate(s.phases, w, Holding(x));
    HoldingPillUpdate(s.phases, w, Holding(x));
    HeldUpdate(s.phases, w, Holding(x));
    var m, h, h', ax := multiset(PrimesOf(s.results)), HeldAccepted(s.phases), HeldAccepted(r.phases),
                        multiset(Accepted([x]));
    assert HeldOne(s.phases[w]) == multiset{} && HeldOne(Holding(x)) == ax;
    MultisetGain(m, h, h', ax, multiset(Accepted(t)), multiset(Accepted(t + [x])));
  }

  /** Bookkeeping of a `get`: the accepted part of the new item moves into the
      held multiset and into the taken total alike. */
  lemma MultisetGain(m: multiset<nat>, h: multiset<nat>, h': multiset<nat>, ax: multiset<nat>,
                     total: multiset<nat>, total': multiset<nat>)
    requires m + h == total && h' + multiset{} == h + ax && total' == total + ax
    ensures m + h' == total'
  {
    forall v
      ensures (m + h')[v] == total'[v]
    {
      assert (h' + multiset{})[v] == (h + ax)[v];
    }
  }

  lemma TakeHistory(s: State, w: nat)
    requires WellFormed(s) && HistoryInv(s)
    requires w < |s.phases| && s.phases[w] == Waiting && s.work != []
    ensures HistoryInv(Step(s, w))
  {
    var r := Step(s, w);
    var x := s.work[0];
    var t := s.taken[w];
    assert r.taken[w] == t + [x];
    assert (t + [x])[..|t + [x]| - 1] == t;
    forall v | 0 <= v < |r.phases|
      ensures WorkerHistory(r.phases[v], r.taken[v], r.pushed[v])
    {
      if v != w {
        assert r.phases[v] == s.phases[v] && r.taken[v] == s.taken[v] && r.pushed[v] == s.pushed[v];
      }
    }
  }

  lemma TakeInv(s: State, produced: seq<Work>, nbrWorkers: nat, w: nat)
    requires Inv(s, produced, nbrWorkers)
    requires w < nbrWorkers && s.phases[w] == Waiting && s.work != []
    ensures Inv(Step(s, w), produced, nbrWorkers)
  {
    TakeCounts(s, produced, w);
    TakeHistory(s, w);
    assert Step(s, w).phases[w] != Exited;
  }

  lemma HandleCounts(s: State, produced: seq<Work>, w: nat)
    requires WellFormed(s) && QueueInv(s, produced) && CountInv(s, produced)
    requires w < |s.phases| && s.phases[w].Holding?
    ensures QueueInv(Step(s, w), produced) && CountInv(Step(s, w), produced)
  {
    var r := Step(s, w);
    var x := s.phases[w].item;
    var out := Reaction(x);
    var np := if x == AllDone then Exited else Waiting;
    assert r.results == s.results + out && r.phases == s.phases[w := np] && r.work == s.work;
    var t := TakenSoFar(s, produced);
    assert TakenSoFar(r, produced) == t;
    AcksConcat(s.results, out);
    PrimesOfConcat(s.results, out);
    ExitedUpdate(s.phases, w, np);
    HoldingPillUpdate(s.phases, w, np);
    HeldUpdate(s.phases, w, np);
    var m, h, h', mo := multiset(PrimesOf(s.results)), HeldAccepted(s.phases), HeldAccepted(r.phases),
                        multiset(PrimesOf(out));
    assert HeldOne(s.phases[w]) == mo && HeldOne(np) == multiset{};
    assert multiset(PrimesOf(r.results)) == m + mo;
    MultisetHandOver(m, h, h', mo, multiset(Accepted(t)));
  }

  /** Bookkeeping of a `put`: what the worker held moves onto the results queue. */
  lemma MultisetHandOver(m: multiset<nat>, h: multiset<nat>, h': multiset<nat>, mo: multiset<nat>,
                         total: multiset<nat>)
    requires m + h == total && h' + mo == h + multiset{}
    ensures m + mo + h' == total
  {
    forall v
      ensures (m + mo + h')[v] == total[v]
    {
      assert (h' + mo)[v] == (h + multiset{})[v];
    }
  }

  lemma HandleHistory(s: State, w: nat)
    requires WellFormed(s) && HistoryInv(s)
    requires w < |s.phases| && s.phases[w].Holding?
    ensures HistoryInv(Step(s, w))
  {
    var r := Step(s, w);
    var x := s.phases[w].item;
    var out := Reaction(x);
    var t := s.taken[w];
    var t0 := t[..|t| - 1];
    assert t == t0 + [x];
    OutputsConcat(t0, [x]);
    assert Outputs([x]) == out by {
      assert [x][1..] == [];
    }
    assert r.pushed[w] == Outputs(t);
    if x != AllDone {
      assert NoPill(t);
    }
    forall v | 0 <= v < |r.phases|
      ensures WorkerHistory(r.phases[v], r.taken[v], r.pushed[v])
    {
      if v != w {
        assert r.phases[v] == s.phases[v] && r.taken[v] == s.taken[v] && r.pushed[v] == s.pushed[v];
      }
    }
  }

  lemma HandleEnd(s: State, w: nat)
    requires WellFormed(s) && EndInv(s)
    requires w < |s.phases| && s.phases[w].Holding?
    ensures EndInv(Step(s, w))
  {
    var r := Step(s, w);
    if AllExited(r) {
      assert r.phases[w] == Exited;
      assert s.phases[w].item == AllDone;
    }
  }

  lemma HandleInv(s: State, produced: seq<Work>, nbrWorkers: nat, w: nat)
    requires Inv(s, produced, nbrWorkers)
    requires w < nbrWorkers && s.phases[w].Holding?
    ensures Inv(Step(s, w), produced, nbrWorkers)
  {
    HandleCounts(s, produced, w);
    HandleHistory(s, w);
    HandleEnd(s, w);
  }

  /** Every move keeps the invariant. */
  lemma StepInv(s: State, produced: seq<Work>, nbrWorkers: nat, w: nat)
    requires Inv(s, produced, nbrWorkers)
    ensures Inv(Step(s, w), produced, nbrWorkers)
  {
    if Enabled(s, w) {
      if s.phases[w].Holding? {
        HandleInv(s, produced, nbrWorkers, w);
      } else {
        TakeInv(s, produced, nbrWorkers, w);
      }
    }
  }

  /** Whatever the schedule, the invariant holds. */
  lemma {:induction false} RunInv(s: State, produced: seq<Work>, nbrWorkers: nat, schedule: seq<nat>)
    requires Inv(s, produced, nbrWorkers)
    ensures Inv(Run(s, schedule), produced, nbrWorkers)
  {
    if schedule != [] {
      var prefix := schedule[..|schedule| - 1];
      RunInv(s, produced, nbrWorkers, prefix);
      StepInv(Run(s, prefix), produced, nbrWorkers, schedule[|schedule| - 1]);
    }
  }

  /** Every effective move brings the pool one move closer to the end. */
  lemma StepProgress(s: State, w: nat)
    requires WellFormed(s) && Enabled(s, w)
    ensures Pending(Step(s, w)) + 1 == Pending(s)
  {
    var r := Step(s, w);
    match s.phases[w]
    case Waiting =>
      CountsUpdate(s.phases, w, Holding(s.work[0]));
    case Holding(x) =>
      CountsUpdate(s.phases, w, if x == AllDone then Exited else Waiting);
  }

  /** No deadlock: while the producer's output holds one pill per worker, a
      worker that has not exited can always move. */
  lemma NotExitedIsEnabled(s: State, produced: seq<Work>, nbrWorkers: nat, w: nat)
    requires Inv(s, produced, nbrWorkers) && PillCount(produced) == nbrWorkers
    requires w < nbrWorkers && s.phases[w] != Exited
    ensures Enabled(s, w)
  {
    if s.phases[w] == Waiting && s.work == [] {
      assert TakenSoFar(s, produced) == produced;
      CountsWithWaiting(s.phases, w);
      assert false;
    }
  }

  /** A worker that has exited never moves again: it takes and puts nothing more. */
  lemma {:induction false} ExitedIsFinal(s: State, schedule: seq<nat>, w: nat)
    requires WellFormed(s) && w < |s.phases| && s.phases[w] == Exited
    ensures Run(s, schedule).phases[w] == Exited
    ensures Run(s, schedule).taken[w] == s.taken[w]
    ensures Run(s, schedule).pushed[w] == s.pushed[w]
  {
    if schedule != [] {
      var prefix := schedule[..|schedule| - 1];
      ExitedIsFinal(s, prefix, w);
    }
  }

  lemma WaitingHistory(t: seq<Work>, u: seq<Msg>)
    requires WorkerHistory(Waiting, t, u)
    ensures PillCount(t) == 0 && Acks(u) == 0
  {
    NoPillCount(t);
    OutputsCounts(t);
  }

  lemma HoldingHistory(x: Work, t: seq<Work>, u: seq<Msg>)
    requires WorkerHistory(Holding(x), t, u)
    ensures PillCount(t) == (if x == AllDone then 1 else 0) && Acks(u) == 0
  {
    var t0 := t[..|t| - 1];
    assert t == t0 + [x];
    NoPillCount(t0);
    PillCountConcat(t0, [x]);
    OutputsCounts(t0);
  }

  lemma ExitedHistory(t: seq<Work>, u: seq<Msg>)
    requires WorkerHistory(Exited, t, u)
    ensures PillCount(t) == 1 && Acks(u) == 1
    ensures |u| > 0 && u[|u| - 1] == WorkerFinished && Acks(u[..|u| - 1]) == 0
  {
    var t0 := t[..|t| - 1];
    assert t == t0 + [AllDone];
    NoPillCount(t0);
    PillCountConcat(t0, [AllDone]);
    OutputsCounts(t0);
    OutputsConcat(t0, [AllDone]);
    PillOutputs();
    AckAppended(Outputs(t0));
  }

  /** A pill's only output is the acknowledgement. */
  lemma PillOutputs()
    ensures Outputs([AllDone]) == [WorkerFinished]
  {
    assert [AllDone][1..] == [];
  }

  /** Appending the acknowledgement to a stretch without one. */
  lemma AckAppended(o: seq<Msg>)
    requires Acks(o) == 0
    ensures var u := o + [WorkerFinished];
            Acks(u) == 1 && u[|u| - 1] == WorkerFinished && u[..|u| - 1] == o
  {
    AcksConcat(o, [WorkerFinished]);
    assert (o + [WorkerFinished])[..|o|] == o;
  }

  /** At every moment each worker has taken at most one pill (and one only if it
      holds it or has exited), has acknowledged exactly when it has exited, and
      its acknowledgement is the last thing it put. */
  lemma WorkerDiscipline(s: State, produced: seq<Work>, nbrWorkers: nat, w: nat)
    requires Inv(s, produced, nbrWorkers) && w < nbrWorkers
    ensures s.phases[w] == Waiting ==> PillCount(s.taken[w]) == 0 && Acks(s.pushed[w]) == 0
    ensures s.phases[w].Holding? ==>
              PillCount(s.taken[w]) == (if s.phases[w].item == AllDone then 1 else 0)
              && Acks(s.pushed[w]) == 0
    ensures s.phases[w] == Exited ==>
              PillCount(s.taken[w]) == 1 && Acks(s.pushed[w]) == 1
              && |s.pushed[w]| > 0 && s.pushed[w][|s.pushed[w]| - 1] == WorkerFinished
              && Acks(s.pushed[w][..|s.pushed[w]| - 1]) == 0
  {
    assert WorkerHistory(s.phases[w], s.taken[w], s.pushed[w]);
    match s.phases[w]
    case Waiting => WaitingHistory(s.taken[w], s.pushed[w]);
    case Holding(x) => HoldingHistory(x, s.taken[w], s.pushed[w]);
    case Exited => ExitedHistory(s.taken[w], s.pushed[w]);
  }

  /** Once every one of `nbrWorkers >= 1` workers has exited: the work queue is
      empty, every worker took exactly one pill and put exactly one
      acknowledgement, last; the results queue holds `nbrWorkers`
      acknowledgements, ends with one, and carries exactly the candidates of
      `range(1, upper)` the filter accepts, each once, in some order. */
  lemma Completion(s: State, upper: int, nbrWorkers: nat)
    requires nbrWorkers >= 1
    requires Inv(s, Produced(upper, nbrWorkers), nbrWorkers) && AllExited(s)
    ensures s.work == []
    ensures forall w :: 0 <= w < nbrWorkers ==>
              PillCount(s.taken[w]) == 1 && Acks(s.pushed[w]) == 1
    ensures Acks(s.results) == nbrWorkers
    ensures |s.results| > 0 && s.results[|s.results| - 1] == WorkerFinished
    ensures multiset(PrimesOf(s.results)) == multiset(Accepted(Candidates(upper)))
  {
    var p := Produced(upper, nbrWorkers);
    AllTaken(s, upper, nbrWorkers);
    forall w | 0 <= w < nbrWorkers
      ensures PillCount(s.taken[w]) == 1 && Acks(s.pushed[w]) == 1
    {
      WorkerDiscipline(s, p, nbrWorkers, w);
    }
  }

  /** Once every worker has exited, the whole producer's output has been taken. */
  lemma AllTaken(s: State, upper: int, nbrWorkers: nat)
    requires nbrWorkers >= 1
    requires Inv(s, Produced(upper, nbrWorkers), nbrWorkers) && AllExited(s)
    ensures s.work == [] && TakenSoFar(s, Produced(upper, nbrWorkers)) == Produced(upper, nbrWorkers)
    ensures HoldingPillCount(s.phases) == 0 && HeldAccepted(s.phases) == multiset{}
    ensures ExitedCount(s.phases) == nbrWorkers
  {
    var p := Produced(upper, nbrWorkers);
    CountsAllExited(s.phases);
    var k := |p| - |s.work|;
    PillsInPrefix(upper, nbrWorkers, k);
    assert k == |p|;
  }

  /** What the collector finds once every worker has exited: one
      acknowledgement per worker, the last of them at the end, and the accepted
      candidates of the range in some order. */
  lemma FinalResults(s: State, upper: int, nbrWorkers: nat)
    requires Inv(s, Produced(upper, nbrWorkers), nbrWorkers) && AllExited(s)
    ensures Acks(s.results) == nbrWorkers
    ensures nbrWorkers >= 1 ==> |s.results| > 0 && s.results[|s.results| - 1] == WorkerFinished
    ensures nbrWorkers >= 1 ==> multiset(PrimesOf(s.results)) == multiset(Accepted(Candidates(upper)))
  {
    if nbrWorkers >= 1 {
      Completion(s, upper, nbrWorkers);
    } else {
      CountsAllExited(s.phases);
    }
  }

  /** One move of the scheduler that always picks a worker that has not
      exited: the move is possible, keeps the invariant and makes progress. */
  lemma SchedulerStep(s: State, produced: seq<Work>, nbrWorkers: nat, w: nat)
    requires Inv(s, produced, nbrWorkers) && PillCount(produced) == nbrWorkers
    requires w < nbrWorkers && s.phases[w] != Exited
    ensures Enabled(s, w) && Inv(Step(s, w), produced, nbrWorkers)
    ensures Pending(Step(s, w)) < Pending(s)
  {
    NotExitedIsEnabled(s, produced, nbrWorkers, w);
    StepProgress(s, w);
    StepInv(s, produced, nbrWorkers, w);
  }

  /** Running a schedule one move longer. */
  lemma RunExtend(s: State, schedule: seq<nat>, w: nat)
    requires WellFormed(s)
    ensures Run(s, schedule + [w]) == Step(Run(s, schedule), w)
  {
    assert (schedule + [w])[..|schedule|] == schedule;
  }

  /** The end-to-end result for any schedule that lets every worker exit. */
  lemma ScheduleOutcome(upper: int, nbrWorkers: nat, schedule: seq<nat>)
    requires nbrWorkers >= 1
    requires AllExited(Run(Initial(Produced(upper, nbrWorkers), nbrWorkers), schedule))
    ensures var s := Run(Initial(Produced(upper, nbrWorkers), nbrWorkers), schedule);
            && Acks(s.results) == nbrWorkers
            && multiset(PrimesOf(s.results)) == multiset(Accepted(Candidates(upper)))
  {
    var p := Produced(upper, nbrWorkers);
    InitialInv(p, nbrWorkers);
    RunInv(Initial(p, nbrWorkers), p, nbrWorkers, schedule);
    Completion(Run(Initial(p, nbrWorkers), schedule), upper, nbrWorkers);
  }

  /** The number of workers and the order they run in do not change what is
      collected. */
  lemma WorkerCountIrrelevant(upper: int, n1: nat, schedule1: seq<nat>, n2: nat, schedule2: seq<nat>)
    requires n1 >= 1 && AllExited(Run(Initial(Produced(upper, n1), n1), schedule1))
    requires n2 >= 1 && AllExited(Run(Initial(Produced(upper, n2), n2), schedule2))
    ensures multiset(PrimesOf(Run(Initial(Produced(upper, n1), n1), schedule1).results))
            == multiset(PrimesOf(Run(Initial(Produced(upper, n2), n2), schedule2).results))
  {
    ScheduleOutcome(upper, n1, schedule1);
    ScheduleOutcome(upper, n2, schedule2);
  }
}
