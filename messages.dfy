/**
  What travels on the two queues of the pipeline. The script marks the end of
  work and the end of a worker with two byte-string flags sharing a queue with
  integers; here each queue carries a tagged datatype instead.
 */
module Messages {
  import opened Primality

  /** An item of the work queue: a candidate, or the `FLAG_ALL_DONE` poison pill. */
  datatype Work = Value(n: nat) | AllDone

  /** An item of the results queue: an accepted candidate, or the
      `FLAG_WORKER_FINISHED_PROCESSING` acknowledgement. */
  datatype Msg = Prime(n: nat) | WorkerFinished

  /** The candidates `range(1, upper)`, in the order the producer enqueues them. */
  function Candidates(upper: int): (r: seq<Work>)
    ensures |r| == if upper > 1 then upper - 1 else 0
    ensures forall i :: 0 <= i < |r| ==> r[i] == Value(i + 1)
    decreases upper
  {
    if upper <= 1 then [] else Candidates(upper - 1) + [Value(upper - 1)]
  }

  /** `k` poison pills. */
  function Pills(k: nat): (r: seq<Work>)
    ensures |r| == k
    ensures forall i :: 0 <= i < k ==> r[i] == AllDone
  {
    if k == 0 then [] else Pills(k - 1) + [AllDone]
  }

  /** Number of poison pills in a stretch of the work queue. */
  function PillCount(ws: seq<Work>): nat {
    if ws == [] then 0 else (if ws[0] == AllDone then 1 else 0) + PillCount(ws[1..])
  }

  /** The candidates of a stretch of the work queue that the filter accepts, in order. */
  function Accepted(ws: seq<Work>): seq<nat> {
    if ws == [] then [] else Kept(ws[0]) + Accepted(ws[1..])
  }

  /** What the filter keeps of one item of the work queue. */
  function Kept(x: Work): seq<nat> {
    if x.Value? && PassesFilter(x.n) then [x.n] else []
  }

  /** Number of acknowledgements in a stretch of the results queue. */
  function Acks(ms: seq<Msg>): nat {
    if ms == [] then 0 else (if ms[0] == WorkerFinished then 1 else 0) + Acks(ms[1..])
  }

  /** The values carried by a stretch of the results queue, in order. */
  function PrimesOf(ms: seq<Msg>): seq<nat> {
    if ms == [] then [] else Carried(ms[0]) + PrimesOf(ms[1..])
  }

  /** The value one item of the results queue carries, if any. */
  function Carried(m: Msg): seq<nat> {
    if m.Prime? then [m.n] else []
  }

  lemma {:induction false} PillCountConcat(a: seq<Work>, b: seq<Work>)
    ensures PillCount(a + b) == PillCount(a) + PillCount(b)
  {
    if a == [] {
      assert a + b == b;
    } else {
      assert (a + b)[1..] == a[1..] + b;
      PillCountConcat(a[1..], b);
    }
  }

  lemma {:induction false} AcceptedConcat(a: seq<Work>, b: seq<Work>)
    ensures Accepted(a + b) == Accepted(a) + Accepted(b)
  {
    if a == [] {
      assert a + b == b;
    } else {
      assert (a + b)[1..] == a[1..] + b;
      AcceptedConcat(a[1..], b);
    }
  }

  lemma {:induction false} AcksConcat(a: seq<Msg>, b: seq<Msg>)
    ensures Acks(a + b) == Acks(a) + Acks(b)
  {
    if a == [] {
      assert a + b == b;
    } else {
      assert (a + b)[1..] == a[1..] + b;
      AcksConcat(a[1..], b);
    }
  }

  lemma {:induction false} PrimesOfConcat(a: seq<Msg>, b: seq<Msg>)
    ensures PrimesOf(a + b) == PrimesOf(a) + PrimesOf(b)
  {
    if a == [] {
      assert a + b == b;
    } else {
      assert (a + b)[1..] == a[1..] + b;
      PrimesOfConcat(a[1..], b);
    }
  }

  /** What one result contributes. */
  lemma SingleMsg(m: Msg)
    ensures Acks([m]) == if m == WorkerFinished then 1 else 0
    ensures PrimesOf([m]) == if m == WorkerFinished then [] else [m.n]
  {
    assert [m][1..] == [];
  }

  /** A stretch of the results queue that ends with an acknowledgement holds one. */
  lemma LastAckCounts(ms: seq<Msg>)
    requires |ms| > 0 && ms[|ms| - 1] == WorkerFinished
    ensures Acks(ms) >= 1
  {
    assert ms == ms[..|ms| - 1] + [WorkerFinished];
    AcksConcat(ms[..|ms| - 1], [WorkerFinished]);
  }

  /** A collector that stops at the `n`-th acknowledgement of a stretch holding
      exactly `n`, the last item being one, has consumed the whole stretch. */
  lemma ConsumedAll(ms: seq<Msg>, k: nat, n: nat)
    requires k <= |ms| && Acks(ms) == n && Acks(ms[..k]) == n
    requires |ms| > 0 && ms[|ms| - 1] == WorkerFinished
    ensures k == |ms|
  {
    if k < |ms| {
      assert ms == ms[..k] + ms[k..];
      AcksConcat(ms[..k], ms[k..]);
      LastAckCounts(ms[k..]);
    }
  }

  /** The producer's whole output: `range(1, upper)` in ascending order, then
      one poison pill per worker. */
  function Produced(upper: int, nbrWorkers: nat): (r: seq<Work>)
    ensures |r| == |Candidates(upper)| + nbrWorkers
    ensures forall i :: 0 <= i < |Candidates(upper)| ==> r[i] == Value(i + 1)
    ensures forall i :: |Candidates(upper)| <= i < |r| ==> r[i] == AllDone
    ensures PillCount(r) == nbrWorkers
    ensures Accepted(r) == Accepted(Candidates(upper))
  {
    CandidatesHaveNoPills(upper);
    PillsArePills(nbrWorkers);
    PillCountConcat(Candidates(upper), Pills(nbrWorkers));
    AcceptedConcat(Candidates(upper), Pills(nbrWorkers));
    Candidates(upper) + Pills(nbrWorkers)
  }

  lemma {:induction false} CandidatesHaveNoPills(upper: int)
    ensures PillCount(Candidates(upper)) == 0
    decreases upper
  {
    if upper > 1 {
      CandidatesHaveNoPills(upper - 1);
      PillCountConcat(Candidates(upper - 1), [Value(upper - 1)]);
    }
  }

  lemma {:induction false} PillsArePills(k: nat)
    ensures PillCount(Pills(k)) == k
    ensures Accepted(Pills(k)) == []
  {
    if k > 0 {
      PillsArePills(k - 1);
      PillCountConcat(Pills(k - 1), [AllDone]);
      AcceptedConcat(Pills(k - 1), [AllDone]);
    }
  }

  /** The number of pills in a prefix of the producer's output: none while the
      prefix lies within the candidates, then one per further item. So the
      prefix holds all `nbrWorkers` pills only when it is the whole output. */
  lemma PillsInPrefix(upper: int, nbrWorkers: nat, k: nat)
    requires k <= |Produced(upper, nbrWorkers)|
    ensures PillCount(Produced(upper, nbrWorkers)[..k])
            == if k <= |Candidates(upper)| then 0 else k - |Candidates(upper)|
  {
    var c := Candidates(upper);
    var p := Produced(upper, nbrWorkers);
    CandidatesHaveNoPills(upper);
    if k <= |c| {
      assert c == p[..k] + c[k..];
      PillCountConcat(p[..k], c[k..]);
    } else {
      assert p[..k] == c + Pills(k - |c|);
      PillsArePills(k - |c|);
      PillCountConcat(c, Pills(k - |c|));
    }
  }

  /** The filter applied to the range: every candidate `1 <= v < upper` the
      filter accepts occurs exactly once, and nothing else occurs. */
  lemma AcceptedCandidates(upper: int)
    ensures forall v :: multiset(Accepted(Candidates(upper)))[v]
                        == if 1 <= v < upper && PassesFilter(v) then 1 else 0
  {
    forall v: nat
      ensures multiset(Accepted(Candidates(upper)))[v]
              == if 1 <= v < upper && PassesFilter(v) then 1 else 0
    {
      AcceptedOccurrences(upper, v);
    }
  }

  lemma {:induction false} AcceptedOccurrences(upper: int, v: nat)
    ensures multiset(Accepted(Candidates(upper)))[v]
            == if 1 <= v < upper && PassesFilter(v) then 1 else 0
    decreases upper
  {
    if upper > 1 {
      AcceptedOccurrences(upper - 1, v);
      var a: seq<nat> := Accepted(Candidates(upper - 1));
      var b: seq<nat> := Accepted([Value(upper - 1)]);
      AcceptedConcat(Candidates(upper - 1), [Value(upper - 1)]);
      AcceptedOne(upper - 1);
      assert Candidates(upper) == Candidates(upper - 1) + [Value(upper - 1)];
      assert Accepted(Candidates(upper)) == a + b;
      assert multiset(a + b) == multiset(a) + multiset(b);
      assert multiset(b)[v] == if v == upper - 1 && PassesFilter(v) then 1 else 0;
    }
  }

  /** A single candidate is accepted or not. */
  lemma AcceptedOne(n: nat)
    ensures Accepted([Value(n)]) == if PassesFilter(n) then [n] else []
  {
    assert [Value(n)][1..] == [];
  }

  /** On the candidates 1 and 2 the filter keeps 1 alone: as written, the
      script reports 1 and not 2. */
  lemma OneAndTwo()
    ensures Accepted(Candidates(3)) == [1]
  {
    FilterDiffersAtOneAndTwo();
    assert Candidates(3) == [Value(1), Value(2)];
    AcceptedConcat([Value(1)], [Value(2)]);
    AcceptedOne(1);
    AcceptedOne(2);
    assert [Value(1), Value(2)] == [Value(1)] + [Value(2)];
  }
}
