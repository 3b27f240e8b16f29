/**
 The queue object itself: each method is what one thread does while it holds the mutex, except
 Execute, which runs a batch with the mutex released.
 */
module CheckQueueObject {
  import opened CheckQueue

  /** Whom a thread notifies before it releases the mutex. */
  datatype Signal = NoOne | One | All

  class SharedQueue<T> {
    var queue: seq<T>
    var nIdle: int
    var nTotal: int
    var fAllOk: bool
    var nTodo: int
    const nBatchSize: nat

    function Sh(): Shared<T>
      reads this
    {
      Shared(queue, nIdle, nTotal, fAllOk, nTodo)
    }

    constructor (nBatchSizeIn: nat)
      ensures Sh() == Initial<T>(0).sh && nBatchSize == nBatchSizeIn
    {
      queue, nIdle, nTotal, fAllOk, nTodo := [], 0, 0, true, 0;
      nBatchSize := nBatchSizeIn;
    }

    /** One worker is notified for a single check, all of them for more. */
    method Add(vChecks: seq<T>) returns (workers: Signal)
      modifies this
      ensures Sh() == Enqueue(old(Sh()), vChecks)
      ensures workers == NoOne <==> Sh() == old(Sh())
      ensures workers == All <==> nTodo > old(nTodo) + 1
    {
      for i := 0 to |vChecks|
        invariant queue == old(queue) + vChecks[..i]
        invariant (nIdle, nTotal, fAllOk, nTodo) == old((nIdle, nTotal, fAllOk, nTodo))
      {
        queue := queue + [vChecks[i]];
      }
      assert vChecks[..|vChecks|] == vChecks;
      nTodo := nTodo + |vChecks|;
      if |vChecks| == 1 {
        workers := One;
      } else if |vChecks| > 1 {
        workers := All;
      } else {
        workers := NoOne;
      }
    }

    /** Takes the mutex; `nNow` and `fOk` are the size and outcome of the batch just run, 0 on the first turn. */
    method BeginTurn(master: bool, nNow: nat, fOk: bool) returns (notifyMaster: bool)
      modifies this
      ensures Sh() == if nNow > 0 then Merge(old(Sh()), nNow, fOk) else Enter(old(Sh()))
      ensures notifyMaster <==> nNow > 0 && nTodo == 0 && !master
    {
      notifyMaster := false;
      if nNow > 0 {
        fAllOk := fAllOk && fOk;
        nTodo := nTodo - nNow;
        if nTodo == 0 && !master {
          notifyMaster := true;
        }
      } else {
        nTotal := nTotal + 1;
      }
    }

    /** The inner loop, up to the next wait, batch or return. */
    method TakeTurn(master: bool) returns (next: Next<T>)
      requires nTotal >= 0 && nIdle >= 0
      modifies this
      ensures (Sh(), next) == Decide(old(Sh()), nBatchSize, master)
    {
      if queue == [] {
        if master && nTodo == 0 {
          nTotal := nTotal - 1;
          next := Leave(fAllOk);
          fAllOk := true;
        } else {
          nIdle := nIdle + 1;
          next := Sleep;
        }
      } else {
        var nNow := BatchSize(Sh(), nBatchSize);
        BatchFits(Sh(), nBatchSize);
        var vChecks := [];
        for i := 0 to nNow
          invariant |queue| == |old(queue)| - i && queue == old(queue)[..|queue|]
          invariant vChecks == Reversed(old(queue)[|queue|..])
          invariant (nIdle, nTotal, fAllOk, nTodo) == old((nIdle, nTotal, fAllOk, nTodo))
        {
          ReversedGrows(old(queue), |queue| - 1);
          vChecks := vChecks + [queue[|queue| - 1]];
          queue := queue[..|queue| - 1];
        }
        next := Take(vChecks, fAllOk);
      }
    }

    /** A wait is over. */
    method EndWait()
      modifies this
      ensures Sh() == Wake(old(Sh()))
    {
      nIdle := nIdle - 1;
    }

    /** Runs a batch; no check is called once one has failed. */
    static method Execute(vChecks: seq<T>, check: T -> bool, fOk: bool) returns (r: bool)
      ensures r <==> fOk && forall i :: 0 <= i < |vChecks| ==> check(vChecks[i])
      ensures r == RunBatch(vChecks, check, fOk)
    {
      r := fOk;
      for i := 0 to |vChecks|
        invariant r <==> fOk && forall k :: 0 <= k < i ==> check(vChecks[k])
        invariant RunBatch(vChecks[i..], check, r) == RunBatch(vChecks, check, fOk)
      {
        if r {
          r := check(vChecks[i]);
        }
        assert vChecks[i..][1..] == vChecks[i + 1..];
      }
    }
  }

  lemma {:induction false} ReversedGrows<T>(s: seq<T>, k: nat)
    requires k < |s|
    ensures Reversed(s[k..]) == Reversed(s[k + 1..]) + [s[k]]
    decreases |s|
  {
    var n := |s| - 1;
    if k < n {
      ReversedGrows(s[..n], k);
      assert s[k..][..|s[k..]| - 1] == s[..n][k..];
      assert s[k + 1..][..|s[k + 1..]| - 1] == s[..n][k + 1..];
    }
  }
}
