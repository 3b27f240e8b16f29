/**
 The check queue: a master and any number of workers, one step per critical section. A step is
 all that a thread does from taking the mutex to releasing it, whether it then waits, leaves or
 goes off with a batch. Waiting threads may wake at any time.
 */
module CheckQueue {
  import opened Wrappers

  /** The fields behind the mutex. */
  datatype Shared<T> = Shared(queue: seq<T>, nIdle: int, nTotal: int, allOk: bool, nTodo: int)

  /** What a thread does when it releases the mutex. */
  datatype Next<T> = Sleep | Take(batch: seq<T>, startOk: bool) | Leave(result: bool)

  function Min(a: int, b: int): int { if a < b then a else b }

  function BatchSize<T>(sh: Shared<T>, limit: nat): int {
    var n := sh.nTotal + sh.nIdle + 1;
    Max(1, Min(limit, if n <= 0 then 0 else |sh.queue| / n))
  }

  function Reversed<T>(s: seq<T>): seq<T> {
    if s == [] then [] else [s[|s| - 1]] + Reversed(s[..|s| - 1])
  }

  /** The inner loop, up to the next wait, batch or return. */
  function Decide<T>(sh: Shared<T>, limit: nat, master: bool): (Shared<T>, Next<T>) {
    if sh.queue == [] then
      if master && sh.nTodo == 0 then (sh.(nTotal := sh.nTotal - 1, allOk := true), Leave(sh.allOk))
      else (sh.(nIdle := sh.nIdle + 1), Sleep)
    else
      var n := BatchSize(sh, limit);
      var rest := if n <= |sh.queue| then |sh.queue| - n else 0;
      (sh.(queue := sh.queue[..rest]), Take(Reversed(sh.queue[rest..]), sh.allOk))
  }

  function Enter<T>(sh: Shared<T>): Shared<T> { sh.(nTotal := sh.nTotal + 1) }

  function Merge<T>(sh: Shared<T>, nNow: int, ok: bool): Shared<T> {
    sh.(allOk := sh.allOk && ok, nTodo := sh.nTodo - nNow)
  }

  function Wake<T>(sh: Shared<T>): Shared<T> { sh.(nIdle := sh.nIdle - 1) }

  function Enqueue<T>(sh: Shared<T>, cs: seq<T>): Shared<T> {
    sh.(queue := sh.queue + cs, nTodo := sh.nTodo + |cs|)
  }

  /** Running a batch: checks stop being called once one has failed. */
  function RunBatch<T>(batch: seq<T>, check: T -> bool, startOk: bool): bool
    decreases |batch|
  {
    if batch == [] then startOk
    else RunBatch(batch[1..], check, if startOk then check(batch[0]) else false)
  }

  // ---- The whole system ----

  datatype Thread<T> = Outside | Waiting(notified: bool) | Working(batch: seq<T>, startOk: bool)

  /** Thread 0 is the master. `added` and `done` are the checks added and merged since the last Wait. */
  datatype System<T> = System(sh: Shared<T>, threads: seq<Thread<T>>, added: multiset<T>, done: multiset<T>)

  datatype Step<T> =
    | AddStep(cs: seq<T>)      // the master, outside Loop
    | EnterStep(t: nat)        // Thread() or Wait() begins
    | MergeStep(t: nat)        // a batch is finished
    | WakeStep(t: nat)         // a wait ends, notified or not

  predicate Enabled<T>(s: System<T>, step: Step<T>) {
    match step
    case AddStep(_) => |s.threads| > 0 && s.threads[0].Outside?
    case EnterStep(t) => t < |s.threads| && s.threads[t].Outside?
    case MergeStep(t) => t < |s.threads| && s.threads[t].Working?
    case WakeStep(t) => t < |s.threads| && s.threads[t].Waiting?
  }

  function AsThread<T>(n: Next<T>): Thread<T> {
    match n
    case Sleep => Waiting(false)
    case Take(b, ok) => Working(b, ok)
    case Leave(_) => Outside
  }

  /** The thread's turn once its own clean-up is done; a return of the master ends the round. */
  function Turn<T>(s: System<T>, sh: Shared<T>, limit: nat, t: nat): System<T>
    requires t < |s.threads|
  {
    var (sh', next) := Decide(sh, limit, t == 0);
    var s' := s.(sh := sh', threads := s.threads[t := AsThread(next)]);
    if next.Leave? then s'.(added := multiset{}, done := multiset{}) else s'
  }

  function Notify<T>(ts: seq<Thread<T>>): seq<Thread<T>> {
    if |ts| > 0 && ts[0].Waiting? then ts[0 := Waiting(true)] else ts
  }

  /** The state in which the inner loop is entered; the thread itself is between two states. */
  function Ready<T>(s: System<T>, check: T -> bool, step: Step<T>): System<T>
    requires Enabled(s, step) && !step.AddStep?
  {
    var ts := s.threads[step.t := Outside];
    match step
    case EnterStep(t) => s.(sh := Enter(s.sh), threads := ts)
    case WakeStep(t) => s.(sh := Wake(s.sh), threads := ts)
    case MergeStep(t) =>
      var w := s.threads[t];
      var sh := Merge(s.sh, |w.batch|, RunBatch(w.batch, check, w.startOk));
      s.(sh := sh, done := s.done + multiset(w.batch), threads := if sh.nTodo == 0 && t != 0 then Notify(ts) else ts)
  }

  function Do<T>(s: System<T>, limit: nat, check: T -> bool, step: Step<T>): System<T>
    requires Enabled(s, step)
  {
    if step.AddStep? then s.(sh := Enqueue(s.sh, step.cs), added := s.added + multiset(step.cs))
    else
      var r := Ready(s, check, step);
      Turn(r, r.sh, limit, step.t)
  }

  /** What Wait returns, when this step is the one that returns. */
  function Returned<T>(s: System<T>, limit: nat, check: T -> bool, step: Step<T>): Next<T>
    requires Enabled(s, step)
  {
    if step.AddStep? then Sleep else Decide(Ready(s, check, step).sh, limit, step.t == 0).1
  }

  // ---- Counting over the threads ----

  function BatchOf<T>(w: Thread<T>): seq<T> { if w.Working? then w.batch else [] }

  ghost function Held<T>(ts: seq<Thread<T>>): multiset<T> {
    if ts == [] then multiset{} else Held(ts[..|ts| - 1]) + multiset(BatchOf(ts[|ts| - 1]))
  }

  ghost function Count<T>(ts: seq<Thread<T>>, p: Thread<T> -> bool): nat {
    if ts == [] then 0 else Count(ts[..|ts| - 1], p) + if p(ts[|ts| - 1]) then 1 else 0
  }

  lemma {:induction false} HeldUpdate<T>(ts: seq<Thread<T>>, t: nat, w: Thread<T>)
    requires t < |ts|
    ensures Held(ts[t := w]) + multiset(BatchOf(ts[t])) == Held(ts) + multiset(BatchOf(w))
    decreases |ts|
  {
    hide Held, BatchOf;
    var n := |ts| - 1;
    HeldStep(ts);
    HeldStep(ts[t := w]);
    if t == n {
      assert ts[t := w][..n] == ts[..n];
      Swap(Held(ts[..n]), multiset(BatchOf(w)), multiset(BatchOf(ts[t])));
    } else {
      assert ts[t := w][..n] == ts[..n][t := w];
      HeldUpdate(ts[..n], t, w);
      Shuffle(Held(ts[..n][t := w]), multiset(BatchOf(ts[t])), Held(ts[..n]), multiset(BatchOf(w)), multiset(BatchOf(ts[n])));
    }
  }

  lemma {:induction false} HeldStep<T>(ts: seq<Thread<T>>)
    requires ts != []
    ensures Held(ts) == Held(ts[..|ts| - 1]) + multiset(BatchOf(ts[|ts| - 1]))
  {
  }

  lemma {:induction false} HeldPut<T>(ts: seq<Thread<T>>, t: nat, w: Thread<T>)
    requires t < |ts| && BatchOf(ts[t]) == []
    ensures Held(ts[t := w]) == Held(ts) + multiset(BatchOf(w))
    ensures BatchOf(w) == [] ==> Held(ts[t := w]) == Held(ts)
  {
    HeldUpdate(ts, t, w);
  }

  lemma {:induction false} HeldDrop<T>(ts: seq<Thread<T>>, t: nat, w: Thread<T>)
    requires t < |ts| && BatchOf(w) == []
    ensures Held(ts) == Held(ts[t := w]) + multiset(BatchOf(ts[t]))
  {
    HeldUpdate(ts, t, w);
  }

  lemma {:induction false} CountUpdate<T>(ts: seq<Thread<T>>, p: Thread<T> -> bool, t: nat, w: Thread<T>)
    requires t < |ts|
    ensures Count(ts[t := w], p) == Count(ts, p) + (if p(w) then 1 else 0) - (if p(ts[t]) then 1 else 0)
    decreases |ts|
  {
    var n := |ts| - 1;
    if t == n {
      assert ts[t := w][..n] == ts[..n];
    } else {
      assert ts[t := w][..n] == ts[..n][t := w];
      CountUpdate(ts[..n], p, t, w);
    }
  }

  /** Work held by anyone is held by some thread. */
  lemma {:induction false} SomeHolder<T>(ts: seq<Thread<T>>) returns (t: nat)
    requires Held(ts) != multiset{}
    ensures t < |ts| && ts[t].Working?
    decreases |ts|
  {
    var n := |ts| - 1;
    if ts[n].Working? {
      t := n;
    } else {
      t := SomeHolder(ts[..n]);
    }
  }

  /** A thread's own batch is part of what is held. */
  lemma {:induction false} HolderHeld<T>(ts: seq<Thread<T>>, t: nat)
    requires t < |ts|
    ensures multiset(BatchOf(ts[t])) <= Held(ts)
    decreases |ts|
  {
    var n := |ts| - 1;
    if t < n { HolderHeld(ts[..n], t); }
  }

  ghost predicate AllPass<T(!new)>(m: multiset<T>, check: T -> bool) {
    forall c :: c in m ==> check(c)
  }

  // ---- The invariant ----

  ghost predicate IsWaiting<T>(w: Thread<T>) { w.Waiting? }
  ghost predicate IsInside<T>(w: Thread<T>) { !w.Outside? }

  ghost predicate ThreadOk<T>(w: Thread<T>, allOk: bool) {
    w.Working? ==> w.batch != [] && (w.startOk || !allOk)
  }

  /** nTodo counts queued checks and held ones; added checks are queued, held or done, each once. */
  ghost predicate Accounts<T>(queue: seq<T>, held: multiset<T>, added: multiset<T>, done: multiset<T>, nTodo: int) {
    nTodo == |queue| + |held| && added == multiset(queue) + held + done
  }

  lemma AccountsTake<T>(queue: seq<T>, rest: nat, held: multiset<T>, batch: seq<T>, added: multiset<T>, done: multiset<T>, nTodo: int)
    requires Accounts(queue, held, added, done, nTodo) && rest <= |queue| && multiset(batch) == multiset(queue[rest..])
    ensures Accounts(queue[..rest], held + multiset(batch), added, done, nTodo)
  {
    assert queue == queue[..rest] + queue[rest..];
    assert |multiset(batch)| == |multiset(queue[rest..])| == |queue[rest..]|;
    calc {
      added;
      multiset(queue[..rest]) + multiset(queue[rest..]) + held + done;
      multiset(queue[..rest]) + (held + multiset(batch)) + done;
    }
  }

  lemma AccountsMerge<T>(queue: seq<T>, held: multiset<T>, batch: seq<T>, added: multiset<T>, done: multiset<T>, nTodo: int)
    requires Accounts(queue, held + multiset(batch), added, done, nTodo)
    ensures Accounts(queue, held, added, done + multiset(batch), nTodo - |batch|)
  {
    assert |held + multiset(batch)| == |held| + |batch|;
    calc {
      added;
      multiset(queue) + (held + multiset(batch)) + done;
      multiset(queue) + held + (done + multiset(batch));
    }
  }

  /** Everything but the counters of threads and the state of the master. */
  ghost predicate Books<T(!new)>(s: System<T>, check: T -> bool) {
    && |s.threads| > 0
    && Accounts(s.sh.queue, Held(s.threads), s.added, s.done, s.sh.nTodo)
    && (s.sh.allOk <==> AllPass(s.done, check))
    && (forall t {:trigger s.threads[t]} :: 0 <= t < |s.threads| ==> ThreadOk(s.threads[t], s.sh.allOk))
  }

  /** A sleeping master has been notified or there is still work, none of it in the queue. */
  ghost predicate MasterOk<T>(s: System<T>) {
    |s.threads| > 0 && s.threads[0].Waiting? ==> s.sh.queue == [] && (s.threads[0].notified || s.sh.nTodo > 0)
  }

  ghost predicate Inv<T(!new)>(s: System<T>, check: T -> bool) {
    && Books(s, check) && MasterOk(s)
    && s.sh.nIdle == Count(s.threads, IsWaiting)
    && s.sh.nTotal == Count(s.threads, IsInside)
  }

  /** The same while thread t holds the mutex, counted inside and in no state of its own. */
  ghost predicate InHand<T(!new)>(s: System<T>, check: T -> bool, t: nat) {
    && Books(s, check) && MasterOk(s)
    && t < |s.threads| && s.threads[t].Outside?
    && s.sh.nIdle == Count(s.threads, IsWaiting)
    && s.sh.nTotal == Count(s.threads, IsInside) + 1
  }

  lemma {:induction false} ReversedSame<T>(s: seq<T>)
    ensures multiset(Reversed(s)) == multiset(s) && |Reversed(s)| == |s|
    decreases |s|
  {
    if s != [] {
      var n := |s| - 1;
      assert s == s[..n] + [s[n]];
      ReversedSame(s[..n]);
    }
  }

  lemma {:induction false} RunBatchAll<T(!new)>(batch: seq<T>, check: T -> bool, startOk: bool)
    ensures RunBatch(batch, check, startOk) <==> startOk && AllPass(multiset(batch), check)
    decreases |batch|
  {
    if batch != [] {
      assert batch == [batch[0]] + batch[1..];
      RunBatchAll(batch[1..], check, if startOk then check(batch[0]) else false);
      assert multiset(batch) == multiset{batch[0]} + multiset(batch[1..]);
    }
  }

  /** A batch is an even share of the queue among all threads and the idle ones again, within the limit and at least one. */
  lemma {:induction false} BatchShare<T>(sh: Shared<T>, limit: nat)
    requires sh.nTotal >= 0 && sh.nIdle >= 0
    ensures var n, shares := BatchSize(sh, limit), sh.nTotal + sh.nIdle + 1;
            && (n > 1 ==> n <= limit && n * shares <= |sh.queue|)
            && (n < limit ==> |sh.queue| < (n + 1) * shares)
  {
    var shares := sh.nTotal + sh.nIdle + 1;
    var q := |sh.queue| / shares;
    assert |sh.queue| == q * shares + |sh.queue| % shares;
    assert (q + 1) * shares == q * shares + shares;
    if q < 1 { assert |sh.queue| < shares; assert 2 * shares >= shares; }
  }

  lemma {:induction false} BatchFits<T>(sh: Shared<T>, limit: nat)
    requires sh.queue != [] && sh.nTotal >= 0 && sh.nIdle >= 0
    ensures 1 <= BatchSize(sh, limit) <= |sh.queue|
    ensures limit > 0 ==> BatchSize(sh, limit) <= limit
  {
    var n, q := sh.nTotal + sh.nIdle + 1, |sh.queue|;
    assert q / n <= q;
  }

  // ---- Steps keep the invariant ----

  lemma {:induction false} TurnBooks<T(!new)>(s: System<T>, limit: nat, check: T -> bool, t: nat)
    requires Books(s, check) && t < |s.threads| && s.threads[t].Outside? && s.sh.nTotal >= 0 && s.sh.nIdle >= 0
    ensures Books(Turn(s, s.sh, limit, t), check)
  {
    hide Held, Accounts;
    var next := Decide(s.sh, limit, t == 0).1;
    if next.Take? {
      TakeBooks(s, limit, check, t);
    } else {
      HeldPut(s.threads, t, AsThread(next));
      if next.Leave? {
        NothingHeld(s, check);
        FreshAccounts<T>();
        forall i | 0 <= i < |s.threads| ensures !s.threads[i].Working? { NotWorking(s, check, i); }
      }
    }
  }

  lemma {:induction false} TakeBooks<T(!new)>(s: System<T>, limit: nat, check: T -> bool, t: nat)
    requires Books(s, check) && t < |s.threads| && s.threads[t].Outside? && s.sh.nTotal >= 0 && s.sh.nIdle >= 0
    requires s.sh.queue != []
    ensures Books(Turn(s, s.sh, limit, t), check)
  {
    hide Held, Accounts, BatchSize, Reversed;
    var sh := s.sh;
    BatchFits(sh, limit);
    var rest := |sh.queue| - BatchSize(sh, limit);
    var batch := Reversed(sh.queue[rest..]);
    ReversedSame(sh.queue[rest..]);
    AccountsTake(sh.queue, rest, Held(s.threads), batch, s.added, s.done, sh.nTodo);
    HeldPut(s.threads, t, Working(batch, sh.allOk));
    var s' := Turn(s, sh, limit, t);
    assert s' == s.(sh := sh.(queue := sh.queue[..rest]), threads := s.threads[t := Working(batch, sh.allOk)]);
    forall i | 0 <= i < |s'.threads| ensures ThreadOk(s'.threads[i], sh.allOk) { assert ThreadOk(s.threads[i], sh.allOk); }
  }

  lemma {:induction false} NotWorking<T(!new)>(s: System<T>, check: T -> bool, i: nat)
    requires Books(s, check) && Held(s.threads) == multiset{} && i < |s.threads|
    ensures !s.threads[i].Working?
  {
    HolderHeld(s.threads, i);
  }

  lemma FreshAccounts<T>()
    ensures Accounts<T>([], multiset{}, multiset{}, multiset{}, 0)
  {
  }

  lemma {:induction false} TurnKeeps<T(!new)>(s: System<T>, limit: nat, check: T -> bool, t: nat)
    requires InHand(s, check, t)
    ensures Inv(Turn(s, s.sh, limit, t), check)
  {
    hide Held, Count, BatchSize, Accounts;
    var next := Decide(s.sh, limit, t == 0).1;
    CountUpdate(s.threads, IsWaiting, t, AsThread(next));
    CountUpdate(s.threads, IsInside, t, AsThread(next));
    TurnBooks(s, limit, check, t);
    TodoZero(s, check);
  }

  lemma {:induction false} TodoZero<T(!new)>(s: System<T>, check: T -> bool)
    requires Books(s, check)
    ensures s.sh.nTodo >= |s.sh.queue|
  {
  }

  lemma {:induction false} NothingHeld<T(!new)>(s: System<T>, check: T -> bool)
    requires Books(s, check) && s.sh.queue == [] && s.sh.nTodo == 0
    ensures Held(s.threads) == multiset{} && s.done == s.added
  {
  }

  lemma {:induction false} ReadyHolds<T(!new)>(s: System<T>, check: T -> bool, step: Step<T>)
    requires Inv(s, check) && Enabled(s, step) && !step.AddStep?
    ensures InHand(Ready(s, check, step), check, step.t)
  {
    hide Held, Count, Accounts;
    var t := step.t;
    var ts := s.threads[t := Outside];
    CountUpdate(s.threads, IsWaiting, t, Outside);
    CountUpdate(s.threads, IsInside, t, Outside);
    if step.MergeStep? {
      MergeBooks(s, check, t);
      NotifyCounts(ts);
    } else {
      HeldDrop(s.threads, t, Outside);
      assert Held(ts) == Held(s.threads);
    }
    TodoZero(Ready(s, check, step), check);
  }

  lemma {:induction false} NotifyCounts<T>(ts: seq<Thread<T>>)
    ensures Count(Notify(ts), IsWaiting) == Count(ts, IsWaiting) && Count(Notify(ts), IsInside) == Count(ts, IsInside)
    ensures Held(Notify(ts)) == Held(ts)
  {
    if |ts| > 0 && ts[0].Waiting? {
      CountUpdate(ts, IsWaiting, 0, Waiting(true));
      CountUpdate(ts, IsInside, 0, Waiting(true));
      HeldPut(ts, 0, Waiting(true));
    }
  }

  lemma {:induction false} MergeBooks<T(!new)>(s: System<T>, check: T -> bool, t: nat)
    requires Books(s, check) && t < |s.threads| && s.threads[t].Working?
    ensures Books(Ready(s, check, MergeStep(t)), check)
  {
    hide Held, Accounts, RunBatch;
    var w, ts := s.threads[t], s.threads[t := Outside];
    RunBatchAll(w.batch, check, w.startOk);
    HeldDrop(s.threads, t, Outside);
    NotifyCounts(ts);
    AccountsMerge(s.sh.queue, Held(ts), w.batch, s.added, s.done, s.sh.nTodo);
    assert ThreadOk(w, s.sh.allOk);
    var r := Ready(s, check, MergeStep(t));
    assert AllPass(r.done, check) <==> AllPass(s.done, check) && AllPass(multiset(w.batch), check);
    forall i | 0 <= i < |r.threads| ensures ThreadOk(r.threads[i], r.sh.allOk) { assert ThreadOk(s.threads[i], s.sh.allOk); }
  }

  lemma {:induction false} AddKeeps<T(!new)>(s: System<T>, limit: nat, check: T -> bool, cs: seq<T>)
    requires Inv(s, check) && Enabled(s, AddStep(cs))
    ensures Inv(Do(s, limit, check, AddStep(cs)), check)
  {
    assert multiset(s.sh.queue + cs) == multiset(s.sh.queue) + multiset(cs);
  }

  lemma {:induction false} DoKeeps<T(!new)>(s: System<T>, limit: nat, check: T -> bool, step: Step<T>)
    requires Inv(s, check) && Enabled(s, step)
    ensures Inv(Do(s, limit, check, step), check)
  {
    if step.AddStep? {
      AddKeeps(s, limit, check, step.cs);
    } else {
      ReadyHolds(s, check, step);
      TurnKeeps(Ready(s, check, step), limit, check, step.t);
    }
  }

  // ---- Whole runs ----

  ghost predicate Runs<T(!new)>(s: System<T>, limit: nat, check: T -> bool, steps: seq<Step<T>>)
    decreases |steps|
  {
    steps == [] || (Enabled(s, steps[0]) && Runs(Do(s, limit, check, steps[0]), limit, check, steps[1..]))
  }

  ghost function After<T(!new)>(s: System<T>, limit: nat, check: T -> bool, steps: seq<Step<T>>): System<T>
    requires Runs(s, limit, check, steps)
    decreases |steps|
  {
    if steps == [] then s else After(Do(s, limit, check, steps[0]), limit, check, steps[1..])
  }

  function AllOut<T>(n: nat): seq<Thread<T>> { seq(n, i => Outside) }

  function Initial<T>(n: nat): System<T> {
    System(Shared([], 0, 0, true, 0), AllOut(n), multiset{}, multiset{})
  }

  lemma {:induction false} InitialOk<T(!new)>(n: nat, check: T -> bool)
    requires n > 0
    ensures Inv(Initial(n), check)
  {
    AllOutside<T>(n);
  }

  lemma {:induction false} AllOutside<T>(n: nat)
    ensures var ts := AllOut<T>(n);
            Held(ts) == multiset{} && Count(ts, IsWaiting) == 0 && Count(ts, IsInside) == 0
    decreases n
  {
    var ts := AllOut<T>(n);
    if n > 0 {
      assert ts[..n - 1] == AllOut<T>(n - 1);
      AllOutside<T>(n - 1);
    }
  }

  lemma {:induction false} RunsKeep<T(!new)>(s: System<T>, limit: nat, check: T -> bool, steps: seq<Step<T>>)
    requires Inv(s, check) && Runs(s, limit, check, steps)
    ensures Inv(After(s, limit, check, steps), check)
    decreases |steps|
  {
    if steps != [] {
      DoKeeps(s, limit, check, steps[0]);
      RunsKeep(Do(s, limit, check, steps[0]), limit, check, steps[1..]);
    }
  }

  /**
   In every interleaving, when Wait returns: the answer is whether every check added since the
   last Wait passes, each was taken and merged exactly once, and nothing is left for the next round.
   */
  lemma {:induction false} WaitReturnsAll<T(!new)>(n: nat, limit: nat, check: T -> bool, steps: seq<Step<T>>, step: Step<T>)
    requires n > 0 && Runs(Initial(n), limit, check, steps)
    requires Enabled(After(Initial(n), limit, check, steps), step)
    requires Returned(After(Initial(n), limit, check, steps), limit, check, step).Leave?
    ensures var s := After(Initial(n), limit, check, steps);
            var s' := Do(s, limit, check, step);
            && !step.AddStep? && step.t == 0
            && Returned(s, limit, check, step).result == AllPass(s.added, check)
            && Ready(s, check, step).done == s.added
            && s'.sh.queue == [] && Held(s'.threads) == multiset{} && s'.sh.nTodo == 0 && s'.sh.allOk
            && s'.added == s'.done == multiset{}
  {
    hide Inv, Do, Returned, Ready;
    InitialOk(n, check);
    RunsKeep(Initial(n), limit, check, steps);
    ReturnEndsRound(After(Initial(n), limit, check, steps), limit, check, step);
  }

  lemma {:induction false} ReturnEndsRound<T(!new)>(s: System<T>, limit: nat, check: T -> bool, step: Step<T>)
    requires Inv(s, check) && Enabled(s, step) && Returned(s, limit, check, step).Leave?
    ensures var s' := Do(s, limit, check, step);
            && !step.AddStep? && step.t == 0
            && Returned(s, limit, check, step).result == AllPass(s.added, check)
            && Ready(s, check, step).done == s.added
            && s'.sh.queue == [] && Held(s'.threads) == multiset{} && s'.sh.nTodo == 0 && s'.sh.allOk
            && s'.added == s'.done == multiset{}
  {
    hide Held, Count, RunBatch;
    ReadyHolds(s, check, step);
    var r := Ready(s, check, step);
    NothingHeld(r, check);
    HeldPut(r.threads, 0, Outside);
  }

  /** In every interleaving a sleeping, un-notified master means that some worker holds a batch. */
  lemma {:induction false} SleepingMasterHasWorker<T(!new)>(n: nat, limit: nat, check: T -> bool, steps: seq<Step<T>>) returns (t: nat)
    requires n > 0 && Runs(Initial(n), limit, check, steps)
    requires After(Initial(n), limit, check, steps).threads != []
    requires After(Initial(n), limit, check, steps).threads[0] == Waiting(false)
    ensures var s := After(Initial(n), limit, check, steps);
            0 < t < |s.threads| && s.threads[t].Working? && s.threads[t].batch != []
  {
    InitialOk(n, check);
    RunsKeep(Initial(n), limit, check, steps);
    var s := After(Initial(n), limit, check, steps);
    assert |Held(s.threads)| > 0;
    t := SomeHolder(s.threads);
  }

  /** The master is notified only when no work is left. */
  ghost predicate NotifiedOk<T>(s: System<T>) {
    |s.threads| > 0 && s.threads[0] == Waiting(true) ==> s.sh.nTodo == 0
  }

  lemma {:induction false} NotifiedKeeps<T(!new)>(s: System<T>, limit: nat, check: T -> bool, step: Step<T>)
    requires Inv(s, check) && NotifiedOk(s) && Enabled(s, step)
    ensures NotifiedOk(Do(s, limit, check, step))
  {
    hide Held, Count, RunBatch, BatchSize, Reversed;
    if !step.AddStep? {
      DoKeeps(s, limit, check, step);
      TodoCounted(Do(s, limit, check, step), check);
    }
  }

  lemma TodoCounted<T(!new)>(s: System<T>, check: T -> bool)
    requires Inv(s, check)
    ensures s.sh.nTodo >= 0
  {
  }

  lemma {:induction false} RunsNotified<T(!new)>(s: System<T>, limit: nat, check: T -> bool, steps: seq<Step<T>>)
    requires Inv(s, check) && NotifiedOk(s) && Runs(s, limit, check, steps)
    ensures NotifiedOk(After(s, limit, check, steps))
    decreases |steps|
  {
    hide Inv, Do, NotifiedOk;
    if steps != [] {
      NotifiedKeeps(s, limit, check, steps[0]);
      DoKeeps(s, limit, check, steps[0]);
      RunsNotified(Do(s, limit, check, steps[0]), limit, check, steps[1..]);
    }
  }

  /** In every interleaving a master that has been notified returns when it wakes: it is never woken for nothing. */
  lemma {:induction false} NotifiedMasterReturns<T(!new)>(n: nat, limit: nat, check: T -> bool, steps: seq<Step<T>>)
    requires n > 0 && Runs(Initial(n), limit, check, steps)
    requires After(Initial(n), limit, check, steps).threads != []
    requires After(Initial(n), limit, check, steps).threads[0] == Waiting(true)
    ensures Returned(After(Initial(n), limit, check, steps), limit, check, WakeStep(0)).Leave?
  {
    InitialOk(n, check);
    RunsKeep(Initial(n), limit, check, steps);
    assert NotifiedOk(Initial<T>(n));
    RunsNotified(Initial(n), limit, check, steps);
  }
}
