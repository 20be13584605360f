/**
  The verification queue: one master adds batches of checks and then joins any number of workers until all checks are done.
  Every critical section is one atomic action, a thread outside it takes one action per check, and the scheduler may
  interleave the actions of all threads in any order, with spurious wakeups.
 */
module CheckQueue {

  datatype Option<T> = None | Some(value: T)

  /** Where a thread is. `Running` holds the batch it works on, how many of its checks are behind it, and whether all went
      well so far; `AtLock` holds a batch that is finished but not yet reported (none on the first round). */
  datatype Thread =
    | Outside
    | AtLock(batch: seq<nat>, ok: bool)
    | Waiting
    | Woken
    | Running(batch: seq<nat>, next: nat, ok: bool)

  /** What happened since the last reset: checks added, checks reported back, and checks executed by outcome. */
  datatype History = History(added: multiset<nat>, finished: multiset<nat>, good: multiset<nat>, bad: multiset<nat>)

  /** A result of Wait, with the history it stands for. */
  datatype Outcome = Outcome(result: bool, history: History)

  datatype State = State(
    queue: seq<nat>, nIdle: int, nTotal: int, allOk: bool, nTodo: int,
    threads: map<nat, Thread>,
    history: History,
    last: Option<Outcome>)

  /** The parameters: how a check turns out, and the largest batch. */
  datatype Config = Config(verdict: nat -> bool, batchSize: nat)

  const MASTER: nat := 0

  datatype Action =
    | StartWorker(t: nat)
    | AddChecks(checks: seq<nat>, woken: nat)
    | BeginWait
    | EnterLock(t: nat)
    | Resume(t: nat)
    | Execute(t: nat)
    | FinishBatch(t: nat)
    | SpuriousWakeup(t: nat)

  const FRESH: History := History(multiset{}, multiset{}, multiset{}, multiset{})

  function Init(workers: set<nat>): State {
    State([], 0, 0, true, 0, map t | t in workers + {MASTER} :: Outside, FRESH, None)
  }

  // ----- actions -----

  function Max(a: int, b: int): int {
    if a < b then b else a
  }

  function Min(a: int, b: int): int {
    if a < b then a else b
  }

  /** How many checks to take: aim for batches that let all threads finish together. */
  function BatchCount(c: Config, s: State): (k: nat)
    requires s.nTotal >= 0 && s.nIdle >= 0 && s.queue != []
    ensures 1 <= k <= |s.queue| && k <= Max(1, c.batchSize)
  {
    QuotientBound(|s.queue|, s.nTotal + s.nIdle + 1);
    Max(1, Min(c.batchSize, |s.queue| / (s.nTotal + s.nIdle + 1)))
  }

  lemma QuotientBound(a: nat, b: int)
    requires b > 0
    ensures 0 <= a / b <= a
  {
    var q := a / b;
    assert a == b * q + a % b;
    assert b * q <= a;
    ProductBound(b, q);
  }

  lemma ProductBound(b: int, q: nat)
    requires b > 0
    ensures b * q >= q
  {
  }

  /** The last `k` elements of the queue, last first. */
  function Taken(queue: seq<nat>, k: nat): (r: seq<nat>)
    requires k <= |queue|
    ensures |r| == k
    ensures multiset(queue) == multiset(queue[..|queue| - k]) + multiset(r)
  {
    if k == 0 then
      assert queue[..|queue| - k] == queue;
      []
    else
      var rest := Taken(queue[..|queue| - 1], k - 1);
      assert queue == queue[..|queue| - 1] + [queue[|queue| - 1]];
      assert queue[..|queue| - 1][..|queue| - k] == queue[..|queue| - k];
      [queue[|queue| - 1]] + rest
  }

  predicate Sleeping(s: State, t: nat) {
    t in s.threads && s.threads[t] == Waiting
  }

  function WakeAllWorkers(threads: map<nat, Thread>): map<nat, Thread> {
    map t | t in threads :: if t != MASTER && threads[t] == Waiting then Woken else threads[t]
  }

  /** Inside the lock, after the report: return, sleep or take a batch. */
  function Settle(c: Config, s: State, t: nat): State
    requires t in s.threads && s.nTotal >= 0 && s.nIdle >= 0
  {
    if s.queue == [] then
      if t == MASTER && s.nTodo == 0 then
        s.(nTotal := s.nTotal - 1, allOk := true, threads := s.threads[t := Outside],
           history := FRESH, last := Some(Outcome(s.allOk, s.history)))
      else
        s.(nIdle := s.nIdle + 1, threads := s.threads[t := Waiting])
    else
      var k := BatchCount(c, s);
      s.(queue := s.queue[..|s.queue| - k],
         threads := s.threads[t := Running(Taken(s.queue, k), 0, s.allOk)])
  }

  /** The report of a finished batch, or the first entry of a thread into the loop. */
  function Report(s: State, t: nat): State
    requires t in s.threads && s.threads[t].AtLock?
  {
    var batch := s.threads[t].batch;
    if batch == [] then
      s.(nTotal := s.nTotal + 1)
    else
      var todo := s.nTodo - |batch|;
      var threads := s.threads[t := AtLock([], true)];
      s.(allOk := s.allOk && s.threads[t].ok, nTodo := todo,
         history := s.history.(finished := s.history.finished + multiset(batch)),
         threads := if todo == 0 && t != MASTER && MASTER in threads && threads[MASTER] == Waiting
                    then threads[MASTER := Woken] else threads)
  }

  /** The threads asleep or on their way back from sleep. */
  function Idle(threads: map<nat, Thread>): set<nat> {
    set t | t in threads && (threads[t].Waiting? || threads[t].Woken?)
  }

  /** The threads that have entered the loop. */
  function InLoop(threads: map<nat, Thread>): set<nat> {
    set t | t in threads && !threads[t].Outside? && !(threads[t].AtLock? && threads[t].batch == [])
  }

  /** The two counters are exact. */
  predicate CountersOk(s: State) {
    s.nIdle == |Idle(s.threads)| && s.nTotal == |InLoop(s.threads)|
  }

  predicate Enabled(s: State, a: Action) {
    match a
    case StartWorker(t) => t != MASTER && t in s.threads && s.threads[t] == Outside
    case AddChecks(checks, woken) =>
      && MASTER in s.threads && s.threads[MASTER] == Outside
      && (|checks| == 1 ==>
            (woken != MASTER && Sleeping(s, woken)) || forall t :: t in s.threads && t != MASTER ==> !Sleeping(s, t))
    case BeginWait => MASTER in s.threads && s.threads[MASTER] == Outside
    case EnterLock(t) => t in s.threads && s.threads[t].AtLock?
    case Resume(t) => t in s.threads && s.threads[t] == Woken
    case Execute(t) => t in s.threads && s.threads[t].Running? && s.threads[t].next < |s.threads[t].batch|
    case FinishBatch(t) => t in s.threads && s.threads[t].Running? && s.threads[t].next == |s.threads[t].batch|
    case SpuriousWakeup(t) => Sleeping(s, t)
  }

  function ExecuteOne(c: Config, s: State, t: nat): State
    requires Enabled(s, Execute(t))
  {
    var Running(batch, next, ok) := s.threads[t];
    var check := batch[next];
    var ok' := ok && c.verdict(check);
    s.(threads := s.threads[t := Running(batch, next + 1, ok')],
       history := if !ok then s.history
                  else if ok' then s.history.(good := s.history.good + multiset{check})
                  else s.history.(bad := s.history.bad + multiset{check}))
  }

  function Add(s: State, checks: seq<nat>, woken: nat): State {
    s.(queue := s.queue + checks, nTodo := s.nTodo + |checks|,
       history := s.history.(added := s.history.added + multiset(checks)),
       threads := if |checks| == 1 && woken != MASTER && Sleeping(s, woken) then s.threads[woken := Woken]
                  else if |checks| > 1 then WakeAllWorkers(s.threads)
                  else s.threads)
  }

  function Apply(c: Config, s: State, a: Action): State
    requires Enabled(s, a) && CountersOk(s)
  {
    match a
    case StartWorker(t) => s.(threads := s.threads[t := AtLock([], true)])
    case AddChecks(checks, woken) => Add(s, checks, woken)
    case BeginWait => s.(threads := s.threads[MASTER := AtLock([], true)])
    case EnterLock(t) => Settle(c, Report(s, t), t)
    case Resume(t) =>
      assert t in Idle(s.threads);
      Settle(c, s.(nIdle := s.nIdle - 1), t)
    case Execute(t) => ExecuteOne(c, s, t)
    case FinishBatch(t) => s.(threads := s.threads[t := AtLock(s.threads[t].batch, s.threads[t].ok)])
    case SpuriousWakeup(t) => s.(threads := s.threads[t := Woken])
  }

  // ----- what all threads hold together -----

  ghost function Total(threads: map<nat, Thread>, f: Thread -> multiset<nat>): multiset<nat>
    decreases |threads|
  {
    if threads == map[] then multiset{}
    else
      var t :| t in threads;
      f(threads[t]) + Total(threads - {t}, f)
  }

  lemma {:induction false} TotalRemove(threads: map<nat, Thread>, f: Thread -> multiset<nat>, t: nat)
    requires t in threads
    ensures Total(threads, f) == f(threads[t]) + Total(threads - {t}, f)
    decreases |threads|
  {
    var x :| x in threads && Total(threads, f) == f(threads[x]) + Total(threads - {x}, f);
    if x != t {
      TotalRemove(threads - {x}, f, t);
      TotalRemove(threads - {t}, f, x);
      assert threads - {x} - {t} == threads - {t} - {x};
    }
  }

  lemma TotalSet(threads: map<nat, Thread>, f: Thread -> multiset<nat>, t: nat, th: Thread)
    requires t in threads
    ensures Total(threads[t := th], f) + f(threads[t]) == Total(threads, f) + f(th)
    ensures f(threads[t]) == f(th) ==> Total(threads[t := th], f) == Total(threads, f)
  {
    TotalRemove(threads, f, t);
    TotalRemove(threads[t := th], f, t);
    assert threads[t := th] - {t} == threads - {t};
  }

  lemma TotalPlus(threads: map<nat, Thread>, f: Thread -> multiset<nat>, t: nat, th: Thread, extra: multiset<nat>)
    requires t in threads
    ensures f(th) == f(threads[t]) + extra ==> Total(threads[t := th], f) == Total(threads, f) + extra
    ensures f(threads[t]) == f(th) + extra ==> Total(threads, f) == Total(threads[t := th], f) + extra
  {
    TotalRemove(threads, f, t);
    TotalRemove(threads[t := th], f, t);
    assert threads[t := th] - {t} == threads - {t};
  }

  /** Changes of thread states that `f` does not see. */
  lemma {:induction false} TotalSame(a: map<nat, Thread>, b: map<nat, Thread>, f: Thread -> multiset<nat>)
    requires a.Keys == b.Keys && forall t :: t in a ==> f(a[t]) == f(b[t])
    ensures Total(a, f) == Total(b, f)
    decreases |a|
  {
    if a == map[] {
      assert b == map[];
    } else {
      var t :| t in a;
      TotalRemove(a, f, t);
      assert t in b.Keys;
      TotalRemove(b, f, t);
      TotalSame(a - {t}, b - {t}, f);
    }
  }

  /** Nothing is held by no one. */
  lemma {:induction false} TotalEmpty(threads: map<nat, Thread>, f: Thread -> multiset<nat>)
    ensures Total(threads, f) == multiset{} <==> forall t :: t in threads ==> f(threads[t]) == multiset{}
    decreases |threads|
  {
    if threads != map[] {
      var t :| t in threads;
      TotalRemove(threads, f, t);
      hide Total;
      var rest := threads - {t};
      TotalEmpty(rest, f);
      SumEmpty(f(threads[t]), Total(rest, f));
      assert forall x :: x in rest ==> rest[x] == threads[x];
      assert forall x :: x in threads ==> x == t || x in rest;
    }
  }

  lemma SumEmpty(a: multiset<nat>, b: multiset<nat>)
    ensures a + b == multiset{} <==> a == multiset{} && b == multiset{}
  {
    if a + b == multiset{} {
      assert forall x: nat :: (a + b)[x] == a[x] + b[x];
    }
  }

  /** The checks a thread has taken and not reported. */
  function Held(t: Thread): multiset<nat> {
    if t.AtLock? || t.Running? then multiset(t.batch) else multiset{}
  }

  /** Those of them that are behind it. */
  function Passed(t: Thread): multiset<nat> {
    if t.AtLock? then multiset(t.batch)
    else if t.Running? && t.next <= |t.batch| then multiset(t.batch[..t.next])
    else multiset{}
  }

  predicate ThreadOk(t: Thread) {
    (t.AtLock? || t.Running?) ==> t.ok
  }

  /** No failure has been noticed, reported or not. */
  predicate AllWell(s: State) {
    s.allOk && forall t :: t in s.threads ==> ThreadOk(s.threads[t])
  }

  // ----- the invariant -----

  predicate ShapeOk(s: State) {
    && MASTER in s.threads
    && (forall t :: t in s.threads && s.threads[t].Running? ==>
          s.threads[t].batch != [] && s.threads[t].next <= |s.threads[t].batch|)
    && (forall t :: t in s.threads && s.threads[t].AtLock? && s.threads[t].batch == [] ==> s.threads[t].ok)
  }

  /** Nothing added is lost or duplicated, and the to-do counter counts what is not reported. */
  ghost predicate Conserved(s: State) {
    && s.history.added == multiset(s.queue) + Total(s.threads, Held) + s.history.finished
    && s.nTodo == |s.queue| + |Total(s.threads, Held)|
  }

  /** Executed checks are recorded under their outcome, each at most once; while all is well every check passed was executed
      and good; otherwise some check was executed and bad. */
  ghost predicate OutcomesOk(c: Config, s: State) {
    && (forall x :: x in s.history.good ==> c.verdict(x))
    && (forall x :: x in s.history.bad ==> !c.verdict(x))
    && s.history.good + s.history.bad <= s.history.finished + Total(s.threads, Passed)
    && (AllWell(s) ==> s.history.good == s.history.finished + Total(s.threads, Passed))
    && (!AllWell(s) ==> s.history.bad != multiset{})
  }

  /** A sleeping master has something to wait for, and nothing is queued while it sleeps. */
  predicate MasterOk(s: State) {
    Sleeping(s, MASTER) ==> s.nTodo > 0 && s.queue == []
  }

  /** A returned result stands for all checks of its round: each ran exactly once with success, or one was executed and bad. */
  ghost predicate OutcomeRight(c: Config, o: Outcome) {
    && o.history.finished == o.history.added
    && (forall x :: x in o.history.good ==> c.verdict(x))
    && (forall x :: x in o.history.bad ==> !c.verdict(x))
    && o.history.good + o.history.bad <= o.history.added
    && (o.result ==> o.history.good == o.history.added && o.history.bad == multiset{})
    && (!o.result ==> exists x :: x in o.history.bad && x in o.history.added)
  }

  ghost predicate Inv(c: Config, s: State) {
    && ShapeOk(s) && CountersOk(s) && Conserved(s) && OutcomesOk(c, s) && MasterOk(s)
    && (s.last.Some? ==> OutcomeRight(c, s.last.value))
  }

  lemma InitInv(c: Config, workers: set<nat>)
    ensures Inv(c, Init(workers))
  {
    var s := Init(workers);
    TotalEmpty(s.threads, Held);
    TotalEmpty(s.threads, Passed);
    assert Idle(s.threads) == {} && InLoop(s.threads) == {};
  }

  /** Thread states may change in ways that leave the totals, the counters and the noticed failures alone. */
  lemma ThreadsKeep(c: Config, s: State, n: State)
    requires Inv(c, s) && n == s.(threads := n.threads)
    requires Total(n.threads, Held) == Total(s.threads, Held) && Total(n.threads, Passed) == Total(s.threads, Passed)
    requires Idle(n.threads) == Idle(s.threads) && InLoop(n.threads) == InLoop(s.threads)
    requires AllWell(n) == AllWell(s) && ShapeOk(n) && MasterOk(n)
    ensures Inv(c, n)
  {
    hide Total, Held, Passed, AllWell, ShapeOk, MasterOk, OutcomeRight, Idle, InLoop;
  }

  // ----- actions that touch one thread only -----

  /** Moving one thread between places that hold nothing. */
  lemma MoveKeeps(c: Config, s: State, t: nat, th: Thread)
    requires Inv(c, s) && t in s.threads
    requires Held(s.threads[t]) == Held(th) && Passed(s.threads[t]) == Passed(th) && ThreadOk(s.threads[t]) == ThreadOk(th)
    requires ShapeOk(s.(threads := s.threads[t := th])) && MasterOk(s.(threads := s.threads[t := th]))
    requires t in Idle(s.threads) <==> t in Idle(s.threads[t := th])
    requires t in InLoop(s.threads) <==> t in InLoop(s.threads[t := th])
    ensures Inv(c, s.(threads := s.threads[t := th]))
  {
    var n := s.(threads := s.threads[t := th]);
    TotalSet(s.threads, Held, t, th);
    TotalSet(s.threads, Passed, t, th);
    SetSets(s.threads, t, th);
    AllWellSet(s, t, th);
    hide Total, Held, Passed, AllWell, ShapeOk, MasterOk, OutcomeRight, Idle, InLoop, Conserved, OutcomesOk, CountersOk;
    ThreadsKeep(c, s, n);
  }

  lemma AllWellSet(s: State, t: nat, th: Thread)
    requires t in s.threads && ThreadOk(s.threads[t]) == ThreadOk(th)
    ensures AllWell(s.(threads := s.threads[t := th])) == AllWell(s)
  {
    var n := s.(threads := s.threads[t := th]);
    if !ThreadOk(th) {
      assert !ThreadOk(n.threads[t]);
      assert !AllWell(n) && !AllWell(s);
    } else if AllWell(n) {
      forall x | x in s.threads
        ensures ThreadOk(s.threads[x])
      {
        assert ThreadOk(n.threads[x]);
      }
    }
  }

  lemma StartKeeps(c: Config, s: State, t: nat)
    requires Inv(c, s) && t in s.threads && s.threads[t] == Outside
    ensures Inv(c, s.(threads := s.threads[t := AtLock([], true)]))
  {
    MoveKeeps(c, s, t, AtLock([], true));
  }

  lemma WakeKeeps(c: Config, s: State, t: nat)
    requires Inv(c, s) && Sleeping(s, t)
    ensures Inv(c, s.(threads := s.threads[t := Woken]))
  {
    MoveKeeps(c, s, t, Woken);
  }

  lemma FinishKeeps(c: Config, s: State, t: nat)
    requires Inv(c, s) && Enabled(s, FinishBatch(t))
    ensures Inv(c, Apply(c, s, FinishBatch(t)))
  {
    var th := s.threads[t];
    assert th.batch[..th.next] == th.batch;
    MoveKeeps(c, s, t, AtLock(th.batch, th.ok));
  }

  lemma ExecuteTotals(s: State, t: nat, after: Thread)
    requires Enabled(s, Execute(t)) && after.Running?
    requires after.batch == s.threads[t].batch && after.next == s.threads[t].next + 1
    ensures Total(s.threads[t := after], Held) == Total(s.threads, Held)
    ensures Total(s.threads[t := after], Passed) ==
              Total(s.threads, Passed) + multiset{s.threads[t].batch[s.threads[t].next]}
  {
    var th := s.threads[t];
    var check := th.batch[th.next];
    assert th.batch[..th.next + 1] == th.batch[..th.next] + [check];
    TotalPlus(s.threads, Held, t, after, multiset{});
    TotalPlus(s.threads, Passed, t, after, multiset{check});
  }

  lemma SetShape(s: State, t: nat, th: Thread)
    requires ShapeOk(s) && MasterOk(s) && t in s.threads
    requires th.Running? && th.batch != [] && th.next <= |th.batch|
    ensures ShapeOk(s.(threads := s.threads[t := th])) && MasterOk(s.(threads := s.threads[t := th]))
  {
  }

  lemma ExecuteWell(s: State, t: nat, after: Thread)
    requires t in s.threads && s.threads[t].Running? && after.Running?
    ensures var n := s.(threads := s.threads[t := after]);
      if after.ok == s.threads[t].ok then AllWell(n) == AllWell(s) else !(AllWell(n) && AllWell(s))
    ensures !after.ok ==> !AllWell(s.(threads := s.threads[t := after]))
  {
    var n := s.(threads := s.threads[t := after]);
    assert ThreadOk(n.threads[t]) == after.ok;
    if after.ok == s.threads[t].ok {
      AllWellSet(s, t, after);
    }
  }

  lemma ExecuteKeeps(c: Config, s: State, t: nat)
    requires Inv(c, s) && Enabled(s, Execute(t))
    ensures Inv(c, Apply(c, s, Execute(t)))
  {
    var n := ExecuteOne(c, s, t);
    var th := s.threads[t];
    var after := n.threads[t];
    var m := s.(threads := s.threads[t := after]);
    SetSets(s.threads, t, after);
    SetShape(s, t, after);
    ExecuteTotals(s, t, after);
    ExecuteWell(s, t, after);
    assert !th.ok ==> !ThreadOk(th);
    assert !th.ok ==> !AllWell(s);
    hide Total, Held, Passed, AllWell, ShapeOk, OutcomeRight, Idle, InLoop, OutcomesOk, ThreadOk;
    assert MasterOk(n) == MasterOk(m);
    ShapeSame(m, n);
    ExecuteOutcomes(c, s, n, th, th.batch[th.next], after.ok);
  }

  lemma SetSets(threads: map<nat, Thread>, t: nat, th: Thread)
    requires t in threads
    requires t in Idle(threads) <==> t in Idle(threads[t := th])
    requires t in InLoop(threads) <==> t in InLoop(threads[t := th])
    ensures Idle(threads[t := th]) == Idle(threads) && InLoop(threads[t := th]) == InLoop(threads)
  {
    forall x
      ensures x in Idle(threads[t := th]) <==> x in Idle(threads)
      ensures x in InLoop(threads[t := th]) <==> x in InLoop(threads)
    {
    }
  }

  lemma ShapeSame(m: State, n: State)
    requires m.threads == n.threads && m.allOk == n.allOk
    ensures ShapeOk(m) == ShapeOk(n) && AllWell(m) == AllWell(n)
  {
  }

  lemma ExecuteOutcomes(c: Config, s: State, n: State, th: Thread, check: nat, ok: bool)
    requires OutcomesOk(c, s) && th.Running? && ok == (th.ok && c.verdict(check))
    requires Total(n.threads, Passed) == Total(s.threads, Passed) + multiset{check}
    requires ok == th.ok ==> AllWell(n) == AllWell(s)
    requires !ok ==> !AllWell(n)
    requires !th.ok ==> !AllWell(s)
    requires n.history == if !th.ok then s.history
                          else if ok then s.history.(good := s.history.good + multiset{check})
                          else s.history.(bad := s.history.bad + multiset{check})
    ensures OutcomesOk(c, n)
  {
    hide Total, AllWell;
    assert n.history.finished == s.history.finished;
    if th.ok && ok {
      OutcomesGood(c, s, n, check);
    } else if th.ok {
      OutcomesBad(c, s, n, check);
    }
  }

  lemma OutcomesGood(c: Config, s: State, n: State, check: nat)
    requires OutcomesOk(c, s) && c.verdict(check) && AllWell(n) == AllWell(s)
    requires Total(n.threads, Passed) == Total(s.threads, Passed) + multiset{check}
    requires n.history == s.history.(good := s.history.good + multiset{check})
    ensures OutcomesOk(c, n)
  {
    hide Total, AllWell;
    assert n.history.good + n.history.bad == s.history.good + s.history.bad + multiset{check};
  }

  lemma OutcomesBad(c: Config, s: State, n: State, check: nat)
    requires OutcomesOk(c, s) && !c.verdict(check) && !AllWell(n)
    requires Total(n.threads, Passed) == Total(s.threads, Passed) + multiset{check}
    requires n.history == s.history.(bad := s.history.bad + multiset{check})
    ensures OutcomesOk(c, n)
  {
    hide Total, AllWell;
    assert n.history.good + n.history.bad == s.history.good + s.history.bad + multiset{check};
    assert n.history.bad[check] > 0;
  }

  // ----- adding checks -----

  lemma EnqueueKeeps(c: Config, s: State, checks: seq<nat>)
    requires Inv(c, s) && !Sleeping(s, MASTER)
    ensures Inv(c, s.(queue := s.queue + checks, nTodo := s.nTodo + |checks|,
                      history := s.history.(added := s.history.added + multiset(checks))))
  {
    hide Total, Held, Passed, OutcomeRight, Idle, InLoop;
    assert multiset(s.queue + checks) == multiset(s.queue) + multiset(checks);
  }

  /** Threads change only from asleep to woken. */
  ghost predicate OnlyWoken(a: map<nat, Thread>, b: map<nat, Thread>) {
    && a.Keys == b.Keys
    && forall t :: t in a ==> b[t] == a[t] || (a[t] == Waiting && b[t] == Woken)
  }

  lemma OnlyWokenTotals(a: map<nat, Thread>, b: map<nat, Thread>)
    requires OnlyWoken(a, b)
    ensures Total(b, Held) == Total(a, Held) && Total(b, Passed) == Total(a, Passed)
  {
    TotalSame(a, b, Held);
    TotalSame(a, b, Passed);
  }

  lemma OnlyWokenSets(a: map<nat, Thread>, b: map<nat, Thread>)
    requires OnlyWoken(a, b)
    ensures Idle(b) == Idle(a) && InLoop(b) == InLoop(a)
  {
    forall t
      ensures t in Idle(b) <==> t in Idle(a)
      ensures t in InLoop(b) <==> t in InLoop(a)
    {
      assert t in a.Keys <==> t in b.Keys;
    }
  }

  lemma OnlyWokenShape(s: State, n: State)
    requires OnlyWoken(s.threads, n.threads) && n == s.(threads := n.threads) && ShapeOk(s) && MasterOk(s)
    ensures ShapeOk(n) && MasterOk(n) && AllWell(n) == AllWell(s)
  {
    forall t | t in n.threads
      ensures t in s.threads && (n.threads[t] == s.threads[t] || (s.threads[t] == Waiting && n.threads[t] == Woken))
    {
      assert t in n.threads.Keys;
    }
    AllWellSame(s, n);
  }

  lemma WakeAllOnlyWakes(threads: map<nat, Thread>)
    ensures OnlyWoken(threads, WakeAllWorkers(threads))
  {
  }

  lemma WakeAllKeeps(c: Config, s: State)
    requires Inv(c, s)
    ensures Inv(c, s.(threads := WakeAllWorkers(s.threads)))
  {
    hide Total, Held, Passed, AllWell, ShapeOk, MasterOk, OutcomeRight, Idle, InLoop, Conserved, OutcomesOk;
    hide CountersOk, WakeAllWorkers;
    var n := s.(threads := WakeAllWorkers(s.threads));
    WakeAllOnlyWakes(s.threads);
    OnlyWokenTotals(s.threads, n.threads);
    OnlyWokenSets(s.threads, n.threads);
    OnlyWokenShape(s, n);
    ThreadsKeep(c, s, n);
  }

  lemma AllWellSame(s: State, n: State)
    requires n.threads.Keys == s.threads.Keys && n.allOk == s.allOk
    requires forall t :: t in s.threads ==> ThreadOk(n.threads[t]) == ThreadOk(s.threads[t])
    ensures AllWell(n) == AllWell(s)
  {
    if AllWell(s) {
      forall t | t in n.threads
        ensures ThreadOk(n.threads[t])
      {
        assert t in s.threads.Keys;
      }
    }
    if AllWell(n) {
      forall t | t in s.threads
        ensures ThreadOk(s.threads[t])
      {
        assert t in n.threads.Keys;
      }
    }
  }

  lemma AddKeeps(c: Config, s: State, checks: seq<nat>, woken: nat)
    requires Inv(c, s) && Enabled(s, AddChecks(checks, woken))
    ensures Inv(c, Add(s, checks, woken))
  {
    EnqueueKeeps(c, s, checks);
    var n := s.(queue := s.queue + checks, nTodo := s.nTodo + |checks|,
                history := s.history.(added := s.history.added + multiset(checks)));
    if |checks| == 1 && woken != MASTER && Sleeping(s, woken) {
      WakeKeeps(c, n, woken);
    } else if |checks| > 1 {
      WakeAllKeeps(c, n);
    }
  }

  // ----- inside the lock -----

  /** Thread `t` is inside the lock with nothing left to report: it is counted in `nTotal` but holds no place yet. */
  ghost predicate Inside(c: Config, s: State, t: nat) {
    && t in s.threads && s.threads[t] == AtLock([], true)
    && ShapeOk(s) && Conserved(s) && OutcomesOk(c, s) && MasterOk(s)
    && s.nIdle == |Idle(s.threads)| && s.nTotal == |InLoop(s.threads)| + 1
    && (s.last.Some? ==> OutcomeRight(c, s.last.value))
  }

  lemma TotalsSmall(s: State)
    requires Conserved(s) && s.queue == [] && s.nTodo == 0
    ensures Total(s.threads, Held) == multiset{} && s.history.finished == s.history.added
    ensures forall t :: t in s.threads ==> Held(s.threads[t]) == multiset{}
  {
    TotalEmpty(s.threads, Held);
  }

  lemma HeldBatch(t: Thread)
    requires t.AtLock? || t.Running?
    ensures t.batch != [] ==> Held(t) != multiset{}
  {
    if t.batch != [] {
      assert t.batch[0] in Held(t);
    }
  }

  /** With nothing held, nothing is under way and only reported failures count. */
  lemma NothingHeld(s: State)
    requires ShapeOk(s) && forall t :: t in s.threads ==> Held(s.threads[t]) == multiset{}
    ensures Total(s.threads, Passed) == multiset{}
    ensures AllWell(s) <==> s.allOk
  {
    forall t | t in s.threads
      ensures Passed(s.threads[t]) == multiset{} && ThreadOk(s.threads[t])
    {
      if s.threads[t].AtLock? || s.threads[t].Running? {
        HeldBatch(s.threads[t]);
      }
    }
    TotalEmpty(s.threads, Passed);
  }

  lemma ReturnRight(c: Config, s: State)
    requires ShapeOk(s) && Conserved(s) && OutcomesOk(c, s) && s.queue == [] && s.nTodo == 0
    ensures OutcomeRight(c, Outcome(s.allOk, s.history))
  {
    TotalsSmall(s);
    NothingHeld(s);
    hide Total, Held, Passed, AllWell, ShapeOk;
    var h := s.history;
    assert h.good + h.bad <= h.added;
    if s.allOk {
      assert h.good == h.added;
      forall x
        ensures h.bad[x] == 0
      {
        assert (h.good + h.bad)[x] <= h.added[x];
      }
      assert h.bad == multiset{};
    } else {
      BadMember(h);
    }
  }

  lemma BadMember(h: History)
    requires h.bad != multiset{} && h.good + h.bad <= h.added
    ensures exists x :: x in h.bad && x in h.added
  {
    var x :| x in h.bad;
    assert (h.good + h.bad)[x] <= h.added[x];
  }

  /** The places thread `t` may take next change only its own entry. */
  lemma PlaceTotals(threads: map<nat, Thread>, t: nat, th: Thread)
    requires t in threads && threads[t] == AtLock([], true)
    ensures Total(threads[t := th], Held) == Total(threads, Held) + Held(th)
    ensures Passed(th) == multiset{} ==> Total(threads[t := th], Passed) == Total(threads, Passed)
  {
    TotalPlus(threads, Held, t, th, Held(th));
    TotalPlus(threads, Passed, t, th, multiset{});
  }

  lemma PlaceSets(threads: map<nat, Thread>, t: nat, th: Thread)
    requires t in threads && threads[t] == AtLock([], true)
    ensures th == Waiting ==> Idle(threads[t := th]) == Idle(threads) + {t} && InLoop(threads[t := th]) == InLoop(threads) + {t}
    ensures th == Outside ==> Idle(threads[t := th]) == Idle(threads) && InLoop(threads[t := th]) == InLoop(threads)
    ensures th.Running? ==> Idle(threads[t := th]) == Idle(threads) && InLoop(threads[t := th]) == InLoop(threads) + {t}
    ensures t !in Idle(threads) && t !in InLoop(threads)
  {
  }

  lemma SettleReturns(c: Config, s: State)
    requires Inside(c, s, MASTER) && s.queue == [] && s.nTodo == 0
    ensures Inv(c, Settle(c, s, MASTER))
  {
    var n := Settle(c, s, MASTER);
    ReturnRight(c, s);
    TotalsSmall(s);
    NothingHeld(s);
    PlaceTotals(s.threads, MASTER, Outside);
    PlaceSets(s.threads, MASTER, Outside);
    ReturnShape(s, n);
    hide Total, Held, Passed, AllWell, ShapeOk, OutcomeRight, Idle, InLoop, ThreadOk;
  }

  lemma ReturnShape(s: State, n: State)
    requires ShapeOk(s) && forall t :: t in s.threads ==> Held(s.threads[t]) == multiset{}
    requires n.threads == s.threads[MASTER := Outside] && n.allOk
    ensures ShapeOk(n) && AllWell(n)
  {
    NothingHeld(s.(allOk := true));
    assert ShapeOk(s.(allOk := true));
  }

  lemma SettleSleeps(c: Config, s: State, t: nat)
    requires Inside(c, s, t) && s.queue == [] && !(t == MASTER && s.nTodo == 0)
    ensures Inv(c, Settle(c, s, t))
  {
    hide Total, Held, Passed, AllWell, ShapeOk, OutcomeRight, Idle, InLoop, ThreadOk;
    var n := Settle(c, s, t);
    PlaceTotals(s.threads, t, Waiting);
    PlaceSets(s.threads, t, Waiting);
    HoldNothing(Waiting);
    SleepWell(s, n, t);
    SameOutcomes(c, s, n);
  }

  lemma HoldNothing(t: Thread)
    requires !t.AtLock? && !t.Running?
    ensures Held(t) == multiset{} && Passed(t) == multiset{}
  {
  }

  lemma SleepWell(s: State, n: State, t: nat)
    requires ShapeOk(s) && t in s.threads && s.threads[t] == AtLock([], true)
    requires n.allOk == s.allOk && n.threads == s.threads[t := Waiting]
    ensures ShapeOk(n) && AllWell(n) == AllWell(s)
  {
    AllWellSet(s, t, Waiting);
    AllWellSame(n, s.(threads := n.threads));
  }

  lemma SameOutcomes(c: Config, s: State, n: State)
    requires OutcomesOk(c, s) && n.history == s.history && AllWell(n) == AllWell(s)
    requires Total(n.threads, Passed) == Total(s.threads, Passed)
    ensures OutcomesOk(c, n)
  {
    hide Total, AllWell;
  }

  lemma SettleTakes(c: Config, s: State, t: nat)
    requires Inside(c, s, t) && s.queue != []
    ensures Inv(c, Settle(c, s, t))
  {
    hide Total, Held, Passed, AllWell, ShapeOk, OutcomeRight, Idle, InLoop, ThreadOk, OutcomesOk;
    var n := Settle(c, s, t);
    var th := n.threads[t];
    PlaceTotals(s.threads, t, th);
    PlaceSets(s.threads, t, th);
    TakeWell(s, n, t);
    SameOutcomes(c, s, n);
    HeldRunning(th);
  }

  lemma HeldRunning(t: Thread)
    requires t.Running?
    ensures Held(t) == multiset(t.batch) && |Held(t)| == |t.batch|
  {
  }

  lemma TakeWell(s: State, n: State, t: nat)
    requires ShapeOk(s) && t in s.threads && s.threads[t] == AtLock([], true) && n.allOk == s.allOk
    requires t in n.threads && n.threads == s.threads[t := n.threads[t]]
    requires n.threads[t].Running? && n.threads[t].ok == s.allOk && n.threads[t].next == 0 && n.threads[t].batch != []
    ensures ShapeOk(n) && AllWell(n) == AllWell(s) && Passed(n.threads[t]) == multiset{}
  {
    assert ThreadOk(n.threads[t]) == s.allOk;
    if s.allOk {
      AllWellSet(s, t, n.threads[t]);
      AllWellSame(n, s.(threads := s.threads[t := n.threads[t]]));
    }
  }

  lemma SettleKeeps(c: Config, s: State, t: nat)
    requires Inside(c, s, t)
    ensures Inv(c, Settle(c, s, t))
  {
    if s.queue != [] {
      SettleTakes(c, s, t);
    } else if t == MASTER && s.nTodo == 0 {
      SettleReturns(c, s);
    } else {
      SettleSleeps(c, s, t);
    }
  }

  /** Leaving the place `t` had: what it held is gone, and so is its place. */
  lemma LeaveTotals(threads: map<nat, Thread>, t: nat)
    requires t in threads
    ensures Total(threads, Held) == Total(threads[t := AtLock([], true)], Held) + Held(threads[t])
    ensures Total(threads, Passed) == Total(threads[t := AtLock([], true)], Passed) + Passed(threads[t])
  {
    TotalPlus(threads, Held, t, AtLock([], true), Held(threads[t]));
    TotalPlus(threads, Passed, t, AtLock([], true), Passed(threads[t]));
  }

  lemma LeaveSets(threads: map<nat, Thread>, t: nat)
    requires t in threads && (threads[t] == Woken || (threads[t].AtLock? && threads[t].batch != []))
    ensures var after := threads[t := AtLock([], true)];
      && InLoop(after) == InLoop(threads) - {t} && t in InLoop(threads)
      && Idle(after) == Idle(threads) - {t} && (t in Idle(threads) <==> threads[t] == Woken)
  {
  }

  lemma FirstEntry(c: Config, s: State, t: nat)
    requires Inv(c, s) && t in s.threads && s.threads[t].AtLock? && s.threads[t].batch == []
    ensures Inside(c, Report(s, t), t)
  {
    var n := Report(s, t);
    assert s.threads[t] == AtLock([], true);
    ShapeSame(s, n);
    hide Total, Held, Passed, AllWell, ShapeOk, OutcomeRight, Idle, InLoop, ThreadOk, OutcomesOk;
    SameOutcomes(c, s, n);
  }

  /** A finished batch taken into account: conservation, outcomes and noticed failures, before any wakeup. */
  lemma ReportParts(c: Config, s: State, m: State, t: nat)
    requires Inv(c, s) && t in s.threads && s.threads[t].AtLock? && s.threads[t].batch != []
    requires m == s.(allOk := s.allOk && s.threads[t].ok, nTodo := s.nTodo - |s.threads[t].batch|,
                     history := s.history.(finished := s.history.finished + multiset(s.threads[t].batch)),
                     threads := s.threads[t := AtLock([], true)])
    ensures Conserved(m) && OutcomesOk(c, m) && m.nTodo >= 0
  {
    var th := s.threads[t];
    LeaveTotals(s.threads, t);
    assert Held(th) == multiset(th.batch) && Passed(th) == multiset(th.batch);
    ReportWell(s, m, t);
    hide Total, Held, Passed, AllWell, ShapeOk, OutcomeRight, Idle, InLoop, ThreadOk;
  }

  lemma ReportWell(s: State, m: State, t: nat)
    requires t in s.threads && s.threads[t].AtLock?
    requires m.allOk == (s.allOk && s.threads[t].ok) && m.threads == s.threads[t := AtLock([], true)]
    ensures AllWell(m) == AllWell(s)
  {
    if s.threads[t].ok {
      AllWellSet(s, t, AtLock([], true));
      AllWellSame(m, s.(threads := m.threads));
    } else {
      assert !ThreadOk(s.threads[t]);
    }
  }

  lemma ReportShape(s: State, m: State, t: nat)
    requires ShapeOk(s) && t in s.threads && m.threads == s.threads[t := AtLock([], true)]
    ensures ShapeOk(m)
  {
  }

  /** Waking the master while another thread is inside. */
  lemma WakeMasterInside(c: Config, m: State, n: State, t: nat)
    requires t in m.threads && t != MASTER && m.threads[t] == AtLock([], true) && Sleeping(m, MASTER)
    requires ShapeOk(m) && Conserved(m) && OutcomesOk(c, m)
    requires m.nIdle == |Idle(m.threads)| && m.nTotal == |InLoop(m.threads)| + 1
    requires m.last.Some? ==> OutcomeRight(c, m.last.value)
    requires n == m.(threads := m.threads[MASTER := Woken])
    ensures Inside(c, n, t)
  {
    TotalSet(m.threads, Held, MASTER, Woken);
    TotalSet(m.threads, Passed, MASTER, Woken);
    SetSets(m.threads, MASTER, Woken);
    AllWellSet(m, MASTER, Woken);
    WakeShape(m, n);
    hide Total, Held, Passed, AllWell, ShapeOk, OutcomeRight, Idle, InLoop, ThreadOk, OutcomesOk;
    SameOutcomes(c, m, n);
  }

  lemma WakeShape(m: State, n: State)
    requires ShapeOk(m) && n.threads == m.threads[MASTER := Woken]
    ensures ShapeOk(n) && !Sleeping(n, MASTER)
  {
  }

  lemma ReportKeeps(c: Config, s: State, t: nat)
    requires Inv(c, s) && t in s.threads && s.threads[t].AtLock?
    ensures Inside(c, Report(s, t), t)
  {
    var batch := s.threads[t].batch;
    if batch == [] {
      FirstEntry(c, s, t);
    } else {
      var n := Report(s, t);
      var m := s.(allOk := s.allOk && s.threads[t].ok, nTodo := s.nTodo - |batch|,
                  history := s.history.(finished := s.history.finished + multiset(batch)),
                  threads := s.threads[t := AtLock([], true)]);
      hide Total, Held, Passed, AllWell, OutcomeRight, Idle, InLoop, ThreadOk, OutcomesOk, Conserved, ShapeOk;
      ReportParts(c, s, m, t);
      ReportShape(s, m, t);
      LeaveSets(s.threads, t);
      MasterPresent(s);
      if m.nTodo == 0 && t != MASTER && m.threads[MASTER] == Waiting {
        WakeMasterInside(c, m, n, t);
      } else {
        assert n == m;
      }
    }
  }

  lemma MasterPresent(s: State)
    requires ShapeOk(s)
    ensures MASTER in s.threads
  {
  }

  lemma ResumeKeeps(c: Config, s: State, t: nat)
    requires Inv(c, s) && t in s.threads && s.threads[t] == Woken
    ensures t in Idle(s.threads) && Inv(c, Settle(c, s.(nIdle := s.nIdle - 1), t))
  {
    hide Total, Held, Passed, AllWell, ShapeOk, OutcomeRight, Idle, InLoop, ThreadOk, OutcomesOk, Settle;
    var m := s.(nIdle := s.nIdle - 1, threads := s.threads[t := AtLock([], true)]);
    LeaveTotals(s.threads, t);
    LeaveSets(s.threads, t);
    HoldNothing(Woken);
    WokenWell(s, m, t);
    ReportShape(s, m, t);
    SameOutcomes(c, s, m);
    assert Inside(c, m, t);
    SettleKeeps(c, m, t);
    SettleIgnores(c, s.(nIdle := s.nIdle - 1), t, AtLock([], true));
  }

  lemma WokenWell(s: State, m: State, t: nat)
    requires t in s.threads && s.threads[t] == Woken
    requires m.allOk == s.allOk && m.threads == s.threads[t := AtLock([], true)]
    ensures AllWell(m) == AllWell(s)
  {
    AllWellSet(s, t, AtLock([], true));
    AllWellSame(m, s.(threads := m.threads));
  }

  lemma SettleIgnores(c: Config, s: State, t: nat, th: Thread)
    requires t in s.threads && s.nTotal >= 0 && s.nIdle >= 0
    ensures Settle(c, s.(threads := s.threads[t := th]), t) == Settle(c, s, t)
  {
    hide BatchCount, Taken;
    SetTwice(s.threads, t, th, Outside);
    SetTwice(s.threads, t, th, Waiting);
    if s.queue != [] {
      SameBatch(c, s, t, th);
      SetTwice(s.threads, t, th, Running(Taken(s.queue, BatchCount(c, s)), 0, s.allOk));
    }
  }

  lemma SetTwice(threads: map<nat, Thread>, t: nat, th: Thread, th': Thread)
    ensures threads[t := th][t := th'] == threads[t := th']
  {
  }

  lemma SameBatch(c: Config, s: State, t: nat, th: Thread)
    requires s.queue != [] && s.nTotal >= 0 && s.nIdle >= 0
    ensures BatchCount(c, s.(threads := s.threads[t := th])) == BatchCount(c, s)
  {
  }

  /** Every action keeps the invariant. */
  lemma StepKeeps(c: Config, s: State, a: Action)
    requires Inv(c, s) && Enabled(s, a)
    ensures Inv(c, Apply(c, s, a))
  {
    hide Total, Held, Passed, AllWell, ShapeOk, OutcomeRight, Idle, InLoop, OutcomesOk, MasterOk, Conserved;
    hide Settle, Report, Add, ExecuteOne;
    match a
    case StartWorker(t) => StartKeeps(c, s, t);
    case AddChecks(checks, woken) => AddKeeps(c, s, checks, woken);
    case BeginWait => StartKeeps(c, s, MASTER);
    case EnterLock(t) =>
      ReportKeeps(c, s, t);
      SettleKeeps(c, Report(s, t), t);
    case Resume(t) => ResumeKeeps(c, s, t);
    case Execute(t) => ExecuteKeeps(c, s, t);
    case FinishBatch(t) => FinishKeeps(c, s, t);
    case SpuriousWakeup(t) => WakeKeeps(c, s, t);
  }

  // ----- whole runs -----

  /** `n` is the state after a run in which every action is enabled in turn. (Were a counter ever wrong, nothing would be
      known of `n`.) */
  ghost predicate RunsTo(c: Config, s: State, acts: seq<Action>, n: State)
    decreases |acts|
  {
    if acts == [] then n == s
    else Enabled(s, acts[0]) && (CountersOk(s) ==> RunsTo(c, Apply(c, s, acts[0]), acts[1..], n))
  }

  lemma {:induction false} RunKeeps(c: Config, s: State, acts: seq<Action>, n: State)
    requires Inv(c, s) && RunsTo(c, s, acts, n)
    ensures Inv(c, n)
    decreases |acts|
  {
    if acts != [] {
      StepKeeps(c, s, acts[0]);
      RunKeeps(c, Apply(c, s, acts[0]), acts[1..], n);
    }
  }

  /** In every run of one master and any workers: the to-do counter is what is queued or in flight, nothing added is lost or
      taken twice, a sleeping master always has work outstanding, and every result returned is right. */
  lemma EveryRun(c: Config, workers: set<nat>, acts: seq<Action>, s: State)
    requires RunsTo(c, Init(workers), acts, s)
    ensures s.nTodo == |s.queue| + |Total(s.threads, Held)|
    ensures s.history.added == multiset(s.queue) + Total(s.threads, Held) + s.history.finished
    ensures Sleeping(s, MASTER) ==> s.nTodo > 0
    ensures s.last.Some? ==> OutcomeRight(c, s.last.value)
  {
    InitInv(c, workers);
    RunKeeps(c, Init(workers), acts, s);
  }

  // ----- Wait comes to an end -----

  /** Work a thread still has to do before it sleeps, in copies of a token. */
  function Work(t: Thread): multiset<nat> {
    match t
    case Waiting => multiset{}
    case Woken => multiset{0}
    case AtLock(_, _) => multiset{0, 0, 0}
    case Outside => multiset{0, 0, 0, 0}
    case Running(batch, next, _) =>
      multiset{0, 0, 0, 0} + if next <= |batch| then multiset(batch[next..]) else multiset{}
  }

  ghost function Measure(s: State): nat {
    5 * |s.queue| + |Total(s.threads, Work)|
  }

  lemma WorkSet(threads: map<nat, Thread>, t: nat, th: Thread)
    requires t in threads
    ensures |Total(threads[t := th], Work)| + |Work(threads[t])| == |Total(threads, Work)| + |Work(th)|
  {
    TotalSet(threads, Work, t, th);
    hide Total, Work;
    assert |Total(threads[t := th], Work) + Work(threads[t])| == |Total(threads, Work) + Work(th)|;
  }

  /** Inside the lock a thread returns as the master or leaves at most the given amount of work. */
  lemma SettleWork(c: Config, s: State, t: nat, spare: nat)
    requires t in s.threads && s.nTotal >= 0 && s.nIdle >= 0 && |Work(s.threads[t])| == spare && spare >= 1
    ensures var n := Settle(c, s, t);
      || (t == MASTER && n.threads[MASTER] == Outside)
      || (if s.queue == [] then Measure(n) + spare == Measure(s) else Measure(n) < Measure(s))
  {
    var n := Settle(c, s, t);
    WorkSet(s.threads, t, n.threads[t]);
    if s.queue != [] {
      TakenWork(s.queue, BatchCount(c, s), s.allOk);
    }
    hide Total, Work, Taken, BatchCount;
    assert |Work(Waiting)| == 0 by {
      WaitingWork();
    }
  }

  lemma WaitingWork()
    ensures |Work(Waiting)| == 0
  {
  }

  lemma TakenWork(queue: seq<nat>, k: nat, ok: bool)
    requires k <= |queue|
    ensures |Work(Running(Taken(queue, k), 0, ok))| == 4 + k
  {
    var taken := Taken(queue, k);
    assert taken[0..] == taken;
  }

  lemma ReportWork(c: Config, s: State, t: nat)
    requires MasterOk(s) && t in s.threads && s.threads[t].AtLock?
    ensures var m := Report(s, t);
      && t in m.threads && m.threads[t].AtLock? && m.queue == s.queue
      && Measure(m) <= Measure(s) + 1
      && (m.queue != [] ==> Measure(m) == Measure(s))
  {
    hide Total, MasterOk;
    var m := Report(s, t);
    if s.threads[t].batch != [] {
      var threads := s.threads[t := AtLock([], true)];
      WorkSet(s.threads, t, AtLock([], true));
      if MASTER in threads && threads[MASTER] == Waiting && t != MASTER {
        WorkSet(threads, MASTER, Woken);
        MasterAsleepMeansEmpty(s, t);
      }
    }
  }

  lemma MasterAsleepMeansEmpty(s: State, t: nat)
    requires MasterOk(s) && t in s.threads && t != MASTER
    requires Sleeping(s.(threads := s.threads[t := AtLock([], true)]), MASTER)
    ensures s.queue == []
  {
  }

  lemma EnterLockWork(c: Config, s: State, t: nat)
    requires Inv(c, s) && t in s.threads && s.threads[t].AtLock?
    ensures var n := Settle(c, Report(s, t), t);
      MASTER in n.threads && (n.threads[MASTER] == Outside || Measure(n) < Measure(s))
  {
    hide Total, Held, Passed, AllWell, OutcomeRight, Idle, InLoop, OutcomesOk, Conserved, Measure, CountersOk;
    ReportKeeps(c, s, t);
    ReportWork(c, s, t);
    AtLockWork(Report(s, t).threads[t]);
    SettleWork(c, Report(s, t), t, 3);
  }

  lemma AtLockWork(t: Thread)
    requires t.AtLock?
    ensures |Work(t)| == 3
  {
  }

  lemma ResumeWork(c: Config, s: State, t: nat)
    requires Inv(c, s) && t in s.threads && s.threads[t] == Woken
    ensures t in Idle(s.threads)
    ensures var n := Settle(c, s.(nIdle := s.nIdle - 1), t);
      MASTER in n.threads && (n.threads[MASTER] == Outside || Measure(n) < Measure(s))
  {
    ResumeKeeps(c, s, t);
    hide Total, Held, Passed, AllWell, OutcomeRight, Idle, InLoop, OutcomesOk, Conserved;
    SettleWork(c, s.(nIdle := s.nIdle - 1), t, 1);
  }

  lemma ExecuteWork(c: Config, s: State, t: nat)
    requires Enabled(s, Execute(t))
    ensures Measure(ExecuteOne(c, s, t)) < Measure(s)
  {
    hide Total;
    var th := s.threads[t];
    var rest := th.batch[th.next + 1..];
    assert th.batch[th.next..] == [th.batch[th.next]] + rest;
    WorkSet(s.threads, t, ExecuteOne(c, s, t).threads[t]);
  }

  lemma FinishWork(s: State, t: nat)
    requires Enabled(s, FinishBatch(t))
    ensures Measure(s.(threads := s.threads[t := AtLock(s.threads[t].batch, s.threads[t].ok)])) < Measure(s)
  {
    WorkSet(s.threads, t, AtLock(s.threads[t].batch, s.threads[t].ok));
    hide Total;
  }

  lemma StartWork(s: State, t: nat)
    requires t in s.threads && s.threads[t] == Outside
    ensures Measure(s.(threads := s.threads[t := AtLock([], true)])) < Measure(s)
  {
    WorkSet(s.threads, t, AtLock([], true));
    hide Total;
  }

  /** Anything a thread does while the master waits, spurious wakeups apart, lets the master return or leaves less to do. */
  lemma WorkGoesDown(c: Config, s: State, a: Action)
    requires Inv(c, s) && Enabled(s, a) && s.threads[MASTER] != Outside && !a.SpuriousWakeup?
    ensures var n := Apply(c, s, a);
      MASTER in n.threads && (n.threads[MASTER] == Outside || Measure(n) < Measure(s))
  {
    hide Total, Held, Passed, AllWell, OutcomeRight, Idle, InLoop, OutcomesOk, Conserved, Measure, Settle, Report, CountersOk;
    match a
    case StartWorker(t) => StartWork(s, t);
    case EnterLock(t) => EnterLockWork(c, s, t);
    case Resume(t) => ResumeWork(c, s, t);
    case Execute(t) => ExecuteWork(c, s, t);
    case FinishBatch(t) => FinishWork(s, t);
  }

  /** While the master waits, some thread can go on without a spurious wakeup. */
  lemma SomeoneCanGoOn(c: Config, s: State)
    requires Inv(c, s) && s.threads[MASTER] != Outside
    ensures exists a :: Enabled(s, a) && !a.SpuriousWakeup?
  {
    hide Total, Passed, AllWell, OutcomeRight, Idle, InLoop, OutcomesOk;
    if s.threads[MASTER] == Waiting {
      TotalEmpty(s.threads, Held);
      assert Total(s.threads, Held) != multiset{};
      var t :| t in s.threads && Held(s.threads[t]) != multiset{};
      ThreadCanGoOn(s, t);
    } else {
      ThreadCanGoOn(s, MASTER);
    }
  }

  lemma ThreadCanGoOn(s: State, t: nat)
    requires ShapeOk(s) && t in s.threads && s.threads[t] != Outside && s.threads[t] != Waiting
    ensures exists a :: Enabled(s, a) && !a.SpuriousWakeup?
  {
    match s.threads[t]
    case AtLock(_, _) => assert Enabled(s, EnterLock(t));
    case Woken => assert Enabled(s, Resume(t));
    case Running(batch, next, _) =>
      if next < |batch| {
        assert Enabled(s, Execute(t));
      } else {
        assert Enabled(s, FinishBatch(t));
      }
  }

  lemma SpuriousWork(c: Config, s: State, t: nat)
    requires Enabled(s, SpuriousWakeup(t)) && CountersOk(s)
    ensures Measure(Apply(c, s, SpuriousWakeup(t))) == Measure(s) + 1
  {
    hide Total, Work, CountersOk, Settle, Report, Add, ExecuteOne;
    WorkSet(s.threads, t, Woken);
    WokenWork();
    WaitingWork();
  }

  lemma WokenWork()
    ensures |Work(Woken)| == 1
  {
  }

  /** A run during which the master does not return. */
  ghost predicate StillWaiting(c: Config, s: State, acts: seq<Action>)
    decreases |acts|
  {
    && MASTER in s.threads && s.threads[MASTER] != Outside
    && (acts == [] || (Enabled(s, acts[0]) && (CountersOk(s) ==> StillWaiting(c, Apply(c, s, acts[0]), acts[1..]))))
  }

  /** The spurious wakeups of a run. */
  function Spurious(acts: seq<Action>): nat {
    if acts == [] then 0 else (if acts[0].SpuriousWakeup? then 1 else 0) + Spurious(acts[1..])
  }

  /** Wait comes to an end: apart from spurious wakeups it cannot take more steps than there is work, and one more for each
      spurious wakeup; and until it ends someone can go on without one. */
  lemma {:induction false} WaitEnds(c: Config, s: State, acts: seq<Action>)
    requires Inv(c, s) && StillWaiting(c, s, acts)
    ensures |acts| - Spurious(acts) <= Measure(s) + Spurious(acts)
    ensures exists a :: Enabled(s, a) && !a.SpuriousWakeup?
    decreases |acts|
  {
    SomeoneCanGoOn(c, s);
    if acts != [] {
      StepKeeps(c, s, acts[0]);
      if acts[0].SpuriousWakeup? {
        SpuriousWork(c, s, acts[0].t);
      } else {
        WorkGoesDown(c, s, acts[0]);
      }
      var n := Apply(c, s, acts[0]);
      hide Inv, Measure, Apply, Enabled;
      WaitEnds(c, n, acts[1..]);
    }
  }
}
