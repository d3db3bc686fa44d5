/** What a whole call of Emplace or Pop by one of many threads does, from the event that starts it to the first
    state in which its thread is out again. */
module MpmcQueueCalls {
  import opened Options
  import opened SpscQueue
  import opened SpscQueueCalls
  import opened MpmcQueue

  /** Event i starts a call of thread t, which is not over before state j. */
  ghost predicate InQueueCall<T>(states: seq<Queue<T>>, acts: seq<(nat, Action<T>)>, data: seq<T>, n: nat, t: nat,
                                 a: Action<T>, i: nat, j: nat) {
    && IsQueueRun(states, acts, data, n) && t < n && i < j < |states| && acts[i] == (t, a)
    && forall k | i < k < j :: t < |states[k].threads| && !states[k].threads[t].Out?
  }

  /** In state j it is over for the first time. */
  ghost predicate IsQueueCall<T>(states: seq<Queue<T>>, acts: seq<(nat, Action<T>)>, data: seq<T>, n: nat, t: nat,
                                 a: Action<T>, i: nat, j: nat) {
    InQueueCall(states, acts, data, n, t, a, i, j) && t < |states[j].threads| && states[j].threads[t].Out?
  }

  lemma {:induction false} SameThreads<T>(states: seq<Queue<T>>, acts: seq<(nat, Action<T>)>, data: seq<T>, n: nat,
                                          i: nat)
    requires IsQueueRun(states, acts, data, n) && i < |states|
    ensures |states[i].threads| == n
  {
    if i > 0 {
      SameThreads(states, acts, data, n, i - 1);
      ActAt(states, acts, data, n, i - 1);
      ActShape(states[i - 1], acts[i - 1].0, acts[i - 1].1);
    }
  }

  lemma ActAt<T>(states: seq<Queue<T>>, acts: seq<(nat, Action<T>)>, data: seq<T>, n: nat, i: nat)
    requires IsQueueRun(states, acts, data, n) && i < |acts|
    ensures |states[i].ring.data| > 0 && Act(states[i], acts[i].0, acts[i].1) == Some(states[i + 1])
  {
  }

  lemma ActShape<T>(q: Queue<T>, t: nat, a: Action<T>)
    requires |q.ring.data| > 0 && Act(q, t, a).Some?
    ensures |Act(q, t, a).value.threads| == |q.threads|
  {
    hide Next;
  }

  // ----- pushing -----

  /** The thread waits for the mutex, or its call of Emplace is the one in the ring. */
  predicate PushingAs<T(==)>(q: Queue<T>, t: nat, waits: bool, v: T) {
    && t < |q.threads|
    && (q.threads[t] == WantsPush(waits, v) || (q.threads[t].Pushing? && ProdCall(waits, v, q.ring.prod)))
  }

  /** In some state from i on, before j, the ring was full, or empty, or stop was requested. */
  ghost predicate RingWasFull<T>(states: seq<Queue<T>>, cap: nat, i: nat, j: nat)
    requires j <= |states|
  {
    exists k | i < k < j :: Held(states[k].ring) == cap
  }

  ghost predicate RingWasEmpty<T>(states: seq<Queue<T>>, i: nat, j: nat)
    requires j <= |states|
  {
    exists k | i < k < j :: Held(states[k].ring) == 0
  }

  ghost predicate StopWasRequested<T>(states: seq<Queue<T>>, i: nat, j: nat)
    requires j <= |states|
  {
    exists k | i < k < j :: states[k].ring.stop
  }

  /** One action: the thread stays as it is, or enters the ring. */
  lemma PushStep<T>(q: Queue<T>, u: nat, a: Action<T>, t: nat, waits: bool, v: T)
    requires SidesOk(q) && |q.ring.data| > 0 && PushingAs(q, t, waits, v) && Act(q, u, a).Some?
    requires t < |Act(q, u, a).value.threads| && !Act(q, u, a).value.threads[t].Out?
    ensures var q' := Act(q, u, a).value;
      && PushingAs(q', t, waits, v)
      && (q.threads[t].WantsPush? && q'.threads[t].Pushing? ==>
          u == t && a == Run && q'.ring.pushed0 == q.ring.pushed && !q'.ring.prod.PDone?)
      && (q.threads[t].Pushing? ==>
          && q'.threads[t].Pushing? && q'.ring.pushed0 == q.ring.pushed0
          && (q.ring.prod == q'.ring.prod || exists e :: Next(q.ring, e) == Some(q'.ring)))
  {
    hide Next, ProdCall;
    var q' := Act(q, u, a).value;
    ActStepsRing(q, u, a);
    if q.threads[t].Pushing? {
      ActKeepsSides(q, u, a);
      PusherStays(q, u, a, t);
      if q'.ring != q.ring {
        var e :| Next(q.ring, e) == Some(q'.ring);
        ProdCallStep(q.ring, e, waits, v);
      }
    } else if u == t {
      EntersRing(q, t, a, waits, v);
    } else {
      OthersStay(q, u, a, t);
    }
  }

  lemma PusherStays<T>(q: Queue<T>, u: nat, a: Action<T>, t: nat)
    requires SidesOk(q) && |q.ring.data| > 0 && Act(q, u, a).Some? && SidesOk(Act(q, u, a).value)
    requires t < |q.threads| == |Act(q, u, a).value.threads| && !Act(q, u, a).value.threads[t].Out?
    requires q.threads[t].Pushing? || q.threads[t].Popping?
    ensures Act(q, u, a).value.threads[t] == q.threads[t]
    ensures q.threads[t].Pushing? ==> !Act(q, u, a).value.ring.prod.PIdle?
    ensures q.threads[t].Popping? ==> !Act(q, u, a).value.ring.cons.CIdle?
  {
    hide Next;
  }

  lemma OthersStay<T>(q: Queue<T>, u: nat, a: Action<T>, t: nat)
    requires |q.ring.data| > 0 && Act(q, u, a).Some? && u != t && t < |q.threads|
    ensures t < |Act(q, u, a).value.threads| && Act(q, u, a).value.threads[t] == q.threads[t]
  {
    hide Next;
  }

  lemma EntersRing<T>(q: Queue<T>, t: nat, a: Action<T>, waits: bool, v: T)
    requires |q.ring.data| > 0 && Act(q, t, a).Some? && t < |q.threads| && q.threads[t] == WantsPush(waits, v)
    ensures var q' := Act(q, t, a).value;
      if q'.threads[t].Pushing? then
        a == Run && ProdCall(waits, v, q'.ring.prod) && q'.ring.pushed0 == q.ring.pushed && !q'.ring.prod.PDone?
      else q'.threads[t] == q.threads[t]
  {
    hide RunProducer, RunConsumer;
  }

  /** While the call is in the ring, `entered` is the state it entered from. */
  lemma {:induction false} PushingKeeps<T>(states: seq<Queue<T>>, acts: seq<(nat, Action<T>)>, data: seq<T>, n: nat,
                                           cap: nat, t: nat, waits: bool, v: T, i: nat, j: nat)
    returns (entered: nat)
    requires InQueueCall(states, acts, data, n, t, CallEmplace(waits, v), i, j) && IsCapacity(|data|, cap)
    requires t < |states[j].threads| && !states[j].threads[t].Out?
    ensures PushingAs(states[j], t, waits, v)
    ensures states[j].threads[t].Pushing? ==>
      && i < entered < j
      && states[j].ring.pushed0 == states[entered].ring.pushed
      && (states[j].ring.prod.PDone? && !states[j].ring.prod.ok ==> RingWasFull(states, |data|, entered, j))
    decreases j
  {
    hide Act, QueueInv, IsCapacity, PushingAs, SidesOk, Inv, Next;
    entered := 0;
    var q, act := states[j - 1], acts[j - 1];
    ActAt(states, acts, data, n, j - 1);
    QueueRunKeepsInv(states, acts, data, n, cap, j - 1);
    SidesAndRing(q, |data|);
    SameThreads(states, acts, data, n, i);
    if j == i + 1 {
      PushIsCalled(q, t, waits, v);
    } else {
      entered := PushingKeeps(states, acts, data, n, cap, t, waits, v, i, j - 1);
      PushStep(q, act.0, act.1, t, waits, v);
      PushingOrWanting(q, t, waits, v);
      if q.threads[t].Pushing? {
        if states[j].ring.prod != q.ring.prod {
          var e :| Next(q.ring, e) == Some(states[j].ring);
          GivesUpOnlyWhen(q.ring, |data|, cap, e);
          DoneStaysDone(q, act.0, act.1, t, states[j], e);
        }
      } else {
        entered := j - 1;
      }
    }
  }

  lemma DoneStaysDone<T>(q: Queue<T>, u: nat, a: Action<T>, t: nat, q': Queue<T>, e: Event<T>)
    requires SidesOk(q) && |q.ring.data| > 0 && Act(q, u, a) == Some(q') && Next(q.ring, e) == Some(q'.ring)
    requires t < |q.threads| && t < |q'.threads| && q.threads[t] == q'.threads[t]
    ensures q.threads[t].Pushing? && q.ring.prod.PDone? ==> q'.ring.prod == q.ring.prod
    ensures q.threads[t].Popping? && q.ring.cons.CDone? ==> q'.ring.cons == q.ring.cons
  {
    hide Next;
    ActKeepsSides(q, u, a);
    DoneStays(q.ring, e);
  }

  lemma PushingOrWanting<T>(q: Queue<T>, t: nat, waits: bool, v: T)
    requires PushingAs(q, t, waits, v)
    ensures t < |q.threads| && (q.threads[t].Pushing? || q.threads[t].WantsPush?)
  {
  }

  lemma SidesAndRing<T>(q: Queue<T>, cap: nat)
    requires QueueInv(q, cap)
    ensures SidesOk(q) && Inv(q.ring, cap)
  {
  }

  lemma PushIsCalled<T>(q: Queue<T>, t: nat, waits: bool, v: T)
    requires |q.ring.data| > 0 && Act(q, t, CallEmplace(waits, v)).Some? && t < |q.threads|
    ensures var q' := Act(q, t, CallEmplace(waits, v)).value;
      PushingAs(q', t, waits, v) && t < |q'.threads| && !q'.threads[t].Pushing?
  {
  }

  /** Leaving the ring. */
  lemma PusherLeaves<T>(q: Queue<T>, u: nat, a: Action<T>, t: nat)
    requires |q.ring.data| > 0 && Act(q, u, a).Some? && t < |q.threads|
    requires q.threads[t].Pushing? || q.threads[t].WantsPush?
    requires t < |Act(q, u, a).value.threads| && Act(q, u, a).value.threads[t].Out?
    ensures q.threads[t].Pushing? && q.ring.prod.PDone? && Act(q, u, a).value.ring.pushed == q.ring.pushed
  {
    hide RunProducer, RunConsumer;
  }

  /** A call of Emplace that is over has pushed its element or nothing since it entered the ring, and nobody
      else has pushed anything meanwhile. One that waits has pushed it; any other only failed to because the
      ring was full. */
  lemma PushCallByThread<T>(states: seq<Queue<T>>, acts: seq<(nat, Action<T>)>, data: seq<T>, n: nat, cap: nat, t: nat,
                            waits: bool, v: T, i: nat, j: nat)
    returns (entered: nat, ok: bool)
    requires IsQueueCall(states, acts, data, n, t, CallEmplace(waits, v), i, j) && IsCapacity(|data|, cap)
    ensures i < entered < j && (waits ==> ok) && (!ok ==> RingWasFull(states, |data|, entered, j))
    ensures states[j].ring.pushed == states[entered].ring.pushed + if ok then [v] else []
  {
    hide Act, QueueInv, IsCapacity, SidesOk, Inv, Next, RingWasFull;
    var q, act := states[j - 1], acts[j - 1];
    ActAt(states, acts, data, n, j - 1);
    SameThreads(states, acts, data, n, i);
    SameThreads(states, acts, data, n, j - 1);
    QueueRunKeepsInv(states, acts, data, n, cap, j - 1);
    SidesAndRing(q, |data|);
    if j == i + 1 {
      PushIsCalled(q, t, waits, v);
      assert false;
    }
    entered := PushingKeeps(states, acts, data, n, cap, t, waits, v, i, j - 1);
    PusherLeaves(q, act.0, act.1, t);
    PushedBy(q.ring, |data|);
    FullLonger(states, |data|, entered, j - 1);
    ok := q.ring.prod.ok;
  }

  lemma PushedBy<T>(s: State<T>, cap: nat)
    requires Inv(s, cap)
    ensures s.prod.PDone? ==> s.pushed == s.pushed0 + if s.prod.ok then [s.prod.v] else []
    ensures s.cons.CDone? ==> s.popped == s.popped0 + if s.cons.res.Some? then [s.cons.res.value] else []
  {
    hide RingOk, MutexOk, WakeupOk;
  }

  lemma FullLonger<T>(states: seq<Queue<T>>, cap: nat, i: nat, j: nat)
    requires j < |states|
    ensures RingWasFull(states, cap, i, j) ==> RingWasFull(states, cap, i, j + 1)
    ensures RingWasEmpty(states, i, j) ==> RingWasEmpty(states, i, j + 1)
    ensures StopWasRequested(states, i, j) ==> StopWasRequested(states, i, j + 1)
  {
  }

  // ----- popping -----

  predicate PoppingAs<T>(q: Queue<T>, t: nat, mode: Mode, stopped: bool) {
    && t < |q.threads|
    && (q.threads[t] == WantsPop(mode, stopped)
        || (q.threads[t].Popping? && ConsCall(mode, stopped, q.ring.stop, q.ring.cons)))
  }

  lemma PopStep<T>(q: Queue<T>, u: nat, a: Action<T>, t: nat, mode: Mode, stopped: bool)
    requires SidesOk(q) && |q.ring.data| > 0 && PoppingAs(q, t, mode, stopped) && Act(q, u, a).Some?
    requires t < |Act(q, u, a).value.threads| && !Act(q, u, a).value.threads[t].Out?
    ensures var q' := Act(q, u, a).value;
      && PoppingAs(q', t, mode, stopped)
      && (q.threads[t].WantsPop? && q'.threads[t].Popping? ==>
          u == t && a == Run && q'.ring.popped0 == q.ring.popped && !q'.ring.cons.CDone?)
      && (q.threads[t].Popping? ==>
          && q'.threads[t].Popping? && q'.ring.popped0 == q.ring.popped0
          && (q.ring == q'.ring || exists e :: Next(q.ring, e) == Some(q'.ring)))
  {
    hide Next, ConsCall;
    var q' := Act(q, u, a).value;
    ActStepsRing(q, u, a);
    if q.threads[t].Popping? {
      ActKeepsSides(q, u, a);
      PusherStays(q, u, a, t);
      if q'.ring != q.ring {
        var e :| Next(q.ring, e) == Some(q'.ring);
        ConsCallStep(q.ring, e, mode, stopped);
      }
    } else if u == t {
      EntersToPop(q, t, a, mode, stopped);
    } else {
      OthersStay(q, u, a, t);
    }
  }

  lemma EntersToPop<T>(q: Queue<T>, t: nat, a: Action<T>, mode: Mode, stopped: bool)
    requires |q.ring.data| > 0 && Act(q, t, a).Some? && t < |q.threads| && q.threads[t] == WantsPop(mode, stopped)
    ensures var q' := Act(q, t, a).value;
      if q'.threads[t].Popping? then
        && a == Run && ConsCall(mode, stopped, q'.ring.stop, q'.ring.cons) && q'.ring.popped0 == q.ring.popped
        && !q'.ring.cons.CDone?
      else q'.threads[t] == q.threads[t]
  {
    hide RunProducer, RunConsumer;
  }

  lemma {:induction false} PoppingKeeps<T>(states: seq<Queue<T>>, acts: seq<(nat, Action<T>)>, data: seq<T>, n: nat,
                                           cap: nat, t: nat, mode: Mode, stopped: bool, i: nat, j: nat)
    returns (entered: nat)
    requires InQueueCall(states, acts, data, n, t, CallPop(mode, stopped), i, j) && IsCapacity(|data|, cap)
    requires t < |states[j].threads| && !states[j].threads[t].Out?
    ensures PoppingAs(states[j], t, mode, stopped)
    ensures states[j].threads[t].Popping? ==>
      && i < entered < j
      && states[j].ring.popped0 == states[entered].ring.popped
      && (states[j].ring.cons == CDone(None) && mode == Try ==> RingWasEmpty(states, entered, j))
      && (states[j].ring.cons == CDone(None) && mode == WaitWithStopToken ==> StopWasRequested(states, entered, j))
    decreases j
  {
    hide Act, QueueInv, IsCapacity, PoppingAs, SidesOk, Inv, Next;
    entered := 0;
    var q, act := states[j - 1], acts[j - 1];
    ActAt(states, acts, data, n, j - 1);
    QueueRunKeepsInv(states, acts, data, n, cap, j - 1);
    SidesAndRing(q, |data|);
    SameThreads(states, acts, data, n, i);
    if j == i + 1 {
      PopIsCalled(q, t, mode, stopped);
    } else {
      entered := PoppingKeeps(states, acts, data, n, cap, t, mode, stopped, i, j - 1);
      PopStep(q, act.0, act.1, t, mode, stopped);
      PoppingOrWanting(q, t, mode, stopped);
      if q.threads[t].Popping? {
        if states[j].ring != q.ring {
          var e :| Next(q.ring, e) == Some(states[j].ring);
          GivesUpOnlyWhen(q.ring, |data|, cap, e);
          DoneStaysDone(q, act.0, act.1, t, states[j], e);
        }
      } else {
        entered := j - 1;
      }
    }
  }

  lemma PoppingOrWanting<T>(q: Queue<T>, t: nat, mode: Mode, stopped: bool)
    requires PoppingAs(q, t, mode, stopped)
    ensures t < |q.threads| && (q.threads[t].Popping? || q.threads[t].WantsPop?)
    ensures q.threads[t].Popping? && q.ring.cons.CQuit? ==> mode == WaitWithStopToken
    ensures q.threads[t].Popping? && q.ring.cons.CTry? ==> mode == Try
  {
  }

  lemma PopIsCalled<T>(q: Queue<T>, t: nat, mode: Mode, stopped: bool)
    requires |q.ring.data| > 0 && Act(q, t, CallPop(mode, stopped)).Some? && t < |q.threads|
    ensures var q' := Act(q, t, CallPop(mode, stopped)).value;
      PoppingAs(q', t, mode, stopped) && t < |q'.threads| && !q'.threads[t].Popping?
  {
  }

  lemma PopperLeaves<T>(q: Queue<T>, u: nat, a: Action<T>, t: nat)
    requires |q.ring.data| > 0 && Act(q, u, a).Some? && t < |q.threads|
    requires q.threads[t].Popping? || q.threads[t].WantsPop?
    requires t < |Act(q, u, a).value.threads| && Act(q, u, a).value.threads[t].Out?
    ensures q.threads[t].Popping? && q.ring.cons.CDone? && Act(q, u, a).value.ring.popped == q.ring.popped
  {
    hide RunProducer, RunConsumer;
  }

  /** A call of Pop that is over has popped what it returned, or nothing, since it entered the ring, and nobody
      else has popped anything meanwhile. One that just waits has popped something; one with a stop token only
      failed to because stop was requested, and fails when it had been requested before the call; any other
      only failed to because the ring was empty. */
  lemma PopCallByThread<T>(states: seq<Queue<T>>, acts: seq<(nat, Action<T>)>, data: seq<T>, n: nat, cap: nat, t: nat,
                           mode: Mode, stopped: bool, i: nat, j: nat)
    returns (entered: nat, res: Option<T>)
    requires IsQueueCall(states, acts, data, n, t, CallPop(mode, stopped), i, j) && IsCapacity(|data|, cap)
    ensures i < entered < j && (mode == Wait ==> res.Some?)
    ensures mode == Try && res == None ==> RingWasEmpty(states, entered, j)
    ensures mode == WaitWithStopToken && res == None ==> StopWasRequested(states, entered, j)
    ensures mode == WaitWithStopToken && stopped ==> res == None
    ensures states[j].ring.popped == states[entered].ring.popped + if res.Some? then [res.value] else []
  {
    hide Act, QueueInv, IsCapacity, SidesOk, Inv, Next, RingWasEmpty, StopWasRequested;
    var q, act := states[j - 1], acts[j - 1];
    ActAt(states, acts, data, n, j - 1);
    SameThreads(states, acts, data, n, i);
    SameThreads(states, acts, data, n, j - 1);
    QueueRunKeepsInv(states, acts, data, n, cap, j - 1);
    SidesAndRing(q, |data|);
    if j == i + 1 {
      PopIsCalled(q, t, mode, stopped);
      assert false;
    }
    entered := PoppingKeeps(states, acts, data, n, cap, t, mode, stopped, i, j - 1);
    PopperLeaves(q, act.0, act.1, t);
    PushedBy(q.ring, |data|);
    FullLonger(states, |data|, entered, j - 1);
    res := q.ring.cons.res;
  }
}
