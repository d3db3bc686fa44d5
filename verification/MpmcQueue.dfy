/** The queues for many threads (`MPSCQueue`, `MPMCQueue`): a mutex around every call of Emplace, and
    one around every call of Pop. With one popping thread the second is never contended. */
module MpmcQueue {
  import opened Options
  import opened Spsc = SpscQueue

  datatype Thread<T> =
    | Out
    | WantsPush(waits: bool, v: T)           // about to lock write_mutex
    | Pushing
    | WantsPop(mode: Mode, stopped: bool)    // about to lock read_mutex
    | Popping

  datatype Queue<T> = Queue(ring: State<T>, writer: Option<nat>, reader: Option<nat>, threads: seq<Thread<T>>)

  datatype Action<T> =
    | CallEmplace(waits: bool, v: T)
    | CallPop(mode: Mode, stopped: bool)
    | Run                            // the thread's next action
    | Disturb(e: Event<T>)           // a spurious wakeup or a stop request

  function Create<T>(data: seq<T>, n: nat): Queue<T> {
    Queue(Init(data), None, None, seq(n, i => Out))
  }

  /** A thread's next action: locking its mutex and entering the ring, an action in the ring, or
      leaving it and unlocking. */
  function RunThread<T>(q: Queue<T>, t: nat): Option<Queue<T>>
    requires t < |q.threads| && |q.ring.data| > 0
  {
    match q.threads[t]
    case Out => None
    case WantsPush(waits, v) =>
      if q.writer != None then None else Entered(q, t, Next(q.ring, Emplace(waits, v)), true)
    case WantsPop(mode, stopped) =>
      if q.reader != None then None else Entered(q, t, Next(q.ring, Pop(mode, stopped)), false)
    case Pushing =>
      if q.ring.prod.PDone? then Left(q, t, Next(q.ring, EndP), true) else InRing(q, Next(q.ring, RunP))
    case Popping =>
      if q.ring.cons.CDone? then Left(q, t, Next(q.ring, EndC), false) else InRing(q, Next(q.ring, RunC))
  }

  function InRing<T>(q: Queue<T>, ring: Option<State<T>>): Option<Queue<T>> {
    if ring.Some? then Some(q.(ring := ring.value)) else None
  }

  function Entered<T>(q: Queue<T>, t: nat, ring: Option<State<T>>, push: bool): Option<Queue<T>>
    requires t < |q.threads|
  {
    if ring.None? then None
    else if push then Some(q.(ring := ring.value, writer := Some(t), threads := q.threads[t := Pushing]))
    else Some(q.(ring := ring.value, reader := Some(t), threads := q.threads[t := Popping]))
  }

  function Left<T>(q: Queue<T>, t: nat, ring: Option<State<T>>, push: bool): Option<Queue<T>>
    requires t < |q.threads|
  {
    if ring.None? then None
    else if push then Some(q.(ring := ring.value, writer := None, threads := q.threads[t := Out]))
    else Some(q.(ring := ring.value, reader := None, threads := q.threads[t := Out]))
  }

  function Act<T>(q: Queue<T>, t: nat, a: Action<T>): Option<Queue<T>>
    requires |q.ring.data| > 0
  {
    if t >= |q.threads| then None
    else
      match a
      case CallEmplace(waits, v) => if q.threads[t].Out? then
        Some(q.(threads := q.threads[t := WantsPush(waits, v)])) else None
      case CallPop(mode, stopped) => if q.threads[t].Out? then
        Some(q.(threads := q.threads[t := WantsPop(mode, stopped)])) else None
      case Run => RunThread(q, t)
      case Disturb(e) => if e.SpuriousP? || e.SpuriousC? || e.Stop? then InRing(q, Next(q.ring, e)) else None
  }

  // ----- the invariant -----

  /** At most one thread is in each half of the ring, the owner of that half's mutex. */
  predicate SidesOk<T>(q: Queue<T>) {
    && (q.writer.Some? ==> q.writer.value < |q.threads|) && (q.reader.Some? ==> q.reader.value < |q.threads|)
    && (forall t | 0 <= t < |q.threads| :: q.threads[t].Pushing? <==> q.writer == Some(t))
    && (forall t | 0 <= t < |q.threads| :: q.threads[t].Popping? <==> q.reader == Some(t))
    && (q.writer == None <==> q.ring.prod.PIdle?) && (q.reader == None <==> q.ring.cons.CIdle?)
  }

  predicate QueueInv<T(==)>(q: Queue<T>, cap: nat) {
    SidesOk(q) && Inv(q.ring, cap)
  }

  lemma ProducerStays<T>(s: State<T>)
    requires |s.data| > 0
    ensures var n := RunProducer(s); n.Some? ==>
      !n.value.prod.PIdle? && !s.prod.PIdle? && (n.value.cons.CIdle? <==> s.cons.CIdle?)
  {
  }

  lemma ConsumerStays<T>(s: State<T>)
    requires |s.data| > 0
    ensures var n := RunConsumer(s); n.Some? ==>
      !n.value.cons.CIdle? && !s.cons.CIdle? && (n.value.prod.PIdle? <==> s.prod.PIdle?)
  {
  }

  lemma RunKeepsSides<T>(q: Queue<T>, t: nat)
    requires SidesOk(q) && t < |q.threads| && |q.ring.data| > 0
    ensures var n := RunThread(q, t); n.Some? ==> SidesOk(n.value)
  {
    hide RunProducer, RunConsumer;
    ProducerStays(q.ring);
    ConsumerStays(q.ring);
  }

  lemma ActKeepsSides<T>(q: Queue<T>, t: nat, a: Action<T>)
    requires SidesOk(q) && |q.ring.data| > 0
    ensures var n := Act(q, t, a); n.Some? ==> SidesOk(n.value)
  {
    hide RunThread, RunProducer, RunConsumer;
    if t < |q.threads| && a.Run? {
      RunKeepsSides(q, t);
    }
  }

  /** Whatever an action does to the ring is one step of the ring, or none. */
  lemma ActStepsRing<T>(q: Queue<T>, t: nat, a: Action<T>)
    requires |q.ring.data| > 0
    ensures var n := Act(q, t, a); n.Some? ==>
      n.value.ring == q.ring || exists e :: Next(q.ring, e) == Some(n.value.ring)
  {
    hide Next;
    if t < |q.threads| {
      match a
      case Run =>
        match q.threads[t] {
          case WantsPush(waits, v) => RingStep(q.ring, Emplace(waits, v));
          case WantsPop(mode, stopped) => RingStep(q.ring, Pop(mode, stopped));
          case Pushing =>
            RingStep(q.ring, EndP);
            RingStep(q.ring, RunP);
          case Popping =>
            RingStep(q.ring, EndC);
            RingStep(q.ring, RunC);
          case Out =>
        }
      case Disturb(e) => RingStep(q.ring, e);
      case CallEmplace(_, _) =>
      case CallPop(_, _) =>
    }
  }

  lemma RingStep<T>(s: State<T>, e: Event<T>)
    requires |s.data| > 0
    ensures Next(s, e).Some? ==> exists e' :: Next(s, e') == Some(Next(s, e).value)
  {
    hide Next;
    if Next(s, e).Some? {
      assert Next(s, e) == Some(Next(s, e).value);
    }
  }

  lemma ActKeepsInv<T>(q: Queue<T>, cap: nat, k: nat, t: nat, a: Action<T>)
    requires QueueInv(q, cap) && IsCapacity(cap, k)
    ensures |q.ring.data| > 0
    ensures var n := Act(q, t, a); n.Some? ==> QueueInv(n.value, cap)
  {
    hide Inv, IsCapacity, Next, Act, SidesOk;
    DataThere(q.ring, cap);
    ActKeepsSides(q, t, a);
    ActStepsRing(q, t, a);
    var n := Act(q, t, a);
    if n.Some? && n.value.ring != q.ring {
      var e :| Next(q.ring, e) == Some(n.value.ring);
      StepKeepsInv(q.ring, cap, k, e);
    }
  }

  // ----- every run -----

  ghost predicate IsQueueRun<T>(states: seq<Queue<T>>, acts: seq<(nat, Action<T>)>, data: seq<T>, n: nat) {
    && |data| > 0 && |states| == |acts| + 1 && states[0] == Create(data, n)
    && forall i | 0 <= i < |acts| ::
      && |states[i].ring.data| > 0
      && Act(states[i], acts[i].0, acts[i].1) == Some(states[i + 1])
  }

  lemma {:induction false} QueueRunKeepsInv<T>(states: seq<Queue<T>>, acts: seq<(nat, Action<T>)>, data: seq<T>,
                                               n: nat, k: nat, i: nat)
    requires IsQueueRun(states, acts, data, n) && IsCapacity(|data|, k) && i < |states|
    ensures QueueInv(states[i], |data|)
  {
    hide QueueInv, IsCapacity, Act;
    if i == 0 {
      CreateIsInv(data, n);
    } else {
      QueueRunKeepsInv(states, acts, data, n, k, i - 1);
      ActKeepsInv(states[i - 1], |data|, k, acts[i - 1].0, acts[i - 1].1);
    }
  }

  lemma CreateIsInv<T>(data: seq<T>, n: nat)
    requires |data| > 0
    ensures QueueInv(Create(data, n), |data|)
  {
    hide Inv, Init;
    InitIsInv(data);
    InitIdle(data);
  }

  lemma InitIdle<T>(data: seq<T>)
    ensures Init(data).prod.PIdle? && Init(data).cons.CIdle?
  {
  }

  /** In every reachable state of any number of threads: at most one thread pushes and at most one
      pops, and what was popped followed by what the ring holds is what was pushed, in order. */
  lemma QueueConservation<T>(states: seq<Queue<T>>, acts: seq<(nat, Action<T>)>, data: seq<T>, n: nat, k: nat, i: nat)
    requires IsQueueRun(states, acts, data, n) && IsCapacity(|data|, k) && i < |states|
    ensures var q := states[i];
      && (forall t, u | 0 <= t < |q.threads| && 0 <= u < |q.threads| && q.threads[t].Pushing?
        && q.threads[u].Pushing? :: t == u)
      && (forall t, u | 0 <= t < |q.threads| && 0 <= u < |q.threads| && q.threads[t].Popping?
        && q.threads[u].Popping? :: t == u)
    ensures var s := states[i].ring; |s.data| == |data| && 0 <= Held(s) <= |data| && s.popped + Contents(s) == s.pushed
  {
    hide Act, IsCapacity, Inv, Contents;
    QueueRunKeepsInv(states, acts, data, n, k, i);
    RingConserves(states[i].ring, |data|, k);
  }

  // ----- nobody is left waiting -----

  predicate CanRun<T>(q: Queue<T>, t: nat)
    requires |q.ring.data| > 0 && t < |q.threads|
  {
    RunThread(q, t).Some?
  }

  predicate AllStuck<T>(q: Queue<T>)
    requires |q.ring.data| > 0
  {
    forall t | 0 <= t < |q.threads| :: !CanRun(q, t)
  }

  /** When no thread can act, either nobody pushes and nobody waits to, or the pushing thread sleeps
      on a full ring; likewise for popping with an empty ring; and not both at once. */
  lemma AllStuckMeansWaiting<T>(q: Queue<T>, cap: nat)
    requires QueueInv(q, cap) && |q.ring.data| > 0 && AllStuck(q)
    ensures (q.ring.prod.PBlocked? && Held(q.ring) == cap) || forall t | 0 <= t < |q.threads| ::
      !q.threads[t].Pushing? && !q.threads[t].WantsPush?
    ensures (q.ring.cons.CBlocked? && Held(q.ring) == 0) || forall t | 0 <= t < |q.threads| ::
      && !q.threads[t].Popping?
      && !q.threads[t].WantsPop?
    ensures !(q.ring.prod.PBlocked? && q.ring.cons.CBlocked?)
  {
    hide Inv, RunProducer, RunConsumer, Held;
    PusherStuck(q);
    PopperStuck(q);
    IdleCannotRun(q.ring);
    StuckMeansWaiting(q.ring, cap);
    NobodyWants(q);
  }

  lemma IdleCannotRun<T>(s: State<T>)
    requires |s.data| > 0
    ensures s.prod.PIdle? ==> RunProducer(s) == None
    ensures s.cons.CIdle? ==> RunConsumer(s) == None
  {
  }

  lemma PusherStuck<T>(q: Queue<T>)
    requires SidesOk(q) && |q.ring.data| > 0 && AllStuck(q)
    ensures !q.ring.prod.PDone? && (q.writer.Some? ==> RunProducer(q.ring) == None)
  {
    hide RunProducer, RunConsumer;
    if q.writer.Some? {
      assert !CanRun(q, q.writer.value);
    }
  }

  lemma PopperStuck<T>(q: Queue<T>)
    requires SidesOk(q) && |q.ring.data| > 0 && AllStuck(q)
    ensures !q.ring.cons.CDone? && (q.reader.Some? ==> RunConsumer(q.ring) == None)
  {
    hide RunProducer, RunConsumer;
    if q.reader.Some? {
      assert !CanRun(q, q.reader.value);
    }
  }

  lemma NobodyWants<T>(q: Queue<T>)
    requires SidesOk(q) && |q.ring.data| > 0 && AllStuck(q)
    ensures q.writer == None ==> forall t | 0 <= t < |q.threads| :: !q.threads[t].Pushing? && !q.threads[t].WantsPush?
    ensures q.reader == None ==> forall t | 0 <= t < |q.threads| :: !q.threads[t].Popping? && !q.threads[t].WantsPop?
  {
    hide RunProducer, RunConsumer;
    forall t | 0 <= t < |q.threads|
      ensures q.writer == None ==> !q.threads[t].Pushing? && !q.threads[t].WantsPush?
      ensures q.reader == None ==> !q.threads[t].Popping? && !q.threads[t].WantsPop?
    {
      assert !CanRun(q, t);
    }
  }

  /** As long as some thread wants to push or is pushing, and some thread wants to pop or is popping,
      some thread can act, in every reachable state. */
  lemma Progress<T>(states: seq<Queue<T>>, acts: seq<(nat, Action<T>)>, data: seq<T>, n: nat, k: nat, i: nat, t: nat,
                    u: nat)
    requires IsQueueRun(states, acts, data, n) && IsCapacity(|data|, k) && i < |states|
    requires t < |states[i].threads| && (states[i].threads[t].Pushing? || states[i].threads[t].WantsPush?)
    requires u < |states[i].threads| && (states[i].threads[u].Popping? || states[i].threads[u].WantsPop?)
    ensures |states[i].ring.data| > 0 && !AllStuck(states[i])
  {
    hide Act, IsCapacity, Inv, AllStuck;
    QueueRunKeepsInv(states, acts, data, n, k, i);
    DataThere(states[i].ring, |data|);
    if AllStuck(states[i]) {
      AllStuckMeansWaiting(states[i], |data|);
      assert false;
    }
  }
}
