/** The bounded ring queue (`SPSCQueue`) as a state machine: one call of Emplace and one call of Pop
    at a time, one atomic action at a time, in every interleaving. */
module SpscQueue {
  import opened Division
  import opened Options
  import opened Words


  /** The two sides of the queue; each may own either mutex. */
  datatype Side = Producer | Consumer

  /** Where the call of Emplace is: `wi` is the index it loaded at its start. */
  datatype Prod<T> =
    | PIdle
    | PLoad(waits: bool, v: T)       // about to load m_write_index
    | PTry(v: T, wi: nat)            // about to load m_read_index and give up if the ring is full
    | PLock(v: T, wi: nat)           // about to lock producer_cv_mutex
    | PCheck(v: T, wi: nat)          // about to test the waiting condition
    | PSleep(v: T, wi: nat)          // it failed: about to release the mutex and sleep, in one action
    | PBlocked(v: T, wi: nat)        // asleep
    | PWake(v: T, wi: nat)           // woken: about to lock the mutex again
    | PUnlock(v: T, wi: nat)         // it held: about to unlock the mutex
    | PStore(v: T, wi: nat)          // about to construct the element in its slot
    | PInc(v: T, wi: nat)            // about to increment m_write_index
    | PNotLock(v: T)                 // about to lock consumer_cv_mutex
    | PNotify(v: T)                  // about to notify the consumer
    | PNotUnlock(v: T)               // about to unlock it
    | PDone(ok: bool, v: T)          // about to return

  datatype Mode = Try | Wait | WaitWithStopToken

  /** Where the call of Pop is. */
  datatype Cons<T> =
    | CIdle
    | CLoad(mode: Mode)
    | CTry(ri: nat)
    | CLock(mode: Mode, ri: nat)
    | CCheck(mode: Mode, ri: nat)
    | CSleep(mode: Mode, ri: nat)
    | CBlocked(mode: Mode, ri: nat)
    | CWake(mode: Mode, ri: nat)
    | CStop(ri: nat)                 // done waiting: about to look at the stop token
    | CQuit                          // stop requested: about to unlock the mutex and return false
    | CUnlock(ri: nat)
    | CTake(ri: nat)
    | CInc(ri: nat, x: T)
    | CNotLock(x: T)
    | CNotify(x: T)
    | CNotUnlock(x: T)
    | CDone(res: Option<T>)          // about to return, with what was popped if anything was

  /** The shared memory, the two calls in progress, and, for the specification, what was pushed and
      popped so far and what had been when the calls in progress started. */
  datatype State<T> = State(
    r: nat, w: nat, data: seq<T>, pm: Option<Side>, cm: Option<Side>, stop: bool,
    prod: Prod<T>, cons: Cons<T>,
    pushed: seq<T>, popped: seq<T>, pushed0: seq<T>, popped0: seq<T>)

  datatype Event<T> =
    | Emplace(waits: bool, v: T)
    | Pop(mode: Mode, stopped: bool) // with a fresh stop token, or one already stopped
    | RunP | RunC                    // the next action of a call
    | EndP | EndC                    // a call returns
    | SpuriousP | SpuriousC          // a sleeper wakes for no reason
    | Stop                           // stop is requested of the token of the pop in progress

  // ----- indices -----

  /** `std::size_t` */
  const SIZE: nat := 0x1_0000_0000_0000_0000

  function Idx(n: nat): nat {
    n % SIZE
  }

  /** The difference of two indices, in unsigned arithmetic. */
  function Diff(a: nat, b: nat): int {
    (a - b + SIZE) % SIZE
  }

  function Inc(a: nat): nat {
    (a + 1) % SIZE
  }

  function Slot(n: nat, cap: nat): (i: nat)
    requires cap > 0
    ensures i < cap
  {
    n % cap
  }

  /** The static assertion: a power of two that an index can hold. */
  predicate IsCapacity(cap: nat, k: nat) {
    k < 64 && cap == Pow2(k)
  }

  // ----- the actions -----

  function Init<T>(data: seq<T>): State<T> {
    State(0, 0, data, None, None, false, PIdle, CIdle, [], [], [], [])
  }

  function RunProducer<T>(s: State<T>): Option<State<T>>
    requires |s.data| > 0
  {
    match s.prod
    case PLoad(waits, v) => Some(s.(prod := if waits then PLock(v, s.w) else PTry(v, s.w)))
    case PTry(v, wi) => Some(s.(prod := if Diff(wi, s.r) == |s.data| then PDone(false, v) else PStore(v, wi)))
    case PLock(v, wi) => if s.pm == None then Some(s.(pm := Some(Producer), prod := PCheck(v, wi))) else None
    case PCheck(v, wi) => Some(s.(prod := if Diff(wi, s.r) < |s.data| then PUnlock(v, wi) else PSleep(v, wi)))
    case PSleep(v, wi) => Some(s.(pm := None, prod := PBlocked(v, wi)))
    case PWake(v, wi) => if s.pm == None then Some(s.(pm := Some(Producer), prod := PCheck(v, wi))) else None
    case PUnlock(v, wi) => Some(s.(pm := None, prod := PStore(v, wi)))
    case PStore(v, wi) => Some(s.(data := s.data[Slot(wi, |s.data|) := v], prod := PInc(v, wi)))
    case PInc(v, wi) => Some(s.(w := Inc(s.w), pushed := s.pushed + [v], prod := PNotLock(v)))
    case PNotLock(v) => if s.cm == None then Some(s.(cm := Some(Producer), prod := PNotify(v))) else None
    case PNotify(v) => Some(s.(prod := PNotUnlock(v), cons := WokenC(s.cons)))
    case PNotUnlock(v) => Some(s.(cm := None, prod := PDone(true, v)))
    case _ => None
  }

  /** `notify_one`: at most one call can be asleep on either side. */
  function WokenC<T>(c: Cons<T>): Cons<T> {
    if c.CBlocked? then CWake(c.mode, c.ri) else c
  }

  function WokenP<T>(p: Prod<T>): Prod<T> {
    if p.PBlocked? then PWake(p.v, p.wi) else p
  }

  function RunConsumer<T>(s: State<T>): Option<State<T>>
    requires |s.data| > 0
  {
    match s.cons
    case CLoad(mode) => Some(s.(cons := if mode == Try then CTry(s.r) else CLock(mode, s.r)))
    case CTry(ri) => Some(s.(cons := if ri == s.w then CDone(None) else CTake(ri)))
    case CLock(mode, ri) => if s.cm == None then Some(s.(cm := Some(Consumer), cons := CCheck(mode, ri))) else None
    case CCheck(mode, ri) => Some(s.(cons := AfterCheck(s, mode, ri)))
    case CSleep(mode, ri) =>
      Some(s.(cm := None, cons := if mode == WaitWithStopToken && s.stop then CWake(mode, ri) else CBlocked(mode, ri)))
    case CWake(mode, ri) => if s.cm == None then Some(s.(cm := Some(Consumer), cons := CCheck(mode, ri))) else None
    case CStop(ri) => Some(s.(cons := if s.stop then CQuit else CUnlock(ri)))
    case CQuit => Some(s.(cm := None, cons := CDone(None)))
    case CUnlock(ri) => Some(s.(cm := None, cons := CTake(ri)))
    case CTake(ri) => Some(s.(cons := CInc(ri, s.data[Slot(ri, |s.data|)])))
    case CInc(ri, x) => Some(s.(r := Inc(s.r), popped := s.popped + [x], cons := CNotLock(x)))
    case CNotLock(x) => if s.pm == None then Some(s.(pm := Some(Consumer), cons := CNotify(x))) else None
    case CNotify(x) => Some(s.(cons := CNotUnlock(x), prod := WokenP(s.prod)))
    case CNotUnlock(x) => Some(s.(pm := None, cons := CDone(Some(x))))
    case _ => None
  }

  /** `wait` with a stop token leaves when stop is requested, or when the condition holds. */
  function AfterCheck<T>(s: State<T>, mode: Mode, ri: nat): Cons<T> {
    if mode == WaitWithStopToken then (if s.stop || ri != s.w then CStop(ri) else CSleep(mode, ri))
    else if ri != s.w then CUnlock(ri) else CSleep(mode, ri)
  }

  function Next<T>(s: State<T>, e: Event<T>): Option<State<T>>
    requires |s.data| > 0
  {
    match e
    case Emplace(waits, v) => if s.prod.PIdle? then Some(s.(prod := PLoad(waits, v), pushed0 := s.pushed)) else None
    case Pop(mode, stopped) => if s.cons.CIdle? then
      Some(s.(cons := CLoad(mode), stop := stopped, popped0 := s.popped)) else None
    case RunP => RunProducer(s)
    case RunC => RunConsumer(s)
    case EndP => if s.prod.PDone? then Some(s.(prod := PIdle)) else None
    case EndC => if s.cons.CDone? then Some(s.(cons := CIdle)) else None
    case SpuriousP => if s.prod.PBlocked? then Some(s.(prod := WokenP(s.prod))) else None
    case SpuriousC => if s.cons.CBlocked? then Some(s.(cons := WokenC(s.cons))) else None
    case Stop => Some(s.(stop := true, cons := if s.cons.CBlocked?
      && s.cons.mode == WaitWithStopToken then WokenC(s.cons) else s.cons))
  }

  // ----- the invariant -----

  /** How many elements are in the ring. */
  function Held<T>(s: State<T>): int {
    |s.pushed| - |s.popped|
  }

  /** Conservation: what was popped, then what the ring holds from the read index on, is what was
      pushed, in order. */
  predicate RingOk<T(==)>(s: State<T>, cap: nat) {
    && cap > 0 && |s.data| == cap && 0 <= Held(s) <= cap
    && s.r == Idx(|s.popped|) && s.w == Idx(|s.pushed|)
    && s.popped == s.pushed[..|s.popped|]
    && SlotsOk(s.data, s.pushed, |s.popped|)
  }

  predicate SlotsOk<T(==)>(data: seq<T>, pushed: seq<T>, n: nat)
    requires |data| > 0
  {
    forall i | n <= i < |pushed| :: data[Slot(i, |data|)] == pushed[i]
  }

  /** Before the write index is incremented nothing is pushed, afterwards the element is. */
  predicate ProdOk<T(==)>(s: State<T>, cap: nat) {
    var p := s.prod;
    && (HasIndexP(p) ==> p.wi == s.w)
    && (p.PStore? || p.PInc? || p.PUnlock? ==> Held(s) < cap)
    && (p.PInc? ==> cap > 0 && |s.data| == cap && s.data[Slot(|s.pushed|, cap)] == p.v)
    && (!p.PIdle? ==> s.pushed == if Pushed(p) then s.pushed0 + [p.v] else s.pushed0)
  }

  predicate HasIndexP<T>(p: Prod<T>) {
    p.PTry? || p.PLock? || p.PCheck? || p.PSleep? || p.PBlocked? || p.PWake? || p.PUnlock? || p.PStore? || p.PInc?
  }

  predicate Pushed<T>(p: Prod<T>) {
    p.PNotLock? || p.PNotify? || p.PNotUnlock? || (p.PDone? && p.ok)
  }

  /** Before the read index is incremented nothing is popped, afterwards the element returned is. */
  predicate ConsOk<T(==)>(s: State<T>) {
    var c := s.cons;
    && (HasIndexC(c) ==> c.ri == s.r)
    && (c.CTake? || c.CInc? || c.CUnlock? || (c.CStop? && !s.stop) ==> Held(s) > 0)
    && (c.CInc? ==> 0 <= |s.popped| < |s.pushed| && c.x == s.pushed[|s.popped|])
    && (!c.CIdle? ==> s.popped == s.popped0 + Taken(c))
    && (c.CBlocked? && c.mode == WaitWithStopToken ==> !s.stop)
    && (c.CQuit? ==> s.stop)
  }

  predicate HasIndexC<T>(c: Cons<T>) {
    || c.CTry? || c.CLock? || c.CCheck? || c.CSleep? || c.CBlocked? || c.CWake? || c.CStop? || c.CUnlock?
    || c.CTake? || c.CInc?
  }

  function Taken<T>(c: Cons<T>): seq<T> {
    match c
    case CNotLock(x) => [x]
    case CNotify(x) => [x]
    case CNotUnlock(x) => [x]
    case CDone(Some(x)) => [x]
    case _ => []
  }

  predicate HoldsP<T>(p: Prod<T>) {
    p.PCheck? || p.PSleep? || p.PUnlock?
  }

  predicate NotifiesP<T>(c: Cons<T>) {
    c.CNotify? || c.CNotUnlock?
  }

  predicate HoldsC<T>(c: Cons<T>) {
    c.CCheck? || c.CSleep? || c.CStop? || c.CQuit? || c.CUnlock?
  }

  predicate NotifiesC<T>(p: Prod<T>) {
    p.PNotify? || p.PNotUnlock?
  }

  predicate MutexOk<T>(s: State<T>) {
    && (s.pm == Some(Producer) <==> HoldsP(s.prod)) && (s.pm == Some(Consumer) <==> NotifiesP(s.cons))
    && (s.cm == Some(Consumer) <==> HoldsC(s.cons)) && (s.cm == Some(Producer) <==> NotifiesC(s.prod))
  }

  /** No lost wakeup: whoever sleeps, or is committed to, while its condition holds, will be notified
      by the call in progress on the other side. */
  predicate WakeupOk<T>(s: State<T>, cap: nat) {
    && ((s.cons.CSleep? || s.cons.CBlocked?) && Held(s) > 0 ==> s.prod.PNotLock? || s.prod.PNotify?)
    && ((s.prod.PSleep? || s.prod.PBlocked?) && Held(s) < cap ==> s.cons.CNotLock? || s.cons.CNotify?)
  }

  predicate Inv<T(==)>(s: State<T>, cap: nat) {
    RingOk(s, cap) && ProdOk(s, cap) && ConsOk(s) && MutexOk(s) && WakeupOk(s, cap)
  }

  // ----- index arithmetic -----

  lemma IncIdx(n: nat)
    ensures Inc(Idx(n)) == Idx(n + 1)
  {
  }

  lemma {:induction false} Pow2Sum(a: nat, b: nat)
    ensures Pow2(a + b) == Pow2(a) * Pow2(b)
  {
    if a > 0 {
      Pow2Sum(a - 1, b);
      assert Pow2(a + b) == 2 * Pow2(a + b - 1);
      assert 2 * (Pow2(a - 1) * Pow2(b)) == (2 * Pow2(a - 1)) * Pow2(b);
    }
  }

  lemma Pow2Size()
    ensures Pow2(64) == SIZE
  {
    Pow2Values();
    Pow2Sum(32, 32);
  }

  lemma CapacityFits(cap: nat, k: nat)
    requires IsCapacity(cap, k)
    ensures 0 < cap < SIZE
  {
    Pow2Size();
    Pow2Mono(k, 63);
  }

  lemma {:induction false} ModAdd(y: nat, m: nat, cap: nat)
    requires cap > 0
    ensures (cap * m + y) % cap == y % cap
  {
    if m > 0 {
      ModAdd(y, m - 1, cap);
      AddCap(cap * (m - 1) + y, cap);
      assert cap * m == cap * (m - 1) + cap;
    }
  }

  lemma AddCap(x: nat, cap: nat)
    requires cap > 0
    ensures (x + cap) % cap == x % cap
  {
    DivIs(x + cap, cap, x / cap + 1, x % cap);
  }

  /** Because the capacity divides 2^64, the slot of an index is the slot of the count. */
  lemma SlotOfIdx(n: nat, cap: nat, k: nat)
    requires IsCapacity(cap, k)
    ensures cap > 0 && Slot(Idx(n), cap) == Slot(n, cap)
  {
    Pow2Size();
    Pow2Sum(k, 64 - k);
    hide Pow2;
    var q, a := Pow2(64 - k), n / SIZE;
    WholeTurns(n, cap, q);
    ModAdd(Idx(n), q * a, cap);
  }

  lemma WholeTurns(n: nat, cap: nat, q: nat)
    requires cap * q == SIZE
    ensures n == cap * (q * (n / SIZE)) + Idx(n)
  {
    var a := n / SIZE;
    assert cap * q * a == cap * (q * a);
    assert n == SIZE * a + Idx(n);
  }

  // ----- which capacities the ring can have -----

  /** Only a power of two divides a power of two. */
  lemma {:induction false} DividesPow2(cap: nat, q: nat, n: nat) returns (k: nat)
    requires cap * q == Pow2(n)
    ensures k <= n && cap == Pow2(k)
  {
    if n == 0 {
      k := 0;
    } else if cap % 2 == 0 {
      assert cap / 2 * q == Pow2(n - 1);
      k := DividesPow2(cap / 2, q, n - 1);
      k := k + 1;
    } else {
      OddFactor(cap, q, Pow2(n - 1));
      k := DividesPow2(cap, q / 2, n - 1);
    }
  }

  lemma OddFactor(a: nat, b: nat, c: nat)
    requires a * b == 2 * c && a % 2 == 1
    ensures b % 2 == 0 && a * (b / 2) == c
  {
    var h := a / 2;
    assert a * b == 2 * (h * b) + b;
  }

  lemma AndHalves(a: nat, b: nat)
    ensures And(a, b) == B2N(a % 2 == 1 && b % 2 == 1) + 2 * And(a / 2, b / 2)
  {
  }

  lemma {:induction false} AndSelf(a: nat)
    ensures And(a, a) == a
  {
    if a > 0 {
      AndSelf(a / 2);
    }
  }

  ghost predicate IsPow2(x: nat) {
    exists k: nat :: x == Pow2(k)
  }

  /** The test of the static assertion: a power of two has no bit in common with the number before it. */
  lemma {:induction false} IsPow2Test(cap: nat)
    requires cap > 0
    ensures And(cap, cap - 1) == 0 <==> IsPow2(cap)
  {
    hide And;
    AndHalves(cap, cap - 1);
    if cap % 2 == 0 {
      var h := cap / 2;
      assert (cap - 1) / 2 == h - 1;
      IsPow2Test(h);
      if IsPow2(cap) {
        var k: nat :| cap == Pow2(k);
        assert h == Pow2(k - 1);
      }
      if IsPow2(h) {
        var k: nat :| h == Pow2(k);
        assert cap == Pow2(k + 1);
      }
    } else {
      AndSelf(cap / 2);
      assert Pow2(0) == 1;
      if IsPow2(cap) {
        var k: nat :| cap == Pow2(k);
        assert cap == 1;
      }
    }
  }

  lemma CapacityTest(cap: nat)
    requires 0 < cap < SIZE
    ensures And(cap, cap - 1) == 0 <==> exists k: nat :: IsCapacity(cap, k)
  {
    hide And;
    Pow2Size();
    IsPow2Test(cap);
    if IsPow2(cap) {
      var k: nat :| cap == Pow2(k);
      if k >= 64 {
        Pow2Mono(64, k);
        assert false;
      }
      assert IsCapacity(cap, k);
    }
  }

  lemma DividesTest(cap: nat)
    requires 0 < cap < SIZE
    ensures SIZE % cap == 0 <==> exists k: nat :: IsCapacity(cap, k)
  {
    Pow2Size();
    if exists k: nat :: IsCapacity(cap, k) {
      var k: nat :| IsCapacity(cap, k);
      Pow2Sum(k, 64 - k);
      DivIs(SIZE, cap, Pow2(64 - k), 0);
    }
    if SIZE % cap == 0 {
      var k := DividesPow2(cap, SIZE / cap, 64);
      if k == 64 {
        assert false;
      }
      assert IsCapacity(cap, k);
    }
  }

  ghost predicate SlotsAgree(cap: nat)
    requires cap > 0
  {
    forall n: nat :: Slot(Idx(n), cap) == Slot(n, cap)
  }

  /** The slot of a wrapped index is that of the count, for every count, exactly when the capacity divides
      2^64; and that is exactly what the static assertion lets through. */
  lemma SlotsAgreeExactlyWhen(cap: nat)
    requires 0 < cap < SIZE
    ensures SlotsAgree(cap) <==> SIZE % cap == 0
    ensures SlotsAgree(cap) <==> And(cap, cap - 1) == 0
    ensures SlotsAgree(cap) <==> exists k: nat :: IsCapacity(cap, k)
  {
    hide And, IsCapacity;
    CapacityTest(cap);
    DividesTest(cap);
    if exists k: nat :: IsCapacity(cap, k) {
      var k: nat :| IsCapacity(cap, k);
      forall n: nat
        ensures Slot(Idx(n), cap) == Slot(n, cap)
      {
        SlotOfIdx(n, cap, k);
      }
    }
    if SlotsAgree(cap) {
      assert Slot(Idx(SIZE), cap) == Slot(SIZE, cap);
    }
  }

  lemma SlotsDiffer(i: nat, j: nat, cap: nat)
    requires cap > 0 && i < j < i + cap
    ensures Slot(i, cap) != Slot(j, cap)
  {
    var q, m, d := i / cap, i % cap, j - i;
    if m + d < cap {
      DivIs(j, cap, q, m + d);
    } else {
      DivIs(j, cap, q + 1, m + d - cap);
    }
  }

  lemma DiffIs(a: nat, b: nat)
    requires b <= a < b + SIZE
    ensures Diff(Idx(a), Idx(b)) == a - b
  {
  }

  lemma IdxDiffer(a: nat, b: nat)
    requires b <= a < b + SIZE
    ensures Idx(a) == Idx(b) <==> a == b
  {
  }

  // ----- every step keeps the invariant -----

  predicate AtMutexP<T>(p: Prod<T>) {
    p.PLock? || p.PSleep? || p.PWake? || p.PUnlock? || p.PNotLock? || p.PNotUnlock?
  }

  lemma MutexProducer<T>(s: State<T>, cap: nat)
    requires Inv(s, cap) && AtMutexP(s.prod)
    ensures var n := RunProducer(s); n.Some? ==> Inv(n.value, cap)
  {
    hide Idx, Slot, Inc, Diff, SlotsOk;
  }

  lemma QuietProducer<T>(s: State<T>, cap: nat, k: nat)
    requires Inv(s, cap) && IsCapacity(cap, k) && !AtMutexP(s.prod) && !s.prod.PStore? && !s.prod.PInc?
      && !s.prod.PNotify?
    ensures var n := RunProducer(s); n.Some? ==> Inv(n.value, cap)
  {
    hide Idx, Slot, Inc, Diff, SlotsOk;
    CapacityFits(cap, k);
    DiffIs(|s.pushed|, |s.popped|);
  }

  lemma StoreKeeps<T>(s: State<T>, cap: nat, k: nat)
    requires Inv(s, cap) && IsCapacity(cap, k) && s.prod.PStore?
    ensures var n := RunProducer(s); n.Some? && Inv(n.value, cap)
  {
    hide Idx, Slot, Inc, Diff;
    var v, at := s.prod.v, Slot(|s.pushed|, cap);
    SlotOfIdx(|s.pushed|, cap, k);
    forall i | |s.popped| <= i < |s.pushed|
      ensures s.data[at := v][Slot(i, cap)] == s.pushed[i]
    {
      SlotsDiffer(i, |s.pushed|, cap);
    }
  }

  lemma PushKeeps<T>(s: State<T>, cap: nat)
    requires Inv(s, cap) && s.prod.PInc?
    ensures var n := RunProducer(s); n.Some? && Inv(n.value, cap)
  {
    hide Idx, Slot, Inc, Diff;
    IncIdx(|s.pushed|);
  }

  lemma NotifyKeepsP<T>(s: State<T>, cap: nat)
    requires Inv(s, cap) && s.prod.PNotify?
    ensures var n := RunProducer(s); n.Some? && Inv(n.value, cap)
  {
    hide Idx, Slot, Inc, Diff, SlotsOk;
  }

  predicate AtMutex<T>(c: Cons<T>) {
    c.CLock? || c.CSleep? || c.CWake? || c.CQuit? || c.CUnlock? || c.CNotLock? || c.CNotUnlock?
  }

  lemma MutexConsumer<T>(s: State<T>, cap: nat)
    requires Inv(s, cap) && AtMutex(s.cons)
    ensures var n := RunConsumer(s); n.Some? ==> Inv(n.value, cap)
  {
    hide Idx, Slot, Inc, Diff, SlotsOk;
  }

  lemma QuietConsumer<T>(s: State<T>, cap: nat, k: nat)
    requires Inv(s, cap) && IsCapacity(cap, k) && !AtMutex(s.cons) && !s.cons.CTake? && !s.cons.CInc?
      && !s.cons.CNotify?
    ensures var n := RunConsumer(s); n.Some? ==> Inv(n.value, cap)
  {
    hide Idx, Slot, Inc, Diff, SlotsOk;
    CapacityFits(cap, k);
    IdxDiffer(|s.pushed|, |s.popped|);
  }

  lemma TakeKeeps<T>(s: State<T>, cap: nat, k: nat)
    requires Inv(s, cap) && IsCapacity(cap, k) && s.cons.CTake?
    ensures var n := RunConsumer(s); n.Some? && Inv(n.value, cap)
  {
    hide Idx, Slot, Inc, Diff;
    SlotOfIdx(|s.popped|, cap, k);
  }

  lemma PopKeeps<T>(s: State<T>, cap: nat)
    requires Inv(s, cap) && s.cons.CInc?
    ensures var n := RunConsumer(s); n.Some? && Inv(n.value, cap)
  {
    hide Idx, Slot, Inc, Diff;
    IncIdx(|s.popped|);
    assert s.pushed[..|s.popped| + 1] == s.pushed[..|s.popped|] + [s.pushed[|s.popped|]];
  }

  lemma NotifyKeepsC<T>(s: State<T>, cap: nat)
    requires Inv(s, cap) && s.cons.CNotify?
    ensures var n := RunConsumer(s); n.Some? && Inv(n.value, cap)
  {
    hide Idx, Slot, Inc, Diff, SlotsOk;
  }

  lemma OthersKeep<T>(s: State<T>, cap: nat, e: Event<T>)
    requires Inv(s, cap) && !e.RunP? && !e.RunC?
    ensures var n := Next(s, e); n.Some? ==> Inv(n.value, cap)
  {
    hide Idx, Slot, Inc, Diff, SlotsOk;
  }

  lemma StepKeepsInv<T>(s: State<T>, cap: nat, k: nat, e: Event<T>)
    requires Inv(s, cap) && IsCapacity(cap, k)
    ensures var n := Next(s, e); n.Some? ==> Inv(n.value, cap)
  {
    hide Inv, IsCapacity, RunProducer, RunConsumer, AtMutex, AtMutexP;
    assert |s.data| > 0 by { DataThere(s, cap); }
    match e
    case RunP =>
      if s.prod.PStore? {
        StoreKeeps(s, cap, k);
      } else if s.prod.PInc? {
        PushKeeps(s, cap);
      } else if s.prod.PNotify? {
        NotifyKeepsP(s, cap);
      } else if AtMutexP(s.prod) {
        MutexProducer(s, cap);
      } else {
        QuietProducer(s, cap, k);
      }
    case RunC =>
      if s.cons.CTake? {
        TakeKeeps(s, cap, k);
      } else if s.cons.CInc? {
        PopKeeps(s, cap);
      } else if s.cons.CNotify? {
        NotifyKeepsC(s, cap);
      } else if AtMutex(s.cons) {
        MutexConsumer(s, cap);
      } else {
        QuietConsumer(s, cap, k);
      }
    case _ =>
      OthersKeep(s, cap, e);
  }

  lemma DataThere<T>(s: State<T>, cap: nat)
    requires Inv(s, cap)
    ensures |s.data| == cap > 0
  {
  }

  // ----- what holds in every run -----

  ghost predicate IsRun<T>(states: seq<State<T>>, events: seq<Event<T>>, data: seq<T>) {
    && |data| > 0 && |states| == |events| + 1 && states[0] == Init(data)
    && forall i | 0 <= i < |events| :: |states[i].data| > 0 && Next(states[i], events[i]) == Some(states[i + 1])
  }

  lemma InitIsInv<T>(data: seq<T>)
    requires |data| > 0
    ensures Inv(Init(data), |data|)
  {
  }

  lemma {:induction false} RunKeepsInv<T>(states: seq<State<T>>, events: seq<Event<T>>, data: seq<T>, k: nat, i: nat)
    requires IsRun(states, events, data) && IsCapacity(|data|, k) && i < |states|
    ensures Inv(states[i], |data|)
  {
    hide Inv, IsCapacity;
    if i == 0 {
      InitIsInv(data);
    } else {
      RunKeepsInv(states, events, data, k, i - 1);
      StepKeepsInv(states[i - 1], |data|, k, events[i - 1]);
    }
  }

  /** What the ring holds, read from the read index on. */
  function Contents<T>(s: State<T>): (c: seq<T>)
    requires |s.data| > 0 && Held(s) >= 0
    ensures |c| == Held(s) && forall i | 0 <= i < |c| :: c[i] == s.data[Slot(Idx(s.r + i), |s.data|)]
  {
    seq(Held(s), i requires 0 <= i < Held(s) => s.data[Slot(Idx(s.r + i), |s.data|)])
  }

  lemma IdxAdd(n: nat, i: nat)
    ensures Idx(Idx(n) + i) == Idx(n + i)
  {
  }

  lemma RingConserves<T>(s: State<T>, cap: nat, k: nat)
    requires Inv(s, cap) && IsCapacity(cap, k)
    ensures |s.data| == cap && 0 <= Held(s) <= cap && s.popped + Contents(s) == s.pushed
  {
    hide IsCapacity, Idx, Slot, Contents;
    forall j | 0 <= j < Held(s)
      ensures Contents(s)[j] == s.pushed[|s.popped| + j]
    {
      IdxAdd(|s.popped|, j);
      SlotOfIdx(|s.popped| + j, cap, k);
    }
  }

  /** In every reachable state, what was popped followed by what the ring holds is what was pushed,
      in order, however often the indices have wrapped. */
  lemma Conservation<T>(states: seq<State<T>>, events: seq<Event<T>>, data: seq<T>, k: nat, i: nat)
    requires IsRun(states, events, data) && IsCapacity(|data|, k) && i < |states|
    ensures var s := states[i]; |s.data| == |data| && 0 <= Held(s) <= |data| && s.popped + Contents(s) == s.pushed
  {
    hide IsCapacity, Inv, Contents;
    RunKeepsInv(states, events, data, k, i);
    RingConserves(states[i], |data|, k);
  }

  /** A call returns true exactly when it moved one element, which for a pop is the one it returns;
      one that returns false moved none. */
  lemma CallsMoveOneOrNone<T>(states: seq<State<T>>, events: seq<Event<T>>, data: seq<T>, k: nat, i: nat)
    requires IsRun(states, events, data) && IsCapacity(|data|, k) && i < |states|
    ensures var s := states[i];
      && (s.prod.PDone? ==> s.pushed == if s.prod.ok then s.pushed0 + [s.prod.v] else s.pushed0)
      && (s.cons.CDone? ==> s.popped == if s.cons.res.Some? then s.popped0 + [s.cons.res.value] else s.popped0)
  {
    hide RingOk, MutexOk, WakeupOk, IsCapacity;
    RunKeepsInv(states, events, data, k, i);
  }

  /** Giving up: a push only when the ring is full, a pop when it is empty or stop was requested; and
      a pop that may not be stopped never gives up after waiting. */
  lemma GivesUpOnlyWhen<T>(s: State<T>, cap: nat, k: nat, e: Event<T>)
    requires Inv(s, cap) && IsCapacity(cap, k)
    ensures |s.data| > 0
    ensures var n := Next(s, e); n.Some? ==>
      && (n.value.prod.PDone? && !n.value.prod.ok && !s.prod.PDone? ==> s.prod.PTry? && Held(s) == cap)
      && (n.value.cons == CDone(None) && !s.cons.CDone? ==> (s.cons.CTry? && Held(s) == 0) || (s.cons.CQuit? && s.stop))
  {
    hide Idx, Slot, Inc, Diff, SlotsOk;
    CapacityFits(cap, k);
    DiffIs(|s.pushed|, |s.popped|);
    IdxDiffer(|s.pushed|, |s.popped|);
  }

  /** When neither call can take a step, each is idle or returning, or it sleeps because the ring is
      full, or empty, which cannot be the case on both sides. */
  lemma StuckMeansWaiting<T>(s: State<T>, cap: nat)
    requires Inv(s, cap) && |s.data| > 0 && RunProducer(s) == None && RunConsumer(s) == None
    ensures s.prod.PIdle? || s.prod.PDone? || (s.prod.PBlocked? && Held(s) == cap)
    ensures s.cons.CIdle? || s.cons.CDone?
      || (s.cons.CBlocked? && Held(s) == 0 && !(s.cons.mode == WaitWithStopToken && s.stop))
    ensures !(s.prod.PBlocked? && s.cons.CBlocked?)
  {
    hide Idx, Slot, Inc, Diff, SlotsOk, RunProducer, RunConsumer, ProdOk;
    OwnerIs(s.pm);
    OwnerIs(s.cm);
    ProducerStuck(s);
    ConsumerStuck(s);
  }

  lemma OwnerIs(m: Option<Side>)
    ensures m == None || m == Some(Producer) || m == Some(Consumer)
  {
    match m
    case None =>
    case Some(side) =>
      match side {
        case Producer =>
        case Consumer =>
      }
  }

  lemma ProducerStuck<T>(s: State<T>)
    requires |s.data| > 0 && RunProducer(s) == None
    ensures s.prod.PIdle? || s.prod.PDone? || s.prod.PBlocked? || (s.prod.PNotLock? && s.cm != None)
      || ((s.prod.PLock? || s.prod.PWake?) && s.pm != None)
  {
  }

  lemma ConsumerStuck<T>(s: State<T>)
    requires |s.data| > 0 && RunConsumer(s) == None
    ensures s.cons.CIdle? || s.cons.CDone? || s.cons.CBlocked? || (s.cons.CNotLock? && s.pm != None)
      || ((s.cons.CLock? || s.cons.CWake?) && s.cm != None)
  {
  }
}
