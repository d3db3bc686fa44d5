/** What a whole call of `SharedFirstMutex` does, from the event that starts it to the state in which its
    thread is idle again, whatever the other threads do meanwhile. */
module SharedFirstMutexCalls {
  import opened SharedFirstMutex

  // ----- calls in a run -----

  predicate Busy(s: State, t: nat) {
    t < |s.threads| && s.threads[t].pc != Idle
  }

  /** Step i starts a call of op by thread t, which is not over before state j. */
  predicate InCall(states: seq<State>, acts: seq<(nat, Event)>, n: nat, t: nat, op: Op, i: nat, j: nat) {
    && IsRun(states, acts, n) && t < n && i < j < |states| && acts[i] == (t, Call(op))
    && forall k | i < k < j :: Busy(states[k], t)
  }

  /** In state j it is over for the first time. */
  predicate IsCall(states: seq<State>, acts: seq<(nat, Event)>, n: nat, t: nat, op: Op, i: nat, j: nat) {
    InCall(states, acts, n, t, op, i, j) && !Busy(states[j], t)
  }

  lemma {:induction false} SameThreads(states: seq<State>, acts: seq<(nat, Event)>, n: nat, i: nat)
    requires IsRun(states, acts, n) && i < |states|
    ensures |states[i].threads| == n
    decreases i
  {
    hide Strong, Small;
    if i > 0 {
      SameThreads(states, acts, n, i - 1);
      assert StepAt(states, acts, i - 1);
      StepShape(states[i - 1], acts[i - 1].0, acts[i - 1].1);
    }
  }

  lemma StepShape(s: State, t: nat, e: Event)
    requires Next(s, t, e).Some?
    ensures |Next(s, t, e).value.threads| == |s.threads|
  {
  }

  // ----- what a call has come across -----

  /** That its deadline has passed; that it has tried a word that was not 0, or read one with the writer
      bit; and that it has done so after its deadline. */
  datatype Seen = Seen(late: bool, taken: bool, writer: bool, lateTaken: bool, lateWriter: bool)

  function See(f: Seen, s: State, e: Event): Seen {
    var taken, writer := e == Run && s.word != 0, (e == Run || e == WeakFailure) && HasWriter(s.word);
    Seen(f.late || e == Deadline, f.taken || taken, f.writer || writer,
         f.lateTaken || (f.late && taken), f.lateWriter || (f.late && writer))
  }

  function SeenBy(states: seq<State>, acts: seq<(nat, Event)>, t: nat, i: nat, j: nat): Seen
    requires |states| == |acts| + 1 && i < j < |states|
    decreases j
  {
    if j == i + 1 then Seen(false, false, false, false, false)
    else
      var f := SeenBy(states, acts, t, i, j - 1);
      if acts[j - 1].0 == t then See(f, states[j - 1], acts[j - 1].1) else f
  }

  /** Between i and j, thread t tried a word that was not 0, or read one with the writer bit. */
  predicate TriedTaken(states: seq<State>, acts: seq<(nat, Event)>, t: nat, i: nat, j: nat)
    requires |states| == |acts| + 1 && j < |states|
  {
    exists k | i < k < j :: acts[k] == (t, Run) && states[k].word != 0
  }

  predicate ReadWriter(states: seq<State>, acts: seq<(nat, Event)>, t: nat, i: nat, j: nat)
    requires |states| == |acts| + 1 && j < |states|
  {
    exists k | i < k < j :: acts[k].0 == t && HasWriter(states[k].word)
  }

  /** Between i and j, the deadline of thread t passed, and after that it did so. */
  predicate LateTaken(states: seq<State>, acts: seq<(nat, Event)>, t: nat, i: nat, j: nat)
    requires |states| == |acts| + 1 && j < |states|
  {
    exists d | i < d < j :: acts[d] == (t, Deadline) && TriedTaken(states, acts, t, d, j)
  }

  predicate LateWriter(states: seq<State>, acts: seq<(nat, Event)>, t: nat, i: nat, j: nat)
    requires |states| == |acts| + 1 && j < |states|
  {
    exists d | i < d < j :: acts[d] == (t, Deadline) && ReadWriter(states, acts, t, d, j)
  }

  predicate WasLate(acts: seq<(nat, Event)>, t: nat, i: nat, j: nat)
    requires j <= |acts|
  {
    exists d | i < d < j :: acts[d] == (t, Deadline)
  }

  lemma {:induction false} SeenMeans(states: seq<State>, acts: seq<(nat, Event)>, t: nat, i: nat, j: nat)
    requires |states| == |acts| + 1 && i < j < |states|
    ensures var f := SeenBy(states, acts, t, i, j);
      && (f.late ==> WasLate(acts, t, i, j))
      && (f.taken ==> TriedTaken(states, acts, t, i, j)) && (f.writer ==> ReadWriter(states, acts, t, i, j))
      && (f.lateTaken ==> LateTaken(states, acts, t, i, j)) && (f.lateWriter ==> LateWriter(states, acts, t, i, j))
    decreases j
  {
    if j > i + 1 {
      SeenMeans(states, acts, t, i, j - 1);
      var f, g := SeenBy(states, acts, t, i, j - 1), SeenBy(states, acts, t, i, j);
      if f.lateTaken {
        var d :| i < d < j - 1 && acts[d] == (t, Deadline) && TriedTaken(states, acts, t, d, j - 1);
        assert TriedTaken(states, acts, t, d, j);
      } else if g.lateTaken {
        var d :| i < d < j - 1 && acts[d] == (t, Deadline);
        assert TriedTaken(states, acts, t, d, j);
      }
      if f.lateWriter {
        var d :| i < d < j - 1 && acts[d] == (t, Deadline) && ReadWriter(states, acts, t, d, j - 1);
        assert ReadWriter(states, acts, t, d, j);
      } else if g.lateWriter {
        var d :| i < d < j - 1 && acts[d] == (t, Deadline);
        assert ReadWriter(states, acts, t, d, j);
      }
    }
  }

  // ----- where a call can be, and with which holds -----

  /** On the way of lock and try_lock_until, without the hold. */
  predicate LkTrying(pc: Pc, timed: bool) {
    match pc
    case LkMutex(x) => x == timed
    case LkAnnounce(x) => x == timed
    case LkCas(x) => x == timed
    case LkWait(x) => x == timed
    case LkBlocked(x) => x == timed
    case LkWake(x) => x == timed
    case _ => false
  }

  predicate LkEnding(pc: Pc) {
    pc.LkRetire? || pc.LkRelease? || pc.Idle?
  }

  /** On the way of the shared acquisitions, without the new hold. */
  predicate ShTrying(pc: Pc, mode: Mode) {
    match pc
    case ShLoad(m) => m == mode
    case ShCas(m, _) => m == mode
    case ShMutex(x) => mode != Tries && x == (mode == WaitsUntil)
    case ShCheck(x) => mode != Tries && x == (mode == WaitsUntil)
    case ShWait(x) => mode != Tries && x == (mode == WaitsUntil)
    case ShBlocked(x) => mode != Tries && x == (mode == WaitsUntil)
    case ShWake(x) => mode != Tries && x == (mode == WaitsUntil)
    case ShAdd => mode != Tries
    case _ => false
  }

  predicate ShEnding(pc: Pc, mode: Mode) {
    (pc.ShRelease? && mode != Tries) || pc.Idle?
  }

  /** The exclusive acquisitions: `a` is the thread when the call starts, b now. */
  predicate WriterOk(op: Op, a: Thread, b: Thread, f: Seen) {
    && a.shares == b.shares == 0 && !a.owns
    && match op
       case Lock => (LkTrying(b.pc, false) && !b.owns) || (LkEnding(b.pc) && b.owns)
       case TryLockUntil =>
         || (LkTrying(b.pc, true) && !b.owns)
         || ((b.pc.LkExpired? || b.pc.LkLastCas?) && !b.owns && f.late)
         || (LkEnding(b.pc) && b.owns == b.ret && (!b.ret ==> f.lateTaken))
       case _ =>
         || ((b.pc.TlMutex? || b.pc.TlCas?) && !b.owns)
         || ((b.pc.TlRelease? || b.pc.Idle?) && b.owns == b.ret && (!b.ret ==> f.taken))
  }

  function More(b: bool): nat {
    if b then 1 else 0
  }

  predicate ReaderOk(op: Op, a: Thread, b: Thread, f: Seen) {
    && !a.owns && !b.owns
    && match op
       case LockShared =>
         (ShTrying(b.pc, Waits) && b.shares == a.shares) || (ShEnding(b.pc, Waits) && b.shares == a.shares + 1)
       case TryLockSharedUntil =>
         || (ShTrying(b.pc, WaitsUntil) && b.shares == a.shares)
         || ((b.pc.ShExpired? || b.pc.ShLastCheck?) && b.shares == a.shares && f.late)
         || (ShEnding(b.pc, WaitsUntil) && b.shares == a.shares + More(b.ret) && (!b.ret ==> f.lateWriter))
       case _ =>
         || (ShTrying(b.pc, Tries) && b.shares == a.shares)
         || (ShEnding(b.pc, Tries) && b.shares == a.shares + More(b.ret) && (!b.ret ==> f.writer))
  }

  predicate UnlockOk(op: Op, a: Thread, b: Thread) {
    match op
    case Unlock =>
      && (b.pc.UnMutex? || b.pc.UnNotify? || b.pc.UnRelease? || b.pc.Idle?)
      && a.owns && !b.owns && b.shares == a.shares
    case _ =>
      && (b.pc.UsLoad? || b.pc.UsMutex? || b.pc.UsNotify? || b.pc.UsRelease? || b.pc.Idle?)
      && b.owns == a.owns && b.shares == a.shares - 1
  }

  predicate CallOk(op: Op, a: Thread, b: Thread, f: Seen) {
    match op
    case Lock => WriterOk(op, a, b, f)
    case TryLock => WriterOk(op, a, b, f)
    case TryLockUntil => WriterOk(op, a, b, f)
    case LockShared => ReaderOk(op, a, b, f)
    case TryLockShared => ReaderOk(op, a, b, f)
    case TryLockSharedUntil => ReaderOk(op, a, b, f)
    case Unlock => UnlockOk(op, a, b)
    case UnlockShared => UnlockOk(op, a, b)
  }

  lemma CallStarts(s: State, t: nat, op: Op, f: Seen)
    requires t < |s.threads| && Next(s, t, Call(op)).Some?
    ensures CallOk(op, s.threads[t], Next(s, t, Call(op)).value.threads[t], f)
  {
  }

  /** What another thread does can only wake the thread. */
  lemma OthersOnlyWake(s: State, u: nat, e: Event, t: nat)
    requires t < |s.threads| && u != t && Next(s, u, e).Some?
    ensures t < |Next(s, u, e).value.threads|
    ensures Next(s, u, e).value.threads[t] == s.threads[t]
      || Next(s, u, e).value.threads[t] == s.threads[t].(pc := Woken(s.threads[t].pc))
  {
  }

  lemma WakingIsOk(op: Op, a: Thread, b: Thread, f: Seen)
    requires CallOk(op, a, b, f)
    ensures CallOk(op, a, b.(pc := Woken(b.pc)), f)
  {
  }

  lemma WriterStep(s: State, t: nat, e: Event, op: Op, a: Thread, f: Seen)
    requires t < |s.threads| && s.threads[t].pc != Idle && Next(s, t, e).Some? && WriterOk(op, a, s.threads[t], f)
    requires op == Lock || op == TryLock || op == TryLockUntil
    ensures WriterOk(op, a, Next(s, t, e).value.threads[t], See(f, s, e))
  {
  }

  /** On the slow path nothing but the thread's position depends on the mode. */
  lemma ReaderRuns(s: State, t: nat, mode: Mode)
    requires t < |s.threads| && (ShTrying(s.threads[t].pc, mode) || ShEnding(s.threads[t].pc, mode))
      && RunPc(s, t).Some?
    ensures RunPc(s, t) == RunShared(s, t)
    ensures var a, b := s.threads[t], RunPc(s, t).value.threads[t];
      && b.owns == a.owns
      && ((ShTrying(a.pc, mode) && ShTrying(b.pc, mode) && b.shares == a.shares)
          || (ShTrying(a.pc, mode) && ShEnding(b.pc, mode) && b.shares == a.shares + 1 && b.ret)
          || (ShTrying(a.pc, mode) && mode == Tries && b.pc.Idle? && b.shares == a.shares && !b.ret
              && HasWriter(s.word))
          || (a.pc.ShRelease? && b == a.(pc := Idle)))
  {
  }

  lemma ReaderIsLate(s: State, t: nat)
    requires t < |s.threads| && (s.threads[t].pc.ShExpired? || s.threads[t].pc.ShLastCheck?) && RunPc(s, t).Some?
    ensures var a, b := s.threads[t], RunPc(s, t).value.threads[t];
      && b.owns == a.owns && b.shares == a.shares
      && (b.pc.ShLastCheck? || b.pc.ShAdd? || (b.pc.ShRelease? && !b.ret && HasWriter(s.word)))
  {
  }

  lemma ReaderIsDisturbed(s: State, t: nat, e: Event, mode: Mode)
    requires t < |s.threads| && ShTrying(s.threads[t].pc, mode) && Next(s, t, e).Some? && e != Run
    ensures var a, b := s.threads[t], Next(s, t, e).value.threads[t];
      && b.owns == a.owns && b.shares == a.shares
      && (ShTrying(b.pc, mode) || (mode == WaitsUntil && b.pc.ShExpired? && e == Deadline)
          || (mode == Tries && b.pc.Idle? && !b.ret && e == WeakFailure && HasWriter(s.word)))
  {
  }

  lemma OnlyTryingIsDisturbed(s: State, t: nat, e: Event)
    requires t < |s.threads| && Next(s, t, e).Some? && e != Run && s.threads[t].pc != Idle
    ensures !s.threads[t].pc.ShExpired? && !s.threads[t].pc.ShLastCheck? && !s.threads[t].pc.ShRelease?
  {
  }

  lemma ReaderStep(s: State, t: nat, e: Event, op: Op, a: Thread, f: Seen)
    requires t < |s.threads| && s.threads[t].pc != Idle && Next(s, t, e).Some? && ReaderOk(op, a, s.threads[t], f)
    requires op == LockShared || op == TryLockShared || op == TryLockSharedUntil
    ensures ReaderOk(op, a, Next(s, t, e).value.threads[t], See(f, s, e))
  {
    hide RunPc, HasWriter, ShTrying, Start, Reload, Go;
    var mode := if op == LockShared then Waits else if op == TryLockShared then Tries else WaitsUntil;
    var pc := s.threads[t].pc;
    WhoIsTrying(mode);
    if e != Run {
      OnlyTryingIsDisturbed(s, t, e);
      ReaderIsDisturbed(s, t, e, mode);
    } else if pc.ShExpired? || pc.ShLastCheck? {
      ReaderIsLate(s, t);
    } else {
      ReaderRuns(s, t, mode);
    }
  }

  lemma WhoIsTrying(mode: Mode)
    ensures (ShTrying(ShAdd, mode) <==> mode != Tries) && !ShTrying(ShRelease, mode) && !ShTrying(Idle, mode)
    ensures !ShTrying(ShExpired, mode) && !ShTrying(ShLastCheck, mode)
  {
  }

  lemma UnlockStep(s: State, t: nat, e: Event, op: Op, a: Thread)
    requires t < |s.threads| && s.threads[t].pc != Idle && Next(s, t, e).Some? && UnlockOk(op, a, s.threads[t])
    requires op == Unlock || op == UnlockShared
    ensures UnlockOk(op, a, Next(s, t, e).value.threads[t])
  {
  }

  lemma OwnStep(s: State, t: nat, e: Event, op: Op, a: Thread, f: Seen)
    requires t < |s.threads| && s.threads[t].pc != Idle && Next(s, t, e).Some? && CallOk(op, a, s.threads[t], f)
    ensures CallOk(op, a, Next(s, t, e).value.threads[t], See(f, s, e))
  {
    hide Next, WriterOk, ReaderOk, UnlockOk, See;
    match op
    case Lock => WriterStep(s, t, e, op, a, f);
    case TryLock => WriterStep(s, t, e, op, a, f);
    case TryLockUntil => WriterStep(s, t, e, op, a, f);
    case LockShared => ReaderStep(s, t, e, op, a, f);
    case TryLockShared => ReaderStep(s, t, e, op, a, f);
    case TryLockSharedUntil => ReaderStep(s, t, e, op, a, f);
    case Unlock => UnlockStep(s, t, e, op, a);
    case UnlockShared => UnlockStep(s, t, e, op, a);
  }

  lemma {:induction false} CallKeeps(states: seq<State>, acts: seq<(nat, Event)>, n: nat, t: nat, op: Op,
                                     i: nat, j: nat)
    requires InCall(states, acts, n, t, op, i, j)
    ensures |states[i].threads| == |states[j].threads| == n
    ensures CallOk(op, states[i].threads[t], states[j].threads[t], SeenBy(states, acts, t, i, j))
    decreases j
  {
    hide Next, CallOk, Strong, Small;
    SameThreads(states, acts, n, i);
    SameThreads(states, acts, n, j - 1);
    SameThreads(states, acts, n, j);
    var a, s, act := states[i].threads[t], states[j - 1], acts[j - 1];
    assert StepAt(states, acts, j - 1);
    if j == i + 1 {
      CallStarts(s, t, op, SeenBy(states, acts, t, i, j));
    } else {
      var f := SeenBy(states, acts, t, i, j - 1);
      CallKeeps(states, acts, n, t, op, i, j - 1);
      assert Busy(s, t);
      if act.0 == t {
        OwnStep(s, t, act.1, op, a, f);
      } else {
        OthersOnlyWake(s, act.0, act.1, t);
        WakingIsOk(op, a, s.threads[t], f);
      }
    }
  }

  // ----- what every call does -----

  /** The acquisitions that cannot fail end with the hold. */
  lemma LockTakes(states: seq<State>, acts: seq<(nat, Event)>, n: nat, t: nat, i: nat, j: nat)
    requires IsCall(states, acts, n, t, Lock, i, j)
    ensures t < |states[j].threads| && states[j].threads[t].owns && states[j].threads[t].shares == 0
  {
    hide IsRun;
    CallKeeps(states, acts, n, t, Lock, i, j);
  }

  lemma LockSharedTakes(states: seq<State>, acts: seq<(nat, Event)>, n: nat, t: nat, i: nat, j: nat)
    requires IsCall(states, acts, n, t, LockShared, i, j)
    ensures t < |states[i].threads| && t < |states[j].threads| && !states[j].threads[t].owns
    ensures states[j].threads[t].shares == states[i].threads[t].shares + 1
  {
    hide IsRun;
    CallKeeps(states, acts, n, t, LockShared, i, j);
  }

  /** The others say truly whether they took the hold; they take it or change nothing; and they fail only
      because the lock was held when they tried, in the timed forms after the deadline. */
  lemma TryLockTakes(states: seq<State>, acts: seq<(nat, Event)>, n: nat, t: nat, op: Op, i: nat, j: nat)
    requires IsCall(states, acts, n, t, op, i, j) && (op == TryLock || op == TryLockUntil)
    ensures t < |states[j].threads| && states[j].threads[t].shares == 0
    ensures states[j].threads[t].owns <==> states[j].threads[t].ret
    ensures op == TryLock && !states[j].threads[t].ret ==> TriedTaken(states, acts, t, i, j)
    ensures op == TryLockUntil && !states[j].threads[t].ret ==> LateTaken(states, acts, t, i, j)
  {
    hide StepAt;
    CallKeeps(states, acts, n, t, op, i, j);
    SeenMeans(states, acts, t, i, j);
  }

  lemma TryLockSharedTakes(states: seq<State>, acts: seq<(nat, Event)>, n: nat, t: nat, op: Op, i: nat, j: nat)
    requires IsCall(states, acts, n, t, op, i, j) && (op == TryLockShared || op == TryLockSharedUntil)
    ensures t < |states[i].threads| && t < |states[j].threads| && !states[j].threads[t].owns
    ensures states[j].threads[t].shares == states[i].threads[t].shares + if states[j].threads[t].ret then 1 else 0
    ensures op == TryLockShared && !states[j].threads[t].ret ==> ReadWriter(states, acts, t, i, j)
    ensures op == TryLockSharedUntil && !states[j].threads[t].ret ==> LateWriter(states, acts, t, i, j)
  {
    hide StepAt;
    CallKeeps(states, acts, n, t, op, i, j);
    SeenMeans(states, acts, t, i, j);
  }

  /** The releases give up exactly one hold. */
  lemma UnlockGivesUp(states: seq<State>, acts: seq<(nat, Event)>, n: nat, t: nat, op: Op, i: nat, j: nat)
    requires IsCall(states, acts, n, t, op, i, j) && (op == Unlock || op == UnlockShared)
    ensures t < |states[i].threads| && t < |states[j].threads|
    ensures var a, b := states[i].threads[t], states[j].threads[t];
      if op == Unlock then a.owns && !b.owns && b.shares == a.shares else b.owns == a.owns && b.shares + 1 == a.shares
  {
    hide IsRun;
    CallKeeps(states, acts, n, t, op, i, j);
  }

  predicate Asleep(pc: Pc) {
    pc.LkBlocked? || pc.ShBlocked?
  }

  /** Only the forms that may wait ever sleep, and a deadline ends the sleep of the timed forms alone. */
  lemma SleepsOnly(states: seq<State>, acts: seq<(nat, Event)>, n: nat, t: nat, op: Op, i: nat, j: nat)
    requires InCall(states, acts, n, t, op, i, j)
    ensures t < |states[j].threads|
    ensures Asleep(states[j].threads[t].pc) ==> op.Lock? || op.TryLockUntil? || op.LockShared? || op.TryLockSharedUntil?
    ensures Asleep(states[j].threads[t].pc) ==>
      (Next(states[j], t, Deadline).Some? <==> op.TryLockUntil? || op.TryLockSharedUntil?)
  {
    hide IsRun;
    CallKeeps(states, acts, n, t, op, i, j);
  }

  // ----- no call runs on for ever -----

  /** How many more actions a thread can take before it sleeps or its call is over, unless the word changes
      between its reading it and its compare-exchange. */
  function Left(pc: Pc): nat {
    match pc
    case Idle => 0
    case LkMutex(_) => 9
    case LkAnnounce(_) => 8
    case LkWake(_) => 8
    case LkCas(_) => 7
    case LkWait(_) => 1
    case LkBlocked(_) => 0
    case LkExpired => 4
    case LkLastCas => 3
    case LkRetire => 2
    case LkRelease => 1
    case TlMutex => 3
    case TlCas => 2
    case TlRelease => 1
    case UnMutex => 3
    case UnNotify => 2
    case UnRelease => 1
    case ShLoad(_) => 9
    case ShCas(_, _) => 8
    case ShMutex(_) => 6
    case ShWake(_) => 6
    case ShCheck(_) => 5
    case ShWait(_) => 1
    case ShBlocked(_) => 0
    case ShExpired => 4
    case ShLastCheck => 3
    case ShAdd => 2
    case ShRelease => 1
    case UsLoad => 4
    case UsMutex => 3
    case UsNotify => 2
    case UsRelease => 1
  }

  /** Thread t is about to compare the word with what it has read, and it has changed. */
  predicate WordChanged(s: State, t: nat) {
    t < |s.threads| && s.threads[t].pc.ShCas? && s.word != s.threads[t].pc.cur
  }

  lemma OwnActionGetsOn(s: State, t: nat)
    requires t < |s.threads| && Next(s, t, Run).Some? && !WordChanged(s, t)
    ensures Left(Next(s, t, Run).value.threads[t].pc) < Left(s.threads[t].pc)
  {
    hide Left, RunLock, RunOther, RunShared;
    if RunLock(s, t).Some? {
      LockGetsOn(s, t);
    } else if RunOther(s, t).Some? {
      OtherGetsOn(s, t);
    } else {
      SharedGetsOn(s, t);
    }
  }

  lemma LockGetsOn(s: State, t: nat)
    requires t < |s.threads| && RunLock(s, t).Some?
    ensures t < |RunLock(s, t).value.threads| && Left(RunLock(s, t).value.threads[t].pc) < Left(s.threads[t].pc)
  {
  }

  lemma OtherGetsOn(s: State, t: nat)
    requires t < |s.threads| && RunOther(s, t).Some?
    ensures t < |RunOther(s, t).value.threads| && Left(RunOther(s, t).value.threads[t].pc) < Left(s.threads[t].pc)
  {
  }

  lemma SharedGetsOn(s: State, t: nat)
    requires t < |s.threads| && RunShared(s, t).Some? && !WordChanged(s, t)
    ensures t < |RunShared(s, t).value.threads| && Left(RunShared(s, t).value.threads[t].pc) < Left(s.threads[t].pc)
  {
    hide HasWriter;
  }

  /** Nothing but being woken gives it more to do. */
  lemma DisturbancesGetOn(s: State, u: nat, e: Event, t: nat)
    requires t < |s.threads| && s.threads[t].pc != Idle && !Asleep(s.threads[t].pc) && Next(s, u, e).Some?
    requires u == t ==> e != Run || WordChanged(s, t)
    ensures Left(Next(s, u, e).value.threads[t].pc) <= Left(s.threads[t].pc)
  {
    hide HasWriter;
    if u != t {
      OthersOnlyWake(s, u, e, t);
    }
  }

  /** How many actions thread t takes from state i to state j, other than comparing a word that has changed. */
  function Actions(states: seq<State>, acts: seq<(nat, Event)>, t: nat, i: nat, j: nat): nat
    requires |states| == |acts| + 1 && i <= j < |states|
  {
    if i == j then 0 else
      var more := if acts[j - 1] == (t, Run) && !WordChanged(states[j - 1], t) then 1 else 0;
      Actions(states, acts, t, i, j - 1) + more
  }

  lemma {:induction false} ActionsAreLeft(states: seq<State>, acts: seq<(nat, Event)>, n: nat, t: nat, i: nat, j: nat)
    requires IsRun(states, acts, n) && t < n && i <= j < |states|
    requires forall k | i <= k < j :: Busy(states[k], t) && !Asleep(states[k].threads[t].pc)
    ensures t < |states[i].threads| && t < |states[j].threads|
    ensures Actions(states, acts, t, i, j) + Left(states[j].threads[t].pc) <= Left(states[i].threads[t].pc)
    decreases j
  {
    hide Next, Left, Strong, Small;
    SameThreads(states, acts, n, i);
    SameThreads(states, acts, n, j);
    if i < j {
      ActionsAreLeft(states, acts, n, t, i, j - 1);
      assert StepAt(states, acts, j - 1);
      var s, u, e := states[j - 1], acts[j - 1].0, acts[j - 1].1;
      if u == t && e == Run && !WordChanged(s, t) {
        OwnActionGetsOn(s, t);
      } else {
        DisturbancesGetOn(s, u, e, t);
      }
    }
  }

  /** A call takes at most nine actions before it sleeps or is over, and as many after every sleep, not counting
      the tries of a reader that found the word changed. */
  lemma NineActions(states: seq<State>, acts: seq<(nat, Event)>, n: nat, t: nat, i: nat, j: nat)
    requires IsRun(states, acts, n) && t < n && i <= j < |states|
    requires forall k | i <= k < j :: Busy(states[k], t) && !Asleep(states[k].threads[t].pc)
    ensures Actions(states, acts, t, i, j) <= 9
  {
    hide StepAt, Actions;
    ActionsAreLeft(states, acts, n, t, i, j);
  }
}
