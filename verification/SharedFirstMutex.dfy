/** The reader-preferring lock (`Common::SharedFirstMutex`) as a state machine: any number of threads,
    one atomic action at a time, in every interleaving. */
module SharedFirstMutex {
  import opened Options

  const WRITER_BIT: nat := 0x8000_0000
  const WORDS: nat := 0x1_0000_0000


  /** How a shared acquisition behaves when a writer holds the lock. */
  datatype Mode = Waits | Tries | WaitsUntil

  /** Where a thread is. `Lk` is lock and try_lock_until, `Tl` try_lock, `Un` unlock, `Sh` the shared
      acquisitions, `Us` unlock_shared; `timed` marks the forms with a deadline. */
  datatype Pc =
    | Idle
    | LkMutex(timed: bool)            // about to lock mtx
    | LkAnnounce(timed: bool)         // about to increment waiting_writers
    | LkCas(timed: bool)              // about to try the word
    | LkWait(timed: bool)             // failed: about to release mtx and sleep, in one action
    | LkBlocked(timed: bool)          // asleep
    | LkWake(timed: bool)             // woken: about to lock mtx again
    | LkExpired                       // past the deadline: about to lock mtx again
    | LkLastCas                       // about to try the word one last time
    | LkRetire                        // about to decrement waiting_writers
    | LkRelease                       // about to unlock mtx
    | TlMutex | TlCas | TlRelease
    | UnMutex | UnNotify | UnRelease  // the word is already clear
    | ShLoad(mode: Mode)
    | ShCas(mode: Mode, cur: nat)
    | ShMutex(timed: bool)
    | ShCheck(timed: bool)
    | ShWait(timed: bool)
    | ShBlocked(timed: bool)
    | ShWake(timed: bool)
    | ShExpired
    | ShLastCheck
    | ShAdd
    | ShRelease
    | UsLoad                          // the last reader: about to read waiting_writers
    | UsMutex | UsNotify | UsRelease

  /** A thread with the holds it has, which begin and end with the action that changes the word, and with
      the result of its call, as far as it is known. */
  datatype Thread = Thread(pc: Pc, shares: nat, owns: bool, ret: bool)

  datatype State = State(word: nat, waiting: nat, mtx: Option<nat>, threads: seq<Thread>)

  datatype Op = Lock | TryLock | TryLockUntil | Unlock | LockShared | TryLockShared | TryLockSharedUntil | UnlockShared

  /** What a thread does next: starts a call, performs its next action, or is disturbed: a weak
      compare-exchange fails for no reason, a sleeper wakes for no reason, a deadline passes. */
  datatype Event = Call(op: Op) | Run | WeakFailure | SpuriousWake | Deadline

  // ----- the actions -----

  function Init(n: nat): State {
    State(0, 0, None, seq(n, i => Thread(Idle, 0, false, false)))
  }

  function HasWriter(word: nat): bool {
    word / WRITER_BIT % 2 == 1
  }

  /** The thread moves on without touching anything shared. */
  function Go(s: State, t: nat, pc: Pc): State
    requires t < |s.threads|
  {
    s.(threads := s.threads[t := s.threads[t].(pc := pc)])
  }

  /** The same, with the result false for the time being. */
  function Fail(s: State, t: nat, pc: Pc): State
    requires t < |s.threads|
  {
    s.(threads := s.threads[t := s.threads[t].(pc := pc, ret := false)])
  }

  function LockMutex(s: State, t: nat, pc: Pc): Option<State>
    requires t < |s.threads|
  {
    if s.mtx == None then Some(Go(s, t, pc).(mtx := Some(t))) else None
  }

  function UnlockMutex(s: State, t: nat, pc: Pc): State
    requires t < |s.threads|
  {
    Go(s, t, pc).(mtx := None)
  }

  /** `fetch_add(1)` by a reader */
  function AddReader(s: State, t: nat, pc: Pc): State
    requires t < |s.threads|
  {
    s.(word := (s.word + 1) % WORDS,
       threads := s.threads[t := s.threads[t].(pc := pc, shares := s.threads[t].shares + 1, ret := true)])
  }

  /** A strong compare-exchange of the word from 0 to WRITER_BIT */
  function TakeWord(s: State, t: nat, success: Pc, failure: Pc): State
    requires t < |s.threads|
  {
    if s.word == 0 then
      s.(word := WRITER_BIT, threads := s.threads[t := s.threads[t].(pc := success, owns := true, ret := true)])
    else Fail(s, t, failure)
  }

  function Woken(pc: Pc): Pc {
    if pc.LkBlocked? then LkWake(pc.timed) else if pc.ShBlocked? then ShWake(pc.timed) else pc
  }

  /** `notify_all` */
  function WakeAll(ts: seq<Thread>): (r: seq<Thread>)
    ensures |r| == |ts| && forall i | 0 <= i < |ts| :: r[i] == ts[i].(pc := Woken(ts[i].pc))
  {
    seq(|ts|, i requires 0 <= i < |ts| => ts[i].(pc := Woken(ts[i].pc)))
  }

  function NotifyAll(s: State, t: nat, pc: Pc): State
    requires t < |s.threads|
  {
    var w := s.(threads := WakeAll(s.threads));
    Go(w, t, pc)
  }

  /** Starting a call, for the threads that may make it: the exclusive calls need a thread without
      holds, the shared ones a thread without the exclusive hold, the unlocks the hold they give up.
      The unlocks begin with their action on the word. */
  function Start(s: State, t: nat, op: Op): Option<State>
    requires t < |s.threads|
  {
    var th := s.threads[t];
    match op
    case Lock => if th.shares == 0 && !th.owns then Some(Go(s, t, LkMutex(false))) else None
    case TryLockUntil => if th.shares == 0 && !th.owns then Some(Go(s, t, LkMutex(true))) else None
    case TryLock => if th.shares == 0 && !th.owns then Some(Go(s, t, TlMutex)) else None
    case LockShared => if !th.owns then Some(Go(s, t, ShLoad(Waits))) else None
    case TryLockShared => if !th.owns then Some(Go(s, t, ShLoad(Tries))) else None
    case TryLockSharedUntil => if !th.owns then Some(Go(s, t, ShLoad(WaitsUntil))) else None
    case Unlock =>
      if !th.owns then None
      else Some(s.(word := s.word % WRITER_BIT, threads := s.threads[t := th.(pc := UnMutex, owns := false)]))
    case UnlockShared =>
      if th.shares == 0 then None
      else
        var pc := if s.word % WRITER_BIT != 1 then Idle else UsLoad;
        Some(s.(word := (s.word + WORDS - 1) % WORDS,
          threads := s.threads[t := th.(pc := pc, shares := th.shares - 1)]))
  }

  /** The next action of lock and try_lock_until. */
  function RunLock(s: State, t: nat): Option<State>
    requires t < |s.threads|
  {
    match s.threads[t].pc
    case LkMutex(timed) => LockMutex(s, t, LkAnnounce(timed))
    case LkAnnounce(timed) => Some(Go(s, t, LkCas(timed)).(waiting := (s.waiting + 1) % WORDS))
    case LkCas(timed) => Some(TakeWord(s, t, LkRetire, LkWait(timed)))
    case LkWait(timed) => Some(UnlockMutex(s, t, LkBlocked(timed)))
    case LkWake(timed) => LockMutex(s, t, LkCas(timed))
    case LkExpired => LockMutex(s, t, LkLastCas)
    case LkLastCas => Some(TakeWord(s, t, LkRetire, LkRetire))
    case LkRetire => Some(Go(s, t, LkRelease).(waiting := (s.waiting + WORDS - 1) % WORDS))
    case LkRelease => Some(UnlockMutex(s, t, Idle))
    case _ => None
  }

  /** The next action of try_lock, unlock and unlock_shared. */
  function RunOther(s: State, t: nat): Option<State>
    requires t < |s.threads|
  {
    match s.threads[t].pc
    case TlMutex => LockMutex(s, t, TlCas)
    case TlCas => Some(TakeWord(s, t, TlRelease, TlRelease))
    case TlRelease => Some(UnlockMutex(s, t, Idle))
    case UnMutex => LockMutex(s, t, UnNotify)
    case UnNotify => Some(NotifyAll(s, t, UnRelease))
    case UnRelease => Some(UnlockMutex(s, t, Idle))
    case UsLoad => Some(Go(s, t, if s.waiting != 0 then UsMutex else Idle))
    case UsMutex => LockMutex(s, t, UsNotify)
    case UsNotify => Some(NotifyAll(s, t, UsRelease))
    case UsRelease => Some(UnlockMutex(s, t, Idle))
    case _ => None
  }

  /** Where a reader goes when it finds the writer bit set before taking mtx. */
  function Refused(mode: Mode): Pc {
    match mode
    case Tries => Idle
    case Waits => ShMutex(false)
    case WaitsUntil => ShMutex(true)
  }

  /** What a reader does with the word it has just read, before taking mtx. */
  function Reload(s: State, t: nat, mode: Mode): State
    requires t < |s.threads|
  {
    if HasWriter(s.word) then Fail(s, t, Refused(mode)) else Go(s, t, ShCas(mode, s.word))
  }

  /** The next action of the shared acquisitions. */
  function RunShared(s: State, t: nat): Option<State>
    requires t < |s.threads|
  {
    match s.threads[t].pc
    case ShLoad(mode) => Some(Reload(s, t, mode))
    case ShCas(mode, cur) => Some(if s.word == cur then AddReader(s, t, Idle) else Reload(s, t, mode))
    case ShMutex(timed) => LockMutex(s, t, ShCheck(timed))
    case ShCheck(timed) => Some(Go(s, t, if HasWriter(s.word) then ShWait(timed) else ShAdd))
    case ShWait(timed) => Some(UnlockMutex(s, t, ShBlocked(timed)))
    case ShWake(timed) => LockMutex(s, t, ShCheck(timed))
    case ShExpired => LockMutex(s, t, ShLastCheck)
    case ShLastCheck => Some(if HasWriter(s.word) then Fail(s, t, ShRelease) else Go(s, t, ShAdd))
    case ShAdd => Some(AddReader(s, t, ShRelease))
    case ShRelease => Some(UnlockMutex(s, t, Idle))
    case _ => None
  }

  function RunPc(s: State, t: nat): Option<State>
    requires t < |s.threads|
  {
    var a := RunLock(s, t);
    if a.Some? then a
    else
      var b := RunOther(s, t);
      if b.Some? then b else RunShared(s, t)
  }

  function Next(s: State, t: nat, e: Event): Option<State> {
    if t >= |s.threads| then None
    else
      var pc := s.threads[t].pc;
      match e
      case Call(op) => if pc == Idle then Start(s, t, op) else None
      case Run => RunPc(s, t)
      case WeakFailure =>
        if pc.LkCas? then Some(Go(s, t, LkWait(pc.timed)))
        else if pc.ShCas? then Some(Reload(s, t, pc.mode))
        else None
      case SpuriousWake => if pc.LkBlocked? || pc.ShBlocked? then Some(Go(s, t, Woken(pc))) else None
      case Deadline =>
        if (pc.LkBlocked? || pc.LkWake?) && pc.timed then Some(Go(s, t, LkExpired))
        else if (pc.ShBlocked? || pc.ShWake?) && pc.timed then Some(Go(s, t, ShExpired))
        else None
  }

  // ----- the invariant -----

  /** Readers in the word. */
  function Readers(ts: seq<Thread>): nat {
    if ts == [] then 0 else Readers(ts[..|ts| - 1]) + ts[|ts| - 1].shares
  }

  function Writers(ts: seq<Thread>): nat {
    if ts == [] then 0 else Writers(ts[..|ts| - 1]) + (if ts[|ts| - 1].owns then 1 else 0)
  }

  /** Threads counted in waiting_writers. */
  function Announced(ts: seq<Thread>): nat {
    if ts == [] then 0 else Announced(ts[..|ts| - 1]) + (if IsAnnounced(ts[|ts| - 1].pc) then 1 else 0)
  }

  predicate IsAnnounced(pc: Pc) {
    pc.LkCas? || pc.LkWait? || pc.LkBlocked? || pc.LkWake? || pc.LkExpired? || pc.LkLastCas? || pc.LkRetire?
  }

  predicate InMutex(pc: Pc) {
    || pc.LkAnnounce? || pc.LkCas? || pc.LkWait? || pc.LkLastCas? || pc.LkRetire? || pc.LkRelease?
    || pc.TlCas? || pc.TlRelease? || pc.UnNotify? || pc.UnRelease? || pc.UsNotify? || pc.UsRelease?
    || pc.ShCheck? || pc.ShWait? || pc.ShLastCheck? || pc.ShAdd? || pc.ShRelease?
  }

  /** Asleep for the word to become 0, or committed to falling asleep. */
  predicate WriterSleeps(pc: Pc) {
    pc.LkWait? || pc.LkBlocked?
  }

  predicate ReaderSleeps(pc: Pc) {
    pc.ShWait? || pc.ShBlocked?
  }

  /** Certain to notify everyone. */
  predicate WillNotify(pc: Pc) {
    pc.UnMutex? || pc.UnNotify? || pc.UsMutex? || pc.UsNotify?
  }

  /** Certain to notify everyone as long as some writer is announced. */
  predicate WillNotifyWriters(pc: Pc) {
    WillNotify(pc) || pc.UsLoad?
  }

  /** In the middle of an exclusive acquisition that has not succeeded. */
  predicate WantsWrite(pc: Pc) {
    || pc.LkMutex? || pc.LkAnnounce? || pc.LkCas? || pc.LkWait? || pc.LkBlocked? || pc.LkWake? || pc.LkExpired?
    || pc.LkLastCas? || pc.TlMutex? || pc.TlCas?
  }

  /** On the slow path of a shared acquisition, not yet counted. */
  predicate SlowRead(pc: Pc) {
    || pc.ShMutex? || pc.ShCheck? || pc.ShWait? || pc.ShBlocked? || pc.ShWake? || pc.ShExpired? || pc.ShLastCheck?
      || pc.ShAdd?
  }

  /** What a thread's position says about its holds and the word. A thread that already reads is
      never on the slow path. */
  predicate ThreadOk(word: nat, th: Thread) {
    && (WantsWrite(th.pc) ==> th.shares == 0 && !th.owns)
    && (SlowRead(th.pc) ==> th.shares == 0 && !th.owns)
    && (th.pc.ShLoad? || th.pc.ShCas? ==> !th.owns)
    && (th.pc.ShCas? ==> th.pc.cur < WRITER_BIT)
    && (th.pc.ShAdd? ==> word < WRITER_BIT)
    && (WillNotifyWriters(th.pc) ==> !th.owns)
  }

  /** Exact accounting, with mutual exclusion. */
  predicate WordOk(s: State) {
    && s.word == WRITER_BIT * Writers(s.threads) + Readers(s.threads)
    && Writers(s.threads) <= 1 && Readers(s.threads) < WRITER_BIT
    && (Writers(s.threads) == 1 ==> Readers(s.threads) == 0)
  }

  predicate MutexOk(s: State) {
    && (s.mtx.Some? ==> s.mtx.value < |s.threads|)
    && forall t | 0 <= t < |s.threads| :: InMutex(s.threads[t].pc) <==> s.mtx == Some(t)
  }

  predicate SomeWriterSleeps(ts: seq<Thread>) {
    exists t | 0 <= t < |ts| :: WriterSleeps(ts[t].pc)
  }

  predicate SomeReaderSleeps(ts: seq<Thread>) {
    exists t | 0 <= t < |ts| :: ReaderSleeps(ts[t].pc)
  }

  predicate SomeWillNotify(ts: seq<Thread>) {
    exists t | 0 <= t < |ts| :: WillNotify(ts[t].pc)
  }

  predicate SomeWillNotifyWriters(ts: seq<Thread>) {
    exists t | 0 <= t < |ts| :: WillNotifyWriters(ts[t].pc)
  }

  /** No lost wakeup. */
  predicate WakeupOk(s: State) {
    && (s.word == 0 && SomeWriterSleeps(s.threads) ==> SomeWillNotifyWriters(s.threads))
    && (s.word < WRITER_BIT && SomeReaderSleeps(s.threads) ==> SomeWillNotify(s.threads))
  }

  /** The number of threads announced fits the counter, and the live readers stay below 2^31: the
      assumptions on the size of a run. */
  predicate Small(s: State) {
    |s.threads| < WORDS && Readers(s.threads) < WRITER_BIT
  }

  predicate Inv(s: State) {
    && |s.threads| < WORDS && WordOk(s) && s.waiting == Announced(s.threads) && MutexOk(s) && WakeupOk(s)
    && forall t | 0 <= t < |s.threads| :: ThreadOk(s.word, s.threads[t])
  }

  // ----- sums over the threads -----

  lemma {:induction false} ReadersUpdate(ts: seq<Thread>, t: nat, x: Thread)
    requires t < |ts|
    ensures Readers(ts[t := x]) == Readers(ts) - ts[t].shares + x.shares && ts[t].shares <= Readers(ts)
    decreases |ts|
  {
    var n := |ts| - 1;
    if t < n {
      ReadersUpdate(ts[..n], t, x);
      assert ts[t := x][..n] == ts[..n][t := x];
    } else {
      assert ts[t := x][..n] == ts[..n];
    }
  }

  lemma {:induction false} WritersUpdate(ts: seq<Thread>, t: nat, x: Thread)
    requires t < |ts|
    ensures Writers(ts[t := x]) == Writers(ts) - B2N(ts[t].owns) + B2N(x.owns) && B2N(ts[t].owns) <= Writers(ts)
    decreases |ts|
  {
    var n := |ts| - 1;
    if t < n {
      WritersUpdate(ts[..n], t, x);
      assert ts[t := x][..n] == ts[..n][t := x];
    } else {
      assert ts[t := x][..n] == ts[..n];
    }
  }

  lemma {:induction false} AnnouncedUpdate(ts: seq<Thread>, t: nat, x: Thread)
    requires t < |ts|
    ensures Announced(ts[t := x]) == Announced(ts) - B2N(IsAnnounced(ts[t].pc)) + B2N(IsAnnounced(x.pc))
    ensures B2N(IsAnnounced(ts[t].pc)) <= Announced(ts) <= |ts|
    decreases |ts|
  {
    hide IsAnnounced;
    var n := |ts| - 1;
    AnnouncedBound(ts);
    if t < n {
      AnnouncedUpdate(ts[..n], t, x);
      assert ts[t := x][..n] == ts[..n][t := x];
    } else {
      assert ts[t := x][..n] == ts[..n];
    }
  }

  lemma {:induction false} AnnouncedBound(ts: seq<Thread>)
    ensures Announced(ts) <= |ts|
    decreases |ts|
  {
    if ts != [] {
      AnnouncedBound(ts[..|ts| - 1]);
    }
  }

  function B2N(b: bool): (n: nat)
    ensures n <= 1
  {
    if b then 1 else 0
  }

  // ----- the actions that are not notifications -----

  /** What every action other than a notification does, seen from the thread that takes it. */
  predicate Legal(s: State, s': State, t: nat) {
    && t < |s.threads| && |s'.threads| == |s.threads| && s'.threads == s.threads[t := s'.threads[t]]
    && LegalWord(s, s', s.threads[t], s'.threads[t])
    && s'.waiting == s.waiting - B2N(IsAnnounced(s.threads[t].pc)) + B2N(IsAnnounced(s'.threads[t].pc))
    && LegalMutex(s, s', t, s.threads[t].pc, s'.threads[t].pc)
    && ThreadOk(s'.word, s'.threads[t])
    && LegalWake(s, s', s.threads[t].pc, s'.threads[t].pc)
  }

  predicate LegalWord(s: State, s': State, a: Thread, b: Thread) {
    && s'.word == s.word - a.shares + b.shares - WRITER_BIT * B2N(a.owns) + WRITER_BIT * B2N(b.owns)
    && (a.owns != b.owns ==> a.shares == b.shares)
    && (!a.owns && b.owns ==> s.word == 0 && InMutex(a.pc))
    && (b.shares > a.shares ==> s.word < WRITER_BIT)
  }

  predicate LegalMutex(s: State, s': State, t: nat, a: Pc, b: Pc) {
    || (InMutex(a) == InMutex(b) && s'.mtx == s.mtx)
    || (!InMutex(a) && InMutex(b) && s.mtx == None && s'.mtx == Some(t))
    || (InMutex(a) && !InMutex(b) && s'.mtx == None)
  }

  predicate LegalWake(s: State, s': State, a: Pc, b: Pc) {
    && (WriterSleeps(b) ==> WriterSleeps(a) || s'.word != 0)
    && (ReaderSleeps(b) ==> ReaderSleeps(a) || s'.word >= WRITER_BIT)
    && (s'.word == 0 && s.word != 0 ==> WillNotifyWriters(b))
    && (s'.word < WRITER_BIT && s.word >= WRITER_BIT ==> WillNotify(b))
    && (WillNotify(a) ==> WillNotify(b))
    && (WillNotifyWriters(a) ==> WillNotifyWriters(b) || s.waiting == 0)
  }

  lemma LegalKeepsWord(s: State, s': State, t: nat)
    requires Legal(s, s', t) && WordOk(s) && Small(s')
    ensures WordOk(s')
  {
    hide InMutex, ThreadOk, LegalMutex, LegalWake, IsAnnounced;
    ReadersUpdate(s.threads, t, s'.threads[t]);
    WritersUpdate(s.threads, t, s'.threads[t]);
  }

  lemma LegalKeepsWaiting(s: State, s': State, t: nat)
    requires Legal(s, s', t) && s.waiting == Announced(s.threads)
    ensures s'.waiting == Announced(s'.threads)
  {
    hide IsAnnounced;
    AnnouncedUpdate(s.threads, t, s'.threads[t]);
  }

  lemma LegalKeepsMutex(s: State, s': State, t: nat)
    requires Legal(s, s', t) && MutexOk(s)
    ensures MutexOk(s')
  {
    hide InMutex, ThreadOk, LegalWord, LegalWake, IsAnnounced;
    assert InMutex(s.threads[t].pc) <==> s.mtx == Some(t);
  }

  lemma LegalKeepsThreads(s: State, s': State, t: nat, u: nat)
    requires Legal(s, s', t) && Inv(s) && WordOk(s') && u < |s.threads|
    ensures ThreadOk(s'.word, s'.threads[u])
  {
    if u != t && s.threads[u].pc.ShAdd? {
      assert ThreadOk(s.word, s.threads[u]);
      assert InMutex(s.threads[u].pc);
      assert InMutex(s.threads[u].pc) <==> s.mtx == Some(u);
      assert InMutex(s.threads[t].pc) <==> s.mtx == Some(t);
      WritersUpdate(s.threads, t, s'.threads[t]);
    } else if u != t {
      assert ThreadOk(s.word, s.threads[u]);
    }
  }

  lemma {:induction false} SleeperIsAnnounced(ts: seq<Thread>, t: nat)
    requires t < |ts| && WriterSleeps(ts[t].pc)
    ensures Announced(ts) >= 1
  {
    AnnouncedUpdate(ts, t, ts[t]);
  }

  lemma LegalKeepsWriterWakeup(s: State, s': State, t: nat)
    requires Legal(s, s', t) && Inv(s)
    requires s'.word == 0 && SomeWriterSleeps(s'.threads)
    ensures SomeWillNotifyWriters(s'.threads)
  {
    hide InMutex, ThreadOk, LegalWord, LegalMutex, IsAnnounced, WriterSleeps, ReaderSleeps, WillNotify,
      WillNotifyWriters;
    hide WordOk, MutexOk, Readers, Writers, Announced;
    var i :| 0 <= i < |s'.threads| && WriterSleeps(s'.threads[i].pc);
    if s.word != 0 {
      assert WillNotifyWriters(s'.threads[t].pc);
    } else {
      assert WriterSleeps(s.threads[i].pc);
      SleeperIsAnnounced(s.threads, i);
      assert SomeWriterSleeps(s.threads);
      var u :| 0 <= u < |s.threads| && WillNotifyWriters(s.threads[u].pc);
      assert WillNotifyWriters(s'.threads[u].pc);
    }
  }

  lemma LegalKeepsReaderWakeup(s: State, s': State, t: nat)
    requires Legal(s, s', t) && Inv(s)
    requires s'.word < WRITER_BIT && SomeReaderSleeps(s'.threads)
    ensures SomeWillNotify(s'.threads)
  {
    hide InMutex, ThreadOk, LegalWord, LegalMutex, IsAnnounced, WriterSleeps, ReaderSleeps, WillNotify,
      WillNotifyWriters;
    hide WordOk, MutexOk, Readers, Writers, Announced;
    var i :| 0 <= i < |s'.threads| && ReaderSleeps(s'.threads[i].pc);
    if s.word >= WRITER_BIT {
      assert WillNotify(s'.threads[t].pc);
    } else {
      assert ReaderSleeps(s.threads[i].pc);
      assert SomeReaderSleeps(s.threads);
      var u :| 0 <= u < |s.threads| && WillNotify(s.threads[u].pc);
      assert WillNotify(s'.threads[u].pc);
    }
  }

  lemma LegalKeepsInv(s: State, s': State, t: nat)
    requires Legal(s, s', t) && Inv(s) && Small(s')
    ensures Inv(s')
  {
    hide ThreadOk, MutexOk, WordOk, Legal;
    LegalKeepsWord(s, s', t);
    LegalKeepsWaiting(s, s', t);
    LegalKeepsMutex(s, s', t);
    LegalShape(s, s', t);
    forall u | 0 <= u < |s'.threads|
      ensures ThreadOk(s'.word, s'.threads[u])
    {
      LegalKeepsThreads(s, s', t, u);
    }
    if s'.word == 0 && SomeWriterSleeps(s'.threads) {
      LegalKeepsWriterWakeup(s, s', t);
    }
    if s'.word < WRITER_BIT && SomeReaderSleeps(s'.threads) {
      LegalKeepsReaderWakeup(s, s', t);
    }
  }

  lemma LegalShape(s: State, s': State, t: nat)
    requires Legal(s, s', t)
    ensures |s'.threads| == |s.threads|
  {
  }

  /** What the accounting says to a thread about the word. */
  lemma WordFacts(s: State, t: nat)
    requires Inv(s) && t < |s.threads|
    ensures s.word <= WRITER_BIT && (HasWriter(s.word) <==> s.word == WRITER_BIT)
    ensures s.threads[t].owns ==> s.word == WRITER_BIT
    ensures s.threads[t].shares > 0 ==> 0 < s.word < WRITER_BIT && !s.threads[t].owns
    ensures ThreadOk(s.word, s.threads[t])
    ensures InMutex(s.threads[t].pc) <==> s.mtx == Some(t)
  {
    hide ThreadOk, InMutex, WakeupOk, IsAnnounced;
    ReadersUpdate(s.threads, t, s.threads[t]);
    WritersUpdate(s.threads, t, s.threads[t]);
  }

  lemma WaitingFacts(s: State, t: nat)
    requires Inv(s) && t < |s.threads|
    ensures IsAnnounced(s.threads[t].pc) ==> 0 < s.waiting < WORDS
    ensures !IsAnnounced(s.threads[t].pc) ==> s.waiting + 1 < WORDS
  {
    hide ThreadOk, InMutex, WakeupOk, IsAnnounced;
    AnnouncedUpdate(s.threads, t, s.threads[t]);
    if !IsAnnounced(s.threads[t].pc) {
      var x := s.threads[t].(pc := LkRetire);
      assert IsAnnounced(LkRetire) by { OneIsAnnounced(); }
      AnnouncedUpdate(s.threads, t, x);
      AnnouncedBound(s.threads[t := x]);
    }
  }

  lemma OneIsAnnounced()
    ensures IsAnnounced(LkRetire)
  {
  }

  lemma StartIsLegal(s: State, t: nat, op: Op)
    requires Inv(s) && t < |s.threads| && s.threads[t].pc == Idle && Start(s, t, op).Some?
    ensures Legal(s, Start(s, t, op).value, t)
  {
    hide Inv, Start, Legal;
    if op == Unlock || op == UnlockShared {
      ReleaseIsLegal(s, t, op);
    } else {
      AcquireIsLegal(s, t, op);
    }
  }

  lemma ReleaseIsLegal(s: State, t: nat, op: Op)
    requires Inv(s) && t < |s.threads| && s.threads[t].pc == Idle && Start(s, t, op).Some?
    requires op == Unlock || op == UnlockShared
    ensures Legal(s, Start(s, t, op).value, t)
  {
    hide WordOk, MutexOk, WakeupOk, Readers, Writers, Announced;
    WordFacts(s, t);
  }

  lemma AcquireIsLegal(s: State, t: nat, op: Op)
    requires Inv(s) && t < |s.threads| && s.threads[t].pc == Idle && Start(s, t, op).Some?
    requires op != Unlock && op != UnlockShared
    ensures Legal(s, Start(s, t, op).value, t)
  {
    hide WordOk, MutexOk, WakeupOk, Readers, Writers, Announced;
    WordFacts(s, t);
  }

  lemma RunLockIsLegal(s: State, t: nat)
    requires Inv(s) && t < |s.threads| && RunLock(s, t).Some?
    ensures Legal(s, RunLock(s, t).value, t)
  {
    hide Inv, RunLock, Legal;
    if s.threads[t].pc.LkCas? || s.threads[t].pc.LkLastCas? {
      CasIsLegal(s, t);
    } else {
      RunAroundIsLegal(s, t);
    }
  }

  lemma CasIsLegal(s: State, t: nat)
    requires Inv(s) && t < |s.threads| && (s.threads[t].pc.LkCas? || s.threads[t].pc.LkLastCas?)
    ensures RunLock(s, t).Some? && Legal(s, RunLock(s, t).value, t)
  {
    hide WordOk, MutexOk, WakeupOk, Readers, Writers, Announced;
    WordFacts(s, t);
    WaitingFacts(s, t);
  }

  lemma RunAroundIsLegal(s: State, t: nat)
    requires Inv(s) && t < |s.threads| && RunLock(s, t).Some? && !s.threads[t].pc.LkCas? && !s.threads[t].pc.LkLastCas?
    ensures Legal(s, RunLock(s, t).value, t)
  {
    hide WordOk, MutexOk, WakeupOk, Readers, Writers, Announced;
    WordFacts(s, t);
    WaitingFacts(s, t);
  }

  lemma RunOtherIsLegal(s: State, t: nat)
    requires Inv(s) && t < |s.threads| && RunOther(s, t).Some?
    requires !s.threads[t].pc.UnNotify? && !s.threads[t].pc.UsNotify?
    ensures Legal(s, RunOther(s, t).value, t)
  {
    hide WordOk, MutexOk, WakeupOk, Readers, Writers, Announced;
    WordFacts(s, t);
  }

  lemma RunSharedIsLegal(s: State, t: nat)
    requires Inv(s) && t < |s.threads| && RunShared(s, t).Some?
    ensures Legal(s, RunShared(s, t).value, t)
  {
    hide Inv, RunShared, Legal;
    if s.threads[t].pc.ShLoad? || s.threads[t].pc.ShCas? {
      FastReadIsLegal(s, t);
    } else {
      SlowReadIsLegal(s, t);
    }
  }

  lemma FastReadIsLegal(s: State, t: nat)
    requires Inv(s) && t < |s.threads| && (s.threads[t].pc.ShLoad? || s.threads[t].pc.ShCas?)
    ensures RunShared(s, t).Some? && Legal(s, RunShared(s, t).value, t)
  {
    hide WordOk, MutexOk, WakeupOk, Readers, Writers, Announced;
    WordFacts(s, t);
  }

  lemma SlowReadIsLegal(s: State, t: nat)
    requires Inv(s) && t < |s.threads| && RunShared(s, t).Some? && !s.threads[t].pc.ShLoad? && !s.threads[t].pc.ShCas?
    ensures Legal(s, RunShared(s, t).value, t)
  {
    hide WordOk, MutexOk, WakeupOk, Readers, Writers, Announced;
    WordFacts(s, t);
  }

  lemma DisturbanceIsLegal(s: State, t: nat, e: Event)
    requires Inv(s) && t < |s.threads| && Next(s, t, e).Some?
    requires e.SpuriousWake? || e.Deadline? || (e.WeakFailure? && !s.threads[t].pc.LkCas?)
    ensures Legal(s, Next(s, t, e).value, t)
  {
    hide WordOk, MutexOk, WakeupOk, Readers, Writers, Announced;
    WordFacts(s, t);
  }

  // ----- notifications -----

  lemma {:induction false} WakeAllKeepsSums(ts: seq<Thread>)
    ensures Readers(WakeAll(ts)) == Readers(ts) && Writers(WakeAll(ts)) == Writers(ts)
      && Announced(WakeAll(ts)) == Announced(ts)
    decreases |ts|
  {
    if ts != [] {
      var n := |ts| - 1;
      WakeAllKeepsSums(ts[..n]);
      assert WakeAll(ts)[..n] == WakeAll(ts[..n]);
    }
  }

  lemma NotifyKeepsSums(s: State, t: nat, pc: Pc)
    requires t < |s.threads| && !IsAnnounced(s.threads[t].pc) && !IsAnnounced(pc)
    requires !s.threads[t].pc.LkBlocked? && !s.threads[t].pc.ShBlocked?
    ensures var ts := NotifyAll(s, t, pc).threads;
            Readers(ts) == Readers(s.threads) && Writers(ts) == Writers(s.threads)
              && Announced(ts) == Announced(s.threads)
  {
    var w := WakeAll(s.threads);
    var x := w[t].(pc := pc);
    WakeAllKeepsSums(s.threads);
    ReadersUpdate(w, t, x);
    WritersUpdate(w, t, x);
    AnnouncedUpdate(w, t, x);
  }

  /** After a notification nobody sleeps: those about to sleep would hold the mutex. */
  lemma NobodySleeps(s: State, t: nat, pc: Pc, u: nat)
    requires Inv(s) && t < |s.threads| && s.mtx == Some(t) && u < |s.threads| && !WriterSleeps(pc) && !ReaderSleeps(pc)
    ensures var th := NotifyAll(s, t, pc).threads[u]; !WriterSleeps(th.pc) && !ReaderSleeps(th.pc)
  {
    hide WordOk, WakeupOk, ThreadOk, Readers, Writers, Announced;
    assert InMutex(s.threads[u].pc) <==> s.mtx == Some(u);
  }

  lemma NotifyKeepsThread(s: State, t: nat, pc: Pc, u: nat)
    requires Inv(s) && t < |s.threads| && u < |s.threads|
    requires (s.threads[t].pc.UnNotify? && pc.UnRelease?) || (s.threads[t].pc.UsNotify? && pc.UsRelease?)
    ensures var th := NotifyAll(s, t, pc).threads[u];
            ThreadOk(s.word, th) && InMutex(th.pc) == InMutex(s.threads[u].pc)
  {
    hide WordOk, MutexOk, WakeupOk, Readers, Writers, Announced;
    assert ThreadOk(s.word, s.threads[u]);
  }

  lemma NotifyKeepsInv(s: State, t: nat, pc: Pc)
    requires Inv(s) && t < |s.threads|
    requires (s.threads[t].pc.UnNotify? && pc.UnRelease?) || (s.threads[t].pc.UsNotify? && pc.UsRelease?)
    ensures Inv(NotifyAll(s, t, pc))
  {
    hide ThreadOk, Readers, Writers, Announced, WriterSleeps, ReaderSleeps, WillNotify, WillNotifyWriters, NotifyAll;
    var s' := NotifyAll(s, t, pc);
    NotifyShape(s, t, pc);
    NotifyKeepsSums(s, t, pc);
    WordFacts(s, t);
    NoSleep(pc);
    forall u | 0 <= u < |s'.threads|
      ensures ThreadOk(s'.word, s'.threads[u]) && (InMutex(s'.threads[u].pc) <==> s'.mtx == Some(u))
      ensures !WriterSleeps(s'.threads[u].pc) && !ReaderSleeps(s'.threads[u].pc)
    {
      NobodySleeps(s, t, pc, u);
      NotifyKeepsThread(s, t, pc, u);
      assert InMutex(s.threads[u].pc) <==> s.mtx == Some(u);
    }
  }

  lemma NoSleep(pc: Pc)
    requires pc.UnRelease? || pc.UsRelease?
    ensures !WriterSleeps(pc) && !ReaderSleeps(pc)
  {
  }

  lemma NotifyShape(s: State, t: nat, pc: Pc)
    requires t < |s.threads|
    ensures var s' := NotifyAll(s, t, pc);
            |s'.threads| == |s.threads| && s'.word == s.word && s'.waiting == s.waiting && s'.mtx == s.mtx
  {
  }

  // ----- every step, every run -----

  /** The compare-exchange in `lock` fails only when the word is not 0. */
  predicate Strong(s: State, t: nat, e: Event) {
    e.WeakFailure? && t < |s.threads| ==> !s.threads[t].pc.LkCas?
  }

  /** The invariant is kept by every action of every thread, by every spurious wakeup and deadline. */
  lemma StepKeepsInv(s: State, t: nat, e: Event)
    requires Inv(s) && Next(s, t, e).Some? && Strong(s, t, e) && Small(Next(s, t, e).value)
    ensures Inv(Next(s, t, e).value)
  {
    hide Inv, Legal, Small, Start, RunLock, RunOther, RunShared, NotifyAll;
    var s' := Next(s, t, e).value;
    var pc := s.threads[t].pc;
    if e.Call? {
      StartIsLegal(s, t, e.op);
      LegalKeepsInv(s, s', t);
    } else if e.Run? {
      RunKeepsInv(s, t);
    } else {
      DisturbanceIsLegal(s, t, e);
      LegalKeepsInv(s, s', t);
    }
  }

  lemma RunKeepsInv(s: State, t: nat)
    requires Inv(s) && t < |s.threads| && RunPc(s, t).Some? && Small(RunPc(s, t).value)
    ensures Inv(RunPc(s, t).value)
  {
    hide Inv, Legal, Small, RunLock, RunShared, NotifyAll;
    var s' := RunPc(s, t).value;
    var pc := s.threads[t].pc;
    if RunLock(s, t).Some? {
      RunLockIsLegal(s, t);
      LegalKeepsInv(s, s', t);
    } else if RunOther(s, t).Some? {
      if pc.UnNotify? {
        NotifyKeepsInv(s, t, UnRelease);
      } else if pc.UsNotify? {
        NotifyKeepsInv(s, t, UsRelease);
      } else {
        RunOtherIsLegal(s, t);
        LegalKeepsInv(s, s', t);
      }
    } else {
      RunSharedIsLegal(s, t);
      LegalKeepsInv(s, s', t);
    }
  }

  /** Step i of a run: one event of one thread, without a spurious failure in `lock`. */
  predicate StepAt(states: seq<State>, acts: seq<(nat, Event)>, i: nat)
    requires |states| == |acts| + 1 && i < |acts|
  {
    && Next(states[i], acts[i].0, acts[i].1) == Some(states[i + 1])
    && Strong(states[i], acts[i].0, acts[i].1)
    && Small(states[i + 1])
  }

  predicate IsRun(states: seq<State>, acts: seq<(nat, Event)>, n: nat) {
    && |states| == |acts| + 1 && n < WORDS && states[0] == Init(n)
    && forall i | 0 <= i < |acts| :: StepAt(states, acts, i)
  }

  lemma {:induction false} InitSums(n: nat)
    ensures Readers(Init(n).threads) == 0 && Writers(Init(n).threads) == 0 && Announced(Init(n).threads) == 0
  {
    if n > 0 {
      InitSums(n - 1);
      assert Init(n).threads[..n - 1] == Init(n - 1).threads;
    }
  }

  lemma InitIsInv(n: nat)
    requires n < WORDS
    ensures Inv(Init(n))
  {
    InitSums(n);
  }

  /** The invariant holds in every state that any number of threads can reach. */
  lemma {:induction false} RunKeepsInvariant(states: seq<State>, acts: seq<(nat, Event)>, n: nat, i: nat)
    requires IsRun(states, acts, n) && i < |states|
    ensures Inv(states[i])
    decreases i
  {
    hide Inv, Next, Strong, Small, Init;
    if i == 0 {
      InitIsInv(n);
    } else {
      RunKeepsInvariant(states, acts, n, i - 1);
      var j := i - 1;
      assert StepAt(states, acts, j);
      StepKeepsInv(states[j], acts[j].0, acts[j].1);
    }
  }

  // ----- mutual exclusion -----

  /** In every reachable state the word is exactly the holds: the writer bit for a writer that holds
      the lock, plus one for every reader hold; and whoever owns the lock is alone. */
  lemma MutualExclusion(states: seq<State>, acts: seq<(nat, Event)>, n: nat, i: nat, t: nat, u: nat)
    requires IsRun(states, acts, n) && i < |states| && t < |states[i].threads| && u < |states[i].threads| && t != u
    ensures states[i].word == WRITER_BIT * Writers(states[i].threads) + Readers(states[i].threads)
    ensures Writers(states[i].threads) == 0 || (Writers(states[i].threads) == 1 && Readers(states[i].threads) == 0)
    ensures states[i].threads[t].owns ==> !states[i].threads[u].owns && states[i].threads[u].shares == 0
  {
    hide IsRun, Next, MutexOk, WakeupOk, ThreadOk;
    RunKeepsInvariant(states, acts, n, i);
    var s := states[i];
    WordFacts(s, t);
    WordFacts(s, u);
    if s.threads[t].owns && s.threads[u].owns {
      var x := s.threads[t].(owns := false);
      WritersUpdate(s.threads, t, x);
      WritersUpdate(s.threads[t := x], u, s.threads[u]);
    }
  }

  // ----- shared acquisition is recursive -----

  /** A thread that already holds the lock shared never reaches the slow path, whoever waits: each
      of its actions either acquires or finds that the word has changed and tries again. */
  lemma ReentrantNeverBlocks(s: State, t: nat)
    requires Inv(s) && t < |s.threads| && s.threads[t].shares > 0
    ensures !SlowRead(s.threads[t].pc)
    ensures s.threads[t].pc.ShLoad? || s.threads[t].pc.ShCas? ==>
              var s' := Next(s, t, Run);
              s'.Some? && (
                || (s.threads[t].pc == ShCas(s.threads[t].pc.mode, s.word)
                    && s'.value.threads[t] == Thread(Idle, s.threads[t].shares + 1, false, true))
                || (s.threads[t].pc != ShCas(s.threads[t].pc.mode, s.word)
                    && s'.value.threads[t] == s.threads[t].(pc := ShCas(s.threads[t].pc.mode, s.word))
                      && s'.value.word == s.word))
  {
    hide WordOk, MutexOk, WakeupOk;
    WordFacts(s, t);
  }

  /** Undisturbed, three actions take the lock shared once more, even with writers waiting. */
  lemma ReentrantAcquires(s: State, t: nat)
    requires Inv(s) && t < |s.threads| && s.threads[t].shares > 0 && s.threads[t].pc == Idle
    ensures exists s1, s2, s3 ::
              && Next(s, t, Call(LockShared)) == Some(s1) && Next(s1, t, Run) == Some(s2)
                && Next(s2, t, Run) == Some(s3)
              && s3.threads[t] == Thread(Idle, s.threads[t].shares + 1, false, true)
  {
    hide WordOk, MutexOk, WakeupOk;
    WordFacts(s, t);
    var s1 := Next(s, t, Call(LockShared)).value;
    var s2 := Next(s1, t, Run).value;
    var s3 := Next(s2, t, Run).value;
  }

  // ----- progress -----

  predicate CanRun(s: State, t: nat)
    requires t < |s.threads|
  {
    Next(s, t, Run).Some?
  }

  /** No thread in the middle of a call can take its next action. */
  predicate Stuck(s: State) {
    forall t | 0 <= t < |s.threads| :: s.threads[t].pc != Idle ==> !CanRun(s, t)
  }

  lemma MutexHolderCanRun(s: State, t: nat)
    requires t < |s.threads| && InMutex(s.threads[t].pc)
    ensures s.threads[t].pc != Idle && CanRun(s, t)
  {
  }

  lemma AwakeCanRun(s: State, t: nat)
    requires t < |s.threads| && s.mtx == None && s.threads[t].pc != Idle
    requires !s.threads[t].pc.LkBlocked? && !s.threads[t].pc.ShBlocked?
    ensures CanRun(s, t)
  {
  }

  lemma NotifiersAreAwake(pc: Pc)
    requires WillNotifyWriters(pc)
    ensures pc != Idle && !pc.LkBlocked? && !pc.ShBlocked?
  {
  }

  /** When nobody in the middle of a call can act, they all sleep, and rightly so: a sleeping writer
      because the word is not 0, a sleeping reader because the writer bit is set. */
  lemma StuckMeansHeld(s: State, t: nat)
    requires Inv(s) && Stuck(s) && t < |s.threads| && s.threads[t].pc != Idle
    ensures s.mtx == None
    ensures (s.threads[t].pc.LkBlocked? && s.word != 0) || (s.threads[t].pc.ShBlocked? && s.word >= WRITER_BIT)
  {
    hide WordOk, ThreadOk, InMutex, Readers, Writers, Announced, Next, WillNotify, WillNotifyWriters;
    if s.mtx.Some? {
      var h := s.mtx.value;
      assert InMutex(s.threads[h].pc) <==> s.mtx == Some(h);
      MutexHolderCanRun(s, h);
      assert false;
    }
    if !s.threads[t].pc.LkBlocked? && !s.threads[t].pc.ShBlocked? {
      AwakeCanRun(s, t);
      assert false;
    }
    if s.threads[t].pc.LkBlocked? && s.word == 0 {
      assert WriterSleeps(s.threads[t].pc);
      var u :| 0 <= u < |s.threads| && WillNotifyWriters(s.threads[u].pc);
      NotifiersAreAwake(s.threads[u].pc);
      AwakeCanRun(s, u);
      assert false;
    }
    if s.threads[t].pc.ShBlocked? && s.word < WRITER_BIT {
      assert ReaderSleeps(s.threads[t].pc);
      var u :| 0 <= u < |s.threads| && WillNotify(s.threads[u].pc);
      NotifierIsWriterNotifier(s.threads[u].pc);
      NotifiersAreAwake(s.threads[u].pc);
      AwakeCanRun(s, u);
      assert false;
    }
  }

  lemma NotifierIsWriterNotifier(pc: Pc)
    requires WillNotify(pc)
    ensures WillNotifyWriters(pc)
  {
  }

  /** In every reachable state: while nobody holds the lock and some thread is in the middle of a
      call, some thread in the middle of a call can act. No wakeup is ever missing. */
  lemma Progress(states: seq<State>, acts: seq<(nat, Event)>, n: nat, i: nat, t: nat)
    requires IsRun(states, acts, n) && i < |states| && t < |states[i].threads|
    requires states[i].word == 0 && states[i].threads[t].pc != Idle
    ensures exists u | 0 <= u < |states[i].threads| :: states[i].threads[u].pc != Idle && CanRun(states[i], u)
  {
    hide IsRun, Inv, CanRun;
    RunKeepsInvariant(states, acts, n, i);
    if Stuck(states[i]) {
      StuckMeansHeld(states[i], t);
      assert false;
    }
  }

  // ----- the assumption on compare_exchange_weak is needed -----

  /** A single thread without holds, the word free. */
  function One(pc: Pc, waiting: nat, mtx: Option<nat>): State {
    State(0, waiting, mtx, [Thread(pc, 0, false, false)])
  }

  lemma GoOne(pc: Pc, waiting: nat, mtx: Option<nat>, pc': Pc)
    ensures Go(One(pc, waiting, mtx), 0, pc') == One(pc', waiting, mtx)
  {
    assert [Thread(pc, 0, false, false)][0 := Thread(pc', 0, false, false)] == [Thread(pc', 0, false, false)];
  }

  lemma OneStart()
    ensures Init(1) == One(Idle, 0, None)
    ensures Next(One(Idle, 0, None), 0, Call(Lock)) == Some(One(LkMutex(false), 0, None))
    ensures Next(One(LkMutex(false), 0, None), 0, Run) == Some(One(LkAnnounce(false), 0, Some(0)))
  {
    GoOne(Idle, 0, None, LkMutex(false));
    GoOne(LkMutex(false), 0, None, LkAnnounce(false));
    assert Init(1).threads == [Thread(Idle, 0, false, false)];
  }

  lemma OneSleeps()
    ensures Next(One(LkAnnounce(false), 0, Some(0)), 0, Run) == Some(One(LkCas(false), 1, Some(0)))
    ensures Next(One(LkCas(false), 1, Some(0)), 0, WeakFailure) == Some(One(LkWait(false), 1, Some(0)))
    ensures Next(One(LkWait(false), 1, Some(0)), 0, Run) == Some(One(LkBlocked(false), 1, None))
  {
    GoOne(LkAnnounce(false), 0, Some(0), LkCas(false));
    GoOne(LkCas(false), 1, Some(0), LkWait(false));
    GoOne(LkWait(false), 1, Some(0), LkBlocked(false));
  }

  lemma OneIsStuck()
    ensures Stuck(One(LkBlocked(false), 1, None))
  {
  }

  /** The states that follow one another from the initial one under the given events. */
  predicate Reaches(s: State, acts: seq<(nat, Event)>, s': State)
    decreases |acts|
  {
    if acts == [] then s == s'
    else Next(s, acts[0].0, acts[0].1).Some? && Reaches(Next(s, acts[0].0, acts[0].1).value, acts[1..], s')
  }

  lemma ReachesMore(s: State, act: (nat, Event), s1: State, acts: seq<(nat, Event)>, s': State)
    requires Next(s, act.0, act.1) == Some(s1) && Reaches(s1, acts, s')
    ensures Reaches(s, [act] + acts, s')
  {
    hide Next;
    assert ([act] + acts)[1..] == acts;
  }

  /** One thread, and one spurious failure of the compare-exchange in `lock`: the thread sleeps on
      a free lock, and nobody is left to wake it. */
  lemma WeakFailureLosesTheWakeup()
    ensures exists acts, s ::
      && Reaches(Init(1), acts, s) && s.word == 0
      && s.threads == [Thread(LkBlocked(false), 0, false, false)] && Stuck(s)
  {
    hide Next, Init, Stuck, Reaches;
    OneStart();
    OneSleeps();
    OneIsStuck();
    var s0, s1, s2 := One(Idle, 0, None), One(LkMutex(false), 0, None), One(LkAnnounce(false), 0, Some(0));
    var s3, s4, s5 := One(LkCas(false), 1, Some(0)), One(LkWait(false), 1, Some(0)), One(LkBlocked(false), 1, None);
    ReachesNone(s5);
    ReachesMore(s4, (0, Run), s5, [], s5);
    ReachesMore(s3, (0, WeakFailure), s4, [(0, Run)] + [], s5);
    ReachesMore(s2, (0, Run), s3, [(0, WeakFailure)] + ([(0, Run)] + []), s5);
    ReachesMore(s1, (0, Run), s2, [(0, Run)] + ([(0, WeakFailure)] + ([(0, Run)] + [])), s5);
    ReachesMore(s0, (0, Call(Lock)), s1, [(0, Run)] + ([(0, Run)] + ([(0, WeakFailure)] + ([(0, Run)] + []))), s5);
  }

  lemma ReachesNone(s: State)
    ensures Reaches(s, [], s)
  {
  }
}
