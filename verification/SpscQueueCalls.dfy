/** What a whole call of Emplace or Pop does, from the event that starts it to its return, whatever the other
    side does meanwhile. */
module SpscQueueCalls {
  import opened Options
  import opened SpscQueue

  // ----- calls of Emplace -----

  /** The call that event i starts is in progress, or about to return, in every state up to j. */
  ghost predicate InPush<T>(states: seq<State<T>>, events: seq<Event<T>>, data: seq<T>, waits: bool, v: T,
                                  i: nat, j: nat) {
    && IsRun(states, events, data) && i < j < |states| && events[i] == Emplace(waits, v)
    && forall k | i < k <= j :: !states[k].prod.PIdle?
  }

  /** Where a call of Emplace can be: only one that waits comes to the condition variable, and it does not fail. */
  predicate ProdCall<T(==)>(waits: bool, v: T, p: Prod<T>) {
    match p
    case PIdle => false
    case PLoad(w, x) => w == waits && x == v
    case PTry(x, _) => !waits && x == v
    case PLock(x, _) => waits && x == v
    case PCheck(x, _) => waits && x == v
    case PSleep(x, _) => waits && x == v
    case PBlocked(x, _) => waits && x == v
    case PWake(x, _) => waits && x == v
    case PUnlock(x, _) => waits && x == v
    case PStore(x, _) => x == v
    case PInc(x, _) => x == v
    case PNotLock(x) => x == v
    case PNotify(x) => x == v
    case PNotUnlock(x) => x == v
    case PDone(ok, x) => x == v && (waits ==> ok)
  }

  lemma ProdCallStep<T>(s: State<T>, e: Event<T>, waits: bool, v: T)
    requires |s.data| > 0 && Next(s, e).Some? && ProdCall(waits, v, s.prod) && !Next(s, e).value.prod.PIdle?
    ensures ProdCall(waits, v, Next(s, e).value.prod) && Next(s, e).value.pushed0 == s.pushed0
  {
    hide Slot, Diff, Inc;
  }

  /** In some state between i and j the ring was full, or empty. */
  ghost predicate WasFull<T>(states: seq<State<T>>, cap: nat, i: nat, j: nat)
    requires j <= |states|
  {
    exists k | i < k < j :: Held(states[k]) == cap
  }

  ghost predicate WasEmpty<T>(states: seq<State<T>>, i: nat, j: nat)
    requires j <= |states|
  {
    exists k | i < k < j :: Held(states[k]) == 0
  }

  lemma {:induction false} PushKeeps<T>(states: seq<State<T>>, events: seq<Event<T>>, data: seq<T>, cap: nat,
                                        waits: bool, v: T, i: nat, j: nat)
    requires InPush(states, events, data, waits, v, i, j) && IsCapacity(|data|, cap)
    ensures ProdCall(waits, v, states[j].prod) && states[j].pushed0 == states[i].pushed
    ensures states[j].prod.PDone? && !states[j].prod.ok ==> WasFull(states, |data|, i, j)
    decreases j
  {
    hide Next, ProdCall, Inv, IsCapacity;
    var s, e := states[j - 1], events[j - 1];
    assert Next(s, e) == Some(states[j - 1 + 1]);
    if j == i + 1 {
      PushStarts(s, waits, v);
    } else {
      PushKeeps(states, events, data, cap, waits, v, i, j - 1);
      ProdCallStep(s, e, waits, v);
      RunKeepsInv(states, events, data, cap, j - 1);
      GivesUpOnlyWhen(s, |data|, cap, e);
      DoneStays(s, e);
    }
  }

  lemma PushStarts<T>(s: State<T>, waits: bool, v: T)
    requires |s.data| > 0 && Next(s, Emplace(waits, v)).Some?
    ensures var s' := Next(s, Emplace(waits, v)).value;
      ProdCall(waits, v, s'.prod) && s'.pushed0 == s.pushed && !s'.prod.PDone?
  {
  }

  lemma DoneStays<T>(s: State<T>, e: Event<T>)
    requires |s.data| > 0 && Next(s, e).Some?
    ensures s.prod.PDone? && !Next(s, e).value.prod.PIdle? ==> Next(s, e).value.prod == s.prod
    ensures s.cons.CDone? && !Next(s, e).value.cons.CIdle? ==> Next(s, e).value.cons == s.cons
  {
    hide Slot, Diff, Inc;
  }

  /** A call of Emplace that is about to return has pushed its element or nothing. One that waits has always
      pushed it, one that does not only failed to because the ring was full, and never sleeps. */
  lemma PushCall<T>(states: seq<State<T>>, events: seq<Event<T>>, data: seq<T>, cap: nat, waits: bool, v: T,
                    i: nat, j: nat)
    requires InPush(states, events, data, waits, v, i, j) && IsCapacity(|data|, cap)
    ensures var s := states[j];
      && (!waits ==> !s.prod.PBlocked?)
      && (s.prod.PDone? ==>
          && s.pushed == states[i].pushed + (if s.prod.ok then [v] else [])
          && (waits ==> s.prod.ok) && (!s.prod.ok ==> WasFull(states, |data|, i, j)))
  {
    hide Next, Inv, IsCapacity, WasFull;
    PushKeeps(states, events, data, cap, waits, v, i, j);
    CallsMoveOneOrNone(states, events, data, cap, j);
  }

  // ----- calls of Pop -----

  ghost predicate InPop<T>(states: seq<State<T>>, events: seq<Event<T>>, data: seq<T>, mode: Mode, stopped: bool,
                                 i: nat, j: nat) {
    && IsRun(states, events, data) && i < j < |states| && events[i] == Pop(mode, stopped)
    && forall k | i < k <= j :: !states[k].cons.CIdle?
  }

  /** Stop has been requested, at the start of the call or since. */
  ghost predicate Stopped<T>(events: seq<Event<T>>, stopped: bool, i: nat, j: nat)
    requires j <= |events|
  {
    stopped || exists k | i < k < j :: events[k] == Stop
  }

  /** Where a call of Pop can be. Only one with a stop token looks at it, and when stop had been requested
      before it began, it takes nothing. */
  predicate ConsCall<T>(mode: Mode, stopped: bool, stop: bool, c: Cons<T>) {
    && (stopped ==> stop)
    && match c
       case CIdle => false
       case CLoad(m) => m == mode
       case CTry(_) => mode == Try
       case CLock(m, _) => m == mode != Try
       case CCheck(m, _) => m == mode != Try
       case CSleep(m, _) => m == mode != Try
       case CBlocked(m, _) => m == mode != Try
       case CWake(m, _) => m == mode != Try
       case CStop(_) => mode == WaitWithStopToken
       case CQuit => mode == WaitWithStopToken && stop
       case CDone(None) => mode == Try || (mode == WaitWithStopToken && stop)
       case _ => mode == WaitWithStopToken ==> !stopped
  }

  lemma ConsCallStep<T>(s: State<T>, e: Event<T>, mode: Mode, stopped: bool)
    requires |s.data| > 0 && Next(s, e).Some? && ConsCall(mode, stopped, s.stop, s.cons)
    requires !Next(s, e).value.cons.CIdle?
    ensures ConsCall(mode, stopped, Next(s, e).value.stop, Next(s, e).value.cons)
    ensures Next(s, e).value.popped0 == s.popped0 && Next(s, e).value.stop == (s.stop || e == Stop)
  {
    hide Slot, Diff, Inc;
  }

  lemma PopStarts<T>(s: State<T>, mode: Mode, stopped: bool)
    requires |s.data| > 0 && Next(s, Pop(mode, stopped)).Some?
    ensures var s' := Next(s, Pop(mode, stopped)).value;
      ConsCall(mode, stopped, s'.stop, s'.cons) && s'.popped0 == s.popped && !s'.cons.CDone? && s'.stop == stopped
  {
  }

  lemma {:induction false} PopKeeps<T>(states: seq<State<T>>, events: seq<Event<T>>, data: seq<T>, cap: nat, mode: Mode,
                                       stopped: bool, i: nat, j: nat)
    requires InPop(states, events, data, mode, stopped, i, j) && IsCapacity(|data|, cap)
    ensures ConsCall(mode, stopped, states[j].stop, states[j].cons) && states[j].popped0 == states[i].popped
    ensures states[j].stop <==> Stopped(events, stopped, i, j)
    ensures mode == Try && states[j].cons == CDone(None) ==> WasEmpty(states, i, j)
    decreases j
  {
    hide Next, ConsCall, Inv, IsCapacity;
    var s, e := states[j - 1], events[j - 1];
    assert Next(s, e) == Some(states[j - 1 + 1]);
    if j == i + 1 {
      PopStarts(s, mode, stopped);
    } else {
      PopKeeps(states, events, data, cap, mode, stopped, i, j - 1);
      ConsCallStep(s, e, mode, stopped);
      RunKeepsInv(states, events, data, cap, j - 1);
      GivesUpOnlyWhen(s, |data|, cap, e);
      DoneStays(s, e);
      if mode == Try {
        TryNeverQuits(s, mode, stopped);
      }
    }
  }

  lemma TryNeverQuits<T>(s: State<T>, mode: Mode, stopped: bool)
    requires mode != WaitWithStopToken && ConsCall(mode, stopped, s.stop, s.cons)
    ensures !s.cons.CQuit?
  {
  }

  /** A call of Pop that is about to return has popped what it returns, or nothing. One that just waits has
      always popped something; one with a stop token only failed to because stop was requested, and always
      fails when it had been requested before; one that does not wait only failed to because the ring was
      empty, and never sleeps. */
  lemma PopCall<T>(states: seq<State<T>>, events: seq<Event<T>>, data: seq<T>, cap: nat, mode: Mode, stopped: bool,
                   i: nat, j: nat)
    requires InPop(states, events, data, mode, stopped, i, j) && IsCapacity(|data|, cap)
    ensures var s := states[j];
      && (mode == Try ==> !s.cons.CBlocked?)
      && (s.cons.CDone? ==>
          && s.popped == states[i].popped + (if s.cons.res.Some? then [s.cons.res.value] else [])
          && (mode == Wait ==> s.cons.res.Some?)
          && (mode == Try && s.cons.res == None ==> WasEmpty(states, i, j))
          && (mode == WaitWithStopToken && s.cons.res == None ==> Stopped(events, stopped, i, j))
          && (mode == WaitWithStopToken && stopped ==> s.cons.res == None))
  {
    hide Next, Inv, IsCapacity, WasEmpty, Stopped;
    PopKeeps(states, events, data, cap, mode, stopped, i, j);
    CallsMoveOneOrNone(states, events, data, cap, j);
  }

  // ----- no call runs on for ever -----

  /** How many more actions a call can take before it sleeps or is about to return. */
  function LeftP<T>(p: Prod<T>): nat {
    match p
    case PIdle => 0
    case PLoad(_, _) => 11
    case PTry(_, _) => 7
    case PLock(_, _) => 10
    case PWake(_, _) => 10
    case PCheck(_, _) => 9
    case PSleep(_, _) => 1
    case PBlocked(_, _) => 0
    case PUnlock(_, _) => 8
    case PStore(_, _) => 6
    case PInc(_, _) => 5
    case PNotLock(_) => 4
    case PNotify(_) => 3
    case PNotUnlock(_) => 2
    case PDone(_, _) => 1
  }

  /** A wait with a stop token does not fall asleep once stop is requested. */
  function LeftC<T>(c: Cons<T>, stop: bool): nat {
    match c
    case CIdle => 0
    case CLoad(_) => 13
    case CTry(_) => 7
    case CLock(_, _) => 12
    case CWake(_, _) => 12
    case CCheck(_, _) => 11
    case CSleep(mode, _) => if mode == WaitWithStopToken && stop then 13 else 1
    case CBlocked(_, _) => 0
    case CStop(_) => 10
    case CQuit => 2
    case CUnlock(_) => 8
    case CTake(_) => 6
    case CInc(_, _) => 5
    case CNotLock(_) => 4
    case CNotify(_) => 3
    case CNotUnlock(_) => 2
    case CDone(_) => 1
  }

  /** Every action of a call leaves fewer, and nothing on the other side gives it more, except by waking it. */
  lemma PushGetsOn<T>(s: State<T>, e: Event<T>)
    requires |s.data| > 0 && Next(s, e).Some? && !s.prod.PIdle? && !s.prod.PBlocked?
    ensures e == RunP ==> LeftP(Next(s, e).value.prod) < LeftP(s.prod)
    ensures LeftP(Next(s, e).value.prod) <= LeftP(s.prod)
  {
    hide Slot, Diff, Inc;
  }

  /** Likewise for Pop, as long as stop is not requested. */
  lemma PopGetsOn<T>(s: State<T>, e: Event<T>)
    requires |s.data| > 0 && Next(s, e).Some? && !s.cons.CIdle? && !s.cons.CBlocked? && e != Stop
    ensures e == RunC ==> LeftC(Next(s, e).value.cons, Next(s, e).value.stop) < LeftC(s.cons, s.stop)
    ensures LeftC(Next(s, e).value.cons, Next(s, e).value.stop) <= LeftC(s.cons, s.stop)
  {
    hide Slot, Diff, Inc;
  }

  /** How many of the events from i on, before j, are e. */
  function Times<T(==)>(events: seq<Event<T>>, e: Event<T>, i: nat, j: nat): nat
    requires i <= j <= |events|
  {
    if i == j then 0 else Times(events, e, i, j - 1) + if events[j - 1] == e then 1 else 0
  }

  lemma {:induction false} PushActions<T>(states: seq<State<T>>, events: seq<Event<T>>, data: seq<T>, i: nat, j: nat)
    requires IsRun(states, events, data) && i <= j < |states|
    requires forall k | i <= k < j :: !states[k].prod.PIdle? && !states[k].prod.PBlocked?
    ensures Times(events, RunP, i, j) + LeftP(states[j].prod) <= LeftP(states[i].prod)
    decreases j
  {
    hide Next, LeftP;
    if i < j {
      PushActions(states, events, data, i, j - 1);
      assert Next(states[j - 1], events[j - 1]) == Some(states[j - 1 + 1]);
      PushGetsOn(states[j - 1], events[j - 1]);
    }
  }

  lemma {:induction false} PopActions<T>(states: seq<State<T>>, events: seq<Event<T>>, data: seq<T>, i: nat, j: nat)
    requires IsRun(states, events, data) && i <= j < |states|
    requires forall k | i <= k < j :: !states[k].cons.CIdle? && !states[k].cons.CBlocked? && events[k] != Stop
    ensures Times(events, RunC, i, j) + LeftC(states[j].cons, states[j].stop) <= LeftC(states[i].cons, states[i].stop)
    decreases j
  {
    hide Next, LeftC;
    if i < j {
      PopActions(states, events, data, i, j - 1);
      assert Next(states[j - 1], events[j - 1]) == Some(states[j - 1 + 1]);
      PopGetsOn(states[j - 1], events[j - 1]);
    }
  }

  /** A call takes at most eleven actions, or thirteen, before it sleeps or returns, and as many after every sleep
      and every stop request. */
  lemma FewActions<T>(states: seq<State<T>>, events: seq<Event<T>>, data: seq<T>, i: nat, j: nat)
    requires IsRun(states, events, data) && i <= j < |states|
    ensures (forall k | i <= k < j :: !states[k].prod.PIdle? && !states[k].prod.PBlocked?) ==>
      Times(events, RunP, i, j) <= 11
    ensures (forall k | i <= k < j :: !states[k].cons.CIdle? && !states[k].cons.CBlocked? && events[k] != Stop) ==>
      Times(events, RunC, i, j) <= 13
  {
    hide Next, Times;
    if forall k | i <= k < j :: !states[k].prod.PIdle? && !states[k].prod.PBlocked? {
      PushActions(states, events, data, i, j);
    }
    if forall k | i <= k < j :: !states[k].cons.CIdle? && !states[k].cons.CBlocked? && events[k] != Stop {
      PopActions(states, events, data, i, j);
    }
  }
}
