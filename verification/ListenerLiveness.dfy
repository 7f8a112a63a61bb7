/** stop() always finishes: in every infinite run where threads are scheduled with strong fairness and Python
    code does not keep the GIL forever, each thread inside stop() comes back out of it. */
module ListenerLiveness {
  import opened ListenerProtocol

  // ---------------------------------------------------------------- infinite runs and fairness

  ghost predicate NextAt(run: nat -> State, n: nat) {
    Next(run(n), run(n + 1))
  }

  ghost predicate IsRun(run: nat -> State) {
    Init(run(0)) && forall n: nat :: NextAt(run, n)
  }

  ghost predicate Taken(run: nat -> State, t: Who, n: nat) {
    ThreadStep(run(n), t, run(n + 1))
  }

  ghost predicate EnabledFrom(run: nat -> State, t: Who, n: nat) {
    exists m: nat :: m >= n && Enabled(run(m), t)
  }

  ghost predicate TakenFrom(run: nat -> State, t: Who, n: nat) {
    exists m: nat :: m >= n && Taken(run, t, m)
  }

  /** A thread that can step infinitely often does step infinitely often. */
  ghost predicate StronglyFair(run: nat -> State, t: Who) {
    (forall n: nat :: EnabledFrom(run, t, n)) ==> (forall n: nat :: TakenFrom(run, t, n))
  }

  ghost predicate GilLeavesPythonFrom(run: nat -> State, n: nat) {
    exists m: nat :: m >= n && !run(m).gil.Python?
  }

  ghost predicate Fair(run: nat -> State) {
    && IsRun(run)
    && (forall n: nat :: GilLeavesPythonFrom(run, n))
    && (forall t :: StronglyFair(run, t))
  }

  lemma {:induction false} RunKeepsInv(run: nat -> State, n: nat)
    requires IsRun(run)
    ensures Inv(run(n))
  {
    hide Inv, Next, Init;
    if n == 0 {
      InitIsInv(run(0));
    } else {
      RunKeepsInv(run, n - 1);
      assert NextAt(run, n - 1);
      NextKeepsInv(run(n - 1), run(n));
    }
  }

  /** A thread enabled again and again from n on takes a step at or after n. */
  lemma FairThreadSteps(run: nat -> State, t: Who, n: nat) returns (m: nat)
    requires Fair(run)
    requires forall k: nat :: k >= n ==> EnabledFrom(run, t, k)
    ensures m >= n && Taken(run, t, m)
  {
    forall k: nat ensures EnabledFrom(run, t, k) {
      var l := if k < n then n else k;
      assert EnabledFrom(run, t, l);
    }
    assert StronglyFair(run, t);
    assert TakenFrom(run, t, n);
    m :| m >= n && Taken(run, t, m);
  }

  /** A value that differs at two times changes at a step between them. */
  lemma {:induction false} FirstChange<T>(f: nat -> T, n: nat, m: nat) returns (k: nat)
    requires n <= m && f(n) != f(m)
    ensures n <= k < m && f(k) == f(n) && f(k + 1) != f(n)
    decreases m - n
  {
    if f(m - 1) == f(n) {
      k := m - 1;
    } else {
      k := FirstChange(f, n, m - 1);
    }
  }

  // ---------------------------------------------------------------- who changes what

  /** Every step is a step of a dispatcher, of a thread inside stop(), or leaves locks and callbacks in flight alone. */
  lemma WhoStepped(s: State, s': State) returns (t: Who)
    requires Inv(s) && Next(s, s')
    ensures t == Nobody || ThreadStep(s, t, s')
    ensures t == Nobody ==> s'.mutex == s.mutex && |s'.callbacks| == |s.callbacks|
    ensures t == Nobody ==>
      forall i: nat :: i < |s.callbacks| && s.callbacks[i] != Idle ==> s'.callbacks[i] == s.callbacks[i]
    ensures t == Nobody && !s.accepting ==> s'.callbacks == s.callbacks
  {
    if u :| ThreadStep(s, u, s') {
      t := u;
    } else if j :| PythonStep(s, j, s') {
      t := Nobody;
      PythonStepFrame(s, j, s');
    } else if i :| Arrival(s, i, s') {
      t := Nobody;
    } else {
      t := Nobody;
    }
  }

  /** Each step leaves callback i in flight as it is, or is a step of dispatcher i and goes down. */
  lemma CallbackGoesDown(s: State, s': State, i: nat)
    requires Inv(s) && Next(s, s') && i < |s.callbacks| && s.callbacks[i] != Idle
    ensures |s'.callbacks| == |s.callbacks|
    ensures s'.callbacks[i] != s.callbacks[i] ==>
      Below(CallbackRank(s'.callbacks[i]), HandlerWork(s'.callbacks[i]),
            CallbackRank(s.callbacks[i]), HandlerWork(s.callbacks[i]))
  {
    var t := WhoStepped(s, s');
    if t.Dispatcher? {
      CallbackStepDescends(s, t.i, s');
    } else if t.Python? {
      StopStepDescends(s, t.j, s');
    }
  }

  lemma WhoChangedCallback(s: State, s': State, i: nat)
    requires Inv(s) && Next(s, s') && i < |s.callbacks| && s.callbacks[i] != Idle
    requires |s'.callbacks| == |s.callbacks| && s'.callbacks[i] != s.callbacks[i]
    ensures DispatcherStep(s, i, s')
  {
    var t := WhoStepped(s, s');
    if t.Dispatcher? {
      CallbackStepDescends(s, t.i, s');
    } else if t.Python? {
      StopStepDescends(s, t.j, s');
    }
  }

  lemma StopStepMutex(s: State, j: nat, s': State)
    requires Inv(s) && StopStep(s, j, s')
    ensures s.stopper == Python(j) && s'.callbacks == s.callbacks
    ensures s'.mutex != s.mutex ==> s.threads[j].StopAtLock? || s.mutex == Python(j)
    ensures s'.mutex.Python? && s'.mutex != s.mutex ==> s.threads[j].StopAtLock?
    ensures s'.gil != s.gil ==> s.gil == Nobody
  {
    assert ThreadInv(s, j);
    StopStepDescends(s, j, s');
  }

  lemma PythonStepGil(s: State, j: nat, s': State)
    requires Inv(s) && PythonStep(s, j, s')
    ensures s'.gil != s.gil ==> s.gil == Nobody || s.gil == Python(j)
  {
    assert ThreadInv(s, j);
  }

  /** A dispatcher that lets go of m_mutex leaves it free. */
  lemma MutexHandover(s: State, s': State, i: nat)
    requires Inv(s) && Next(s, s') && s.mutex == Dispatcher(i) && s'.mutex != s.mutex
    ensures s'.mutex == Nobody && DispatcherStep(s, i, s')
  {
    assert CallbackInv(s, i);
    var t := WhoStepped(s, s');
    if t.Dispatcher? {
      assert CallbackInv(s, t.i);
    } else if t.Python? {
      StopStepMutex(s, t.j, s');
    }
  }

  lemma GilHandover(s: State, s': State, i: nat)
    requires Inv(s) && Next(s, s') && s.gil == Dispatcher(i) && s'.gil != s.gil
    ensures s'.gil == Nobody
  {
    assert CallbackInv(s, i);
    if t :| ThreadStep(s, t, s') {
      if t.Dispatcher? {
        assert CallbackInv(s, t.i);
      } else {
        StopStepMutex(s, t.j, s');
      }
    } else if j :| PythonStep(s, j, s') {
      PythonStepGil(s, j, s');
    }
  }

  lemma {:induction false} SizesStay(run: nat -> State, n: nat, m: nat)
    requires IsRun(run) && n <= m
    ensures |run(m).callbacks| == |run(n).callbacks| && |run(m).threads| == |run(n).threads|
    decreases m - n
  {
    if n < m {
      SizesStay(run, n, m - 1);
      RunKeepsInv(run, m - 1);
      assert NextAt(run, m - 1);
      SizesStayOneStep(run(m - 1), run(m));
    }
  }

  lemma SizesStayOneStep(s: State, s': State)
    requires Next(s, s')
    ensures |s'.callbacks| == |s.callbacks| && |s'.threads| == |s.threads|
  {
    if t :| ThreadStep(s, t, s') {
      if t.Dispatcher? {
        CallbackStepDescends(s, t.i, s');
      } else {
        StopStepDescends(s, t.j, s');
      }
    } else if j :| PythonStep(s, j, s') {
      PythonStepFrame(s, j, s');
    }
  }

  // ---------------------------------------------------------------- m_mutex is always released

  function RankAt(s: State, i: nat): nat {
    if i < |s.callbacks| then CallbackRank(s.callbacks[i]) else 0
  }

  function WorkAt(s: State, i: nat): nat {
    if i < |s.callbacks| then HandlerWork(s.callbacks[i]) else 0
  }

  /** A dispatcher holding m_mutex only goes down. */
  lemma {:induction false} HolderGoesDown(run: nat -> State, i: nat, n: nat, m: nat)
    requires IsRun(run) && n <= m
    requires forall k: nat :: n <= k <= m ==> run(k).mutex == Dispatcher(i)
    ensures !Below(RankAt(run(n), i), WorkAt(run(n), i), RankAt(run(m), i), WorkAt(run(m), i))
    decreases m - n
  {
    if n < m {
      HolderGoesDown(run, i, n, m - 1);
      RunKeepsInv(run, m - 1);
      assert run(m - 1).mutex == Dispatcher(i);
      assert CallbackInv(run(m - 1), i);
      assert NextAt(run, m - 1);
      CallbackGoesDown(run(m - 1), run(m), i);
    }
  }

  lemma {:induction false} MutexIsReleased(run: nat -> State, i: nat, n: nat) returns (m: nat)
    requires Fair(run)
    ensures m >= n && run(m).mutex != Dispatcher(i)
    decreases RankAt(run(n), i), WorkAt(run(n), i)
  {
    if p: nat :| p >= n && run(p).mutex != Dispatcher(i) {
      return p;
    }
    forall k: nat | k >= n ensures EnabledFrom(run, Dispatcher(i), k) {
      assert GilLeavesPythonFrom(run, k);
      var q: nat :| q >= k && !run(q).gil.Python?;
      RunKeepsInv(run, q);
      MutexHolderEnabled(run(q), i);
    }
    var p := FairThreadSteps(run, Dispatcher(i), n);
    HolderGoesDown(run, i, n, p);
    CallbackStepDescends(run(p), i, run(p + 1));
    m := MutexIsReleased(run, i, p + 1);
  }

  /** The step at which dispatcher i lets go of m_mutex. */
  lemma MutexReleaseStep(run: nat -> State, i: nat, n: nat) returns (k: nat)
    requires Fair(run) && run(n).mutex == Dispatcher(i)
    ensures k >= n && Taken(run, Dispatcher(i), k) && run(k + 1).mutex == Nobody
  {
    var p := MutexIsReleased(run, i, n);
    k := FirstChange((x: nat) => run(x).mutex, n, p);
    RunKeepsInv(run, k);
    assert NextAt(run, k);
    MutexHandover(run(k), run(k + 1), i);
  }

  // ---------------------------------------------------------------- each wait of stop() ends

  ghost predicate StaysAt(run: nat -> State, j: nat, n: nat, t: Thread) {
    forall k: nat :: k >= n ==> j < |run(k).threads| && run(k).threads[j] == t
  }

  lemma LockGetsFree(run: nat -> State, j: nat, n: nat) returns (m: nat)
    requires Fair(run) && StaysAt(run, j, n, StopAtLock)
    ensures m >= n && run(m).mutex == Nobody
  {
    RunKeepsInv(run, n);
    MutexFreeUnlessStopLocked(run(n), j);
    assert ThreadInv(run(n), j);
    if run(n).mutex.Dispatcher? {
      var k := MutexReleaseStep(run, run(n).mutex.i, n);
      m := k + 1;
    } else {
      m := n;
    }
  }

  lemma HandlerOwnsMutex(s: State, i: nat)
    requires Inv(s)
    ensures s.gil == Dispatcher(i) ==> i < |s.callbacks| && s.mutex == Dispatcher(i)
  {
    if s.gil == Dispatcher(i) {
      assert CallbackInv(s, i);
    }
  }

  /** The step at which dispatcher i lets go of the GIL, some time before it has let go of m_mutex. */
  lemma GilReleaseStep(run: nat -> State, i: nat, p: nat, q: nat) returns (m: nat)
    requires IsRun(run) && p <= q && run(p).gil == Dispatcher(i) && run(q).mutex != Dispatcher(i)
    ensures m >= p && run(m).gil == Nobody
  {
    hide Inv, Next, Init;
    RunKeepsInv(run, q);
    HandlerOwnsMutex(run(q), i);
    var k := FirstChange((x: nat) => run(x).gil, p, q);
    RunKeepsInv(run, k);
    assert NextAt(run, k);
    GilHandover(run(k), run(k + 1), i);
    m := k + 1;
  }

  lemma GilGetsFree(run: nat -> State, n: nat) returns (m: nat)
    requires Fair(run)
    ensures m >= n && run(m).gil == Nobody
  {
    hide IsRun, StronglyFair;
    assert GilLeavesPythonFrom(run, n);
    var p: nat :| p >= n && !run(p).gil.Python?;
    if run(p).gil.Dispatcher? {
      var q := MutexIsReleased(run, run(p).gil.i, p);
      m := GilReleaseStep(run, run(p).gil.i, p, q);
    } else {
      m := p;
    }
  }

  function TotalRank(cs: seq<Callback>): nat {
    if cs == [] then 0 else CallbackRank(cs[0]) + TotalRank(cs[1..])
  }

  function TotalWork(cs: seq<Callback>): nat {
    if cs == [] then 0 else HandlerWork(cs[0]) + TotalWork(cs[1..])
  }

  lemma {:induction false} TotalOfUpdate(cs: seq<Callback>, i: nat, c: Callback)
    requires i < |cs|
    ensures TotalRank(cs[i := c]) == TotalRank(cs) - CallbackRank(cs[i]) + CallbackRank(c)
    ensures TotalWork(cs[i := c]) == TotalWork(cs) - HandlerWork(cs[i]) + HandlerWork(c)
  {
    if i == 0 {
      assert cs[i := c][1..] == cs[1..];
    } else {
      assert cs[i := c][1..] == cs[1..][i - 1 := c];
      TotalOfUpdate(cs[1..], i - 1, c);
    }
  }

  lemma DispatcherStepLowersTotal(s: State, i: nat, s': State)
    requires DispatcherStep(s, i, s')
    ensures Below(TotalRank(s'.callbacks), TotalWork(s'.callbacks), TotalRank(s.callbacks), TotalWork(s.callbacks))
  {
    CallbackStepDescends(s, i, s');
    TotalOfUpdate(s.callbacks, i, s'.callbacks[i]);
  }

  /** While stop() drains the listener nothing arrives, so every step leaves the callbacks or lowers their total. */
  lemma DrainingStep(s: State, j: nat, s': State)
    requires Inv(s) && Next(s, s') && j < |s.threads| && s.threads[j] == StopDraining
    ensures s'.callbacks == s.callbacks ||
            Below(TotalRank(s'.callbacks), TotalWork(s'.callbacks), TotalRank(s.callbacks), TotalWork(s.callbacks))
  {
    assert ThreadInv(s, j);
    var t := WhoStepped(s, s');
    if t.Dispatcher? {
      DispatcherStepLowersTotal(s, t.i, s');
    } else if t.Python? {
      StopStepDescends(s, t.j, s');
    }
  }

  lemma {:induction false} DrainingGoesDown(run: nat -> State, j: nat, n: nat, m: nat)
    requires IsRun(run) && n <= m && StaysAt(run, j, n, StopDraining)
    ensures !Below(TotalRank(run(n).callbacks), TotalWork(run(n).callbacks),
                   TotalRank(run(m).callbacks), TotalWork(run(m).callbacks))
    decreases m - n
  {
    hide Inv, Next, Init, TotalRank, TotalWork;
    if n < m {
      DrainingGoesDown(run, j, n, m - 1);
      RunKeepsInv(run, m - 1);
      assert NextAt(run, m - 1);
      DrainingStep(run(m - 1), j, run(m));
    }
  }

  /** As long as a callback is in flight during the drain, some dispatcher takes a step. */
  lemma DispatcherMustStep(run: nat -> State, j: nat, n: nat) returns (m: nat, i: nat)
    requires Fair(run) && StaysAt(run, j, n, StopDraining) && !AllIdle(run(n))
    ensures m >= n && Taken(run, Dispatcher(i), m)
  {
    RunKeepsInv(run, n);
    MutexFreeUnlessStopLocked(run(n), j);
    assert ThreadInv(run(n), j);
    if run(n).mutex.Dispatcher? {
      i := run(n).mutex.i;
      m := MutexReleaseStep(run, i, n);
      return;
    }
    var a :| 0 <= a < |run(n).callbacks| && run(n).callbacks[a] != Idle;
    i := a;
    assert CallbackInv(run(n), i);
    assert run(n).callbacks[i] == AtLock;
    if p: nat :| p > n && run(p).mutex != Nobody {
      m := FirstChange((x: nat) => run(x).mutex, n, p);
      SizesStay(run, n, m);
      RunKeepsInv(run, m);
      assert NextAt(run, m);
      i := MutexTakenWhileDraining(run(m), j, run(m + 1));
    } else {
      m := LoneWaiterSteps(run, n, i);
    }
  }

  lemma MutexTakenWhileDraining(s: State, j: nat, s': State) returns (i: nat)
    requires Inv(s) && Next(s, s') && j < |s.threads| && s.threads[j] == StopDraining
    requires s.mutex == Nobody && s'.mutex != Nobody
    ensures DispatcherStep(s, i, s')
  {
    assert ThreadInv(s, j);
    var t := WhoStepped(s, s');
    i := if t.Dispatcher? then t.i else 0;
    if t.Python? {
      StopStepMutex(s, t.j, s');
    }
  }

  lemma LoneWaiterSteps(run: nat -> State, n: nat, i: nat) returns (m: nat)
    requires Fair(run) && i < |run(n).callbacks| && run(n).callbacks[i] == AtLock
    requires forall k: nat :: k >= n ==> run(k).mutex == Nobody
    ensures m >= n && Taken(run, Dispatcher(i), m)
  {
    if p: nat :| p > n && i < |run(p).callbacks| && run(p).callbacks[i] != AtLock {
      m := CallbackChangeStep(run, n, p, i);
    } else {
      forall k: nat | k >= n ensures EnabledFrom(run, Dispatcher(i), k) {
        SizesStay(run, n, k);
        assert Enabled(run(k), Dispatcher(i));
      }
      m := FairThreadSteps(run, Dispatcher(i), n);
    }
  }

  /** A callback in flight that differs at a later time was moved by its own dispatcher. */
  lemma {:induction false} CallbackChangeStep(run: nat -> State, n: nat, p: nat, i: nat) returns (k: nat)
    requires IsRun(run) && n <= p && i < |run(n).callbacks| && i < |run(p).callbacks|
    requires run(n).callbacks[i] != Idle && run(p).callbacks[i] != run(n).callbacks[i]
    ensures k >= n && Taken(run, Dispatcher(i), k)
    decreases p - n
  {
    hide Next, StopStep, Inv, Init;
    SizesStay(run, n, p - 1);
    SizesStay(run, p - 1, p);
    if run(p - 1).callbacks[i] == run(n).callbacks[i] {
      k := p - 1;
      CallbackChangedAt(run, k, i);
    } else {
      k := CallbackChangeStep(run, n, p - 1, i);
    }
  }

  lemma CallbackChangedAt(run: nat -> State, k: nat, i: nat)
    requires IsRun(run) && i < |run(k).callbacks| == |run(k + 1).callbacks|
    requires run(k).callbacks[i] != Idle && run(k + 1).callbacks[i] != run(k).callbacks[i]
    ensures Taken(run, Dispatcher(i), k)
  {
    RunKeepsInv(run, k);
    assert NextAt(run, k);
    WhoChangedCallback(run(k), run(k + 1), i);
  }

  lemma {:induction false} DrainEnds(run: nat -> State, j: nat, n: nat) returns (m: nat)
    requires Fair(run) && StaysAt(run, j, n, StopDraining)
    ensures m >= n && AllIdle(run(m))
    decreases TotalRank(run(n).callbacks), TotalWork(run(n).callbacks)
  {
    if AllIdle(run(n)) {
      m := n;
    } else {
      var p, i := DispatcherMustStep(run, j, n);
      DrainingGoesDown(run, j, n, p);
      DispatcherStepLowersTotal(run(p), i, run(p + 1));
      m := DrainEnds(run, j, p + 1);
    }
  }

  // ---------------------------------------------------------------- stop() returns

  /** A thread that stays at one point of stop() can step sooner or later. */
  lemma WaitEnds(run: nat -> State, j: nat, n: nat, t: Thread)
    requires Fair(run) && StaysAt(run, j, n, t) && InStop(t)
    ensures EnabledFrom(run, Python(j), n)
  {
    var m := n;
    if t.StopAtLock? {
      m := LockGetsFree(run, j, n);
    } else if t.StopDraining? {
      m := DrainEnds(run, j, n);
    } else if t.StopAtGil? {
      m := GilGetsFree(run, n);
    }
    assert run(m).threads[j] == t;
    assert Enabled(run(m), Python(j));
  }

  lemma ThreadMovesOn(run: nat -> State, j: nat, n: nat) returns (m: nat)
    requires Fair(run) && j < |run(n).threads| && InStop(run(n).threads[j])
    ensures m > n && j < |run(m).threads| && StopRank(run(m).threads[j]) < StopRank(run(n).threads[j])
    ensures InStop(run(m).threads[j]) || run(m).threads[j] == InPython
  {
    var t := run(n).threads[j];
    if p: nat :| p > n && (j >= |run(p).threads| || run(p).threads[j] != t) {
      SizesStay(run, n, p);
      m := ThreadChangeStep(run, n, p, j);
    } else {
      assert StaysAt(run, j, n, t);
      forall k: nat | k >= n ensures EnabledFrom(run, Python(j), k) {
        WaitEnds(run, j, k, t);
      }
      m := FairThreadSteps(run, Python(j), n);
      StopStepDescends(run(m), j, run(m + 1));
      assert false;
    }
  }

  lemma {:induction false} ThreadChangeStep(run: nat -> State, n: nat, p: nat, j: nat) returns (m: nat)
    requires IsRun(run) && n <= p && j < |run(n).threads| && j < |run(p).threads|
    requires InStop(run(n).threads[j]) && run(p).threads[j] != run(n).threads[j]
    ensures m > n && j < |run(m).threads| && StopRank(run(m).threads[j]) < StopRank(run(n).threads[j])
    ensures InStop(run(m).threads[j]) || run(m).threads[j] == InPython
    decreases p - n
  {
    hide Next, StopStep, Inv, Init;
    SizesStay(run, n, p - 1);
    SizesStay(run, p - 1, p);
    if run(p - 1).threads[j] == run(n).threads[j] {
      m := p;
      assert NextAt(run, p - 1);
      WhoLeftStop(run(p - 1), j, run(p));
      StopStepDescends(run(p - 1), j, run(p));
    } else {
      m := ThreadChangeStep(run, n, p - 1, j);
    }
  }

  /** The main result: every stop() returns. */
  lemma {:induction false} StopReturns(run: nat -> State, j: nat, n: nat) returns (m: nat)
    requires Fair(run) && j < |run(n).threads| && InStop(run(n).threads[j])
    ensures m > n && j < |run(m).threads| && run(m).threads[j] == InPython
    decreases StopRank(run(n).threads[j])
  {
    m := ThreadMovesOn(run, j, n);
    if InStop(run(m).threads[j]) {
      m := StopReturns(run, j, m);
    }
  }

  // ---------------------------------------------------------------- a fair run with a stop() to wait for

  function Snapshot(c: Callback, t: Thread, gil: Who, mutex: Who, terminating: bool, listener: bool, accepting: bool)
    : State
  {
    State([c], [t], gil, mutex, if InStop(t) then Python(0) else Nobody, terminating, listener, accepting,
          if listener || terminating then 1 else 0)
  }

  /** A listener is started and a callback arrives. */
  function Starting(n: nat): State {
    if n == 0 then Snapshot(Idle, Outside, Nobody, Nobody, false, false, false)
    else if n == 1 then Snapshot(Idle, InPython, Python(0), Nobody, false, false, false)
    else if n == 2 then Snapshot(Idle, StartChecked, Python(0), Nobody, false, false, false)
    else if n == 3 then Snapshot(Idle, StartBinding, Python(0), Nobody, false, false, false)
    else if n == 4 then Snapshot(Idle, InPython, Python(0), Nobody, false, true, true)
    else Snapshot(AtLock, InPython, Python(0), Nobody, false, true, true)
  }

  /** stop() is entered, and the callback gets m_mutex first; its handlers give the GIL away once. */
  function Serving(n: nat): State {
    if n <= 6 then Snapshot(AtLock, StopAtLock, Nobody, Nobody, false, true, true)
    else if n == 7 then Snapshot(Locked, StopAtLock, Nobody, Dispatcher(0), false, true, true)
    else if n == 8 then Snapshot(AtGil, StopAtLock, Nobody, Dispatcher(0), false, true, true)
    else if n == 9 then Snapshot(Handling(1), StopAtLock, Dispatcher(0), Dispatcher(0), false, true, true)
    else if n == 10 then Snapshot(Yielded(0), StopAtLock, Nobody, Dispatcher(0), false, true, true)
    else if n == 11 then Snapshot(Handling(0), StopAtLock, Dispatcher(0), Dispatcher(0), false, true, true)
    else if n == 12 then Snapshot(Leaving, StopAtLock, Nobody, Dispatcher(0), false, true, true)
    else Snapshot(Idle, StopAtLock, Nobody, Nobody, false, true, true)
  }

  /** The callback is over, and stop() goes through. */
  function Closing(n: nat): State {
    if n <= 14 then Snapshot(Idle, StopLocked, Nobody, Python(0), false, true, true)
    else if n == 15 then Snapshot(Idle, StopFlagged, Nobody, Python(0), true, true, true)
    else if n == 16 then Snapshot(Idle, StopUnlocked, Nobody, Nobody, true, true, true)
    else if n == 17 then Snapshot(Idle, StopDraining, Nobody, Nobody, true, true, false)
    else if n == 18 then Snapshot(Idle, StopDrained, Nobody, Nobody, true, true, false)
    else if n == 19 then Snapshot(Idle, StopAtGil(1), Nobody, Nobody, true, false, false)
    else if n == 20 then Snapshot(Idle, InPython, Python(0), Nobody, true, false, false)
    else Snapshot(Idle, Outside, Nobody, Nobody, true, false, false)
  }

  function Shutdown(n: nat): State {
    if n <= 5 then Starting(n) else if n <= 13 then Serving(n) else Closing(n)
  }

  lemma StartingSteps(n: nat)
    requires n < 6
    ensures NextAt(Shutdown, n)
  {
    if n == 4 {
      assert Arrival(Shutdown(4), 0, Shutdown(5));
    } else {
      assert PythonStep(Shutdown(n), 0, Shutdown(n + 1));
    }
  }

  lemma ServingSteps(n: nat)
    requires 6 <= n < 13
    ensures NextAt(Shutdown, n)
  {
    var s, s' := Shutdown(n), Shutdown(n + 1);
    assert DispatcherStep(s, 0, s') by {
      if n <= 8 {
        GettingTheGil(n);
      } else {
        GivingItBack(n);
      }
    }
    hide DispatcherStep, Shutdown;
    assert ThreadStep(s, Dispatcher(0), s');
  }

  lemma GettingTheGil(n: nat)
    requires 6 <= n < 9
    ensures DispatcherStep(Shutdown(n), 0, Shutdown(n + 1))
  {
  }

  lemma GivingItBack(n: nat)
    requires 9 <= n < 13
    ensures DispatcherStep(Shutdown(n), 0, Shutdown(n + 1))
  {
  }

  lemma ClosingSteps(n: nat)
    requires 13 <= n < 20
    ensures NextAt(Shutdown, n)
  {
    var s, s' := Shutdown(n), Shutdown(n + 1);
    assert StopStep(s, 0, s') by {
      if n <= 15 {
        RaisingTheFlag(n);
      } else {
        ResettingTheListener(n);
      }
    }
    hide StopStep, Shutdown;
    assert ThreadStep(s, Python(0), s');
  }

  lemma RaisingTheFlag(n: nat)
    requires 13 <= n < 16
    ensures StopStep(Shutdown(n), 0, Shutdown(n + 1))
  {
  }

  lemma ResettingTheListener(n: nat)
    requires 16 <= n < 20
    ensures StopStep(Shutdown(n), 0, Shutdown(n + 1))
  {
  }

  lemma ShutdownIsRun()
    ensures IsRun(Shutdown)
  {
    forall n: nat ensures NextAt(Shutdown, n) {
      if n < 6 {
        StartingSteps(n);
      } else if n < 13 {
        ServingSteps(n);
      } else if n < 20 {
        ClosingSteps(n);
      } else if n == 20 {
        assert PythonStep(Shutdown(20), 0, Shutdown(21));
      }
    }
  }

  /** The premises of StopReturns can be met: a fair run in which stop() has to wait for a callback in flight. */
  lemma FairRunWithPendingStop()
    ensures Fair(Shutdown) && InStop(Shutdown(6).threads[0]) && Shutdown(6).callbacks[0] == AtLock
    ensures Shutdown(9).callbacks[0].Handling? && !Enabled(Shutdown(9), Python(0))
  {
    ShutdownIsRun();
    forall n: nat ensures GilLeavesPythonFrom(Shutdown, n) {
      assert !Shutdown(n + 21).gil.Python?;
    }
    forall t ensures StronglyFair(Shutdown, t) {
      assert !EnabledFrom(Shutdown, t, 21);
    }
  }
}
