/** The shutdown protocol of the indication listener: any number of dispatcher threads inside
    consumeIndication(), any number of Python threads, at most one of them inside stop().
    Every step is one action on the shared state: the GIL, m_mutex, m_terminating, m_listener. */
module ListenerProtocol {

  /** A thread, or nobody: the possible holders of a lock. */
  datatype Who = Nobody | Dispatcher(i: nat) | Python(j: nat)

  /** Where a dispatcher thread is inside consumeIndication(). */
  datatype Callback =
    | Idle                  // no callback in flight
    | AtLock                // entering ScopedMutex
    | Locked                // owns m_mutex, about to test m_terminating
    | AtGil                 // owns m_mutex, saw m_terminating false, entering ScopedGILAcquire
    | Handling(work: nat)   // owns m_mutex and the GIL, running handlers
    | Yielded(work: nat)    // owns m_mutex, the handler gave the GIL away for a while
    | Leaving               // owns m_mutex only, about to unlock and return

  /** Where a Python thread is, as far as the listener can tell. */
  datatype Thread =
    | Outside               // does not hold the GIL
    | InPython              // holds the GIL, runs Python code
    | StartChecked          // start(): saw m_listener null
    | StartBinding          // start(): cleared m_terminating, inside the retry loop
    | StopAtLock            // stop(): saw m_listener, gave the GIL away, entering ScopedMutex
    | StopLocked            // stop(): owns m_mutex
    | StopFlagged           // stop(): owns m_mutex, m_terminating is set
    | StopUnlocked          // stop(): gave m_mutex back
    | StopDraining          // stop(): inside m_listener->stop()
    | StopDrained           // stop(): m_listener->stop() returned
    | StopAtGil(seen: nat)  // stop(): m_listener is null, taking the GIL back; seen = starts at reset

  datatype State = State(
    callbacks: seq<Callback>,
    threads: seq<Thread>,
    gil: Who,
    mutex: Who,
    stopper: Who,       // the thread inside stop(), if any
    terminating: bool,
    listener: bool,     // m_listener is not null
    accepting: bool,    // the Pegasus listener takes new callbacks
    starts: nat)        // history: number of successful start() calls

  // ---------------------------------------------------------------- steps

  predicate InStop(t: Thread) {
    !t.Outside? && !t.InPython? && !t.StartChecked? && !t.StartBinding?
  }

  predicate AllIdle(s: State) {
    forall i :: 0 <= i < |s.callbacks| ==> s.callbacks[i] == Idle
  }

  function SetCallback(s: State, i: nat, c: Callback): State
    requires i < |s.callbacks|
  {
    s.(callbacks := s.callbacks[i := c])
  }

  function SetThread(s: State, j: nat, t: Thread): State
    requires j < |s.threads|
  {
    s.(threads := s.threads[j := t])
  }

  /** One step of dispatcher i inside consumeIndication(). The amount of handler work is chosen when the
      handlers start; each piece of it either runs on or gives the GIL away. */
  ghost predicate DispatcherStep(s: State, i: nat, s': State) {
    && i < |s.callbacks| == |s'.callbacks|
    && match s.callbacks[i]
       case Idle => false
       case AtLock => s.mutex == Nobody && s' == SetCallback(s, i, Locked).(mutex := Dispatcher(i))
       case Locked => s' == SetCallback(s, i, if s.terminating then Leaving else AtGil)
       case AtGil =>
         && s.gil == Nobody
         && s'.callbacks[i].Handling?
         && s' == SetCallback(s, i, s'.callbacks[i]).(gil := Dispatcher(i))
       case Handling(w) =>
         if w == 0 then s' == SetCallback(s, i, Leaving).(gil := Nobody)
         else
           || s' == SetCallback(s, i, Handling(w - 1))
           || s' == SetCallback(s, i, Yielded(w - 1)).(gil := Nobody)
       case Yielded(w) => s.gil == Nobody && s' == SetCallback(s, i, Handling(w)).(gil := Dispatcher(i))
       case Leaving => s' == SetCallback(s, i, Idle).(mutex := Nobody)
  }

  /** One step of Python thread j inside stop(). */
  ghost predicate StopStep(s: State, j: nat, s': State) {
    && j < |s.threads|
    && match s.threads[j]
       case StopAtLock => s.mutex == Nobody && s' == SetThread(s, j, StopLocked).(mutex := Python(j))
       case StopLocked => s' == SetThread(s, j, StopFlagged).(terminating := true)
       case StopFlagged => s' == SetThread(s, j, StopUnlocked).(mutex := Nobody)
       case StopUnlocked => s' == SetThread(s, j, StopDraining).(accepting := false)
       case StopDraining => AllIdle(s) && s' == SetThread(s, j, StopDrained)
       case StopDrained => s' == SetThread(s, j, StopAtGil(s.starts)).(listener := false)
       case StopAtGil(_) => s.gil == Nobody && s' == SetThread(s, j, InPython).(gil := Python(j), stopper := Nobody)
       case _ => false
  }

  /** One step of Python thread j outside stop(): taking and giving the GIL, start(), and the entry of stop(). */
  ghost predicate PythonStep(s: State, j: nat, s': State) {
    && j < |s.threads|
    && match s.threads[j]
       case Outside => s.gil == Nobody && s' == SetThread(s, j, InPython).(gil := Python(j))
       case InPython =>
         || s' == SetThread(s, j, Outside).(gil := Nobody)
         || (!s.listener && s' == SetThread(s, j, StartChecked))
         || (s.listener && s.stopper == Nobody
             && s' == SetThread(s, j, StopAtLock).(gil := Nobody, stopper := Python(j)))
       case StartChecked => s' == SetThread(s, j, StartBinding).(terminating := false)
       case StartBinding =>
         || s' == SetThread(s, j, InPython)
         || s' == SetThread(s, j, InPython).(listener := true, accepting := true, starts := s.starts + 1)
       case _ => false
  }

  /** The Pegasus listener hands an indication to an idle dispatcher. */
  ghost predicate Arrival(s: State, i: nat, s': State) {
    i < |s.callbacks| && s.callbacks[i] == Idle && s.accepting && s' == SetCallback(s, i, AtLock)
  }

  /** A step of one of the threads the shutdown depends on. */
  ghost predicate ThreadStep(s: State, t: Who, s': State) {
    match t
    case Nobody => false
    case Dispatcher(i) => DispatcherStep(s, i, s')
    case Python(j) => StopStep(s, j, s')
  }

  ghost predicate Next(s: State, s': State) {
    || s' == s
    || (exists t :: ThreadStep(s, t, s'))
    || (exists j :: PythonStep(s, j, s'))
    || (exists i :: Arrival(s, i, s'))
  }

  ghost predicate Init(s: State) {
    && AllIdle(s)
    && (forall j :: 0 <= j < |s.threads| ==> s.threads[j] == Outside)
    && s.gil == Nobody && s.mutex == Nobody && s.stopper == Nobody
    && !s.terminating && !s.listener && !s.accepting && s.starts == 0
  }

  // ---------------------------------------------------------------- invariant

  predicate CallbackHasMutex(c: Callback) {
    !c.Idle? && !c.AtLock?
  }

  /** The callback has passed the test of m_terminating and its handlers have not finished. */
  predicate PassedTest(c: Callback) {
    c.AtGil? || c.Handling? || c.Yielded?
  }

  predicate ThreadHasMutex(t: Thread) {
    t.StopLocked? || t.StopFlagged?
  }

  predicate ThreadHasGil(t: Thread) {
    t.InPython? || t.StartChecked? || t.StartBinding?
  }

  /** stop() has not yet reset m_listener. */
  predicate BeforeReset(t: Thread) {
    InStop(t) && !t.StopAtGil?
  }

  predicate AfterFlag(t: Thread) {
    t.StopFlagged? || t.StopUnlocked? || t.StopDraining? || t.StopDrained?
  }

  ghost predicate CallbackInv(s: State, i: nat)
    requires i < |s.callbacks|
  {
    var c := s.callbacks[i];
    && (CallbackHasMutex(c) <==> s.mutex == Dispatcher(i))
    && (c.Handling? <==> s.gil == Dispatcher(i))
    && (s.terminating ==> !PassedTest(c))
    && (!s.listener ==> c.Idle?)
  }

  ghost predicate ThreadInv(s: State, j: nat)
    requires j < |s.threads|
  {
    var t := s.threads[j];
    && (ThreadHasMutex(t) <==> s.mutex == Python(j))
    && (ThreadHasGil(t) <==> s.gil == Python(j))
    && (InStop(t) <==> s.stopper == Python(j))
    && (BeforeReset(t) ==> s.listener)
    && (AfterFlag(t) ==> s.terminating)
    && (t.StopDraining? || t.StopDrained? ==> !s.accepting)
    && (t.StopDrained? ==> AllIdle(s))
    && (t.StartChecked? || t.StartBinding? ==> !s.listener)
    && (t.StopAtGil? ==> t.seen <= s.starts && (t.seen == s.starts ==> !s.listener))
  }

  ghost predicate HoldersExist(s: State) {
    && (s.mutex.Dispatcher? ==> s.mutex.i < |s.callbacks|)
    && (s.mutex.Python? ==> s.mutex.j < |s.threads|)
    && (s.gil.Dispatcher? ==> s.gil.i < |s.callbacks|)
    && (s.gil.Python? ==> s.gil.j < |s.threads|)
    && (s.stopper.Python? ==> s.stopper.j < |s.threads|)
    && !s.stopper.Dispatcher?
  }

  ghost predicate Inv(s: State) {
    && HoldersExist(s)
    && (forall i: nat :: i < |s.callbacks| ==> CallbackInv(s, i))
    && (forall j: nat :: j < |s.threads| ==> ThreadInv(s, j))
    && (s.accepting ==> s.listener)
  }

  /** Which locks a dispatcher holds after its step; nobody else's are touched. */
  lemma DispatcherStepLocks(s: State, i: nat, s': State)
    requires DispatcherStep(s, i, s') && CallbackInv(s, i)
    ensures s'.mutex == if CallbackHasMutex(s'.callbacks[i]) then Dispatcher(i)
                        else if CallbackHasMutex(s.callbacks[i]) then Nobody else s.mutex
    ensures s'.gil == if s'.callbacks[i].Handling? then Dispatcher(i)
                      else if s.callbacks[i].Handling? then Nobody else s.gil
    ensures s'.mutex != s.mutex && s'.mutex == Dispatcher(i) ==> s.mutex == Nobody
    ensures s'.gil != s.gil && s'.gil == Dispatcher(i) ==> s.gil == Nobody
  {
  }

  lemma DispatcherStepRest(s: State, i: nat, s': State)
    requires DispatcherStep(s, i, s') && CallbackInv(s, i)
    ensures s'.stopper == s.stopper && s'.accepting == s.accepting
    ensures s.terminating ==> !PassedTest(s'.callbacks[i])
    ensures s.callbacks[i] != Idle
  {
  }

  lemma DispatcherStepKeepsCallback(s: State, i: nat, s': State, k: nat)
    requires Inv(s) && DispatcherStep(s, i, s') && k < |s'.callbacks|
    ensures CallbackInv(s', k)
  {
    assert CallbackInv(s, i) && CallbackInv(s, k);
    hide Inv, DispatcherStep;
    DispatcherStepFrame(s, i, s');
    DispatcherStepLocks(s, i, s');
    DispatcherStepRest(s, i, s');
  }

  lemma DispatcherStepKeepsThread(s: State, i: nat, s': State, j: nat)
    requires Inv(s) && DispatcherStep(s, i, s') && j < |s'.threads|
    ensures ThreadInv(s', j)
  {
    assert CallbackInv(s, i);
    DispatcherStepFrame(s, i, s');
    DispatcherStepLocks(s, i, s');
    DispatcherStepRest(s, i, s');
    assert ThreadInv(s, j);
    hide Inv, DispatcherStep, CallbackInv, CallbackHasMutex, PassedTest;
  }

  lemma DispatcherStepKeepsHolders(s: State, i: nat, s': State)
    requires Inv(s) && DispatcherStep(s, i, s')
    ensures HoldersExist(s') && (s'.accepting ==> s'.listener)
  {
    assert CallbackInv(s, i);
    DispatcherStepFrame(s, i, s');
    DispatcherStepLocks(s, i, s');
    DispatcherStepRest(s, i, s');
    hide DispatcherStep, CallbackInv, CallbackHasMutex, PassedTest;
  }

  lemma DispatcherStepKeepsInv(s: State, i: nat, s': State)
    requires Inv(s) && DispatcherStep(s, i, s')
    ensures Inv(s')
  {
    hide DispatcherStep, CallbackInv, ThreadInv, HoldersExist;
    DispatcherStepKeepsHolders(s, i, s');
    forall k: nat | k < |s'.callbacks| ensures CallbackInv(s', k) {
      DispatcherStepKeepsCallback(s, i, s', k);
    }
    forall j: nat | j < |s'.threads| ensures ThreadInv(s', j) {
      DispatcherStepKeepsThread(s, i, s', j);
    }
  }

  lemma StopStepLocks(s: State, j: nat, s': State)
    requires StopStep(s, j, s') && ThreadInv(s, j)
    ensures s'.mutex == if ThreadHasMutex(s'.threads[j]) then Python(j)
                        else if ThreadHasMutex(s.threads[j]) then Nobody else s.mutex
    ensures s'.gil == if ThreadHasGil(s'.threads[j]) then Python(j) else s.gil
    ensures s'.stopper == if InStop(s'.threads[j]) then Python(j) else Nobody
    ensures s'.mutex != s.mutex && s'.mutex == Python(j) ==> s.mutex == Nobody
    ensures s'.gil != s.gil ==> s.gil == Nobody
    ensures InStop(s.threads[j]) && !ThreadHasGil(s.threads[j])
  {
  }

  /** What is said of a thread inside stop() besides the locks. */
  lemma StopStepProgress(s: State, j: nat, s': State)
    requires StopStep(s, j, s') && ThreadInv(s, j)
    ensures var t := s'.threads[j];
            && (BeforeReset(t) ==> s'.listener)
            && (AfterFlag(t) ==> s'.terminating)
            && (t.StopDraining? || t.StopDrained? ==> !s'.accepting)
            && (t.StopDrained? ==> AllIdle(s'))
            && !t.StartChecked? && !t.StartBinding?
            && (t.StopAtGil? ==> t.seen <= s'.starts && (t.seen == s'.starts ==> !s'.listener))
  {
  }

  lemma StopStepRest(s: State, j: nat, s': State)
    requires StopStep(s, j, s') && ThreadInv(s, j)
    ensures s'.accepting ==> s.accepting
    ensures s'.listener || AllIdle(s) || !s.listener
    ensures s.accepting ==> s'.listener == s.listener
    ensures s'.terminating && !s.terminating ==> s.mutex == Python(j)
  {
  }

  lemma StopStepKeepsCallback(s: State, j: nat, s': State, i: nat)
    requires Inv(s) && StopStep(s, j, s') && i < |s'.callbacks|
    ensures CallbackInv(s', i)
  {
    assert ThreadInv(s, j);
    StopStepFrame(s, j, s');
    StopStepLocks(s, j, s');
    StopStepRest(s, j, s');
    assert CallbackInv(s, i);
    hide Inv, StopStep, ThreadInv, InStop, ThreadHasMutex, ThreadHasGil;
  }

  lemma StopStepKeepsThread(s: State, j: nat, s': State, k: nat)
    requires Inv(s) && StopStep(s, j, s') && k < |s'.threads|
    ensures ThreadInv(s', k)
  {
    assert ThreadInv(s, j) && ThreadInv(s, k);
    StopStepFrame(s, j, s');
    StopStepLocks(s, j, s');
    StopStepRest(s, j, s');
    StopStepProgress(s, j, s');
    hide Inv, StopStep;
  }

  lemma StopStepKeepsHolders(s: State, j: nat, s': State)
    requires Inv(s) && StopStep(s, j, s')
    ensures HoldersExist(s') && (s'.accepting ==> s'.listener)
  {
    assert ThreadInv(s, j);
    StopStepFrame(s, j, s');
    StopStepLocks(s, j, s');
    StopStepRest(s, j, s');
    hide StopStep, ThreadInv, InStop, ThreadHasMutex, ThreadHasGil;
  }

  lemma StopStepKeepsInv(s: State, j: nat, s': State)
    requires Inv(s) && StopStep(s, j, s')
    ensures Inv(s')
  {
    hide StopStep, CallbackInv, ThreadInv, HoldersExist;
    StopStepKeepsHolders(s, j, s');
    forall i: nat | i < |s'.callbacks| ensures CallbackInv(s', i) {
      StopStepKeepsCallback(s, j, s', i);
    }
    forall k: nat | k < |s'.threads| ensures ThreadInv(s', k) {
      StopStepKeepsThread(s, j, s', k);
    }
  }

  lemma PythonStepLocks(s: State, j: nat, s': State)
    requires PythonStep(s, j, s') && ThreadInv(s, j)
    ensures s'.gil == if ThreadHasGil(s'.threads[j]) then Python(j)
                      else if ThreadHasGil(s.threads[j]) then Nobody else s.gil
    ensures s'.stopper == if InStop(s'.threads[j]) then Python(j) else s.stopper
    ensures s'.gil != s.gil && s'.gil == Python(j) ==> s.gil == Nobody
    ensures s'.stopper != s.stopper ==> s.stopper == Nobody
    ensures !ThreadHasMutex(s.threads[j]) && !ThreadHasMutex(s'.threads[j])
  {
  }

  lemma PythonStepProgress(s: State, j: nat, s': State)
    requires PythonStep(s, j, s') && ThreadInv(s, j)
    ensures var t := s'.threads[j];
            && (BeforeReset(t) ==> s'.listener)
            && !AfterFlag(t) && !t.StopDraining? && !t.StopDrained? && !t.StopAtGil?
            && (t.StartChecked? || t.StartBinding? ==> !s'.listener)
  {
  }

  lemma PythonStepRest(s: State, j: nat, s': State)
    requires PythonStep(s, j, s') && ThreadInv(s, j)
    ensures s'.starts == s.starts ==> s'.listener == s.listener && s'.accepting == s.accepting
    ensures s'.starts != s.starts ==> s'.starts == s.starts + 1 && !s.listener && s'.listener && s'.accepting
    ensures s'.starts != s.starts ==> s.gil == Python(j)
    ensures s'.terminating ==> s.terminating
    ensures s'.terminating != s.terminating ==> !s.listener && s.gil == Python(j)
  {
  }

  lemma PythonStepKeepsCallback(s: State, j: nat, s': State, i: nat)
    requires Inv(s) && PythonStep(s, j, s') && i < |s'.callbacks|
    ensures CallbackInv(s', i)
  {
    assert ThreadInv(s, j);
    PythonStepFrame(s, j, s');
    PythonStepLocks(s, j, s');
    PythonStepRest(s, j, s');
    assert CallbackInv(s, i);
    hide Inv, PythonStep, ThreadInv, InStop, ThreadHasMutex, ThreadHasGil;
  }

  lemma PythonStepKeepsThread(s: State, j: nat, s': State, k: nat)
    requires Inv(s) && PythonStep(s, j, s') && k < |s'.threads|
    ensures ThreadInv(s', k)
  {
    assert ThreadInv(s, j) && ThreadInv(s, k);
    PythonStepFrame(s, j, s');
    PythonStepLocks(s, j, s');
    PythonStepRest(s, j, s');
    PythonStepProgress(s, j, s');
    hide Inv, PythonStep;
  }

  lemma PythonStepKeepsHolders(s: State, j: nat, s': State)
    requires Inv(s) && PythonStep(s, j, s')
    ensures HoldersExist(s') && (s'.accepting ==> s'.listener)
  {
    assert ThreadInv(s, j);
    PythonStepFrame(s, j, s');
    PythonStepLocks(s, j, s');
    PythonStepRest(s, j, s');
    hide PythonStep, ThreadInv, InStop, ThreadHasMutex, ThreadHasGil;
  }

  lemma PythonStepKeepsInv(s: State, j: nat, s': State)
    requires Inv(s) && PythonStep(s, j, s')
    ensures Inv(s')
  {
    hide PythonStep, CallbackInv, ThreadInv, HoldersExist;
    PythonStepKeepsHolders(s, j, s');
    forall i: nat | i < |s'.callbacks| ensures CallbackInv(s', i) {
      PythonStepKeepsCallback(s, j, s', i);
    }
    forall k: nat | k < |s'.threads| ensures ThreadInv(s', k) {
      PythonStepKeepsThread(s, j, s', k);
    }
  }

  lemma ArrivalKeepsInv(s: State, i: nat, s': State)
    requires Inv(s) && Arrival(s, i, s')
    ensures Inv(s')
  {
    forall k: nat | k < |s'.callbacks| ensures CallbackInv(s', k) {
      assert CallbackInv(s, k);
    }
    forall j: nat | j < |s'.threads| ensures ThreadInv(s', j) {
      assert ThreadInv(s, j);
    }
  }

  lemma NextKeepsInv(s: State, s': State)
    requires Inv(s) && Next(s, s')
    ensures Inv(s')
  {
    if t :| ThreadStep(s, t, s') {
      match t
      case Nobody =>
      case Dispatcher(i) => DispatcherStepKeepsInv(s, i, s');
      case Python(j) => StopStepKeepsInv(s, j, s');
    } else if j :| PythonStep(s, j, s') {
      PythonStepKeepsInv(s, j, s');
    } else if i :| Arrival(s, i, s') {
      ArrivalKeepsInv(s, i, s');
    }
  }

  // ---------------------------------------------------------------- safety of every finite run

  ghost predicate Execution(run: seq<State>) {
    && |run| > 0
    && Init(run[0])
    && forall k: nat :: k + 1 < |run| ==> Linked(run, k)
  }

  ghost predicate Linked(run: seq<State>, k: nat)
    requires k + 1 < |run|
  {
    Next(run[k], run[k + 1])
  }

  lemma {:induction false} ExecutionKeepsInv(run: seq<State>, k: nat)
    requires Execution(run) && k < |run|
    ensures Inv(run[k])
  {
    hide Inv, Next, Init;
    if k == 0 {
      InitIsInv(run[0]);
    } else {
      ExecutionKeepsInv(run, k - 1);
      assert Linked(run, k - 1);
      NextKeepsInv(run[k - 1], run[k]);
    }
  }

  lemma InitIsInv(s: State)
    requires Init(s)
    ensures Inv(s)
  {
  }

  /** At most one callback is between the start and the end of its handlers. */
  lemma HandlersNeverOverlap(run: seq<State>, k: nat, a: nat, b: nat)
    requires Execution(run) && k < |run|
    requires a < |run[k].callbacks| && b < |run[k].callbacks|
    requires run[k].callbacks[a].Handling? || run[k].callbacks[a].Yielded?
    requires run[k].callbacks[b].Handling? || run[k].callbacks[b].Yielded?
    ensures a == b
  {
    ExecutionKeepsInv(run, k);
    assert CallbackInv(run[k], a) && CallbackInv(run[k], b);
  }

  /** Lock order: whoever holds the GIL waits for nothing, neither for m_mutex nor for the listener to drain. */
  lemma GilHolderNeverWaits(run: seq<State>, k: nat)
    requires Execution(run) && k < |run|
    ensures match run[k].gil
            case Nobody => true
            case Dispatcher(i) => i < |run[k].callbacks| && run[k].callbacks[i].Handling?
            case Python(j) => j < |run[k].threads| && ThreadHasGil(run[k].threads[j])
    ensures forall i: nat :: i < |run[k].callbacks| && (run[k].callbacks[i].AtLock? || run[k].callbacks[i].AtGil?)
              ==> run[k].gil != Dispatcher(i)
    ensures forall j: nat :: j < |run[k].threads| && InStop(run[k].threads[j]) ==> run[k].gil != Python(j)
  {
    ExecutionKeepsInv(run, k);
    var s := run[k];
    if s.gil.Dispatcher? { assert CallbackInv(s, s.gil.i); }
    if s.gil.Python? { assert ThreadInv(s, s.gil.j); }
    forall i: nat | i < |s.callbacks| && (s.callbacks[i].AtLock? || s.callbacks[i].AtGil?)
      ensures s.gil != Dispatcher(i)
    {
      assert CallbackInv(s, i);
    }
    forall j: nat | j < |s.threads| && InStop(s.threads[j]) ensures s.gil != Python(j) {
      assert ThreadInv(s, j);
    }
  }

  ghost predicate HandlerBegins(s: State, s': State, i: nat) {
    i < |s.callbacks| == |s'.callbacks| && s.callbacks[i].AtGil? && s'.callbacks[i].Handling?
  }

  /** Once stop() has set m_terminating, no handler begins before another start() has succeeded. */
  lemma NoHandlerBeginsAfterFlag(run: seq<State>, a: nat, k: nat, i: nat)
    requires Execution(run) && a <= k && k + 1 < |run|
    requires run[a].terminating && run[k].starts == run[a].starts
    ensures !HandlerBegins(run[k], run[k + 1], i)
  {
    FlagOrNoListener(run, a, k);
    ExecutionKeepsInv(run, k);
    if i < |run[k].callbacks| {
      assert CallbackInv(run[k], i);
    }
  }

  /** No start() has succeeded since the n-th, and the flag is up or there is no listener. */
  ghost predicate Quiet(s: State, n: nat) {
    n <= s.starts && (s.starts == n ==> s.terminating || !s.listener)
  }

  lemma {:induction false} FlagOrNoListener(run: seq<State>, a: nat, k: nat)
    requires Execution(run) && a <= k < |run|
    requires run[a].terminating
    ensures Quiet(run[k], run[a].starts)
  {
    if a < k {
      FlagOrNoListener(run, a, k - 1);
      QuietLink(run, k - 1, run[a].starts);
    }
  }

  lemma QuietLink(run: seq<State>, k: nat, n: nat)
    requires Execution(run) && k + 1 < |run| && Quiet(run[k], n)
    ensures Quiet(run[k + 1], n)
  {
    ExecutionKeepsInv(run, k);
    assert Linked(run, k);
    QuietStep(run[k], run[k + 1], n);
  }

  lemma QuietStep(s: State, s': State, n: nat)
    requires Inv(s) && Next(s, s') && Quiet(s, n)
    ensures Quiet(s', n)
  {
    FlagStep(s, s');
  }

  lemma FlagStep(s: State, s': State)
    requires Inv(s) && Next(s, s')
    ensures s'.starts == s.starts || s'.starts == s.starts + 1
    ensures s'.listener && !s.listener ==> s'.starts == s.starts + 1
    ensures s.terminating && !s'.terminating ==> !s.listener && !s'.listener
  {
    if t :| ThreadStep(s, t, s') {
      if t.Dispatcher? {
        CallbackStepDescends(s, t.i, s');
      } else {
        StopStepDescends(s, t.j, s');
      }
    } else if j :| PythonStep(s, j, s') {
      assert ThreadInv(s, j);
      PythonStepFrame(s, j, s');
    }
  }

  /** m_terminating is cleared only while m_listener is null, so never under a running listener. */
  lemma FlagClearedOnlyWithoutListener(run: seq<State>, k: nat)
    requires Execution(run) && k + 1 < |run|
    requires run[k].terminating && !run[k + 1].terminating
    ensures !run[k].listener && !run[k + 1].listener && AllIdle(run[k]) && AllIdle(run[k + 1])
  {
    hide Inv, Next, Init, AllIdle;
    ExecutionKeepsInv(run, k);
    ExecutionKeepsInv(run, k + 1);
    var s, s' := run[k], run[k + 1];
    assert Linked(run, k);
    FlagStep(s, s');
    NoListenerNoCallbacks(s);
    NoListenerNoCallbacks(s');
  }

  lemma NoListenerNoCallbacks(s: State)
    requires Inv(s) && !s.listener
    ensures AllIdle(s)
  {
    forall i: nat | i < |s.callbacks| ensures s.callbacks[i] == Idle {
      assert CallbackInv(s, i);
    }
  }

  /** The thread inside stop() is between its flag and its reset of m_listener. */
  predicate FlagIsUp(s: State) {
    s.stopper.Python? && s.stopper.j < |s.threads| && AfterFlag(s.threads[s.stopper.j])
  }

  /** The thread inside stop() has told the listener to stop and has not reset it yet. */
  predicate IsDraining(s: State) {
    && s.stopper.Python? && s.stopper.j < |s.threads|
    && (s.threads[s.stopper.j].StopDraining? || s.threads[s.stopper.j].StopDrained?)
  }

  /** A listener turns indications down only on behalf of a pending stop(), and start() binds with the flag down. */
  ghost predicate FlagInv(s: State) {
    && (s.listener && s.terminating ==> FlagIsUp(s))
    && (s.listener && !s.accepting ==> IsDraining(s))
    && (forall j: nat :: j < |s.threads| && s.threads[j].StartBinding? ==> !s.terminating)
  }

  lemma DispatcherStepKeepsFlag(s: State, i: nat, s': State)
    requires Inv(s) && FlagInv(s) && DispatcherStep(s, i, s')
    ensures FlagInv(s')
  {
    assert CallbackInv(s, i);
    DispatcherStepFrame(s, i, s');
    DispatcherStepRest(s, i, s');
  }

  lemma StopStepKeepsFlag(s: State, j: nat, s': State)
    requires Inv(s) && FlagInv(s) && StopStep(s, j, s')
    ensures FlagInv(s')
  {
    assert ThreadInv(s, j);
    forall k: nat | k < |s'.threads| && s'.threads[k].StartBinding? ensures !s'.terminating {
      assert ThreadInv(s, k);
    }
  }

  lemma PythonStepKeepsFlag(s: State, j: nat, s': State)
    requires Inv(s) && FlagInv(s) && PythonStep(s, j, s')
    ensures FlagInv(s')
  {
    assert ThreadInv(s, j);
    if s.stopper.Python? {
      assert ThreadInv(s, s.stopper.j);
    }
    forall k: nat | k < |s'.threads| && s'.threads[k].StartBinding? ensures !s'.terminating {
      assert ThreadInv(s, k);
    }
  }

  lemma NextKeepsFlag(s: State, s': State)
    requires Inv(s) && FlagInv(s) && Next(s, s')
    ensures FlagInv(s')
  {
    hide DispatcherStep, StopStep, PythonStep, Inv;
    if t :| ThreadStep(s, t, s') {
      if t.Dispatcher? {
        DispatcherStepKeepsFlag(s, t.i, s');
      } else {
        StopStepKeepsFlag(s, t.j, s');
      }
    } else if j :| PythonStep(s, j, s') {
      PythonStepKeepsFlag(s, j, s');
    }
  }

  lemma {:induction false} ExecutionKeepsFlag(run: seq<State>, k: nat)
    requires Execution(run) && k < |run|
    ensures FlagInv(run[k])
  {
    if k > 0 {
      hide Inv, Next, FlagInv;
      ExecutionKeepsFlag(run, k - 1);
      ExecutionKeepsInv(run, k - 1);
      assert Linked(run, k - 1);
      NextKeepsFlag(run[k - 1], run[k]);
    }
  }

  /** A listener that exists and that nobody is stopping takes every indication and runs its handlers; so does the
      one a successful start() has just made. */
  lemma RunningListenerIsUp(run: seq<State>, k: nat)
    requires Execution(run) && k < |run| && run[k].listener
    requires run[k].stopper == Nobody || (0 < k && run[k].starts != run[k - 1].starts)
    ensures run[k].accepting && !run[k].terminating
  {
    hide Inv, Next, Init;
    ExecutionKeepsFlag(run, k);
    if run[k].stopper != Nobody {
      hide FlagInv;
      ExecutionKeepsFlag(run, k - 1);
      ExecutionKeepsInv(run, k - 1);
      assert Linked(run, k - 1);
      StartSucceeds(run[k - 1], run[k]);
    }
  }

  lemma StartSucceeds(s: State, s': State)
    requires Inv(s) && FlagInv(s) && Next(s, s') && s'.starts != s.starts
    ensures !s.listener && s'.listener && s'.accepting && !s'.terminating
  {
    hide DispatcherStep, StopStep;
    if t :| ThreadStep(s, t, s') {
      if t.Dispatcher? {
        DispatcherStepFrame(s, t.i, s');
      } else {
        StopStepFrame(s, t.j, s');
      }
    } else if j :| PythonStep(s, j, s') {
      assert ThreadInv(s, j);
    }
  }

  /** What a callback does after taking m_mutex: it leaves without its handlers exactly if a stop() is between
      setting the flag and resetting m_listener, and goes on to the handlers exactly if none is. */
  lemma HandlersAreSkippedIff(run: seq<State>, k: nat, i: nat)
    requires Execution(run) && k + 1 < |run| && i < |run[k].callbacks| == |run[k + 1].callbacks|
    requires run[k].callbacks[i] == Locked && run[k + 1].callbacks[i] != Locked
    ensures run[k + 1].callbacks[i] == if FlagIsUp(run[k]) then Leaving else AtGil
  {
    ExecutionKeepsInv(run, k);
    ExecutionKeepsFlag(run, k);
    assert Linked(run, k);
    var s, s' := run[k], run[k + 1];
    assert CallbackInv(s, i);
    if FlagIsUp(s) {
      assert ThreadInv(s, s.stopper.j);
    }
    WhoMovedCallback(s, i, s');
  }

  /** Only its own step moves a callback that is in flight. */
  lemma WhoMovedCallback(s: State, i: nat, s': State)
    requires Next(s, s') && i < |s.callbacks| == |s'.callbacks|
    requires !s.callbacks[i].Idle? && s'.callbacks[i] != s.callbacks[i]
    ensures DispatcherStep(s, i, s')
  {
    if t :| ThreadStep(s, t, s') {
      if t.Dispatcher? {
        DispatcherStepFrame(s, t.i, s');
      } else {
        StopStepFrame(s, t.j, s');
      }
    } else if k :| PythonStep(s, k, s') {
      PythonStepFrame(s, k, s');
    }
  }

  /** When stop() returns, no callback is in flight and m_listener is null, unless start() has succeeded since
      stop() reset it. */
  lemma StopReturnsQuiet(run: seq<State>, k: nat, j: nat)
    requires Execution(run) && k + 1 < |run|
    requires j < |run[k].threads| == |run[k + 1].threads|
    requires InStop(run[k].threads[j]) && !InStop(run[k + 1].threads[j])
    ensures run[k].threads[j].StopAtGil? && run[k + 1].threads[j] == InPython
    ensures run[k].threads[j].seen <= run[k].starts
    ensures run[k].threads[j].seen == run[k].starts ==> !run[k + 1].listener && AllIdle(run[k + 1])
  {
    ExecutionKeepsInv(run, k);
    ExecutionKeepsInv(run, k + 1);
    var s, s' := run[k], run[k + 1];
    assert ThreadInv(s, j);
    assert Linked(run, k);
    WhoLeftStop(s, j, s');
    StopStepDescends(s, j, s');
    if !s'.listener {
      NoListenerNoCallbacks(s');
    }
  }

  /** Only its own step takes a thread out of stop(). */
  lemma WhoLeftStop(s: State, j: nat, s': State)
    requires Next(s, s') && j < |s.threads| == |s'.threads|
    requires InStop(s.threads[j]) && s'.threads[j] != s.threads[j]
    ensures StopStep(s, j, s')
  {
    if t :| ThreadStep(s, t, s') {
      if t.Dispatcher? {
        CallbackStepDescends(s, t.i, s');
      } else {
        StopStepDescends(s, t.j, s');
      }
    } else if k :| PythonStep(s, k, s') {
      PythonStepFrame(s, k, s');
    }
  }

  // ---------------------------------------------------------------- no deadlock

  predicate Enabled(s: State, t: Who) {
    match t
    case Nobody => false
    case Dispatcher(i) =>
      && i < |s.callbacks|
      && (match s.callbacks[i]
          case Idle => false
          case AtLock => s.mutex == Nobody
          case AtGil => s.gil == Nobody
          case Yielded(_) => s.gil == Nobody
          case _ => true)
    case Python(j) =>
      && j < |s.threads|
      && (match s.threads[j]
          case StopAtLock => s.mutex == Nobody
          case StopDraining => AllIdle(s)
          case StopAtGil(_) => s.gil == Nobody
          case t => InStop(t))
  }

  lemma DispatcherCanStep(s: State, i: nat) returns (s': State)
    requires Enabled(s, Dispatcher(i))
    ensures DispatcherStep(s, i, s')
  {
    s' :=
      match s.callbacks[i]
      case Idle => s
      case AtLock => SetCallback(s, i, Locked).(mutex := Dispatcher(i))
      case Locked => SetCallback(s, i, if s.terminating then Leaving else AtGil)
      case AtGil => SetCallback(s, i, Handling(0)).(gil := Dispatcher(i))
      case Handling(w) =>
        if w == 0 then SetCallback(s, i, Leaving).(gil := Nobody) else SetCallback(s, i, Handling(w - 1))
      case Yielded(w) => SetCallback(s, i, Handling(w)).(gil := Dispatcher(i))
      case Leaving => SetCallback(s, i, Idle).(mutex := Nobody);
  }

  lemma StopCanStep(s: State, j: nat) returns (s': State)
    requires Enabled(s, Python(j))
    ensures StopStep(s, j, s')
  {
    s' :=
      match s.threads[j]
      case StopAtLock => SetThread(s, j, StopLocked).(mutex := Python(j))
      case StopLocked => SetThread(s, j, StopFlagged).(terminating := true)
      case StopFlagged => SetThread(s, j, StopUnlocked).(mutex := Nobody)
      case StopUnlocked => SetThread(s, j, StopDraining).(accepting := false)
      case StopDraining => SetThread(s, j, StopDrained)
      case StopDrained => SetThread(s, j, StopAtGil(s.starts)).(listener := false)
      case StopAtGil(_) => SetThread(s, j, InPython).(gil := Python(j), stopper := Nobody)
      case _ => s;
  }

  lemma OnlyEnabledStep(s: State, t: Who, s': State)
    requires ThreadStep(s, t, s')
    ensures Enabled(s, t)
  {
  }

  lemma EnabledIffStep(s: State, t: Who)
    ensures Enabled(s, t) <==> exists s' :: ThreadStep(s, t, s')
  {
    if Enabled(s, t) {
      hide DispatcherStep, StopStep;
      var s';
      if t.Dispatcher? {
        s' := DispatcherCanStep(s, t.i);
      } else {
        s' := StopCanStep(s, t.j);
      }
      assert ThreadStep(s, t, s');
    }
    if s' :| ThreadStep(s, t, s') {
      OnlyEnabledStep(s, t, s');
    }
  }

  /** If Python code does not hold the GIL, the holder of m_mutex can step. */
  lemma MutexHolderEnabled(s: State, i: nat)
    requires Inv(s) && s.mutex == Dispatcher(i) && !s.gil.Python?
    ensures Enabled(s, Dispatcher(i))
  {
    assert CallbackInv(s, i);
    if s.gil.Dispatcher? {
      assert CallbackInv(s, s.gil.i);
    }
  }

  lemma MutexFreeUnlessStopLocked(s: State, j: nat)
    requires Inv(s) && j < |s.threads| && InStop(s.threads[j])
    ensures s.mutex.Python? ==> s.mutex == Python(j)
  {
    assert ThreadInv(s, j);
    if s.mutex.Python? {
      assert ThreadInv(s, s.mutex.j);
    }
  }

  /** While stop() is pending, either one of the threads it depends on can step, or Python code holds the GIL. */
  lemma StopNeverStuck(s: State) returns (t: Who)
    requires Inv(s) && s.stopper.Python? && !s.gil.Python?
    ensures Enabled(s, t)
  {
    var j := s.stopper.j;
    assert ThreadInv(s, j);
    t := Python(j);
    if !Enabled(s, t) {
      if s.mutex.Dispatcher? {
        MutexHolderEnabled(s, s.mutex.i);
        t := s.mutex;
      } else {
        MutexFreeUnlessStopLocked(s, j);
        if s.gil.Dispatcher? {
          assert CallbackInv(s, s.gil.i);
        }
        var i :| 0 <= i < |s.callbacks| && s.callbacks[i] != Idle;
        assert CallbackInv(s, i);
        t := Dispatcher(i);
      }
    }
  }

  /** No reachable state with a pending stop() is a deadlock: some step changes the state. */
  lemma PendingStopIsNoDeadlock(run: seq<State>, k: nat)
    requires Execution(run) && k < |run| && run[k].stopper.Python?
    ensures exists s' :: Next(run[k], s') && s' != run[k]
  {
    ExecutionKeepsInv(run, k);
    var s := run[k];
    if s.gil.Python? {
      var j := s.gil.j;
      assert ThreadInv(s, j);
      var s' :=
        if s.threads[j].InPython? then SetThread(s, j, Outside).(gil := Nobody)
        else if s.threads[j].StartChecked? then SetThread(s, j, StartBinding).(terminating := false)
        else SetThread(s, j, InPython);
      assert PythonStep(s, j, s');
      assert s'.threads[j] != s.threads[j];
      assert Next(s, s');
    } else {
      var t := StopNeverStuck(s);
      EnabledIffStep(s, t);
      var s' :| ThreadStep(s, t, s');
      StepChangesState(s, t, s');
      assert Next(s, s');
    }
  }

  lemma StepChangesState(s: State, t: Who, s': State)
    requires ThreadStep(s, t, s')
    ensures s' != s
  {
  }

  // ---------------------------------------------------------------- nothing is ruled out

  ghost predicate MayBecome(s: State, j: nat, t: Thread, listener: bool) {
    exists s' :: Next(s, s') && j < |s'.threads| && s'.threads[j] == t && s'.listener == listener
  }

  lemma Becomes(s: State, j: nat, s': State)
    requires PythonStep(s, j, s')
    ensures MayBecome(s, j, s'.threads[j], s'.listener)
  {
    PythonStepFrame(s, j, s');
    assert Next(s, s');
  }

  /** Python code may take a free GIL and give it away; it may call start() without a listener, which may fail or
      succeed, and stop() with one. */
  lemma PythonMayChoose(s: State, j: nat)
    requires j < |s.threads|
    ensures s.threads[j].Outside? && s.gil == Nobody ==> MayBecome(s, j, InPython, s.listener)
    ensures s.threads[j].InPython? ==> MayBecome(s, j, Outside, s.listener)
    ensures s.threads[j].InPython? && !s.listener ==> MayBecome(s, j, StartChecked, false)
    ensures s.threads[j].InPython? && s.listener && s.stopper == Nobody ==> MayBecome(s, j, StopAtLock, true)
    ensures s.threads[j].StartChecked? ==> MayBecome(s, j, StartBinding, s.listener)
    ensures s.threads[j].StartBinding? ==> MayBecome(s, j, InPython, s.listener) && MayBecome(s, j, InPython, true)
  {
    hide MayBecome, Next;
    match s.threads[j]
    case Outside =>
      if s.gil == Nobody {
        Becomes(s, j, SetThread(s, j, InPython).(gil := Python(j)));
      }
    case InPython =>
      Becomes(s, j, SetThread(s, j, Outside).(gil := Nobody));
      if !s.listener {
        Becomes(s, j, SetThread(s, j, StartChecked));
      } else if s.stopper == Nobody {
        Becomes(s, j, SetThread(s, j, StopAtLock).(gil := Nobody, stopper := Python(j)));
      }
    case StartChecked => Becomes(s, j, SetThread(s, j, StartBinding).(terminating := false));
    case StartBinding =>
      Becomes(s, j, SetThread(s, j, InPython));
      Becomes(s, j, SetThread(s, j, InPython).(listener := true, accepting := true, starts := s.starts + 1));
    case StopAtLock =>
    case StopLocked =>
    case StopFlagged =>
    case StopUnlocked =>
    case StopDraining =>
    case StopDrained =>
    case StopAtGil(_) =>
  }

  ghost predicate CallbackMayBecome(s: State, i: nat, c: Callback) {
    exists s' :: Next(s, s') && i < |s'.callbacks| && s'.callbacks[i] == c
  }

  lemma CallbackBecomes(s: State, i: nat, s': State)
    requires DispatcherStep(s, i, s') || Arrival(s, i, s')
    ensures i < |s'.callbacks| && CallbackMayBecome(s, i, s'.callbacks[i])
  {
    if DispatcherStep(s, i, s') {
      assert ThreadStep(s, Dispatcher(i), s');
    }
    assert Next(s, s');
  }

  /** Handlers may have any amount of work, and after each piece of it run on or give the GIL away; an indication
      arrives at an idle dispatcher exactly while the listener takes them. */
  lemma CallbackMayChoose(s: State, i: nat, work: nat)
    requires i < |s.callbacks|
    ensures s.callbacks[i].AtGil? && s.gil == Nobody ==> CallbackMayBecome(s, i, Handling(work))
    ensures s.callbacks[i] == Handling(work + 1) ==>
      CallbackMayBecome(s, i, Handling(work)) && CallbackMayBecome(s, i, Yielded(work))
    ensures s.callbacks[i].Idle? ==> (CallbackMayBecome(s, i, AtLock) <==> s.accepting)
  {
    hide CallbackMayBecome, Next;
    if s.callbacks[i].AtGil? && s.gil == Nobody {
      CallbackBecomes(s, i, SetCallback(s, i, Handling(work)).(gil := Dispatcher(i)));
    } else if s.callbacks[i] == Handling(work + 1) {
      CallbackBecomes(s, i, SetCallback(s, i, Handling(work)));
      CallbackBecomes(s, i, SetCallback(s, i, Yielded(work)).(gil := Nobody));
    } else if s.callbacks[i].Idle? {
      WhenWoken(s, i);
    }
  }

  lemma WhenWoken(s: State, i: nat)
    requires i < |s.callbacks| && s.callbacks[i].Idle?
    ensures CallbackMayBecome(s, i, AtLock) <==> s.accepting
  {
    hide Next;
    if s.accepting {
      hide CallbackMayBecome;
      CallbackBecomes(s, i, SetCallback(s, i, AtLock));
    } else if s' :| Next(s, s') && i < |s'.callbacks| && s'.callbacks[i] == AtLock {
      OnlyArrivalWakes(s, i, s');
    }
  }

  lemma OnlyArrivalWakes(s: State, i: nat, s': State)
    requires Next(s, s') && i < |s.callbacks| && i < |s'.callbacks| && s.callbacks[i].Idle? && !s'.callbacks[i].Idle?
    ensures Arrival(s, i, s')
  {
    if t :| ThreadStep(s, t, s') {
      if t.Dispatcher? {
        DispatcherStepFrame(s, t.i, s');
      } else {
        StopStepFrame(s, t.j, s');
      }
    } else if j :| PythonStep(s, j, s') {
      PythonStepFrame(s, j, s');
    }
  }

  // ---------------------------------------------------------------- measures

  /** How far a callback is from its end, not counting the work of its handlers. */
  function CallbackRank(c: Callback): nat {
    match c
    case Idle => 0
    case Leaving => 1
    case Handling(_) => 2
    case Yielded(_) => 2
    case AtGil => 3
    case Locked => 4
    case AtLock => 5
  }

  function HandlerWork(c: Callback): nat {
    if c.Handling? then 2 * c.work else if c.Yielded? then 2 * c.work + 1 else 0
  }

  function StopRank(t: Thread): nat {
    match t
    case StopAtLock => 7
    case StopLocked => 6
    case StopFlagged => 5
    case StopUnlocked => 4
    case StopDraining => 3
    case StopDrained => 2
    case StopAtGil(_) => 1
    case Outside => 0
    case InPython => 0
    case StartChecked => 0
    case StartBinding => 0
  }

  predicate Below(rank': nat, work': nat, rank: nat, work: nat) {
    rank' < rank || (rank' == rank && work' < work)
  }

  lemma DispatcherStepFrame(s: State, i: nat, s': State)
    requires DispatcherStep(s, i, s')
    ensures s'.callbacks == s.callbacks[i := s'.callbacks[i]] && s'.threads == s.threads
    ensures s'.starts == s.starts && s'.listener == s.listener && s'.terminating == s.terminating
  {
  }

  lemma CallbackGoesDown(s: State, i: nat, s': State)
    requires DispatcherStep(s, i, s')
    ensures Below(CallbackRank(s'.callbacks[i]), HandlerWork(s'.callbacks[i]),
                  CallbackRank(s.callbacks[i]), HandlerWork(s.callbacks[i]))
  {
  }

  lemma CallbackStepDescends(s: State, i: nat, s': State)
    requires DispatcherStep(s, i, s')
    ensures s'.callbacks == s.callbacks[i := s'.callbacks[i]] && s'.threads == s.threads
    ensures s'.starts == s.starts && s'.listener == s.listener && s'.terminating == s.terminating
    ensures Below(CallbackRank(s'.callbacks[i]), HandlerWork(s'.callbacks[i]),
                  CallbackRank(s.callbacks[i]), HandlerWork(s.callbacks[i]))
  {
    DispatcherStepFrame(s, i, s');
    CallbackGoesDown(s, i, s');
    hide DispatcherStep, Below, CallbackRank, HandlerWork;
  }

  lemma StopStepFrame(s: State, j: nat, s': State)
    requires StopStep(s, j, s')
    ensures s'.threads == s.threads[j := s'.threads[j]] && s'.callbacks == s.callbacks
    ensures s'.starts == s.starts && (s.terminating ==> s'.terminating) && (s'.listener ==> s.listener)
  {
  }

  lemma StopGoesDown(s: State, j: nat, s': State)
    requires StopStep(s, j, s')
    ensures |s'.threads| == |s.threads| && StopRank(s'.threads[j]) < StopRank(s.threads[j])
    ensures !InStop(s'.threads[j]) ==> s.threads[j].StopAtGil? && s'.threads[j] == InPython && s'.listener == s.listener
  {
  }

  lemma StopStepDescends(s: State, j: nat, s': State)
    requires StopStep(s, j, s')
    ensures s'.threads == s.threads[j := s'.threads[j]] && s'.callbacks == s.callbacks
    ensures StopRank(s'.threads[j]) < StopRank(s.threads[j])
    ensures !InStop(s'.threads[j]) ==> s.threads[j].StopAtGil? && s'.threads[j] == InPython && s'.listener == s.listener
    ensures s'.starts == s.starts && (s.terminating ==> s'.terminating) && (s'.listener ==> s.listener)
  {
    StopStepFrame(s, j, s');
    StopGoesDown(s, j, s');
    hide StopStep, StopRank, InStop;
  }

  lemma PythonStepFrame(s: State, j: nat, s': State)
    requires PythonStep(s, j, s')
    ensures s'.threads == s.threads[j := s'.threads[j]] && s'.callbacks == s.callbacks
    ensures s'.mutex == s.mutex && !InStop(s.threads[j])
    ensures if s'.starts == s.starts then s'.listener == s.listener else s'.starts == s.starts + 1
    ensures s'.terminating != s.terminating ==> s.threads[j].StartChecked? && s'.listener == s.listener
  {
  }
}
