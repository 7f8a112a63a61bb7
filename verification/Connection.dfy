/** CIM operations on one connection: each takes the client lock, connects for its own duration if the client is
    not connected, sends its request, disconnects again and unlocks, whatever fails on the way. */
module Connection {
  import opened Text
  import U = UrlInfo

  // ---------------------------------------------------------------- any number of threads

  /** Where a thread is inside an operation bracketed by ScopedTransactionBegin and ScopedTransactionEnd. */
  datatype Thread =
    | Idle
    | AtLock                       // ScopedTransaction: waiting for the client lock
    | Locked                       // ScopedConnection: about to look at isConnected()
    | Connecting                   // ScopedConnection: inside client()->connect() or connectLocally()
    | Requesting(temporary: bool)  // the request itself; temporary = this operation connected
    | Disconnecting                // ~ScopedConnection of a temporary connection
    | Unlocking                    // ~ScopedTransaction

  datatype State = State(
    threads: seq<Thread>,
    holder: Option<nat>,
    connected: bool,      // m_is_connected
    persistent: bool)     // history: what the last successful explicit connect or disconnect left

  function Move(s: State, i: nat, t: Thread): State
    requires i < |s.threads|
  {
    s.(threads := s.threads[i := t])
  }

  /** One step of thread i. Connecting may fail, an invalid URL fails before connecting, and the request may raise;
      a constructor that raised has no destructor, so a failed connect goes straight to unlocking. */
  ghost predicate ThreadStep(s: State, i: nat, s': State) {
    && i < |s.threads|
    && match s.threads[i]
       case Idle => s' == Move(s, i, AtLock)
       case AtLock => s.holder == None && s' == Move(s, i, Locked).(holder := Some(i))
       case Locked =>
         if s.connected then s' == Move(s, i, Requesting(false))
         else s' == Move(s, i, Connecting) || s' == Move(s, i, Unlocking)
       case Connecting =>
         || s' == Move(s, i, Requesting(true)).(connected := true)
         || s' == Move(s, i, Unlocking)
       case Requesting(temporary) => s' == Move(s, i, if temporary then Disconnecting else Unlocking)
       case Disconnecting => s' == Move(s, i, Unlocking).(connected := false)
       case Unlocking => s' == Move(s, i, Idle).(holder := None)
  }

  /** WBEMConnection.connect() and disconnect(), taken while nobody holds the lock; connect() may fail. */
  ghost predicate ExplicitStep(s: State, s': State) {
    && s.holder == None
    && (s' == s || s' == s.(connected := true, persistent := true) || s' == s.(connected := false, persistent := false))
  }

  ghost predicate Next(s: State, s': State) {
    ExplicitStep(s, s') || exists i :: ThreadStep(s, i, s')
  }

  ghost predicate Init(s: State) {
    && (forall i :: 0 <= i < |s.threads| ==> s.threads[i] == Idle)
    && s.holder == None && !s.connected && !s.persistent
  }

  predicate InTransaction(t: Thread) {
    !t.Idle? && !t.AtLock?
  }

  /** The operation has connected for itself and not yet disconnected. */
  predicate HasTemporary(t: Thread) {
    t == Requesting(true) || t.Disconnecting?
  }

  ghost predicate ThreadInv(s: State, i: nat)
    requires i < |s.threads|
  {
    var t := s.threads[i];
    && (InTransaction(t) <==> s.holder == Some(i))
    && (s.holder == Some(i) ==> s.connected == (s.persistent || HasTemporary(t)))
    && (t.Connecting? || HasTemporary(t) ==> !s.persistent)
    && (t == Requesting(false) ==> s.persistent)
  }

  ghost predicate Inv(s: State) {
    && (s.holder.Some? ==> s.holder.value < |s.threads|)
    && (s.holder.None? ==> s.connected == s.persistent)
    && forall i: nat :: i < |s.threads| ==> ThreadInv(s, i)
  }

  lemma NextKeepsInv(s: State, s': State)
    requires Inv(s) && Next(s, s')
    ensures Inv(s')
  {
    if i :| ThreadStep(s, i, s') {
      ThreadStepKeepsInv(s, i, s');
    } else {
      forall k: nat | k < |s'.threads| ensures ThreadInv(s', k) {
        assert ThreadInv(s, k);
      }
    }
  }

  lemma ThreadStepKeepsInv(s: State, i: nat, s': State)
    requires Inv(s) && ThreadStep(s, i, s')
    ensures Inv(s')
  {
    assert ThreadInv(s, i);
    forall k: nat | k < |s'.threads| ensures ThreadInv(s', k) {
      assert ThreadInv(s, k);
    }
  }

  ghost predicate Linked(run: seq<State>, k: nat)
    requires k + 1 < |run|
  {
    Next(run[k], run[k + 1])
  }

  ghost predicate Execution(run: seq<State>) {
    |run| > 0 && Init(run[0]) && forall k: nat :: k + 1 < |run| ==> Linked(run, k)
  }

  lemma {:induction false} ExecutionKeepsInv(run: seq<State>, k: nat)
    requires Execution(run) && k < |run|
    ensures Inv(run[k])
  {
    if k > 0 {
      ExecutionKeepsInv(run, k - 1);
      assert Linked(run, k - 1);
      NextKeepsInv(run[k - 1], run[k]);
    }
  }

  /** At most one thread is between lock and unlock. */
  lemma OneTransactionAtATime(run: seq<State>, k: nat, a: nat, b: nat)
    requires Execution(run) && k < |run| && a < |run[k].threads| && b < |run[k].threads|
    requires InTransaction(run[k].threads[a]) && InTransaction(run[k].threads[b])
    ensures a == b
  {
    ExecutionKeepsInv(run, k);
    assert ThreadInv(run[k], a) && ThreadInv(run[k], b);
  }

  /** While the lock is free the client is connected exactly when the last successful explicit connect or
      disconnect left it so: no temporary connection leaks and no persistent one is dropped. */
  lemma NoLeakedConnection(run: seq<State>, k: nat)
    requires Execution(run) && k < |run| && run[k].holder == None
    ensures run[k].connected == run[k].persistent
  {
    ExecutionKeepsInv(run, k);
  }

  /** Every request is sent on a connected client, and one that finds a persistent connection uses it. */
  lemma RequestsAreConnected(run: seq<State>, k: nat, i: nat)
    requires Execution(run) && k < |run| && i < |run[k].threads| && run[k].threads[i].Requesting?
    ensures run[k].connected && run[k].threads[i].temporary == !run[k].persistent
  {
    ExecutionKeepsInv(run, k);
    assert ThreadInv(run[k], i);
  }

  /** Coming out of ScopedConnection a thread sends its request exactly if the client is connected then. */
  lemma ConnectedThenRequest(run: seq<State>, k: nat, i: nat)
    requires Execution(run) && k + 1 < |run| && i < |run[k].threads| == |run[k + 1].threads|
    requires run[k].threads[i].Locked? || run[k].threads[i].Connecting?
    requires !run[k + 1].threads[i].Locked? && !run[k + 1].threads[i].Connecting?
    ensures run[k + 1].threads[i] == if run[k + 1].connected then Requesting(!run[k + 1].persistent) else Unlocking
  {
    hide Init;
    ExecutionKeepsInv(run, k);
    assert Linked(run, k);
    var s, s' := run[k], run[k + 1];
    assert ThreadInv(s, i);
    if j :| ThreadStep(s, j, s') {
      assert ThreadInv(s, j);
    }
  }

  ghost predicate MayBecome(s: State, i: nat, t: Thread, connected: bool) {
    exists s' :: Next(s, s') && i < |s'.threads| && s'.threads[i] == t && s'.connected == connected
  }

  lemma Becomes(s: State, i: nat, s': State)
    requires ThreadStep(s, i, s') && i < |s'.threads|
    ensures MayBecome(s, i, s'.threads[i], s'.connected)
  {
    assert Next(s, s');
  }

  /** Nothing is ruled out: a free lock may be taken, connecting may succeed or fail, an invalid URL keeps a thread from
      connecting, and while the lock is free the client may be connected and disconnected explicitly. */
  lemma AnythingMayHappen(s: State, i: nat)
    requires i < |s.threads|
    ensures s.threads[i].Idle? ==> MayBecome(s, i, AtLock, s.connected)
    ensures s.threads[i].AtLock? && s.holder == None ==> MayBecome(s, i, Locked, s.connected)
    ensures s.threads[i].Locked? && !s.connected ==>
      MayBecome(s, i, Connecting, false) && MayBecome(s, i, Unlocking, false)
    ensures s.threads[i].Connecting? ==>
      MayBecome(s, i, Requesting(true), true) && MayBecome(s, i, Unlocking, s.connected)
    ensures s.holder == None ==>
      MayBecome(s, i, s.threads[i], true) && MayBecome(s, i, s.threads[i], false)
  {
    if s.holder == None {
      assert Next(s, s.(connected := true, persistent := true)) && Next(s, s.(connected := false, persistent := false));
    }
    hide MayBecome, Next;
    match s.threads[i]
    case Idle => Becomes(s, i, Move(s, i, AtLock));
    case AtLock =>
      if s.holder == None {
        Becomes(s, i, Move(s, i, Locked).(holder := Some(i)));
      }
    case Locked =>
      if !s.connected {
        Becomes(s, i, Move(s, i, Connecting));
        Becomes(s, i, Move(s, i, Unlocking));
      }
    case Connecting =>
      Becomes(s, i, Move(s, i, Requesting(true)).(connected := true));
      Becomes(s, i, Move(s, i, Unlocking));
    case Requesting(_) =>
    case Disconnecting =>
    case Unlocking =>
  }

  // ---------------------------------------------------------------- every lock is released

  function Rank(t: Thread): nat {
    match t
    case Idle => 0
    case AtLock => 0
    case Unlocking => 1
    case Disconnecting => 2
    case Requesting(_) => 3
    case Connecting => 4
    case Locked => 5
  }

  lemma HolderCanStep(s: State)
    requires Inv(s) && s.holder.Some?
    ensures exists s' :: ThreadStep(s, s.holder.value, s')
  {
    var i := s.holder.value;
    assert ThreadInv(s, i);
    var s' :=
      if s.threads[i].Unlocking? then Move(s, i, Idle).(holder := None)
      else if s.threads[i].Disconnecting? then Move(s, i, Unlocking).(connected := false)
      else if s.threads[i].Requesting? then Move(s, i, if s.threads[i].temporary then Disconnecting else Unlocking)
      else if s.threads[i].Connecting? || !s.connected then Move(s, i, Unlocking)
      else Move(s, i, Requesting(false));
    assert ThreadStep(s, i, s');
  }

  /** The number of steps thread i takes from position a to position b of a run. */
  ghost function StepsOf(run: seq<State>, i: nat, a: nat, b: nat): nat
    requires a <= b < |run|
  {
    if a == b then 0 else StepsOf(run, i, a, b - 1) + (if ThreadStep(run[b - 1], i, run[b]) then 1 else 0)
  }

  lemma OthersWaitForHolder(s: State, s': State, i: nat)
    requires Inv(s) && Next(s, s') && s.holder == Some(i)
    ensures |s'.threads| == |s.threads|
    ensures ThreadStep(s, i, s') ==> Rank(s'.threads[i]) < Rank(s.threads[i])
    ensures !ThreadStep(s, i, s') ==> s'.threads[i] == s.threads[i] && s'.holder == s.holder
  {
    assert ThreadInv(s, i);
    if k :| ThreadStep(s, k, s') {
      assert ThreadInv(s, k);
    }
  }

  /** The main result on release: whoever gets the lock gives it back within five steps of its own. */
  lemma {:induction false} LockReleasedWithinFiveSteps(run: seq<State>, i: nat, a: nat, b: nat)
    requires Execution(run) && a <= b < |run|
    requires forall k :: a <= k <= b ==> run[k].holder == Some(i)
    ensures i < |run[a].threads| && i < |run[b].threads|
    ensures StepsOf(run, i, a, b) + Rank(run[b].threads[i]) <= Rank(run[a].threads[i]) <= 5
    ensures StepsOf(run, i, a, b) < 5
  {
    ExecutionKeepsInv(run, a);
    ExecutionKeepsInv(run, b);
    assert ThreadInv(run[b], i);
    if a < b {
      LockReleasedWithinFiveSteps(run, i, a, b - 1);
      ExecutionKeepsInv(run, b - 1);
      assert Linked(run, b - 1);
      OthersWaitForHolder(run[b - 1], run[b], i);
    }
  }

  // ---------------------------------------------------------------- one operation, step by step

  datatype Event = Lock | CallConnect | CallConnectLocally | SendRequest | CallDisconnect | Unlock

  datatype Error = ValueError | ConnectionError | RequestError

  /** CIMXMLClient::connect(): the URL is stored first, and stays when connecting then fails. A local URL connects
      locally, which stores another. */
  function AfterConnect(info: U.Info, url: string, fqdn: string, reachable: bool): (U.Info, bool) {
    var i := if url == "" then info else U.Parsed(info, fqdn, url);
    if !i.isValid || !reachable then (i, false)
    else (if i.isLocal then U.Parsed(i, fqdn, "localhost") else i, true)
  }

  function AfterConnectLocally(info: U.Info, fqdn: string, reachable: bool): (U.Info, bool) {
    if reachable then (U.Parsed(info, fqdn, "localhost"), true) else (info, false)
  }

  /** ScopedConnection on a client that is not connected: what the URL object is then, and whether it is connected. */
  function AfterTemporary(info: U.Info, locally: bool, fqdn: string, reachable: bool): (U.Info, bool) {
    if locally then AfterConnectLocally(info, fqdn, reachable)
    else if info.isValid then AfterConnect(info, info.Url(), fqdn, reachable)
    else (info, false)
  }

  /** Connecting takes a URL that set() accepts; without one, the URL before must have been accepted. A new object is
      then local or has a host without colon, a path that is empty or starts with a slash, and a port. */
  lemma OnlyAcceptedConnects(info: U.Info, url: string, fqdn: string, reachable: bool)
    ensures var (i, ok) := AfterConnect(info, url, fqdn, reachable);
            && (ok <==> reachable && if url == "" then info.isValid else U.Parsed(info, fqdn, url).isValid)
            && (!ok ==> i == if url == "" then info else U.Parsed(info, fqdn, url))
            && (ok && info == U.FRESH && !i.isLocal ==>
                  i.hostname != "" && ':' !in i.hostname && (i.path == "" || i.path[0] == '/') && i.port <= 65535)
    ensures !info.isValid ==> AfterTemporary(info, false, fqdn, reachable) == (info, false)
  {
    hide U.Parsed;
    U.AcceptedIsWellFormed(fqdn, url);
    U.LocalhostIsLocal(U.Parsed(info, fqdn, url), fqdn);
  }

  class WBEMConnection {
    var connected: bool        // client()->isConnected()
    var locked: bool           // client()'s mutex
    var info: U.Info           // client()->getURLInfo()
    var connectLocally: bool   // m_connect_locally
    var username: string
    var password: string
    var log: seq<Event>        // calls made on the client

    constructor (connectLocally: bool, info: U.Info)
      ensures this.connectLocally == connectLocally && this.info == info
      ensures !connected && !locked && log == [] && username == password == ""
    {
      connected, locked, log := false, false, [];
      this.connectLocally, this.info := connectLocally, info;
      username, password := "", "";
    }

    /** client()->connect(). `fqdn` is the name of this host; `reachable` is whether the server answers. */
    method ClientConnect(url: string, fqdn: string, reachable: bool) returns (ok: bool)
      modifies this`connected, this`info, this`log
      ensures (info, ok) == AfterConnect(old(info), url, fqdn, reachable)
      ensures connected == (old(connected) || ok) && log == old(log) + [CallConnect]
    {
      hide U.Parsed;
      log := log + [CallConnect];
      if url != "" {
        info := U.Parsed(info, fqdn, url);
      }
      if !info.isValid || !reachable {
        return false;
      }
      if info.isLocal {
        info := U.Parsed(info, fqdn, "localhost");
      }
      connected := true;
      ok := true;
    }

    /** client()->connectLocally() */
    method ClientConnectLocally(fqdn: string, reachable: bool) returns (ok: bool)
      modifies this`connected, this`info, this`log
      ensures (info, ok) == AfterConnectLocally(old(info), fqdn, reachable)
      ensures connected == (old(connected) || ok) && log == old(log) + [CallConnectLocally]
    {
      hide U.Parsed;
      log := log + [CallConnectLocally];
      if !reachable {
        return false;
      }
      connected := true;
      info := U.Parsed(info, fqdn, "localhost");
      ok := true;
    }

    /** A CIM operation. `reachable` and `answered` are the outcomes of connecting and of the request. */
    method Operation(fqdn: string, reachable: bool, answered: bool) returns (r: Result<(), Error>)
      requires !locked
      modifies this`connected, this`locked, this`info, this`log
      ensures !locked && connected == old(connected)
      ensures info == if old(connected) then old(info)
                      else AfterTemporary(old(info), connectLocally, fqdn, reachable).0
      ensures var ok := AfterTemporary(old(info), connectLocally, fqdn, reachable).1;
              && r == (if !old(connected) && !connectLocally && !old(info).isValid then Err(ValueError)
                       else if !old(connected) && !ok then Err(ConnectionError)
                       else if !answered then Err(RequestError) else Ok(()))
              && log == old(log) + Calls(old(connected), connectLocally, old(info).isValid, ok)
              && Balanced(log[|old(log)|..], !old(connected),
                          old(connected) || (ok && (connectLocally || old(info).isValid)))
    {
      hide Balanced, Calls, AfterTemporary;
      CallsAreBalanced(log, connected, connectLocally, info.isValid,
                       AfterTemporary(info, connectLocally, fqdn, reachable).1);
      r := Transaction(fqdn, reachable, answered);
    }

    method Transaction(fqdn: string, reachable: bool, answered: bool) returns (r: Result<(), Error>)
      requires !locked
      modifies this`connected, this`locked, this`info, this`log
      ensures !locked && connected == old(connected)
      ensures info == if old(connected) then old(info)
                      else AfterTemporary(old(info), connectLocally, fqdn, reachable).0
      ensures var ok := AfterTemporary(old(info), connectLocally, fqdn, reachable).1;
              && r == (if !old(connected) && !connectLocally && !old(info).isValid then Err(ValueError)
                       else if !old(connected) && !ok then Err(ConnectionError)
                       else if !answered then Err(RequestError) else Ok(()))
              && log == old(log) + Calls(old(connected), connectLocally, old(info).isValid, ok)
    {
      hide AfterConnect, AfterConnectLocally;
      Begin();
      var original := connected;
      if !original {
        var ok;
        if connectLocally {
          ok := ClientConnectLocally(fqdn, reachable);
        } else if info.isValid {
          ok := ClientConnect(info.Url(), fqdn, reachable);
        } else {
          Finish();
          return Err(ValueError);
        }
        if !ok {
          Finish();
          return Err(ConnectionError);
        }
      }
      SendNow();
      if !original {
        DisconnectNow();
      }
      Finish();
      r := if answered then Ok(()) else Err(RequestError);
    }

    /** ScopedTransaction. */
    method Begin()
      requires !locked
      modifies this`locked, this`log
      ensures locked && log == old(log) + [Lock]
    {
      locked := true;
      log := log + [Lock];
    }

    /** The request itself, which takes the lock and a connection. */
    method SendNow()
      requires locked && connected
      modifies this`log
      ensures log == old(log) + [SendRequest]
    {
      log := log + [SendRequest];
    }

    /** ~ScopedTransaction. */
    method Finish()
      requires locked
      modifies this`locked, this`log
      ensures !locked && log == old(log) + [Unlock]
    {
      log := log + [Unlock];
      locked := false;
    }

    /** connect(). Credentials given as arguments are kept even when connecting then fails, and so is the URL. */
    method Connect(url: Option<string>, user: Option<string>, pass: Option<string>, fqdn: string, reachable: bool)
      returns (r: Result<(), Error>)
      requires !locked
      modifies this`connected, this`connectLocally, this`username, this`password, this`info, this`log
      ensures connected == (old(connected) || r == Ok(())) && connectLocally == old(connectLocally)
      ensures old(connectLocally) ==>
        && username == old(username) && password == old(password)
        && (info, r == Ok(())) == AfterConnectLocally(old(info), fqdn, reachable)
        && (r.Err? ==> r.error.ConnectionError?)
      ensures !old(connectLocally) ==>
        && username == (if user.Some? then user.value else old(username))
        && password == (if pass.Some? then pass.value else old(password))
        && var target := if url.Some? then url.value else old(info).Url();
           if target == "" then r == Err(ValueError) && info == old(info)
           else (info, r == Ok(())) == AfterConnect(old(info), target, fqdn, reachable)
                && (r.Err? ==> r.error.ConnectionError?)
    {
      hide AfterConnect, AfterConnectLocally;
      if connectLocally {
        var ok := ClientConnectLocally(fqdn, reachable);
        return if ok then Ok(()) else Err(ConnectionError);
      }
      var target := info.Url();
      if url.Some? {
        target := url.value;
      }
      if user.Some? {
        username := user.value;
      }
      if pass.Some? {
        password := pass.value;
      }
      if target == "" {
        return Err(ValueError);
      }
      var ok := ClientConnect(target, fqdn, reachable);
      if ok {
        connectLocally := false;
      }
      r := if ok then Ok(()) else Err(ConnectionError);
    }

    method DisconnectNow()
      modifies this`connected, this`log
      ensures !connected && log == old(log) + [CallDisconnect]
    {
      log := log + [CallDisconnect];
      connected := false;
    }
  }

  /** Whether an operation leaves a remote client its target: exactly if there is no '@' in host or path or the text
      behind it says the same again; and without one only the stored text is new. */
  lemma TemporaryTarget(info: U.Info, fqdn: string, reachable: bool)
    requires info.isValid && !info.isLocal && U.Kept(info)
    ensures var (j, ok) := AfterTemporary(info, false, fqdn, reachable);
            && (U.SameTarget(info, j) <==> ('@' !in info.hostname && '@' !in info.path) || U.SaysItAgain(info))
            && ('@' !in info.hostname && '@' !in info.path ==> j == info.(url := info.Url()) && ok == reachable)
  {
    hide U.Parsed, U.SameTarget, U.SaysItAgain, U.WellFormed;
    assert info.Url() != "" by {
      assert info.Url()[0] == 'h';
    }
    U.ReconnectIff(info, fqdn);
    U.ReconnectCredentials(info, fqdn);
    if '@' !in info.hostname && '@' !in info.path {
      U.ReconnectKeeps(info, fqdn);
    }
  }

  /** The calls one operation makes. */
  function Calls(connected: bool, locally: bool, urlValid: bool, reachable: bool): seq<Event> {
    if connected then [Lock, SendRequest, Unlock]
    else if !locally && !urlValid then [Lock, Unlock]
    else
      var connect := if locally then CallConnectLocally else CallConnect;
      if reachable then [Lock, connect, SendRequest, CallDisconnect, Unlock] else [Lock, connect, Unlock]
  }

  /** Locked once, first, and unlocked once, last; the request sent or not; and a connection of its own closed behind
      the request. */
  predicate Balanced(calls: seq<Event>, own: bool, sent: bool) {
    && |calls| >= 2
    && multiset(calls)[Lock] == 1 && calls[0] == Lock
    && multiset(calls)[Unlock] == 1 && calls[|calls| - 1] == Unlock
    && multiset(calls)[SendRequest] == (if sent then 1 else 0)
    && multiset(calls)[CallDisconnect] == (if own && sent then 1 else 0)
    && (own && sent ==> |calls| >= 4 && calls[|calls| - 3] == SendRequest && calls[|calls| - 2] == CallDisconnect)
  }

  lemma CallsAreBalanced(log: seq<Event>, connected: bool, locally: bool, urlValid: bool, reachable: bool)
    ensures Balanced((log + Calls(connected, locally, urlValid, reachable))[|log|..], !connected,
                     connected || (reachable && (locally || urlValid)))
  {
    var calls := Calls(connected, locally, urlValid, reachable);
    assert (log + calls)[|log|..] == calls;
  }
}
