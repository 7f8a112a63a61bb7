/** The indication listener as a single-threaded object: start() with its retry loop, the handler registry
    and the dispatch of one indication. */
module Listener {
  import opened Text

  type uint32 = x: int | 0 <= x < 0x1_0000_0000

  const MAX_PORT := 65535

  datatype Handler = Handler(callable: int, args: seq<int>)

  /** A Python argument of add_handler: something callable, a list or tuple, or anything else. */
  datatype PyObject = Callable(id: int) | Sequence(items: seq<PyObject>) | Other

  datatype Error = TypeError | ValueError | ConnectionError | KeyError | OutOfRange

  type Outcome = Result<(), Error>

  // ---------------------------------------------------------------- specification

  /** The number of ports start() may try from `port` on: it gives up at the first failure at or above 65536. */
  function Limit(port: uint32, retries: nat): nat
    requires retries >= 1
  {
    if port > MAX_PORT then 1
    else if retries <= MAX_PORT + 2 - port then retries else MAX_PORT + 2 - port
  }

  /** When every port is busy the last one tried is 65536, unless the retries end earlier or the first is above it. */
  lemma LastPortTried(port: uint32, retries: nat)
    requires retries >= 1
    ensures var last := port + Limit(port, retries) - 1;
            if port + retries <= 65536 then last == port + retries - 1
            else if port <= 65536 then last == 65536
            else last == port
  {
  }

  predicate Consecutive(ports: seq<uint32>, port: uint32) {
    forall i :: 0 <= i < |ports| ==> ports[i] == port + i
  }

  predicate AllBusy(ports: seq<uint32>, free: uint32 -> bool) {
    forall i :: 0 <= i < |ports| ==> !free(ports[i])
  }

  function CallablePrefix(items: seq<PyObject>, args: seq<int>): (hs: seq<Handler>)
    ensures |hs| <= |items|
    ensures forall i :: 0 <= i < |hs| ==> items[i].Callable? && hs[i] == Handler(items[i].id, args)
    ensures |hs| < |items| ==> !items[|hs|].Callable?
  {
    if items == [] || !items[0].Callable? then []
    else [Handler(items[0].id, args)] + CallablePrefix(items[1..], args)
  }

  function Registered(handlers: map<string, seq<Handler>>, name: string): seq<Handler> {
    if name in handlers then handlers[name] else []
  }

  function Register(handlers: map<string, seq<Handler>>, name: string, hs: seq<Handler>): map<string, seq<Handler>> {
    if hs == [] then handlers else handlers[name := Registered(handlers, name) + hs]
  }

  /** What start() promises about the ports it tried, seen as one search: it ends on the least free port within
      its limit, and it raises exactly when there is none. At most one port above 65535 is tried. */
  lemma SearchFindsLeastFreePort(tried: seq<uint32>, port: uint32, retries: nat, free: uint32 -> bool)
    requires retries >= 1 && 1 <= |tried| <= Limit(port, retries)
    requires Consecutive(tried, port) && AllBusy(tried[..|tried| - 1], free)
    requires !free(tried[|tried| - 1]) ==> |tried| == Limit(port, retries)
    ensures free(tried[|tried| - 1]) <==> exists p: uint32 :: port <= p < port + Limit(port, retries) && free(p)
    ensures forall p: uint32 :: port <= p < tried[|tried| - 1] ==> !free(p)
    ensures forall i, j :: 0 <= i < j < |tried| && tried[i] > MAX_PORT ==> tried[j] <= MAX_PORT
  {
    var last := tried[|tried| - 1];
    assert last == port + |tried| - 1;
    forall p: uint32 | port <= p < last ensures !free(p) {
      assert tried[..|tried| - 1][p - port] == p;
    }
  }

  // ---------------------------------------------------------------- the object

  class CIMIndicationListener {
    var listener: Option<uint32>   // the port the Pegasus listener is bound to; None when m_listener is null
    var handlers: map<string, seq<Handler>>
    var port: uint32
    var terminating: bool

    constructor (port: uint32)
      ensures this.port == port && listener == None && handlers == map[] && !terminating
    {
      this.port := port;
      listener := None;
      handlers := map[];
      terminating := false;
    }

    /** start(): `free(p)` tells whether a Pegasus listener can be set up and bound to port p. */
    method Start(retries: Option<int>, free: uint32 -> bool) returns (r: Outcome, tried: seq<uint32>)
      modifies this
      ensures handlers == old(handlers)
      ensures old(listener).Some? ==> r == Ok(()) && tried == [] && unchanged(this)
      ensures old(listener).None? ==> !terminating
      ensures old(listener).None? && (retries.None? || retries.value <= 0) ==>
        && tried == [] && port == old(port) && listener == None
        && r == (if retries.None? then Err(TypeError) else if retries.value < 0 then Err(ValueError) else Ok(()))
      ensures old(listener).None? && retries.Some? && retries.value >= 1 ==>
        && 1 <= |tried| <= Limit(old(port), retries.value)
        && Consecutive(tried, old(port))
        && AllBusy(tried[..|tried| - 1], free)
        && (if free(tried[|tried| - 1])
            then r == Ok(()) && port == tried[|tried| - 1] && listener == Some(port)
            else r == Err(ConnectionError) && port == old(port) && listener == None
                 && |tried| == Limit(old(port), retries.value))
    {
      tried := [];
      if listener.Some? {
        return Ok(()), tried;
      }
      terminating := false;
      if retries.None? {
        return Err(TypeError), tried;
      }
      if retries.value < 0 {
        return Err(ValueError), tried;
      }
      var i := 0;
      while listener.None? && i < retries.value
        invariant 0 <= i <= retries.value
        invariant !terminating && handlers == old(handlers)
        invariant Consecutive(tried, old(port)) && |tried| == i
        invariant listener.None? ==> port == old(port) && AllBusy(tried, free)
        invariant listener.None? && 0 < i < retries.value ==> old(port) + i <= MAX_PORT + 1
        invariant listener.None? && i == retries.value ==> i == 0
        invariant listener.Some? ==>
          && 1 <= i <= Limit(old(port), retries.value)
          && port == tried[i - 1] && listener == Some(port) && free(port)
          && AllBusy(tried[..i - 1], free)
        decreases listener.None?, retries.value - i
      {
        var attempt: uint32 := (port + i) % 0x1_0000_0000;
        tried := tried + [attempt];
        if free(attempt) {
          listener := Some(attempt);
          port := attempt;
        } else if i == retries.value - 1 || attempt >= MAX_PORT + 1 {
          return Err(ConnectionError), tried;
        }
        i := i + 1;
      }
      r := Ok(());
    }

    /** add_handler(): callables before the first non-callable of a list stay registered when the call raises. */
    method AddHandler(name: Option<string>, callable: PyObject, args: seq<int>) returns (r: Outcome)
      modifies this`handlers
      ensures name.None? ==> r == Err(TypeError) && handlers == old(handlers)
      ensures name.Some? && callable.Callable? ==>
        r == Ok(()) && handlers == Register(old(handlers), name.value, [Handler(callable.id, args)])
      ensures name.Some? && callable.Sequence? ==>
        && handlers == Register(old(handlers), name.value, CallablePrefix(callable.items, args))
        && (r == Ok(()) <==> forall i :: 0 <= i < |callable.items| ==> callable.items[i].Callable?)
        && (r != Ok(()) ==> r == Err(TypeError))
      ensures name.Some? && callable.Other? ==> r == Err(TypeError) && handlers == old(handlers)
    {
      if name.None? {
        return Err(TypeError);
      }
      match callable
      case Callable(id) =>
        handlers := handlers[name.value := Registered(handlers, name.value) + [Handler(id, args)]];
        r := Ok(());
      case Sequence(items) =>
        var i := 0;
        while i < |items|
          invariant 0 <= i <= |items|
          invariant forall k :: 0 <= k < i ==> items[k].Callable?
          invariant i <= |CallablePrefix(items, args)|
          invariant handlers == Register(old(handlers), name.value, CallablePrefix(items, args)[..i])
        {
          PrefixStops(items, args, i);
          if !items[i].Callable? {
            assert CallablePrefix(items, args)[..i] == CallablePrefix(items, args);
            return Err(TypeError);
          }
          assert CallablePrefix(items, args)[..i + 1]
              == CallablePrefix(items, args)[..i] + [Handler(items[i].id, args)];
          RegisterOneMore(old(handlers), name.value, CallablePrefix(items, args)[..i], Handler(items[i].id, args));
          handlers := handlers[name.value := Registered(handlers, name.value) + [Handler(items[i].id, args)]];
          i := i + 1;
        }
        assert CallablePrefix(items, args)[..i] == CallablePrefix(items, args);
        r := Ok(());
      case Other =>
        r := Err(TypeError);
    }

    method RemoveHandler(name: Option<string>) returns (r: Outcome)
      modifies this`handlers
      ensures r == (if name.None? then Err(TypeError)
                    else if name.value !in old(handlers) then Err(KeyError) else Ok(()))
      ensures handlers == if r == Ok(()) then old(handlers) - {name.value} else old(handlers)
    {
      if name.None? {
        return Err(TypeError);
      }
      if name.value !in handlers {
        return Err(KeyError);
      }
      handlers := handlers - {name.value};
      r := Ok(());
    }

    /** call(): every handler registered under the name runs once, in registration order. */
    method Call(name: string) returns (calls: seq<Handler>)
      ensures calls == Registered(handlers, name)
    {
      calls := [];
      if name !in handlers {
        return;
      }
      var hs := handlers[name];
      for i := 0 to |hs|
        invariant calls == hs[..i]
      {
        calls := calls + [hs[i]];
      }
    }

    /** consumeIndication() without the locks: the handler name is the URL without its first character. */
    method ConsumeIndication(url: string) returns (r: Result<seq<Handler>, Error>)
      ensures terminating ==> r == Ok([])
      ensures !terminating && url == "" ==> r == Err(OutOfRange)
      ensures !terminating && url != "" ==> r == Ok(Registered(handlers, url[1..]))
    {
      if terminating {
        return Ok([]);
      }
      if |url| < 1 {
        return Err(OutOfRange);
      }
      var calls := Call(url[1..]);
      r := Ok(calls);
    }
  }

  lemma RegisterOneMore(handlers: map<string, seq<Handler>>, name: string, hs: seq<Handler>, h: Handler)
    ensures var m := Register(handlers, name, hs);
            m[name := Registered(m, name) + [h]] == Register(handlers, name, hs + [h])
  {
    var m := Register(handlers, name, hs);
    assert Registered(m, name) + [h] == Registered(handlers, name) + (hs + [h]);
    assert m[name := Registered(m, name) + [h]] == handlers[name := Registered(handlers, name) + (hs + [h])];
  }

  lemma PrefixStops(items: seq<PyObject>, args: seq<int>, i: nat)
    requires i < |items| && forall k :: 0 <= k < i ==> items[k].Callable?
    ensures i <= |CallablePrefix(items, args)|
    ensures items[i].Callable? <==> i < |CallablePrefix(items, args)|
  {
  }

  /** listener.pydoc would have start(10) on port 12345 reach 12355. */
  method TenRetriesTryTenPorts() returns (r: Outcome, tried: seq<uint32>, free: uint32 -> bool)
    ensures forall p :: free(p) <==> p == 12355
    ensures r == Err(ConnectionError) && |tried| == 10 && 12355 !in tried
  {
    var listener := new CIMIndicationListener(12345);
    free := p => p == 12355;
    r, tried := listener.Start(Some(10), free);
  }
}
