/** Any sequence of operations on any number of CIMClass, CIMMethod, CIMParameter and CIMProperty objects, copies
    included, answered by the lazy objects as by objects that build everything at once. */
module LazyHistory {
  import opened Text
  import opened Declarations
  import opened LazyObjects

  // ---------------------------------------------------------------- objects of four classes

  datatype Object =
    | AClass(c: CIMClass)
    | AMethod(m: CIMMethod)
    | AParameter(p: CIMParameter)
    | AProperty(q: CIMProperty)

  /** What an object shows; `unread` is left of laziness: the value of a property still in its cache. */
  datatype Shown = Shown(e: Element, unread: bool)

  ghost function Own(o: Object): set<object> {
    match o
    case AClass(c) => c.Own()
    case AMethod(m) => m.Own()
    case AParameter(p) => p.Own()
    case AProperty(q) => q.Own()
  }

  ghost predicate Valid(o: Object)
    reads Own(o)
  {
    match o
    case AClass(c) => c.Valid()
    case AMethod(m) => m.Valid()
    case AParameter(p) => p.Valid()
    case AProperty(q) => q.Valid()
  }

  ghost function Shows(o: Object): Shown
    requires Valid(o)
    reads Own(o)
  {
    match o
    case AClass(c) => Shown(c.Meaning(), false)
    case AMethod(m) => Shown(m.Meaning(), false)
    case AParameter(p) => Shown(p.Meaning(), false)
    case AProperty(q) => Shown(q.Meaning(), q.Unread())
  }

  // ---------------------------------------------------------------- what the operations mean

  datatype Action =
    | Read(which: Which)
    | Write(which: Which, o: PyObject)
    | Store(which: Which, key: string, item: Element)
    | ReadValue
    | WriteValue(v: PyValue)
    | Rename(name: Option<string>)
    | Resuper(name: Option<string>)
    | Convert

  datatype Reply =
    | Member(o: PyObject)
    | Val(v: PyValue)
    | Status(status: Result<(), Error>)
    | Declared(declared: Result<Decl, Error>)
    | NotAnOperation

  function ToPegasus(e: Element): Result<Decl, Error> {
    if e.PyClass? then ClassBack(e)
    else if e.PyMethod? then MethodBack(e)
    else if e.PyParameter? then ParameterBack(e)
    else PropertyBack(e)
  }

  function NameStatus(name: Option<string>): Reply {
    Status(if name.None? then Err(TypeError) else Ok(()))
  }

  function Act(s: Shown, a: Action): (Shown, Reply) {
    var e := s.e;
    match a
    case Read(w) => if Has(e, w) then (s, Member(Part(e, w))) else (s, NotAnOperation)
    case Write(w, o) =>
      if !Has(e, w) then (s, NotAnOperation)
      else (if SetStatus(o).Ok? then Shown(With(e, w, o), s.unread) else s, Status(SetStatus(o)))
    case Store(w, key, item) =>
      if !Has(e, w) then (s, NotAnOperation)
      else
        var stored := Stored(Part(e, w), key, item);
        (Shown(With(e, w, stored.0), s.unread), Status(stored.1))
    case ReadValue => if e.PyProperty? then (Shown(e, false), Val(e.pyValue)) else (s, NotAnOperation)
    case WriteValue(v) =>
      if e.PyProperty? then (Shown(WithValue(e, v), false), Status(Ok(()))) else (s, NotAnOperation)
    case Rename(name) =>
      if !e.PyClass? then (s, NotAnOperation)
      else (if name.None? then s else Shown(Renamed(e, name.value), s.unread), NameStatus(name))
    case Resuper(name) =>
      if !e.PyClass? then (s, NotAnOperation)
      else (if name.None? then s else Shown(Resupered(e, name.value), s.unread), NameStatus(name))
    case Convert => (Shown(e, false), Declared(ToPegasus(e)))
  }

  /** A property copied before its value was read has no value. */
  function CopyOf(s: Shown): Result<Shown, Error> {
    if !Copyable(s.e) then Err(TypeError)
    else Ok(Shown(if s.unread && s.e.PyProperty? then WithValue(s.e, NoValue) else s.e, false))
  }

  function Created(d: Decl): Option<Shown> {
    if d.Class? then Some(Shown(ClassOf(d), false))
    else if d.Method? then Some(Shown(MethodOf(d), false))
    else if d.Parameter? then Some(Shown(ParameterOf(d), false))
    else if d.Property? && ValueOk(d.value) then Some(Shown(PropertyOf(d), true))
    else None
  }

  // ---------------------------------------------------------------- the same on the objects

  method ActOnClass(c: CIMClass, a: Action) returns (reply: Reply)
    requires c.Valid()
    modifies c.Own()
    ensures c.Valid() && (Shown(c.Meaning(), false), reply) == Act(Shown(old(c.Meaning()), false), a)
  {
    hide CIMClass.Valid, CIMClass.Meaning, ClassBack, Stored, SetStatus;
    match a
    case Read(w) =>
      if w == Parameters {
        return NotAnOperation;
      }
      var o := c.Get(w);
      reply := Member(o);
    case Write(w, o) =>
      if w == Parameters {
        return NotAnOperation;
      }
      var r := c.Set(w, o);
      reply := Status(r);
    case Store(w, key, item) =>
      if w == Parameters {
        return NotAnOperation;
      }
      var r := c.StoreThrough(w, key, item);
      reply := Status(r);
    case ReadValue => reply := NotAnOperation;
    case WriteValue(_) => reply := NotAnOperation;
    case Rename(name) => var r := c.SetClassname(name); reply := Status(r);
    case Resuper(name) => var r := c.SetSuperclass(name); reply := Status(r);
    case Convert => var r := c.AsPegasus(); reply := Declared(r);
  }

  method ActOnMethod(m: CIMMethod, a: Action) returns (reply: Reply)
    requires m.Valid()
    modifies m.Own()
    ensures m.Valid() && (Shown(m.Meaning(), false), reply) == Act(Shown(old(m.Meaning()), false), a)
  {
    hide CIMMethod.Valid, CIMMethod.Meaning, MethodBack, Stored, SetStatus;
    match a
    case Read(w) =>
      if w != Parameters && w != Qualifiers {
        return NotAnOperation;
      }
      var o := m.Get(w);
      reply := Member(o);
    case Write(w, o) =>
      if w != Parameters && w != Qualifiers {
        return NotAnOperation;
      }
      var r := m.Set(w, o);
      reply := Status(r);
    case Store(w, key, item) =>
      if w != Parameters && w != Qualifiers {
        return NotAnOperation;
      }
      var r := m.StoreThrough(w, key, item);
      reply := Status(r);
    case ReadValue => reply := NotAnOperation;
    case WriteValue(_) => reply := NotAnOperation;
    case Rename(_) => reply := NotAnOperation;
    case Resuper(_) => reply := NotAnOperation;
    case Convert => var r := m.AsPegasus(); reply := Declared(r);
  }

  method ActOnParameter(p: CIMParameter, a: Action) returns (reply: Reply)
    requires p.Valid()
    modifies p.Own()
    ensures p.Valid() && (Shown(p.Meaning(), false), reply) == Act(Shown(old(p.Meaning()), false), a)
  {
    hide CIMParameter.Valid, CIMParameter.Meaning, ParameterBack, Stored, SetStatus;
    match a
    case Read(w) =>
      if w != Qualifiers {
        return NotAnOperation;
      }
      var o := p.GetQualifiers();
      reply := Member(o);
    case Write(w, o) =>
      if w != Qualifiers {
        return NotAnOperation;
      }
      var r := p.SetQualifiers(o);
      reply := Status(r);
    case Store(w, key, item) =>
      if w != Qualifiers {
        return NotAnOperation;
      }
      var r := p.StoreQualifier(key, item);
      reply := Status(r);
    case ReadValue => reply := NotAnOperation;
    case WriteValue(_) => reply := NotAnOperation;
    case Rename(_) => reply := NotAnOperation;
    case Resuper(_) => reply := NotAnOperation;
    case Convert => var r := p.AsPegasus(); reply := Declared(r);
  }

  method ActOnProperty(q: CIMProperty, a: Action) returns (reply: Reply)
    requires q.Valid()
    modifies q.Own()
    ensures q.Valid() && (Shown(q.Meaning(), q.Unread()), reply) == Act(Shown(old(q.Meaning()), old(q.Unread())), a)
  {
    hide CIMProperty.Valid, CIMProperty.Meaning, CIMProperty.Unread, PropertyBack, Stored, SetStatus;
    match a
    case Read(w) =>
      if w != Qualifiers {
        return NotAnOperation;
      }
      var o := q.GetQualifiers();
      reply := Member(o);
    case Write(w, o) =>
      if w != Qualifiers {
        return NotAnOperation;
      }
      var r := q.SetQualifiers(o);
      reply := Status(r);
    case Store(w, key, item) =>
      if w != Qualifiers {
        return NotAnOperation;
      }
      var r := q.StoreQualifier(key, item);
      reply := Status(r);
    case ReadValue => var v := q.GetValue(); reply := Val(v);
    case WriteValue(v) => q.SetValue(v); reply := Status(Ok(()));
    case Rename(_) => reply := NotAnOperation;
    case Resuper(_) => reply := NotAnOperation;
    case Convert => var r := q.AsPegasus(); reply := Declared(r);
  }

  method ActOn(o: Object, a: Action) returns (reply: Reply)
    requires Valid(o)
    modifies Own(o)
    ensures Valid(o) && (Shows(o), reply) == Act(old(Shows(o)), a)
  {
    hide CIMClass.Valid, CIMMethod.Valid, CIMParameter.Valid, CIMProperty.Valid, Act;
    hide CIMClass.Meaning, CIMMethod.Meaning, CIMParameter.Meaning, CIMProperty.Meaning, CIMProperty.Unread;
    match o
    case AClass(c) => reply := ActOnClass(c, a);
    case AMethod(m) => reply := ActOnMethod(m, a);
    case AParameter(p) => reply := ActOnParameter(p, a);
    case AProperty(q) => reply := ActOnProperty(q, a);
  }

  method Duplicate(o: Object) returns (r: Result<Object, Error>)
    requires Valid(o)
    modifies Own(o)
    ensures Valid(o) && Shows(o) == old(Shows(o))
    ensures match CopyOf(old(Shows(o)))
            case Err(error) => r == Err(error)
            case Ok(s) => r.Ok? && fresh(Own(r.value)) && Valid(r.value) && Shows(r.value) == s
  {
    hide CIMClass.Valid, CIMMethod.Valid, CIMParameter.Valid, CIMProperty.Valid, Copyable;
    hide CIMClass.Meaning, CIMMethod.Meaning, CIMParameter.Meaning, CIMProperty.Meaning, CIMProperty.Unread;
    match o
    case AClass(c) =>
      var x := c.Copy();
      r := if x.Ok? then Ok(AClass(x.value)) else Err(x.error);
    case AMethod(m) =>
      var x := m.Copy();
      r := if x.Ok? then Ok(AMethod(x.value)) else Err(x.error);
    case AParameter(p) =>
      var x := p.Copy();
      r := if x.Ok? then Ok(AParameter(x.value)) else Err(x.error);
    case AProperty(q) =>
      var x := q.Copy();
      r := if x.Ok? then Ok(AProperty(x.value)) else Err(x.error);
  }

  method New(d: Decl) returns (o: Object)
    requires Created(d).Some?
    ensures fresh(Own(o)) && Valid(o) && Shows(o) == Created(d).value
  {
    hide CIMClass.Valid, CIMMethod.Valid, CIMParameter.Valid, CIMProperty.Valid;
    hide CIMClass.Meaning, CIMMethod.Meaning, CIMParameter.Meaning, CIMProperty.Meaning, CIMProperty.Unread;
    hide ClassOf, MethodOf, ParameterOf, PropertyOf;
    if d.Class? {
      var c := new CIMClass.Create(d);
      o := AClass(c);
    } else if d.Method? {
      var m := new CIMMethod.Create(d);
      o := AMethod(m);
    } else if d.Parameter? {
      var p := new CIMParameter.Create(d);
      o := AParameter(p);
    } else {
      var q := new CIMProperty.Create(d);
      o := AProperty(q);
    }
  }

  // ---------------------------------------------------------------- histories

  datatype Op = Create(n: nat, d: Decl) | On(n: nat, a: Action) | Copy(n: nat, source: nat)

  function Step(store: map<nat, Shown>, op: Op): (map<nat, Shown>, Reply) {
    match op
    case Create(n, d) =>
      if n in store || Created(d).None? then (store, NotAnOperation)
      else (store[n := Created(d).value], Status(Ok(())))
    case On(n, a) =>
      if n !in store then (store, NotAnOperation)
      else (store[n := Act(store[n], a).0], Act(store[n], a).1)
    case Copy(n, source) =>
      if n in store || source !in store then (store, NotAnOperation)
      else
        match CopyOf(store[source])
        case Err(error) => (store, Status(Err(error)))
        case Ok(s) => (store[n := s], Status(Ok(())))
  }

  function Run(ops: seq<Op>): (map<nat, Shown>, seq<Reply>) {
    if ops == [] then (map[], [])
    else
      var n := |ops| - 1;
      var before := Run(ops[..n]);
      var step := Step(before.0, ops[n]);
      (step.0, before.1 + [step.1])
  }

  ghost function Footprint(table: map<nat, Object>): set<object> {
    set n, x | n in table && x in Own(table[n]) :: x
  }

  /** Each name has an object of its own that shows what it should. */
  ghost predicate Tracks(table: map<nat, Object>, store: map<nat, Shown>)
    reads Footprint(table)
  {
    && table.Keys == store.Keys
    && (forall n, m :: n in table && m in table && n != m ==> Own(table[n]) !! Own(table[m]))
    && forall n :: n in table ==> Valid(table[n]) && Shows(table[n]) == store[n]
  }

  lemma OwnExists(o: Object)
    ensures forall x :: x in Own(o) ==> allocated(x)
  {
  }

  method Apply(table: map<nat, Object>, ghost store: map<nat, Shown>, op: Op)
    returns (table': map<nat, Object>, reply: Reply)
    requires Tracks(table, store)
    modifies Footprint(table)
    ensures Tracks(table', Step(store, op).0) && reply == Step(store, op).1
    ensures fresh(Footprint(table') - Footprint(table))
  {
    hide Valid, Shows, Own, Act, CopyOf, Created;
    forall m | m in table ensures forall x :: x in Own(table[m]) ==> allocated(x) {
      OwnExists(table[m]);
    }
    table', reply := table, NotAnOperation;
    match op
    case Create(n, d) =>
      if n !in table && Created(d).Some? {
        var o := New(d);
        table', reply := table[n := o], Status(Ok(()));
        assert Tracks(table', Step(store, op).0);
      }
    case On(n, a) =>
      if n in table {
        reply := ActOn(table[n], a);
        assert Tracks(table', Step(store, op).0);
      }
    case Copy(n, source) =>
      if n !in table && source in table {
        var r := Duplicate(table[source]);
        assert forall m :: m in table ==> Valid(table[m]) && Shows(table[m]) == store[m];
        if r.Err? {
          reply := Status(Err(r.error));
        } else {
          table', reply := table[n := r.value], Status(Ok(()));
          assert Tracks(table', Step(store, op).0);
        }
      }
  }

  /** The main result: whatever is created, read, written, stored through, converted and copied, in any order and
      also on copies and copies of copies, the lazy objects answer as Run says. */
  method Replay(ops: seq<Op>) returns (replies: seq<Reply>)
    ensures replies == Run(ops).1
  {
    hide Step, Tracks;
    var table: map<nat, Object> := map[];
    replies := [];
    NothingYet();
    for i := 0 to |ops|
      invariant fresh(Footprint(table)) && Tracks(table, Run(ops[..i]).0) && replies == Run(ops[..i]).1
    {
      assert ops[..i + 1][..i] == ops[..i];
      var reply;
      table, reply := Apply(table, Run(ops[..i]).0, ops[i]);
      replies := replies + [reply];
    }
    assert ops[..|ops|] == ops;
  }

  lemma NothingYet()
    ensures Tracks(map[], map[])
  {
  }

  // ---------------------------------------------------------------- nothing lazy is left to see

  /** The store of objects that build everything at once. */
  function Eager(store: map<nat, Shown>): map<nat, Shown> {
    map n | n in store :: Shown(store[n].e, false)
  }

  function EagerRun(ops: seq<Op>): (map<nat, Shown>, seq<Reply>) {
    if ops == [] then (map[], [])
    else
      var n := |ops| - 1;
      var before := EagerRun(ops[..n]);
      var step := Step(before.0, ops[n]);
      (Eager(step.0), before.1 + [step.1])
  }

  /** A copy of a property whose value has not been read and is not None. */
  predicate LosesValue(store: map<nat, Shown>, op: Op) {
    && op.Copy? && op.n !in store && op.source in store
    && var s := store[op.source];
       s.unread && s.e.PyProperty? && s.e.pyValue != NoValue && Copyable(s.e)
  }

  lemma ActIsEager(s: Shown, a: Action)
    ensures Act(Shown(s.e, false), a).1 == Act(s, a).1
    ensures Act(Shown(s.e, false), a).0.e == Act(s, a).0.e
  {
  }

  /** One operation: the answer never tells, and the objects differ afterwards exactly if it was such a copy. */
  lemma StepIsEager(store: map<nat, Shown>, op: Op)
    ensures Step(Eager(store), op).1 == Step(store, op).1
    ensures Eager(Step(Eager(store), op).0) == Eager(Step(store, op).0) <==> !LosesValue(store, op)
  {
    hide Act, Created, CopyOf;
    EagerOfEager(store);
    match op
    case Create(n, d) =>
      if n !in store && Created(d).Some? {
        SameAfterUpdate(store, n, Created(d).value, Created(d).value);
      }
    case On(n, a) =>
      if n in store {
        ActIsEager(store[n], a);
        SameAfterUpdate(store, n, Act(Eager(store)[n], a).0, Act(store[n], a).0);
      }
    case Copy(n, source) =>
      if n !in store && source in store {
        var s := store[source];
        assert Eager(store)[source] == Shown(s.e, false);
        CopyIsEager(s);
        if CopyOf(s).Ok? {
          SameAfterUpdate(store, n, CopyOf(Shown(s.e, false)).value, CopyOf(s).value);
          assert Step(store, op).0 == store[n := CopyOf(s).value];
          assert Step(Eager(store), op).0 == Eager(store)[n := CopyOf(Shown(s.e, false)).value];
          assert LosesValue(store, op) <==> s.unread && s.e.PyProperty? && s.e.pyValue != NoValue;
        } else {
          assert !LosesValue(store, op);
          assert Step(store, op).0 == store && Step(Eager(store), op).0 == Eager(store);
        }
      }
  }

  lemma CopyIsEager(s: Shown)
    ensures CopyOf(s).Ok? <==> Copyable(s.e)
    ensures match CopyOf(s)
            case Err(error) => CopyOf(Shown(s.e, false)) == Err(error)
            case Ok(copy) =>
              && CopyOf(Shown(s.e, false)).Ok?
              && (CopyOf(Shown(s.e, false)).value.e == copy.e <==>
                  !(s.unread && s.e.PyProperty? && s.e.pyValue != NoValue))
  {
    hide Copyable;
  }

  lemma EagerOfEager(store: map<nat, Shown>)
    ensures Eager(Eager(store)) == Eager(store)
  {
  }

  lemma SameAfterUpdate(store: map<nat, Shown>, n: nat, s: Shown, t: Shown)
    ensures Eager(Eager(store)[n := s]) == Eager(store[n := t]) <==> s.e == t.e
  {
    assert Eager(Eager(store)[n := s]) == Eager(store)[n := Shown(s.e, false)];
    assert Eager(store[n := t]) == Eager(store)[n := Shown(t.e, false)];
    assert Eager(store)[n := Shown(s.e, false)][n] == Shown(s.e, false);
    assert Eager(store)[n := Shown(t.e, false)][n] == Shown(t.e, false);
  }

  /** As long as no property is copied before its value was read, nothing tells the lazy objects from eager ones. */
  lemma {:induction false} RunIsEager(ops: seq<Op>)
    requires forall i :: 0 <= i < |ops| ==> !LosesValue(Run(ops[..i]).0, ops[i])
    ensures EagerRun(ops) == (Eager(Run(ops).0), Run(ops).1)
  {
    if ops != [] {
      var n := |ops| - 1;
      var init := ops[..n];
      forall i | 0 <= i < |init| ensures !LosesValue(Run(init[..i]).0, init[i]) {
        assert init[..i] == ops[..i];
      }
      RunIsEager(init);
      assert !LosesValue(Run(ops[..n]).0, ops[n]);
      hide Step, LosesValue, Eager;
      StepIsEager(Run(init).0, ops[n]);
    }
  }
}
