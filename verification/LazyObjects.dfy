/** CIMClass, CIMMethod, CIMParameter and CIMProperty build their sections on first use from a list of Pegasus
    declarations kept in a reference-counted cache. Each method is specified on the object an eager implementation
    would have built: no contract says when a section is evaluated, except that it happens at most once. */
module LazyObjects {
  import opened Text
  import opened Declarations
  import D = NocaseDict
  import R = RefCounted

  // ---------------------------------------------------------------- one lazy section

  /** RefCountedPtr() on a part of the heap of its own. */
  method NewCache<T>() returns (m: R.Memory<T>, h: R.Handle<T>)
    ensures fresh(m) && fresh(h) && fresh(m.cells) && fresh(m.boxes) && m.handles == {h}
    ensures h.Usable(m) && h.Sane(m) && !h.Shows().Holds?
  {
    hide R.Memory.Valid;
    m := new R.Memory<T>();
    h := new R.Handle<T>(m);
    m.ShownIsRead(h);
  }

  /** set() on it. */
  method SetCache<T>(content: T) returns (m: R.Memory<T>, h: R.Handle<T>)
    ensures fresh(m) && fresh(h) && fresh(m.cells) && fresh(m.boxes) && m.handles == {h}
    ensures h.Usable(m) && h.Sane(m) && h.Shows() == R.Holds(content)
  {
    hide R.Memory.Valid;
    m, h := NewCache();
    h.Set(m, content);
    m.ShownIsRead(h);
  }

  /** get()->push_back() */
  method PushBack(m: R.Memory<seq<Decl>>, h: R.Handle<seq<Decl>>, d: Decl)
    requires h.Usable(m) && h.Sane(m) && h.Shows().Holds?
    modifies h.cell.value`content, m`shown
    ensures h.Usable(m) && h.Sane(m) && h.Shows() == R.Holds(old(h.Shows().content) + [d])
  {
    hide R.Memory.Valid;
    var list := h.Get();
    h.Change(m, list.content + [d]);
  }

  /** A new cache is set to an empty list, to which the declarations are pushed one by one. */
  method Filled(ds: seq<Decl>) returns (m: R.Memory<seq<Decl>>, h: R.Handle<seq<Decl>>)
    ensures fresh(m) && fresh(h) && fresh(m.cells) && fresh(m.boxes) && m.handles == {h}
    ensures h.Usable(m) && h.Sane(m) && h.Shows() == R.Holds(ds)
  {
    hide R.Memory.Valid, R.Handle.Sane;
    m, h := SetCache([]);
    for i := 0 to |ds|
      invariant fresh(m) && fresh(h) && fresh(m.cells) && fresh(m.boxes) && m.handles == {h}
      invariant h.Usable(m) && h.Sane(m) && h.Shows() == R.Holds(ds[..i])
    {
      m.HeldIsOwn(h);
      PushBack(m, h, ds[i]);
      assert ds[..i + 1] == ds[..i] + [ds[i]];
    }
    assert ds[..|ds|] == ds;
  }

  /** A member such as m_properties together with its cache m_rc_class_properties. */
  class Section {
    var member: PyObject
    const memory: R.Memory<seq<Decl>>    // the part of the heap the cache uses
    const cache: R.Handle<seq<Decl>>
    const create: Decl -> Element
    ghost const own: set<object>
    ghost var evaluations: nat           // how often the cached list was turned into Python objects

    ghost predicate Valid()
      reads own
    {
      && this in own && memory in own && cache in own
      && memory.handles == {cache}
      && (forall c :: c in memory.cells ==> c in own) && (forall b :: b in memory.boxes ==> b in own)
      && cache.Usable(memory) && cache.Sane(memory)
      && evaluations + (if cache.Shows().Holds? then 1 else 0) <= 1
    }

    ghost predicate Cached()
      requires Valid()
      reads own
    {
      cache.Shows().Holds?
    }

    /** What an eager implementation would have stored here. */
    ghost function Meaning(): PyObject
      requires Valid()
      reads own
    {
      if cache.Shows().Holds? then Nocase(Dictionary(cache.Shows().content, create)) else member
    }

    constructor Cache(ds: seq<Decl>, create: Decl -> Element)
      ensures Valid() && fresh(own) && Meaning() == Nocase(Dictionary(ds, create)) && evaluations == 0
    {
      hide R.Memory.Valid;
      var m, h := Filled(ds);
      memory, cache, this.create := m, h, create;
      own := {this, m, h} + m.cells + m.boxes;
      member := Nothing;
      evaluations := 0;
    }

    constructor Plain(member: PyObject)
      ensures Valid() && fresh(own) && Meaning() == member && evaluations == 0
    {
      hide R.Memory.Valid;
      var m, h := NewCache<seq<Decl>>();
      memory, cache, this.create := m, h, QualifierOf;
      own := {this, m, h} + m.cells + m.boxes;
      this.member := member;
      evaluations := 0;
    }

    /** The getter: fill the dictionary from the cache, release the cache. The list is read only while the cache
        holds one. */
    method Get() returns (o: PyObject)
      requires Valid()
      modifies own
      ensures Valid() && !Cached() && o == Meaning() == old(Meaning())
      ensures evaluations == old(evaluations) + (if old(Cached()) then 1 else 0)
    {
      hide R.Memory.Valid, D.Insert;
      var empty := cache.Empty();
      if !empty {
        var list := cache.Get();
        var ds := list.content;
        member := Nocase([]);
        for i := 0 to |ds|
          invariant Valid() && cache.Shows() == R.Holds(ds) && evaluations == old(evaluations)
          invariant member == Nocase(Dictionary(ds[..i], create))
        {
          assert ds[..i + 1][..i] == ds[..i];
          member := Nocase(D.Insert(member.entries, ds[i].name, create(ds[i])));
        }
        assert ds[..|ds|] == ds;
        evaluations := evaluations + 1;
        cache.Release(memory);
        memory.ShownIsRead(cache);
      }
      o := member;
    }

    /** The setter: a NocaseDict or a dict replaces the section and drops the cache, anything else raises. */
    method Set(o: PyObject) returns (r: Result<(), Error>)
      requires Valid()
      modifies own
      ensures Valid() && r == SetStatus(o)
      ensures r == if o.Nocase? || o.PlainDict? then Ok(()) else Err(TypeError)
      ensures Meaning() == if r.Ok? then o else old(Meaning())
    {
      hide R.Memory.Valid;
      r := SetStatus(o);
      if r.Err? {
        return;
      }
      member := o;
      cache.Release(memory);
      memory.ShownIsRead(cache);
    }

    /** The client stores an item through the object the getter returned. */
    method StoreThrough(key: string, e: Element) returns (r: Result<(), Error>)
      requires Valid()
      modifies own
      ensures Valid()
      ensures r == Stored(old(Meaning()), key, e).1 && Meaning() == Stored(old(Meaning()), key, e).0
    {
      var o := Get();
      member, r := Stored(o, key, e).0, Stored(o, key, e).1;
    }
  }

  function SetStatus(o: PyObject): Result<(), Error> {
    if o.Nocase? || o.PlainDict? then Ok(()) else Err(TypeError)
  }

  /** d[key] = x on a Python dict, listed in the order of first insertion. */
  function PutPair<T>(pairs: seq<(string, T)>, key: string, x: T): seq<(string, T)> {
    if pairs == [] then [(key, x)]
    else if pairs[0].0 == key then [(key, x)] + pairs[1..]
    else [pairs[0]] + PutPair(pairs[1..], key, x)
  }

  function FindPair<T>(pairs: seq<(string, T)>, key: string): Option<T> {
    if pairs == [] then None else if pairs[0].0 == key then Some(pairs[0].1) else FindPair(pairs[1..], key)
  }

  /** It is found under its key, spelled the same way, and every other key finds what it did before; a new key comes
      last. */
  lemma {:induction false} PutThenFind<T>(pairs: seq<(string, T)>, key: string, x: T, other: string)
    ensures FindPair(PutPair(pairs, key, x), other) == if other == key then Some(x) else FindPair(pairs, other)
    ensures |PutPair(pairs, key, x)| == if FindPair(pairs, key).Some? then |pairs| else |pairs| + 1
    ensures forall i :: 0 <= i < |pairs| ==>
      PutPair(pairs, key, x)[i].0 == pairs[i].0 && (pairs[i].0 != key ==> PutPair(pairs, key, x)[i] == pairs[i])
  {
    if pairs != [] {
      PutThenFind(pairs[1..], key, x, other);
      var rest := PutPair(pairs[1..], key, x);
      assert forall i :: 0 < i < |pairs| ==> pairs[i] == pairs[1..][i - 1];
    }
  }

  function Stored(o: PyObject, key: string, e: Element): (PyObject, Result<(), Error>) {
    match o
    case Nocase(entries) => (Nocase(D.Insert(entries, key, e)), Ok(()))
    case PlainDict(pairs) => (PlainDict(PutPair(pairs, key, e)), Ok(()))
    case Nothing => (o, Err(TypeError))
    case Other(_) => (o, Err(TypeError))
  }

  /** Storing in a NocaseDict is the update of its map, so the key is found in any spelling, keeps the one it had and
      leaves the others alone; in a dict it is found in its own spelling; nothing else takes an item. */
  lemma StoredIsFound(o: PyObject, key: string, e: Element)
    ensures Stored(o, key, e).1 == if o.Nocase? || o.PlainDict? then Ok(()) else Err(TypeError)
    ensures o.Nocase? && D.Sorted(o.entries) ==>
      var o' := Stored(o, key, e).0;
      o'.Nocase? && D.Sorted(o'.entries) && D.Model(o'.entries) == D.Put(D.Model(o.entries), key, e)
    ensures o.PlainDict? ==>
      var o' := Stored(o, key, e).0;
      o'.PlainDict? && forall k ::
        FindPair(o'.pairs, k) == if k == key then Some(e) else FindPair(o.pairs, k)
    ensures Stored(o, key, e).1.Err? ==> Stored(o, key, e).0 == o
  {
    hide D.Insert, D.Model, D.Sorted, D.Put;
    if o.Nocase? && D.Sorted(o.entries) {
      D.InsertIsPut(o.entries, key, e);
    }
    if o.PlainDict? {
      forall k ensures FindPair(PutPair(o.pairs, key, e), k) == if k == key then Some(e) else FindPair(o.pairs, k) {
        PutThenFind(o.pairs, key, e, k);
      }
    }
  }

  /** The sections of an object from the server are in order. */
  lemma {:induction false} DictionaryIsSorted(ds: seq<Decl>, create: Decl -> Element)
    ensures D.Sorted(Dictionary(ds, create))
  {
    if ds != [] {
      hide D.Sorted, D.Insert;
      var n := |ds| - 1;
      DictionaryIsSorted(ds[..n], create);
      D.InsertIsPut(Dictionary(ds[..n], create), ds[n].name, create(ds[n]));
    }
  }

  /** What a client sees of a class from the server: it reads a section, stores an item, and reads the section again.
      The item is there under its folded name, with the spelling a key had before or else this one, and every other
      key is as it was. */
  method StoreThenGet(d: Decl, which: Which, key: string, e: Element)
    returns (before: PyObject, status: Result<(), Error>, after: PyObject)
    requires d.Class? && which != Parameters
    ensures before == Part(ClassOf(d), which) && status == Ok(()) && before.Nocase? && after.Nocase?
    ensures var m, m' := D.Model(before.entries), D.Model(after.entries);
            && Lower(key) in m' && m'[Lower(key)].value == e
            && m'[Lower(key)].key == (if Lower(key) in m then m[Lower(key)].key else key)
            && forall k :: k != Lower(key) ==> (k in m' <==> k in m) && (k in m ==> m'[k] == m[k])
  {
    hide CIMClass.Valid, CIMClass.Meaning, Stored, D.Model, D.Sorted, Dictionary;
    var c := new CIMClass.Create(d);
    DictionaryIsSorted(d.properties, PropertyOf);
    DictionaryIsSorted(d.qualifiers, QualifierOf);
    DictionaryIsSorted(d.methods, MethodOf);
    before := c.Get(which);
    StoredIsFound(before, key, e);
    status := c.StoreThrough(which, key, e);
    after := c.Get(which);
  }

  /** addProperty(), addQualifier(), addMethod() and addParameter(), one entry after the other. */
  method AddEach(es: seq<D.Entry<Element>>, convert: Element -> Result<Decl, Error>)
    returns (r: Result<seq<Decl>, Error>)
    ensures r == AddAll(es, convert)
  {
    var ds: seq<Decl> := [];
    for i := 0 to |es|
      invariant AddAll(es[..i], convert) == Ok(ds)
    {
      assert es[..i + 1][..i] == es[..i];
      var d := convert(es[i].value);
      if d.Err? {
        FailsFrom(es, convert, i + 1);
        return Err(d.error);
      }
      if HasName(ds, d.value.name) {
        FailsFrom(es, convert, i + 1);
        return Err(AlreadyExists);
      }
      ds := ds + [d.value];
    }
    assert es[..|es|] == es;
    r := Ok(ds);
  }

  /** The first failure is the answer. */
  lemma {:induction false} FailsFrom(es: seq<D.Entry<Element>>, convert: Element -> Result<Decl, Error>, i: nat)
    requires i <= |es| && AddAll(es[..i], convert).Err?
    ensures AddAll(es, convert) == AddAll(es[..i], convert)
    decreases |es|
  {
    if i == |es| {
      assert es[..i] == es;
    } else {
      var n := |es| - 1;
      assert es[..n][..i] == es[..i];
      FailsFrom(es[..n], convert, i);
    }
  }

  // ---------------------------------------------------------------- CIMClass

  datatype Which = Properties | Qualifiers | Methods | Parameters

  class CIMClass {
    var classname: string
    var superclass: string
    const properties: Section
    const qualifiers: Section
    const methods: Section

    ghost function Own(): set<object> {
      {this} + properties.own + qualifiers.own + methods.own
    }

    ghost predicate Valid()
      reads Own()
    {
      && this !in properties.own + qualifiers.own + methods.own
      && properties.own !! qualifiers.own && properties.own !! methods.own && qualifiers.own !! methods.own
      && properties.Valid() && qualifiers.Valid() && methods.Valid()
    }

    ghost function Meaning(): (e: Element)
      requires Valid()
      reads Own()
      ensures e.PyClass?
    {
      PyClass(classname, superclass, properties.Meaning(), qualifiers.Meaning(), methods.Meaning())
    }

    /** CIMClass::create: keep the declarations for later. */
    constructor Create(d: Decl)
      requires d.Class?
      ensures Valid() && fresh(Own()) && Meaning() == ClassOf(d)
      ensures properties.evaluations == qualifiers.evaluations == methods.evaluations == 0
    {
      hide Section.Valid, Section.Meaning, Dictionary;
      classname, superclass := d.name, d.superclass;
      properties := new Section.Cache(d.properties, PropertyOf);
      qualifiers := new Section.Cache(d.qualifiers, QualifierOf);
      methods := new Section.Cache(d.methods, MethodOf);
    }

    constructor Plain(e: Element)
      requires e.PyClass?
      ensures Valid() && fresh(Own()) && Meaning() == e
    {
      hide Section.Valid, Section.Meaning;
      classname, superclass := e.name, e.superclass;
      properties := new Section.Plain(e.properties);
      qualifiers := new Section.Plain(e.qualifiers);
      methods := new Section.Plain(e.methods);
    }

    method Get(which: Which) returns (o: PyObject)
      requires Valid() && which != Parameters
      modifies Own()
      ensures Valid() && Meaning() == old(Meaning()) && o == Part(Meaning(), which)
    {
      hide Section.Valid, Section.Meaning;
      match which
      case Properties => o := properties.Get();
      case Qualifiers => o := qualifiers.Get();
      case Methods => o := methods.Get();
    }

    method Set(which: Which, o: PyObject) returns (r: Result<(), Error>)
      requires Valid() && which != Parameters
      modifies Own()
      ensures Valid() && r == SetStatus(o)
      ensures Meaning() == if r.Ok? then With(old(Meaning()), which, o) else old(Meaning())
    {
      hide Section.Valid, Section.Meaning;
      match which
      case Properties => r := properties.Set(o);
      case Qualifiers => r := qualifiers.Set(o);
      case Methods => r := methods.Set(o);
    }

    method StoreThrough(which: Which, key: string, e: Element) returns (r: Result<(), Error>)
      requires Valid() && which != Parameters
      modifies Own()
      ensures Valid()
      ensures var stored := Stored(Part(old(Meaning()), which), key, e);
              r == stored.1 && Meaning() == With(old(Meaning()), which, stored.0)
    {
      hide Section.Valid, Section.Meaning, Stored;
      match which
      case Properties => r := properties.StoreThrough(key, e);
      case Qualifiers => r := qualifiers.StoreThrough(key, e);
      case Methods => r := methods.StoreThrough(key, e);
    }

    method SetClassname(name: Option<string>) returns (r: Result<(), Error>)
      requires Valid()
      modifies this
      ensures Valid() && r == (if name.None? then Err(TypeError) else Ok(()))
      ensures Meaning() == if name.None? then old(Meaning()) else Renamed(old(Meaning()), name.value)
    {
      hide Section.Valid, Section.Meaning;
      if name.None? {
        return Err(TypeError);
      }
      classname := name.value;
      r := Ok(());
    }

    method SetSuperclass(name: Option<string>) returns (r: Result<(), Error>)
      requires Valid()
      modifies this
      ensures Valid() && r == (if name.None? then Err(TypeError) else Ok(()))
      ensures Meaning() == if name.None? then old(Meaning()) else Resupered(old(Meaning()), name.value)
    {
      hide Section.Valid, Section.Meaning;
      if name.None? {
        return Err(TypeError);
      }
      superclass := name.value;
      r := Ok(());
    }

    /** copy(): raises when a section is not a NocaseDict; the copy has no caches left. */
    method Copy() returns (r: Result<CIMClass, Error>)
      requires Valid()
      modifies Own()
      ensures Valid() && Meaning() == old(Meaning())
      ensures r.Ok? <==> Copyable(Meaning())
      ensures r.Ok? ==> fresh(r.value.Own()) && r.value.Valid() && r.value.Meaning() == Meaning()
      ensures r.Err? ==> r.error == TypeError
    {
      hide Section.Valid, Section.Meaning;
      var ps := Get(Properties);
      if !ps.Nocase? {
        return Err(TypeError);
      }
      var qs := Get(Qualifiers);
      if !qs.Nocase? {
        return Err(TypeError);
      }
      var ms := Get(Methods);
      if !ms.Nocase? {
        return Err(TypeError);
      }
      var copy := new CIMClass.Plain(PyClass(classname, superclass, ps, qs, ms));
      r := Ok(copy);
    }

    /** asPegasusCIMClass(): the first thing that cannot be converted is the answer. */
    method AsPegasus() returns (r: Result<Decl, Error>)
      requires Valid()
      modifies Own()
      ensures Valid() && Meaning() == old(Meaning()) && r == ClassBack(Meaning())
    {
      hide Section.Valid, Section.Meaning, AddAll, IsCimName;
      if !IsCimName(classname) || !IsCimName(superclass) {
        return Err(InvalidName);
      }
      var ps := Get(Properties);
      if !ps.Nocase? {
        return Err(TypeError);
      }
      var properties' := AddEach(ps.entries, PropertyBack);
      if properties'.Err? {
        return Err(properties'.error);
      }
      var qs := Get(Qualifiers);
      if !qs.Nocase? {
        return Err(TypeError);
      }
      var qualifiers' := AddEach(qs.entries, QualifierBack);
      if qualifiers'.Err? {
        return Err(qualifiers'.error);
      }
      var ms := Get(Methods);
      if !ms.Nocase? {
        return Err(TypeError);
      }
      var methods' := AddEach(ms.entries, MethodBack);
      if methods'.Err? {
        return Err(methods'.error);
      }
      r := Ok(Class(classname, superclass, properties'.value, qualifiers'.value, methods'.value));
    }
  }

  // ---------------------------------------------------------------- CIMMethod

  datatype MethodFields = MethodFields(name: string, returnType: string, classOrigin: string, propagated: bool)

  class CIMMethod {
    var fields: MethodFields
    const parameters: Section
    const qualifiers: Section

    ghost function Own(): set<object> {
      {this} + parameters.own + qualifiers.own
    }

    ghost predicate Valid()
      reads Own()
    {
      && this !in parameters.own + qualifiers.own && parameters.own !! qualifiers.own
      && parameters.Valid() && qualifiers.Valid()
    }

    ghost function Meaning(): (e: Element)
      requires Valid()
      reads Own()
      ensures e.PyMethod?
    {
      PyMethod(fields.name, fields.returnType, fields.classOrigin, fields.propagated,
               parameters.Meaning(), qualifiers.Meaning())
    }

    constructor Create(d: Decl)
      requires d.Method?
      ensures Valid() && fresh(Own()) && Meaning() == MethodOf(d)
    {
      hide Section.Valid, Section.Meaning, Dictionary, TypeName;
      fields := MethodFields(d.name, TypeName(d.cimType), d.classOrigin, d.propagated);
      parameters := new Section.Cache(d.parameters, ParameterOf);
      qualifiers := new Section.Cache(d.qualifiers, QualifierOf);
    }

    constructor Plain(e: Element)
      requires e.PyMethod?
      ensures Valid() && fresh(Own()) && Meaning() == e
    {
      hide Section.Valid, Section.Meaning;
      fields := MethodFields(e.name, e.typeName, e.classOrigin, e.propagated);
      parameters := new Section.Plain(e.parameters);
      qualifiers := new Section.Plain(e.qualifiers);
    }

    method Get(which: Which) returns (o: PyObject)
      requires Valid() && (which == Parameters || which == Qualifiers)
      modifies Own()
      ensures Valid() && Meaning() == old(Meaning()) && o == Part(Meaning(), which)
    {
      hide Section.Valid, Section.Meaning;
      if which == Parameters {
        o := parameters.Get();
      } else {
        o := qualifiers.Get();
      }
    }

    method Set(which: Which, o: PyObject) returns (r: Result<(), Error>)
      requires Valid() && (which == Parameters || which == Qualifiers)
      modifies Own()
      ensures Valid() && r == SetStatus(o)
      ensures Meaning() == if r.Ok? then With(old(Meaning()), which, o) else old(Meaning())
    {
      hide Section.Valid, Section.Meaning;
      if which == Parameters {
        r := parameters.Set(o);
      } else {
        r := qualifiers.Set(o);
      }
    }

    method StoreThrough(which: Which, key: string, e: Element) returns (r: Result<(), Error>)
      requires Valid() && (which == Parameters || which == Qualifiers)
      modifies Own()
      ensures Valid()
      ensures var stored := Stored(Part(old(Meaning()), which), key, e);
              r == stored.1 && Meaning() == With(old(Meaning()), which, stored.0)
    {
      hide Section.Valid, Section.Meaning, Stored;
      if which == Parameters {
        r := parameters.StoreThrough(key, e);
      } else {
        r := qualifiers.StoreThrough(key, e);
      }
    }

    method Copy() returns (r: Result<CIMMethod, Error>)
      requires Valid()
      modifies Own()
      ensures Valid() && Meaning() == old(Meaning())
      ensures r.Ok? <==> Copyable(Meaning())
      ensures r.Ok? ==> fresh(r.value.Own()) && r.value.Valid() && r.value.Meaning() == Meaning()
      ensures r.Err? ==> r.error == TypeError
    {
      hide Section.Valid, Section.Meaning;
      var ps := Get(Parameters);
      if !ps.Nocase? {
        return Err(TypeError);
      }
      var qs := Get(Qualifiers);
      if !qs.Nocase? {
        return Err(TypeError);
      }
      var copy := new CIMMethod.Plain(
        PyMethod(fields.name, fields.returnType, fields.classOrigin, fields.propagated, ps, qs));
      r := Ok(copy);
    }

    /** asPegasusCIMMethod() */
    method AsPegasus() returns (r: Result<Decl, Error>)
      requires Valid()
      modifies Own()
      ensures Valid() && Meaning() == old(Meaning()) && r == MethodBack(Meaning())
    {
      hide Section.Valid, Section.Meaning, AddAll, IsCimName, TypeNamed;
      if !IsCimName(fields.name) || !IsCimName(fields.classOrigin) {
        return Err(InvalidName);
      }
      var ps := Get(Parameters);
      if !ps.Nocase? {
        return Err(TypeError);
      }
      var parameters' := AddEach(ps.entries, ParameterBack);
      if parameters'.Err? {
        return Err(parameters'.error);
      }
      var qs := Get(Qualifiers);
      if !qs.Nocase? {
        return Err(TypeError);
      }
      var qualifiers' := AddEach(qs.entries, QualifierBack);
      if qualifiers'.Err? {
        return Err(qualifiers'.error);
      }
      r := Ok(Method(fields.name, TypeNamed(fields.returnType), fields.classOrigin, fields.propagated,
                     parameters'.value, qualifiers'.value));
    }
  }

  // ---------------------------------------------------------------- CIMParameter

  datatype ParameterFields =
    ParameterFields(name: string, typeName: string, isArray: bool, arraySize: int, referenceClass: string)

  class CIMParameter {
    var fields: ParameterFields
    const qualifiers: Section

    ghost function Own(): set<object> {
      {this} + qualifiers.own
    }

    ghost predicate Valid()
      reads Own()
    {
      this !in qualifiers.own && qualifiers.Valid()
    }

    ghost function Meaning(): (e: Element)
      requires Valid()
      reads Own()
      ensures e.PyParameter?
    {
      PyParameter(fields.name, fields.typeName, fields.isArray, fields.arraySize, fields.referenceClass,
                  qualifiers.Meaning())
    }

    constructor Create(d: Decl)
      requires d.Parameter?
      ensures Valid() && fresh(Own()) && Meaning() == ParameterOf(d)
    {
      hide Section.Valid, Section.Meaning, Dictionary, TypeName, D.ToInt32;
      fields := ParameterFields(d.name, TypeName(d.cimType), d.isArray, D.ToInt32(d.arraySize), d.referenceClass);
      qualifiers := new Section.Cache(d.qualifiers, QualifierOf);
    }

    constructor Plain(e: Element)
      requires e.PyParameter?
      ensures Valid() && fresh(Own()) && Meaning() == e
    {
      hide Section.Valid, Section.Meaning;
      fields := ParameterFields(e.name, e.typeName, e.isArray, e.size, e.referenceClass);
      qualifiers := new Section.Plain(e.qualifiers);
    }

    method GetQualifiers() returns (o: PyObject)
      requires Valid()
      modifies Own()
      ensures Valid() && Meaning() == old(Meaning()) && o == Part(Meaning(), Qualifiers)
    {
      hide Section.Valid, Section.Meaning;
      o := qualifiers.Get();
    }

    method SetQualifiers(o: PyObject) returns (r: Result<(), Error>)
      requires Valid()
      modifies Own()
      ensures Valid() && r == SetStatus(o)
      ensures Meaning() == if r.Ok? then With(old(Meaning()), Qualifiers, o) else old(Meaning())
    {
      hide Section.Valid, Section.Meaning;
      r := qualifiers.Set(o);
    }

    method StoreQualifier(key: string, e: Element) returns (r: Result<(), Error>)
      requires Valid()
      modifies Own()
      ensures Valid()
      ensures var stored := Stored(Part(old(Meaning()), Qualifiers), key, e);
              r == stored.1 && Meaning() == With(old(Meaning()), Qualifiers, stored.0)
    {
      hide Section.Valid, Section.Meaning, Stored;
      r := qualifiers.StoreThrough(key, e);
    }

    method Copy() returns (r: Result<CIMParameter, Error>)
      requires Valid()
      modifies Own()
      ensures Valid() && Meaning() == old(Meaning())
      ensures r.Ok? <==> Copyable(Meaning())
      ensures r.Ok? ==> fresh(r.value.Own()) && r.value.Valid() && r.value.Meaning() == Meaning()
      ensures r.Err? ==> r.error == TypeError
    {
      hide Section.Valid, Section.Meaning;
      var qs := GetQualifiers();
      if !qs.Nocase? {
        return Err(TypeError);
      }
      var copy := new CIMParameter.Plain(
        PyParameter(fields.name, fields.typeName, fields.isArray, fields.arraySize, fields.referenceClass, qs));
      r := Ok(copy);
    }

    /** asPegasusCIMParameter() */
    method AsPegasus() returns (r: Result<Decl, Error>)
      requires Valid()
      modifies Own()
      ensures Valid() && Meaning() == old(Meaning()) && r == ParameterBack(Meaning())
    {
      hide Section.Valid, Section.Meaning, AddAll, IsCimName, TypeNamed;
      if !IsCimName(fields.name) || !IsCimName(fields.referenceClass) {
        return Err(InvalidName);
      }
      var size := fields.arraySize % 0x1_0000_0000;
      if !ParameterFits(TypeNamed(fields.typeName), fields.isArray, size, fields.referenceClass) {
        return Err(TypeMismatch);
      }
      var qs := GetQualifiers();
      if !qs.Nocase? {
        return Err(TypeError);
      }
      var qualifiers' := AddEach(qs.entries, QualifierBack);
      if qualifiers'.Err? {
        return Err(qualifiers'.error);
      }
      r := Ok(Parameter(fields.name, TypeNamed(fields.typeName), fields.isArray, size,
                        fields.referenceClass, qualifiers'.value));
    }
  }

  // ---------------------------------------------------------------- CIMProperty

  /** m_value with its cache m_rc_prop_value. */
  class LazyValue {
    var member: PyValue
    const memory: R.Memory<Value>
    const cache: R.Handle<Value>
    ghost const own: set<object>
    ghost var conversions: nat

    ghost predicate Valid()
      reads own
    {
      && this in own && memory in own && cache in own
      && memory.handles == {cache}
      && (forall c :: c in memory.cells ==> c in own) && (forall b :: b in memory.boxes ==> b in own)
      && cache.Usable(memory) && cache.Sane(memory)
      && conversions + (if cache.Shows().Holds? then 1 else 0) <= 1
      && (cache.Shows().Holds? ==> member == NoValue && ValueOk(cache.Shows().content))
    }

    /** Holds a value that has not been asked for. */
    ghost predicate Cached()
      requires Valid()
      reads own
    {
      cache.Shows().Holds?
    }

    ghost function Meaning(): PyValue
      requires Valid()
      reads own
    {
      if cache.Shows().Holds? then ToPython(cache.Shows().content) else member
    }

    constructor Cache(v: Value)
      requires ValueOk(v)
      ensures Valid() && fresh(own) && Cached() && Meaning() == ToPython(v) && conversions == 0
    {
      hide R.Memory.Valid, ToPython, ValueOk;
      var m, h := SetCache(v);
      memory, cache := m, h;
      own := {this, m, h} + m.cells + m.boxes;
      member := NoValue;
      conversions := 0;
    }

    constructor Plain(member: PyValue)
      ensures Valid() && fresh(own) && !Cached() && Meaning() == member && conversions == 0
    {
      hide R.Memory.Valid;
      var m, h := NewCache<Value>();
      memory, cache := m, h;
      own := {this, m, h} + m.cells + m.boxes;
      this.member := member;
      conversions := 0;
    }

    method Get() returns (v: PyValue)
      requires Valid()
      modifies own
      ensures Valid() && !Cached() && v == Meaning() == old(Meaning())
      ensures conversions == old(conversions) + (if old(Cached()) then 1 else 0)
    {
      hide R.Memory.Valid, ToPython;
      var empty := cache.Empty();
      if !empty {
        var box := cache.Get();
        member := ToPython(box.content);
        conversions := conversions + 1;
        cache.Release(memory);
        memory.ShownIsRead(cache);
      }
      v := member;
    }

    method Set(v: PyValue)
      requires Valid()
      modifies own
      ensures Valid() && !Cached() && Meaning() == v
    {
      hide R.Memory.Valid;
      member := v;
      cache.Release(memory);
      memory.ShownIsRead(cache);
    }

    /** What copy() finds in m_value: it does not ask the cache. */
    method Unforced() returns (v: PyValue)
      requires Valid()
      ensures v == if Cached() then NoValue else Meaning()
    {
      v := member;
    }
  }

  datatype PropertyFields = PropertyFields(
    name: string, typeName: string, isArray: bool, arraySize: int, referenceClass: string, classOrigin: string,
    isPropagated: bool)

  class CIMProperty {
    var fields: PropertyFields
    const value: LazyValue
    const qualifiers: Section

    ghost function Own(): set<object> {
      {this} + value.own + qualifiers.own
    }

    ghost predicate Valid()
      reads Own()
    {
      && this !in value.own + qualifiers.own && value.own !! qualifiers.own
      && value.Valid() && qualifiers.Valid()
    }

    ghost function Meaning(): (e: Element)
      requires Valid()
      reads Own()
      ensures e.PyProperty?
    {
      PyProperty(fields.name, fields.typeName, value.Meaning(), fields.isArray, fields.arraySize,
                 fields.referenceClass, fields.classOrigin, fields.isPropagated, qualifiers.Meaning())
    }

    /** The value is still in its cache. */
    ghost predicate Unread()
      requires Valid()
      reads Own()
    {
      value.Cached()
    }

    constructor Create(d: Decl)
      requires d.Property? && ValueOk(d.value)
      ensures Valid() && fresh(Own()) && Meaning() == PropertyOf(d) && Unread()
    {
      hide Section.Valid, Section.Meaning, LazyValue.Valid, LazyValue.Meaning, Dictionary, TypeName, D.ToInt32;
      hide LazyValue.Cached, ToPython;
      fields := PropertyFields(d.name, TypeName(d.value.cimType), d.value.isArray, D.ToInt32(d.arraySize),
                               d.referenceClass, d.classOrigin, d.propagated);
      value := new LazyValue.Cache(d.value);
      qualifiers := new Section.Cache(d.qualifiers, QualifierOf);
    }

    constructor Plain(e: Element)
      requires e.PyProperty?
      ensures Valid() && fresh(Own()) && Meaning() == e && !Unread()
    {
      hide Section.Valid, Section.Meaning, LazyValue.Valid, LazyValue.Meaning, LazyValue.Cached;
      fields := PropertyFields(e.name, e.typeName, e.isArray, e.size, e.referenceClass, e.classOrigin, e.propagated);
      value := new LazyValue.Plain(e.pyValue);
      qualifiers := new Section.Plain(e.qualifiers);
    }

    method GetValue() returns (v: PyValue)
      requires Valid()
      modifies Own()
      ensures Valid() && Meaning() == old(Meaning()) && v == Meaning().pyValue && !Unread()
    {
      hide Section.Valid, Section.Meaning, LazyValue.Valid, LazyValue.Meaning, LazyValue.Cached;
      v := value.Get();
    }

    method SetValue(v: PyValue)
      requires Valid()
      modifies Own()
      ensures Valid() && Meaning() == WithValue(old(Meaning()), v) && !Unread()
    {
      hide Section.Valid, Section.Meaning, LazyValue.Valid, LazyValue.Meaning, LazyValue.Cached;
      value.Set(v);
    }

    method GetQualifiers() returns (o: PyObject)
      requires Valid()
      modifies Own()
      ensures Valid() && Meaning() == old(Meaning()) && o == Part(Meaning(), Qualifiers) && Unread() == old(Unread())
      ensures unchanged(value.own) && fields == old(fields)
    {
      hide Section.Valid, Section.Meaning, LazyValue.Valid, LazyValue.Meaning, LazyValue.Cached;
      o := qualifiers.Get();
    }

    method SetQualifiers(o: PyObject) returns (r: Result<(), Error>)
      requires Valid()
      modifies Own()
      ensures Valid() && r == SetStatus(o) && Unread() == old(Unread())
      ensures Meaning() == if r.Ok? then With(old(Meaning()), Qualifiers, o) else old(Meaning())
    {
      hide Section.Valid, Section.Meaning, LazyValue.Valid, LazyValue.Meaning, LazyValue.Cached;
      r := qualifiers.Set(o);
    }

    method StoreQualifier(key: string, e: Element) returns (r: Result<(), Error>)
      requires Valid()
      modifies Own()
      ensures Valid() && Unread() == old(Unread())
      ensures var stored := Stored(Part(old(Meaning()), Qualifiers), key, e);
              r == stored.1 && Meaning() == With(old(Meaning()), Qualifiers, stored.0)
    {
      hide Section.Valid, Section.Meaning, LazyValue.Valid, LazyValue.Meaning, LazyValue.Cached, Stored;
      r := qualifiers.StoreThrough(key, e);
    }

    /** copy() takes m_value without forcing its cache, so the copy is what an eager property would give exactly
        when the value has been read or set before, or is a null scalar. */
    method Copy() returns (r: Result<CIMProperty, Error>)
      requires Valid()
      modifies Own()
      ensures Valid() && Meaning() == old(Meaning()) && Unread() == old(Unread())
      ensures unchanged(value.own) && fields == old(fields)
      ensures r.Ok? <==> Copyable(Meaning())
      ensures r.Ok? ==> fresh(r.value.Own()) && r.value.Valid() && !r.value.Unread()
      ensures r.Ok? ==> r.value.Meaning() == if Unread() then WithValue(Meaning(), NoValue) else Meaning()
      ensures r.Ok? ==> (r.value.Meaning() == Meaning() <==> !Unread() || Meaning().pyValue == NoValue)
      ensures r.Err? ==> r.error == TypeError
    {
      hide Section.Valid, Section.Meaning, LazyValue.Valid, LazyValue.Meaning, LazyValue.Cached;
      var qs := GetQualifiers();
      if !qs.Nocase? {
        return Err(TypeError);
      }
      var v := value.Unforced();
      var copy := new CIMProperty.Plain(
        PyProperty(fields.name, fields.typeName, v, fields.isArray, fields.arraySize, fields.referenceClass,
                   fields.classOrigin, fields.isPropagated, qs));
      r := Ok(copy);
    }

    /** asPegasusCIMProperty() */
    method AsPegasus() returns (r: Result<Decl, Error>)
      requires Valid()
      modifies Own()
      ensures Valid() && Meaning() == old(Meaning()) && r == PropertyBack(Meaning()) && !Unread()
    {
      hide Section.Valid, Section.Meaning, LazyValue.Valid, LazyValue.Meaning, LazyValue.Cached;
      hide IsCimName, IsOptionalName, FromPython;
      var v := GetValue();
      var value' := FromPython(v, fields.typeName);
      if value'.Err? {
        return Err(value'.error);
      }
      if !IsCimName(fields.name) || !IsOptionalName(fields.referenceClass) || !IsOptionalName(fields.classOrigin) {
        return Err(InvalidName);
      }
      var size := if value'.value.items.None? then 0 else fields.arraySize % 0x1_0000_0000;
      if !Fits(value'.value, size, fields.referenceClass) {
        return Err(TypeMismatch);
      }
      r := Ok(Property(fields.name, value'.value, size, fields.referenceClass, fields.classOrigin,
                       fields.isPropagated, []));
    }
  }

  function WithValue(e: Element, v: PyValue): (r: Element)
    requires e.PyProperty?
    ensures r.PyProperty? && r.pyValue == v
  {
    PyProperty(e.name, e.typeName, v, e.isArray, e.size, e.referenceClass, e.classOrigin, e.propagated, e.qualifiers)
  }

  function StringProperty(name: string, id: int): (d: Decl)
    ensures d.Property? && ValueOk(d.value)
  {
    Property(name, Value(String, false, Some([Plain(id)])), 0, "", "", false, [])
  }

  lemma StringIsRead(name: string, id: int)
    ensures var e := PropertyOf(StringProperty(name, id));
            e.PyProperty? && e.pyValue == Single(Item(PyString, Plain(id))) && Copyable(e)
  {
  }

  /** The failing case: a property fresh from the server, copied before its value was read, loses the value. */
  method CopyBeforeReadingLosesValue(name: string, id: int) returns (original: PyValue, copied: PyValue)
    ensures original == Single(Item(PyString, Plain(id))) && copied == NoValue
  {
    hide CIMProperty.Valid, CIMProperty.Meaning, CIMProperty.Unread, PropertyOf, StringProperty, Copyable, ValueOk;
    StringIsRead(name, id);
    var p := new CIMProperty.Create(StringProperty(name, id));
    var r := p.Copy();
    copied := r.value.GetValue();
    original := p.GetValue();
  }

  // ---------------------------------------------------------------- what an eager object does

  predicate Has(e: Element, which: Which) {
    match which
    case Properties => e.PyClass?
    case Qualifiers => e.PyClass? || e.PyMethod? || e.PyParameter? || e.PyProperty?
    case Methods => e.PyClass?
    case Parameters => e.PyMethod?
  }

  function Part(e: Element, which: Which): PyObject
    requires Has(e, which)
  {
    match which
    case Properties => e.properties
    case Qualifiers => e.qualifiers
    case Methods => e.methods
    case Parameters => e.parameters
  }

  /** The object with another section in one place. */
  function With(e: Element, which: Which, o: PyObject): (r: Element)
    requires Has(e, which)
    ensures forall w :: Has(r, w) <==> Has(e, w)
    ensures forall w :: Has(e, w) ==> Part(r, w) == if w == which then o else Part(e, w)
  {
    match e
    case PyClass(n, s, p, q, m) =>
      PyClass(n, s, if which == Properties then o else p, if which == Qualifiers then o else q,
              if which == Methods then o else m)
    case PyMethod(n, t, c, b, p, q) =>
      PyMethod(n, t, c, b, if which == Parameters then o else p, if which == Qualifiers then o else q)
    case PyParameter(n, t, a, z, r, _) => PyParameter(n, t, a, z, r, o)
    case PyProperty(n, t, v, a, z, r, c, b, _) => PyProperty(n, t, v, a, z, r, c, b, o)
  }

  function Renamed(e: Element, name: string): Element
    requires e.PyClass?
  {
    PyClass(name, e.superclass, e.properties, e.qualifiers, e.methods)
  }

  function Resupered(e: Element, name: string): Element
    requires e.PyClass?
  {
    PyClass(e.name, name, e.properties, e.qualifiers, e.methods)
  }

  /** copy() works on NocaseDicts only. */
  predicate Copyable(e: Element) {
    forall which :: Has(e, which) ==> Part(e, which).Nocase?
  }
}
