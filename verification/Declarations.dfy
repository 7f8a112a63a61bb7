/** What Pegasus declares and the Python objects made of it: conversion in both directions, and exactly when a
    declaration survives the way there and back. An object is described by what its getters show, so the same
    datatype serves for objects that build their sections at once and for those that build them on first use. */
module Declarations {
  import opened Text
  import D = NocaseDict
  import Time = DateTime

  datatype Error = TypeError | ValueError | AlreadyExists | InvalidName | InvalidDateTime | TypeMismatch

  // ---------------------------------------------------------------- values

  datatype CimType =
    | Boolean | Uint8 | Sint8 | Uint16 | Sint16 | Uint32 | Sint32 | Uint64 | Sint64
    | Real32 | Real64 | Char16 | String | DateTime | Reference | Object | Instance

  /** What is in an item: the text of a Pegasus::CIMDateTime, the Python object made of it, or anything else, which is
      carried over as it is. */
  datatype Content = Plain(id: int) | Digits(text: string) | Stamp(time: Time.CIMDateTime)

  /** A Pegasus::CIMValue: null, or one item, or any number of items of an array. */
  datatype Value = Value(cimType: CimType, isArray: bool, items: Option<seq<Content>>)

  /** The Python class of an item. */
  datatype Kind =
    | PyBool | PyUint8 | PySint8 | PyUint16 | PySint16 | PyUint32 | PySint32 | PyUint64 | PySint64
    | PyReal32 | PyReal64 | PyString | PyDateTime | PyInstanceName | PyInstance

  datatype Item = Item(kind: Kind, content: Content)

  /** A Python value: None, an item, a list of items, or something no CIM value is made of. */
  datatype PyValue = NoValue | Single(item: Item) | List(items: seq<Item>) | Foreign(id: int)

  /** A datetime without wildcards, at the width Pegasus asks for. */
  predicate IsDateTime(text: string) {
    |text| == 25 && Time.Parse(text).Ok?
  }

  predicate ContentOk(t: CimType, c: Content) {
    if t.DateTime? then c.Digits? && IsDateTime(c.text) else c.Plain?
  }

  /** A value that Python can read. */
  predicate ValueOk(v: Value) {
    v.items.Some? ==>
      && (!v.isArray ==> |v.items.value| == 1)
      && forall i :: 0 <= i < |v.items.value| ==> ContentOk(v.cimType, v.items.value[i])
  }

  function KindOf(t: CimType): Kind {
    match t
    case Boolean => PyBool
    case Uint8 => PyUint8
    case Sint8 => PySint8
    case Uint16 => PyUint16
    case Sint16 => PySint16
    case Uint32 => PyUint32
    case Sint32 => PySint32
    case Uint64 => PyUint64
    case Sint64 => PySint64
    case Real32 => PyReal32
    case Real64 => PyReal64
    case Char16 => PyUint16
    case String => PyString
    case DateTime => PyDateTime
    case Reference => PyInstanceName
    case Object => PyInstance
    case Instance => PyInstance
  }

  /** The type an item gets on the way back: Real64 goes through Real32. */
  function TypeOf(k: Kind): CimType {
    match k
    case PyBool => Boolean
    case PyUint8 => Uint8
    case PySint8 => Sint8
    case PyUint16 => Uint16
    case PySint16 => Sint16
    case PyUint32 => Uint32
    case PySint32 => Sint32
    case PyUint64 => Uint64
    case PySint64 => Sint64
    case PyReal32 => Real32
    case PyReal64 => Real32
    case PyString => String
    case PyDateTime => DateTime
    case PyInstanceName => Reference
    case PyInstance => Object
  }

  /** CIMTypeConv::asString */
  function TypeName(t: CimType): string {
    match t
    case Boolean => "boolean"
    case Uint8 => "uint8"
    case Sint8 => "sint8"
    case Uint16 => "uint16"
    case Sint16 => "sint16"
    case Uint32 => "uint32"
    case Sint32 => "sint32"
    case Uint64 => "uint64"
    case Sint64 => "sint64"
    case Real32 => "real32"
    case Real64 => "real64"
    case Char16 => "char16"
    case String => "string"
    case DateTime => "CIMDateTime"
    case Reference => "reference"
    case Object => "object"
    case Instance => "instance"
  }

  /** CIMTypeConv::asCIMType; a name that is not in the table reads as its first type. */
  function TypeNamed(s: string): CimType {
    if s == "uint8" then Uint8
    else if s == "sint8" then Sint8
    else if s == "uint16" then Uint16
    else if s == "sint16" then Sint16
    else if s == "uint32" then Uint32
    else if s == "sint32" then Sint32
    else if s == "uint64" then Uint64
    else if s == "sint64" then Sint64
    else if s == "real32" then Real32
    else if s == "real64" then Real64
    else if s == "char16" then Char16
    else if s == "string" then String
    else if s == "CIMDateTime" then DateTime
    else if s == "reference" then Reference
    else if s == "object" then Object
    else if s == "instance" then Instance
    else Boolean   // "bool", and every other name
  }

  lemma IntegerNameIsRead(t: CimType)
    requires t in {Uint8, Sint8, Uint16, Sint16, Uint32, Sint32, Uint64, Sint64}
    ensures TypeNamed(TypeName(t)) == t
  {
  }

  lemma OtherNameIsRead(t: CimType)
    requires t in {Boolean, Real32, Real64, Char16, String}
    ensures TypeNamed(TypeName(t)) == t
  {
  }

  lemma ObjectNameIsRead(t: CimType)
    requires t in {DateTime, Reference, Object, Instance}
    ensures TypeNamed(TypeName(t)) == t
  {
  }

  /** The table knows "bool" but not "boolean", and yet every type name is read back. */
  lemma TypeNameIsRead(t: CimType)
    ensures TypeNamed(TypeName(t)) == t
  {
    hide TypeNamed, TypeName;
    if t in {Uint8, Sint8, Uint16, Sint16, Uint32, Sint32, Uint64, Sint64} {
      IntegerNameIsRead(t);
    } else if t in {Boolean, Real32, Real64, Char16, String} {
      OtherNameIsRead(t);
    } else {
      ObjectNameIsRead(t);
    }
  }

  lemma IntegerThatIsRead(s: string)
    requires TypeNamed(s) in {Uint8, Sint8, Uint16, Sint16, Uint32, Sint32, Uint64, Sint64}
    ensures TypeName(TypeNamed(s)) == s
  {
  }

  lemma OtherThatIsRead(s: string)
    requires TypeNamed(s) in {Real32, Real64, Char16, String}
    ensures TypeName(TypeNamed(s)) == s
  {
  }

  lemma ObjectThatIsRead(s: string)
    requires TypeNamed(s) in {DateTime, Reference, Object, Instance}
    ensures TypeName(TypeNamed(s)) == s
  {
  }

  lemma NameThatIsRead(s: string)
    ensures TypeNamed(s) == Boolean || TypeName(TypeNamed(s)) == s
  {
    hide TypeNamed, TypeName;
    if TypeNamed(s) in {Uint8, Sint8, Uint16, Sint16, Uint32, Sint32, Uint64, Sint64} {
      IntegerThatIsRead(s);
    } else if TypeNamed(s) in {Real32, Real64, Char16, String} {
      OtherThatIsRead(s);
    } else if TypeNamed(s) in {DateTime, Reference, Object, Instance} {
      ObjectThatIsRead(s);
    }
  }

  /** A boolean may be called anything that is not in the table. */
  lemma NamesOfBoolean(s: string)
    ensures TypeNamed(s) == Boolean <==> forall t: CimType :: t == Boolean || TypeName(t) != s
    ensures TypeName(Boolean) == "boolean"
  {
    NameThatIsRead(s);
    hide TypeNamed;
    forall t: CimType | t != Boolean && TypeName(t) == s ensures TypeNamed(s) == t {
      TypeNameIsRead(t);
    }
  }

  function ItemOf(t: CimType, c: Content): Item
    requires ContentOk(t, c)
  {
    Item(KindOf(t), if c.Digits? then Stamp(Time.Parse(c.text).value) else c)
  }

  /** CIMValue::asLMIWbemCIMValue: a null scalar is None, a null array an empty list. */
  function ToPython(v: Value): PyValue
    requires ValueOk(v)
  {
    if v.isArray then
      if v.items.None? then List([])
      else List(seq(|v.items.value|, i requires 0 <= i < |v.items.value| => ItemOf(v.cimType, v.items.value[i])))
    else if v.items.None? then NoValue
    else Single(ItemOf(v.cimType, v.items.value[0]))
  }

  /** None is the null scalar and nothing else, a list stands for an array and has its items in order, and the null
      array and the empty one both give the empty list. */
  lemma PythonShape(v: Value)
    requires ValueOk(v)
    ensures var p := ToPython(v);
            && (p == NoValue <==> v.items.None? && !v.isArray)
            && (p.List? <==> v.isArray)
            && (p == List([]) <==> v.isArray && (v.items.None? || v.items.value == []))
            && (p.List? && v.items.Some? ==>
                  |p.items| == |v.items.value| &&
                  forall i :: 0 <= i < |p.items| ==> p.items[i] == ItemOf(v.cimType, v.items.value[i]))
            && (v.items.Some? && !v.isArray ==> p == Single(ItemOf(v.cimType, v.items.value[0])))
  {
  }

  /** Each type has a class of its own but char16, which shares that of uint16, and instance, which shares that of
      object; only three types do not come back from their class. */
  lemma KindsOfTypes(t: CimType, u: CimType)
    ensures KindOf(t) == KindOf(u) <==>
      || t == u
      || (t in {Char16, Uint16} && u in {Char16, Uint16})
      || (t in {Object, Instance} && u in {Object, Instance})
    ensures TypeOf(KindOf(t))
         == if t == Real64 then Real32 else if t == Char16 then Uint16 else if t == Instance then Object else t
    ensures KindOf(Real32) == PyReal32 && KindOf(Real64) == PyReal64
    ensures t == String <==> KindOf(t) == PyString
    ensures t == DateTime <==> KindOf(t) == PyDateTime
  {
  }

  /** A datetime goes through str(), which Pegasus may refuse to read. */
  function ContentBack(c: Content): Result<Content, Error> {
    if !c.Stamp? then Ok(c)
    else if Time.CIMDateTimeOk(c.time) && IsDateTime(Time.Str(c.time)) then Ok(Digits(Time.Str(c.time)))
    else Err(InvalidDateTime)
  }

  /** The items of a list one after the other; the first item decides their kind. */
  function ItemsBack(items: seq<Item>, kind: Kind): Result<seq<Content>, Error> {
    if items == [] then Ok([])
    else
      var n := |items| - 1;
      match ItemsBack(items[..n], kind)
      case Err(error) => Err(error)
      case Ok(cs) =>
        if items[n].kind != kind then Err(TypeError)
        else
          match ContentBack(items[n].content)
          case Err(error) => Err(error)
          case Ok(c) => Ok(cs + [c])
  }

  /** CIMValue::asPegasusCIMValue */
  function FromPython(p: PyValue, typeName: string): Result<Value, Error> {
    match p
    case NoValue => Ok(Value(TypeNamed(typeName), true, None))
    case Foreign(_) => Err(TypeError)
    case Single(item) => ArrayBack([item], false)
    case List(items) => if items == [] then Ok(Value(TypeNamed(typeName), true, None)) else ArrayBack(items, true)
  }

  function ArrayBack(items: seq<Item>, isArray: bool): Result<Value, Error>
    requires items != []
  {
    match ItemsBack(items, items[0].kind)
    case Err(error) => Err(error)
    case Ok(cs) => Ok(Value(TypeOf(items[0].kind), isArray, Some(cs)))
  }

  predicate GoesBack(item: Item, kind: Kind) {
    item.kind == kind && ContentBack(item.content).Ok?
  }

  /** The first item of another kind, or that cannot be written, is the answer; without one all items go back. */
  lemma {:induction false} FirstBadItem(items: seq<Item>, kind: Kind, i: nat)
    requires i <= |items| && forall j :: 0 <= j < i ==> GoesBack(items[j], kind)
    requires i < |items| ==> !GoesBack(items[i], kind)
    ensures match ItemsBack(items, kind)
            case Ok(cs) =>
              i == |items| == |cs| && forall j :: 0 <= j < |cs| ==> ContentBack(items[j].content) == Ok(cs[j])
            case Err(error) =>
              i < |items| && error == if items[i].kind != kind then TypeError else ContentBack(items[i].content).error
    decreases |items|
  {
    hide ContentBack;
    if items != [] {
      var n := |items| - 1;
      FirstBadItem(items[..n], kind, if i < |items| then i else n);
    }
  }

  /** None becomes a null array of the named type, also for a scalar; a value of no known class is refused. */
  lemma NothingGoesBackAsArray(typeName: string, id: int)
    ensures FromPython(NoValue, typeName) == FromPython(List([]), typeName)
         == Ok(Value(TypeNamed(typeName), true, None))
    ensures FromPython(Foreign(id), typeName) == Err(TypeError)
  {
  }

  /** The first item decides the type of all. */
  lemma FirstItemDecides(items: seq<Item>, typeName: string)
    requires items != []
    ensures var r := FromPython(List(items), typeName);
            && r.Ok? == (forall j :: 0 <= j < |items| ==> GoesBack(items[j], items[0].kind))
            && (r.Ok? ==>
                  && r.value.cimType == TypeOf(items[0].kind) && r.value.isArray
                  && r.value.items.Some? && |r.value.items.value| == |items|
                  && forall j :: 0 <= j < |items| ==> ContentBack(items[j].content) == Ok(r.value.items.value[j]))
    ensures FromPython(Single(items[0]), typeName)
         == match ContentBack(items[0].content)
            case Ok(c) => Ok(Value(TypeOf(items[0].kind), false, Some([c])))
            case Err(error) => Err(error)
  {
    hide ContentBack, ItemsBack, GoesBack;
    var kind := items[0].kind;
    var i := FirstOf(items, kind);
    FirstBadItem(items, kind, i);
    OneItemBack(items[0]);
    if i == |items| {
      EachGoesBack(items, kind);
    }
  }

  lemma EachGoesBack(items: seq<Item>, kind: Kind)
    requires forall j :: 0 <= j < |items| ==> GoesBack(items[j], kind)
    ensures forall j :: 0 <= j < |items| ==> ContentBack(items[j].content).Ok?
  {
    hide ContentBack;
  }

  lemma OneItemBack(item: Item)
    ensures ItemsBack([item], item.kind)
         == match ContentBack(item.content) case Ok(c) => Ok([c]) case Err(error) => Err(error)
  {
    hide ContentBack;
    assert [item][..0] == [];
    if ContentBack(item.content).Ok? {
      assert [] + [ContentBack(item.content).value] == [ContentBack(item.content).value];
    }
  }

  lemma {:induction false} FirstOf(items: seq<Item>, kind: Kind) returns (i: nat)
    ensures i <= |items| && forall j :: 0 <= j < i ==> GoesBack(items[j], kind)
    ensures i < |items| ==> !GoesBack(items[i], kind)
  {
    i := 0;
    while i < |items| && GoesBack(items[i], kind)
      invariant i <= |items| && forall j :: 0 <= j < i ==> GoesBack(items[j], kind)
    {
      i := i + 1;
    }
  }

  /** What comes back of an item's content: a datetime as str() prints it. */
  function ReturnedContent(t: CimType, c: Content): Result<Content, Error>
    requires ContentOk(t, c)
  {
    ContentBack(ItemOf(t, c).content)
  }

  predicate ContentComesBack(c: Content) {
    c.Digits? && Time.Parse(c.text).Ok? ==> Time.ComesBack(Time.Parse(c.text).value)
  }

  predicate ContentSurvives(c: Content) {
    c.Digits? && Time.Parse(c.text).Ok? ==> Time.ComesBack(Time.Parse(c.text).value) && Time.Canonical(c.text)
  }

  lemma ContentRoundTrip(t: CimType, c: Content)
    requires ContentOk(t, c)
    ensures ReturnedContent(t, c).Ok? <==> ContentComesBack(c)
    ensures ReturnedContent(t, c) == Ok(c) <==> ContentSurvives(c)
    ensures ReturnedContent(t, c).Err? ==> ReturnedContent(t, c) == Err(InvalidDateTime)
  {
    if c.Digits? {
      hide Time.Parse, Time.Str, Time.Canonical, Time.ComesBack, Time.CIMDateTimeOk;
      Time.TextRoundTrip(c.text);
    }
  }

  predicate ItemsComeBack(v: Value) {
    v.items.Some? ==> forall i :: 0 <= i < |v.items.value| ==> ContentComesBack(v.items.value[i])
  }

  /** What comes back of a value that does: null, empty or not, always as an array. */
  function Returned(v: Value): Value
    requires ValueOk(v)
  {
    if v.items.None? || v.items.value == [] then Value(v.cimType, true, None)
    else
      Value(TypeOf(KindOf(v.cimType)), v.isArray, Some(ReturnedItems(v.cimType, v.items.value)))
  }

  function ReturnedItems(t: CimType, cs: seq<Content>): (r: seq<Content>)
    requires forall i :: 0 <= i < |cs| ==> ContentOk(t, cs[i])
    ensures |r| == |cs|
    ensures forall i :: 0 <= i < |cs| && ReturnedContent(t, cs[i]).Ok? ==> r[i] == ReturnedContent(t, cs[i]).value
  {
    seq(|cs|, i requires 0 <= i < |cs| =>
      match ReturnedContent(t, cs[i]) case Ok(c) => c case Err(_) => cs[i])
  }

  /** Null arrays, and values that are not empty and not real64, char16 or instance; datetimes only as str() prints
      them, from the year 1000 on. */
  predicate Survives(v: Value) {
    if v.items.None? then v.isArray
    else
      && v.items.value != [] && v.cimType != Real64 && v.cimType != Char16 && v.cimType != Instance
      && forall i :: 0 <= i < |v.items.value| ==> ContentSurvives(v.items.value[i])
  }

  function Items(t: CimType, cs: seq<Content>): (items: seq<Item>)
    requires forall i :: 0 <= i < |cs| ==> ContentOk(t, cs[i])
    ensures |items| == |cs| && forall i :: 0 <= i < |cs| ==> items[i] == ItemOf(t, cs[i])
  {
    seq(|cs|, i requires 0 <= i < |cs| => ItemOf(t, cs[i]))
  }

  lemma {:induction false} ItemsRoundTrip(t: CimType, cs: seq<Content>)
    requires forall i :: 0 <= i < |cs| ==> ContentOk(t, cs[i])
    ensures ItemsBack(Items(t, cs), KindOf(t))
         == if forall i :: 0 <= i < |cs| ==> ContentComesBack(cs[i]) then Ok(ReturnedItems(t, cs))
            else Err(InvalidDateTime)
    decreases |cs|
  {
    hide ContentOk, ContentBack, ContentComesBack, ContentSurvives, ItemOf, ReturnedItems, KindOf;
    if cs == [] {
      assert ReturnedItems(t, cs) == [];
    } else {
      var n := |cs| - 1;
      var init := cs[..n];
      ItemsRoundTrip(t, init);
      ContentRoundTrip(t, cs[n]);
      assert Items(t, cs)[..n] == Items(t, init);
      KindOfItem(t, cs[n]);
      assert Items(t, cs)[n] == ItemOf(t, cs[n]);
      assert forall i :: 0 <= i < n ==> init[i] == cs[i];
      var items := Items(t, cs);
      assert ContentBack(items[n].content) == ReturnedContent(t, cs[n]);
      if forall i :: 0 <= i < |cs| ==> ContentComesBack(cs[i]) {
        AllReturned(t, cs);
        AllReturned(t, init);
        assert ReturnedItems(t, cs) == ReturnedItems(t, init) + [ReturnedContent(t, cs[n]).value];
      } else if forall i :: 0 <= i < n ==> ContentComesBack(init[i]) {
        assert !ContentComesBack(cs[n]);
      }
    }
  }

  lemma AllReturned(t: CimType, cs: seq<Content>)
    requires forall i :: 0 <= i < |cs| ==> ContentOk(t, cs[i]) && ContentComesBack(cs[i])
    ensures forall i :: 0 <= i < |cs| ==> ReturnedContent(t, cs[i]) == Ok(ReturnedItems(t, cs)[i])
  {
    hide ContentOk, ContentComesBack, ReturnedContent, ReturnedItems;
    forall i | 0 <= i < |cs| ensures ReturnedContent(t, cs[i]) == Ok(ReturnedItems(t, cs)[i]) {
      ContentRoundTrip(t, cs[i]);
    }
  }

  lemma KindOfItem(t: CimType, c: Content)
    requires ContentOk(t, c)
    ensures ItemOf(t, c).kind == KindOf(t)
  {
  }

  /** What Pegasus sends: a datetime is a text of 25 characters, which may hold wildcards. */
  predicate IsSent(v: Value) {
    v.items.Some? ==>
      && (!v.isArray ==> |v.items.value| == 1)
      && forall i :: 0 <= i < |v.items.value| ==>
           if v.cimType.DateTime? then v.items.value[i].Digits? && |v.items.value[i].text| == 25
           else v.items.value[i].Plain?
  }

  predicate HasUnreadable(v: Value) {
    && v.items.Some?
    && exists i :: 0 <= i < |v.items.value| && v.items.value[i].Digits? && !IsDateTime(v.items.value[i].text)
  }

  /** There and back; CIMDateTime() raises for a text it cannot read. */
  function ThereAndBack(v: Value): Result<Value, Error>
    requires IsSent(v)
  {
    if HasUnreadable(v) then Err(ValueError)
    else
      assert ValueOk(v);
      FromPython(ToPython(v), TypeName(v.cimType))
  }

  /** Every value Pegasus sends: it raises on the way there if a datetime cannot be read, as with wildcards, and on the
      way back if one cannot be written, comes back otherwise, and as it was exactly if it survives. */
  lemma ValueRoundTrip(v: Value)
    requires IsSent(v)
    ensures HasUnreadable(v) <==> !ValueOk(v)
    ensures ThereAndBack(v)
         == if HasUnreadable(v) then Err(ValueError)
            else if ItemsComeBack(v) then Ok(Returned(v)) else Err(InvalidDateTime)
    ensures ThereAndBack(v) == Ok(v) <==> !HasUnreadable(v) && Survives(v)
  {
    if ValueOk(v) {
      hide FromPython, ToPython, TypeName, Survives, Returned, ItemsComeBack, IsDateTime;
      ReadableRoundTrip(v);
    }
  }

  /** A text with a wildcard is one of those. */
  lemma WildcardIsUnreadable(t: CimType, text: string)
    requires |text| == 25 && '*' in text
    ensures HasUnreadable(Value(t, false, Some([Digits(text)])))
  {
    Time.WildcardIsRefused(text);
    var v := Value(t, false, Some([Digits(text)]));
    assert v.items.value[0] == Digits(text) && !IsDateTime(text);
  }

  /** A value comes back unless one of its datetimes cannot, and as it was exactly if it survives. */
  lemma ReadableRoundTrip(v: Value)
    requires ValueOk(v)
    ensures FromPython(ToPython(v), TypeName(v.cimType))
         == if ItemsComeBack(v) then Ok(Returned(v)) else Err(InvalidDateTime)
    ensures Survives(v) <==> ItemsComeBack(v) && Returned(v) == v
  {
    hide TypeName, TypeNamed, ContentOk, ContentBack, ContentComesBack, ContentSurvives, ItemOf, ReturnedContent;
    TypeNameIsRead(v.cimType);
    if v.items.Some? && v.items.value != [] {
      var cs := v.items.value;
      ItemsRoundTrip(v.cimType, cs);
      KindOfItem(v.cimType, cs[0]);
      assert v.isArray ==> ToPython(v).items == Items(v.cimType, cs);
      assert !v.isArray ==> [ToPython(v).item] == Items(v.cimType, cs);
      ItemsSurvive(v.cimType, cs);
      TypeSurvives(v.cimType);
    }
  }

  lemma ItemsSurvive(t: CimType, cs: seq<Content>)
    requires forall i :: 0 <= i < |cs| ==> ContentOk(t, cs[i])
    ensures (forall i :: 0 <= i < |cs| ==> ContentSurvives(cs[i]))
        <==> (forall i :: 0 <= i < |cs| ==> ContentComesBack(cs[i])) && ReturnedItems(t, cs) == cs
  {
    hide ContentOk, ContentSurvives, ContentComesBack, ReturnedContent, ReturnedItems;
    if forall i :: 0 <= i < |cs| ==> ContentSurvives(cs[i]) {
      forall i | 0 <= i < |cs| ensures ContentComesBack(cs[i]) && ReturnedContent(t, cs[i]) == Ok(cs[i]) {
        ContentRoundTrip(t, cs[i]);
      }
      AllReturned(t, cs);
      forall i | 0 <= i < |cs| ensures ReturnedItems(t, cs)[i] == cs[i] {
        assert ReturnedContent(t, cs[i]) == Ok(cs[i]);
      }
    }
    if (forall i :: 0 <= i < |cs| ==> ContentComesBack(cs[i])) && ReturnedItems(t, cs) == cs {
      AllReturned(t, cs);
      forall i | 0 <= i < |cs| ensures ContentSurvives(cs[i]) {
        ContentRoundTrip(t, cs[i]);
      }
    }
  }

  lemma TypeSurvives(t: CimType)
    ensures TypeOf(KindOf(t)) == t <==> t != Real64 && t != Char16 && t != Instance
  {
  }

  // ---------------------------------------------------------------- declarations and objects

  datatype Flavor = Flavor(overridable: bool, toSubclass: bool, toInstance: bool, translatable: bool)

  type uint32 = x: int | 0 <= x < 0x1_0000_0000

  /** Names that Pegasus leaves null are "". */
  datatype Decl =
    | Qualifier(name: string, value: Value, flavor: Flavor, propagated: bool)
    | Property(name: string, value: Value, arraySize: uint32, referenceClass: string, classOrigin: string,
               propagated: bool, qualifiers: seq<Decl>)
    | Parameter(name: string, cimType: CimType, isArray: bool, arraySize: uint32, referenceClass: string,
                qualifiers: seq<Decl>)
    | Method(name: string, cimType: CimType, classOrigin: string, propagated: bool,
             parameters: seq<Decl>, qualifiers: seq<Decl>)
    | Class(name: string, superclass: string, properties: seq<Decl>, qualifiers: seq<Decl>, methods: seq<Decl>)

  /** A Python object by what its getters show. */
  datatype Element =
    | PyQualifier(name: string, typeName: string, pyValue: PyValue, flavor: Flavor, propagated: bool)
    | PyProperty(name: string, typeName: string, pyValue: PyValue, isArray: bool, size: int,
                 referenceClass: string, classOrigin: string, propagated: bool, qualifiers: PyObject)
    | PyParameter(name: string, typeName: string, isArray: bool, size: int, referenceClass: string,
                  qualifiers: PyObject)
    | PyMethod(name: string, typeName: string, classOrigin: string, propagated: bool,
               parameters: PyObject, qualifiers: PyObject)
    | PyClass(name: string, superclass: string, properties: PyObject, qualifiers: PyObject, methods: PyObject)
    | Alien(id: int)

  /** What can stand in a section: None, a NocaseDict, a dict, or any other object. */
  datatype PyObject =
    | Nothing
    | Nocase(entries: seq<D.Entry<Element>>)
    | PlainDict(pairs: seq<(string, Element)>)
    | Other(id: int)

  /** A section built from a list of declarations, one create() after the other. */
  function Dictionary(ds: seq<Decl>, create: Decl -> Element): seq<D.Entry<Element>> {
    if ds == [] then []
    else
      var n := |ds| - 1;
      D.Insert(Dictionary(ds[..n], create), ds[n].name, create(ds[n]))
  }

  function QualifierOf(d: Decl): Element {
    if d.Qualifier? && ValueOk(d.value) then
      PyQualifier(d.name, TypeName(d.value.cimType), ToPython(d.value), d.flavor, d.propagated)
    else Alien(0)
  }

  function PropertyOf(d: Decl): Element {
    if d.Property? && ValueOk(d.value) then
      PyProperty(d.name, TypeName(d.value.cimType), ToPython(d.value), d.value.isArray, D.ToInt32(d.arraySize),
                 d.referenceClass, d.classOrigin, d.propagated, Nocase(Dictionary(d.qualifiers, QualifierOf)))
    else Alien(0)
  }

  function ParameterOf(d: Decl): Element {
    if d.Parameter? then
      PyParameter(d.name, TypeName(d.cimType), d.isArray, D.ToInt32(d.arraySize), d.referenceClass,
                  Nocase(Dictionary(d.qualifiers, QualifierOf)))
    else Alien(0)
  }

  function MethodOf(d: Decl): Element {
    if d.Method? then
      PyMethod(d.name, TypeName(d.cimType), d.classOrigin, d.propagated,
               Nocase(Dictionary(d.parameters, ParameterOf)), Nocase(Dictionary(d.qualifiers, QualifierOf)))
    else Alien(0)
  }

  function ClassOf(d: Decl): Element {
    if d.Class? then
      PyClass(d.name, d.superclass, Nocase(Dictionary(d.properties, PropertyOf)),
              Nocase(Dictionary(d.qualifiers, QualifierOf)), Nocase(Dictionary(d.methods, MethodOf)))
    else Alien(0)
  }

  // ---------------------------------------------------------------- the way back

  predicate HasName(ds: seq<Decl>, name: string) {
    exists i :: 0 <= i < |ds| && Lower(ds[i].name) == Lower(name)
  }

  /** addProperty(), addQualifier(), … for each entry in listing order; Pegasus refuses a second one of a name. */
  function AddAll(es: seq<D.Entry<Element>>, convert: Element -> Result<Decl, Error>): Result<seq<Decl>, Error> {
    if es == [] then Ok([])
    else
      var n := |es| - 1;
      match AddAll(es[..n], convert)
      case Err(error) => Err(error)
      case Ok(ds) =>
        match convert(es[n].value)
        case Err(error) => Err(error)
        case Ok(d) => if HasName(ds, d.name) then Err(AlreadyExists) else Ok(ds + [d])
  }

  function AddSection(o: PyObject, convert: Element -> Result<Decl, Error>): Result<seq<Decl>, Error> {
    if o.Nocase? then AddAll(o.entries, convert) else Err(TypeError)
  }

  /** CIMQualifier::asPegasusCIMQualifier */
  function QualifierBack(e: Element): Result<Decl, Error> {
    if !e.PyQualifier? then Err(TypeError)
    else if !IsCimName(e.name) then Err(InvalidName)
    else
      match FromPython(e.pyValue, e.typeName)
      case Err(error) => Err(error)
      case Ok(v) => Ok(Qualifier(e.name, v, e.flavor, e.propagated))
  }

  predicate IsOptionalName(name: string) {
    name == "" || IsCimName(name)
  }

  /** CIMProperty::asPegasusCIMProperty: the qualifiers stay behind, and a null value takes the array size with it. */
  function PropertyBack(e: Element): Result<Decl, Error> {
    if !e.PyProperty? then Err(TypeError)
    else
      match FromPython(e.pyValue, e.typeName)
      case Err(error) => Err(error)
      case Ok(v) =>
        if !IsCimName(e.name) || !IsOptionalName(e.referenceClass) || !IsOptionalName(e.classOrigin)
        then Err(InvalidName)
        else
          var size := if v.items.None? then 0 else e.size % 0x1_0000_0000;
          if !Fits(v, size, e.referenceClass) then Err(TypeMismatch)
          else Ok(Property(e.name, v, size, e.referenceClass, e.classOrigin, e.propagated, []))
  }

  /** What the constructor of Pegasus::CIMProperty asks for: a fixed size is the number of items of an array, and only
      references have a reference class. */
  predicate Fits(v: Value, size: int, referenceClass: string) {
    && (v.items.Some? && size != 0 ==> v.isArray && |v.items.value| == size)
    && (referenceClass != "" ==> v.cimType == Reference)
  }

  /** An item of another class in a section, or anything but a NocaseDict for a section, raises TypeError; so only the
      items of the right class are ever asked for their names. */
  lemma StrangersAreRefused(e: Element, o: PyObject, convert: Element -> Result<Decl, Error>)
    ensures !e.PyQualifier? ==> QualifierBack(e) == Err(TypeError)
    ensures e.PyQualifier? && !IsCimName(e.name) ==> QualifierBack(e) == Err(InvalidName)
    ensures !e.PyProperty? ==> PropertyBack(e) == Err(TypeError)
    ensures !e.PyParameter? ==> ParameterBack(e) == Err(TypeError)
    ensures !e.PyMethod? ==> MethodBack(e) == Err(TypeError)
    ensures !o.Nocase? ==> AddSection(o, convert) == Err(TypeError)
  {
    hide FromPython, IsCimName;
  }

  /** Which properties Pegasus refuses though everything in them can be converted: those that are no reference but have
      a reference class, and those of a fixed size whose value is no array of that size. */
  lemma MisfitProperty(e: Element, v: Value)
    requires e.PyProperty? && FromPython(e.pyValue, e.typeName) == Ok(v) && IsCimName(e.name)
    requires e.referenceClass == "" || IsCimName(e.referenceClass)
    requires e.classOrigin == "" || IsCimName(e.classOrigin)
    ensures PropertyBack(e).Err? <==> PropertyBack(e) == Err(TypeMismatch)
    ensures PropertyBack(e) == Err(TypeMismatch) <==>
      || (e.referenceClass != "" && v.cimType != Reference)
      || (v.items.Some? && e.size % 0x1_0000_0000 != 0 &&
          !(v.isArray && |v.items.value| == e.size % 0x1_0000_0000))
  {
    hide FromPython, IsCimName;
  }

  /** The names of a property: its own must be there, the two others may be empty. */
  lemma MisnamedProperty(e: Element, v: Value)
    requires e.PyProperty? && FromPython(e.pyValue, e.typeName) == Ok(v)
    ensures PropertyBack(e) == Err(InvalidName) <==>
      || !IsCimName(e.name) || (e.referenceClass != "" && !IsCimName(e.referenceClass))
      || (e.classOrigin != "" && !IsCimName(e.classOrigin))
  {
    hide FromPython, IsCimName, Fits;
  }

  /** Parameters have no value: a fixed size asks for an array. */
  lemma MisfitParameter(e: Element)
    requires e.PyParameter? && IsCimName(e.name) && IsCimName(e.referenceClass)
    ensures ParameterBack(e) == Err(TypeMismatch) <==>
      || TypeNamed(e.typeName) != Reference
      || (!e.isArray && e.size % 0x1_0000_0000 != 0)
      || AddSection(e.qualifiers, QualifierBack) == Err(TypeMismatch)
  {
    hide TypeNamed, AddSection, QualifierBack;
    assert e.referenceClass != "";
  }

  /** The same for Pegasus::CIMParameter. */
  predicate ParameterFits(t: CimType, isArray: bool, size: int, referenceClass: string) {
    (size != 0 ==> isArray) && (referenceClass != "" ==> t == Reference)
  }

  /** CIMParameter::asPegasusCIMParameter: the reference class is converted without asking whether there is one. */
  function ParameterBack(e: Element): Result<Decl, Error> {
    if !e.PyParameter? then Err(TypeError)
    else if !IsCimName(e.name) || !IsCimName(e.referenceClass) then Err(InvalidName)
    else if !ParameterFits(TypeNamed(e.typeName), e.isArray, e.size % 0x1_0000_0000, e.referenceClass) then
      Err(TypeMismatch)
    else
      match AddSection(e.qualifiers, QualifierBack)
      case Err(error) => Err(error)
      case Ok(qs) =>
        Ok(Parameter(e.name, TypeNamed(e.typeName), e.isArray, e.size % 0x1_0000_0000, e.referenceClass, qs))
  }

  /** CIMMethod::asPegasusCIMMethod: so is the class of origin. */
  function MethodBack(e: Element): Result<Decl, Error> {
    if !e.PyMethod? then Err(TypeError)
    else if !IsCimName(e.name) || !IsCimName(e.classOrigin) then Err(InvalidName)
    else
      match AddSection(e.parameters, ParameterBack)
      case Err(error) => Err(error)
      case Ok(ps) =>
        match AddSection(e.qualifiers, QualifierBack)
        case Err(error) => Err(error)
        case Ok(qs) => Ok(Method(e.name, TypeNamed(e.typeName), e.classOrigin, e.propagated, ps, qs))
  }

  /** CIMClass::asPegasusCIMClass: and so is the superclass. */
  function ClassBack(e: Element): Result<Decl, Error> {
    if !e.PyClass? then Err(TypeError)
    else if !IsCimName(e.name) || !IsCimName(e.superclass) then Err(InvalidName)
    else
      match AddSection(e.properties, PropertyBack)
      case Err(error) => Err(error)
      case Ok(ps) =>
        match AddSection(e.qualifiers, QualifierBack)
        case Err(error) => Err(error)
        case Ok(qs) =>
          match AddSection(e.methods, MethodBack)
          case Err(error) => Err(error)
          case Ok(ms) => Ok(Class(e.name, e.superclass, ps, qs, ms))
  }

  // ---------------------------------------------------------------- sections in order

  /** The declarations of a section under their names, as the dictionary orders them. */
  function Ordered(ds: seq<Decl>): seq<D.Entry<Decl>> {
    if ds == [] then []
    else
      var n := |ds| - 1;
      D.Insert(Ordered(ds[..n]), ds[n].name, ds[n])
  }

  function Sort(ds: seq<Decl>): (r: seq<Decl>)
    ensures |r| == |Ordered(ds)| && forall i :: 0 <= i < |r| ==> r[i] == Ordered(ds)[i].value
  {
    Listed(Ordered(ds))
  }

  function Listed(es: seq<D.Entry<Decl>>): (ds: seq<Decl>)
    ensures |ds| == |es| && forall i :: 0 <= i < |es| ==> ds[i] == es[i].value
  {
    seq(|es|, i requires 0 <= i < |es| => es[i].value)
  }

  function Each(ds: seq<Decl>, f: Decl -> Decl): (r: seq<Decl>)
    ensures |r| == |ds| && forall i :: 0 <= i < |ds| ==> r[i] == f(ds[i])
  {
    seq(|ds|, i requires 0 <= i < |ds| => f(ds[i]))
  }

  ghost predicate DistinctNames(ds: seq<Decl>) {
    forall i, j :: 0 <= i < j < |ds| ==> Lower(ds[i].name) != Lower(ds[j].name)
  }

  ghost predicate NamedByKey(es: seq<D.Entry<Decl>>) {
    forall i :: 0 <= i < |es| ==> es[i].key == es[i].value.name
  }

  predicate SameKeys<X, Y>(a: seq<D.Entry<X>>, b: seq<D.Entry<Y>>) {
    |a| == |b| && forall i :: 0 <= i < |a| ==> a[i].key == b[i].key
  }

  lemma {:induction false} SameIndex<X, Y>(a: seq<D.Entry<X>>, b: seq<D.Entry<Y>>, k: string)
    requires SameKeys(a, b)
    ensures D.IndexOf(a, k) == D.IndexOf(b, k) && D.LowerBound(a, k) == D.LowerBound(b, k)
  {
    if a != [] {
      SameIndex(a[1..], b[1..], k);
    }
  }

  /** The same keys, and at each the object made of the declaration. */
  ghost predicate Parallel(es: seq<D.Entry<Element>>, os: seq<D.Entry<Decl>>, create: Decl -> Element) {
    SameKeys(es, os) && forall i :: 0 <= i < |os| ==> es[i].value == create(os[i].value)
  }

  lemma InsertKeepsParallel(es: seq<D.Entry<Element>>, os: seq<D.Entry<Decl>>, create: Decl -> Element, d: Decl)
    requires Parallel(es, os, create)
    ensures Parallel(D.Insert(es, d.name, create(d)), D.Insert(os, d.name, d), create)
  {
    hide Lower, D.IndexOf, D.LowerBound;
    var k := Lower(d.name);
    SameIndex(es, os, k);
  }

  /** Creating the objects of a section keeps its order. */
  lemma {:induction false} DictionaryIsOrdered(ds: seq<Decl>, create: Decl -> Element)
    ensures Parallel(Dictionary(ds, create), Ordered(ds), create)
  {
    if ds != [] {
      hide Parallel, D.Insert;
      var n := |ds| - 1;
      DictionaryIsOrdered(ds[..n], create);
      InsertKeepsParallel(Dictionary(ds[..n], create), Ordered(ds[..n]), create, ds[n]);
    }
  }

  lemma NewName(ds: seq<Decl>)
    requires ds != [] && DistinctNames(ds)
    requires var before := ds[..|ds| - 1]; multiset(Sort(before)) == multiset(before) && NamedByKey(Ordered(before))
    ensures Lower(ds[|ds| - 1].name) !in D.FoldedKeys(Ordered(ds[..|ds| - 1]))
  {
    hide Lower;
    var before := ds[..|ds| - 1];
    var es := Ordered(before);
    forall i | 0 <= i < |es| ensures Lower(es[i].key) != Lower(ds[|ds| - 1].name) {
      assert Sort(before)[i] in multiset(Sort(before));
      var j :| 0 <= j < |before| && before[j] == es[i].value;
      assert before[j] == ds[j];
    }
  }

  lemma ListedOfInsert(es: seq<D.Entry<Decl>>, d: Decl)
    requires Lower(d.name) !in D.FoldedKeys(es)
    ensures multiset(Listed(D.Insert(es, d.name, d))) == multiset(Listed(es)) + multiset{d}
  {
    hide Lower, D.FoldedKeys;
    var j := D.LowerBound(es, Lower(d.name));
    var front, back, one := es[..j], es[j..], [D.Entry(d.name, d)];
    assert D.Insert(es, d.name, d) == front + one + back;
    assert es == front + back;
    ListedOfSum(front, back);
    ListedOfSum(front, one);
    ListedOfSum(front + one, back);
    assert Listed(one) == [d];
  }

  lemma ListedOfSum(a: seq<D.Entry<Decl>>, b: seq<D.Entry<Decl>>)
    ensures Listed(a + b) == Listed(a) + Listed(b)
  {
  }

  lemma NamedAfterInsert(es: seq<D.Entry<Decl>>, d: Decl)
    requires Lower(d.name) !in D.FoldedKeys(es) && NamedByKey(es)
    ensures NamedByKey(D.Insert(es, d.name, d))
  {
  }

  /** Sorting a section of distinct names loses nothing. */
  lemma {:induction false} SortIsPermutation(ds: seq<Decl>)
    requires DistinctNames(ds)
    ensures multiset(Sort(ds)) == multiset(ds) && NamedByKey(Ordered(ds)) && D.Sorted(Ordered(ds))
  {
    if ds != [] {
      var n := |ds| - 1;
      assert DistinctNames(ds[..n]);
      hide D.Sorted, NamedByKey, DistinctNames, D.Insert, Lower, D.FoldedKeys, Listed;
      SortIsPermutation(ds[..n]);
      NewName(ds);
      InsertIsPermutation(Ordered(ds[..n]), ds[n]);
      LastInMultiset(ds);
      assert Ordered(ds) == D.Insert(Ordered(ds[..n]), ds[n].name, ds[n]);
      assert Sort(ds) == Listed(Ordered(ds)) && Sort(ds[..n]) == Listed(Ordered(ds[..n]));
    }
  }

  lemma LastInMultiset(ds: seq<Decl>)
    requires ds != []
    ensures multiset(ds) == multiset(ds[..|ds| - 1]) + multiset{ds[|ds| - 1]}
  {
    assert ds == ds[..|ds| - 1] + [ds[|ds| - 1]];
  }

  lemma InsertIsPermutation(es: seq<D.Entry<Decl>>, d: Decl)
    requires D.Sorted(es) && NamedByKey(es) && Lower(d.name) !in D.FoldedKeys(es)
    ensures D.Sorted(D.Insert(es, d.name, d)) && NamedByKey(D.Insert(es, d.name, d))
    ensures multiset(Listed(D.Insert(es, d.name, d))) == multiset(Listed(es)) + multiset{d}
  {
    hide D.Sorted, NamedByKey, D.Model, D.Insert, Lower, Listed, D.FoldedKeys;
    D.InsertIsPut(es, d.name, d);
    ListedOfInsert(es, d);
    NamedAfterInsert(es, d);
  }

  // ---------------------------------------------------------------- a section there and back

  lemma {:induction false} AddAllEach(es: seq<D.Entry<Element>>, convert: Element -> Result<Decl, Error>)
    requires AddAll(es, convert).Ok?
    ensures |AddAll(es, convert).value| == |es|
    ensures forall i :: 0 <= i < |es| ==> convert(es[i].value) == Ok(AddAll(es, convert).value[i])
  {
    if es != [] {
      AddAllEach(es[..|es| - 1], convert);
    }
  }

  lemma {:induction false} AddAllIs(es: seq<D.Entry<Element>>, convert: Element -> Result<Decl, Error>, ds: seq<Decl>)
    requires |ds| == |es| && DistinctNames(ds)
    requires forall i :: 0 <= i < |es| ==> convert(es[i].value) == Ok(ds[i])
    ensures AddAll(es, convert) == Ok(ds)
    decreases |es|
  {
    if es != [] {
      var n := |es| - 1;
      AddAllIs(es[..n], convert, ds[..n]);
      assert !HasName(ds[..n], ds[n].name) by {
        hide Lower;
        forall i | 0 <= i < n ensures Lower(ds[..n][i].name) != Lower(ds[n].name) {
          assert ds[..n][i] == ds[i];
        }
      }
      assert ds == ds[..n] + [ds[n]];
    }
  }

  /** When all entries can be converted, what decides is whether two have the same name in any spelling. */
  lemma {:induction false} SecondOfNameIsRefused(
      es: seq<D.Entry<Element>>, convert: Element -> Result<Decl, Error>, ds: seq<Decl>)
    requires |ds| == |es| && forall i :: 0 <= i < |es| ==> convert(es[i].value) == Ok(ds[i])
    ensures AddAll(es, convert) == if DistinctNames(ds) then Ok(ds) else Err(AlreadyExists)
    decreases |es|
  {
    if es != [] {
      var n := |es| - 1;
      SecondOfNameIsRefused(es[..n], convert, ds[..n]);
      OneMoreName(ds);
      assert ds == ds[..n] + [ds[n]];
    }
  }

  lemma OneMoreName(ds: seq<Decl>)
    requires ds != []
    ensures var n := |ds| - 1; DistinctNames(ds) <==> DistinctNames(ds[..n]) && !HasName(ds[..n], ds[n].name)
  {
    hide Lower;
    var n := |ds| - 1;
    var init := ds[..n];
    assert forall i :: 0 <= i < n ==> init[i] == ds[i];
    if DistinctNames(init) && !HasName(init, ds[n].name) {
      forall i, j | 0 <= i < j < |ds| ensures Lower(ds[i].name) != Lower(ds[j].name) {
        assert init[i] == ds[i];
      }
    }
  }

  /** A section comes back as it was, in listing order, exactly when each of its declarations does. `canonical` may
      reorder the sections inside a declaration. */
  lemma SectionRoundTrip(ds: seq<Decl>, create: Decl -> Element, back: Element -> Result<Decl, Error>,
                         canonical: Decl -> Decl)
    requires DistinctNames(ds) && forall i :: 0 <= i < |ds| ==> canonical(ds[i]).name == ds[i].name
    ensures AddAll(Dictionary(ds, create), back) == Ok(Each(Sort(ds), canonical))
        <==> forall i :: 0 <= i < |ds| ==> back(create(ds[i])) == Ok(canonical(ds[i]))
  {
    var es, os := Dictionary(ds, create), Ordered(ds);
    var sorted := Each(Sort(ds), canonical);
    DictionaryIsOrdered(ds, create);
    SortIsPermutation(ds);
    if forall i :: 0 <= i < |ds| ==> back(create(ds[i])) == Ok(canonical(ds[i])) {
      forall i | 0 <= i < |es| ensures back(es[i].value) == Ok(sorted[i]) && sorted[i].name == os[i].key {
        MemberOfSort(ds, i);
      }
      DistinctInOrder(os, sorted);
      AddAllIs(es, back, sorted);
    }
    if AddAll(es, back) == Ok(sorted) {
      AddAllEach(es, back);
      forall j | 0 <= j < |ds| ensures back(create(ds[j])) == Ok(canonical(ds[j])) {
        var i := PlaceInSort(ds, j);
        assert es[i].value == create(ds[j]) && sorted[i] == canonical(ds[j]);
      }
    }
  }

  lemma MemberOfSort(ds: seq<Decl>, i: nat)
    requires multiset(Sort(ds)) == multiset(ds) && i < |Ordered(ds)|
    ensures Ordered(ds)[i].value in ds
  {
    assert Sort(ds)[i] in multiset(Sort(ds));
  }

  lemma PlaceInSort(ds: seq<Decl>, j: nat) returns (i: nat)
    requires multiset(Sort(ds)) == multiset(ds) && j < |ds|
    ensures i < |Ordered(ds)| && Ordered(ds)[i].value == ds[j]
  {
    assert ds[j] in multiset(ds);
    i :| 0 <= i < |Sort(ds)| && Sort(ds)[i] == ds[j];
  }

  lemma DistinctInOrder(os: seq<D.Entry<Decl>>, ds: seq<Decl>)
    requires D.Sorted(os) && |ds| == |os| && forall i :: 0 <= i < |os| ==> ds[i].name == os[i].key
    ensures DistinctNames(ds)
  {
    forall i, j | 0 <= i < j < |ds| ensures Lower(ds[i].name) != Lower(ds[j].name) {
      LessIrreflexive(Lower(os[i].key));
    }
  }

  // ---------------------------------------------------------------- declarations there and back

  predicate QualifierOk(d: Decl) {
    d.Qualifier? && ValueOk(d.value) && IsCimName(d.name)
  }

  ghost predicate AllQualifiers(ds: seq<Decl>) {
    DistinctNames(ds) && forall i :: 0 <= i < |ds| ==> QualifierOk(ds[i])
  }

  ghost predicate PropertyOk(d: Decl) {
    && d.Property? && ValueOk(d.value) && IsCimName(d.name)
    && IsOptionalName(d.referenceClass) && IsOptionalName(d.classOrigin) && AllQualifiers(d.qualifiers)
    && Fits(d.value, d.arraySize, d.referenceClass)
  }

  ghost predicate ParameterOk(d: Decl) {
    && d.Parameter? && IsCimName(d.name) && IsOptionalName(d.referenceClass) && AllQualifiers(d.qualifiers)
    && ParameterFits(d.cimType, d.isArray, d.arraySize, d.referenceClass)
  }

  ghost predicate MethodOk(d: Decl) {
    && d.Method? && IsCimName(d.name) && IsOptionalName(d.classOrigin) && AllQualifiers(d.qualifiers)
    && DistinctNames(d.parameters) && forall i :: 0 <= i < |d.parameters| ==> ParameterOk(d.parameters[i])
  }

  /** What a server sends. */
  ghost predicate ClassOk(d: Decl) {
    && d.Class? && IsCimName(d.name) && IsOptionalName(d.superclass) && AllQualifiers(d.qualifiers)
    && DistinctNames(d.properties) && (forall i :: 0 <= i < |d.properties| ==> PropertyOk(d.properties[i]))
    && DistinctNames(d.methods) && (forall i :: 0 <= i < |d.methods| ==> MethodOk(d.methods[i]))
  }

  /** The same declaration with its sections in the order of a NocaseDict. */
  function Same(d: Decl): Decl {
    d
  }

  function CanonicalParameter(d: Decl): Decl {
    if d.Parameter? then
      Parameter(d.name, d.cimType, d.isArray, d.arraySize, d.referenceClass, Each(Sort(d.qualifiers), Same))
    else d
  }

  function CanonicalProperty(d: Decl): Decl {
    if d.Property? then
      Property(d.name, d.value, d.arraySize, d.referenceClass, d.classOrigin, d.propagated,
               Each(Sort(d.qualifiers), Same))
    else d
  }

  function CanonicalMethod(d: Decl): Decl {
    if d.Method? then
      d.(parameters := Each(Sort(d.parameters), CanonicalParameter), qualifiers := Each(Sort(d.qualifiers), Same))
    else d
  }

  function CanonicalClass(d: Decl): Decl {
    if d.Class? then
      d.(properties := Each(Sort(d.properties), CanonicalProperty), qualifiers := Each(Sort(d.qualifiers), Same),
         methods := Each(Sort(d.methods), CanonicalMethod))
    else d
  }

  predicate QualifierSurvives(d: Decl) {
    d.Qualifier? && Survives(d.value)
  }

  predicate PropertySurvives(d: Decl) {
    d.Property? && d.qualifiers == [] && Survives(d.value) && (d.value.items.None? ==> d.arraySize == 0)
  }

  predicate ParameterSurvives(d: Decl) {
    && d.Parameter? && d.referenceClass != ""
    && forall i :: 0 <= i < |d.qualifiers| ==> QualifierSurvives(d.qualifiers[i])
  }

  predicate MethodSurvives(d: Decl) {
    && d.Method? && d.classOrigin != ""
    && (forall i :: 0 <= i < |d.parameters| ==> ParameterSurvives(d.parameters[i]))
    && (forall i :: 0 <= i < |d.qualifiers| ==> QualifierSurvives(d.qualifiers[i]))
  }

  predicate ClassSurvives(d: Decl) {
    && d.Class? && d.superclass != ""
    && (forall i :: 0 <= i < |d.properties| ==> PropertySurvives(d.properties[i]))
    && (forall i :: 0 <= i < |d.qualifiers| ==> QualifierSurvives(d.qualifiers[i]))
    && (forall i :: 0 <= i < |d.methods| ==> MethodSurvives(d.methods[i]))
  }

  lemma QualifierRoundTrip(d: Decl)
    requires QualifierOk(d)
    ensures QualifierBack(QualifierOf(d))
         == if ItemsComeBack(d.value) then Ok(Qualifier(d.name, Returned(d.value), d.flavor, d.propagated))
            else Err(InvalidDateTime)
    ensures QualifierBack(QualifierOf(d)) == Ok(Same(d)) <==> QualifierSurvives(d)
  {
    hide FromPython, ToPython, Returned, Survives, IsCimName, TypeName;
    ReadableRoundTrip(d.value);
  }

  lemma QualifiersRoundTrip(ds: seq<Decl>)
    requires AllQualifiers(ds)
    ensures AddSection(Nocase(Dictionary(ds, QualifierOf)), QualifierBack) == Ok(Each(Sort(ds), Same))
        <==> forall i :: 0 <= i < |ds| ==> QualifierSurvives(ds[i])
  {
    hide Dictionary, AddAll, Sort, QualifierOf, QualifierBack, QualifierSurvives;
    SectionRoundTrip(ds, QualifierOf, QualifierBack, Same);
    forall i | 0 <= i < |ds|
      ensures QualifierBack(QualifierOf(ds[i])) == Ok(Same(ds[i])) <==> QualifierSurvives(ds[i])
    {
      QualifierRoundTrip(ds[i]);
    }
  }

  lemma SizeIsKept(x: uint32)
    ensures D.ToInt32(x) % 0x1_0000_0000 == x
  {
  }

  /** A property comes back if its value does, without its qualifiers and with its value as Returned says. */
  lemma PropertyRoundTrip(d: Decl)
    requires PropertyOk(d)
    ensures PropertyBack(PropertyOf(d))
         == if !ItemsComeBack(d.value) then Err(InvalidDateTime)
            else
              Ok(d.(value := Returned(d.value), qualifiers := [],
                    arraySize := if Returned(d.value).items.None? then 0 else d.arraySize))
    ensures PropertyBack(PropertyOf(d)) == Ok(CanonicalProperty(d)) <==> PropertySurvives(d)
  {
    hide FromPython, ToPython, Survives, IsCimName, TypeName, Dictionary, D.ToInt32;
    ReadableRoundTrip(d.value);
    SizeIsKept(d.arraySize);
    SortIsPermutation(d.qualifiers);
    assert |Sort(d.qualifiers)| == |multiset(Sort(d.qualifiers))| == |multiset(d.qualifiers)| == |d.qualifiers|;
  }

  lemma ParameterRoundTrip(d: Decl)
    requires ParameterOk(d)
    ensures ParameterBack(ParameterOf(d)) == Ok(CanonicalParameter(d)) <==> ParameterSurvives(d)
    ensures d.referenceClass == "" ==> ParameterBack(ParameterOf(d)) == Err(InvalidName)
  {
    hide QualifierOf, QualifierBack, QualifierSurvives, IsNameChar, TypeName, TypeNamed, Dictionary, AddSection;
    hide D.ToInt32;
    QualifiersRoundTrip(d.qualifiers);
    TypeNameIsRead(d.cimType);
    SizeIsKept(d.arraySize);
  }

  lemma CanonicalName(d: Decl)
    ensures CanonicalParameter(d).name == CanonicalProperty(d).name == CanonicalMethod(d).name == d.name
  {
  }

  lemma ParametersRoundTrip(ds: seq<Decl>)
    requires DistinctNames(ds) && forall i :: 0 <= i < |ds| ==> ParameterOk(ds[i])
    ensures AddSection(Nocase(Dictionary(ds, ParameterOf)), ParameterBack) == Ok(Each(Sort(ds), CanonicalParameter))
        <==> forall i :: 0 <= i < |ds| ==> ParameterSurvives(ds[i])
  {
    hide Dictionary, AddAll, Sort, ParameterOf, ParameterBack, ParameterSurvives, ParameterOk;
    hide CanonicalParameter, Lower, DistinctNames;
    forall i | 0 <= i < |ds| ensures CanonicalParameter(ds[i]).name == ds[i].name {
      CanonicalName(ds[i]);
    }
    SectionRoundTrip(ds, ParameterOf, ParameterBack, CanonicalParameter);
    forall i | 0 <= i < |ds|
      ensures ParameterBack(ParameterOf(ds[i])) == Ok(CanonicalParameter(ds[i])) <==> ParameterSurvives(ds[i])
    {
      ParameterRoundTrip(ds[i]);
    }
  }

  lemma MethodRoundTrip(d: Decl)
    requires MethodOk(d)
    ensures MethodBack(MethodOf(d)) == Ok(CanonicalMethod(d)) <==> MethodSurvives(d)
    ensures d.classOrigin == "" ==> MethodBack(MethodOf(d)) == Err(InvalidName)
  {
    hide QualifierOf, QualifierBack, ParameterOf, ParameterBack, IsNameChar, TypeName, TypeNamed, Dictionary;
    hide AddSection;
    hide QualifierSurvives, ParameterSurvives, ParameterOk, DistinctNames, AllQualifiers, CanonicalParameter;
    QualifiersRoundTrip(d.qualifiers);
    ParametersRoundTrip(d.parameters);
    TypeNameIsRead(d.cimType);
  }

  lemma PropertiesRoundTrip(ds: seq<Decl>)
    requires DistinctNames(ds) && forall i :: 0 <= i < |ds| ==> PropertyOk(ds[i])
    ensures AddSection(Nocase(Dictionary(ds, PropertyOf)), PropertyBack) == Ok(Each(Sort(ds), CanonicalProperty))
        <==> forall i :: 0 <= i < |ds| ==> PropertySurvives(ds[i])
  {
    hide Dictionary, AddAll, Sort, PropertyOf, PropertyBack, PropertySurvives, PropertyOk, CanonicalProperty, Lower;
    hide DistinctNames;
    forall i | 0 <= i < |ds| ensures CanonicalProperty(ds[i]).name == ds[i].name {
      CanonicalName(ds[i]);
    }
    SectionRoundTrip(ds, PropertyOf, PropertyBack, CanonicalProperty);
    forall i | 0 <= i < |ds|
      ensures PropertyBack(PropertyOf(ds[i])) == Ok(CanonicalProperty(ds[i])) <==> PropertySurvives(ds[i])
    {
      PropertyRoundTrip(ds[i]);
    }
  }

  lemma MethodsRoundTrip(ds: seq<Decl>)
    requires DistinctNames(ds) && forall i :: 0 <= i < |ds| ==> MethodOk(ds[i])
    ensures AddSection(Nocase(Dictionary(ds, MethodOf)), MethodBack) == Ok(Each(Sort(ds), CanonicalMethod))
        <==> forall i :: 0 <= i < |ds| ==> MethodSurvives(ds[i])
  {
    hide Dictionary, AddAll, Sort, MethodOf, MethodBack, MethodSurvives, MethodOk, CanonicalMethod, Lower;
    hide DistinctNames;
    forall i | 0 <= i < |ds| ensures CanonicalMethod(ds[i]).name == ds[i].name {
      CanonicalName(ds[i]);
    }
    SectionRoundTrip(ds, MethodOf, MethodBack, CanonicalMethod);
    forall i | 0 <= i < |ds|
      ensures MethodBack(MethodOf(ds[i])) == Ok(CanonicalMethod(ds[i])) <==> MethodSurvives(ds[i])
    {
      MethodRoundTrip(ds[i]);
    }
  }

  /** The main result: a class a server sends comes back as it was, its sections in listing order, exactly when it has
      a superclass, none of its properties has qualifiers, every method names its class of origin, every parameter a
      reference class, and every value is of a kind that survives. */
  lemma ClassRoundTrip(d: Decl)
    requires ClassOk(d)
    ensures ClassBack(ClassOf(d)) == Ok(CanonicalClass(d)) <==> ClassSurvives(d)
    ensures d.superclass == "" ==> ClassBack(ClassOf(d)) == Err(InvalidName)
  {
    hide QualifierOf, QualifierBack, PropertyOf, PropertyBack, MethodOf, MethodBack, IsNameChar, Dictionary, AddSection;
    hide QualifierSurvives, PropertySurvives, MethodSurvives, PropertyOk, MethodOk, DistinctNames, AllQualifiers;
    hide CanonicalProperty, CanonicalMethod;
    QualifiersRoundTrip(d.qualifiers);
    PropertiesRoundTrip(d.properties);
    MethodsRoundTrip(d.methods);
  }

  /** Listing order is only an order. */
  lemma CanonicalIsPermutation(d: Decl)
    requires ClassOk(d)
    ensures multiset(Sort(d.properties)) == multiset(d.properties)
    ensures multiset(Sort(d.qualifiers)) == multiset(d.qualifiers)
    ensures multiset(Sort(d.methods)) == multiset(d.methods)
  {
    SortIsPermutation(d.properties);
    SortIsPermutation(d.qualifiers);
    SortIsPermutation(d.methods);
  }

  const FLAVOR := Flavor(false, true, true, false)
  const KEY := Qualifier("Key", Value(Boolean, false, Some([Plain(1)])), FLAVOR, false)
  const NAME := Property("Name", Value(String, false, Some([Plain(7)])), 0, "", "", false, [KEY])

  lemma NameIsDeclared()
    ensures PropertyOk(NAME) && ValueOk(NAME.value) && Survives(NAME.value)
  {
  }

  /** Two ordinary declarations that do not survive: a key property loses its qualifier, a class without a superclass
      cannot be converted back. */
  lemma QualifierIsLost()
    ensures PropertyOk(NAME)
    ensures PropertyBack(PropertyOf(NAME)) == Ok(Property("Name", NAME.value, 0, "", "", false, []))
    ensures ClassBack(ClassOf(Class("Top", "", [NAME], [], []))) == Err(InvalidName)
  {
    NameIsDeclared();
    hide PropertyOf, PropertyBack, PropertyOk, Survives, ItemsComeBack, Returned, ValueOk;
    PropertyRoundTrip(NAME);
    ReadableRoundTrip(NAME.value);
  }

  lemma LettersAreNames()
    ensures IsCimName("A") && IsCimName("B") && IsCimName("p") && IsCimName("m") && IsCimName("r")
  {
  }

  lemma NoQualifiers()
    ensures AllQualifiers([])
  {
  }

  lemma OneQualifier()
    ensures AllQualifiers([KEY]) && QualifierSurvives(KEY) && ValueOk(KEY.value) && Survives(KEY.value)
  {
    NameIsDeclared();
  }

  const VALUE := Property("p", KEY.value, 0, "", "", false, [])
  const TARGET := Parameter("r", Reference, false, 0, "A", [])
  const CALL := Method("m", Boolean, "A", false, [TARGET], [])

  lemma MembersSurvive()
    ensures PropertyOk(VALUE) && PropertySurvives(VALUE) && ParameterOk(TARGET) && ParameterSurvives(TARGET)
    ensures MethodOk(CALL) && MethodSurvives(CALL)
  {
    hide IsCimName, AllQualifiers, ValueOk, Survives;
    LettersAreNames();
    NoQualifiers();
    OneQualifier();
  }

  /** A class that does come back: it has a superclass, a property without qualifiers, a qualifier, and a method with a
      class of origin and a reference for its parameter. */
  lemma AClassThatSurvives(d: Decl)
    requires d == Class("B", "A", [VALUE], [KEY], [CALL])
    ensures ClassOk(d) && ClassSurvives(d) && ClassBack(ClassOf(d)) == Ok(CanonicalClass(d))
  {
    hide IsCimName, AllQualifiers, PropertyOk, PropertySurvives, MethodOk, MethodSurvives, QualifierSurvives;
    hide ClassBack, ClassOf, CanonicalClass;
    LettersAreNames();
    OneQualifier();
    MembersSurvive();
    ClassRoundTrip(d);
  }
}
