/** The members of a section are Python objects of their own: they can be taken out, read, changed and copied, and are
    shared by a class and its copies. Here each object has the fields of the source, a section or value next to its
    cache, and the members of a section exist only after a getter has built it. The same operations on a heap where
    create() builds everything at once give the same answers. */
module LazyElements {
  import opened Text
  import opened Declarations
  import opened LazyObjects
  import D = NocaseDict
  import R = RefCounted

  // ---------------------------------------------------------------- objects and references

  /** An object the client has named, or one created for a place in a section. */
  datatype Ref = Named(n: nat) | Member(owner: Ref, which: Which, key: string)

  /** A dictionary of objects, or anything else that may stand in a section. */
  datatype Members = Folded(entries: seq<D.Entry<Ref>>) | Pairs(pairs: seq<(string, Ref)>) | NoDictionary

  /** A field such as m_value or m_properties, and the cache beside it. */
  datatype Lazy<M, C> = Lazy(member: M, cache: Option<C>)

  /** Only properties and qualifiers have a value, and only that of a property may be in its cache. */
  datatype Obj = Obj(name: string, value: Option<Lazy<PyValue, Value>>, sections: map<Which, Lazy<Members, seq<Decl>>>)

  type Heap = map<Ref, Obj>

  function ValueOf(v: Value): PyValue {
    if ValueOk(v) then ToPython(v) else NoValue
  }

  /** What the getter of a value gives. */
  function Given(v: Lazy<PyValue, Value>): PyValue {
    if v.cache.Some? then ValueOf(v.cache.value) else v.member
  }

  // ---------------------------------------------------------------- create()

  function SectionsOf(d: Decl): map<Which, seq<Decl>> {
    match d
    case Qualifier(_, _, _, _) => map[]
    case Property(_, _, _, _, _, _, qs) => map[Qualifiers := qs]
    case Parameter(_, _, _, _, _, qs) => map[Qualifiers := qs]
    case Method(_, _, _, _, ps, qs) => map[Parameters := ps, Qualifiers := qs]
    case Class(_, _, ps, qs, ms) => map[Properties := ps, Qualifiers := qs, Methods := ms]
  }

  /** create(): declarations and values are kept for later; a qualifier converts its value at once. */
  function Created(d: Decl): Obj {
    Obj(d.name,
        if d.Property? then Some(Lazy(NoValue, Some(d.value)))
        else if d.Qualifier? then Some(Lazy(ValueOf(d.value), None))
        else None,
        map which | which in SectionsOf(d) :: Lazy(NoDictionary, Some(SectionsOf(d)[which])))
  }

  function JustCreated(r: Ref, d: Decl): Heap {
    map[r := Created(d)]
  }

  /** The dictionary a getter makes of some declarations. */
  function SectionOf(owner: Ref, which: Which, ds: seq<Decl>): seq<D.Entry<Ref>> {
    if ds == [] then []
    else
      var n := |ds| - 1;
      D.Insert(SectionOf(owner, which, ds[..n]), ds[n].name, Member(owner, which, Lower(ds[n].name)))
  }

  /** The objects it creates. */
  function MembersOf(owner: Ref, which: Which, ds: seq<Decl>): Heap {
    if ds == [] then map[]
    else
      var n := |ds| - 1;
      MembersOf(owner, which, ds[..n])[Member(owner, which, Lower(ds[n].name)) := Created(ds[n])]
  }

  // ---------------------------------------------------------------- create() that leaves nothing for later

  function Whole(r: Ref, d: Decl): Obj {
    Obj(d.name,
        if d.Property? || d.Qualifier? then Some(Lazy(ValueOf(d.value), None)) else None,
        map which | which in SectionsOf(d) :: Lazy(Folded(SectionOf(r, which, SectionsOf(d)[which])), None))
  }

  function Tree(r: Ref, d: Decl): Heap
    decreases d
  {
    map[r := Whole(r, d)] +
    match d
    case Qualifier(_, _, _, _) => map[]
    case Property(_, _, _, _, _, _, qs) => Trees(r, Qualifiers, qs)
    case Parameter(_, _, _, _, _, qs) => Trees(r, Qualifiers, qs)
    case Method(_, _, _, _, ps, qs) => Trees(r, Parameters, ps) + Trees(r, Qualifiers, qs)
    case Class(_, _, ps, qs, ms) => Trees(r, Properties, ps) + Trees(r, Qualifiers, qs) + Trees(r, Methods, ms)
  }

  function Trees(owner: Ref, which: Which, ds: seq<Decl>): Heap
    decreases ds
  {
    if ds == [] then map[]
    else
      var n := |ds| - 1;
      Trees(owner, which, ds[..n]) + Tree(Member(owner, which, Lower(ds[n].name)), ds[n])
  }

  // ---------------------------------------------------------------- getters and paths

  /** The getter of a section: build it from its cache, create its members, release the cache. */
  function Get(heap: Heap, r: Ref, which: Which): (h: Heap)
    requires r in heap && which in heap[r].sections
    ensures heap.Keys <= h.Keys && which in h[r].sections && h[r].sections[which].cache.None?
  {
    var o := heap[r];
    match o.sections[which].cache
    case None => heap
    case Some(ds) =>
      var built := Lazy(Folded(SectionOf(r, which, ds)), None);
      (heap + MembersOf(r, which, ds))[r := o.(sections := o.sections[which := built])]
  }

  /** How the client comes to an object: from one it has named, down through sections. */
  datatype Place = Place(root: nat, path: seq<(Which, string)>)

  function MemberAt(m: Members, key: string): Option<Ref> {
    match m
    case Folded(entries) =>
      var i := D.IndexOf(entries, Lower(key));
      if i < |entries| then Some(entries[i].value) else None
    case Pairs(pairs) => FindPair(pairs, key)
    case NoDictionary => None
  }

  /** Every step of a path calls a getter. */
  function Follow(heap: Heap, r: Ref, path: seq<(Which, string)>): (found: (Heap, Option<Ref>))
    ensures heap.Keys <= found.0.Keys && (found.1.Some? ==> found.1.value in found.0)
    decreases |path|
  {
    if r !in heap then (heap, None)
    else if path == [] then (heap, Some(r))
    else
      var (which, key) := path[0];
      if which !in heap[r].sections then (heap, None)
      else
        var h := Get(heap, r, which);
        match MemberAt(h[r].sections[which].member, key)
        case None => (h, None)
        case Some(next) => Follow(h, next, path[1..])
  }

  function Locate(heap: Heap, p: Place): (found: (Heap, Option<Ref>))
    ensures heap.Keys <= found.0.Keys && (found.1.Some? ==> found.1.value in found.0)
  {
    Follow(heap, Named(p.root), p.path)
  }

  // ---------------------------------------------------------------- operations

  /** What a setter is given. */
  datatype NewSection = NewNocaseDict | NewDict | SomethingElse

  datatype Op =
    | Create(n: nat, d: Decl)
    | ReadName(p: Place)
    | WriteName(p: Place, name: string)
    | ReadValue(p: Place)
    | WriteValue(p: Place, v: PyValue)
    | ReplaceSection(p: Place, which: Which, o: NewSection)
    | ListKeys(p: Place, which: Which)
    | Store(p: Place, which: Which, key: string, item: Place)
    | Copy(n: nat, p: Place)

  datatype Reply = Done | Raised(error: Error) | Val(v: PyValue) | Name(name: string) | Keys(keys: seq<string>)
    | NotAnOperation

  function KeysOf(m: Members): Reply {
    match m
    case Folded(entries) => Keys(seq(|entries|, i requires 0 <= i < |entries| => entries[i].key))
    case Pairs(pairs) => Keys(seq(|pairs|, i requires 0 <= i < |pairs| => pairs[i].0))
    case NoDictionary => Raised(TypeError)
  }

  function Put(m: Members, key: string, item: Ref): (Members, Reply) {
    match m
    case Folded(entries) => (Folded(D.Insert(entries, key, item)), Done)
    case Pairs(pairs) => (Pairs(PutPair(pairs, key, item)), Done)
    case NoDictionary => (m, Raised(TypeError))
  }

  function WithSection(o: Obj, which: Which, m: Members): Obj {
    o.(sections := o.sections[which := Lazy(m, None)])
  }

  predicate OnOneObject(op: Op) {
    op.ReadName? || op.WriteName? || op.ReadValue? || op.WriteValue? || op.ReplaceSection?
  }

  /** The getter of a value converts it and releases the cache; setters release it too. */
  function OnObject(o: Obj, op: Op): (Obj, Reply)
    requires OnOneObject(op)
  {
    match op
    case ReadName(_) => (o, Name(o.name))
    case WriteName(_, name) => (o.(name := name), Done)
    case ReadValue(_) =>
      if o.value.None? then (o, NotAnOperation)
      else (o.(value := Some(Lazy(Given(o.value.value), None))), Val(Given(o.value.value)))
    case WriteValue(_, v) =>
      if o.value.None? then (o, NotAnOperation) else (o.(value := Some(Lazy(v, None))), Done)
    case ReplaceSection(_, which, given) =>
      if which !in o.sections then (o, NotAnOperation)
      else if given.SomethingElse? then (o, Raised(TypeError))
      else (WithSection(o, which, if given.NewDict? then Pairs([]) else Folded([])), Done)
  }

  function ListAt(heap: Heap, r: Ref, which: Which): (Heap, Reply)
    requires r in heap
  {
    if which !in heap[r].sections then (heap, NotAnOperation)
    else
      var h := Get(heap, r, which);
      (h, KeysOf(h[r].sections[which].member))
  }

  function StoreAt(heap: Heap, r: Ref, which: Which, key: string, item: Ref): (Heap, Reply)
    requires r in heap
  {
    if which !in heap[r].sections then (heap, NotAnOperation)
    else
      var h := Get(heap, r, which);
      var (m, reply) := Put(h[r].sections[which].member, key, item);
      (h[r := WithSection(h[r], which, m)], reply)
  }

  const ORDER := [Properties, Parameters, Qualifiers, Methods]

  /** copy() calls the getters one after the other, until one does not give a NocaseDict. */
  function GetAll(heap: Heap, r: Ref, ws: seq<Which>): (got: (Heap, bool))
    requires r in heap
    ensures heap.Keys <= got.0.Keys
    decreases |ws|
  {
    if ws == [] then (heap, true)
    else if ws[0] !in heap[r].sections then GetAll(heap, r, ws[1..])
    else
      var h := Get(heap, r, ws[0]);
      if h[r].sections[ws[0]].member.Folded? then GetAll(h, r, ws[1..]) else (h, false)
  }

  /** The copy has copies of the dictionaries, with the same objects in them, and of m_value, which nobody asked for. */
  function CopyOf(o: Obj): Obj {
    Obj(o.name,
        if o.value.Some? then Some(Lazy(o.value.value.member, None)) else None,
        map which | which in o.sections :: Lazy(o.sections[which].member, None))
  }

  function CopyAt(heap: Heap, r: Ref, n: nat): (Heap, Reply)
    requires r in heap
  {
    if Named(n) in heap then (heap, NotAnOperation)
    else
      var (h, folded) := GetAll(heap, r, ORDER);
      if folded then (h[Named(n) := CopyOf(h[r])], Done) else (h, Raised(TypeError))
  }

  function ActAt(heap: Heap, r: Ref, op: Op): (Heap, Reply)
    requires r in heap && !op.Create? && !op.Store?
  {
    if op.ListKeys? then ListAt(heap, r, op.which)
    else if op.Copy? then CopyAt(heap, r, op.n)
    else
      var (o, reply) := OnObject(heap[r], op);
      (heap[r := o], reply)
  }

  function Step(heap: Heap, op: Op, create: (Ref, Decl) -> Heap): (Heap, Reply) {
    if op.Create? then
      if Named(op.n) in heap then (heap, NotAnOperation) else (heap + create(Named(op.n), op.d), Done)
    else if op.Store? then
      var (h, item) := Locate(heap, op.item);
      if item.None? then (h, NotAnOperation)
      else
        var (h', r) := Locate(h, op.p);
        if r.None? then (h', NotAnOperation) else StoreAt(h', r.value, op.which, op.key, item.value)
    else
      var (h, r) := Locate(heap, op.p);
      if r.None? then (h, NotAnOperation) else ActAt(h, r.value, op)
  }

  function Run(ops: seq<Op>, create: (Ref, Decl) -> Heap): (Heap, seq<Reply>) {
    if ops == [] then (map[], [])
    else
      var n := |ops| - 1;
      var before := Run(ops[..n], create);
      var step := Step(before.0, ops[n], create);
      (step.0, before.1 + [step.1])
  }

  // ---------------------------------------------------------------- what the operations do, seen by a client

  ghost predicate KeysInOrder(m: Members) {
    m.Folded? ==> D.Sorted(m.entries)
  }

  /** A NocaseDict does not tell keys apart that differ in case only, a dict does. */
  predicate SameKey(m: Members, a: string, b: string) {
    if m.Folded? then SameButCase(a, b) else a == b
  }

  lemma FoundInModel(entries: seq<D.Entry<Ref>>, key: string)
    ensures MemberAt(Folded(entries), key)
         == if Lower(key) in D.Model(entries) then Some(D.Model(entries)[Lower(key)].value) else None
  {
    hide D.Model;
    D.ModelLookup(entries, Lower(key));
  }

  /** An item stored in a dictionary is found under its key, and every other key finds what it did before. */
  lemma PutIsFound(m: Members, key: string, item: Ref, other: string)
    requires KeysInOrder(m)
    ensures var (m', reply) := Put(m, key, item);
            if m.NoDictionary? then m' == m && reply == Raised(TypeError)
            else reply == Done && KeysInOrder(m')
                 && MemberAt(m', other) == if SameKey(m, key, other) then Some(item) else MemberAt(m, other)
  {
    hide D.Model, D.Sorted, D.IndexOf, D.Insert, PutPair, FindPair, SameButCase;
    match m
    case Folded(entries) =>
      D.InsertIsPut(entries, key, item);
      LowerFoldsCase(key, other);
      FoundInModel(entries, other);
      FoundInModel(D.Insert(entries, key, item), other);
    case Pairs(pairs) => PutThenFind(pairs, key, item, other);
    case NoDictionary =>
  }

  /** The keys listed are those under which a member is found. */
  lemma KeysAreFound(m: Members, key: string)
    ensures KeysOf(m) == Raised(TypeError) <==> m.NoDictionary?
    ensures KeysOf(m).Keys? <==> !m.NoDictionary?
    ensures KeysOf(m).Keys? ==>
      (MemberAt(m, key).Some? <==> exists i :: 0 <= i < |KeysOf(m).keys| && SameKey(m, KeysOf(m).keys[i], key))
  {
    hide SameButCase, D.IndexOf, FindPair, KeysOf;
    match m
    case Folded(entries) =>
      ListedKeys(m);
      FoldedIsListed(entries, key);
    case Pairs(pairs) =>
      ListedKeys(m);
      PairIsListed(pairs, key);
    case NoDictionary => ListedKeys(m);
  }

  lemma ListedKeys(m: Members)
    ensures match m
            case Folded(entries) =>
              KeysOf(m).Keys? && |KeysOf(m).keys| == |entries| &&
              forall i :: 0 <= i < |entries| ==> KeysOf(m).keys[i] == entries[i].key
            case Pairs(pairs) =>
              KeysOf(m).Keys? && |KeysOf(m).keys| == |pairs| &&
              forall i :: 0 <= i < |pairs| ==> KeysOf(m).keys[i] == pairs[i].0
            case NoDictionary => KeysOf(m) == Raised(TypeError)
  {
  }

  lemma FoldedIsListed(entries: seq<D.Entry<Ref>>, key: string)
    ensures MemberAt(Folded(entries), key).Some? <==>
            exists i :: 0 <= i < |entries| && SameButCase(entries[i].key, key)
  {
    hide SameButCase, D.IndexOf;
    forall i | 0 <= i < |entries| ensures SameButCase(entries[i].key, key) <==> Lower(entries[i].key) == Lower(key) {
      LowerFoldsCase(entries[i].key, key);
    }
  }

  lemma {:induction false} PairIsListed(pairs: seq<(string, Ref)>, key: string)
    ensures FindPair(pairs, key).Some? <==> exists i :: 0 <= i < |pairs| && pairs[i].0 == key
  {
    if pairs != [] {
      PairIsListed(pairs[1..], key);
      assert forall i :: 0 <= i < |pairs| - 1 ==> pairs[1..][i] == pairs[i + 1];
      if i :| 0 <= i < |pairs| && pairs[i].0 == key {
        assert i > 0 ==> pairs[1..][i - 1].0 == key;
      }
    }
  }

  /** Names and values are read as they were written, a section that was set is empty, and nothing else changes. */
  lemma WrittenIsRead(o: Obj, p: Place, name: string, v: PyValue, which: Which, given: NewSection)
    ensures var named := OnObject(o, WriteName(p, name)).0;
            OnObject(named, ReadName(p)).1 == Name(name) && named.value == o.value && named.sections == o.sections
    ensures OnObject(o, WriteName(p, name)).1 == Done
    ensures OnObject(o, WriteValue(p, v)).1 == if o.value.Some? then Done else NotAnOperation
    ensures o.value.Some? ==>
      var valued := OnObject(o, WriteValue(p, v)).0;
      OnObject(valued, ReadValue(p)).1 == Val(v) && valued.name == o.name && valued.sections == o.sections
    ensures var (after, reply) := OnObject(o, ReplaceSection(p, which, given));
            && (reply == NotAnOperation <==> which !in o.sections)
            && (reply == Raised(TypeError) <==> which in o.sections && given.SomethingElse?)
            && (reply != Done ==> after == o)
            && (reply == Done ==>
                  && which in o.sections && after.sections.Keys == o.sections.Keys
                  && after.sections[which].cache.None? && KeysOf(after.sections[which].member) == Keys([])
                  && (after.sections[which].member.Folded? <==> given.NewNocaseDict?))
            && after.name == o.name && after.value == o.value
            && forall w :: w != which && w in o.sections ==> after.sections[w] == o.sections[w]
  {
  }

  /** Reading changes no answer. */
  lemma ReadingChangesNothing(o: Obj, p: Place)
    ensures OnObject(o, ReadName(p)).0 == o && OnObject(o, ReadName(p)).1 == Name(o.name)
    ensures var (read, reply) := OnObject(o, ReadValue(p));
            && (if o.value.Some? then reply.Val? else reply == NotAnOperation)
            && OnObject(read, ReadValue(p)) == (read, reply)
            && read.name == o.name && read.sections == o.sections
  {
  }

  /** Beneath an object an item that was stored is the one the client comes to, and each other key leads where it
      did. */
  lemma StoredIsReached(heap: Heap, r: Ref, which: Which, key: string, item: Ref, other: string)
    requires r in heap && which in heap[r].sections && item in heap
    requires KeysInOrder(Get(heap, r, which)[r].sections[which].member)
    ensures var (h, reply) := StoreAt(heap, r, which, key, item);
            var m := Get(heap, r, which)[r].sections[which].member;
            && reply == (if m.NoDictionary? then Raised(TypeError) else Done)
            && Follow(h, r, [(which, other)]).1
               == if reply == Done && SameKey(m, key, other) then Some(item) else Follow(heap, r, [(which, other)]).1
  {
    hide Put, SameKey, MemberAt, Get;
    var g := Get(heap, r, which);
    var m := g[r].sections[which].member;
    PutIsFound(m, key, item, other);
    var (h, reply) := StoreAt(heap, r, which, key, item);
    BuiltStays(h, r, which);
    OneStep(heap, r, which, other);
    OneStep(h, r, which, other);
  }

  lemma BuiltStays(h: Heap, r: Ref, which: Which)
    requires r in h && which in h[r].sections && h[r].sections[which].cache.None?
    ensures Get(h, r, which) == h
  {
  }

  lemma OneStep(h: Heap, r: Ref, which: Which, key: string)
    requires r in h && which in h[r].sections
    ensures var g := Get(h, r, which);
            var x := MemberAt(g[r].sections[which].member, key);
            Follow(h, r, [(which, key)]).1 == if x.Some? && x.value !in g then None else x
  {
    hide Get, MemberAt;
    var path := [(which, key)];
    assert path[1..] == [];
  }

  /** A copy has dictionaries of its own with the same objects in them. */
  lemma CopySharesMembers(o: Obj, which: Which, key: string, p: Place)
    requires which in o.sections
    ensures which in CopyOf(o).sections && CopyOf(o).sections[which].cache.None?
    ensures MemberAt(CopyOf(o).sections[which].member, key) == MemberAt(o.sections[which].member, key)
    ensures KeysOf(CopyOf(o).sections[which].member) == KeysOf(o.sections[which].member)
    ensures OnObject(CopyOf(o), ReadName(p)).1 == OnObject(o, ReadName(p)).1
    ensures o.value.Some? && o.value.value.cache.None? ==>
      OnObject(CopyOf(o), ReadValue(p)).1 == OnObject(o, ReadValue(p)).1
  {
  }

  // ---------------------------------------------------------------- who is beneath whom

  predicate Under(r: Ref, x: Ref) {
    x == r || (x.Member? && Under(r, x.owner))
  }

  /** Created for a section of r, directly or not. */
  predicate Beneath(r: Ref, which: Which, x: Ref) {
    x.Member? && ((x.owner == r && x.which == which) || Beneath(r, which, x.owner))
  }

  function Depth(r: Ref): nat {
    if r.Named? then 0 else 1 + Depth(r.owner)
  }

  lemma {:induction false} UnderIsDeeper(r: Ref, x: Ref)
    requires Under(r, x)
    ensures Depth(r) <= Depth(x) && (Depth(r) == Depth(x) ==> r == x)
  {
    if x != r {
      UnderIsDeeper(r, x.owner);
    }
  }

  lemma {:induction false} BeneathIsUnder(r: Ref, which: Which, x: Ref)
    requires Beneath(r, which, x)
    ensures Under(r, x) && Depth(r) < Depth(x)
  {
    if !(x.owner == r && x.which == which) {
      BeneathIsUnder(r, which, x.owner);
    }
  }

  lemma {:induction false} UnderMember(r: Ref, which: Which, key: string, x: Ref)
    requires Under(Member(r, which, key), x)
    ensures Beneath(r, which, x)
  {
    if x != Member(r, which, key) {
      UnderMember(r, which, key, x.owner);
    }
  }

  /** An object was created for one section only. */
  lemma {:induction false} BeneathOne(r: Ref, which: Which, other: Which, x: Ref)
    requires Beneath(r, which, x) && Beneath(r, other, x)
    ensures which == other
  {
    if x.owner == r {
      if Beneath(r, which, r) {
        BeneathIsUnder(r, which, r);
      }
      if Beneath(r, other, r) {
        BeneathIsUnder(r, other, r);
      }
    } else {
      BeneathOne(r, which, other, x.owner);
    }
  }

  lemma {:induction false} UnderOne(r: Ref, which: Which, key: string, other: string, x: Ref)
    requires Under(Member(r, which, key), x) && Under(Member(r, which, other), x)
    ensures key == other
  {
    if x == Member(r, which, key) {
      UnderIsDeeper(Member(r, which, other), x);
    } else if x == Member(r, which, other) {
      UnderIsDeeper(Member(r, which, key), x);
    } else {
      UnderOne(r, which, key, other, x.owner);
    }
  }

  lemma {:induction false} BeneathBeneath(r: Ref, which: Which, y: Ref, w: Which, x: Ref)
    requires Beneath(r, which, y) && Beneath(y, w, x)
    ensures Beneath(r, which, x)
  {
    if x.owner != y {
      BeneathBeneath(r, which, y, w, x.owner);
    }
  }

  // ---------------------------------------------------------------- what a tree holds

  ghost predicate Included(t: Heap, e: Heap) {
    forall x :: x in t ==> x in e && e[x] == t[x]
  }

  lemma IncludedTwice(a: Heap, b: Heap, c: Heap)
    requires Included(a, b) && Included(b, c)
    ensures Included(a, c)
  {
  }

  /** Everything in a tree but its root stands in one of the sections. */
  lemma TreePart(r: Ref, d: Decl, x: Ref) returns (which: Which)
    requires x in Tree(r, d) && x != r
    ensures which in SectionsOf(d) && x in Trees(r, which, SectionsOf(d)[which])
  {
    hide Trees, Whole;
    match d
    case Qualifier(_, _, _, _) => which := Qualifiers;
    case Property(_, _, _, _, _, _, qs) => which := Qualifiers;
    case Parameter(_, _, _, _, _, qs) => which := Qualifiers;
    case Method(_, _, _, _, ps, qs) => which := if x in Trees(r, Qualifiers, qs) then Qualifiers else Parameters;
    case Class(_, _, ps, qs, ms) =>
      which :=
        if x in Trees(r, Methods, ms) then Methods
        else if x in Trees(r, Qualifiers, qs) then Qualifiers else Properties;
  }

  lemma {:induction false} TreeIsUnder(r: Ref, d: Decl, x: Ref)
    requires x in Tree(r, d)
    ensures Under(r, x)
    decreases d
  {
    hide Tree, Trees, Beneath;
    if x != r {
      var which := TreePart(r, d, x);
      match d {
        case Qualifier(_, _, _, _) =>
        case Property(_, _, _, _, _, _, qs) => TreesAreBeneath(r, which, qs, x);
        case Parameter(_, _, _, _, _, qs) => TreesAreBeneath(r, which, qs, x);
        case Method(_, _, _, _, ps, qs) => TreesAreBeneath(r, which, if which == Qualifiers then qs else ps, x);
        case Class(_, _, ps, qs, ms) =>
          TreesAreBeneath(r, which, if which == Methods then ms else if which == Qualifiers then qs else ps, x);
      }
      BeneathIsUnder(r, which, x);
    }
  }

  lemma {:induction false} TreesAreBeneath(r: Ref, which: Which, ds: seq<Decl>, x: Ref)
    requires x in Trees(r, which, ds)
    ensures Beneath(r, which, x)
    decreases ds
  {
    var n := |ds| - 1;
    var key := Lower(ds[n].name);
    if x in Tree(Member(r, which, key), ds[n]) {
      TreeIsUnder(Member(r, which, key), ds[n], x);
      UnderMember(r, which, key, x);
    } else {
      TreesAreBeneath(r, which, ds[..n], x);
    }
  }

  /** The root, and all of each section. */
  lemma TreeHolds(r: Ref, d: Decl)
    ensures r in Tree(r, d) && Tree(r, d)[r] == Whole(r, d)
    ensures forall which :: which in SectionsOf(d) ==> Included(Trees(r, which, SectionsOf(d)[which]), Tree(r, d))
  {
    hide Trees, Whole, Beneath, Included;
    assert forall which, ds :: r !in Trees(r, which, ds) by {
      forall which, ds ensures r !in Trees(r, which, ds) {
        NotInItself(r, which, ds);
      }
    }
    match d
    case Qualifier(_, _, _, _) =>
    case Property(_, _, _, _, _, _, qs) => UnionOfOne(map[r := Whole(r, d)], Trees(r, Qualifiers, qs));
    case Parameter(_, _, _, _, _, qs) => UnionOfOne(map[r := Whole(r, d)], Trees(r, Qualifiers, qs));
    case Method(_, _, _, _, ps, qs) =>
      Apart(r, Parameters, ps, Qualifiers, qs);
      UnionOfTwo(map[r := Whole(r, d)], Trees(r, Parameters, ps), Trees(r, Qualifiers, qs));
    case Class(_, _, ps, qs, ms) =>
      Apart(r, Properties, ps, Qualifiers, qs);
      Apart(r, Properties, ps, Methods, ms);
      Apart(r, Qualifiers, qs, Methods, ms);
      UnionOfThree(map[r := Whole(r, d)], Trees(r, Properties, ps), Trees(r, Qualifiers, qs), Trees(r, Methods, ms));
  }

  lemma NotInItself(r: Ref, which: Which, ds: seq<Decl>)
    ensures r !in Trees(r, which, ds)
  {
    if r in Trees(r, which, ds) {
      TreesAreBeneath(r, which, ds, r);
      BeneathIsUnder(r, which, r);
    }
  }

  lemma Apart(r: Ref, which: Which, ds: seq<Decl>, other: Which, es: seq<Decl>)
    requires which != other
    ensures Trees(r, which, ds).Keys !! Trees(r, other, es).Keys
  {
    forall x | x in Trees(r, which, ds) && x in Trees(r, other, es) ensures false {
      TreesAreBeneath(r, which, ds, x);
      TreesAreBeneath(r, other, es, x);
      BeneathOne(r, which, other, x);
    }
  }

  lemma UnionOfOne(o: Heap, a: Heap)
    ensures Included(a, o + a)
  {
  }

  lemma UnionOfTwo(o: Heap, a: Heap, b: Heap)
    requires a.Keys !! b.Keys
    ensures Included(a, o + (a + b)) && Included(b, o + (a + b))
  {
  }

  lemma UnionOfThree(o: Heap, a: Heap, b: Heap, c: Heap)
    requires a.Keys !! b.Keys && a.Keys !! c.Keys && b.Keys !! c.Keys
    ensures Included(a, o + (a + b + c)) && Included(b, o + (a + b + c)) && Included(c, o + (a + b + c))
  {
  }

  /** Nothing in a tree is without its owner. */
  lemma {:induction false} TreeOwners(r: Ref, d: Decl, x: Ref)
    requires x in Tree(r, d) && x != r
    ensures x.Member? && x.owner in Tree(r, d)
    decreases d
  {
    hide Tree, Trees, Whole;
    var which := TreePart(r, d, x);
    TreeHolds(r, d);
    match d
    case Qualifier(_, _, _, _) =>
    case Property(_, _, _, _, _, _, qs) => TreesOwners(r, which, qs, x);
    case Parameter(_, _, _, _, _, qs) => TreesOwners(r, which, qs, x);
    case Method(_, _, _, _, ps, qs) => TreesOwners(r, which, if which == Qualifiers then qs else ps, x);
    case Class(_, _, ps, qs, ms) =>
      TreesOwners(r, which, if which == Methods then ms else if which == Qualifiers then qs else ps, x);
  }

  lemma {:induction false} TreesOwners(r: Ref, which: Which, ds: seq<Decl>, x: Ref)
    requires x in Trees(r, which, ds)
    ensures x.Member? && (x.owner == r || x.owner in Trees(r, which, ds))
    decreases ds
  {
    var n := |ds| - 1;
    var root := Member(r, which, Lower(ds[n].name));
    if x in Tree(root, ds[n]) {
      if x != root {
        TreeOwners(root, ds[n], x);
      }
    } else {
      TreesOwners(r, which, ds[..n], x);
    }
  }

  /** What a getter creates are the roots of the trees, and the trees are all there. */
  lemma {:induction false} MembersAreRoots(r: Ref, which: Which, ds: seq<Decl>, x: Ref) returns (d: Decl)
    requires x in MembersOf(r, which, ds)
    ensures x == Member(r, which, Lower(d.name)) && MembersOf(r, which, ds)[x] == Created(d)
    ensures Included(Tree(x, d), Trees(r, which, ds))
    decreases |ds|
  {
    hide Tree, Created, Included;
    var n := |ds| - 1;
    var key := Lower(ds[n].name);
    var last := Tree(Member(r, which, key), ds[n]);
    if x == Member(r, which, key) {
      d := ds[n];
      SecondIsIncluded(Trees(r, which, ds[..n]), last);
    } else {
      d := MembersAreRoots(r, which, ds[..n], x);
      forall y | y in Tree(x, d) ensures y !in last {
        TreeIsUnder(x, d, y);
        if y in last {
          TreeIsUnder(Member(r, which, key), ds[n], y);
          UnderOne(r, which, key, x.key, y);
        }
      }
      StaysIncluded(Tree(x, d), Trees(r, which, ds[..n]), last);
    }
  }

  lemma SecondIsIncluded(a: Heap, b: Heap)
    ensures Included(b, a + b)
  {
  }

  lemma StaysIncluded(t: Heap, e: Heap, more: Heap)
    requires Included(t, e) && forall y :: y in t ==> y !in more
    ensures Included(t, e + more)
  {
  }

  ghost predicate SameRoots(es: seq<D.Entry<Ref>>, owner: Ref, which: Which) {
    D.Sorted(es) && forall i :: 0 <= i < |es| ==> es[i].value == Member(owner, which, Lower(es[i].key))
  }

  lemma InsertRoot(es: seq<D.Entry<Ref>>, owner: Ref, which: Which, name: string)
    requires SameRoots(es, owner, which)
    ensures SameRoots(D.Insert(es, name, Member(owner, which, Lower(name))), owner, which)
    ensures D.FoldedKeys(D.Insert(es, name, Member(owner, which, Lower(name)))) == D.FoldedKeys(es) + {Lower(name)}
  {
    hide D.Sorted, D.Model, Lower;
    var r := Member(owner, which, Lower(name));
    D.InsertIsPut(es, name, r);
    D.KeysOfModel(es);
    D.KeysOfModel(D.Insert(es, name, r));
  }

  /** The dictionary holds exactly what was created for it. */
  lemma {:induction false} SectionHolds(owner: Ref, which: Which, ds: seq<Decl>)
    ensures SameRoots(SectionOf(owner, which, ds), owner, which)
    ensures forall k ::
      k in D.FoldedKeys(SectionOf(owner, which, ds)) <==> Member(owner, which, k) in MembersOf(owner, which, ds)
  {
    hide D.Insert, D.FoldedKeys, Lower, Created;
    if ds == [] {
      NothingHeld(owner, which);
    } else {
      hide SameRoots;
      var n := |ds| - 1;
      SectionHolds(owner, which, ds[..n]);
      InsertRoot(SectionOf(owner, which, ds[..n]), owner, which, ds[n].name);
    }
  }

  lemma NothingHeld(owner: Ref, which: Which)
    ensures SameRoots(SectionOf(owner, which, []), owner, which)
    ensures D.FoldedKeys(SectionOf(owner, which, [])) == {}
  {
  }

  // ---------------------------------------------------------------- a lazy heap and an eager one

  function RefsOf(m: Members): set<Ref> {
    match m
    case Folded(entries) => set i | 0 <= i < |entries| :: entries[i].value
    case Pairs(pairs) => set i | 0 <= i < |pairs| :: pairs[i].1
    case NoDictionary => {}
  }

  predicate Unbuilt(o: Obj, which: Which) {
    which in o.sections && o.sections[which].cache.Some?
  }

  /** A section of r, and what it is where everything has been built: the same, or all its cache stands for. */
  ghost predicate SectionAgrees(
      r: Ref, which: Which, s: Lazy<Members, seq<Decl>>, t: Lazy<Members, seq<Decl>>, e: Heap)
  {
    && t.cache.None?
    && match s.cache
       case None => t.member == s.member
       case Some(ds) => t.member == Folded(SectionOf(r, which, ds)) && Included(Trees(r, which, ds), e)
  }

  predicate ValueAgrees(v: Option<Lazy<PyValue, Value>>, w: Option<Lazy<PyValue, Value>>) {
    w == if v.Some? then Some(Lazy(Given(v.value), None)) else None
  }

  ghost predicate ObjAgrees(r: Ref, o: Obj, q: Obj, e: Heap) {
    && o.name == q.name && ValueAgrees(o.value, q.value) && o.sections.Keys == q.sections.Keys
    && forall which :: which in o.sections ==> SectionAgrees(r, which, o.sections[which], q.sections[which], e)
  }

  ghost predicate AllAgree(l: Heap, e: Heap) {
    forall r :: r in l ==> r in e && ObjAgrees(r, l[r], e[r], e)
  }

  /** The members of a section that has not been built do not exist. */
  ghost predicate NothingBeneath(l: Heap, r: Ref, which: Which) {
    forall x :: x in l ==> !Beneath(r, which, x)
  }

  ghost predicate UnbuiltAreEmpty(l: Heap) {
    forall r, which :: r in l && Unbuilt(l[r], which) ==> NothingBeneath(l, r, which)
  }

  ghost predicate OwnersExist(e: Heap) {
    forall x :: x in e && x.Member? ==> x.owner in e
  }

  ghost predicate NamesAgree(l: Heap, e: Heap) {
    forall n :: Named(n) in e ==> Named(n) in l
  }

  ghost predicate Held(l: Heap, o: Obj) {
    forall which, x ::
      which in o.sections && o.sections[which].cache.None? && x in RefsOf(o.sections[which].member) ==> x in l
  }

  ghost predicate RefsExist(l: Heap) {
    forall r :: r in l ==> Held(l, l[r])
  }

  ghost predicate Agrees(l: Heap, e: Heap) {
    AllAgree(l, e) && UnbuiltAreEmpty(l) && OwnersExist(e) && NamesAgree(l, e) && RefsExist(l)
  }

  /** Adding to the eager heap what is beside its unbuilt sections leaves them what they are. */
  lemma StillAgrees(r: Ref, o: Obj, q: Obj, e: Heap, e': Heap)
    requires ObjAgrees(r, o, q, e)
    requires forall which, x :: Unbuilt(o, which) && Beneath(r, which, x) && x in e ==> x in e' && e'[x] == e[x]
    ensures ObjAgrees(r, o, q, e')
  {
    hide Tree, Trees, SectionOf, ValueAgrees;
    forall which | which in o.sections ensures SectionAgrees(r, which, o.sections[which], q.sections[which], e') {
      assert SectionAgrees(r, which, o.sections[which], q.sections[which], e);
      if o.sections[which].cache.Some? {
        var ds := o.sections[which].cache.value;
        forall x | x in Trees(r, which, ds) ensures x in e' && e'[x] == Trees(r, which, ds)[x] {
          TreesAreBeneath(r, which, ds, x);
          assert Unbuilt(o, which);
        }
      }
    }
  }

  /** Writing the same to an object of both heaps. */
  lemma UpdateAgrees(l: Heap, e: Heap, y: Ref, o: Obj, q: Obj)
    requires Agrees(l, e) && y in l && ObjAgrees(y, o, q, e) && Held(l, o)
    requires forall which :: Unbuilt(o, which) ==> Unbuilt(l[y], which)
    ensures Agrees(l[y := o], e[y := q])
  {
    var l', e' := l[y := o], e[y := q];
    hide ObjAgrees, Beneath;
    forall r | r in l' ensures r in e' && ObjAgrees(r, l'[r], e'[r], e') {
      forall which, x | Unbuilt(l'[r], which) && Beneath(r, which, x) && x in e ensures x in e' && e'[x] == e[x] {
        assert NothingBeneath(l, r, which);
      }
      StillAgrees(r, l'[r], e'[r], e, e');
    }
    hide Unbuilt;
    assert l'.Keys == l.Keys;
    forall r, which | r in l' && Unbuilt(l'[r], which) ensures NothingBeneath(l', r, which) {
      assert NothingBeneath(l, r, which);
    }
    forall r | r in l' ensures Held(l', l'[r]) {
      assert r != y ==> Held(l, l[r]);
      HeldInMore(l, l', l'[r]);
    }
  }

  lemma HeldInMore(l: Heap, l': Heap, o: Obj)
    requires Held(l, o) && l.Keys <= l'.Keys
    ensures Held(l', o)
  {
  }

  lemma {:induction false} RootExists(e: Heap, n: nat, x: Ref)
    requires OwnersExist(e) && x in e && Under(Named(n), x)
    ensures Named(n) in e
  {
    if x != Named(n) {
      RootExists(e, n, x.owner);
    }
  }

  /** Adding an object under a new name, with whatever create() has built for it. */
  lemma AddAgrees(l: Heap, e: Heap, n: nat, o: Obj, t: Heap)
    requires Agrees(l, e) && Named(n) !in l && Named(n) in t && Held(l, o)
    requires forall x :: x in t ==> Under(Named(n), x) && (x.Member? ==> x.owner in t)
    requires ObjAgrees(Named(n), o, t[Named(n)], e + t)
    ensures Agrees(l[Named(n) := o], e + t)
  {
    var y, l', e' := Named(n), l[Named(n) := o], e + t;
    hide ObjAgrees;
    forall x | x in e ensures !Under(y, x) && x !in t && e'[x] == e[x] {
      if Under(y, x) {
        RootExists(e, n, x);
      }
    }
    forall r | r in l' ensures r in e' && ObjAgrees(r, l'[r], e'[r], e') {
      if r != y {
        StillAgrees(r, l[r], e[r], e, e');
      }
    }
    forall r, which | r in l' && Unbuilt(l'[r], which) ensures NothingBeneath(l', r, which) {
      if r != y {
        assert NothingBeneath(l, r, which);
      } else {
        forall x | x in l' ensures !Beneath(y, which, x) {
          if Beneath(y, which, x) {
            BeneathIsUnder(y, which, x);
          }
        }
      }
    }
    forall r | r in l' ensures Held(l', l'[r]) {
      assert r != y ==> Held(l, l[r]);
      HeldInMore(l, l', l'[r]);
    }
  }

  // ---------------------------------------------------------------- getters

  lemma RootIncluded(x: Ref, d: Decl, e: Heap)
    requires Included(Tree(x, d), e)
    ensures x in e && e[x] == Whole(x, d)
  {
    TreeHolds(x, d);
    hide Tree, Whole;
  }

  /** A new object agrees with the root of its tree. */
  lemma CreatedAgrees(x: Ref, d: Decl, e: Heap)
    requires Included(Tree(x, d), e)
    ensures x in e && ObjAgrees(x, Created(d), e[x], e)
    ensures forall l :: Held(l, Created(d))
  {
    TreeHolds(x, d);
    hide Tree, Trees, SectionOf, ValueOf, SectionsOf, Included;
    RootIncluded(x, d, e);
    forall which | which in SectionsOf(d)
      ensures SectionAgrees(x, which, Created(d).sections[which], Whole(x, d).sections[which], e)
    {
      IncludedTwice(Trees(x, which, SectionsOf(d)[which]), Tree(x, d), e);
    }
  }

  /** What a getter adds is in the eager heap already. */
  lemma MembersAgree(l: Heap, e: Heap, r: Ref, which: Which, ds: seq<Decl>, x: Ref)
    requires Included(Trees(r, which, ds), e) && x in MembersOf(r, which, ds)
    ensures x in e && ObjAgrees(x, MembersOf(r, which, ds)[x], e[x], e) && Held(l, MembersOf(r, which, ds)[x])
    ensures Beneath(r, which, x) && x.Member? && x.owner == r
  {
    hide ObjAgrees, Trees, Tree, MembersOf, Created;
    var d := MembersAreRoots(r, which, ds, x);
    IncludedTwice(Tree(x, d), Trees(r, which, ds), e);
    CreatedAgrees(x, d, e);
  }

  /** The section just built. */
  lemma BuiltAgrees(l: Heap, e: Heap, r: Ref, which: Which)
    requires r in l && which in l[r].sections && r in e && ObjAgrees(r, l[r], e[r], e) && Held(l, l[r])
    ensures var h := Get(l, r, which);
            && ObjAgrees(r, h[r], e[r], e) && Held(h, h[r]) && h[r].sections.Keys == l[r].sections.Keys
            && h[r].sections[which].member == e[r].sections[which].member && Get(e, r, which) == e
            && forall w :: Unbuilt(h[r], w) ==> Unbuilt(l[r], w) && w != which
  {
    hide Trees, SectionOf, MembersOf, ValueAgrees;
    assert SectionAgrees(r, which, l[r].sections[which], e[r].sections[which], e);
    if l[r].sections[which].cache.Some? {
      var ds := l[r].sections[which].cache.value;
      SectionHolds(r, which, ds);
      RefsAreCreated(SectionOf(r, which, ds), r, which, MembersOf(r, which, ds));
      assert forall w :: w in l[r].sections ==> SectionAgrees(r, w, l[r].sections[w], e[r].sections[w], e);
    }
  }

  lemma RefsAreCreated(es: seq<D.Entry<Ref>>, r: Ref, which: Which, t: Heap)
    requires SameRoots(es, r, which) && forall k :: k in D.FoldedKeys(es) ==> Member(r, which, k) in t
    ensures forall x :: x in RefsOf(Folded(es)) ==> x in t
  {
  }

  lemma GetAgrees(l: Heap, e: Heap, r: Ref, which: Which)
    requires Agrees(l, e) && r in l && which in l[r].sections
    ensures which in e[r].sections && Get(e, r, which) == e && Agrees(Get(l, r, which), e)
    ensures Get(l, r, which)[r].sections[which].member == e[r].sections[which].member
    ensures Get(l, r, which)[r].sections.Keys == l[r].sections.Keys
  {
    assert ObjAgrees(r, l[r], e[r], e) && Held(l, l[r]);
    BuiltAgrees(l, e, r, which);
    if l[r].sections[which].cache.Some? {
      BuildAgrees(l, e, r, which, l[r].sections[which].cache.value);
    }
  }

  lemma BuildAgrees(l: Heap, e: Heap, r: Ref, which: Which, ds: seq<Decl>)
    requires Agrees(l, e) && r in l && which in l[r].sections && l[r].sections[which].cache == Some(ds)
    requires Included(Trees(r, which, ds), e)
    requires var h := Get(l, r, which);
             && ObjAgrees(r, h[r], e[r], e) && Held(h, h[r])
             && forall w :: Unbuilt(h[r], w) ==> Unbuilt(l[r], w) && w != which
    ensures Agrees(Get(l, r, which), e)
  {
    var h, t := Get(l, r, which), MembersOf(r, which, ds);
    hide ObjAgrees, MembersOf, Get, Trees, Included, Held, Beneath, Unbuilt, Adds, NothingBeneath;
    GetAdds(l, r, which, ds);
    assert NothingBeneath(l, r, which) by {
      EmptyBefore(l, r, which);
    }
    forall x | x in t
      ensures Beneath(r, which, x) && x.owner == r && Held(h, t[x]) && x in e && ObjAgrees(x, t[x], e[x], e)
    {
      MembersAgree(h, e, r, which, ds, x);
    }
    AgreeStill(l, h, t, r, which, e);
    HeldStill(l, h, t, r);
    EmptyStill(l, h, t, r, which);
  }

  lemma EmptyBefore(l: Heap, r: Ref, which: Which)
    requires UnbuiltAreEmpty(l) && r in l && which in l[r].sections && l[r].sections[which].cache.Some?
    ensures NothingBeneath(l, r, which)
  {
    assert Unbuilt(l[r], which);
  }

  /** r has been changed and t added. */
  ghost predicate Adds(l: Heap, h: Heap, t: Heap, r: Ref) {
    && r in l && h.Keys == l.Keys + t.Keys
    && (forall x :: x in t && x != r ==> h[x] == t[x])
    && (forall x :: x in l && x !in t && x != r ==> h[x] == l[x])
  }

  lemma GetAdds(l: Heap, r: Ref, which: Which, ds: seq<Decl>)
    requires r in l && which in l[r].sections && l[r].sections[which].cache == Some(ds)
    ensures Adds(l, Get(l, r, which), MembersOf(r, which, ds), r)
  {
    hide MembersOf, SectionOf;
  }

  lemma AgreeStill(l: Heap, h: Heap, t: Heap, r: Ref, which: Which, e: Heap)
    requires AllAgree(l, e) && Adds(l, h, t, r) && r in e && ObjAgrees(r, h[r], e[r], e)
    requires forall x :: x in t ==> x in e && ObjAgrees(x, t[x], e[x], e)
    ensures AllAgree(h, e)
  {
    hide ObjAgrees;
  }

  lemma HeldStill(l: Heap, h: Heap, t: Heap, r: Ref)
    requires RefsExist(l) && Adds(l, h, t, r) && Held(h, h[r])
    requires forall x :: x in t ==> Held(h, t[x])
    ensures RefsExist(h)
  {
    hide Held;
    forall x | x in h ensures Held(h, h[x]) {
      if x !in t && x != r {
        assert Held(l, l[x]);
        HeldInMore(l, h, l[x]);
      }
    }
  }

  lemma EmptyStill(l: Heap, h: Heap, t: Heap, r: Ref, which: Which)
    requires UnbuiltAreEmpty(l) && Adds(l, h, t, r) && NothingBeneath(l, r, which)
    requires forall y :: y in t ==> Beneath(r, which, y) && y.owner == r
    requires forall w :: Unbuilt(h[r], w) ==> Unbuilt(l[r], w) && w != which
    ensures UnbuiltAreEmpty(h)
  {
    hide Beneath, Unbuilt, NothingBeneath;
    forall x, w | x in h && Unbuilt(h[x], w) ensures NothingBeneath(h, x, w) {
      NotInBoth(l, t, r, which, x);
      StillEmpty(l, h, t, r, which, x, w);
    }
  }

  lemma NotInBoth(l: Heap, t: Heap, r: Ref, which: Which, x: Ref)
    requires NothingBeneath(l, r, which) && forall y :: y in t ==> Beneath(r, which, y)
    ensures !(x in l && x in t)
  {
  }

  /** Building one section does not put anything beneath another that has not been built. */
  lemma StillEmpty(l: Heap, h: Heap, t: Heap, r: Ref, which: Which, x: Ref, w: Which)
    requires UnbuiltAreEmpty(l) && r in l && NothingBeneath(l, r, which) && h.Keys == l.Keys + t.Keys
    requires forall y :: y in t ==> Beneath(r, which, y) && y.owner == r
    requires x in h && (x in l ==> Unbuilt(l[x], w)) && (x == r ==> w != which)
    ensures NothingBeneath(h, x, w)
  {
    if x in l {
      assert NothingBeneath(l, x, w);
      forall y | y in t ensures !Beneath(x, w, y) {
        if Beneath(x, w, y) {
          BeneathRoot(x, w, r, which, y);
        }
      }
    } else {
      forall y | y in h ensures !Beneath(x, w, y) {
        if Beneath(x, w, y) {
          BeneathBeneath(r, which, x, w, y);
          BeneathIsUnder(x, w, y);
          BeneathIsUnder(r, which, x);
        }
      }
    }
  }

  /** What was created for a section of r is beneath that section, or where r is. */
  lemma BeneathRoot(x: Ref, w: Which, r: Ref, which: Which, y: Ref)
    requires Beneath(x, w, y) && y.Member? && y.owner == r && Beneath(r, which, y)
    ensures (x == r && w == which) || Beneath(x, w, r)
  {
    if x == r {
      BeneathOne(r, w, which, y);
    }
  }

  lemma {:induction false} FollowAgrees(l: Heap, e: Heap, r: Ref, path: seq<(Which, string)>)
    requires Agrees(l, e) && (r in e ==> r in l)
    ensures var (h, x) := Follow(l, r, path); Agrees(h, e) && Follow(e, r, path) == (e, x)
    decreases |path|
  {
    hide ObjAgrees, UnbuiltAreEmpty, OwnersExist, NamesAgree, Get, MemberAt, Held;
    if r in l && path != [] {
      var (which, key) := path[0];
      SectionsAgree(l, e, r);
      if which in l[r].sections {
        GetAgrees(l, e, r, which);
        var h := Get(l, r, which);
        var m := h[r].sections[which].member;
        var next := MemberAt(m, key);
        if next.Some? {
          MemberIsHeld(h, r, which, key);
          FollowAgrees(h, e, next.value, path[1..]);
        }
      }
    }
  }

  lemma SectionsAgree(l: Heap, e: Heap, r: Ref)
    requires Agrees(l, e) && r in l
    ensures r in e && e[r].sections.Keys == l[r].sections.Keys && e[r].name == l[r].name
    ensures ValueAgrees(l[r].value, e[r].value) && Held(l, l[r]) && ObjAgrees(r, l[r], e[r], e)
  {
  }

  lemma MemberIsHeld(h: Heap, r: Ref, which: Which, key: string)
    requires RefsExist(h) && r in h && which in h[r].sections && h[r].sections[which].cache.None?
    requires MemberAt(h[r].sections[which].member, key).Some?
    ensures MemberAt(h[r].sections[which].member, key).value in h
  {
    var m := h[r].sections[which].member;
    assert Held(h, h[r]);
    match m
    case Folded(entries) =>
    case Pairs(pairs) => PairIsHeld(pairs, key);
    case NoDictionary =>
  }

  lemma {:induction false} PairIsHeld(pairs: seq<(string, Ref)>, key: string)
    requires FindPair(pairs, key).Some?
    ensures FindPair(pairs, key).value in RefsOf(Pairs(pairs))
  {
    if pairs[0].0 != key {
      PairIsHeld(pairs[1..], key);
      assert forall i :: 0 <= i < |pairs| - 1 ==> pairs[1..][i] == pairs[i + 1];
    } else {
      assert pairs[0].1 in RefsOf(Pairs(pairs));
    }
  }

  lemma LocateAgrees(l: Heap, e: Heap, p: Place)
    requires Agrees(l, e)
    ensures var (h, x) := Locate(l, p); Agrees(h, e) && Locate(e, p) == (e, x)
  {
    assert Named(p.root) in e ==> Named(p.root) in l;
    hide Agrees, Follow;
    FollowAgrees(l, e, Named(p.root), p.path);
  }

  // ---------------------------------------------------------------- operations on both heaps

  lemma ListAgrees(l: Heap, e: Heap, r: Ref, which: Which)
    requires Agrees(l, e) && r in l
    ensures var (h, reply) := ListAt(l, r, which); r in e && Agrees(h, e) && ListAt(e, r, which) == (e, reply)
  {
    hide Agrees, ObjAgrees, Get, KeysOf, ValueAgrees, Held;
    SectionsAgree(l, e, r);
    if which in l[r].sections {
      GetAgrees(l, e, r, which);
    }
  }

  lemma StoreAgrees(l: Heap, e: Heap, r: Ref, which: Which, key: string, item: Ref)
    requires Agrees(l, e) && r in l && item in l
    ensures var (h, reply) := StoreAt(l, r, which, key, item);
            var (h', reply') := StoreAt(e, r, which, key, item);
            r in e && Agrees(h, h') && reply' == reply
  {
    hide Agrees, ObjAgrees, Get, Put, ValueAgrees, Held, RefsOf;
    SectionsAgree(l, e, r);
    if which in l[r].sections {
      GetAgrees(l, e, r, which);
      var h := Get(l, r, which);
      SectionsAgree(h, e, r);
      var (m, reply) := Put(h[r].sections[which].member, key, item);
      PutHolds(h, r, which, key, item);
      SameSection(h, e, r, which, m);
      UpdateAgrees(h, e, r, WithSection(h[r], which, m), WithSection(e[r], which, m));
    }
  }

  lemma PutHolds(h: Heap, r: Ref, which: Which, key: string, item: Ref)
    requires r in h && which in h[r].sections && h[r].sections[which].cache.None? && Held(h, h[r]) && item in h
    ensures forall x :: x in RefsOf(Put(h[r].sections[which].member, key, item).0) ==> x in h
  {
    var m := h[r].sections[which].member;
    assert forall x :: x in RefsOf(m) ==> x in h;
    match m
    case Folded(entries) => InsertHolds(entries, key, item);
    case Pairs(pairs) => PutPairHolds(pairs, key, item);
    case NoDictionary =>
  }

  lemma {:induction false} PutPairHolds(pairs: seq<(string, Ref)>, key: string, item: Ref)
    ensures RefsOf(Pairs(PutPair(pairs, key, item))) <= RefsOf(Pairs(pairs)) + {item}
  {
    var r := PutPair(pairs, key, item);
    forall i | 0 <= i < |r| ensures r[i].1 in RefsOf(Pairs(pairs)) + {item} {
      if i < |pairs| {
        assert pairs[i].1 in RefsOf(Pairs(pairs));
      }
      PairIsOldOrNew(pairs, key, item, i);
    }
  }

  lemma {:induction false} PairIsOldOrNew(pairs: seq<(string, Ref)>, key: string, item: Ref, i: nat)
    requires i < |PutPair(pairs, key, item)|
    ensures PutPair(pairs, key, item)[i].1 == item || (i < |pairs| && PutPair(pairs, key, item)[i] == pairs[i])
  {
    if pairs != [] && i > 0 {
      if pairs[0].0 != key {
        PairIsOldOrNew(pairs[1..], key, item, i - 1);
      }
    }
  }

  lemma InsertHolds(es: seq<D.Entry<Ref>>, key: string, item: Ref)
    ensures RefsOf(Folded(D.Insert(es, key, item))) <= RefsOf(Folded(es)) + {item}
  {
    hide Lower, D.IndexOf, D.LowerBound;
  }

  /** The same dictionary, given to both. */
  lemma SameSection(l: Heap, e: Heap, r: Ref, which: Which, m: Members)
    requires r in l && r in e && ObjAgrees(r, l[r], e[r], e) && Held(l, l[r]) && which in l[r].sections
    requires forall x :: x in RefsOf(m) ==> x in l
    ensures ObjAgrees(r, WithSection(l[r], which, m), WithSection(e[r], which, m), e)
    ensures Held(l, WithSection(l[r], which, m))
    ensures forall w :: Unbuilt(WithSection(l[r], which, m), w) ==> Unbuilt(l[r], w)
  {
    hide Trees, SectionOf, ValueAgrees, RefsOf;
    assert forall w :: w in l[r].sections ==> SectionAgrees(r, w, l[r].sections[w], e[r].sections[w], e);
  }

  lemma OnObjectAgrees(l: Heap, e: Heap, r: Ref, op: Op)
    requires Agrees(l, e) && r in l && OnOneObject(op)
    ensures r in e && OnObject(e[r], op).1 == OnObject(l[r], op).1
    ensures Agrees(l[r := OnObject(l[r], op).0], e[r := OnObject(e[r], op).0])
  {
    hide Agrees;
    SectionsAgree(l, e, r);
    var o, q := OnObject(l[r], op).0, OnObject(e[r], op).0;
    if op.ReplaceSection? && op.which in l[r].sections {
      var m := if op.o.NewDict? then Pairs([]) else Folded([]);
      hide ObjAgrees, Held;
      SameSection(l, e, r, op.which, m);
    } else {
      SameSections(l, e, r, o, q);
    }
    hide OnObject, ObjAgrees, Held, Unbuilt;
    UpdateAgrees(l, e, r, o, q);
  }

  /** A change of name or value only. */
  lemma SameSections(l: Heap, e: Heap, r: Ref, o: Obj, q: Obj)
    requires r in l && r in e && ObjAgrees(r, l[r], e[r], e) && Held(l, l[r])
    requires o.sections == l[r].sections && q.sections == e[r].sections && o.name == q.name
    requires ValueAgrees(o.value, q.value)
    ensures ObjAgrees(r, o, q, e) && Held(l, o) && forall w :: Unbuilt(o, w) ==> Unbuilt(l[r], w)
  {
  }

  predicate AllBuilt(o: Obj, ws: seq<Which>) {
    forall which :: which in ws && which in o.sections ==>
      o.sections[which].cache.None? && o.sections[which].member.Folded?
  }

  lemma {:induction false} GetAllAgrees(l: Heap, e: Heap, r: Ref, ws: seq<Which>, done: seq<Which>)
    requires Agrees(l, e) && r in l && AllBuilt(l[r], done)
    ensures var (h, folded) := GetAll(l, r, ws);
            && r in e && Agrees(h, e) && GetAll(e, r, ws) == (e, folded) && (folded ==> AllBuilt(h[r], done + ws))
            && h[r].value == l[r].value && h[r].sections.Keys == l[r].sections.Keys
            && (forall n :: Named(n) in h ==> Named(n) in l)
    decreases |ws|
  {
    hide Agrees, ObjAgrees, ValueAgrees, Held, Get;
    SectionsAgree(l, e, r);
    if ws == [] {
      assert done + ws == done;
    } else {
      var rest := ws[1..];
      assert done + ws == done + [ws[0]] + rest;
      if ws[0] !in l[r].sections {
        GetAllAgrees(l, e, r, rest, done + [ws[0]]);
      } else {
        GetAgrees(l, e, r, ws[0]);
        GetKeeps(l, r, ws[0]);
        var h := Get(l, r, ws[0]);
        if h[r].sections[ws[0]].member.Folded? {
          GetAllAgrees(h, e, r, rest, done + [ws[0]]);
        }
      }
    }
  }

  lemma GetKeeps(l: Heap, r: Ref, which: Which)
    requires r in l && which in l[r].sections
    ensures var h := Get(l, r, which);
            && h[r].value == l[r].value && h[r].sections.Keys == l[r].sections.Keys
            && (forall w :: w in l[r].sections && w != which ==> h[r].sections[w] == l[r].sections[w])
            && (l[r].sections[which].cache.None? ==> h == l)
            && (forall n :: Named(n) in h ==> Named(n) in l)
  {
    hide SectionOf;
    if l[r].sections[which].cache.Some? {
      var ds := l[r].sections[which].cache.value;
      forall x | x in MembersOf(r, which, ds) ensures x.Member? {
        var d := MembersAreRoots(r, which, ds, x);
      }
      hide MembersOf;
    }
  }

  predicate LosesAt(o: Obj) {
    o.value.Some? && Given(o.value.value) != o.value.value.member
  }

  /** The copies of an object agree exactly if its value is not lost. */
  lemma CopyAgrees(l: Heap, e: Heap, r: Ref, n: nat)
    requires Agrees(l, e) && r in l && Named(n) !in l && AllBuilt(l[r], ORDER)
    ensures r in e
    ensures Agrees(l[Named(n) := CopyOf(l[r])], e[Named(n) := CopyOf(e[r])]) <==> !LosesAt(l[r])
  {
    SectionsAgree(l, e, r);
    var y, o, q := Named(n), CopyOf(l[r]), CopyOf(e[r]);
    var e' := e + map[y := q];
    assert e' == e[y := q];
    hide Agrees;
    CopiedSections(l, e, r, y, e');
    if LosesAt(l[r]) {
      hide ObjAgrees;
      if Agrees(l[y := o], e') {
        SectionsAgree(l[y := o], e', y);
      }
    } else {
      hide ObjAgrees, Held, CopyOf;
      AddAgrees(l, e, n, o, map[y := q]);
    }
  }

  lemma CopiedSections(l: Heap, e: Heap, r: Ref, y: Ref, e': Heap)
    requires r in l && r in e && ObjAgrees(r, l[r], e[r], e) && Held(l, l[r]) && AllBuilt(l[r], ORDER)
    ensures ObjAgrees(y, CopyOf(l[r]), CopyOf(e[r]), e') <==> !LosesAt(l[r])
    ensures Held(l, CopyOf(l[r]))
    ensures CopyOf(e[r]).value == (if e[r].value.Some? then Some(Lazy(e[r].value.value.member, None)) else None)
  {
    hide Trees, SectionOf, RefsOf;
    forall which | which in l[r].sections
      ensures l[r].sections[which].cache.None? && SectionAgrees(r, which, l[r].sections[which], e[r].sections[which], e)
    {
      InOrder(which);
    }
  }

  lemma InOrder(which: Which)
    ensures which in ORDER
  {
    assert ORDER[0] == Properties && ORDER[1] == Parameters && ORDER[2] == Qualifiers && ORDER[3] == Methods;
  }

  lemma CreateAgrees(l: Heap, e: Heap, n: nat, d: Decl)
    requires Agrees(l, e) && Named(n) !in l
    ensures Agrees(l + JustCreated(Named(n), d), e + Tree(Named(n), d))
  {
    var y, t := Named(n), Tree(Named(n), d);
    hide Agrees, Tree, Created, Whole, ObjAgrees, Held, Under, Included;
    TreeHolds(y, d);
    TreeIsClosed(y, d);
    SecondIsIncluded(e, t);
    CreatedAgrees(y, d, e + t);
    assert (e + t)[y] == t[y];
    assert l + JustCreated(y, d) == l[y := Created(d)];
    AddAgrees(l, e, n, Created(d), t);
  }

  lemma TreeIsClosed(y: Ref, d: Decl)
    requires y.Named?
    ensures forall x :: x in Tree(y, d) ==> Under(y, x) && (x.Member? ==> x.owner in Tree(y, d))
  {
    hide Tree, Under;
    forall x | x in Tree(y, d) ensures Under(y, x) && (x.Member? ==> x.owner in Tree(y, d)) {
      TreeIsUnder(y, d, x);
      if x != y {
        TreeOwners(y, d, x);
      }
    }
  }

  // ---------------------------------------------------------------- histories

  /** The operation copies an object whose value is still in its cache and is not what m_value holds. */
  predicate LosesValue(l: Heap, op: Op) {
    && op.Copy?
    && var (h, r) := Locate(l, op.p);
       r.Some? && Named(op.n) !in h && GetAll(h, r.value, ORDER).1 && LosesAt(h[r.value])
  }

  /** One operation: the answers are the same, and the heaps agree afterwards exactly if it was no such copy. */
  lemma StepIsEager(l: Heap, e: Heap, op: Op)
    requires Agrees(l, e)
    ensures Step(l, op, JustCreated).1 == Step(e, op, Tree).1
    ensures Agrees(Step(l, op, JustCreated).0, Step(e, op, Tree).0) <==> !LosesValue(l, op)
  {
    if op.Create? {
      NameIsThere(l, e, op.n);
      hide Agrees, Tree, JustCreated;
      if Named(op.n) !in l {
        CreateAgrees(l, e, op.n, op.d);
      }
    } else if op.Store? {
      StoreIsEager(l, e, op);
      hide Agrees, Locate, StoreAt;
    } else {
      hide Agrees, Locate;
      LocateAgrees(l, e, op.p);
      var (h, r) := Locate(l, op.p);
      if r.Some? {
        ActIsEager(h, e, r.value, op);
      }
    }
  }

  lemma StoreIsEager(l: Heap, e: Heap, op: Op)
    requires Agrees(l, e) && op.Store?
    ensures Step(l, op, JustCreated).1 == Step(e, op, Tree).1
    ensures Agrees(Step(l, op, JustCreated).0, Step(e, op, Tree).0)
  {
    hide Agrees, Locate, StoreAt;
    LocateAgrees(l, e, op.item);
    var (h, item) := Locate(l, op.item);
    if item.Some? {
      LocateAgrees(h, e, op.p);
      var (h', r) := Locate(h, op.p);
      if r.Some? {
        StoreAgrees(h', e, r.value, op.which, op.key, item.value);
      }
    }
  }

  lemma NameIsThere(l: Heap, e: Heap, n: nat)
    requires Agrees(l, e)
    ensures Named(n) in l <==> Named(n) in e
  {
  }

  lemma ActIsEager(l: Heap, e: Heap, r: Ref, op: Op)
    requires Agrees(l, e) && r in l && !op.Create? && !op.Store?
    ensures r in e && ActAt(l, r, op).1 == ActAt(e, r, op).1
    ensures Agrees(ActAt(l, r, op).0, ActAt(e, r, op).0)
        <==> !(op.Copy? && Named(op.n) !in l && GetAll(l, r, ORDER).1 && LosesAt(l[r]))
  {
    hide Agrees, ListAt, OnObject, GetAll, CopyOf, LosesAt;
    if op.ListKeys? {
      ListAgrees(l, e, r, op.which);
    } else if op.Copy? {
      NameIsThere(l, e, op.n);
      GetAllAgrees(l, e, r, ORDER, []);
      assert [] + ORDER == ORDER;
      var (h, folded) := GetAll(l, r, ORDER);
      if Named(op.n) !in l && folded {
        CopyAgrees(h, e, r, op.n);
        SameValue(l[r], h[r]);
      }
    } else {
      OnObjectAgrees(l, e, r, op);
    }
  }

  lemma SameValue(o: Obj, q: Obj)
    requires o.value == q.value
    ensures LosesAt(o) <==> LosesAt(q)
  {
  }

  /** The main result: whatever is created, read, written, stored, listed, shared and copied, by whatever paths: until a
      property is copied whose value has not been read, the answers are those of a heap where create() builds every
      section and converts every value at once. */
  lemma {:induction false} RunIsEager(ops: seq<Op>)
    requires forall i :: 0 <= i < |ops| ==> !LosesValue(Run(ops[..i], JustCreated).0, ops[i])
    ensures Run(ops, JustCreated).1 == Run(ops, Tree).1
    ensures Agrees(Run(ops, JustCreated).0, Run(ops, Tree).0)
  {
    hide Step, LosesValue, Agrees;
    if ops == [] {
      NothingAgrees();
    } else {
      var n := |ops| - 1;
      var init := ops[..n];
      forall i | 0 <= i < |init| ensures !LosesValue(Run(init[..i], JustCreated).0, init[i]) {
        assert init[..i] == ops[..i];
      }
      RunIsEager(init);
      StepIsEager(Run(init, JustCreated).0, Run(init, Tree).0, ops[n]);
    }
  }

  lemma NothingAgrees()
    ensures Agrees(map[], map[])
  {
  }

  // ---------------------------------------------------------------- the failing case

  /** With distinct names, each member is made of its own declaration. */
  lemma {:induction false} MemberIsCreated(r: Ref, which: Which, ds: seq<Decl>, i: nat)
    requires DistinctNames(ds) && i < |ds|
    ensures var x := Member(r, which, Lower(ds[i].name));
            x in MembersOf(r, which, ds) && MembersOf(r, which, ds)[x] == Created(ds[i])
    decreases |ds|
  {
    hide Lower, Created;
    var n := |ds| - 1;
    if i < n {
      MemberIsCreated(r, which, ds[..n], i);
    }
  }

  lemma MemberIsFound(r: Ref, which: Which, ds: seq<Decl>, i: nat)
    requires DistinctNames(ds) && i < |ds|
    ensures MemberAt(Folded(SectionOf(r, which, ds)), ds[i].name) == Some(Member(r, which, Lower(ds[i].name)))
  {
    hide SectionOf, Lower, D.FoldedKeys, MembersOf, Created;
    SectionHolds(r, which, ds);
    MemberIsCreated(r, which, ds, i);
  }

  /** The heap after a class was created and its properties asked for, and one of them in it. */
  lemma PropertyIsFound(n: nat, d: Decl, i: nat) returns (h: Heap)
    requires d.Class? && DistinctNames(d.properties) && i < |d.properties| && d.properties[i].Property?
    ensures var l := JustCreated(Named(n), d);
            var p := Place(n, [(Properties, d.properties[i].name)]);
            var x := Member(Named(n), Properties, Lower(d.properties[i].name));
            && Locate(l, p) == (h, Some(x)) && x in h && h[x] == Created(d.properties[i])
            && Named(n) in h && Properties in h[Named(n)].sections
            && h[Named(n)].sections[Properties] == Lazy(Folded(SectionOf(Named(n), Properties, d.properties)), None)
            && forall m :: Named(m) in h ==> m == n
  {
    var l, r := JustCreated(Named(n), d), Named(n);
    var name := d.properties[i].name;
    var x := Member(r, Properties, Lower(name));
    assert l[r].sections[Properties].cache == Some(d.properties);
    hide SectionOf, MembersOf, Lower, MemberAt, DistinctNames;
    h := Get(l, r, Properties);
    MemberIsCreated(r, Properties, d.properties, i);
    MemberIsFound(r, Properties, d.properties, i);
    GetKeeps(l, r, Properties);
    assert [(Properties, name)][1..] == [];
    assert Follow(h, x, []) == (h, Some(x));
  }

  predicate CanCopy(o: Obj) {
    forall which :: which in o.sections ==> o.sections[which].cache.Some? || o.sections[which].member.Folded?
  }

  lemma {:induction false} CopyWorks(l: Heap, r: Ref, ws: seq<Which>)
    requires r in l && CanCopy(l[r])
    ensures var (h, folded) := GetAll(l, r, ws);
            && folded && h[r].value == l[r].value && (forall n :: Named(n) in h ==> Named(n) in l)
    ensures forall x :: x in l && !(x.Member? && Under(r, x)) && x != r ==> GetAll(l, r, ws).0[x] == l[x]
    decreases |ws|
  {
    hide Under;
    if ws != [] {
      if ws[0] !in l[r].sections {
        CopyWorks(l, r, ws[1..]);
      } else {
        GetKeeps(l, r, ws[0]);
        GetLeaves(l, r, ws[0]);
        CopyWorks(Get(l, r, ws[0]), r, ws[1..]);
      }
    }
  }

  lemma GetLeaves(l: Heap, r: Ref, which: Which)
    requires r in l && which in l[r].sections
    ensures forall x :: x in l && !(x.Member? && Under(r, x)) && x != r ==> Get(l, r, which)[x] == l[x]
    ensures CanCopy(l[r]) ==> CanCopy(Get(l, r, which)[r])
  {
    hide SectionOf;
    if l[r].sections[which].cache.Some? {
      var ds := l[r].sections[which].cache.value;
      forall x | x in MembersOf(r, which, ds) ensures Under(r, x) && x.Member? {
        var d := MembersAreRoots(r, which, ds, x);
      }
      hide MembersOf;
    }
  }

  /** A property taken out of a class fresh from the server and copied at once has no value, while the property in the
      class has. */
  lemma MemberCopyLosesValue(n: nat, m: nat, d: Decl, i: nat)
    requires n != m
    requires d.Class? && DistinctNames(d.properties) && i < |d.properties| && d.properties[i].Property?
    ensures var p := Place(n, [(Properties, d.properties[i].name)]);
            var v := ValueOf(d.properties[i].value);
            var l := Step(map[], Create(n, d), JustCreated).0;
            var copied := Step(l, Copy(m, p), JustCreated).0;
            && Step(copied, ReadValue(Place(m, [])), JustCreated).1 == Val(NoValue)
            && Step(copied, ReadValue(p), JustCreated).1 == Val(v)
            && (LosesValue(l, Copy(m, p)) <==> v != NoValue)
  {
    hide DistinctNames, Lower, ValueOf, SectionOf, MemberAt, Locate, GetAll, CopyOf, LosesAt, CanCopy;
    var r, name := Named(n), d.properties[i].name;
    var x := Member(r, Properties, Lower(name));
    var p := Place(n, [(Properties, name)]);
    var l := JustCreated(r, d);
    assert Step(map[], Create(n, d), JustCreated).0 == l by {
      assert map[] + l == l;
    }
    var h := PropertyIsFound(n, d, i);
    NewCanBeCopied(d.properties[i]);
    CopyWorks(h, x, ORDER);
    var h' := GetAll(h, x, ORDER).0;
    var copied := h'[Named(m) := CopyOf(h'[x])];
    assert Step(l, Copy(m, p), JustCreated).0 == copied;
    NotUnderMember(r, x);
    assert copied[r] == h[r];
    MemberIsFound(r, Properties, d.properties, i);
    FoundAgain(copied, r, Properties, name, x);
    CopiedValue(copied, h'[x], d.properties[i], m);
    SameValue(h[x], h'[x]);
    assert copied[x].value == h[x].value;
  }

  lemma NewCanBeCopied(d: Decl)
    ensures CanCopy(Created(d))
  {
  }

  /** A built section is only read. */
  lemma FoundAgain(l: Heap, r: Ref, which: Which, name: string, x: Ref)
    requires r in l && r.Named? && which in l[r].sections && l[r].sections[which].cache.None? && x in l
    requires MemberAt(l[r].sections[which].member, name) == Some(x)
    ensures Locate(l, Place(r.n, [(which, name)])) == (l, Some(x))
  {
    hide MemberAt;
    assert [(which, name)][1..] == [];
    assert Follow(l, x, []) == (l, Some(x));
  }

  lemma CopiedValue(copied: Heap, o: Obj, d: Decl, m: nat)
    requires d.Property? && o.value == Created(d).value && Named(m) in copied && copied[Named(m)] == CopyOf(o)
    ensures Step(copied, ReadValue(Place(m, [])), JustCreated).1 == Val(NoValue)
    ensures LosesAt(o) <==> ValueOf(d.value) != NoValue
  {
    hide ValueOf;
  }

  lemma NotUnderMember(r: Ref, x: Ref)
    requires r.Named? && x.Member?
    ensures !Under(x, r)
  {
  }

  // ---------------------------------------------------------------- the eager heap keeps nothing for later

  predicate Forced(o: Obj) {
    && (o.value.Some? ==> o.value.value.cache.None?)
    && forall which :: which in o.sections ==> o.sections[which].cache.None?
  }

  ghost predicate AllForced(e: Heap) {
    forall r :: r in e ==> Forced(e[r])
  }

  lemma RootForced(r: Ref, d: Decl)
    ensures AllForced(map[r := Whole(r, d)])
  {
    hide SectionOf, ValueOf;
  }

  lemma JoinForced(a: Heap, b: Heap)
    requires AllForced(a) && AllForced(b)
    ensures AllForced(a + b)
  {
    hide Forced;
  }

  lemma {:induction false} TreeIsForced(r: Ref, d: Decl)
    ensures AllForced(Tree(r, d))
    decreases d
  {
    hide AllForced, Trees, Whole;
    var root := map[r := Whole(r, d)];
    RootForced(r, d);
    match d
    case Qualifier(_, _, _, _) => assert Tree(r, d) == root;
    case Property(_, _, _, _, _, _, qs) =>
      TreesAreForced(r, Qualifiers, qs);
      JoinForced(root, Trees(r, Qualifiers, qs));
    case Parameter(_, _, _, _, _, qs) =>
      TreesAreForced(r, Qualifiers, qs);
      JoinForced(root, Trees(r, Qualifiers, qs));
    case Method(_, _, _, _, ps, qs) =>
      TreesAreForced(r, Parameters, ps);
      TreesAreForced(r, Qualifiers, qs);
      JoinForced(Trees(r, Parameters, ps), Trees(r, Qualifiers, qs));
      JoinForced(root, Trees(r, Parameters, ps) + Trees(r, Qualifiers, qs));
    case Class(_, _, ps, qs, ms) =>
      TreesAreForced(r, Properties, ps);
      TreesAreForced(r, Qualifiers, qs);
      TreesAreForced(r, Methods, ms);
      JoinForced(Trees(r, Properties, ps), Trees(r, Qualifiers, qs));
      JoinForced(Trees(r, Properties, ps) + Trees(r, Qualifiers, qs), Trees(r, Methods, ms));
      JoinForced(root, Trees(r, Properties, ps) + Trees(r, Qualifiers, qs) + Trees(r, Methods, ms));
  }

  lemma {:induction false} TreesAreForced(r: Ref, which: Which, ds: seq<Decl>)
    ensures AllForced(Trees(r, which, ds))
    decreases ds
  {
    if ds == [] {
      NothingForced();
    } else {
      hide Tree, AllForced;
      var n := |ds| - 1;
      var last := Member(r, which, Lower(ds[n].name));
      TreesAreForced(r, which, ds[..n]);
      TreeIsForced(last, ds[n]);
      JoinForced(Trees(r, which, ds[..n]), Tree(last, ds[n]));
    }
  }

  lemma {:induction false} FollowForced(e: Heap, r: Ref, path: seq<(Which, string)>)
    requires AllForced(e)
    ensures Follow(e, r, path).0 == e
    decreases |path|
  {
    hide MemberAt;
    if r in e && path != [] && path[0].0 in e[r].sections {
      assert Forced(e[r]);
      var next := MemberAt(e[r].sections[path[0].0].member, path[0].1);
      if next.Some? {
        FollowForced(e, next.value, path[1..]);
      }
    }
  }

  lemma {:induction false} GetAllForced(e: Heap, r: Ref, ws: seq<Which>)
    requires AllForced(e) && r in e
    ensures GetAll(e, r, ws).0 == e
    decreases |ws|
  {
    if ws != [] {
      assert Forced(e[r]);
      GetAllForced(e, r, ws[1..]);
    }
  }

  lemma StepForced(e: Heap, op: Op)
    requires AllForced(e)
    ensures AllForced(Step(e, op, Tree).0)
  {
    hide Follow, GetAll, Tree, Put, KeysOf;
    if op.Create? {
      TreeIsForced(Named(op.n), op.d);
    } else {
      FollowForced(e, Named(op.p.root), op.p.path);
      if op.Store? {
        FollowForced(e, Named(op.item.root), op.item.path);
      }
      var r := Locate(e, op.p).1;
      if r.Some? {
        assert Forced(e[r.value]);
        GetAllForced(e, r.value, ORDER);
      }
    }
  }

  /** So RunIsEager compares with a heap in which no getter ever has anything to do. */
  lemma {:induction false} EagerIsForced(ops: seq<Op>)
    ensures AllForced(Run(ops, Tree).0)
  {
    hide Step, AllForced;
    if ops == [] {
      NothingForced();
    } else {
      EagerIsForced(ops[..|ops| - 1]);
      StepForced(Run(ops[..|ops| - 1], Tree).0, ops[|ops| - 1]);
    }
  }

  lemma NothingForced()
    ensures AllForced(map[])
  {
  }

  // ---------------------------------------------------------------- one operation after another

  lemma {:induction false} SamePath(e: Heap, f: Heap, r: Ref, path: seq<(Which, string)>)
    requires AllForced(e) && AllForced(f) && e.Keys == f.Keys && forall x :: x in e ==> e[x].sections == f[x].sections
    ensures Follow(f, r, path) == (f, Follow(e, r, path).1)
    decreases |path|
  {
    hide MemberAt;
    if r in e && path != [] && path[0].0 in e[r].sections {
      assert Forced(e[r]) && Forced(f[r]);
      var next := MemberAt(e[r].sections[path[0].0].member, path[0].1);
      if next.Some? {
        SamePath(e, f, next.value, path[1..]);
      }
    }
  }

  /** A change of name or value shows by whatever path leads to the object, and nowhere else. */
  lemma ChangeShows(e: Heap, p: Place, q: Place, o: Obj, op: Op, create: (Ref, Decl) -> Heap)
    requires AllForced(e) && Locate(e, p).0 == e && Locate(e, p).1.Some? && Forced(o)
    requires o.sections == e[Locate(e, p).1.value].sections
    requires (op.ReadName? || op.ReadValue?) && op.p == q
    ensures Step(e[Locate(e, p).1.value := o], op, create).1
         == if Locate(e, q).1 == Locate(e, p).1 then OnObject(o, op).1 else Step(e, op, create).1
  {
    var f := e[Locate(e, p).1.value := o];
    assert AllForced(f) by {
      hide Forced, Locate;
    }
    FollowForced(e, Named(q.root), q.path);
    SamePath(e, f, Named(q.root), q.path);
    hide Follow, AllForced, OnObject;
  }

  /** A name or a value is read as written by whatever path leads to the object, and read everywhere else as before. */
  lemma WrittenIsReadLater(e: Heap, p: Place, q: Place, name: string, v: PyValue, create: (Ref, Decl) -> Heap)
    requires AllForced(e)
    ensures var (f, reply) := Step(e, WriteName(p, name), create);
            reply == Done ==>
              Step(f, ReadName(q), create).1
              == if Locate(e, q).1 == Locate(e, p).1 then Name(name) else Step(e, ReadName(q), create).1
    ensures var (f, reply) := Step(e, WriteValue(p, v), create);
            reply == Done ==>
              Step(f, ReadValue(q), create).1
              == if Locate(e, q).1 == Locate(e, p).1 then Val(v) else Step(e, ReadValue(q), create).1
  {
    FollowForced(e, Named(p.root), p.path);
    var x := Locate(e, p).1;
    if x.Some? {
      var o := e[x.value];
      assert Forced(o);
      WrittenIsRead(o, q, name, v, Qualifiers, NewDict);
      var named, valued := OnObject(o, WriteName(p, name)).0, OnObject(o, WriteValue(p, v)).0;
      assert Step(e, WriteName(p, name), create) == (e[x.value := named], Done);
      assert o.value.Some? ==> Step(e, WriteValue(p, v), create) == (e[x.value := valued], Done);
      assert o.value.None? ==> Step(e, WriteValue(p, v), create).1 == NotAnOperation;
      hide Follow, AllForced, Step, Locate;
      ChangeShows(e, p, q, named, ReadName(q), create);
      if o.value.Some? {
        ChangeShows(e, p, q, valued, ReadValue(q), create);
      }
    }
  }

  /** A section of a named object that was replaced is empty, and one in which an item was stored leads to it. */
  lemma ChangedIsFoundLater(e: Heap, n: nat, which: Which, given: NewSection, key: string, q: Place, other: string,
                            create: (Ref, Decl) -> Heap)
    requires AllForced(e) && Named(n) in e && which in e[Named(n)].sections
    requires KeysInOrder(e[Named(n)].sections[which].member)
    ensures var (f, reply) := Step(e, ReplaceSection(Place(n, []), which, given), create);
            reply == Done ==> Step(f, ListKeys(Place(n, []), which), create).1 == Keys([])
    ensures var (f, reply) := Step(e, Store(Place(n, []), which, key, q), create);
            reply == Done ==>
              Locate(f, Place(n, [(which, other)])).1
              == if SameKey(e[Named(n)].sections[which].member, key, other) then Locate(e, q).1
                 else Locate(e, Place(n, [(which, other)])).1
  {
    hide Step, Locate, SameKey, KeysInOrder, AllForced, Follow, KeysOf;
    ReplacedIsEmpty(e, n, which, given, create);
    StoredIsFoundLater(e, n, which, key, q, other, create);
  }

  lemma ReplacedIsEmpty(e: Heap, n: nat, which: Which, given: NewSection, create: (Ref, Decl) -> Heap)
    requires AllForced(e) && Named(n) in e && which in e[Named(n)].sections
    ensures var (f, reply) := Step(e, ReplaceSection(Place(n, []), which, given), create);
            reply == Done ==> Step(f, ListKeys(Place(n, []), which), create).1 == Keys([])
  {
    WrittenIsRead(e[Named(n)], Place(n, []), "", NoValue, which, given);
    hide OnObject, KeysOf, AllForced;
  }

  lemma StoredIsFoundLater(e: Heap, n: nat, which: Which, key: string, q: Place, other: string,
                           create: (Ref, Decl) -> Heap)
    requires AllForced(e) && Named(n) in e && which in e[Named(n)].sections
    requires KeysInOrder(e[Named(n)].sections[which].member)
    ensures var (f, reply) := Step(e, Store(Place(n, []), which, key, q), create);
            reply == Done ==>
              Locate(f, Place(n, [(which, other)])).1
              == if SameKey(e[Named(n)].sections[which].member, key, other) then Locate(e, q).1
                 else Locate(e, Place(n, [(which, other)])).1
  {
    var r := Named(n);
    assert Forced(e[r]);
    FollowForced(e, Named(q.root), q.path);
    FollowForced(e, r, []);
    var item := Locate(e, q).1;
    assert Locate(e, Place(n, [])) == (e, Some(r));
    hide Put, MemberAt, SameKey, KeysInOrder, AllForced, Follow;
    if item.Some? {
      BuiltStays(e, r, which);
      hide Get;
      StoredIsReached(e, r, which, key, item.value, other);
      hide StoreAt;
      assert Step(e, Store(Place(n, []), which, key, q), create) == StoreAt(e, r, which, key, item.value);
    }
  }

  /** When nothing happens: the name is taken, a path leads nowhere, or the object has no such section or value. */
  lemma WhenNothingHappens(heap: Heap, op: Op, create: (Ref, Decl) -> Heap)
    ensures op.Create? ==> Step(heap, op, create).1 == if Named(op.n) in heap then NotAnOperation else Done
    ensures op.Store? ==>
      var (h, item) := Locate(heap, op.item);
      var (h', r) := Locate(h, op.p);
      (Step(heap, op, create).1 == NotAnOperation <==>
       item.None? || r.None? || op.which !in h'[r.value].sections)
    ensures !op.Create? && !op.Store? ==>
      var (h, r) := Locate(heap, op.p);
      (Step(heap, op, create).1 == NotAnOperation <==>
       || r.None?
       || (op.Copy? && Named(op.n) in h)
       || ((op.ReplaceSection? || op.ListKeys?) && op.which !in h[r.value].sections)
       || ((op.ReadValue? || op.WriteValue?) && h[r.value].value.None?))
    ensures op.Copy? ==> Step(heap, op, create).1 in {Done, Raised(TypeError), NotAnOperation}
  {
    hide Follow, Get, GetAll, D.Insert;
  }

  // ---------------------------------------------------------------- the object of the source

  /** The value of a CIMProperty as it is here. */
  ghost function ValueIn(p: CIMProperty): Lazy<PyValue, Value>
    requires p.Valid()
    reads p.Own()
  {
    Lazy(p.value.member, if p.value.Cached() then Some(p.value.cache.Shows().content) else None)
  }

  ghost function Here(p: CIMProperty): Obj
    requires p.Valid()
    reads p.Own()
  {
    Obj(p.fields.name, Some(ValueIn(p)), map[])
  }

  /** Reading, writing and copying the value of a CIMProperty with its RefCountedPtr is what these operations are. */
  method ReadsTheSame(p: CIMProperty, at: Place) returns (v: PyValue)
    requires p.Valid()
    modifies p.Own()
    ensures p.Valid() && (Here(p), Val(v)) == OnObject(old(Here(p)), ReadValue(at))
  {
    hide Section.Valid, Section.Meaning, R.Memory.Valid, ToPython;
    v := p.GetValue();
  }

  method WritesTheSame(p: CIMProperty, at: Place, v: PyValue)
    requires p.Valid()
    modifies p.Own()
    ensures p.Valid() && (Here(p), Done) == OnObject(old(Here(p)), WriteValue(at, v))
  {
    hide Section.Valid, Section.Meaning, R.Memory.Valid, ToPython;
    p.SetValue(v);
  }

  method CopiesTheSame(p: CIMProperty) returns (r: Result<CIMProperty, Error>)
    requires p.Valid()
    modifies p.Own()
    ensures p.Valid() && Here(p) == old(Here(p))
    ensures r.Ok? ==> fresh(r.value.Own()) && r.value.Valid() && Here(r.value) == CopyOf(Here(p))
  {
    hide Section.Valid, Section.Meaning, R.Memory.Valid, ToPython;
    r := p.Copy();
  }
}
