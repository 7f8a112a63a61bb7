/** The case-insensitive dictionary: a map ordered by lower-case key that keeps the first spelling of each key. */
module NocaseDict {
  import opened Text

  datatype Entry<V> = Entry(key: string, value: V)

  datatype Error = TypeError | KeyError | StopIteration

  // ---------------------------------------------------------------- the ordered map as a sequence

  function FoldedKeys<V>(es: seq<Entry<V>>): set<string> {
    set i | 0 <= i < |es| :: Lower(es[i].key)
  }

  /** Entries in strictly increasing order of lower-case key, as NocaseDictComparator orders them. */
  ghost predicate Sorted<V>(es: seq<Entry<V>>) {
    forall i, j :: 0 <= i < j < |es| ==> Less(Lower(es[i].key), Lower(es[j].key))
  }

  function IndexOf<V>(es: seq<Entry<V>>, k: string): (i: nat)
    ensures i <= |es|
    ensures i < |es| ==> Lower(es[i].key) == k
    ensures forall j :: 0 <= j < i ==> Lower(es[j].key) != k
    ensures i == |es| <==> k !in FoldedKeys(es)
  {
    if es == [] then 0 else if Lower(es[0].key) == k then 0 else
      var i := IndexOf(es[1..], k);
      assert forall j :: 0 <= j < |es[1..]| ==> es[1..][j] == es[j + 1];
      assert i == |es[1..]| ==> forall j :: 0 <= j < |es| ==> Lower(es[j].key) != k by {
        if i == |es[1..]| {
          forall j | 0 <= j < |es| ensures Lower(es[j].key) != k {
            if j > 0 { assert es[j] == es[1..][j - 1]; }
          }
        }
      }
      1 + i
  }

  /** The abstract dictionary: lower-case key to (spelling at first insertion, last value). */
  function Model<V>(es: seq<Entry<V>>): map<string, Entry<V>> {
    map k | k in FoldedKeys(es) :: es[IndexOf(es, k)]
  }

  function Put<V>(m: map<string, Entry<V>>, key: string, value: V): map<string, Entry<V>> {
    var k := Lower(key);
    m[k := Entry(if k in m then m[k].key else key, value)]
  }

  lemma ModelAt<V>(es: seq<Entry<V>>, i: nat)
    requires Sorted(es) && i < |es|
    ensures Lower(es[i].key) in Model(es) && Model(es)[Lower(es[i].key)] == es[i]
  {
    var k := Lower(es[i].key);
    var j := IndexOf(es, k);
    if j < i {
      LessIrreflexive(k);
    }
  }

  /** A map that agrees with every entry and has no other key is the model. */
  lemma ModelIs<V>(es: seq<Entry<V>>, m: map<string, Entry<V>>)
    requires Sorted(es)
    requires forall i :: 0 <= i < |es| ==> Lower(es[i].key) in m && m[Lower(es[i].key)] == es[i]
    requires forall k :: k in m ==> k in FoldedKeys(es)
    ensures Model(es) == m
  {
  }

  lemma SortedWithout<V>(es: seq<Entry<V>>, i: nat)
    requires Sorted(es) && i < |es|
    ensures Sorted(es[..i] + es[i + 1..])
  {
  }

  lemma WithoutKeys<V>(es: seq<Entry<V>>, i: nat, a: nat)
    requires Sorted(es) && i < |es| && a < |es| && a != i
    ensures Lower(es[a].key) != Lower(es[i].key)
    ensures es[a] == (es[..i] + es[i + 1..])[if a < i then a else a - 1]
  {
    LessIrreflexive(Lower(es[i].key));
  }

  /** map::erase. */
  lemma RemoveModel<V>(es: seq<Entry<V>>, i: nat)
    requires Sorted(es) && i < |es|
    ensures Sorted(es[..i] + es[i + 1..])
    ensures Model(es[..i] + es[i + 1..]) == Model(es) - {Lower(es[i].key)}
  {
    hide Sorted, Lower, IndexOf;
    SortedWithout(es, i);
    KeysOfModel(es);
    var r, m := es[..i] + es[i + 1..], Model(es) - {Lower(es[i].key)};
    forall a | 0 <= a < |r| ensures Lower(r[a].key) in m && m[Lower(r[a].key)] == r[a] {
      var a' := if a < i then a else a + 1;
      WithoutKeys(es, i, a');
      ModelAt(es, a');
    }
    forall k | k in m ensures k in FoldedKeys(r) {
      WithoutKeys(es, i, IndexOf(es, k));
    }
    ModelIs(r, m);
  }

  /** Writing the value of an entry that is there. */
  lemma ReplaceModel<V>(es: seq<Entry<V>>, i: nat, e: Entry<V>)
    requires Sorted(es) && i < |es| && Lower(e.key) == Lower(es[i].key)
    ensures Sorted(es[i := e]) && Model(es[i := e]) == Model(es)[Lower(e.key) := e]
  {
    var r, m := es[i := e], Model(es)[Lower(e.key) := e];
    forall a | 0 <= a < |r| ensures Lower(r[a].key) in m && m[Lower(r[a].key)] == r[a] {
      ModelAt(es, a);
      if a != i {
        LessIrreflexive(Lower(e.key));
      }
    }
    forall k | k in m ensures k in FoldedKeys(r) {
      var a := if k == Lower(e.key) then i else IndexOf(es, k);
      assert Lower(r[a].key) == k;
    }
    ModelIs(r, m);
  }

  /** Where a key that is not there belongs. */
  function LowerBound<V>(es: seq<Entry<V>>, k: string): (i: nat)
    ensures i <= |es|
    ensures forall j :: 0 <= j < i ==> Less(Lower(es[j].key), k)
    ensures i < |es| ==> !Less(Lower(es[i].key), k)
  {
    if es == [] || !Less(Lower(es[0].key), k) then 0
    else
      var i := LowerBound(es[1..], k);
      assert forall j :: 0 < j <= i ==> es[j] == es[1..][j - 1];
      1 + i
  }

  lemma AboveLowerBound<V>(es: seq<Entry<V>>, k: string, j: nat)
    requires Sorted(es) && k !in FoldedKeys(es) && LowerBound(es, k) <= j < |es|
    ensures Less(k, Lower(es[j].key))
  {
    hide Less, Lower, LowerBound;
    var i := LowerBound(es, k);
    LessTotal(Lower(es[i].key), k);
    assert Lower(es[i].key) in FoldedKeys(es);
    if i < j {
      LessTransitive(k, Lower(es[i].key), Lower(es[j].key));
    }
  }

  lemma SortedWith<V>(es: seq<Entry<V>>, e: Entry<V>)
    requires Sorted(es) && Lower(e.key) !in FoldedKeys(es)
    ensures var i := LowerBound(es, Lower(e.key)); Sorted(es[..i] + [e] + es[i..])
  {
    var i := LowerBound(es, Lower(e.key));
    var r := es[..i] + [e] + es[i..];
    forall a, b | 0 <= a < b < |r| ensures Less(Lower(r[a].key), Lower(r[b].key)) {
      assert a < i ==> r[a] == es[a];
      assert b < i ==> r[b] == es[b];
      assert a > i ==> r[a] == es[a - 1];
      assert b > i ==> r[b] == es[b - 1];
      if b > i {
        AboveLowerBound(es, Lower(e.key), b - 1);
      }
    }
  }

  /** map::insert of a key that is not there. */
  lemma InsertModel<V>(es: seq<Entry<V>>, e: Entry<V>)
    requires Sorted(es) && Lower(e.key) !in FoldedKeys(es)
    ensures var i := LowerBound(es, Lower(e.key));
            Sorted(es[..i] + [e] + es[i..]) && Model(es[..i] + [e] + es[i..]) == Model(es)[Lower(e.key) := e]
  {
    hide Sorted, Lower, IndexOf, LowerBound, Model;
    SortedWith(es, e);
    KeysOfModel(es);
    var i := LowerBound(es, Lower(e.key));
    var r, m := es[..i] + [e] + es[i..], Model(es)[Lower(e.key) := e];
    forall a | 0 <= a < |r| ensures Lower(r[a].key) in m && m[Lower(r[a].key)] == r[a] {
      if a != i {
        var a' := if a < i then a else a - 1;
        assert r[a] == es[a'];
        ModelAt(es, a');
      }
    }
    forall k | k in m ensures k in FoldedKeys(r) {
      if k == Lower(e.key) {
        assert r[i] == e;
      } else {
        var a := IndexOf(es, k);
        assert r[if a < i then a else a + 1] == es[a];
      }
    }
    ModelIs(r, m);
  }

  /** Two sorted listings of the same dictionary are the same: the listing order is canonical. */
  lemma {:induction false} ListingUnique<V>(a: seq<Entry<V>>, b: seq<Entry<V>>)
    requires Sorted(a) && Sorted(b) && Model(a) == Model(b)
    ensures a == b
  {
    hide Sorted, Model, Lower;
    if a != [] {
      FirstIsLeast(a, b);
      FirstsAgree(a, b);
      TailOf(a);
      TailOf(b);
      ListingUnique(a[1..], b[1..]);
      assert a == [a[0]] + a[1..] && b == [b[0]] + b[1..];
    } else if b != [] {
      FirstIsLeast(b, a);
    }
  }

  lemma FirstsAgree<V>(a: seq<Entry<V>>, b: seq<Entry<V>>)
    requires Sorted(a) && Sorted(b) && Model(a) == Model(b) && a != [] && b != []
    ensures a[0] == b[0]
  {
    FirstIsLeast(a, b);
    FirstIsLeast(b, a);
    LessTotal(Lower(a[0].key), Lower(b[0].key));
    ModelAt(a, 0);
    ModelAt(b, 0);
  }

  lemma TailOf<V>(a: seq<Entry<V>>)
    requires Sorted(a) && a != []
    ensures Sorted(a[1..]) && Model(a[1..]) == Model(a) - {Lower(a[0].key)}
  {
    hide Sorted, Model;
    assert a[..0] + a[1..] == a[1..];
    RemoveModel(a, 0);
  }

  lemma FirstIsLeast<V>(a: seq<Entry<V>>, b: seq<Entry<V>>)
    requires Sorted(a) && Model(a) == Model(b) && a != []
    ensures b != [] && (Sorted(b) ==> !Less(Lower(a[0].key), Lower(b[0].key)))
  {
    ModelAt(a, 0);
    var i := IndexOf(b, Lower(a[0].key));
    assert Lower(b[i].key) == Lower(a[0].key);
    if Sorted(b) {
      LessIrreflexive(Lower(a[0].key));
      if i > 0 {
        LessAsymmetric(Lower(b[0].key), Lower(b[i].key));
      }
    }
  }

  /** m_dict[key] = value on the ordered map: a key already here, in any spelling, keeps its spelling. */
  function Insert<V>(es: seq<Entry<V>>, key: string, value: V): seq<Entry<V>> {
    var i := IndexOf(es, Lower(key));
    if i < |es| then es[i := Entry(es[i].key, value)]
    else
      var j := LowerBound(es, Lower(key));
      es[..j] + [Entry(key, value)] + es[j..]
  }

  lemma InsertIsPut<V>(es: seq<Entry<V>>, key: string, value: V)
    requires Sorted(es)
    ensures Sorted(Insert(es, key, value)) && Model(Insert(es, key, value)) == Put(Model(es), key, value)
  {
    hide Sorted, Model;
    var i := IndexOf(es, Lower(key));
    KeysOfModel(es);
    if i < |es| {
      ModelAt(es, i);
      ReplaceModel(es, i, Entry(es[i].key, value));
    } else {
      InsertModel(es, Entry(key, value));
    }
  }

  // ---------------------------------------------------------------- update()

  function PutAll<V>(m: map<string, Entry<V>>, es: seq<Entry<V>>): map<string, Entry<V>> {
    if es == [] then m
    else
      var n := |es| - 1;
      Put(PutAll(m, es[..n]), es[n].key, es[n].value)
  }

  lemma NothingPut<V>(m: map<string, Entry<V>>)
    ensures PutAll(m, []) == m
  {
  }

  lemma PutNext<V>(m: map<string, Entry<V>>, es: seq<Entry<V>>, i: nat)
    requires i < |es|
    ensures PutAll(m, es[..i + 1]) == Put(PutAll(m, es[..i]), es[i].key, es[i].value)
  {
    hide Put;
    assert es[..i + 1][..i] == es[..i];
  }

  /** The entries a Python dict gives before its first key that is not a string. */
  function StringKeyed<V>(items: seq<(Option<string>, V)>): (es: seq<Entry<V>>)
    ensures |es| <= |items|
    ensures forall i :: 0 <= i < |es| ==> items[i] == (Some(es[i].key), es[i].value)
    ensures |es| < |items| ==> items[|es|].0 == None
  {
    if items == [] || items[0].0.None? then []
    else [Entry(items[0].0.value, items[0].1)] + StringKeyed(items[1..])
  }

  /** Updating with another dictionary: its values win, the spellings already here stay. */
  lemma {:induction false} UpdateMeaning<V>(m: map<string, Entry<V>>, es: seq<Entry<V>>, k: string)
    requires Sorted(es)
    ensures k in PutAll(m, es) <==> k in m || k in Model(es)
    ensures k in PutAll(m, es) ==>
      && PutAll(m, es)[k].value == (if k in Model(es) then Model(es)[k].value else m[k].value)
      && PutAll(m, es)[k].key == (if k in m then m[k].key else Model(es)[k].key)
  {
    if es != [] {
      var n := |es| - 1;
      InitOf(es);
      UpdateMeaning(m, es[..n], k);
    }
  }

  /** The dictionary after update(): the spellings of the first, the values of the second. */
  function Merge<V>(m: map<string, Entry<V>>, other: map<string, Entry<V>>): map<string, Entry<V>> {
    map k | k in m.Keys + other.Keys ::
      Entry(if k in m then m[k].key else other[k].key, if k in other then other[k].value else m[k].value)
  }

  lemma MergeIsPutAll<V>(m: map<string, Entry<V>>, es: seq<Entry<V>>)
    requires Sorted(es)
    ensures PutAll(m, es) == Merge(m, Model(es))
  {
    hide PutAll, Sorted, Model;
    var p, q := PutAll(m, es), Merge(m, Model(es));
    forall k ensures k in p <==> k in q
             ensures k in p ==> p[k] == q[k] {
      UpdateMeaning(m, es, k);
    }
  }

  lemma InitOf<V>(es: seq<Entry<V>>)
    requires Sorted(es) && es != []
    ensures Sorted(es[..|es| - 1])
    ensures Model(es) == Model(es[..|es| - 1])[Lower(es[|es| - 1].key) := es[|es| - 1]]
    ensures Lower(es[|es| - 1].key) !in Model(es[..|es| - 1])
  {
    hide Sorted, Model;
    var n := |es| - 1;
    RemoveModel(es, n);
    assert es[..n] + es[n + 1..] == es[..n];
    ModelAt(es, n);
    assert Model(es) == (Model(es) - {Lower(es[n].key)})[Lower(es[n].key) := es[n]];
  }

  // ---------------------------------------------------------------- comparison

  /** std::map sizes are 64 bits wide; cmp() returns their difference as a 32-bit int. */
  function ToInt32(x: int): (r: int)
    ensures -0x8000_0000 <= r < 0x8000_0000 && (x - r) % 0x1_0000_0000 == 0
  {
    var r := x % 0x1_0000_0000;
    if r < 0x8000_0000 then r else r - 0x1_0000_0000
  }

  ghost predicate TotalOrder<V(!new)>(less: (V, V) -> bool) {
    && (forall a, b :: less(a, b) ==> !less(b, a))
    && (forall a, b, c :: less(a, b) && less(b, c) ==> less(a, c))
    && (forall a, b :: less(a, b) || a == b || less(b, a))
  }

  /** Every entry of a has its folded key in b with the same value. */
  ghost predicate Included<V>(a: seq<Entry<V>>, b: seq<Entry<V>>) {
    forall i :: 0 <= i < |a| ==> Lower(a[i].key) in Model(b) && Model(b)[Lower(a[i].key)].value == a[i].value
  }

  ghost predicate SameKeysAndValues<V>(a: map<string, Entry<V>>, b: map<string, Entry<V>>) {
    a.Keys == b.Keys && forall k :: k in a ==> a[k].value == b[k].value
  }

  lemma {:induction false} SizeOfModel<V>(es: seq<Entry<V>>)
    requires Sorted(es)
    ensures |Model(es)| == |es|
  {
    if es != [] {
      InitOf(es);
      SizeOfModel(es[..|es| - 1]);
    }
  }

  /** Inclusion plus equal size, which is what cmp() tests, is equality up to the spelling of keys. */
  lemma IncludedAndEqualSize<V>(a: seq<Entry<V>>, b: seq<Entry<V>>)
    requires Sorted(a) && Sorted(b)
    ensures Included(a, b) && |a| == |b| <==> SameKeysAndValues(Model(a), Model(b))
    ensures Included(a, b) ==> |a| <= |b|
  {
    hide Sorted, Model, Included;
    SizeOfModel(a);
    SizeOfModel(b);
    IncludedOnModels(a, b);
    assert |Model(a).Keys| == |a| && |Model(b).Keys| == |b|;
    if Included(a, b) {
      SubsetSize(Model(a).Keys, Model(b).Keys);
    }
  }

  lemma IncludedOnModels<V>(a: seq<Entry<V>>, b: seq<Entry<V>>)
    requires Sorted(a)
    ensures Included(a, b) <==>
            Model(a).Keys <= Model(b).Keys && forall k :: k in Model(a) ==> Model(a)[k].value == Model(b)[k].value
  {
    if Included(a, b) {
      forall k | k in Model(a) ensures k in Model(b) && Model(a)[k].value == Model(b)[k].value {
        assert a[IndexOf(a, k)] == Model(a)[k];
      }
    } else {
      var i :| 0 <= i < |a| && !(Lower(a[i].key) in Model(b) && Model(b)[Lower(a[i].key)].value == a[i].value);
      ModelAt(a, i);
    }
  }

  /** What cmp() tests. */
  ghost predicate SaysEqual<V>(a: seq<Entry<V>>, b: seq<Entry<V>>) {
    Included(a, b) && ToInt32(|a| - |b|) == 0
  }

  /** The second has all the entries of the first and a positive multiple of 2^32 more. */
  ghost predicate LargerByWraps<V>(a: seq<Entry<V>>, b: seq<Entry<V>>) {
    Included(a, b) && |a| != |b| && (|b| - |a|) % 0x1_0000_0000 == 0
  }

  /** The entry under the same folded key is missing in b or has another value, and the entries before it agree. */
  ghost predicate FirstToDiffer<V>(a: seq<Entry<V>>, b: seq<Entry<V>>, i: nat) {
    && i < |a| && Included(a[..i], b)
    && (Lower(a[i].key) in Model(b) ==> Model(b)[Lower(a[i].key)].value != a[i].value)
  }

  /** What cmp() answers: the first entry to differ decides, and otherwise the sizes do. */
  ghost predicate CmpAnswer<V(!new)>(a: seq<Entry<V>>, b: seq<Entry<V>>, less: (V, V) -> bool, c: int) {
    if Included(a, b) then c == ToInt32(|a| - |b|)
    else
      exists i: nat :: FirstToDiffer(a, b, i) &&
        var k := Lower(a[i].key);
        c == if k in Model(b) && less(Model(b)[k].value, a[i].value) then 1 else -1
  }

  /** The zeros among these answers. */
  lemma CmpIsZero<V(!new)>(a: seq<Entry<V>>, b: seq<Entry<V>>, less: (V, V) -> bool, c: int)
    requires Sorted(a) && Sorted(b) && CmpAnswer(a, b, less, c)
    ensures c == 0 <==> SaysEqual(a, b)
    ensures (c == 0 <==> SameKeysAndValues(Model(a), Model(b))) <==> !LargerByWraps(a, b)
    ensures Model(a) == Model(b) ==> c == 0
  {
    hide Included, FirstToDiffer, Sorted, Model, SameKeysAndValues, LargerByWraps;
    CmpIsRightIff(a, b);
    EqualSaysEqual(a, b);
  }

  lemma DiffersAt<V(!new)>(a: seq<Entry<V>>, b: seq<Entry<V>>, i: nat, less: (V, V) -> bool)
    requires i < |a| && Included(a[..i], b)
    requires var found := IndexOf(b, Lower(a[i].key)); found == |b| || b[found].value != a[i].value
    ensures var found := IndexOf(b, Lower(a[i].key));
            CmpAnswer(a, b, less, if found < |b| && less(b[found].value, a[i].value) then 1 else -1)
  {
    hide Model, Lower, IndexOf;
    ModelLookup(b, Lower(a[i].key));
    assert FirstToDiffer(a, b, i);
  }

  lemma OneMoreIncluded<V>(a: seq<Entry<V>>, b: seq<Entry<V>>, i: nat)
    requires i < |a| && Included(a[..i], b)
    requires var found := IndexOf(b, Lower(a[i].key)); found < |b| && b[found].value == a[i].value
    ensures Included(a[..i + 1], b)
  {
    hide Model, Lower, IndexOf, Included;
    ModelLookup(b, Lower(a[i].key));
    assert a[..i + 1] == a[..i] + [a[i]];
    IncludedWith(a[..i], b, a[i]);
  }

  lemma IncludedWith<V>(a: seq<Entry<V>>, b: seq<Entry<V>>, e: Entry<V>)
    requires Included(a, b) && Lower(e.key) in Model(b) && Model(b)[Lower(e.key)].value == e.value
    ensures Included(a + [e], b)
  {
    hide Model, Lower;
    var r := a + [e];
    forall j | 0 <= j < |r| ensures Lower(r[j].key) in Model(b) && Model(b)[Lower(r[j].key)].value == r[j].value {
      assert r[j] == if j < |a| then a[j] else e;
    }
  }

  lemma Ordered<V(!new)>(less: (V, V) -> bool, x: V, y: V)
    requires TotalOrder(less)
    ensures less(x, y) ==> !less(y, x)
    ensures x == y <==> !less(x, y) && !less(y, x)
  {
  }

  lemma SizesDecide<V(!new)>(a: seq<Entry<V>>, b: seq<Entry<V>>, less: (V, V) -> bool)
    requires Included(a, b)
    ensures CmpAnswer(a, b, less, ToInt32(|a| - |b|))
  {
  }

  lemma NothingIncluded<V>(a: seq<Entry<V>>, b: seq<Entry<V>>)
    ensures Included(a[..0], b)
  {
  }

  lemma CmpIsRightIff<V>(a: seq<Entry<V>>, b: seq<Entry<V>>)
    requires Sorted(a) && Sorted(b)
    ensures (SaysEqual(a, b) <==> SameKeysAndValues(Model(a), Model(b))) <==> !LargerByWraps(a, b)
  {
    hide Sorted, Model, SameKeysAndValues;
    IncludedAndEqualSize(a, b);
  }

  /** Dictionaries that are equal, as eq() has it, also compare as equal. */
  lemma EqualSaysEqual<V>(a: seq<Entry<V>>, b: seq<Entry<V>>)
    requires Sorted(a) && Sorted(b)
    ensures Model(a) == Model(b) ==> SaysEqual(a, b)
  {
    hide Sorted, Model, Included;
    if Model(a) == Model(b) {
      ListingUnique(a, b);
      IncludedAndEqualSize(a, b);
      assert SameKeysAndValues(Model(a), Model(b));
    }
  }

  lemma SubsetSize<T>(a: set<T>, b: set<T>)
    requires a <= b
    ensures |a| <= |b| && (|a| == |b| ==> a == b)
  {
    assert b == a + (b - a);
  }

  // ---------------------------------------------------------------- the dictionary object

  /** A Python key is a string, or something StringConv::asString refuses. */
  type PyKey = Option<string>

  class NocaseDict<V(==,!new)> {
    var entries: seq<Entry<V>>   // m_dict in the order of its iterators

    ghost predicate Valid()
      reads this
    {
      Sorted(entries)
    }

    ghost function Contents(): map<string, Entry<V>>
      reads this
    {
      Model(entries)
    }

    constructor ()
      ensures Valid() && Contents() == map[] && entries == []
    {
      entries := [];
    }

    method Store(key: string, value: V)
      requires Valid()
      modifies this
      ensures entries == Insert(old(entries), key, value)
      ensures Valid() && Contents() == Put(old(Contents()), key, value)
    {
      InsertIsPut(entries, key, value);
      entries := Insert(entries, key, value);
    }

    method Erase(i: nat)
      requires Valid() && i < |entries|
      modifies this
      ensures Valid() && Contents() == old(Contents()) - {Lower(old(entries[i].key))}
    {
      RemoveModel(entries, i);
      entries := entries[..i] + entries[i + 1..];
    }

    method SetItem(key: PyKey, value: V) returns (r: Result<(), Error>)
      requires Valid()
      modifies this
      ensures Valid()
      ensures key.None? ==> r == Err(TypeError) && entries == old(entries)
      ensures key.Some? ==> r == Ok(()) && Contents() == Put(old(Contents()), key.value, value)
    {
      if key.None? {
        return Err(TypeError);
      }
      Store(key.value, value);
      r := Ok(());
    }

    method DelItem(key: PyKey) returns (r: Result<(), Error>)
      requires Valid()
      modifies this
      ensures Valid()
      ensures r == (if key.None? then Err(TypeError)
                    else if Lower(key.value) !in old(Contents()) then Err(KeyError) else Ok(()))
      ensures Contents() == if r == Ok(()) then old(Contents()) - {Lower(key.value)} else old(Contents())
    {
      if key.None? {
        return Err(TypeError);
      }
      var i := IndexOf(entries, Lower(key.value));
      if i == |entries| {
        return Err(KeyError);
      }
      Erase(i);
      r := Ok(());
    }

    method GetItem(key: PyKey) returns (r: Result<V, Error>)
      requires Valid()
      ensures r == if key.None? then Err(TypeError)
                   else if Lower(key.value) in Contents() then Ok(Contents()[Lower(key.value)].value) else Err(KeyError)
    {
      if key.None? {
        return Err(TypeError);
      }
      var i := IndexOf(entries, Lower(key.value));
      if i == |entries| {
        return Err(KeyError);
      }
      r := Ok(entries[i].value);
    }

    method Get(key: PyKey, default: V) returns (r: Result<V, Error>)
      requires Valid()
      ensures r == if key.None? then Err(TypeError)
                   else Ok(if Lower(key.value) in Contents() then Contents()[Lower(key.value)].value else default)
    {
      if key.None? {
        return Err(TypeError);
      }
      var i := IndexOf(entries, Lower(key.value));
      r := Ok(if i == |entries| then default else entries[i].value);
    }

    method Pop(key: PyKey, default: V) returns (r: Result<V, Error>)
      requires Valid()
      modifies this
      ensures Valid()
      ensures r == if key.None? then Err(TypeError)
                   else if Lower(key.value) in old(Contents()) then Ok(old(Contents())[Lower(key.value)].value)
                   else Ok(default)
      ensures Contents() == if key.None? then old(Contents()) else old(Contents()) - {Lower(key.value)}
    {
      if key.None? {
        return Err(TypeError);
      }
      var i := IndexOf(entries, Lower(key.value));
      if i == |entries| {
        assert Contents() - {Lower(key.value)} == Contents();
        return Ok(default);
      }
      r := Ok(entries[i].value);
      Erase(i);
    }

    method HasKey(key: PyKey) returns (r: Result<bool, Error>)
      requires Valid()
      ensures r == if key.None? then Err(TypeError) else Ok(Lower(key.value) in Contents())
    {
      if key.None? {
        return Err(TypeError);
      }
      r := Ok(IndexOf(entries, Lower(key.value)) < |entries|);
    }

    method Len() returns (n: nat)
      requires Valid()
      ensures n == |Contents()|
    {
      SizeOfModel(entries);
      n := |entries|;
    }

    /** items(): each entry once, in strictly increasing order of lower-case key; keys() and values() are its
        projections. */
    method Items() returns (items: seq<Entry<V>>)
      requires Valid()
      ensures Sorted(items) && Model(items) == Contents() && |items| == |Contents()|
    {
      hide Sorted, Model;
      SizeOfModel(entries);
      items := [];
      for i := 0 to |entries|
        invariant items == entries[..i]
      {
        items := items + [entries[i]];
      }
      assert entries[..|entries|] == entries;
    }

    /** update() from another dictionary, which may be this one; null stands for an object that is neither a
        NocaseDict nor a dict. */
    method Update(other: NocaseDict?<V>) returns (r: Result<(), Error>)
      requires Valid() && (other != null ==> other.Valid())
      modifies this
      ensures Valid()
      ensures other == null ==> r == Err(TypeError) && entries == old(entries)
      ensures other != null ==> r == Ok(()) && Contents() == Merge(old(Contents()), old(other.Contents()))
    {
      hide Sorted, Model, Merge, PutAll, Put;
      if other == null {
        return Err(TypeError);
      }
      var source := other.entries;
      MergeIsPutAll(Contents(), source);
      NothingPut(Contents());
      for i := 0 to |source|
        invariant Valid() && Contents() == PutAll(old(Contents()), source[..i])
      {
        PutNext(old(Contents()), source, i);
        Store(source[i].key, source[i].value);
      }
      assert source[..|source|] == source;
      r := Ok(());
    }

    /** update() from a Python dict: the entries before the first key that is not a string are stored. */
    method UpdateFromDict(items: seq<(PyKey, V)>) returns (r: Result<(), Error>)
      requires Valid()
      modifies this
      ensures Valid() && Contents() == PutAll(old(Contents()), StringKeyed(items))
      ensures r == if |StringKeyed(items)| == |items| then Ok(()) else Err(TypeError)
    {
      hide Sorted, Model, PutAll, Put, StringKeyed;
      ghost var es := StringKeyed(items);
      NothingPut(Contents());
      var i := 0;
      while i < |items|
        invariant 0 <= i <= |es|
        invariant Valid() && Contents() == PutAll(old(Contents()), es[..i])
      {
        if items[i].0.None? {
          assert es[..i] == es;
          return Err(TypeError);
        }
        PutNext(old(Contents()), es, i);
        Store(items[i].0.value, items[i].1);
        i := i + 1;
      }
      assert es[..i] == es;
      r := Ok(());
    }

    method Clear()
      modifies this
      ensures Valid() && Contents() == map[]
    {
      entries := [];
    }

    method Copy() returns (copy: NocaseDict<V>)
      requires Valid()
      ensures fresh(copy) && copy.Valid() && copy.Contents() == Contents()
    {
      copy := new NocaseDict<V>();
      copy.entries := entries;
    }

    /** Python 2 comparison; null stands for an object that is no NocaseDict. Zero means equal up to the spelling of
        keys unless this dictionary is included in one that is larger by a multiple of 2^32 entries. */
    method Cmp(other: NocaseDict?<V>, less: (V, V) -> bool) returns (c: int)
      requires Valid() && (other != null ==> other.Valid()) && TotalOrder(less)
      ensures other == null ==> c == -1
      ensures other != null ==> (c == 0 <==> SaysEqual(entries, other.entries))
      ensures other != null ==>
        ((c == 0 <==> SameKeysAndValues(Contents(), other.Contents())) <==>
         !LargerByWraps(entries, other.entries))
      ensures other != null && Contents() == other.Contents() ==> c == 0
      ensures other != null ==> CmpAnswer(entries, other.entries, less, c)
    {
      hide Sorted, Model, Included, Lower, IndexOf, ToInt32, CmpAnswer, LargerByWraps, SameKeysAndValues;
      hide SaysEqual, TotalOrder;
      if other == null {
        return -1;
      }
      NothingIncluded(entries, other.entries);
      for i := 0 to |entries|
        invariant Included(entries[..i], other.entries)
      {
        var found := IndexOf(other.entries, Lower(entries[i].key));
        if found == |other.entries| {
          DiffersAt(entries, other.entries, i, less);
          CmpIsZero(entries, other.entries, less, -1);
          return -1;
        }
        Ordered(less, entries[i].value, other.entries[found].value);
        if less(entries[i].value, other.entries[found].value) {
          DiffersAt(entries, other.entries, i, less);
          CmpIsZero(entries, other.entries, less, -1);
          return -1;
        } else if less(other.entries[found].value, entries[i].value) {
          DiffersAt(entries, other.entries, i, less);
          CmpIsZero(entries, other.entries, less, 1);
          return 1;
        }
        OneMoreIncluded(entries, other.entries, i);
      }
      assert entries[..|entries|] == entries;
      c := ToInt32(|entries| - |other.entries|);
      SizesDecide(entries, other.entries, less);
      CmpIsZero(entries, other.entries, less, c);
    }

    /** Python 3 equality: same keys in the same spelling and equal values. */
    method Eq(other: NocaseDict?<V>) returns (e: bool)
      requires Valid() && (other != null ==> other.Valid())
      ensures e <==> other != null && Contents() == other.Contents()
    {
      hide Sorted, Model;
      if other == null {
        return false;
      }
      e := |entries| == |other.entries|;
      var i := 0;
      while e && i < |entries|
        invariant 0 <= i <= |entries|
        invariant e ==> |entries| == |other.entries| && entries[..i] == other.entries[..i]
        invariant !e ==> entries != other.entries
      {
        e := entries[i] == other.entries[i];
        i := i + 1;
      }
      if e {
        assert entries[..i] == entries && other.entries[..i] == other.entries;
      }
      if Contents() == other.Contents() {
        ListingUnique(entries, other.entries);
      }
    }
  }

  /** A value is found under every spelling of its key that differs in case only, and nothing else changes. */
  method StoredIsFound<V(==,!new)>(d: NocaseDict<V>, key: string, value: V, spelling: string)
    returns (before: Result<V, Error>, after: Result<V, Error>)
    requires d.Valid()
    modifies d
    ensures d.Valid() && d.Contents() == Put(old(d.Contents()), key, value)
    ensures after == if SameButCase(key, spelling) then Ok(value) else before
  {
    hide Sorted, Model;
    LowerFoldsCase(key, spelling);
    before := d.GetItem(Some(spelling));
    d.Store(key, value);
    after := d.GetItem(Some(spelling));
  }

  method Unary<V(==,!new)>(n: nat, value: V) returns (d: NocaseDict<V>)
    ensures fresh(d) && d.Valid() && |d.entries| == n
  {
    hide Sorted, Model;
    d := new NocaseDict<V>();
    var key := "";
    for i := 0 to n
      invariant fresh(d) && d.Valid() && |d.Contents()| == i == |key|
      invariant forall k :: k in d.Contents() ==> |k| <= i
    {
      key := key + "a";
      d.Store(key, value);
    }
    SizeOfModel(d.entries);
  }

  /** The case where cmp() is wrong can be reached: an empty dictionary equals one with the keys a, aa, aaa, ... */
  method EmptyEqualsHuge<V(==,!new)>(value: V, less: (V, V) -> bool)
    returns (empty: NocaseDict<V>, huge: NocaseDict<V>, c: int)
    requires TotalOrder(less)
    ensures fresh(empty) && empty.Valid() && empty.Contents() == map[]
    ensures fresh(huge) && huge.Valid() && |huge.Contents()| == 0x1_0000_0000
    ensures c == 0
  {
    hide Sorted, Model, LargerByWraps, SameKeysAndValues;
    huge := Unary(0x1_0000_0000, value);
    SizeOfModel(huge.entries);
    empty := new NocaseDict<V>();
    c := empty.Cmp(huge, less);
  }

  lemma ModelLookup<V>(es: seq<Entry<V>>, k: string)
    ensures k in Model(es) <==> IndexOf(es, k) < |es|
    ensures k in Model(es) ==> Model(es)[k] == es[IndexOf(es, k)]
  {
  }

  lemma KeysOfModel<V>(es: seq<Entry<V>>)
    ensures Model(es).Keys == FoldedKeys(es)
  {
  }

  // ---------------------------------------------------------------- iterators

  /** iterkeys(), itervalues() and iteritems() walk a copy of the map, so later changes do not disturb them. The
      three differ only in the part of the entry they return. */
  class NocaseDictIterator<V> {
    const dict: seq<Entry<V>>
    var position: nat

    ghost predicate Valid()
      reads this
    {
      position <= |dict|
    }

    constructor (entries: seq<Entry<V>>)
      ensures Valid() && dict == entries && position == 0
    {
      dict := entries;
      position := 0;
    }

    method Next() returns (r: Result<Entry<V>, Error>)
      requires Valid()
      modifies this
      ensures Valid()
      ensures old(position) < |dict| ==> r == Ok(dict[old(position)]) && position == old(position) + 1
      ensures old(position) == |dict| ==> r == Err(StopIteration) && position == old(position)
    {
      if position == |dict| {
        return Err(StopIteration);
      }
      r := Ok(dict[position]);
      position := position + 1;
    }
  }

  /** Calling next() until StopIteration yields every entry of the dictionary once, in listing order. */
  method Drain<V(!new)>(entries: seq<Entry<V>>) returns (items: seq<Entry<V>>)
    requires Sorted(entries)
    ensures items == entries
  {
    var it := new NocaseDictIterator(entries);
    items := [];
    var r := it.Next();
    while r.Ok?
      invariant it.Valid() && fresh(it) && it.dict == entries
      invariant if r.Ok? then
                  it.position > 0 && r.value == entries[it.position - 1] && items == entries[..it.position - 1]
                else it.position == |entries| && items == entries
      decreases |entries| - it.position, r.Ok?
    {
      items := items + [r.value];
      r := it.Next();
    }
  }

  // ---------------------------------------------------------------- any sequence of operations

  /** What a client does with one dictionary. */
  datatype Action<V> =
    | SetItem(key: PyKey, value: V)
    | DelItem(key: PyKey)
    | GetItem(key: PyKey)
    | GetOr(key: PyKey, default: V)
    | Pop(key: PyKey, default: V)
    | HasKey(key: PyKey)
    | Len
    | UpdateFromDict(items: seq<(PyKey, V)>)
    | UpdateFromOther
    | Clear

  datatype Reply<V> =
    | Status(status: Result<(), Error>)
    | Found(value: Result<V, Error>)
    | Flag(flag: Result<bool, Error>)
    | Size(size: nat)
    | NotAnOperation

  datatype Op<V> =
    | New(n: nat)
    | On(n: nat, a: Action<V>)
    | Update(n: nat, other: nat)
    | Compare(n: nat, other: nat)
    | Copy(n: nat, source: nat)

  function Lookup<V>(m: map<string, Entry<V>>, key: PyKey, otherwise: Result<V, Error>): Reply<V> {
    Found(if key.None? then Err(TypeError)
          else if Lower(key.value) in m then Ok(m[Lower(key.value)].value) else otherwise)
  }

  /** What an action does to the abstract dictionary, also when it raises. */
  function Act<V>(m: map<string, Entry<V>>, a: Action<V>): (map<string, Entry<V>>, Reply<V>) {
    match a
    case SetItem(key, value) =>
      if key.None? then (m, Status(Err(TypeError))) else (Put(m, key.value, value), Status(Ok(())))
    case DelItem(key) =>
      if key.None? then (m, Status(Err(TypeError)))
      else if Lower(key.value) !in m then (m, Status(Err(KeyError)))
      else (m - {Lower(key.value)}, Status(Ok(())))
    case GetItem(key) => (m, Lookup(m, key, Err(KeyError)))
    case GetOr(key, default) => (m, Lookup(m, key, Ok(default)))
    case Pop(key, default) =>
      (if key.None? then m else m - {Lower(key.value)}, Lookup(m, key, Ok(default)))
    case HasKey(key) => (m, Flag(if key.None? then Err(TypeError) else Ok(Lower(key.value) in m)))
    case Len => (m, Size(|m|))
    case UpdateFromDict(items) =>
      (PutAll(m, StringKeyed(items)),
       Status(if |StringKeyed(items)| == |items| then Ok(()) else Err(TypeError)))
    case UpdateFromOther => (m, Status(Err(TypeError)))
    case Clear => (map[], Status(Ok(())))
  }

  method ActOn<V(==,!new)>(d: NocaseDict<V>, a: Action<V>) returns (reply: Reply<V>)
    requires d.Valid()
    modifies d
    ensures d.Valid() && (d.Contents(), reply) == Act(old(d.Contents()), a)
  {
    hide Sorted, Model, PutAll;
    match a
    case SetItem(key, value) => var r := d.SetItem(key, value); reply := Status(r);
    case DelItem(key) => var r := d.DelItem(key); reply := Status(r);
    case GetItem(key) => var r := d.GetItem(key); reply := Found(r);
    case GetOr(key, default) => var r := d.Get(key, default); reply := Found(r);
    case Pop(key, default) => var r := d.Pop(key, default); reply := Found(r);
    case HasKey(key) => var r := d.HasKey(key); reply := Flag(r);
    case Len => var n := d.Len(); reply := Size(n);
    case UpdateFromDict(items) => var r := d.UpdateFromDict(items); reply := Status(r);
    case UpdateFromOther => var r := d.Update(null); reply := Status(r);
    case Clear => d.Clear(); reply := Status(Ok(()));
  }

  type Store<V> = map<nat, map<string, Entry<V>>>

  /** Names are given once; an operation on a name that is not in use does nothing. */
  function Step<V(==)>(store: Store<V>, op: Op<V>): (Store<V>, Reply<V>) {
    match op
    case New(n) => if n in store then (store, NotAnOperation) else (store[n := map[]], Status(Ok(())))
    case On(n, a) =>
      if n !in store then (store, NotAnOperation)
      else (store[n := Act(store[n], a).0], Act(store[n], a).1)
    case Update(n, other) =>
      if n !in store || other !in store then (store, NotAnOperation)
      else (store[n := Merge(store[n], store[other])], Status(Ok(())))
    case Compare(n, other) =>
      if n !in store || other !in store then (store, NotAnOperation)
      else (store, Flag(Ok(store[n] == store[other])))
    case Copy(n, source) =>
      if n in store || source !in store then (store, NotAnOperation)
      else (store[n := store[source]], Status(Ok(())))
  }

  function Run<V(==)>(ops: seq<Op<V>>): (Store<V>, seq<Reply<V>>) {
    if ops == [] then (map[], [])
    else
      var n := |ops| - 1;
      var before := Run(ops[..n]);
      var step := Step(before.0, ops[n]);
      (step.0, before.1 + [step.1])
  }

  /** Each name has a dictionary of its own with the contents it should have. */
  ghost predicate Tracks<V(!new)>(table: map<nat, NocaseDict<V>>, store: Store<V>)
    reads table.Values
  {
    && table.Keys == store.Keys
    && (forall n, m :: n in table && m in table && n != m ==> table[n] != table[m])
    && forall n :: n in table ==> table[n].Valid() && table[n].Contents() == store[n]
  }

  method Apply<V(==,!new)>(table: map<nat, NocaseDict<V>>, ghost store: Store<V>, op: Op<V>)
    returns (table': map<nat, NocaseDict<V>>, reply: Reply<V>)
    requires Tracks(table, store)
    modifies table.Values
    ensures Tracks(table', Step(store, op).0) && reply == Step(store, op).1
    ensures fresh(table'.Values - table.Values)
  {
    hide Tracks, Step;
    if op.New? || op.Copy? {
      table', reply := ApplyNew(table, store, op);
    } else {
      table' := table;
      reply := ApplyOld(table, store, op);
    }
  }

  method ApplyNew<V(==,!new)>(table: map<nat, NocaseDict<V>>, ghost store: Store<V>, op: Op<V>)
    returns (table': map<nat, NocaseDict<V>>, reply: Reply<V>)
    requires Tracks(table, store) && (op.New? || op.Copy?)
    ensures Tracks(table', Step(store, op).0) && reply == Step(store, op).1
    ensures fresh(table'.Values - table.Values)
  {
    hide NocaseDict.Valid, NocaseDict.Contents, Sorted, Model;
    table', reply := table, NotAnOperation;
    if op.n !in table {
      if op.New? {
        var d := new NocaseDict<V>();
        table', reply := table[op.n := d], Status(Ok(()));
      } else if op.source in table {
        var d := table[op.source].Copy();
        table', reply := table[op.n := d], Status(Ok(()));
      }
    }
  }

  method ApplyOld<V(==,!new)>(table: map<nat, NocaseDict<V>>, ghost store: Store<V>, op: Op<V>)
    returns (reply: Reply<V>)
    requires Tracks(table, store) && (op.On? || op.Update? || op.Compare?)
    modifies table.Values
    ensures Tracks(table, Step(store, op).0) && reply == Step(store, op).1
  {
    hide NocaseDict.Valid, NocaseDict.Contents, Sorted, Model, Act, Merge, PutAll;
    reply := NotAnOperation;
    if op.n in table {
      if op.On? {
        reply := ActOn(table[op.n], op.a);
      } else if op.other in table {
        if op.Update? {
          var r := table[op.n].Update(table[op.other]);
          reply := Status(r);
        } else {
          var e := table[op.n].Eq(table[op.other]);
          reply := Flag(Ok(e));
        }
      }
    }
  }

  lemma NothingYet<V(!new)>()
    ensures Tracks<V>(map[], map[])
  {
  }

  /** Every listing is the sorted listing of the abstract dictionary; by ListingUnique there is only one. */
  ghost predicate ListsAll<V>(listings: map<nat, seq<Entry<V>>>, store: Store<V>) {
    listings.Keys == store.Keys && forall n :: n in store ==> Lists(listings[n], store[n])
  }

  ghost predicate Lists<V>(listing: seq<Entry<V>>, m: map<string, Entry<V>>) {
    Sorted(listing) && Model(listing) == m
  }

  lemma KeysTracked<V(!new)>(table: map<nat, NocaseDict<V>>, store: Store<V>)
    requires Tracks(table, store)
    ensures table.Keys == store.Keys
  {
  }

  lemma TrackedAt<V(!new)>(table: map<nat, NocaseDict<V>>, store: Store<V>, n: nat)
    requires Tracks(table, store) && n in table
    ensures n in store && table[n].Valid() && table[n].Contents() == store[n]
  {
  }

  method ListAll<V(==,!new)>(table: map<nat, NocaseDict<V>>, ghost store: Store<V>)
    returns (listings: map<nat, seq<Entry<V>>>)
    requires Tracks(table, store)
    ensures ListsAll(listings, store)
  {
    hide Sorted, Model, NocaseDict.Valid, NocaseDict.Contents, Tracks;
    KeysTracked(table, store);
    listings := map[];
    var names := table.Keys;
    while names != {}
      invariant names <= table.Keys && listings.Keys == table.Keys - names
      invariant forall n :: n in listings ==> Lists(listings[n], store[n])
      decreases |names|
    {
      var n :| n in names;
      TrackedAt(table, store, n);
      var items := table[n].Items();
      assert Lists(items, store[n]);
      listings, names := listings[n := items], names - {n};
    }
  }

  /** Whatever is stored, removed, read, copied and updated, in any order and on any number of dictionaries that are
      copies of and updates from each other, the dictionaries answer and end as maps do. */
  method Replay<V(==,!new)>(ops: seq<Op<V>>) returns (replies: seq<Reply<V>>, listings: map<nat, seq<Entry<V>>>)
    ensures replies == Run(ops).1 && ListsAll(listings, Run(ops).0)
  {
    hide Sorted, Model, Step, Tracks, ListsAll;
    NothingYet<V>();
    var table: map<nat, NocaseDict<V>> := map[];
    replies := [];
    for i := 0 to |ops|
      invariant fresh(table.Values) && Tracks(table, Run(ops[..i]).0) && replies == Run(ops[..i]).1
    {
      assert ops[..i + 1][..i] == ops[..i];
      var reply;
      table, reply := Apply(table, Run(ops[..i]).0, ops[i]);
      replies := replies + [reply];
    }
    assert ops[..|ops|] == ops;
    listings := ListAll(table, Run(ops).0);
  }

  ghost predicate HasKeyAt<V>(ops: seq<Op<V>>, j: nat, n: nat, k: string)
    requires j <= |ops|
  {
    var store := Run(ops[..j]).0;
    n in store && k in store[n]
  }

  /** The key keeps its first spelling for as long as it stays in the dictionary. */
  lemma {:induction false} SpellingOfFirstInsertion<V>(ops: seq<Op<V>>, i: nat, n: nat, k: string)
    requires i <= |ops| && forall j :: i <= j <= |ops| ==> HasKeyAt(ops, j, n, k)
    ensures HasKeyAt(ops, i, n, k) && HasKeyAt(ops, |ops|, n, k)
    ensures Run(ops[..|ops|]).0[n][k].key == Run(ops[..i]).0[n][k].key
    decreases |ops|
  {
    hide Run, Step;
    if i < |ops| {
      var last := |ops| - 1;
      var init := ops[..last];
      assert init[..i] == ops[..i] && init[..last] == init == ops[..last];
      forall j | i <= j <= last ensures HasKeyAt(init, j, n, k) {
        assert init[..j] == ops[..j];
        assert HasKeyAt(ops, j, n, k);
      }
      SpellingOfFirstInsertion(init, i, n, k);
      assert HasKeyAt(ops, |ops|, n, k) && HasKeyAt(ops, last, n, k);
      RunStep(ops);
      StepKeepsSpelling(Run(init).0, ops[last], n, k);
    }
  }

  lemma RunStep<V>(ops: seq<Op<V>>)
    requires ops != []
    ensures Run(ops[..|ops|]).0 == Step(Run(ops[..|ops| - 1]).0, ops[|ops| - 1]).0
  {
    hide Step;
    assert ops[..|ops|] == ops;
  }

  lemma StepKeepsSpelling<V>(store: Store<V>, op: Op<V>, n: nat, k: string)
    requires n in store && k in store[n] && n in Step(store, op).0 && k in Step(store, op).0[n]
    ensures Step(store, op).0[n][k].key == store[n][k].key
  {
    if op.On? && op.a.UpdateFromDict? {
      PutAllKeepsSpelling(store[n], StringKeyed(op.a.items), k);
    }
  }

  lemma {:induction false} PutAllKeepsSpelling<V>(m: map<string, Entry<V>>, es: seq<Entry<V>>, k: string)
    requires k in m
    ensures k in PutAll(m, es) && PutAll(m, es)[k].key == m[k].key
  {
    if es != [] {
      PutAllKeepsSpelling(m, es[..|es| - 1], k);
    }
  }
}
