/** ObjectFactory::makeCIMInstance: an instance from the children of an XML node, repeated elements becoming arrays. */
module WsmanBuilder {
  import opened Text

  /** A child of the instance's XML node: its tag and its text. */
  datatype Node = Node(tag: string, text: string)

  datatype Value = Scalar(text: string) | Array(texts: seq<string>)

  datatype Property = Property(name: string, value: Value)

  datatype Instance = Instance(classname: string, properties: seq<Property>)

  datatype InvalidName = InvalidName(name: string)

  const XMLATTR := "<xmlattr>"

  function OmitNamespace(name: string): string {
    var colon := Find(name, ':');
    if colon < |name| then name[colon + 1..] else name
  }

  // ---------------------------------------------------------------- the elements of a node

  function Named(nodes: seq<Node>): (r: seq<Node>)
    ensures |r| == |nodes|
    ensures forall i :: 0 <= i < |nodes| ==> r[i] == Node(OmitNamespace(nodes[i].tag), nodes[i].text)
  {
    seq(|nodes|, i requires 0 <= i < |nodes| => Node(OmitNamespace(nodes[i].tag), nodes[i].text))
  }

  /** All children but the first one that holds the attributes. */
  function WithoutAttributes(nodes: seq<Node>): seq<Node> {
    if nodes == [] then []
    else if nodes[0].tag == XMLATTR then nodes[1..]
    else [nodes[0]] + WithoutAttributes(nodes[1..])
  }

  function Elements(nodes: seq<Node>): seq<Node> {
    Named(WithoutAttributes(nodes))
  }

  /** A prefix ends at the first colon; a name without a colon has none. */
  lemma PrefixIsOmitted(prefix: string, name: string)
    requires ':' !in prefix
    ensures OmitNamespace(prefix + ":" + name) == name && OmitNamespace(prefix) == prefix
  {
    var tag := prefix + ":" + name;
    assert tag[..|prefix|] == prefix;
    FindIs(tag, ':', |prefix|);
    assert prefix[..|prefix|] == prefix;
    FindIs(prefix, ':', |prefix|);
  }

  /** Only the first child called <xmlattr> is passed over. */
  lemma {:induction false} AttributesAreSkipped(before: seq<Node>, text: string, after: seq<Node>)
    requires forall i :: 0 <= i < |before| ==> before[i].tag != "<xmlattr>"
    ensures WithoutAttributes(before + [Node("<xmlattr>", text)] + after) == before + after
    ensures WithoutAttributes(before) == before
  {
    var nodes := before + [Node("<xmlattr>", text)] + after;
    if before == [] {
      assert nodes[1..] == after;
    } else {
      AttributesAreSkipped(before[1..], text, after);
      assert nodes[0] == before[0] && nodes[1..] == before[1..] + [Node("<xmlattr>", text)] + after;
      assert before == [before[0]] + before[1..];
    }
  }

  function FirstIllegal(es: seq<Node>): (r: Option<string>)
    ensures r == None <==> forall i :: 0 <= i < |es| ==> IsCimName(es[i].tag)
    ensures r.Some? ==> !IsCimName(r.value)
  {
    if es == [] then None
    else if !IsCimName(es[0].tag) then Some(es[0].tag)
    else
      assert forall i :: 1 <= i < |es| ==> es[i] == es[1..][i - 1];
      FirstIllegal(es[1..])
  }

  // ---------------------------------------------------------------- what grouping means

  function Key(e: Node): string {
    Lower(e.tag)
  }

  /** The texts of the elements of that name, in document order. */
  function Values(es: seq<Node>, key: string): seq<string> {
    if es == [] then []
    else
      var n := |es| - 1;
      Values(es[..n], key) + if Key(es[n]) == key then [es[n].text] else []
  }

  /** Position behind the last element of that name; 0 if there is none. */
  function LastAt(es: seq<Node>, key: string): (k: nat)
    ensures k <= |es|
    ensures k > 0 ==> Key(es[k - 1]) == key
    ensures forall i :: k <= i < |es| ==> Key(es[i]) != key
  {
    if es == [] then 0
    else
      var n := |es| - 1;
      if Key(es[n]) == key then |es| else LastAt(es[..n], key)
  }

  function ValueOf(texts: seq<string>): Value
    requires texts != []
  {
    if |texts| == 1 then Scalar(texts[0]) else Array(texts)
  }

  function TextsOf(v: Value): seq<string> {
    if v.Scalar? then [v.text] else v.texts
  }

  /** One group: all values of the name, under the spelling of its last element. */
  predicate IsGroup(p: Property, es: seq<Node>) {
    var key := Lower(p.name);
    var k := LastAt(es, key);
    && k > 0 && p.name == es[k - 1].tag
    && Values(es, key) != [] && p.value == ValueOf(Values(es, key))
  }

  predicate InOrder(ps: seq<Property>, es: seq<Node>) {
    forall i, j :: 0 <= i < j < |ps| ==> LastAt(es, Lower(ps[i].name)) < LastAt(es, Lower(ps[j].name))
  }

  predicate HasKey(ps: seq<Property>, key: string) {
    exists j :: 0 <= j < |ps| && Lower(ps[j].name) == key
  }

  predicate Covers(ps: seq<Property>, es: seq<Node>) {
    forall i :: 0 <= i < |es| ==> HasKey(ps, Key(es[i]))
  }

  /** The specification of the property list: one group for each name, ordered by last occurrence. */
  predicate Grouped(ps: seq<Property>, es: seq<Node>) {
    && (forall i :: 0 <= i < |ps| ==> IsGroup(ps[i], es))
    && InOrder(ps, es)
    && Covers(ps, es)
  }

  function Total(ps: seq<Property>): nat {
    if ps == [] then 0 else Total(ps[..|ps| - 1]) + |TextsOf(ps[|ps| - 1].value)|
  }

  // ---------------------------------------------------------------- one more element

  function IndexOf(ps: seq<Property>, key: string): (i: nat)
    ensures i <= |ps|
    ensures i < |ps| ==> Lower(ps[i].name) == key
    ensures forall k :: 0 <= k < i ==> Lower(ps[k].name) != key
  {
    if ps == [] then 0
    else if Lower(ps[0].name) == key then 0
    else 1 + IndexOf(ps[1..], key)
  }

  function Extended(ps: seq<Property>, e: Node): seq<Property> {
    var i := IndexOf(ps, Key(e));
    if i == |ps| then ps + [Property(e.tag, Scalar(e.text))]
    else ps[..i] + ps[i + 1..] + [Property(e.tag, Array(TextsOf(ps[i].value) + [e.text]))]
  }

  lemma OneMoreElement(es: seq<Node>, e: Node, key: string)
    ensures Values(es + [e], key) == Values(es, key) + if Key(e) == key then [e.text] else []
    ensures LastAt(es + [e], key) == if Key(e) == key then |es| + 1 else LastAt(es, key)
  {
  }

  lemma GroupStays(p: Property, es: seq<Node>, e: Node)
    requires IsGroup(p, es) && Lower(p.name) != Key(e)
    ensures IsGroup(p, es + [e])
  {
  }

  lemma {:induction false} NoValues(es: seq<Node>, key: string)
    requires LastAt(es, key) == 0
    ensures Values(es, key) == []
  {
    if es != [] {
      NoValues(es[..|es| - 1], key);
    }
  }

  lemma InOrderDistinct(ps: seq<Property>, es: seq<Node>, i: nat, j: nat)
    requires InOrder(ps, es) && i < j < |ps|
    ensures Lower(ps[i].name) != Lower(ps[j].name)
  {
  }

  lemma NotStored(ps: seq<Property>, es: seq<Node>, key: string)
    requires Covers(ps, es) && IndexOf(ps, key) == |ps|
    ensures Values(es, key) == []
  {
  }

  lemma TextsOfGroup(p: Property, es: seq<Node>)
    requires IsGroup(p, es)
    ensures TextsOf(p.value) == Values(es, Lower(p.name)) != []
    ensures p.value.Scalar? <==> |Values(es, Lower(p.name))| == 1
  {
  }

  /** What is stored so far under a name. */
  lemma StoredTexts(ps: seq<Property>, es: seq<Node>, key: string)
    requires Grouped(ps, es)
    ensures var i := IndexOf(ps, key);
            if i == |ps| then Values(es, key) == []
            else TextsOf(ps[i].value) == Values(es, key) != []
  {
    hide Lower, InOrder, Values, Covers, IsGroup;
    var i := IndexOf(ps, key);
    if i == |ps| {
      NotStored(ps, es, key);
    } else {
      TextsOfGroup(ps[i], es);
    }
  }

  lemma NewGroup(ps: seq<Property>, es: seq<Node>, e: Node)
    requires Grouped(ps, es)
    ensures var ps' := Extended(ps, e);
            ps' != [] && ps'[|ps'| - 1].name == e.tag && IsGroup(ps'[|ps'| - 1], es + [e])
  {
    hide Lower, Grouped, Values, LastAt;
    OneMoreElement(es, e, Key(e));
    StoredTexts(ps, es, Key(e));
  }

  /** The other groups stay as they are, in their order. */
  lemma OldGroups(ps: seq<Property>, es: seq<Node>, e: Node)
    requires Grouped(ps, es)
    ensures var ps' := Extended(ps, e);
            var n := |ps'| - 1;
            && (forall j :: 0 <= j < n ==> IsGroup(ps'[j], es + [e]) && Lower(ps'[j].name) != Key(e))
            && (forall j, k :: 0 <= j < k < n ==> LastAt(es, Lower(ps'[j].name)) < LastAt(es, Lower(ps'[k].name)))
  {
    hide Lower, IsGroup, Covers, LastAt;
    var i := IndexOf(ps, Key(e));
    var ps' := Extended(ps, e);
    forall j | 0 <= j < |ps'| - 1 ensures IsGroup(ps'[j], es + [e]) && Lower(ps'[j].name) != Key(e) {
      var l := if j < i then j else j + 1;
      assert ps'[j] == ps[l];
      if l > i {
        assert LastAt(es, Lower(ps[i].name)) < LastAt(es, Lower(ps[l].name));
      }
      GroupStays(ps[l], es, e);
    }
  }

  lemma StillInOrder(ps: seq<Property>, es: seq<Node>, e: Node)
    requires Grouped(ps, es)
    ensures InOrder(Extended(ps, e), es + [e])
  {
    hide Lower, IsGroup, Covers, LastAt, Grouped, Extended;
    var ps' := Extended(ps, e);
    var n := |ps'| - 1;
    OldGroups(ps, es, e);
    NewGroup(ps, es, e);
    OneMoreElement(es, e, Key(e));
    forall j, k | 0 <= j < k < |ps'|
      ensures LastAt(es + [e], Lower(ps'[j].name)) < LastAt(es + [e], Lower(ps'[k].name))
    {
      OneMoreElement(es, e, Lower(ps'[j].name));
      OneMoreElement(es, e, Lower(ps'[k].name));
    }
  }

  lemma StillCovers(ps: seq<Property>, es: seq<Node>, e: Node)
    requires Grouped(ps, es)
    ensures Covers(Extended(ps, e), es + [e])
  {
    hide IsGroup, InOrder, LastAt;
    var ps' := Extended(ps, e);
    var es' := es + [e];
    var i := IndexOf(ps, Key(e));
    forall l | 0 <= l < |es'| ensures HasKey(ps', Key(es'[l])) {
      if Key(es'[l]) == Key(e) {
        assert Lower(ps'[|ps'| - 1].name) == Key(es'[l]);
      } else {
        assert es'[l] == es[l];
        assert HasKey(ps, Key(es[l]));
        var j :| 0 <= j < |ps| && Lower(ps[j].name) == Key(es[l]);
        assert Lower(ps'[if j < i then j else j - 1].name) == Key(es'[l]);
      }
    }
  }

  /** One turn of the loop keeps the grouping. */
  lemma StillGrouped(ps: seq<Property>, es: seq<Node>, e: Node)
    requires Grouped(ps, es)
    ensures Grouped(Extended(ps, e), es + [e])
  {
    OldGroups(ps, es, e);
    NewGroup(ps, es, e);
    StillInOrder(ps, es, e);
    StillCovers(ps, es, e);
    hide IsGroup, InOrder, Covers, Extended;
    var ps' := Extended(ps, e);
    forall j | 0 <= j < |ps'| ensures IsGroup(ps'[j], es + [e]) {
      if j < |ps'| - 1 {
        assert IsGroup(ps'[j], es + [e]);
      }
    }
  }

  lemma {:induction false} TotalOfParts(ps: seq<Property>, qs: seq<Property>)
    ensures Total(ps + qs) == Total(ps) + Total(qs)
  {
    hide TextsOf;
    if qs == [] {
      assert ps + qs == ps;
    } else {
      var n := |qs| - 1;
      TotalOfParts(ps, qs[..n]);
      assert (ps + qs)[..|ps| + n] == ps + qs[..n];
    }
  }

  lemma TotalWithout(ps: seq<Property>, i: nat)
    requires i < |ps|
    ensures Total(ps[..i] + ps[i + 1..]) + |TextsOf(ps[i].value)| == Total(ps)
  {
    hide TextsOf;
    TotalOfParts(ps[..i], ps[i + 1..]);
    TotalOfParts(ps[..i + 1], ps[i + 1..]);
    assert ps[..i + 1] + ps[i + 1..] == ps;
    assert ps[..i + 1][..i] == ps[..i];
  }

  lemma TotalGrows(ps: seq<Property>, e: Node)
    ensures Total(Extended(ps, e)) == Total(ps) + 1
  {
    var ps' := Extended(ps, e);
    var i := IndexOf(ps, Key(e));
    if i < |ps| {
      TotalWithout(ps, i);
      assert ps'[..|ps'| - 1] == ps[..i] + ps[i + 1..];
    } else {
      assert ps'[..|ps'| - 1] == ps;
    }
  }

  // ---------------------------------------------------------------- the loop

  lemma NamedInFront(n: Node, nodes: seq<Node>)
    ensures Named([n] + nodes) == [Node(OmitNamespace(n.tag), n.text)] + Named(nodes)
  {
  }

  /** The elements that are left when the next child is looked at. */
  function Left(nodes: seq<Node>, skipped: bool): seq<Node> {
    if skipped then Named(nodes) else Elements(nodes)
  }

  lemma LeftStep(nodes: seq<Node>, i: nat, skipped: bool)
    requires i < |nodes|
    ensures Left(nodes[i..], skipped)
            == if !skipped && nodes[i].tag == XMLATTR then Left(nodes[i + 1..], true)
               else [Node(OmitNamespace(nodes[i].tag), nodes[i].text)] + Left(nodes[i + 1..], skipped)
  {
    hide OmitNamespace;
    assert nodes[i..] == [nodes[i]] + nodes[i + 1..];
    NamedInFront(nodes[i], nodes[i + 1..]);
    NamedInFront(nodes[i], WithoutAttributes(nodes[i + 1..]));
  }

  lemma {:induction false} FirstIllegalAfter(done: seq<Node>, rest: seq<Node>)
    requires FirstIllegal(done) == None
    ensures FirstIllegal(done + rest) == FirstIllegal(rest)
  {
    if done == [] {
      assert done + rest == rest;
    } else {
      FirstIllegalAfter(done[1..], rest);
      assert (done + rest)[1..] == done[1..] + rest;
    }
  }

  /** The name the whole conversion fails on, if it fails. */
  function Failure(classname: string, nodes: seq<Node>): Option<string> {
    if !IsCimName(classname) then Some(classname) else FirstIllegal(Elements(nodes))
  }

  /** Adds a value; a property of that name is taken out and comes back last, as an array. */
  method AddValue(properties: seq<Property>, name: string, text: string) returns (ps: seq<Property>)
    ensures ps == Extended(properties, Node(name, text))
  {
    ps := properties;
    var id := IndexOf(ps, Lower(name));
    var value := Scalar(text);
    if id < |ps| {
      var existing := ps[id].value;
      var texts := if existing.Array? then existing.texts else [existing.text];
      value := Array(texts + [text]);
      ps := ps[..id] + ps[id + 1..];
    }
    ps := ps + [Property(name, value)];
  }

  /** makeCIMInstance() */
  method MakeCIMInstance(classname: string, nodes: seq<Node>) returns (r: Result<Instance, InvalidName>)
    ensures Failure(classname, nodes).Some? ==> r == Err(InvalidName(Failure(classname, nodes).value))
    ensures Failure(classname, nodes).None? ==>
      && r.Ok? && r.value.classname == classname
      && Grouped(r.value.properties, Elements(nodes)) && Total(r.value.properties) == |Elements(nodes)|
  {
    hide Grouped, Left, Elements, IsCimName, FirstIllegal, Extended, Total, OmitNamespace;
    if !IsCimName(classname) {
      return Err(InvalidName(classname));
    }
    var ps: seq<Property> := [];
    var skipped := false;
    ghost var es: seq<Node> := [];
    StartOfLoop(nodes);
    for i := 0 to |nodes|
      invariant Grouped(ps, es) && Total(ps) == |es| && FirstIllegal(es) == None
      invariant Elements(nodes) == es + Left(nodes[i..], skipped)
    {
      LeftStep(nodes, i, skipped);
      if !skipped && nodes[i].tag == XMLATTR {
        skipped := true;
        continue;
      }
      var name := OmitNamespace(nodes[i].tag);
      ghost var e := Node(name, nodes[i].text);
      ElementIsLegal(es, e, Left(nodes[i + 1..], skipped));
      if !IsCimName(name) {
        return Err(InvalidName(name));
      }
      StillGrouped(ps, es, e);
      TotalGrows(ps, e);
      ps := AddValue(ps, name, nodes[i].text);
      es := es + [e];
    }
    EndOfLoop(nodes, es, skipped);
    r := Ok(Instance(classname, ps));
  }

  lemma StartOfLoop(nodes: seq<Node>)
    ensures Grouped([], []) && Total([]) == 0 && FirstIllegal([]) == None
    ensures Elements(nodes) == [] + Left(nodes[0..], false)
  {
  }

  lemma EndOfLoop(nodes: seq<Node>, es: seq<Node>, skipped: bool)
    ensures es + Left(nodes[|nodes|..], skipped) == es
  {
  }

  lemma ElementIsLegal(es: seq<Node>, e: Node, rest: seq<Node>)
    requires FirstIllegal(es) == None
    ensures if IsCimName(e.tag) then FirstIllegal(es + [e]) == None else FirstIllegal(es + ([e] + rest)) == Some(e.tag)
  {
    FirstIllegalAfter(es, [e]);
    FirstIllegalAfter(es, [e] + rest);
  }

  // ---------------------------------------------------------------- what the grouping fixes

  /** Whatever the spelling and prefix, a name is a property exactly when an element has it; then once, with all its
      texts in document order, as a scalar exactly when there is one. */
  lemma EachNameOnce(ps: seq<Property>, es: seq<Node>, key: string)
    requires Grouped(ps, es)
    ensures var i := IndexOf(ps, key);
            && (i < |ps| <==> Values(es, key) != [])
            && (i < |ps| ==>
              && TextsOf(ps[i].value) == Values(es, key)
              && (ps[i].value.Scalar? <==> |Values(es, key)| == 1)
              && forall j :: 0 <= j < |ps| && Lower(ps[j].name) == key ==> j == i)
  {
    hide Lower, Values, Covers, IsGroup, InOrder;
    StoredTexts(ps, es, key);
    var i := IndexOf(ps, key);
    if i < |ps| {
      TextsOfGroup(ps[i], es);
      forall j | i < j < |ps| ensures Lower(ps[j].name) != key {
        InOrderDistinct(ps, es, i, j);
      }
    }
  }

  predicate Increasing(a: seq<nat>) {
    forall i, j :: 0 <= i < j < |a| ==> a[i] < a[j]
  }

  function Members(a: seq<nat>): set<nat> {
    set x | x in a
  }

  /** The last one is the largest. */
  lemma LastMember(a: seq<nat>)
    requires Increasing(a) && a != []
    ensures var m := |a| - 1;
            && Increasing(a[..m]) && Members(a[..m]) == Members(a) - {a[m]}
            && a[m] in Members(a) && forall x :: x in Members(a) ==> x <= a[m]
  {
    var m := |a| - 1;
    forall x ensures x in Members(a[..m]) <==> x in Members(a) && x != a[m] {
      assert a == a[..m] + [a[m]];
    }
  }

  lemma {:induction false} SameIncreasing(a: seq<nat>, b: seq<nat>)
    requires Increasing(a) && Increasing(b) && Members(a) == Members(b)
    ensures a == b
  {
    SomeMember(a);
    SomeMember(b);
    hide Increasing, Members;
    if a != [] {
      var m, n := |a| - 1, |b| - 1;
      LastMember(a);
      LastMember(b);
      SameIncreasing(a[..m], b[..n]);
      assert a == a[..m] + [a[m]] && b == b[..n] + [b[n]];
    }
  }

  lemma SomeMember(a: seq<nat>)
    ensures a == [] <==> Members(a) == {}
  {
    assert a != [] ==> a[0] in Members(a);
  }

  function Lasts(ps: seq<Property>, es: seq<Node>): (r: seq<nat>)
    ensures |r| == |ps| && forall i :: 0 <= i < |ps| ==> r[i] == LastAt(es, Lower(ps[i].name))
  {
    seq(|ps|, i requires 0 <= i < |ps| => LastAt(es, Lower(ps[i].name)))
  }

  lemma LastsCovered(ps: seq<Property>, qs: seq<Property>, es: seq<Node>, k: nat)
    requires Grouped(ps, es) && Grouped(qs, es) && k in Lasts(ps, es)
    ensures k in Lasts(qs, es)
  {
  }

  /** The specification leaves no choice: the elements determine the property list. */
  lemma GroupedIsUnique(ps: seq<Property>, qs: seq<Property>, es: seq<Node>)
    requires Grouped(ps, es) && Grouped(qs, es)
    ensures ps == qs
  {
    var a, b := Lasts(ps, es), Lasts(qs, es);
    assert Increasing(a) && Increasing(b);
    hide Lower, InOrder, Covers, Values, LastAt, IsGroup;
    forall k ensures k in a <==> k in b {
      if k in a {
        LastsCovered(ps, qs, es, k);
      }
      if k in b {
        LastsCovered(qs, ps, es, k);
      }
    }
    SameIncreasing(a, b);
    forall i | 0 <= i < |ps| ensures ps[i] == qs[i] {
      assert a[i] == b[i];
      SameGroup(ps[i], qs[i], es);
    }
  }

  lemma SameGroup(p: Property, q: Property, es: seq<Node>)
    requires IsGroup(p, es) && IsGroup(q, es) && LastAt(es, Lower(p.name)) == LastAt(es, Lower(q.name))
    ensures p == q
  {
  }
}
