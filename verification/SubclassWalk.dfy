/** cim_issubclass: walking up the class hierarchy of a server, one class at a time. */
module SubclassWalk {
  import opened Text

  /** The server: the superclass of each class, under the folded class name; "" for a class without superclass. */
  type Server = map<string, string>

  /** Where the walk is: a class name, and its superclass if that is known without asking. */
  datatype Level = Level(name: string, known: string)

  /** getClass() fails when the server has no such class. */
  datatype NotFound = NotFound(name: string)

  // ---------------------------------------------------------------- the hierarchy

  function Above(server: Server, level: Level): Option<Level> {
    if level.known != "" then Some(Level(level.known, ""))
    else
      var key := Lower(level.name);
      if key in server && server[key] != "" then Some(Level(server[key], "")) else None
  }

  /** The k-th class above the first one. */
  function Ancestor(server: Server, first: Level, k: nat): Option<Level> {
    if k == 0 then Some(first)
    else
      var below := Ancestor(server, first, k - 1);
      if below.None? then None else Above(server, below.value)
  }

  predicate MatchesAt(server: Server, first: Level, k: nat, superclass: string) {
    var a := Ancestor(server, first, k);
    a.Some? && Lower(a.value.name) == Lower(superclass)
  }

  /** The class itself or one of its ancestors is the superclass, whatever the spelling. */
  ghost predicate IsSubclass(server: Server, first: Level, superclass: string) {
    exists k :: MatchesAt(server, first, k, superclass)
  }

  /** The chain ends at a class the server has, and that has no superclass. */
  predicate RootAt(server: Server, first: Level, k: nat) {
    var a := Ancestor(server, first, k);
    a.Some? && a.value.known == "" && Lower(a.value.name) in server && server[Lower(a.value.name)] == ""
  }

  /** The chain ends at a class the server does not have. */
  predicate MissingAt(server: Server, first: Level, k: nat) {
    var a := Ancestor(server, first, k);
    a.Some? && a.value.known == "" && Lower(a.value.name) !in server
  }

  lemma {:induction false} NothingAboveTheEnd(server: Server, first: Level, k: nat, j: nat)
    requires (RootAt(server, first, k) || MissingAt(server, first, k)) && k < j
    ensures Ancestor(server, first, j) == None
  {
    if j > k + 1 {
      NothingAboveTheEnd(server, first, k, j - 1);
    }
  }

  lemma EndIsUnique(server: Server, first: Level, j: nat, k: nat)
    requires RootAt(server, first, j) || MissingAt(server, first, j)
    requires RootAt(server, first, k) || MissingAt(server, first, k)
    ensures j == k
  {
    if j < k {
      NothingAboveTheEnd(server, first, j, k);
    } else if k < j {
      NothingAboveTheEnd(server, first, k, j);
    }
  }

  lemma NothingMissing(server: Server, first: Level, level: nat)
    requires RootAt(server, first, level)
    ensures !exists k: nat :: MissingAt(server, first, k)
  {
    forall k: nat ensures !MissingAt(server, first, k) {
      if MissingAt(server, first, k) {
        EndIsUnique(server, first, level, k);
      }
    }
  }

  // ---------------------------------------------------------------- when the walk ends

  predicate EndsAt(server: Server, first: Level, superclass: string, k: nat) {
    MatchesAt(server, first, k, superclass) || RootAt(server, first, k) || MissingAt(server, first, k)
  }

  /** The walk comes to a class that matches, has no superclass or is not there. */
  ghost predicate Ends(server: Server, first: Level, superclass: string) {
    exists k: nat :: EndsAt(server, first, superclass, k)
  }

  ghost predicate GoesOnAt(server: Server, first: Level, superclass: string, k: nat) {
    && Ancestor(server, first, k).Some? && !MatchesAt(server, first, k, superclass)
    && Above(server, Ancestor(server, first, k).value).Some?
  }

  /** Otherwise it goes on for ever: every class it comes to does not match and has a superclass. */
  lemma EndsOrGoesOn(server: Server, first: Level, superclass: string)
    ensures Ends(server, first, superclass) <==> !forall k: nat :: GoesOnAt(server, first, superclass, k)
  {
    if !Ends(server, first, superclass) {
      forall k: nat ensures GoesOnAt(server, first, superclass, k) {
        GoesOnSoFar(server, first, superclass, k);
      }
    }
    if k: nat :| EndsAt(server, first, superclass, k) {
      assert !GoesOnAt(server, first, superclass, k);
    }
  }

  lemma {:induction false} GoesOnSoFar(server: Server, first: Level, superclass: string, k: nat)
    requires !Ends(server, first, superclass)
    ensures GoesOnAt(server, first, superclass, k)
  {
    assert !EndsAt(server, first, superclass, k);
    if k > 0 {
      GoesOnSoFar(server, first, superclass, k - 1);
    }
  }

  /** The server's hierarchy has no cycle: a rank falls from each class to its superclass. */
  ghost predicate Acyclic(server: Server, rank: map<string, nat>) {
    && server.Keys <= rank.Keys
    && forall key :: key in server && server[key] != "" && Lower(server[key]) in server ==>
         rank[Lower(server[key])] < rank[key]
  }

  /** The walk up from a name comes to a class without superclass or to one that is not there. */
  ghost predicate Stops(server: Server, name: string) {
    exists k: nat :: RootAt(server, Level(name, ""), k) || MissingAt(server, Level(name, ""), k)
  }

  lemma {:induction false} StepDown(server: Server, name: string, k: nat)
    requires Lower(name) in server && server[Lower(name)] != ""
    ensures Ancestor(server, Level(name, ""), k + 1) == Ancestor(server, Level(server[Lower(name)], ""), k)
  {
    hide Lower;
    if k > 0 {
      StepDown(server, name, k - 1);
    }
  }

  lemma {:induction false} AcyclicStops(server: Server, rank: map<string, nat>, name: string) returns (k: nat)
    requires Acyclic(server, rank)
    ensures RootAt(server, Level(name, ""), k) || MissingAt(server, Level(name, ""), k)
    decreases if Lower(name) in server then rank[Lower(name)] + 1 else 0
  {
    hide Lower;
    if Lower(name) !in server || server[Lower(name)] == "" {
      k := 0;
    } else {
      var next := server[Lower(name)];
      var l := AcyclicStops(server, rank, next);
      StepDown(server, name, l);
      k := l + 1;
    }
  }

  /** Every walk to the top of a server ends exactly when the hierarchy has no cycle. */
  lemma AllWalksEndIffAcyclic(server: Server)
    ensures (forall name :: Stops(server, name)) <==> exists rank :: Acyclic(server, rank)
  {
    if forall name :: Stops(server, name) {
      var rank := map key | key in server :: StepsFrom(server, server[key]);
      forall key | key in server && server[key] != "" && Lower(server[key]) in server
        ensures rank[Lower(server[key])] < rank[key] {
        StepsFall(server, server[key]);
      }
      assert Acyclic(server, rank);
    }
    if rank :| Acyclic(server, rank) {
      forall name ensures Stops(server, name) {
        var k := AcyclicStops(server, rank, name);
      }
    }
  }

  /** How far the end is; nothing is left above a class without superclass. */
  ghost function StepsFrom(server: Server, name: string): nat
    requires Stops(server, name)
  {
    if name == "" then 0
    else
      var k: nat :| RootAt(server, Level(name, ""), k) || MissingAt(server, Level(name, ""), k);
      k + 1
  }

  lemma StepsFall(server: Server, name: string)
    requires forall n :: Stops(server, n)
    requires name != "" && Lower(name) in server
    ensures StepsFrom(server, server[Lower(name)]) < StepsFrom(server, name)
  {
    hide Lower;
    var next := server[Lower(name)];
    assert Stops(server, name) && Stops(server, next);
    if next != "" {
      var k: nat :| RootAt(server, Level(next, ""), k) || MissingAt(server, Level(next, ""), k);
      StepDown(server, name, k);
      var k' := k + 1;
      assert RootAt(server, Level(name, ""), k') || MissingAt(server, Level(name, ""), k');
      forall j: nat | RootAt(server, Level(name, ""), j) || MissingAt(server, Level(name, ""), j) ensures j == k + 1 {
        EndIsUnique(server, Level(name, ""), j, k + 1);
      }
      forall j: nat | RootAt(server, Level(next, ""), j) || MissingAt(server, Level(next, ""), j) ensures j == k {
        EndIsUnique(server, Level(next, ""), j, k);
      }
    }
  }

  lemma {:induction false} KnownIsAbove(server: Server, name: string, known: string, k: nat)
    requires known != ""
    ensures Ancestor(server, Level(name, known), k + 1) == Ancestor(server, Level(known, ""), k)
  {
    if k > 0 {
      KnownIsAbove(server, name, known, k - 1);
    }
  }

  /** So the walk from a name or from a class object ends, whatever superclass is asked for. */
  lemma AcyclicWalkEnds(server: Server, rank: map<string, nat>, first: Level, superclass: string)
    requires Acyclic(server, rank)
    ensures Ends(server, first, superclass)
  {
    hide Acyclic;
    if first.known == "" {
      var k := AcyclicStops(server, rank, first.name);
      assert EndsAt(server, first, superclass, k);
    } else {
      var k := AcyclicStops(server, rank, first.known);
      KnownIsAbove(server, first.name, first.known, k);
      assert EndsAt(server, first, superclass, k + 1);
    }
  }

  /** Two classes that are each other's superclass: no third class is found, and the walk goes on for ever. */
  lemma {:induction false} CycleGoesOn(k: nat)
    ensures var server := map["a" := "b", "b" := "a"];
            GoesOnAt(server, Level("a", ""), "c", k)
    ensures Ancestor(map["a" := "b", "b" := "a"], Level("a", ""), k) == Some(Level(if k % 2 == 0 then "a" else "b", ""))
  {
    assert Lower("a") == "a" && Lower("b") == "b" && Lower("c") == "c";
    if k > 0 {
      CycleGoesOn(k - 1);
    }
  }

  // ---------------------------------------------------------------- the loop

  /** One request for each class that was looked beyond, but none for a class object that names its superclass. */
  function Requests(classes: nat, known: string): nat {
    if classes == 0 || known == "" then classes else classes - 1
  }

  /** cim_issubclass(); `known` is getSuperClassname() of a CIMClass argument, "" for a name. Counts the requests. */
  method CimIsSubclass(server: Server, superclass: string, name: string, known: string)
    returns (r: Result<bool, NotFound>, lookups: nat, ghost level: nat)
    requires Ends(server, Level(name, known), superclass)
    ensures r == Ok(true) <==> IsSubclass(server, Level(name, known), superclass)
    ensures r == Ok(false) ==> RootAt(server, Level(name, known), level)
    ensures r.Err? <==>
      !IsSubclass(server, Level(name, known), superclass) && exists k: nat :: MissingAt(server, Level(name, known), k)
    ensures r.Err? ==>
      && MissingAt(server, Level(name, known), level)
      && Ancestor(server, Level(name, known), level).value.name == r.error.name
    ensures r == Ok(true) ==>
      && MatchesAt(server, Level(name, known), level, superclass)
      && forall j :: 0 <= j < level ==> !MatchesAt(server, Level(name, known), j, superclass)
    ensures lookups == Requests(if r == Ok(true) then level else level + 1, known)
  {
    hide Lower;
    ghost var first := Level(name, known);
    ghost var end: nat :| EndsAt(server, first, superclass, end);
    var subclass, subsuperclass := name, known;
    lookups, level := 0, 0;
    while true
      invariant Ancestor(server, first, level) == Some(Level(subclass, subsuperclass))
      invariant forall j :: 0 <= j < level ==> !MatchesAt(server, first, j, superclass)
      invariant lookups == Requests(level, known) && level <= end
      invariant level == 0 ==> subsuperclass == known
      invariant level > 0 ==> subsuperclass == ""
      decreases end - level
    {
      if Lower(subclass) == Lower(superclass) {
        assert MatchesAt(server, first, level, superclass);
        return Ok(true), lookups, level;
      }
      if subsuperclass == "" {
        lookups := lookups + 1;
        if Lower(subclass) !in server {
          NotASubclass(server, first, superclass, level);
          return Err(NotFound(subclass)), lookups, level;
        }
        subsuperclass := server[Lower(subclass)];
      }
      if subsuperclass == "" {
        NotASubclass(server, first, superclass, level);
        NothingMissing(server, first, level);
        return Ok(false), lookups, level;
      }
      subclass := subsuperclass;
      subsuperclass := "";
      level := level + 1;
    }
  }

  lemma NotASubclass(server: Server, first: Level, superclass: string, level: nat)
    requires RootAt(server, first, level) || MissingAt(server, first, level)
    requires forall j :: 0 <= j <= level ==> !MatchesAt(server, first, j, superclass)
    ensures !IsSubclass(server, first, superclass)
  {
    forall j: nat | level < j ensures !MatchesAt(server, first, j, superclass) {
      NothingAboveTheEnd(server, first, level, j);
    }
  }

  // ---------------------------------------------------------------- spelling

  lemma {:induction false} AncestorsOfSpelling(server: Server, name: string, spelling: string, k: nat)
    requires Lower(name) == Lower(spelling) && k > 0
    ensures Ancestor(server, Level(name, ""), k) == Ancestor(server, Level(spelling, ""), k)
  {
    hide Lower;
    if k > 1 {
      AncestorsOfSpelling(server, name, spelling, k - 1);
    }
  }

  /** Names that differ in case only give the same answer, and a class is a subclass of itself in any spelling. */
  lemma AnySpelling(server: Server, name: string, name': string, superclass: string, superclass': string)
    requires SameButCase(name, name') && SameButCase(superclass, superclass')
    ensures IsSubclass(server, Level(name, ""), superclass) <==> IsSubclass(server, Level(name', ""), superclass')
    ensures IsSubclass(server, Level(name, ""), name')
  {
    LowerFoldsCase(name, name');
    LowerFoldsCase(superclass, superclass');
    hide Lower;
    assert MatchesAt(server, Level(name, ""), 0, name');
    forall k: nat
      ensures MatchesAt(server, Level(name, ""), k, superclass) <==> MatchesAt(server, Level(name', ""), k, superclass')
    {
      if k > 0 {
        AncestorsOfSpelling(server, name, name', k);
      }
    }
  }

  // ---------------------------------------------------------------- a class object instead of its name

  /** A CIMClass that says of its superclass what the server says. */
  predicate Agrees(server: Server, name: string, known: string) {
    Lower(name) in server && server[Lower(name)] == known
  }

  lemma {:induction false} SameAncestors(server: Server, name: string, known: string, k: nat)
    requires Agrees(server, name, known) && k > 0
    ensures Ancestor(server, Level(name, known), k) == Ancestor(server, Level(name, ""), k)
  {
    if k > 1 {
      SameAncestors(server, name, known, k - 1);
    }
  }

  /** Passing the object gives the answer passing the name gives. */
  lemma ObjectOrName(server: Server, name: string, known: string, superclass: string)
    requires Agrees(server, name, known)
    ensures IsSubclass(server, Level(name, known), superclass) <==> IsSubclass(server, Level(name, ""), superclass)
    ensures forall k: nat :: RootAt(server, Level(name, known), k) <==> RootAt(server, Level(name, ""), k)
    ensures forall k: nat :: MissingAt(server, Level(name, known), k) <==> MissingAt(server, Level(name, ""), k)
  {
    forall k: nat
      ensures MatchesAt(server, Level(name, known), k, superclass)
          <==> MatchesAt(server, Level(name, ""), k, superclass)
      ensures RootAt(server, Level(name, known), k) <==> RootAt(server, Level(name, ""), k)
      ensures MissingAt(server, Level(name, known), k) <==> MissingAt(server, Level(name, ""), k)
    {
      if k > 0 {
        SameAncestors(server, name, known, k);
      }
    }
  }
}
