/** CIMXMLClient::matchPattern: the name in a certificate, which may hold wildcards, against the name of the host
    connected to (section 3.1 of RFC 2818). */
module HostPattern {
  import opened Text

  const NUL: char := 0 as char

  /** String::operator[], which gives the terminating NUL at the length and nothing beyond. */
  function At(s: string, i: nat): char
    requires i <= |s|
  {
    if i < |s| then s[i] else NUL
  }

  // ---------------------------------------------------------------- what a pattern stands for

  function AfterStars(pattern: string): (rest: string)
    ensures |rest| <= |pattern|
    ensures pattern != "" && pattern[0] == '*' ==> |rest| < |pattern|
    ensures rest != "" ==> rest[0] != '*'
  {
    if pattern != "" && pattern[0] == '*' then AfterStars(pattern[1..]) else pattern
  }

  /** The host comes from the pattern by putting a string without dots for each run of asterisks. */
  ghost predicate Expands(pattern: string, host: string)
    decreases |pattern|
  {
    if pattern == "" then host == ""
    else if pattern[0] == '*' then
      exists d :: 0 <= d <= |host| && '.' !in host[..d] && Expands(AfterStars(pattern), host[d..])
    else host != "" && host[0] == pattern[0] && Expands(pattern[1..], host[1..])
  }

  /** Every run of asterisks is followed by a dot. */
  predicate Dotted(pattern: string)
    decreases |pattern|
  {
    if pattern == "" then true
    else if pattern[0] == '*' then
      var rest := AfterStars(pattern);
      rest != "" && rest[0] == '.' && Dotted(rest[1..])
    else Dotted(pattern[1..])
  }

  // ---------------------------------------------------------------- the matcher

  /** What the loop computes from positions p and n on, as a function of what is left. */
  predicate Accepts(pattern: string, host: string)
    decreases |pattern|
  {
    if host == "" then true
    else if pattern == "" then false
    else if pattern[0] == '*' then
      var p, h := AfterStars(pattern), host[Find(host, '.')..];
      p != "" && h != "" && p[0] == h[0] && Accepts(p[1..], h[1..])
    else pattern[0] == host[0] && Accepts(pattern[1..], host[1..])
  }

  /** The same in positions: the answer when the loop is at p and n. */
  predicate AcceptsAt(pattern: string, host: string, p: nat, n: nat)
    requires p <= |pattern| && n <= |host|
  {
    Accepts(pattern[p..], host[n..])
  }

  method SkipStars(pattern: string, start: nat) returns (p: nat)
    requires start <= |pattern|
    ensures start <= p <= |pattern| && pattern[p..] == AfterStars(pattern[start..])
    ensures start < |pattern| && pattern[start] == '*' ==> start < p
  {
    hide AfterStars;
    p := start;
    while At(pattern, p) == '*' && p < |pattern|
      invariant start <= p <= |pattern| && AfterStars(pattern[p..]) == AfterStars(pattern[start..])
      invariant start < |pattern| && pattern[start] == '*' ==> start < p || pattern[p] == '*'
    {
      StarsStep(pattern, p);
      p := p + 1;
    }
    StarsStep(pattern, p);
  }

  lemma StarsStep(pattern: string, p: nat)
    requires p <= |pattern|
    ensures AfterStars(pattern[p..])
         == if p < |pattern| && pattern[p] == '*' then AfterStars(pattern[p + 1..]) else pattern[p..]
  {
  }

  method SkipName(host: string, start: nat) returns (n: nat)
    requires start <= |host|
    ensures start <= n <= |host| && n == start + Find(host[start..], '.')
  {
    n := start;
    while At(host, n) != '.' && n < |host|
      invariant start <= n <= |host| && forall k :: start <= k < n ==> host[k] != '.'
      decreases |host| - n
    {
      n := n + 1;
    }
    FindIs(host[start..], '.', n - start);
  }

  /** The body of the loop: the positions compared, and whether they hold the same character. */
  method Compare(pattern: string, host: string, p0: nat, n0: nat) returns (p: nat, n: nat, same: bool)
    requires p0 < |pattern| && n0 < |host|
    ensures p0 <= p <= |pattern| && n <= |host|
    ensures same ==> p < |pattern| || n == |host|
    ensures AcceptsAt(pattern, host, p0, n0)
        <==> same && p < |pattern| && n < |host| && AcceptsAt(pattern, host, p + 1, n + 1)
  {
    hide AcceptsAt, AfterStars, Find, At;
    p, n := p0, n0;
    AtIs(pattern, p);
    if At(pattern, p) == '*' {
      p := SkipStars(pattern, p);
      n := SkipName(host, n);
    }
    same := At(pattern, p) == At(host, n);
    Turn(pattern, host, p0, n0, p, n);
    SameAt(pattern, host, p0, n0, p, n);
  }

  /** matchPattern(); the index into the host may step past its end, and then the answer is no. */
  method MatchPattern(pattern: string, str: string) returns (accepted: bool)
    ensures accepted == Accepts(Lower(pattern), Lower(str))
  {
    var lPattern, lStr := Lower(pattern), Lower(str);
    FromTheStart(lPattern, lStr);
    hide AcceptsAt, Lower;
    ghost var goal := AcceptsAt(lPattern, lStr, 0, 0);
    var p: nat, n: nat := 0, 0;
    while p < |lPattern| && n < |lStr|
      invariant (p <= |lPattern| && n <= |lStr| && AcceptsAt(lPattern, lStr, p, n) == goal)
             || (n == |lStr| + 1 && !goal)
      decreases |lPattern| - p
    {
      var same;
      p, n, same := Compare(lPattern, lStr, p, n);
      if !same {
        return false;
      }
      p, n := p + 1, n + 1;
    }
    if p <= |lPattern| && n <= |lStr| {
      Ends(lPattern, lStr, p, n);
    }
    accepted := n == |lStr|;
  }

  lemma FromTheStart(pattern: string, host: string)
    ensures AcceptsAt(pattern, host, 0, 0) == Accepts(pattern, host)
  {
  }

  lemma AtIs(s: string, i: nat)
    requires i < |s|
    ensures At(s, i) == s[i]
  {
  }

  /** In range the characters are compared. At the end of the pattern the host is at a dot or at its end, so a NUL in
      either text is not mistaken for the end of the other. */
  lemma SameAt(pattern: string, host: string, p0: nat, n0: nat, p: nat, n: nat)
    requires p0 < |pattern| && n0 < |host| && p <= |pattern| && n <= |host|
    requires if pattern[p0] == '*' then n == n0 + Find(host[n0..], '.') else p == p0 && n == n0
    ensures p < |pattern| && n < |host| ==> (At(pattern, p) == At(host, n) <==> pattern[p] == host[n])
    ensures p == |pattern| && n < |host| ==> At(pattern, p) != At(host, n)
  {
  }

  /** When either is used up, only the host counts. */
  lemma Ends(pattern: string, host: string, p: nat, n: nat)
    requires p <= |pattern| && n <= |host| && (p == |pattern| || n == |host|)
    ensures AcceptsAt(pattern, host, p, n) <==> n == |host|
  {
  }

  /** One turn of the loop: p and n are the positions it goes to before it compares. */
  lemma {:induction false} Turn(pattern: string, host: string, p0: nat, n0: nat, p: nat, n: nat)
    requires p0 < |pattern| && n0 < |host| && p <= |pattern| && n <= |host|
    requires if pattern[p0] == '*' then pattern[p..] == AfterStars(pattern[p0..]) && n == n0 + Find(host[n0..], '.')
             else p == p0 && n == n0
    ensures AcceptsAt(pattern, host, p0, n0)
         <==> p < |pattern| && n < |host| && pattern[p] == host[n] && AcceptsAt(pattern, host, p + 1, n + 1)
  {
    hide Find, AfterStars;
    OneTurn(pattern[p0..], host[n0..]);
    Suffixes(host, n0, n);
    if p < |pattern| {
      Suffixes(pattern, p, p);
    }
    hide Accepts;
  }

  lemma {:induction false} OneTurn(pattern: string, host: string)
    requires pattern != "" && host != ""
    ensures var star := pattern[0] == '*';
            var p, h := if star then AfterStars(pattern) else pattern, if star then host[Find(host, '.')..] else host;
            Accepts(pattern, host) <==> p != "" && h != "" && p[0] == h[0] && Accepts(p[1..], h[1..])
  {
    hide Find, AfterStars;
  }

  lemma Suffixes(s: string, i: nat, j: nat)
    requires i <= j <= |s|
    ensures s[i..][j - i..] == s[j..]
    ensures j < |s| ==> s[j..] != "" && s[j..][0] == s[j] && s[j..][1..] == s[j + 1..]
  {
  }

  // ---------------------------------------------------------------- exactly what is accepted

  /** With every run followed by a dot, a run can only stand for the text up to the next dot. */
  lemma {:induction false} DottedIsAccepted(pattern: string, host: string)
    requires Dotted(pattern) && Expands(pattern, host)
    ensures Accepts(pattern, host)
    decreases |pattern|
  {
    if host != "" && pattern != "" {
      if pattern[0] == '*' {
        var rest := AfterStars(pattern);
        var d :| 0 <= d <= |host| && '.' !in host[..d] && Expands(rest, host[d..]);
        FindIs(host, '.', d);
        DottedIsAccepted(rest[1..], host[d..][1..]);
      } else {
        DottedIsAccepted(pattern[1..], host[1..]);
      }
    }
  }

  lemma {:induction false} StarsThenMore(a: string, b: string)
    requires AfterStars(a) != ""
    ensures AfterStars(a + b) == AfterStars(a) + b
  {
    if a[0] == '*' {
      StarsThenMore(a[1..], b);
      assert (a + b)[1..] == a[1..] + b;
    }
  }

  lemma {:induction false} LongerPattern(a: string, b: string, host: string)
    requires Accepts(a, host)
    ensures Accepts(a + b, host)
    decreases |a|
  {
    if host != "" {
      if a[0] == '*' {
        var rest := AfterStars(a);
        StarsThenMore(a, b);
        assert (rest + b)[1..] == rest[1..] + b;
        LongerPattern(rest[1..], b, host[Find(host, '.')..][1..]);
      } else {
        assert (a + b)[1..] == a[1..] + b;
        LongerPattern(a[1..], b, host[1..]);
      }
    }
  }

  lemma {:induction false} StarsInPrefix(pattern: string, k: nat)
    requires |pattern| - |AfterStars(pattern)| < k <= |pattern|
    ensures AfterStars(pattern[..k]) == AfterStars(pattern)[..k - (|pattern| - |AfterStars(pattern)|)]
  {
    if pattern[0] == '*' {
      StarsInPrefix(pattern[1..], k - 1);
      assert pattern[..k][1..] == pattern[1..][..k - 1];
    }
  }

  /** The prefix of the pattern an accepted host comes from. */
  lemma {:induction false} PrefixOfAccepted(pattern: string, host: string) returns (k: nat)
    requires Accepts(pattern, host)
    ensures k <= |pattern| && Dotted(pattern[..k]) && Expands(pattern[..k], host)
    decreases |pattern|
  {
    if host == "" {
      k := 0;
    } else if pattern[0] == '*' {
      var rest := AfterStars(pattern);
      var d := Find(host, '.');
      var l := PrefixOfAccepted(rest[1..], host[d..][1..]);
      k := |pattern| - |rest| + 1 + l;
      StarsInPrefix(pattern, k);
      assert rest[..1 + l][1..] == rest[1..][..l];
      StarExpands(pattern[..k], host, d);
    } else {
      var l := PrefixOfAccepted(pattern[1..], host[1..]);
      k := l + 1;
      assert pattern[..k][1..] == pattern[1..][..l];
    }
  }

  lemma StarExpands(pattern: string, host: string, d: nat)
    requires pattern != "" && pattern[0] == '*' && d <= |host| && '.' !in host[..d]
    requires Expands(AfterStars(pattern), host[d..])
    ensures Expands(pattern, host)
  {
  }

  /** The main result, for every pattern and host in lower case: a host is accepted exactly when it comes from some
      prefix of the pattern in which every run of asterisks is followed by a dot. */
  lemma AcceptsExactly(pattern: string, host: string)
    ensures Accepts(pattern, host)
        <==> exists k :: 0 <= k <= |pattern| && Dotted(pattern[..k]) && Expands(pattern[..k], host)
  {
    if Accepts(pattern, host) {
      var k := PrefixOfAccepted(pattern, host);
    }
    if k :| 0 <= k <= |pattern| && Dotted(pattern[..k]) && Expands(pattern[..k], host) {
      DottedIsAccepted(pattern[..k], host);
      LongerPattern(pattern[..k], pattern[k..], host);
      assert pattern[..k] + pattern[k..] == pattern;
    }
  }

  // ---------------------------------------------------------------- when the answer is right

  function Dots(s: string): nat {
    if s == "" then 0 else (if s[0] == '.' then 1 else 0) + Dots(s[1..])
  }

  /** The length of the text behind the last dot, or of all of it. */
  function LastLength(s: string): nat {
    if Dots(s) == 0 then |s| else LastLength(s[1..])
  }

  /** The pattern without the asterisks it ends in. */
  function Core(pattern: string): string {
    if AfterStars(pattern) == "" then "" else [pattern[0]] + Core(pattern[1..])
  }

  predicate SameShape(a: string, b: string) {
    Dots(a) == Dots(b) && LastLength(a) == LastLength(b)
  }

  lemma {:induction false} NoDots(s: string)
    ensures Dots(s) == 0 <==> '.' !in s
  {
    if s != "" {
      NoDots(s[1..]);
      assert '.' in s <==> s[0] == '.' || '.' in s[1..];
    }
  }

  lemma {:induction false} ShapeBehindName(name: string, s: string)
    requires '.' !in name && Dots(s) > 0
    ensures Dots(name + s) == Dots(s) && LastLength(name + s) == LastLength(s)
  {
    if name == "" {
      assert name + s == s;
    } else {
      ShapeBehindName(name[1..], s);
      assert (name + s)[1..] == name[1..] + s;
    }
  }

  lemma ShapeOfCons(c: char, s: string)
    ensures Dots([c] + s) == (if c == '.' then 1 else 0) + Dots(s)
    ensures LastLength([c] + s) == if c != '.' && Dots(s) == 0 then 1 + LastLength(s) else LastLength(s)
  {
    assert ([c] + s)[1..] == s;
  }

  lemma SameShapeOfCons(c: char, a: string, b: string)
    ensures SameShape([c] + a, [c] + b) <==> SameShape(a, b)
  {
    hide Dots, LastLength;
    ShapeOfCons(c, a);
    ShapeOfCons(c, b);
  }

  lemma {:induction false} OnlyStars(pattern: string)
    ensures Expands(pattern, "") <==> AfterStars(pattern) == ""
  {
    if pattern != "" && pattern[0] == '*' {
      var rest := AfterStars(pattern);
      assert ""[0..] == "" && '.' !in ""[..0];
      StarsAreOver(pattern);
      if rest != "" {
        assert !Expands(rest, "");
      }
    }
  }

  lemma {:induction false} StarsAreOver(pattern: string)
    ensures AfterStars(AfterStars(pattern)) == AfterStars(pattern)
  {
    if pattern != "" && pattern[0] == '*' {
      StarsAreOver(pattern[1..]);
    }
  }

  /** A run with a dot behind it stands for the text up to the next dot, whichever way the host is read. */
  lemma {:induction false} StarIsForced(pattern: string, host: string)
    requires pattern != "" && pattern[0] == '*' && host != ""
    requires var rest := AfterStars(pattern); rest != "" && rest[0] == '.'
    requires '.' in host
    ensures Expands(pattern, host) <==> Expands(AfterStars(pattern)[1..], host[Find(host, '.') + 1..])
  {
    var rest, n := AfterStars(pattern), Find(host, '.');
    assert host[n..][1..] == host[n + 1..];
    assert Expands(rest, host[n..]) <==> Expands(rest[1..], host[n + 1..]);
    if d :| 0 <= d <= |host| && '.' !in host[..d] && Expands(rest, host[d..]) {
      FindIs(host, '.', d);
    }
    if Expands(rest, host[n..]) {
      assert '.' !in host[..n];
    }
  }

  lemma {:induction false} CoreBehindStars(pattern: string) returns (stars: string)
    requires AfterStars(pattern) != ""
    ensures '.' !in stars && Core(pattern) == stars + Core(AfterStars(pattern))
  {
    var rest := Core(AfterStars(pattern));
    if pattern[0] == '*' {
      var more := CoreBehindStars(pattern[1..]);
      hide Core, AfterStars;
      stars := ['*'] + more;
      assert ['*'] + (more + rest) == stars + rest;
    } else {
      hide Core, AfterStars;
      stars := "";
      assert "" + rest == rest;
    }
  }

  lemma CoreOfCons(pattern: string)
    requires pattern != "" && pattern[0] != '*'
    ensures Core(pattern) == [pattern[0]] + Core(pattern[1..])
  {
  }

  lemma SameShapeBehindNames(a: string, p: string, b: string, h: string)
    requires '.' !in a && '.' !in b
    ensures SameShape(a + (['.'] + p), b + (['.'] + h)) <==> SameShape(p, h)
  {
    hide Dots, LastLength;
    ShapeOfCons('.', p);
    ShapeOfCons('.', h);
    ShapeBehindName(a, ['.'] + p);
    ShapeBehindName(b, ['.'] + h);
  }

  lemma SplitAt(s: string, n: nat)
    requires n < |s|
    ensures s == s[..n] + ([s[n]] + s[n + 1..])
  {
  }

  lemma ShapeBehindRun(pattern: string, host: string)
    requires var rest := AfterStars(pattern); rest != "" && rest[0] == '.'
    requires '.' in host
    ensures SameShape(Core(pattern), host)
        <==> SameShape(Core(AfterStars(pattern)[1..]), host[Find(host, '.') + 1..])
  {
    hide SameShape, Core, AfterStars, Find;
    var rest, n := AfterStars(pattern), Find(host, '.');
    var stars := CoreBehindStars(pattern);
    CoreOfCons(rest);
    SplitAt(host, n);
    SameShapeBehindNames(stars, Core(rest[1..]), host[..n], host[n + 1..]);
  }

  /** An acceptance is right, the whole pattern stands for the host, exactly if, without the asterisks the pattern ends
      in, the two have as many dots and as many characters behind the last one. */
  lemma {:induction false} AcceptedIsRightIff(pattern: string, host: string)
    requires Accepts(pattern, host)
    ensures Expands(pattern, host) <==> SameShape(Core(pattern), host)
    decreases |pattern|
  {
    hide Dots, LastLength, SameShape;
    if host == "" {
      OnlyStars(pattern);
      EmptyShape(pattern);
    } else if pattern[0] == '*' {
      var rest, n := AfterStars(pattern), Find(host, '.');
      assert host[n..][1..] == host[n + 1..];
      StarIsForced(pattern, host);
      ShapeBehindRun(pattern, host);
      AcceptedIsRightIff(rest[1..], host[n + 1..]);
    } else {
      AcceptedIsRightIff(pattern[1..], host[1..]);
      SameShapeOfCons(pattern[0], Core(pattern[1..]), host[1..]);
      assert host == [host[0]] + host[1..];
    }
  }

  lemma EmptyShape(pattern: string)
    ensures SameShape(Core(pattern), "") <==> AfterStars(pattern) == ""
  {
    if AfterStars(pattern) != "" {
      NoDots(Core(pattern));
    }
  }

  lemma {:induction false} DottedIsCore(pattern: string)
    requires Dotted(pattern)
    ensures Core(pattern) == pattern
    decreases |pattern|
  {
    if pattern != "" {
      if pattern[0] == '*' {
        DottedBehindStar(pattern);
      }
      DottedIsCore(pattern[1..]);
    }
  }

  lemma DottedBehindStar(pattern: string)
    requires Dotted(pattern) && pattern != "" && pattern[0] == '*'
    ensures AfterStars(pattern) != "" && Dotted(pattern[1..])
  {
    if pattern[1] != '*' {
      assert AfterStars(pattern) == pattern[1..];
    }
  }

  /** For patterns in which every run has a dot behind it: what the pattern stands for is what is accepted, has as many
      dots as the pattern and as many characters behind the last one. */
  lemma RightForDotted(pattern: string, host: string)
    requires Dotted(pattern)
    ensures Expands(pattern, host) <==> Accepts(pattern, host) && SameShape(pattern, host)
  {
    hide Accepts, Expands, SameShape, Dotted, Core;
    DottedIsCore(pattern);
    if Expands(pattern, host) {
      DottedIsAccepted(pattern, host);
    }
    if Accepts(pattern, host) {
      AcceptedIsRightIff(pattern, host);
    }
  }

  /** The pattern with every run left out. */
  function Bare(pattern: string): string {
    if pattern == "" then ""
    else if pattern[0] == '*' then Bare(pattern[1..])
    else [pattern[0]] + Bare(pattern[1..])
  }

  lemma {:induction false} BareBehindStars(pattern: string)
    ensures Bare(pattern) == Bare(AfterStars(pattern))
  {
    if pattern != "" && pattern[0] == '*' {
      BareBehindStars(pattern[1..]);
    }
  }

  lemma {:induction false} BareExpands(pattern: string)
    ensures Expands(pattern, Bare(pattern))
    decreases |pattern|
  {
    if pattern != "" {
      if pattern[0] == '*' {
        var rest := AfterStars(pattern);
        BareBehindStars(pattern);
        BareExpands(rest);
        assert Bare(pattern)[0..] == Bare(pattern);
        StarExpands(pattern, Bare(pattern), 0);
      } else {
        BareExpands(pattern[1..]);
      }
    }
  }

  /** A host that is turned down although the pattern stands for it: one character for the first run without a dot
      behind it. */
  lemma {:induction false} TurnedDown(pattern: string) returns (host: string)
    requires !Dotted(pattern)
    ensures Expands(pattern, host) && !Accepts(pattern, host)
    decreases |pattern|
  {
    if pattern[0] == '*' {
      var rest := AfterStars(pattern);
      if rest != "" && rest[0] == '.' {
        var h := TurnedDown(rest[1..]);
        host := "." + h;
        assert host[0..] == host && host[0..][1..] == h;
        FindIs(host, '.', 0);
        StarExpands(pattern, host, 0);
      } else {
        host := "x" + Bare(rest);
        BareExpands(rest);
        assert host[1..] == Bare(rest);
        StarExpands(pattern, host, 1);
      }
    } else {
      var h := TurnedDown(pattern[1..]);
      host := [pattern[0]] + h;
      assert host[1..] == h;
    }
  }

  /** A pattern never turns down a host it stands for exactly if every run of it has a dot behind it. */
  lemma NeverTurnsDownIff(pattern: string)
    ensures (forall host :: Expands(pattern, host) ==> Accepts(pattern, host)) <==> Dotted(pattern)
  {
    hide Expands, Accepts, Dotted;
    if Dotted(pattern) {
      forall host | Expands(pattern, host) ensures Accepts(pattern, host) {
        DottedIsAccepted(pattern, host);
      }
    } else {
      var host := TurnedDown(pattern);
    }
  }

  /** Without asterisks a pattern stands for itself and accepts its prefixes. */
  lemma {:induction false} LiteralPattern(pattern: string, host: string)
    requires '*' !in pattern
    ensures Expands(pattern, host) <==> host == pattern
    ensures Accepts(pattern, host) <==> host <= pattern
    decreases |pattern|
  {
    if pattern != "" && host != "" {
      LiteralPattern(pattern[1..], host[1..]);
      assert pattern == [pattern[0]] + pattern[1..] && host == [host[0]] + host[1..];
    }
  }

  /** The answer does not depend on the case of letters, in the pattern or in the host. */
  lemma AnyCase(pattern: string, pattern': string, host: string, host': string)
    requires SameButCase(pattern, pattern') && SameButCase(host, host')
    ensures Accepts(Lower(pattern), Lower(host)) == Accepts(Lower(pattern'), Lower(host'))
    ensures '*' !in pattern && SameButCase(pattern, host) ==> Accepts(Lower(pattern), Lower(host))
  {
    LowerFoldsCase(pattern, pattern');
    LowerFoldsCase(host, host');
    LowerFoldsCase(pattern, host);
    if '*' !in pattern {
      assert forall i :: 0 <= i < |pattern| ==> pattern[i] != '*' && LowerChar(pattern[i]) != '*';
      LiteralPattern(Lower(pattern), Lower(pattern));
    }
  }

  /** Wrong both ways: a certificate for one host is accepted for another, and a host the pattern stands for is not. */
  lemma WrongAnswers()
    ensures Accepts("example.com.evil.org", "example.com") && !Expands("example.com.evil.org", "example.com")
    ensures !Accepts("w*w", "waw") && Expands("w*w", "waw")
  {
    var pattern, host := "example.com.evil.org", "example.com";
    hide Accepts, Expands;
    LiteralPattern(pattern, host);
    StarInside();
  }

  lemma StarInside()
    ensures !Accepts("w*w", "waw") && Expands("w*w", "waw")
  {
    var host := "aw";
    LiteralPattern("w", host[1..]);
    assert "w*w"[1..] == "*w" && "*w"[1..] == "w" && "waw"[1..] == host;
    assert AfterStars("*w") == "w";
    FindIs(host, '.', 2);
    StarExpands("*w", host, 1);
  }
}
