/** util/docgen: the scanner automaton with one character of push-back, and the parser it feeds. The reference
    definition is a concrete syntax tree with blanks, comments and escapes; the parser accepts exactly the sources
    of well-formed trees. */
module Docgen {
  import opened Text

  // ---------------------------------------------------------------- characters

  predicate IsAlpha(c: char) {
    'a' <= c <= 'z' || 'A' <= c <= 'Z'
  }

  predicate IsIdentBegin(c: char) {
    IsAlpha(c) || c == '_'
  }

  predicate IsIdentCont(c: char) {
    IsAlpha(c) || IsDigit(c) || c == '_'
  }

  predicate IsWhite(c: char) {
    c == ' ' || c == '\r' || c == '\n'
  }

  predicate IsEscapable(c: char) {
    c == '{' || c == '}' || c == '#' || c == '\\' || c == '"'
  }

  predicate IsSpecial(c: char) {
    c == '{' || c == '}' || c == '\\' || c == '"'
  }

  // ---------------------------------------------------------------- tokens

  datatype Problem = Unexpected(c: char) | UnknownEscape(c: char) | OpenBraceInside | QuotesInside | Unclosed

  datatype Token =
    | Eof
    | Ident(name: string)
    | Equal
    | OpenBrace
    | DocString(text: string)
    | CloseBrace
    | LexError(problem: Problem, line: nat)

  /** Scanner state: text still to be seen, counting a character that was pushed back; text not yet read from the
      file; and whether a doc string is next. */
  datatype At = At(rest: string, unread: string, inside: bool)

  /** A scanner that runs into one of its two endless loops at the end of the file never produces a token. */
  datatype Scanned = Hangs | Scanned(token: Token, at: At)

  function Newlines(s: string): nat {
    if s == "" then 0 else Newlines(s[..|s| - 1]) + if s[|s| - 1] == '\n' then 1 else 0
  }

  /** The line counter when `unread` is what has not been read of the input. */
  function LineAt(input: string, unread: string): nat {
    1 + Newlines(input[..if |unread| <= |input| then |input| - |unread| else 0])
  }

  function DropFirst(s: string): string {
    if s == "" then "" else s[1..]
  }

  function PushedBack(rest: string, inside: bool): At {
    At(rest, DropFirst(rest), inside)
  }

  function IdentLength(s: string): (n: nat)
    ensures n <= |s| && (n < |s| ==> !IsIdentCont(s[n])) && forall i :: 0 <= i < n ==> IsIdentCont(s[i])
  {
    if s != "" && IsIdentCont(s[0]) then
      assert forall i :: 0 <= i < |s[1..]| ==> s[1..][i] == s[i + 1];
      1 + IdentLength(s[1..])
    else 0
  }

  function SkipWhite(s: string): (t: string)
    ensures |t| <= |s| && (t != "" ==> !IsWhite(t[0]))
  {
    if s != "" && IsWhite(s[0]) then SkipWhite(s[1..]) else s
  }

  lemma {:induction false} SkipStep(s: string, k: nat)
    requires k <= |s|
    ensures SkipWhite(s[k..]) == if k < |s| && IsWhite(s[k]) then SkipWhite(s[k + 1..]) else s[k..]
  {
    if k < |s| {
      assert s[k..][0] == s[k] && s[k..][1..] == s[k + 1..];
    }
  }

  function InitToken(input: string, rest: string, line: nat): (r: Scanned)
    ensures r.Scanned? ==> |r.at.rest| <= |rest| && (r.token != Eof ==> |r.at.rest| < |rest|)
    ensures r.Scanned? ==> (r.at.inside <==> r.token == OpenBrace)
    decreases |rest|
  {
    if rest == "" then Scanned(Eof, At("", "", false))
    else
      var c, tail := rest[0], rest[1..];
      if IsIdentBegin(c) then
        var n := IdentLength(tail);
        Scanned(Ident([c] + tail[..n]), PushedBack(tail[n..], false))
      else if c == '#' then
        var newline := Find(tail, '\n');
        if newline == |tail| then Hangs else InitToken(input, tail[newline + 1..], line)
      else if c == '{' then
        var body := SkipWhite(tail);
        if body == "" then Hangs else Scanned(OpenBrace, PushedBack(body, true))
      else if c == '}' then Scanned(CloseBrace, At(tail, tail, false))
      else if c == '=' then Scanned(Equal, At(tail, tail, false))
      else if IsWhite(c) then InitToken(input, tail, line)
      else Scanned(LexError(Unexpected(c), line), At(tail, tail, false))
  }

  function DocToken(input: string, value: string, rest: string, line: nat): (r: Scanned)
    ensures r.Scanned? ==> |r.at.rest| <= |rest| && !r.at.inside
    decreases |rest|
  {
    if rest == "" || rest == "\\" then Scanned(LexError(Unclosed, line), At("", "", false))
    else
      var c, tail := rest[0], rest[1..];
      if c == '\\' then
        var e, behind := tail[0], tail[1..];
        if IsEscapable(e) then DocToken(input, value + [e], behind, line)
        else if e == '\n' then DocToken(input, value, behind, line)
        else Scanned(LexError(UnknownEscape(e), LineAt(input, behind)), At(behind, behind, false))
      else if c == '{' then Scanned(LexError(OpenBraceInside, LineAt(input, tail)), At(tail, tail, false))
      else if c == '}' then Scanned(DocString(value), PushedBack(rest, false))
      else if c == '"' then Scanned(LexError(QuotesInside, LineAt(input, tail)), At(tail, tail, false))
      else DocToken(input, value + [c], tail, line)
  }

  function NextToken(input: string, at: At): Scanned {
    var line := LineAt(input, at.unread);
    if at.inside then DocToken(input, "", at.rest, line) else InitToken(input, at.rest, line)
  }

  datatype State = Init | InIdent | InDoc

  class Scanner {
    const input: string
    var pos: nat
    var unget: Option<Option<char>>   // pushed back: nothing, the end of file, or a character
    var state: State
    var lineno: nat

    ghost predicate Valid()
      reads `pos, `unget, `lineno
    {
      && pos <= |input|
      && lineno == LineAt(input, input[pos..])
      && (unget == Some(None) ==> pos == |input|)
      && (unget.Some? && unget.value.Some? ==> pos > 0 && input[pos - 1] == unget.value.value)
    }

    /** Position of the first character not yet seen. */
    ghost function Start(): (n: nat)
      reads `pos, `unget, `lineno
      requires Valid()
      ensures n <= pos <= |input|
    {
      if unget.Some? && unget.value.Some? then pos - 1 else pos
    }

    ghost function View(): At
      reads this
      requires Valid()
    {
      At(input[Start()..], input[pos..], state == InDoc)
    }

    constructor (text: string)
      ensures Valid() && input == text && state == Init && View() == At(text, text, false)
    {
      input, pos, unget, state, lineno := text, 0, None, Init, 1;
    }

    method GetChar() returns (c: Option<char>)
      requires Valid()
      modifies this`pos, this`unget, this`lineno
      ensures Valid() && unget == None
      ensures c == if old(Start()) < |input| then Some(input[old(Start())]) else None
      ensures pos == if old(Start()) < |input| then old(Start()) + 1 else |input|
    {
      if unget.Some? {
        c := unget.value;
        unget := None;
      } else if pos < |input| {
        c := Some(input[pos]);
        assert input[..pos + 1][..pos] == input[..pos];
        pos := pos + 1;
        if c == Some('\n') {
          lineno := lineno + 1;
        }
      } else {
        c := None;
      }
    }

    method UngetChar(c: Option<char>)
      requires Valid() && unget == None
      requires c == None ==> pos == |input|
      requires c.Some? ==> pos > 0 && input[pos - 1] == c.value
      modifies this`unget
      ensures Valid() && Start() == if c.Some? then pos - 1 else pos
    {
      unget := Some(c);
    }

    /** Skips a comment; fails to return at the end of the file, where reading yields '' for ever. */
    method SkipComment() returns (ended: bool)
      requires Valid() && unget == None
      modifies this`pos, this`unget, this`lineno
      ensures Valid()
      ensures var n := Find(input[old(pos)..], '\n');
              if ended then unget == None && pos == old(pos) + n + 1 && pos <= |input|
              else n == |input| - old(pos)
    {
      hide Newlines;
      var c := GetChar();
      while c.Some? && c.value != '\n'
        invariant Valid() && unget == None && old(pos) <= pos
        invariant c.Some? ==> pos > old(pos) && input[pos - 1] == c.value
        invariant c.None? ==> pos == |input|
        invariant forall k :: old(pos) <= k < (if c.Some? then pos - 1 else pos) ==> input[k] != '\n'
        decreases |input| - pos, c.Some?
      {
        c := GetChar();
      }
      ended := c.Some?;
      var n := if c.Some? then pos - 1 - old(pos) else |input| - old(pos);
      FindIs(input[old(pos)..], '\n', n);
    }

    /** skip_whitespace; '' counts as white space, so this fails to return when nothing else is left. */
    method SkipWhitespace() returns (ended: bool)
      requires Valid() && unget == None
      modifies this`pos, this`unget, this`lineno
      ensures Valid()
      ensures ended == (SkipWhite(input[old(pos)..]) != "")
      ensures ended ==> input[Start()..] == SkipWhite(input[old(pos)..]) && pos == Start() + 1
    {
      hide Scanner.Valid, IsWhite, SkipWhite;
      assert Start() <= pos;
      ghost var k, body := pos, SkipWhite(input[pos..]);
      var c := GetChar();
      while c.Some? && IsWhite(c.value)
        invariant Valid() && unget == None && 0 <= k <= |input| && SkipWhite(input[k..]) == body
        invariant if c.Some? then pos == k + 1 && k < |input| && input[k] == c.value else pos == k == |input|
        decreases |input| - k, c.Some?
      {
        SkipStep(input, k);
        k := k + 1;
        c := GetChar();
      }
      SkipStep(input, k);
      if c.None? {
        assert input[k..] == "";
        return false;
      }
      UngetChar(c);
      return true;
    }

    /** What the token will be, given the text of it seen so far; the third clause is for S_DOCSTR. */
    ghost function Goal(value: string, line: nat): Scanned
      requires Valid()
      reads this
    {
      var rest := input[Start()..];
      if state == Init then InitToken(input, rest, line)
      else if state == InIdent then IdentGoal(value, rest)
      else DocToken(input, value, rest, line)
    }

    /** get_next_token; None when it does not return. */
    method GetNextToken() returns (token: Option<Token>)
      requires Valid() && state != InIdent
      modifies this`pos, this`unget, this`lineno, this`state
      ensures Valid() && state != InIdent
      ensures NextToken(input, old(View())) == if token.None? then Hangs else Scanned(token.value, View())
    {
      hide LineAt, InitToken, DocToken, IdentGoal;
      ghost var goal := NextToken(input, View());
      var value := "";
      var line := lineno;
      var done := false;
      token := None;
      while !done
        invariant Valid()
        invariant !done ==> Goal(value, line) == goal && (state == Init ==> value == "")
        invariant done ==> state != InIdent && goal == if token.None? then Hangs else Scanned(token.value, View())
        decreases if done then 0 else 1 + |input| - Start()
      {
        if state == Init {
          done, token, value := ScanInit(line);
        } else if state == InIdent {
          done, token, value := ScanIdent(value, line);
        } else {
          done, token, value := ScanDocString(value, line);
        }
      }
    }

    /** One turn of the automaton in S_INIT. */
    method ScanInit(line: nat) returns (done: bool, token: Option<Token>, value: string)
      requires Valid() && state == Init
      modifies this`pos, this`unget, this`lineno, this`state
      ensures Valid()
      ensures !done ==> Goal(value, line) == old(Goal("", line)) && (state == Init ==> value == "")
      ensures !done ==> old(Start()) < Start()
      ensures done ==>
        state != InIdent && old(Goal("", line)) == if token.None? then Hangs else Scanned(token.value, View())
    {
      hide Scanner.Valid, SkipWhite, DocToken, InitToken, IdentGoal, Find, IsIdentBegin, IsWhite;
      InitStep(input, Start(), line);
      done, token, value := true, None, "";
      var c := GetChar();
      if c.None? {
        token := Some(Eof);
      } else if IsIdentBegin(c.value) {
        state := InIdent;
        done, value := false, [c.value];
      } else if c.value == '#' {
        ghost var tail := input[pos..];
        var ended := SkipComment();
        done := !ended;
        assert ended ==> input[pos..] == tail[Find(tail, '\n') + 1..];
      } else if c.value == '{' {
        state := InDoc;
        var ended := SkipWhitespace();
        token := if ended then Some(OpenBrace) else None;
      } else if c.value == '}' {
        token := Some(CloseBrace);
      } else if c.value == '=' {
        token := Some(Equal);
      } else if IsWhite(c.value) {
        done := false;
      } else {
        token := Some(LexError(Unexpected(c.value), line));
      }
    }

    /** One turn in S_IDENT. */
    method ScanIdent(seen: string, ghost line: nat) returns (done: bool, token: Option<Token>, value: string)
      requires Valid() && state == InIdent
      modifies this`pos, this`unget, this`lineno, this`state
      ensures Valid()
      ensures !done ==> Goal(value, line) == old(Goal(seen, line)) && state == InIdent && old(Start()) < Start()
      ensures done ==> state != InIdent && token.Some? && old(Goal(seen, line)) == Scanned(token.value, View())
    {
      hide LineAt, IdentGoal;
      IdentGoalStep(seen, input[Start()..]);
      done, token, value := false, None, seen;
      var c := GetChar();
      if c.Some? && IsIdentCont(c.value) {
        value := seen + [c.value];
      } else {
        UngetChar(c);
        state := Init;
        done, token := true, Some(Ident(seen));
      }
    }

    /** One turn in S_DOCSTR. */
    method ScanDocString(seen: string, line: nat) returns (done: bool, token: Option<Token>, value: string)
      requires Valid() && state == InDoc
      modifies this`pos, this`unget, this`lineno, this`state
      ensures Valid()
      ensures !done ==> Goal(value, line) == old(Goal(seen, line)) && state == InDoc && old(Start()) < Start()
      ensures done ==> state == Init && token.Some? && old(Goal(seen, line)) == Scanned(token.value, View())
    {
      hide LineAt, DocToken, InitToken, IsEscapable;
      DocStep(input, seen, Start(), line);
      done, token, value := false, None, seen;
      var c := GetChar();
      if c.None? {
        token := Some(LexError(Unclosed, line));
      } else if c.value == '\\' {
        c := GetChar();
        if c.Some? && IsEscapable(c.value) {
          value := seen + [c.value];
        } else if c.Some? && c.value != '\n' {
          token := Some(LexError(UnknownEscape(c.value), lineno));
        }
      } else if c.value == '{' {
        token := Some(LexError(OpenBraceInside, lineno));
      } else if c.value == '}' {
        UngetChar(c);
        token := Some(DocString(seen));
      } else if c.value == '"' {
        token := Some(LexError(QuotesInside, lineno));
      } else {
        value := seen + [c.value];
      }
      if token.Some? {
        done := true;
        state := Init;
      }
    }
  }

  /** What a scanner in the middle of an identifier will return. */
  function IdentGoal(value: string, rest: string): Scanned {
    var n := IdentLength(rest);
    Scanned(Ident(value + rest[..n]), PushedBack(rest[n..], false))
  }

  /** The automaton in S_INIT, in positions of the input. */
  lemma {:induction false} InitStep(input: string, k: nat, line: nat)
    requires k <= |input|
    ensures var r := InitToken(input, input[k..], line);
            && (k == |input| ==> r == Scanned(Eof, At("", "", false)))
            && (k < |input| ==>
              var c, tail := input[k], input[k + 1..];
              && (IsIdentBegin(c) ==> r == IdentGoal([c], tail))
              && (c == '#' ==>
                var n := Find(tail, '\n');
                r == if n == |tail| then Hangs else InitToken(input, tail[n + 1..], line))
              && (c == '{' ==>
                var body := SkipWhite(tail);
                r == if body == "" then Hangs else Scanned(OpenBrace, PushedBack(body, true)))
              && (c == '}' ==> r == Scanned(CloseBrace, At(tail, tail, false)))
              && (c == '=' ==> r == Scanned(Equal, At(tail, tail, false)))
              && (IsWhite(c) ==> r == InitToken(input, tail, line))
              && (!IsIdentBegin(c) && c != '#' && c != '{' && c != '}' && c != '=' && !IsWhite(c) ==>
                r == Scanned(LexError(Unexpected(c), line), At(tail, tail, false))))
  {
    hide InitToken, SkipWhite, Find, IdentGoal, LineAt, IsIdentBegin, IsWhite;
    if k < |input| {
      KindsOfCharacters(input[k]);
      InitUnfolded(input, input[k], input[k + 1..], line);
      assert input[k..] == [input[k]] + input[k + 1..];
    } else {
      NothingLeft(input, line);
      assert input[k..] == "";
    }
  }

  lemma KindsOfCharacters(c: char)
    ensures IsIdentBegin(c) ==> c != '#' && c != '{' && c != '}' && c != '=' && !IsWhite(c)
    ensures IsWhite(c) ==> c != '#' && c != '{' && c != '}' && c != '='
  {
  }

  lemma NothingLeft(input: string, line: nat)
    ensures InitToken(input, "", line) == Scanned(Eof, At("", "", false))
  {
  }

  lemma {:induction false} InitUnfolded(input: string, c: char, tail: string, line: nat)
    ensures InitToken(input, [c] + tail, line)
         == if IsIdentBegin(c) then IdentGoal([c], tail)
            else if c == '#' then
              var n := Find(tail, '\n');
              if n == |tail| then Hangs else InitToken(input, tail[n + 1..], line)
            else if c == '{' then
              var body := SkipWhite(tail);
              if body == "" then Hangs else Scanned(OpenBrace, PushedBack(body, true))
            else if c == '}' then Scanned(CloseBrace, At(tail, tail, false))
            else if c == '=' then Scanned(Equal, At(tail, tail, false))
            else if IsWhite(c) then InitToken(input, tail, line)
            else Scanned(LexError(Unexpected(c), line), At(tail, tail, false))
  {
    hide InitToken, SkipWhite, IdentGoal, Find, PushedBack, IsIdentBegin, IsWhite;
    var rest := [c] + tail;
    assert rest[1..] == tail;
    InitUnfoldedOnce(input, rest, c, tail, line);
  }

  lemma {:induction false} InitUnfoldedOnce(input: string, rest: string, c: char, tail: string, line: nat)
    requires rest != "" && c == rest[0] && tail == rest[1..]
    ensures InitToken(input, rest, line)
         == if IsIdentBegin(c) then IdentGoal([c], tail)
            else if c == '#' then
              var n := Find(tail, '\n');
              if n == |tail| then Hangs else InitToken(input, tail[n + 1..], line)
            else if c == '{' then
              var body := SkipWhite(tail);
              if body == "" then Hangs else Scanned(OpenBrace, PushedBack(body, true))
            else if c == '}' then Scanned(CloseBrace, At(tail, tail, false))
            else if c == '=' then Scanned(Equal, At(tail, tail, false))
            else if IsWhite(c) then InitToken(input, tail, line)
            else Scanned(LexError(Unexpected(c), line), At(tail, tail, false))
  {
    hide SkipWhite, IdentLength, Find, PushedBack, IsIdentBegin, IsWhite;
  }

  /** The automaton in S_DOCSTR, in positions of the input. */
  lemma {:induction false} DocStep(input: string, value: string, k: nat, line: nat)
    requires k <= |input|
    ensures var r := DocToken(input, value, input[k..], line);
            && (k == |input| ==> r == Scanned(LexError(Unclosed, line), At("", "", false)))
            && (k < |input| ==>
              var c, tail := input[k], input[k + 1..];
              && (c == '\\' && k + 1 == |input| ==> r == DocToken(input, value, "", line))
              && (c == '\\' && k + 1 < |input| ==>
                var e, behind := input[k + 1], input[k + 2..];
                r == if IsEscapable(e) then DocToken(input, value + [e], behind, line)
                     else if e == '\n' then DocToken(input, value, behind, line)
                     else Scanned(LexError(UnknownEscape(e), LineAt(input, behind)), At(behind, behind, false)))
              && (c == '{' ==> r == Scanned(LexError(OpenBraceInside, LineAt(input, tail)), At(tail, tail, false)))
              && (c == '}' ==> r == Scanned(DocString(value), At(input[k..], tail, false)))
              && (c == '"' ==> r == Scanned(LexError(QuotesInside, LineAt(input, tail)), At(tail, tail, false)))
              && (!IsSpecial(c) ==> r == DocToken(input, value + [c], tail, line)))
  {
  }

  lemma IdentGoalStep(value: string, rest: string)
    ensures IdentGoal(value, rest)
         == if rest != "" && IsIdentCont(rest[0]) then IdentGoal(value + [rest[0]], rest[1..])
            else Scanned(Ident(value), PushedBack(rest, false))
  {
    if rest != "" && IsIdentCont(rest[0]) {
      var n := IdentLength(rest[1..]);
      assert rest[..n + 1] == [rest[0]] + rest[1..][..n];
      assert rest[n + 1..] == rest[1..][n..];
      assert value + rest[..n + 1] == value + [rest[0]] + rest[1..][..n];
    } else {
      assert IdentLength(rest) == 0;
      assert value + rest[..0] == value && rest[0..] == rest;
    }
  }

  // ---------------------------------------------------------------- the parser

  datatype ParseError = Lexical(problem: Problem, line: nat) | Syntax(message: string, line: nat)

  /** What parse_docstring returns or raises. */
  datatype Entry = Loops | Ended | Failed(error: ParseError) | Read(name: string, text: string)

  datatype Outcome = NeverEnds | Raised(error: ParseError) | Done(docs: seq<(string, string)>)

  function Wrong(t: Token, message: string, line: nat): Entry {
    Failed(if t.LexError? then Lexical(t.problem, t.line) else Syntax(message, line))
  }

  function ReadEntry(input: string, at: At): (Entry, At) {
    match NextToken(input, at)
    case Hangs => (Loops, at)
    case Scanned(t, next) =>
      if t == Eof then (Ended, next)
      else if t.Ident? then ReadEqual(input, next, t.name)
      else (Wrong(t, "Identifier excepcted", LineAt(input, next.unread)), next)
  }

  function ReadEqual(input: string, at: At, name: string): (Entry, At) {
    match NextToken(input, at)
    case Hangs => (Loops, at)
    case Scanned(t, next) =>
      if t == Equal then ReadOpenBrace(input, next, name)
      else (Wrong(t, "Equal symbol expected", LineAt(input, next.unread)), next)
  }

  function ReadOpenBrace(input: string, at: At, name: string): (Entry, At) {
    match NextToken(input, at)
    case Hangs => (Loops, at)
    case Scanned(t, next) =>
      if t == OpenBrace then ReadText(input, next, name)
      else (Wrong(t, "Open bracelet expected", LineAt(input, next.unread)), next)
  }

  function ReadText(input: string, at: At, name: string): (Entry, At) {
    match NextToken(input, at)
    case Hangs => (Loops, at)
    case Scanned(t, next) =>
      if t.DocString? then ReadCloseBrace(input, next, name, t.text)
      else (Wrong(t, "Doc string expected", LineAt(input, next.unread)), next)
  }

  function ReadCloseBrace(input: string, at: At, name: string, text: string): (Entry, At) {
    match NextToken(input, at)
    case Hangs => (Loops, at)
    case Scanned(t, next) =>
      if t == CloseBrace then (Read(name, text), next)
      else (Wrong(t, "Close bracelet expected", LineAt(input, next.unread)), next)
  }

  lemma ReadingConsumes(input: string, at: At)
    requires !at.inside
    ensures var (e, next) := ReadEntry(input, at); e.Read? ==> !next.inside && |next.rest| < |at.rest|
  {
  }

  /** Assignment to an OrderedDict: a known name keeps its place. */
  function Assign(docs: seq<(string, string)>, name: string, text: string): seq<(string, string)> {
    if docs == [] then [(name, text)]
    else if docs[0].0 == name then [(name, text)] + docs[1..]
    else [docs[0]] + Assign(docs[1..], name, text)
  }

  lemma {:induction false} AssignIs(docs: seq<(string, string)>, name: string, text: string, i: nat)
    requires i <= |docs| && forall k :: 0 <= k < i ==> docs[k].0 != name
    requires i < |docs| ==> docs[i].0 == name
    ensures Assign(docs, name, text) == if i < |docs| then docs[i := (name, text)] else docs + [(name, text)]
    decreases |docs|
  {
    if docs != [] && i > 0 {
      AssignIs(docs[1..], name, text, i - 1);
      hide Assign;
      assert docs == [docs[0]] + docs[1..];
    }
  }

  function ParseFrom(input: string, at: At, docs: seq<(string, string)>): Outcome
    requires !at.inside
    decreases |at.rest|
  {
    ReadingConsumes(input, at);
    var (e, next) := ReadEntry(input, at);
    match e
    case Loops => NeverEnds
    case Failed(error) => Raised(error)
    case Ended => Done(docs)
    case Read(name, text) => ParseFrom(input, next, Assign(docs, name, text))
  }

  function Parse(input: string): Outcome {
    ParseFrom(input, At(input, input, false), [])
  }

  class Parser {
    const scanner: Scanner
    var docStrings: seq<(string, string)>

    constructor (input: string)
      ensures fresh(scanner) && scanner.input == input && docStrings == []
      ensures scanner.Valid() && scanner.state == Init && scanner.View() == At(input, input, false)
    {
      hide LineAt, Scanner.Valid, Scanner.View;
      scanner := new Scanner(input);
      docStrings := [];
    }

    method SetDocString(name: string, text: string)
      modifies this
      ensures docStrings == Assign(old(docStrings), name, text)
    {
      var i := 0;
      while i < |docStrings| && docStrings[i].0 != name
        invariant i <= |docStrings| && docStrings == old(docStrings)
        invariant forall k :: 0 <= k < i ==> docStrings[k].0 != name
      {
        i := i + 1;
      }
      AssignIs(docStrings, name, text, i);
      docStrings := if i < |docStrings| then docStrings[i := (name, text)] else docStrings + [(name, text)];
    }

    method ParseDocString() returns (e: Entry)
      requires scanner.Valid() && scanner.state != InIdent
      modifies scanner`pos, scanner`unget, scanner`lineno, scanner`state
      ensures scanner.Valid() && scanner.state != InIdent
      ensures e == ReadEntry(scanner.input, old(scanner.View())).0
      ensures e.Read? ==> scanner.View() == ReadEntry(scanner.input, old(scanner.View())).1
    {
      hide NextToken, LineAt;
      var t := scanner.GetNextToken();
      if t.None? {
        return Loops;
      }
      if t.value == Eof {
        return Ended;
      }
      if !t.value.Ident? {
        return Wrong(t.value, "Identifier excepcted", scanner.lineno);
      }
      var name := t.value.name;
      t := scanner.GetNextToken();
      if t.None? {
        return Loops;
      }
      if t.value != Equal {
        return Wrong(t.value, "Equal symbol expected", scanner.lineno);
      }
      t := scanner.GetNextToken();
      if t.None? {
        return Loops;
      }
      if t.value != OpenBrace {
        return Wrong(t.value, "Open bracelet expected", scanner.lineno);
      }
      t := scanner.GetNextToken();
      if t.None? {
        return Loops;
      }
      if !t.value.DocString? {
        return Wrong(t.value, "Doc string expected", scanner.lineno);
      }
      var text := t.value.text;
      t := scanner.GetNextToken();
      if t.None? {
        return Loops;
      }
      if t.value != CloseBrace {
        return Wrong(t.value, "Close bracelet expected", scanner.lineno);
      }
      return Read(name, text);
    }

    /** parse(): the dictionary read, the exception raised, or an endless loop in the scanner. */
    method Parse() returns (outcome: Outcome)
      requires scanner.Valid() && scanner.state == Init
      modifies this, scanner`pos, scanner`unget, scanner`lineno, scanner`state
      ensures outcome == ParseFrom(scanner.input, old(scanner.View()), old(docStrings))
      ensures outcome.Done? ==> outcome.docs == docStrings
    {
      hide ReadEntry;
      ghost var goal := ParseFrom(scanner.input, scanner.View(), docStrings);
      while true
        invariant scanner.Valid() && scanner.state == Init
        invariant ParseFrom(scanner.input, scanner.View(), docStrings) == goal
        decreases |scanner.View().rest|
      {
        ReadingConsumes(scanner.input, scanner.View());
        var e := ParseDocString();
        match e {
          case Loops =>
            return NeverEnds;
          case Failed(error) =>
            return Raised(error);
          case Ended =>
            return Done(docStrings);
          case Read(name, text) =>
            SetDocString(name, text);
        }
      }
    }
  }

  // ---------------------------------------------------------------- concrete syntax

  datatype Blank = Space(c: char) | Comment(text: string)

  /** Plain, written with a backslash, or a line break joined by a backslash. */
  datatype Piece = Plain(c: char) | Escaped(c: char) | Joined

  /** lead name beforeEqual = beforeBrace { padding pieces } */
  datatype Definition = Definition(
    lead: seq<Blank>, name: string, beforeEqual: seq<Blank>, beforeBrace: seq<Blank>,
    padding: string, pieces: seq<Piece>)

  predicate BlankOk(b: Blank) {
    if b.Space? then IsWhite(b.c) else '\n' !in b.text
  }

  predicate BlanksOk(bs: seq<Blank>) {
    forall i :: 0 <= i < |bs| ==> BlankOk(bs[i])
  }

  function BlankSource(b: Blank): string {
    if b.Space? then [b.c] else "#" + (b.text + "\n")
  }

  function BlanksSource(bs: seq<Blank>): string {
    if bs == [] then "" else BlankSource(bs[0]) + BlanksSource(bs[1..])
  }

  predicate PieceOk(p: Piece) {
    (p.Plain? ==> !IsSpecial(p.c)) && (p.Escaped? ==> IsEscapable(p.c))
  }

  predicate PiecesOk(ps: seq<Piece>) {
    forall i :: 0 <= i < |ps| ==> PieceOk(ps[i])
  }

  function PieceSource(p: Piece): string {
    match p
    case Plain(c) => [c]
    case Escaped(c) => ['\\', c]
    case Joined => ['\\', '\n']
  }

  function TextSource(ps: seq<Piece>): string {
    if ps == [] then "" else PieceSource(ps[0]) + TextSource(ps[1..])
  }

  function PieceMeaning(p: Piece): string {
    if p.Joined? then "" else [p.c]
  }

  function TextMeaning(ps: seq<Piece>): string {
    if ps == [] then "" else PieceMeaning(ps[0]) + TextMeaning(ps[1..])
  }

  predicate AllWhite(s: string) {
    forall i :: 0 <= i < |s| ==> IsWhite(s[i])
  }

  predicate IsIdentifier(s: string) {
    s != "" && IsIdentBegin(s[0]) && forall i :: 0 <= i < |s| ==> IsIdentCont(s[i])
  }

  predicate DefinitionOk(d: Definition) {
    && BlanksOk(d.lead) && IsIdentifier(d.name) && BlanksOk(d.beforeEqual) && BlanksOk(d.beforeBrace)
    && AllWhite(d.padding) && PiecesOk(d.pieces)
    && (d.pieces != [] && d.pieces[0].Plain? ==> !IsWhite(d.pieces[0].c))
  }

  function DefinitionSource(d: Definition): string {
    BlanksSource(d.lead) + (d.name + (BlanksSource(d.beforeEqual) + ("=" + (BlanksSource(d.beforeBrace)
    + ("{" + (d.padding + (TextSource(d.pieces) + "}")))))))
  }

  predicate DefinitionsOk(ds: seq<Definition>) {
    forall i :: 0 <= i < |ds| ==> DefinitionOk(ds[i])
  }

  function Source(ds: seq<Definition>, trail: seq<Blank>): string {
    if ds == [] then BlanksSource(trail) else DefinitionSource(ds[0]) + Source(ds[1..], trail)
  }

  function Meaning(ds: seq<Definition>, docs: seq<(string, string)>): seq<(string, string)> {
    if ds == [] then docs else Meaning(ds[1..], Assign(docs, ds[0].name, TextMeaning(ds[0].pieces)))
  }

  // ---------------------------------------------------------------- every well-formed source is read as it means

  lemma BlankIsSkipped(input: string, b: Blank, t: string, line: nat)
    requires BlankOk(b)
    ensures InitToken(input, BlankSource(b) + t, line) == InitToken(input, t, line)
  {
    if b.Space? {
      assert (BlankSource(b) + t)[1..] == t;
    } else {
      hide InitToken;
      var n := |b.text|;
      var tail := b.text + ("\n" + t);
      assert BlankSource(b) + t == "#" + tail;
      FindIs(tail, '\n', n);
      assert tail[n + 1..] == t;
      CommentIsSkipped(input, tail, line);
    }
  }

  lemma {:induction false} CommentIsSkipped(input: string, tail: string, line: nat)
    requires '\n' in tail
    ensures InitToken(input, "#" + tail, line) == InitToken(input, tail[Find(tail, '\n') + 1..], line)
  {
    hide InitToken, SkipWhite, Find, IdentGoal, LineAt;
    InitUnfolded(input, '#', tail, line);
    assert "#" + tail == ['#'] + tail;
  }

  lemma {:induction false} BlanksAreSkipped(input: string, bs: seq<Blank>, t: string, line: nat)
    requires BlanksOk(bs)
    ensures InitToken(input, BlanksSource(bs) + t, line) == InitToken(input, t, line)
  {
    hide InitToken, BlankSource;
    if bs == [] {
      assert BlanksSource(bs) + t == t;
    } else {
      var rest := BlanksSource(bs[1..]) + t;
      assert BlanksSource(bs) + t == BlankSource(bs[0]) + rest;
      BlankIsSkipped(input, bs[0], rest, line);
      BlanksAreSkipped(input, bs[1..], t, line);
    }
  }

  lemma IdentifierIsScanned(input: string, name: string, t: string, line: nat)
    requires IsIdentifier(name) && (t != "" ==> !IsIdentCont(t[0]))
    ensures InitToken(input, name + t, line) == Scanned(Ident(name), PushedBack(t, false))
  {
    var all := name + t;
    var tail := all[1..];
    assert forall i :: 0 <= i < |name| - 1 ==> tail[i] == name[i + 1];
    assert t != "" ==> tail[|name| - 1] == t[0];
    var n := IdentLength(tail);
    assert [all[0]] + tail[..n] == name && tail[n..] == t;
  }

  lemma {:induction false} WhiteIsSkipped(w: string, t: string)
    requires AllWhite(w) && t != "" && !IsWhite(t[0])
    ensures SkipWhite(w + t) == t
  {
    if w == "" {
      assert w + t == t;
    } else {
      WhiteIsSkipped(w[1..], t);
      assert (w + t)[1..] == w[1..] + t;
    }
  }

  lemma PieceIsScanned(input: string, value: string, p: Piece, t: string, line: nat)
    requires PieceOk(p)
    ensures DocToken(input, value, PieceSource(p) + t, line) == DocToken(input, value + PieceMeaning(p), t, line)
  {
    var all := PieceSource(p) + t;
    if p.Plain? {
      assert all[1..] == t;
    } else {
      assert all[1..][1..] == t;
      assert p.Joined? ==> value + "" == value;
    }
  }

  lemma {:induction false} TextIsScanned(input: string, value: string, ps: seq<Piece>, t: string, line: nat)
    requires PiecesOk(ps)
    ensures DocToken(input, value, TextSource(ps) + ("}" + t), line)
         == Scanned(DocString(value + TextMeaning(ps)), At("}" + t, t, false))
    decreases |ps|
  {
    if ps == [] {
      assert TextSource(ps) + ("}" + t) == "}" + t && value + "" == value;
      assert DropFirst("}" + t) == t;
    } else {
      hide DocToken, PieceSource, PieceMeaning;
      var rest := TextSource(ps[1..]) + ("}" + t);
      assert TextSource(ps) + ("}" + t) == PieceSource(ps[0]) + rest;
      PieceIsScanned(input, value, ps[0], rest, line);
      TextIsScanned(input, value + PieceMeaning(ps[0]), ps[1..], t, line);
      assert value + PieceMeaning(ps[0]) + TextMeaning(ps[1..]) == value + TextMeaning(ps);
    }
  }

  lemma NameIsRead(input: string, bs: seq<Blank>, name: string, t: string, unread: string)
    requires BlanksOk(bs) && IsIdentifier(name) && (t != "" ==> !IsIdentCont(t[0]))
    ensures ReadEntry(input, At(BlanksSource(bs) + (name + t), unread, false))
         == ReadEqual(input, PushedBack(t, false), name)
  {
    hide InitToken, LineAt, ReadEqual, BlanksOk, BlanksSource;
    var line := LineAt(input, unread);
    BlanksAreSkipped(input, bs, name + t, line);
    IdentifierIsScanned(input, name, t, line);
  }

  lemma EqualIsRead(input: string, bs: seq<Blank>, t: string, unread: string, name: string)
    requires BlanksOk(bs)
    ensures ReadEqual(input, At(BlanksSource(bs) + ("=" + t), unread, false), name)
         == ReadOpenBrace(input, At(t, t, false), name)
  {
    hide InitToken, LineAt, ReadOpenBrace, BlanksOk, BlanksSource;
    var line := LineAt(input, unread);
    BlanksAreSkipped(input, bs, "=" + t, line);
    EqualIsScanned(input, t, line);
  }

  lemma BraceIsRead(input: string, bs: seq<Blank>, padding: string, t: string, unread: string, name: string)
    requires BlanksOk(bs) && AllWhite(padding) && t != "" && !IsWhite(t[0])
    ensures ReadOpenBrace(input, At(BlanksSource(bs) + ("{" + (padding + t)), unread, false), name)
         == ReadText(input, PushedBack(t, true), name)
  {
    hide InitToken, LineAt, ReadText, BlanksOk, BlanksSource, AllWhite;
    var line := LineAt(input, unread);
    BlanksAreSkipped(input, bs, "{" + (padding + t), line);
    BraceIsScanned(input, padding, t, line);
  }

  lemma TextIsRead(input: string, ps: seq<Piece>, t: string, name: string)
    requires PiecesOk(ps)
    ensures ReadText(input, PushedBack(TextSource(ps) + ("}" + t), true), name)
         == (Read(name, TextMeaning(ps)), At(t, t, false))
  {
    hide InitToken, DocToken, LineAt, PiecesOk, TextSource, TextMeaning, DropFirst;
    var at := PushedBack(TextSource(ps) + ("}" + t), true);
    TextIsScanned(input, "", ps, t, LineAt(input, at.unread));
    assert "" + TextMeaning(ps) == TextMeaning(ps);
    CloseIsScanned(input, t, LineAt(input, t));
  }

  lemma SourceInParts(d: Definition, t: string)
    ensures DefinitionSource(d) + t
         == BlanksSource(d.lead) + (d.name + (BlanksSource(d.beforeEqual) + ("=" + (BlanksSource(d.beforeBrace)
            + ("{" + (d.padding + (TextSource(d.pieces) + ("}" + t))))))))
  {
    Regroup(BlanksSource(d.lead), d.name, BlanksSource(d.beforeEqual), BlanksSource(d.beforeBrace), d.padding,
            TextSource(d.pieces), t);
  }

  lemma Regroup(a: string, b: string, c: string, e: string, f: string, g: string, t: string)
    ensures a + (b + (c + ("=" + (e + ("{" + (f + (g + "}"))))))) + t
         == a + (b + (c + ("=" + (e + ("{" + (f + (g + ("}" + t))))))))
  {
    assert f + (g + "}") + t == f + (g + ("}" + t));
    assert e + ("{" + (f + (g + "}"))) + t == e + ("{" + (f + (g + "}") + t));
    assert c + ("=" + (e + ("{" + (f + (g + "}"))))) + t == c + ("=" + (e + ("{" + (f + (g + "}"))) + t));
  }

  lemma DefinitionIsRead(input: string, d: Definition, t: string, unread: string)
    requires DefinitionOk(d)
    ensures ReadEntry(input, At(DefinitionSource(d) + t, unread, false))
         == (Read(d.name, TextMeaning(d.pieces)), At(t, t, false))
  {
    hide DefinitionSource, ReadEntry, ReadEqual, ReadOpenBrace, ReadText, BlanksOk, PiecesOk, AllWhite, IsIdentifier;
    SourceInParts(d, t);
    var s6 := TextSource(d.pieces) + ("}" + t);
    TextStartsDark(d.pieces, t);
    var s3 := BlanksSource(d.beforeBrace) + ("{" + (d.padding + s6));
    var s1 := BlanksSource(d.beforeEqual) + ("=" + s3);
    NotIdent(d.beforeEqual, "=" + s3);
    NameIsRead(input, d.lead, d.name, s1, unread);
    EqualIsRead(input, d.beforeEqual, s3, DropFirst(s1), d.name);
    BraceIsRead(input, d.beforeBrace, d.padding, s6, s3, d.name);
    TextIsRead(input, d.pieces, t, d.name);
  }

  lemma NotIdent(bs: seq<Blank>, t: string)
    requires BlanksOk(bs) && t != "" && !IsIdentCont(t[0])
    ensures BlanksSource(bs) + t != "" && !IsIdentCont((BlanksSource(bs) + t)[0])
  {
  }

  lemma TextStartsDark(ps: seq<Piece>, t: string)
    requires ps != [] && ps[0].Plain? ==> !IsWhite(ps[0].c)
    ensures var s := TextSource(ps) + ("}" + t); s != "" && !IsWhite(s[0])
  {
  }

  lemma EqualIsScanned(input: string, t: string, line: nat)
    ensures InitToken(input, "=" + t, line) == Scanned(Equal, At(t, t, false))
  {
  }

  lemma CloseIsScanned(input: string, t: string, line: nat)
    ensures InitToken(input, "}" + t, line) == Scanned(CloseBrace, At(t, t, false))
  {
  }

  lemma BraceIsScanned(input: string, padding: string, t: string, line: nat)
    requires AllWhite(padding) && t != "" && !IsWhite(t[0])
    ensures InitToken(input, "{" + (padding + t), line) == Scanned(OpenBrace, PushedBack(t, true))
  {
    assert ("{" + (padding + t))[1..] == padding + t;
    WhiteIsSkipped(padding, t);
  }

  /** Completeness: parsing the source of a tree terminates and gives what the tree means. */
  lemma {:induction false} SourceIsParsed(
      input: string, ds: seq<Definition>, trail: seq<Blank>, unread: string, docs: seq<(string, string)>)
    requires DefinitionsOk(ds) && BlanksOk(trail)
    ensures ParseFrom(input, At(Source(ds, trail), unread, false), docs) == Done(Meaning(ds, docs))
    decreases |ds|
  {
    hide ReadEntry, DefinitionOk, BlanksOk;
    if ds == [] {
      TrailIsRead(input, trail, unread);
    } else {
      var t := Source(ds[1..], trail);
      DefinitionIsRead(input, ds[0], t, unread);
      SourceIsParsed(input, ds[1..], trail, t, Assign(docs, ds[0].name, TextMeaning(ds[0].pieces)));
    }
  }

  lemma TrailIsRead(input: string, trail: seq<Blank>, unread: string)
    requires BlanksOk(trail)
    ensures ReadEntry(input, At(BlanksSource(trail), unread, false)).0 == Ended
  {
    BlanksAreSkipped(input, trail, "", LineAt(input, unread));
    assert BlanksSource(trail) + "" == BlanksSource(trail);
  }

  // ---------------------------------------------------------------- nothing else is accepted

  predicate StartsWithBlank(s: string) {
    s != "" && (IsWhite(s[0]) || (s[0] == '#' && '\n' in s[1..]))
  }

  lemma FirstBlank(input: string, rest: string, line: nat) returns (b: Blank, t: string)
    requires StartsWithBlank(rest)
    ensures BlankOk(b) && rest == BlankSource(b) + t && |t| < |rest|
    ensures InitToken(input, t, line) == InitToken(input, rest, line)
  {
    hide InitToken;
    var tail := rest[1..];
    assert rest == [rest[0]] + tail;
    if IsWhite(rest[0]) {
      b, t := Space(rest[0]), tail;
      BlankIsSkipped(input, b, t, line);
    } else {
      b, t := FirstComment(tail);
      BlankIsSkipped(input, b, t, line);
    }
  }

  lemma FirstComment(tail: string) returns (b: Blank, t: string)
    requires '\n' in tail
    ensures BlankOk(b) && "#" + tail == BlankSource(b) + t && |t| < |tail|
  {
    var n := Find(tail, '\n');
    hide Find;
    b, t := Comment(tail[..n]), tail[n + 1..];
    assert tail == tail[..n] + ("\n" + t);
    assert "#" + tail == ("#" + (tail[..n] + "\n")) + t;
  }

  /** A scanner in S_INIT skips blanks as long as it can. */
  lemma {:induction false} BlanksBefore(input: string, rest: string, line: nat) returns (bs: seq<Blank>, t: string)
    ensures BlanksOk(bs) && rest == BlanksSource(bs) + t && !StartsWithBlank(t)
    ensures InitToken(input, t, line) == InitToken(input, rest, line)
    decreases |rest|
  {
    hide InitToken, BlankOk, BlankSource, StartsWithBlank;
    if StartsWithBlank(rest) {
      var b, tail := FirstBlank(input, rest, line);
      bs, t := BlanksBefore(input, tail, line);
      assert ([b] + bs)[1..] == bs;
      bs := [b] + bs;
      assert BlankSource(b) + BlanksSource(bs[1..]) + t == rest;
    } else {
      bs, t := [], rest;
      assert "" + rest == rest;
    }
  }

  lemma {:induction false} WhiteBefore(s: string) returns (w: string)
    ensures AllWhite(w) && s == w + SkipWhite(s)
  {
    hide IsWhite, SkipWhite;
    if s != "" && IsWhite(s[0]) {
      w := WhiteBefore(s[1..]);
      SkipStep(s, 0);
      assert s[0..] == s && s == [s[0]] + s[1..];
      WhiteInFront(s[0], w, SkipWhite(s));
      w := [s[0]] + w;
    } else {
      SkipStep(s, 0);
      w := "";
      assert s[0..] == s && "" + s == s;
    }
  }

  lemma WhiteInFront(c: char, w: string, t: string)
    requires IsWhite(c) && AllWhite(w)
    ensures AllWhite([c] + w) && [c] + (w + t) == [c] + w + t
  {
    hide IsWhite;
  }

  lemma FirstPiece(input: string, value: string, rest: string, line: nat) returns (p: Piece, t: string)
    requires rest == "" || rest[0] != '}'
    requires var r := DocToken(input, value, rest, line); r.Scanned? && r.token.DocString?
    ensures PieceOk(p) && rest == PieceSource(p) + t && |t| < |rest|
    ensures DocToken(input, value, rest, line) == DocToken(input, value + PieceMeaning(p), t, line)
  {
    if rest[0] == '\\' {
      t := rest[1..][1..];
      assert rest == [rest[0], rest[1]] + t;
      p := if rest[1] == '\n' then Joined else Escaped(rest[1]);
    } else {
      p, t := Plain(rest[0]), rest[1..];
    }
    PieceIsScanned(input, value, p, t, line);
  }

  /** Only the source of some pieces, closed by a brace, scans as a doc string. */
  lemma {:induction false} TextBefore(input: string, value: string, rest: string, line: nat)
    returns (ps: seq<Piece>, t: string)
    requires var r := DocToken(input, value, rest, line); r.Scanned? && r.token.DocString?
    ensures PiecesOk(ps) && rest == TextSource(ps) + ("}" + t)
    ensures DocToken(input, value, rest, line) == Scanned(DocString(value + TextMeaning(ps)), At("}" + t, t, false))
    decreases |rest|
  {
    hide DocToken, PieceOk, PieceSource, PieceMeaning;
    if rest != "" && rest[0] == '}' {
      ps, t := [], rest[1..];
      assert rest == "" + ("}" + t);
      TextIsScanned(input, value, [], t, line);
    } else {
      var p, tail := FirstPiece(input, value, rest, line);
      ps, t := TextBefore(input, value + PieceMeaning(p), tail, line);
      PieceInFront(p, ps, value, "}" + t);
      ps := [p] + ps;
    }
  }

  lemma PieceInFront(p: Piece, ps: seq<Piece>, value: string, t: string)
    ensures TextSource([p] + ps) + t == PieceSource(p) + (TextSource(ps) + t)
    ensures value + TextMeaning([p] + ps) == value + PieceMeaning(p) + TextMeaning(ps)
  {
  }

  lemma IdentToken(input: string, s: string, line: nat) returns (name: string, t: string)
    requires !StartsWithBlank(s) && InitToken(input, s, line).Scanned? && InitToken(input, s, line).token.Ident?
    ensures IsIdentifier(name) && s == name + t
    ensures InitToken(input, s, line) == Scanned(Ident(name), PushedBack(t, false))
  {
    hide InitToken, Find, SkipWhite;
    if s == "" {
      NothingLeft(input, line);
    } else {
      assert s == [s[0]] + s[1..];
      InitUnfolded(input, s[0], s[1..], line);
      name, t := CutIdentifier(s[0], s[1..]);
    }
  }

  lemma CutIdentifier(c: char, tail: string) returns (name: string, t: string)
    ensures IsIdentBegin(c) ==> IsIdentifier(name)
    ensures [c] + tail == name + t && IdentGoal([c], tail) == Scanned(Ident(name), PushedBack(t, false))
  {
    var n := IdentLength(tail);
    name, t := [c] + tail[..n], tail[n..];
    assert forall i :: 1 <= i < |name| ==> name[i] == tail[i - 1];
  }

  lemma EqualToken(input: string, s: string, line: nat) returns (t: string)
    requires !StartsWithBlank(s) && InitToken(input, s, line).Scanned? && InitToken(input, s, line).token == Equal
    ensures s == "=" + t && InitToken(input, s, line) == Scanned(Equal, At(t, t, false))
  {
    hide InitToken, Find, SkipWhite;
    if s == "" {
      NothingLeft(input, line);
    } else {
      t := s[1..];
      assert s == [s[0]] + t;
      InitUnfolded(input, s[0], t, line);
    }
  }

  lemma BraceToken(input: string, s: string, line: nat) returns (padding: string, t: string)
    requires !StartsWithBlank(s) && InitToken(input, s, line).Scanned? && InitToken(input, s, line).token == OpenBrace
    ensures AllWhite(padding) && s == "{" + (padding + t) && t != "" && !IsWhite(t[0])
    ensures InitToken(input, s, line) == Scanned(OpenBrace, PushedBack(t, true))
  {
    hide InitToken, Find, SkipWhite, AllWhite;
    if s == "" {
      NothingLeft(input, line);
    } else {
      assert s == [s[0]] + s[1..];
      InitUnfolded(input, s[0], s[1..], line);
      padding := WhiteBefore(s[1..]);
      t := SkipWhite(s[1..]);
    }
  }

  lemma NameBefore(input: string, rest: string, unread: string) returns (bs: seq<Blank>, name: string, t: string)
    requires ReadEntry(input, At(rest, unread, false)).0.Read? ||
             (ReadEntry(input, At(rest, unread, false)).0.Loops? &&
              InitToken(input, rest, LineAt(input, unread)).Scanned?)
    ensures BlanksOk(bs) && IsIdentifier(name) && rest == BlanksSource(bs) + (name + t)
    ensures ReadEntry(input, At(rest, unread, false)) == ReadEqual(input, PushedBack(t, false), name)
  {
    hide ReadEqual, BlanksOk, BlanksSource, LineAt, InitToken, StartsWithBlank, IsIdentifier, IdentGoal;
    var s;
    bs, s := BlanksBefore(input, rest, LineAt(input, unread));
    name, t := IdentToken(input, s, LineAt(input, unread));
  }

  lemma EqualBefore(input: string, rest: string, unread: string, name: string) returns (bs: seq<Blank>, t: string)
    requires ReadEqual(input, At(rest, unread, false), name).0.Read? ||
             (ReadEqual(input, At(rest, unread, false), name).0.Loops? &&
              InitToken(input, rest, LineAt(input, unread)).Scanned?)
    ensures BlanksOk(bs) && rest == BlanksSource(bs) + ("=" + t)
    ensures ReadEqual(input, At(rest, unread, false), name) == ReadOpenBrace(input, At(t, t, false), name)
  {
    hide ReadOpenBrace, BlanksOk, BlanksSource, LineAt, InitToken, StartsWithBlank;
    var s;
    bs, s := BlanksBefore(input, rest, LineAt(input, unread));
    t := EqualToken(input, s, LineAt(input, unread));
  }

  lemma BraceBefore(input: string, rest: string, unread: string, name: string)
    returns (bs: seq<Blank>, padding: string, t: string)
    requires ReadOpenBrace(input, At(rest, unread, false), name).0.Read?
    ensures BlanksOk(bs) && AllWhite(padding) && rest == BlanksSource(bs) + ("{" + (padding + t))
    ensures t != "" && !IsWhite(t[0])
    ensures ReadOpenBrace(input, At(rest, unread, false), name) == ReadText(input, PushedBack(t, true), name)
  {
    hide ReadText, BlanksOk, BlanksSource, AllWhite, LineAt, InitToken, StartsWithBlank;
    var s;
    bs, s := BlanksBefore(input, rest, LineAt(input, unread));
    padding, t := BraceToken(input, s, LineAt(input, unread));
  }

  lemma ClosedText(input: string, rest: string, name: string) returns (ps: seq<Piece>, t: string)
    requires ReadText(input, PushedBack(rest, true), name).0.Read?
    ensures PiecesOk(ps) && rest == TextSource(ps) + ("}" + t)
    ensures ReadText(input, PushedBack(rest, true), name) == (Read(name, TextMeaning(ps)), At(t, t, false))
  {
    hide DocToken, InitToken, LineAt, PiecesOk, TextSource, TextMeaning;
    ps, t := TextBefore(input, "", rest, LineAt(input, DropFirst(rest)));
    assert "" + TextMeaning(ps) == TextMeaning(ps);
    CloseIsScanned(input, t, LineAt(input, t));
  }

  lemma DefinitionBefore(input: string, rest: string, unread: string) returns (d: Definition, t: string)
    requires ReadEntry(input, At(rest, unread, false)).0.Read?
    ensures DefinitionOk(d) && rest == DefinitionSource(d) + t
    ensures ReadEntry(input, At(rest, unread, false)) == (Read(d.name, TextMeaning(d.pieces)), At(t, t, false))
  {
    hide DefinitionSource, ReadEntry, ReadEqual, ReadOpenBrace, ReadText, BlanksOk, PiecesOk, AllWhite, IsIdentifier;
    var lead, name, s1 := NameBefore(input, rest, unread);
    var beforeEqual, s3 := EqualBefore(input, s1, DropFirst(s1), name);
    var beforeBrace, padding, s6 := BraceBefore(input, s3, s3, name);
    var pieces;
    pieces, t := ClosedText(input, s6, name);
    d := Definition(lead, name, beforeEqual, beforeBrace, padding, pieces);
    SourceInParts(d, t);
    assert pieces != [] && pieces[0].Plain? ==> s6[0] == pieces[0].c;
  }

  /** Soundness: what is accepted is the source of a tree that means the result. */
  lemma {:induction false} ParsedIsSource(input: string, rest: string, unread: string, docs: seq<(string, string)>)
    returns (ds: seq<Definition>, trail: seq<Blank>)
    requires ParseFrom(input, At(rest, unread, false), docs).Done?
    ensures DefinitionsOk(ds) && BlanksOk(trail) && rest == Source(ds, trail)
    ensures ParseFrom(input, At(rest, unread, false), docs) == Done(Meaning(ds, docs))
    decreases |rest|
  {
    hide DefinitionOk, DefinitionSource, BlanksOk;
    var at := At(rest, unread, false);
    ReadingConsumes(input, at);
    var (e, next) := ReadEntry(input, at);
    if e.Ended? {
      ds := [];
      trail := TrailBefore(input, rest, unread);
    } else {
      hide ReadEntry;
      var d, t := DefinitionBefore(input, rest, unread);
      var more;
      more, trail := ParsedIsSource(input, t, t, Assign(docs, d.name, TextMeaning(d.pieces)));
      ds := [d] + more;
      assert ds[1..] == more;
    }
  }

  lemma TrailBefore(input: string, rest: string, unread: string) returns (trail: seq<Blank>)
    requires ReadEntry(input, At(rest, unread, false)).0 == Ended
    ensures BlanksOk(trail) && rest == BlanksSource(trail)
  {
    hide BlanksOk, BlanksSource, LineAt, StartsWithBlank;
    var t;
    trail, t := BlanksBefore(input, rest, LineAt(input, unread));
    EofIsEmpty(input, t, LineAt(input, unread));
    assert BlanksSource(trail) + "" == BlanksSource(trail);
  }

  lemma EofIsEmpty(input: string, t: string, line: nat)
    requires !StartsWithBlank(t)
    ensures InitToken(input, t, line).Scanned? && InitToken(input, t, line).token == Eof ==> t == ""
  {
  }

  ghost predicate Describes(ds: seq<Definition>, trail: seq<Blank>, input: string, docs: seq<(string, string)>) {
    DefinitionsOk(ds) && BlanksOk(trail) && input == Source(ds, trail) && docs == Meaning(ds, [])
  }

  /** The main result: the parser returns a dictionary exactly for the sources of well-formed trees, and then the
      dictionary is what the tree means. */
  lemma ParsesExactlyTheGrammar(input: string, docs: seq<(string, string)>)
    ensures Parse(input) == Done(docs) <==> exists ds, trail :: Describes(ds, trail, input, docs)
  {
    if Parse(input) == Done(docs) {
      var ds, trail := ParsedIsSource(input, input, input, []);
      assert Describes(ds, trail, input, docs);
    }
    if ds, trail :| Describes(ds, trail, input, docs) {
      SourceIsParsed(input, ds, trail, input, []);
    }
  }

  // ---------------------------------------------------------------- writing a file and reading it back

  function WrittenText(text: string): string {
    if text == "" then ""
    else (if IsEscapable(text[0]) then ['\\', text[0]] else [text[0]]) + WrittenText(text[1..])
  }

  function Line(e: (string, string)): string {
    e.0 + " = { " + WrittenText(e.1) + "}"
  }

  /** One line `name = { text}` for each entry. */
  function Written(es: seq<(string, string)>): string {
    if es == [] then "" else Line(es[0]) + ("\n" + Written(es[1..]))
  }

  function Stripped(es: seq<(string, string)>): (r: seq<(string, string)>)
    ensures |r| == |es|
    ensures forall i :: 0 <= i < |es| ==> r[i] == (es[i].0, SkipWhite(es[i].1))
  {
    if es == [] then [] else [(es[0].0, SkipWhite(es[0].1))] + Stripped(es[1..])
  }

  function PiecesOf(text: string): seq<Piece> {
    if text == "" then [] else [if IsEscapable(text[0]) then Escaped(text[0]) else Plain(text[0])] + PiecesOf(text[1..])
  }

  function WhitePrefix(text: string): string {
    text[..|text| - |SkipWhite(text)|]
  }

  const NEWLINE := [Space('\n')]
  const ONE_SPACE := [Space(' ')]

  function TreeOf(e: (string, string), lead: seq<Blank>): Definition {
    Definition(lead, e.0, ONE_SPACE, ONE_SPACE, " " + WhitePrefix(e.1), PiecesOf(SkipWhite(e.1)))
  }

  function TreesOf(es: seq<(string, string)>, lead: seq<Blank>): seq<Definition> {
    if es == [] then [] else [TreeOf(es[0], lead)] + TreesOf(es[1..], NEWLINE)
  }

  lemma {:induction false} PiecesOfText(text: string)
    ensures var ps := PiecesOf(text);
            && PiecesOk(ps) && TextSource(ps) == WrittenText(text) && TextMeaning(ps) == text
            && (ps == [] <==> text == "") && (ps != [] && ps[0].Plain? ==> ps[0].c == text[0])
  {
    if text != "" {
      PiecesOfText(text[1..]);
      assert PiecesOf(text)[1..] == PiecesOf(text[1..]);
    }
  }

  lemma {:induction false} WhiteIsWrittenPlainly(w: string, text: string)
    requires AllWhite(w)
    ensures WrittenText(w + text) == w + WrittenText(text)
  {
    if w == "" {
      assert w + text == text && "" + WrittenText(text) == WrittenText(text);
    } else {
      WhiteIsWrittenPlainly(w[1..], text);
      WriteFirst(w[0], w[1..] + text);
      assert w + text == [w[0]] + (w[1..] + text);
      assert [w[0]] + (w[1..] + WrittenText(text)) == w + WrittenText(text);
    }
  }

  lemma WriteFirst(c: char, text: string)
    requires !IsEscapable(c)
    ensures WrittenText([c] + text) == [c] + WrittenText(text)
  {
  }

  lemma TreeOfIsOk(e: (string, string), lead: seq<Blank>)
    requires IsIdentifier(e.0) && BlanksOk(lead)
    ensures DefinitionOk(TreeOf(e, lead)) && TextMeaning(TreeOf(e, lead).pieces) == SkipWhite(e.1)
  {
    PiecesOfText(SkipWhite(e.1));
    PrefixIsWhite(e.1);
    hide SkipWhite, WhitePrefix, PiecesOf, IsIdentifier, PiecesOk, TextSource, TextMeaning, IsWhite;
    assert IsWhite(' ') by {
      WhiteSpaces();
    }
  }

  lemma WhiteSpaces()
    ensures IsWhite(' ') && IsWhite('\n')
  {
  }

  lemma PrefixIsWhite(text: string)
    ensures AllWhite(WhitePrefix(text)) && WhitePrefix(text) + SkipWhite(text) == text
  {
    hide SkipWhite, AllWhite;
    var w := WhiteBefore(text);
    assert text[..|text| - |SkipWhite(text)|] == w;
  }

  lemma TreeOfSource(e: (string, string), lead: seq<Blank>)
    ensures DefinitionSource(TreeOf(e, lead)) == BlanksSource(lead) + Line(e)
  {
    var text := SkipWhite(e.1);
    var w := WhitePrefix(e.1);
    PrefixIsWhite(e.1);
    PiecesOfText(text);
    WhiteIsWrittenPlainly(w, text);
    TreeInParts(e.0, BlanksSource(lead), TextSource(PiecesOf(text)), w, WrittenText(e.1));
  }

  lemma TreeInParts(name: string, lead: string, text: string, w: string, written: string)
    requires w + text == written
    ensures lead + (name + (BlanksSource(ONE_SPACE) + ("=" + (BlanksSource(ONE_SPACE)
            + ("{" + ((" " + w) + (text + "}")))))))
         == lead + (name + " = { " + written + "}")
  {
  }

  lemma {:induction false} TreesAreOk(es: seq<(string, string)>, lead: seq<Blank>)
    requires BlanksOk(lead) && forall i :: 0 <= i < |es| ==> IsIdentifier(es[i].0)
    ensures DefinitionsOk(TreesOf(es, lead))
    ensures Source(TreesOf(es, lead), if es == [] then lead else NEWLINE) == BlanksSource(lead) + Written(es)
  {
    hide DefinitionOk, DefinitionSource, WrittenText, TreeOf, IsIdentifier, IsWhite;
    if es == [] {
      assert BlanksSource(lead) + "" == BlanksSource(lead);
    } else {
      WhiteSpaces();
      TreesAreOk(es[1..], NEWLINE);
      TreeOfIsOk(es[0], lead);
      TreeOfSource(es[0], lead);
      LineBreak(es, lead);
      assert TreesOf(es, lead)[1..] == TreesOf(es[1..], NEWLINE);
    }
  }

  lemma LineBreak(es: seq<(string, string)>, lead: seq<Blank>)
    requires es != []
    ensures BlanksSource(lead) + Line(es[0]) + (BlanksSource(NEWLINE) + Written(es[1..]))
         == BlanksSource(lead) + Written(es)
  {
  }

  predicate Names(docs: seq<(string, string)>, name: string) {
    exists i :: 0 <= i < |docs| && docs[i].0 == name
  }

  lemma {:induction false} AssignNew(docs: seq<(string, string)>, name: string, text: string)
    requires !Names(docs, name)
    ensures Assign(docs, name, text) == docs + [(name, text)]
  {
    if docs != [] {
      assert docs[0].0 != name;
      forall i | 0 <= i < |docs[1..]| ensures docs[1..][i].0 != name {
        assert docs[1..][i] == docs[i + 1];
      }
      AssignNew(docs[1..], name, text);
      assert [docs[0]] + (docs[1..] + [(name, text)]) == docs + [(name, text)];
    }
  }

  ghost predicate DistinctNames(es: seq<(string, string)>) {
    forall i, j :: 0 <= i < j < |es| ==> es[i].0 != es[j].0
  }

  lemma MeaningStep(d: Definition, ds: seq<Definition>, docs: seq<(string, string)>)
    ensures Meaning([d] + ds, docs) == Meaning(ds, Assign(docs, d.name, TextMeaning(d.pieces)))
  {
    hide Assign, TextMeaning;
    assert ([d] + ds)[1..] == ds;
  }

  lemma TreesStep(es: seq<(string, string)>, lead: seq<Blank>)
    requires es != []
    ensures TreesOf(es, lead) == [TreeOf(es[0], lead)] + TreesOf(es[1..], NEWLINE)
    ensures Stripped(es) == [(es[0].0, SkipWhite(es[0].1))] + Stripped(es[1..])
  {
    hide SkipWhite;
  }

  lemma NothingMeant(lead: seq<Blank>, docs: seq<(string, string)>)
    ensures Meaning(TreesOf([], lead), docs) == docs + Stripped([])
  {
  }

  lemma Associate<T>(a: seq<T>, b: seq<T>, c: seq<T>)
    ensures a + b + c == a + (b + c)
  {
  }

  lemma MeaningOfTree(e: (string, string), lead: seq<Blank>)
    ensures TreeOf(e, lead).name == e.0 && TextMeaning(TreeOf(e, lead).pieces) == SkipWhite(e.1)
  {
    PiecesOfText(SkipWhite(e.1));
    hide SkipWhite, WhitePrefix, PiecesOf, TextMeaning;
  }

  lemma {:induction false} MeaningOfTrees(es: seq<(string, string)>, lead: seq<Blank>, docs: seq<(string, string)>)
    requires DistinctNames(docs + es)
    ensures Meaning(TreesOf(es, lead), docs) == docs + Stripped(es)
    decreases |es|
  {
    hide TreeOf, TextMeaning, SkipWhite, DistinctNames, Assign, Meaning, TreesOf, Stripped;
    if es == [] {
      NothingMeant(lead, docs);
    } else {
      var e := (es[0].0, SkipWhite(es[0].1));
      NewNameAppends(docs, es, e.1);
      MeaningOfTree(es[0], lead);
      MeaningOfTrees(es[1..], NEWLINE, docs + [e]);
      TreesStep(es, lead);
      MeaningStep(TreeOf(es[0], lead), TreesOf(es[1..], NEWLINE), docs);
      Associate(docs, [e], Stripped(es[1..]));
    }
  }

  lemma NewlineIsBlank()
    ensures BlankOk(NEWLINE[0])
  {
  }

  lemma NewNameAppends(docs: seq<(string, string)>, es: seq<(string, string)>, text: string)
    requires es != [] && DistinctNames(docs + es)
    ensures Assign(docs, es[0].0, text) == docs + [(es[0].0, text)]
    ensures DistinctNames(docs + [(es[0].0, text)] + es[1..])
  {
    hide Assign;
    var all, all' := docs + es, docs + [(es[0].0, text)] + es[1..];
    assert all[|docs|] == es[0];
    assert forall i :: 0 <= i < |docs| ==> all[i] == docs[i];
    AssignNew(docs, es[0].0, text);
    assert forall i :: 0 <= i < |all| ==> all'[i].0 == all[i].0;
  }

  predicate StartsWhite(text: string) {
    text != "" && IsWhite(text[0])
  }

  lemma StrippedIsSame(es: seq<(string, string)>)
    ensures Stripped(es) == es <==> forall i :: 0 <= i < |es| ==> !StartsWhite(es[i].1)
  {
  }

  /** Distinct identifiers written out, one to a line, are read back in order, each text without the blanks it
      starts with; so the round trip is exact exactly when no text starts with a blank. */
  lemma WriteThenParse(es: seq<(string, string)>)
    requires DistinctNames(es) && forall i :: 0 <= i < |es| ==> IsIdentifier(es[i].0)
    ensures Parse(Written(es)) == Done(Stripped(es))
    ensures Parse(Written(es)) == Done(es) <==> forall i :: 0 <= i < |es| ==> !StartsWhite(es[i].1)
  {
    hide IsIdentifier, DistinctNames, StartsWhite, Stripped, Written, DefinitionsOk, ParseFrom, TreesOf, Source;
    hide Meaning;
    var trail := if es == [] then [] else NEWLINE;
    NewlineIsBlank();
    hide BlankOk;
    TreesAreOk(es, []);
    assert BlanksSource([]) + Written(es) == Written(es);
    assert [] + es == es && [] + Stripped(es) == Stripped(es);
    MeaningOfTrees(es, [], []);
    SourceIsParsed(Written(es), TreesOf(es, []), trail, Written(es), []);
    StrippedIsSame(es);
  }

  // ---------------------------------------------------------------- endless loops

  /** A comment without its line break, or an open brace with nothing but blanks behind it, at the end of the file. */
  predicate Endless(s: string) {
    s != "" && ((s[0] == '#' && '\n' !in s[1..]) || (s[0] == '{' && AllWhite(s[1..])))
  }

  ghost predicate Splits(rest: string, bs: seq<Blank>, t: string) {
    BlanksOk(bs) && rest == BlanksSource(bs) + t
  }

  lemma EndlessToken(input: string, t: string, line: nat)
    requires !StartsWithBlank(t)
    ensures InitToken(input, t, line) == Hangs <==> Endless(t)
  {
    if t != "" && t[0] == '{' {
      var w := WhiteBefore(t[1..]);
      if SkipWhite(t[1..]) == "" {
        assert w == t[1..];
      } else {
        assert !IsWhite(t[1..][|w|]);
      }
    }
  }

  /** Between tokens the scanner fails to return exactly when all that is left, behind blanks, is one of the two. */
  lemma HangsIffEndless(input: string, rest: string, line: nat)
    ensures InitToken(input, rest, line) == Hangs <==> exists bs, t :: Splits(rest, bs, t) && Endless(t)
  {
    hide InitToken;
    var bs, t := BlanksBefore(input, rest, line);
    EndlessToken(input, t, line);
    assert Splits(rest, bs, t);
    if bs', t' :| Splits(rest, bs', t') && Endless(t') {
      BlanksAreSkipped(input, bs', t', line);
      EndlessToken(input, t', line);
    }
  }

  /** Inside a doc string it always returns. */
  lemma {:induction false} TextNeverHangs(input: string, value: string, rest: string, line: nat)
    ensures DocToken(input, value, rest, line) != Hangs
    decreases |rest|
  {
    if rest != "" && rest != "\\" {
      if rest[0] == '\\' {
        TextNeverHangs(input, value, rest[1..][1..], line);
        TextNeverHangs(input, value + [rest[1..][0]], rest[1..][1..], line);
      } else {
        TextNeverHangs(input, value + [rest[0]], rest[1..], line);
      }
    }
  }

  /** How far an entry is read when the scanner loops: nothing of it, its name, or its name and equal sign. Behind
      the open brace nothing loops. */
  datatype Start =
    | Nowhere
    | Named(lead: seq<Blank>, name: string)
    | Equals(lead: seq<Blank>, name: string, beforeEqual: seq<Blank>)

  predicate StartOk(start: Start) {
    match start
    case Nowhere => true
    case Named(lead, name) => BlanksOk(lead) && IsIdentifier(name)
    case Equals(lead, name, beforeEqual) => BlanksOk(lead) && IsIdentifier(name) && BlanksOk(beforeEqual)
  }

  /** The source of a start that s comes after. */
  function StartSource(start: Start, s: string): string {
    match start
    case Nowhere => s
    case Named(lead, name) => BlanksSource(lead) + (name + s)
    case Equals(lead, name, beforeEqual) => BlanksSource(lead) + (name + (BlanksSource(beforeEqual) + ("=" + s)))
  }

  ghost predicate EntryHangs(rest: string, start: Start, bs: seq<Blank>, t: string) {
    StartOk(start) && BlanksOk(bs) && Endless(t) && rest == StartSource(start, BlanksSource(bs) + t)
  }

  lemma EndlessIsHung(input: string, bs: seq<Blank>, t: string, line: nat)
    requires BlanksOk(bs) && Endless(t)
    ensures InitToken(input, BlanksSource(bs) + t, line) == Hangs
  {
    hide InitToken;
    assert Splits(BlanksSource(bs) + t, bs, t);
    HangsIffEndless(input, BlanksSource(bs) + t, line);
  }

  lemma StartIsRead(input: string, start: Start, bs: seq<Blank>, t: string, rest: string, unread: string)
    requires EntryHangs(rest, start, bs, t)
    ensures ReadEntry(input, At(rest, unread, false)).0 == Loops
  {
    hide InitToken, LineAt, BlanksOk, BlanksSource, IsIdentifier, Endless, ReadOpenBrace, ReadEqual, ReadEntry;
    var s := BlanksSource(bs) + t;
    match start
    case Nowhere =>
      LoopsNow(input, bs, t, unread, "");
    case Named(lead, name) =>
      EndlessIsNoName(t);
      NotIdent(bs, t);
      NameIsRead(input, lead, name, s, unread);
      LoopsNow(input, bs, t, DropFirst(s), name);
    case Equals(lead, name, beforeEqual) =>
      var s1 := BlanksSource(beforeEqual) + ("=" + s);
      NotIdent(beforeEqual, "=" + s);
      NameIsRead(input, lead, name, s1, unread);
      EqualIsRead(input, beforeEqual, s, DropFirst(s1), name);
      LoopsNow(input, bs, t, s, name);
  }

  lemma EndlessIsNoName(t: string)
    requires Endless(t)
    ensures t != "" && !IsIdentCont(t[0])
  {
  }

  lemma LoopsNow(input: string, bs: seq<Blank>, t: string, unread: string, name: string)
    requires BlanksOk(bs) && Endless(t)
    ensures var at := At(BlanksSource(bs) + t, unread, false);
            ReadEntry(input, at).0 == ReadEqual(input, at, name).0 == ReadOpenBrace(input, at, name).0 == Loops
  {
    hide InitToken, LineAt, Endless;
    EndlessIsHung(input, bs, t, LineAt(input, unread));
  }

  lemma HungIsEndless(input: string, rest: string, line: nat) returns (bs: seq<Blank>, t: string)
    requires InitToken(input, rest, line) == Hangs
    ensures BlanksOk(bs) && Endless(t) && rest == BlanksSource(bs) + t
  {
    hide InitToken;
    HangsIffEndless(input, rest, line);
    bs, t :| Splits(rest, bs, t) && Endless(t);
  }

  lemma BraceGoesInside(input: string, rest: string, line: nat)
    ensures var r := InitToken(input, rest, line);
            r.Scanned? && r.token == OpenBrace ==> r.at == PushedBack(r.at.rest, true)
    decreases |rest|
  {
  }

  lemma TextNeverLoops(input: string, rest: string, name: string)
    ensures ReadText(input, PushedBack(rest, true), name).0 != Loops
  {
    hide DocToken, InitToken, LineAt;
    var line := LineAt(input, DropFirst(rest));
    TextNeverHangs(input, "", rest, line);
    if DocToken(input, "", rest, line).token.DocString? {
      var ps, t := TextBefore(input, "", rest, line);
      CloseIsScanned(input, t, LineAt(input, t));
    }
  }

  lemma BraceLoops(input: string, rest: string, unread: string, name: string) returns (bs: seq<Blank>, t: string)
    requires ReadOpenBrace(input, At(rest, unread, false), name).0 == Loops
    ensures BlanksOk(bs) && Endless(t) && rest == BlanksSource(bs) + t
  {
    hide InitToken, LineAt, ReadText, BlanksOk, Endless;
    var r := InitToken(input, rest, LineAt(input, unread));
    BraceGoesInside(input, rest, LineAt(input, unread));
    if r.Scanned? {
      TextNeverLoops(input, r.at.rest, name);
    }
    bs, t := HungIsEndless(input, rest, LineAt(input, unread));
  }

  lemma StartBefore(input: string, rest: string, unread: string) returns (start: Start, bs: seq<Blank>, t: string)
    requires ReadEntry(input, At(rest, unread, false)).0 == Loops
    ensures EntryHangs(rest, start, bs, t)
  {
    hide InitToken, LineAt, ReadOpenBrace, BlanksOk, BlanksSource, IsIdentifier, Endless, ReadEqual, ReadEntry;
    if InitToken(input, rest, LineAt(input, unread)) == Hangs {
      start := Nowhere;
      bs, t := HungIsEndless(input, rest, LineAt(input, unread));
      return;
    }
    var lead, name, s := NameBefore(input, rest, unread);
    if InitToken(input, s, LineAt(input, DropFirst(s))) == Hangs {
      start := Named(lead, name);
      bs, t := HungIsEndless(input, s, LineAt(input, DropFirst(s)));
      return;
    }
    var beforeEqual, s' := EqualBefore(input, s, DropFirst(s), name);
    start := Equals(lead, name, beforeEqual);
    bs, t := BraceLoops(input, s', s', name);
  }

  /** The file: well-formed definitions, the start of one more entry, and an endless tail behind blanks. */
  ghost predicate FileHangs(input: string, ds: seq<Definition>, start: Start, bs: seq<Blank>, t: string) {
    && DefinitionsOk(ds) && StartOk(start) && BlanksOk(bs) && Endless(t)
    && input == Source(ds, []) + StartSource(start, BlanksSource(bs) + t)
  }

  lemma HangsNow(input: string, start: Start, bs: seq<Blank>, t: string)
    ensures FileHangs(input, [], start, bs, t) <==> EntryHangs(input, start, bs, t)
  {
    hide StartOk, StartSource, BlanksOk, Endless;
    var s := StartSource(start, BlanksSource(bs) + t);
    assert Source([], []) + s == s;
  }

  lemma HangsLater(d: Definition, tail: string, ds: seq<Definition>, start: Start, bs: seq<Blank>, t: string)
    requires DefinitionOk(d)
    ensures FileHangs(DefinitionSource(d) + tail, [d] + ds, start, bs, t) <==> FileHangs(tail, ds, start, bs, t)
  {
    hide DefinitionOk, DefinitionSource, StartOk, StartSource, BlanksOk, BlanksSource, Endless;
    var all := [d] + ds;
    assert all[1..] == ds;
    assert DefinitionsOk(all) <==> DefinitionsOk(ds) by {
      assert forall i :: 0 <= i < |ds| ==> all[i + 1] == ds[i];
    }
    SplitSource(DefinitionSource(d), Source(ds, []), StartSource(start, BlanksSource(bs) + t), tail);
  }

  lemma SplitSource(d: string, ds: string, s: string, tail: string)
    ensures d + tail == d + ds + s <==> tail == ds + s
  {
    assert d + ds + s == d + (ds + s);
    assert (d + tail)[|d|..] == tail && (d + (ds + s))[|d|..] == ds + s;
  }

  lemma HangsSplit(rest: string, ds: seq<Definition>, start: Start, bs: seq<Blank>, t: string)
    returns (tail: string)
    requires FileHangs(rest, ds, start, bs, t) && ds != []
    ensures DefinitionOk(ds[0]) && rest == DefinitionSource(ds[0]) + tail && FileHangs(tail, ds[1..], start, bs, t)
  {
    hide DefinitionOk, DefinitionSource, StartOk, StartSource, BlanksOk, BlanksSource, Endless;
    tail := Source(ds[1..], []) + StartSource(start, BlanksSource(bs) + t);
    assert rest == DefinitionSource(ds[0]) + tail;
  }

  lemma {:induction false} FileIsRead(
      input: string, rest: string, unread: string, docs: seq<(string, string)>,
      ds: seq<Definition>, start: Start, bs: seq<Blank>, t: string)
    requires FileHangs(rest, ds, start, bs, t)
    ensures ParseFrom(input, At(rest, unread, false), docs) == NeverEnds
    decreases |ds|
  {
    hide ReadEntry, DefinitionOk, DefinitionSource, EntryHangs, FileHangs, Assign, TextMeaning;
    if ds == [] {
      HangsNow(rest, start, bs, t);
      StartIsRead(input, start, bs, t, rest, unread);
    } else {
      var tail := HangsSplit(rest, ds, start, bs, t);
      DefinitionIsRead(input, ds[0], tail, unread);
      FileIsRead(input, tail, tail, Assign(docs, ds[0].name, TextMeaning(ds[0].pieces)), ds[1..], start, bs, t);
    }
  }

  lemma {:induction false} FileBefore(input: string, rest: string, unread: string, docs: seq<(string, string)>)
    returns (ds: seq<Definition>, start: Start, bs: seq<Blank>, t: string)
    requires ParseFrom(input, At(rest, unread, false), docs) == NeverEnds
    ensures FileHangs(rest, ds, start, bs, t)
    decreases |rest|
  {
    hide DefinitionOk, DefinitionSource, EntryHangs, FileHangs;
    var at := At(rest, unread, false);
    ReadingConsumes(input, at);
    var (e, next) := ReadEntry(input, at);
    hide ReadEntry;
    if e.Loops? {
      ds := [];
      start, bs, t := StartBefore(input, rest, unread);
      HangsNow(rest, start, bs, t);
    } else {
      var d, tail := DefinitionBefore(input, rest, unread);
      var more;
      more, start, bs, t := FileBefore(input, tail, tail, Assign(docs, d.name, TextMeaning(d.pieces)));
      ds := [d] + more;
      HangsLater(d, tail, more, start, bs, t);
    }
  }

  /** When parse() never returns: exactly for these files. */
  lemma NeverEndsIff(input: string)
    ensures Parse(input) == NeverEnds <==> exists ds, start, bs, t :: FileHangs(input, ds, start, bs, t)
  {
    if Parse(input) == NeverEnds {
      var ds, start, bs, t := FileBefore(input, input, input, []);
    }
    if ds, start, bs, t :| FileHangs(input, ds, start, bs, t) {
      FileIsRead(input, input, input, [], ds, start, bs, t);
    }
  }

  lemma EntryNeverEnds(input: string, start: Start, t: string)
    requires EntryHangs(input, start, [], t)
    ensures Parse(input) == NeverEnds
  {
    hide EntryHangs, ParseFrom, FileHangs;
    HangsNow(input, start, [], t);
    NeverEndsIff(input);
  }

  /** An unfinished comment is enough, or an entry that ends behind its open brace. */
  lemma HangingFiles(name: string)
    requires IsIdentifier(name)
    ensures Parse("#") == NeverEnds && Parse(name + "={") == NeverEnds && Parse(name + "={}") == Done([(name, "")])
  {
    hide ParseFrom, IsIdentifier, Parse;
    assert BlanksSource([]) + "#" == "#";
    EntryNeverEnds("#", Nowhere, "#");
    OpenedSource(name);
    EntryNeverEnds(name + "={", Equals([], name, []), "{");
    ClosedIsRead(name);
  }

  lemma OpenedSource(name: string)
    ensures name + "={" == StartSource(Equals([], name, []), BlanksSource([]) + "{")
  {
  }

  lemma ClosedIsRead(name: string)
    requires IsIdentifier(name)
    ensures Parse(name + "={}") == Done([(name, "")])
  {
    hide ParseFrom, IsIdentifier;
    var d := Definition([], name, [], [], "", []);
    assert Source([d], []) == name + "={}";
    assert Meaning([d], []) == [(name, "")];
    SourceIsParsed(name + "={}", [d], [], name + "={}", []);
  }

  // ---------------------------------------------------------------- the characters, spelled out

  /** A name is any run of letters, digits and underscores that does not start with a digit. */
  lemma NamesAreRead(name: string)
    requires name != "" && !('0' <= name[0] <= '9')
    requires forall i :: 0 <= i < |name| ==>
      'a' <= name[i] <= 'z' || 'A' <= name[i] <= 'Z' || '0' <= name[i] <= '9' || name[i] == '_'
    ensures IsIdentifier(name) && Parse(name + "={}") == Done([(name, "")])
  {
    assert IsIdentifier(name);
    hide Parse, IsIdentifier;
    ClosedIsRead(name);
  }

  /** A file must not begin with anything else, except for blanks, a comment and the three signs of the grammar. */
  lemma UnexpectedFirst(c: char, rest: string)
    requires !('a' <= c <= 'z') && !('A' <= c <= 'Z') && c as int !in {95, 32, 13, 10, 35, 123, 125, 61}
    ensures Parse([c] + rest) == Raised(Lexical(Unexpected(c), 1))
  {
    var input := [c] + rest;
    assert LineAt(input, input) == 1;
    hide ReadEqual;
    assert NextToken(input, At(input, input, false)) == Scanned(LexError(Unexpected(c), 1), At(rest, rest, false)) by {
      InitUnfolded(input, c, rest, 1);
    }
  }

  /** The space, the carriage return and the line break may stand anywhere between the tokens. */
  lemma BlanksAreFree(name: string, w: string)
    requires IsIdentifier(name) && forall i :: 0 <= i < |w| ==> w[i] as int in {32, 13, 10}
    ensures Parse(w + name + w + "=" + w + "{" + w + "}" + w) == Done([(name, "")])
  {
    var bs := seq(|w|, i requires 0 <= i < |w| => Space(w[i]));
    assert BlanksOk(bs) && AllWhite(w);
    SpacesSource(w, bs);
    hide ParseFrom, IsIdentifier, BlanksOk, AllWhite, IsWhite, BlanksSource;
    var d := Definition(bs, name, bs, bs, w, []);
    var input := w + name + w + "=" + w + "{" + w + "}" + w;
    assert Source([d], bs) == DefinitionSource(d) + w;
    SourceInParts(d, w);
    Flatten(w, name);
    assert Meaning([d], []) == [(name, "")];
    SourceIsParsed(input, [d], bs, input, []);
  }

  lemma {:induction false} SpacesSource(w: string, bs: seq<Blank>)
    requires |bs| == |w| && forall i :: 0 <= i < |w| ==> bs[i] == Space(w[i])
    ensures BlanksSource(bs) == w
  {
    if w != "" {
      SpacesSource(w[1..], bs[1..]);
      assert w == [w[0]] + w[1..];
    }
  }

  lemma Flatten(w: string, name: string)
    ensures w + name + w + "=" + w + "{" + w + "}" + w
         == w + (name + (w + ("=" + (w + ("{" + (w + ("" + ("}" + w))))))))
  {
  }

  /** Behind name={ the text is read from its first character that is no blank. */
  lemma TextComesNext(name: string, body: string)
    requires IsIdentifier(name) && body != "" && !IsWhite(body[0])
    ensures var input := name + "={" + body;
            ReadEntry(input, At(input, input, false)) == ReadText(input, At(body, body[1..], true), name)
  {
    hide ReadEntry, ReadEqual, ReadOpenBrace, ReadText, IsIdentifier, IsWhite;
    var input := name + "={" + body;
    var t1, t2 := "={" + body, "{" + body;
    assert BlanksSource([]) == "";
    assert input == BlanksSource([]) + (name + t1);
    assert t1 == BlanksSource([]) + ("=" + t2) && t2 == BlanksSource([]) + ("{" + ("" + body));
    assert t1[1..] == t2 && t2[1..] == body;
    NameIsRead(input, [], name, t1, input);
    EqualIsRead(input, [], t2, t2, name);
    BraceIsRead(input, [], "", body, t2, name);
  }

  lemma {:induction false} OneLine(s: string)
    requires '\n' !in s
    ensures Newlines(s) == 0
  {
    if s != "" {
      OneLine(s[..|s| - 1]);
    }
  }

  /** The text of the only line of a file is wrong from its start. */
  lemma WrongText(name: string, body: string, problem: Problem, next: At)
    requires IsIdentifier(name) && body != "" && !IsWhite(body[0]) && '\n' !in body
    requires DocToken(name + "={" + body, "", body, 1) == Scanned(LexError(problem, 1), next)
    ensures Parse(name + "={" + body) == Raised(Lexical(problem, 1))
  {
    var input := name + "={" + body;
    LineIsOne(name, body, body[1..]);
    hide ReadEntry, IsIdentifier, DocToken, IsWhite, LineAt;
    TextComesNext(name, body);
  }

  lemma LineIsOne(name: string, body: string, unread: string)
    requires IsIdentifier(name) && '\n' !in body
    ensures LineAt(name + "={" + body, unread) == 1
  {
    var input := name + "={" + body;
    var n := if |unread| <= |input| then |input| - |unread| else 0;
    forall i | 0 <= i < n ensures input[..n][i] != '\n' {
      if i < |name| {
        assert IsIdentCont(name[i]);
      }
    }
    OneLine(input[..n]);
  }

  /** A definition of one piece. */
  lemma OnePiece(name: string, p: Piece)
    requires IsIdentifier(name) && PieceOk(p) && (p.Plain? ==> !IsWhite(p.c))
    ensures Parse(name + "={" + PieceSource(p) + "}") == Done([(name, PieceMeaning(p))])
  {
    hide ParseFrom, IsIdentifier, PieceOk, PieceSource, PieceMeaning, IsWhite;
    var d := Definition([], name, [], [], "", [p]);
    var input := name + "={" + PieceSource(p) + "}";
    assert d.pieces[0] == p && d.pieces[1..] == [];
    assert TextSource(d.pieces) == PieceSource(p) + "" == PieceSource(p);
    assert TextMeaning(d.pieces) == PieceMeaning(p) + "" == PieceMeaning(p);
    assert Source([d], []) == DefinitionSource(d) + "" == input;
    assert Meaning([d], []) == [(name, PieceMeaning(p))];
    SourceIsParsed(input, [d], [], input, []);
  }

  /** Five characters are written with a backslash, a backslash joins two lines, and no other character may follow. */
  lemma Escapes(name: string, c: char)
    requires IsIdentifier(name)
    ensures Parse(name + "={" + ['\\', c] + "}")
         == if c as int in {123, 125, 35, 92, 34} then Done([(name, [c])])
            else if c as int == 10 then Done([(name, "")])
            else Raised(Lexical(UnknownEscape(c), 1))
  {
    if c == '\n' {
      OnePiece(name, Joined);
    } else if IsEscapable(c) {
      OnePiece(name, Escaped(c));
    } else {
      hide Parse, IsIdentifier;
      var body := ['\\', c] + "}";
      var input := name + "={" + body;
      assert input == name + "={" + ['\\', c] + "}";
      LineIsOne(name, body, "}");
      assert body[1..][0] == c && body[1..][1..] == "}";
      WrongText(name, body, UnknownEscape(c), At("}", "}", false));
    }
  }

  /** Braces and quotes must have one, and every other character but a blank stands for itself. */
  lemma Unescaped(name: string, c: char)
    requires IsIdentifier(name) && c as int !in {32, 13, 10, 92, 125}
    ensures Parse(name + "={" + [c] + "}")
         == if c as int == 123 then Raised(Lexical(OpenBraceInside, 1))
            else if c as int == 34 then Raised(Lexical(QuotesInside, 1))
            else Done([(name, [c])])
  {
    if c == '{' || c == '"' {
      hide Parse, IsIdentifier;
      var body := [c] + "}";
      var input := name + "={" + body;
      assert input == name + "={" + [c] + "}";
      LineIsOne(name, body, "}");
      assert body[1..] == "}";
      WrongText(name, body, if c == '{' then OpenBraceInside else QuotesInside, At("}", "}", false));
    } else {
      OnePiece(name, Plain(c));
    }
  }
}
