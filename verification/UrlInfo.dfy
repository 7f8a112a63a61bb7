/** URLInfo: parsing a connection URL step by step, and printing it back. */
module UrlInfo {
  import opened Text

  const PORT_NOT_SET := 0xFFFF_FFFF
  const PORT_WSMAN_HTTP := 5985
  const PORT_WSMAN_HTTPS := 5986
  const PORT_CIMXML_HTTP := 5988
  const PORT_CIMXML_HTTPS := 5989

  type Port = x: int | 0 <= x <= 0xFFFF_FFFF

  /** The fields of a URLInfo object. */
  datatype Info = Info(
    url: string, hostname: string, username: string, password: string, path: string, error: string, port: Port,
    isHttps: bool, isLocal: bool, isValid: bool, isCredsValid: bool)
  {
    /** url() */
    function Url(): string {
      Scheme(isHttps) + hostname + ":" + Decimal(port) + path
    }
  }

  const FRESH := Info("https://unknown", "unknown", "", "", "", "", PORT_NOT_SET, true, false, false, false)

  function Scheme(https: bool): string {
    if https then "https://" else "http://"
  }

  predicate StartsWith(s: string, prefix: string) {
    |prefix| <= |s| && s[..|prefix|] == prefix
  }

  lemma PrefixFits(s: string)
    ensures StartsWith(s, "http://") ==> |s| >= 7
    ensures StartsWith(s, "https://") ==> |s| >= 8
    ensures StartsWith(s, "http://") ==> s[..7] == Scheme(false)
    ensures StartsWith(s, "https://") ==> s[..8] == Scheme(true)
  {
  }

  predicate IsLocalhost(url: string) {
    || StartsWith(url, "file://")
    || url == "localhost" || url == "localhost.localdomain"
    || url == "localhost4" || url == "localhost4.localdomain4"
    || url == "localhost6" || url == "localhost6.localdomain6"
    || url == "127.0.0.1" || url == "::1"
  }

  // ---------------------------------------------------------------- strtol

  predicate IsSpace(c: char) {
    c == ' ' || '\t' <= c <= '\r'
  }

  function SkipSpaces(s: string): string {
    if s != [] && IsSpace(s[0]) then SkipSpaces(s[1..]) else s
  }

  const NUL: char := 0 as char

  /** strtol(s.c_str(), &pend, 10) when *pend is the terminator: the whole C string was read, or it was empty. */
  function WholeNumber(s: string): Option<int> {
    var c := s[..Find(s, NUL)];
    var t := SkipSpaces(c);
    var digits := if t != [] && (t[0] == '+' || t[0] == '-') then t[1..] else t;
    if c == [] then Some(0)
    else if digits == [] || !AllDigits(digits) then None
    else
      var n: int := NumberOf(digits);
      Some(if t[0] == '-' then -n else n)
  }

  /** What strtol reads to the end: blanks, a sign and digits. The blanks are the space and the characters 9 to 13. */
  lemma {:induction false} SignedNumber(blanks: string, sign: string, digits: string)
    requires forall i :: 0 <= i < |blanks| ==> blanks[i] as int == 32 || 9 <= blanks[i] as int <= 13
    requires sign == "" || sign == "+" || sign == "-"
    requires digits != "" && AllDigits(digits)
    ensures WholeNumber(blanks + sign + digits)
         == Some(if sign == "-" then -(NumberOf(digits) as int) else NumberOf(digits))
    decreases |blanks|
  {
    hide AllDigits, NumberOf, WholeNumber;
    if blanks == "" {
      assert blanks + sign + digits == sign + digits;
      UnblankedNumber(sign, digits);
    } else {
      SignedNumber(blanks[1..], sign, digits);
      NoNul(blanks[1..], sign, digits);
      SkipBlank(blanks[0], blanks[1..] + sign + digits);
      assert [blanks[0]] + (blanks[1..] + sign + digits) == blanks + sign + digits;
    }
  }

  lemma NoNul(blanks: string, sign: string, digits: string)
    requires forall i :: 0 <= i < |blanks| ==> blanks[i] as int == 32 || 9 <= blanks[i] as int <= 13
    requires (sign == "" || sign == "+" || sign == "-") && AllDigits(digits)
    ensures NUL !in blanks + sign + digits
  {
    assert NUL !in digits;
  }

  lemma UnblankedNumber(sign: string, digits: string)
    requires sign == "" || sign == "+" || sign == "-"
    requires digits != "" && AllDigits(digits)
    ensures WholeNumber(sign + digits) == Some(if sign == "-" then -(NumberOf(digits) as int) else NumberOf(digits))
  {
    var s := sign + digits;
    assert IsDigit(digits[0]);
    NoNul("", sign, digits);
    assert "" + sign + digits == s;
    assert !IsSpace(s[0]);
    hide NumberOf, AllDigits, WholeNumber, IsSpace, SkipSpaces;
    NothingToSkip(s);
    ReadWithoutNul(s);
    if sign == "" {
      assert s == digits;
    } else {
      assert s[0] == sign[0] && s[1..] == digits;
    }
  }

  lemma NothingToSkip(s: string)
    requires s != "" && !IsSpace(s[0])
    ensures SkipSpaces(s) == s
  {
  }

  lemma ReadWithoutNul(s: string)
    requires NUL !in s && s != ""
    ensures var t := SkipSpaces(s);
            var digits := if t != [] && (t[0] == '+' || t[0] == '-') then t[1..] else t;
            if digits == [] || !AllDigits(digits) then WholeNumber(s) == None
            else WholeNumber(s) == Some(if t[0] == '-' then -(NumberOf(digits) as int) else NumberOf(digits))
  {
    hide NumberOf, AllDigits, SkipSpaces;
    FindIs(s, NUL, |s|);
    assert s[..|s|] == s;
  }

  lemma SkipBlank(c: char, s: string)
    requires IsSpace(c) && WholeNumber(s).Some? && s != ""
    ensures WholeNumber([c] + s) == WholeNumber(s) || NUL in s
  {
    if NUL !in s {
      var t := [c] + s;
      hide NumberOf, AllDigits;
      FindIs(s, NUL, |s|);
      FindIs(t, NUL, |t|);
      assert t[..|t|] == t && s[..|s|] == s && t[1..] == s;
    }
  }

  /** Nothing else is read to the end, except the empty text, and a C string ends at the first NUL. */
  lemma {:induction false} OnlySignedNumbers(s: string) returns (blanks: string, sign: string, digits: string)
    requires NUL !in s && s != "" && WholeNumber(s).Some?
    ensures s == blanks + sign + digits && digits != "" && AllDigits(digits)
    ensures forall i :: 0 <= i < |blanks| ==> blanks[i] as int == 32 || 9 <= blanks[i] as int <= 13
    ensures sign == "" || sign == "+" || sign == "-"
    decreases |s|
  {
    hide NumberOf, AllDigits, WholeNumber;
    ReadWithoutNul(s);
    if IsSpace(s[0]) {
      var t := s[1..];
      assert SkipSpaces(s) == SkipSpaces(t);
      if t == "" {
        assert false;
      }
      ReadWithoutNul(t);
      blanks, sign, digits := OnlySignedNumbers(t);
      blanks := [s[0]] + blanks;
      assert s == [s[0]] + t;
    } else {
      blanks := "";
      sign := if s[0] == '+' || s[0] == '-' then s[..1] else "";
      digits := s[|sign|..];
      assert s == sign + digits;
    }
  }

  lemma NulEndsNumber(s: string, more: string)
    requires NUL !in s
    ensures WholeNumber(s + [NUL] + more) == WholeNumber(s)
    ensures WholeNumber("") == Some(0)
  {
    var t := s + [NUL] + more;
    FindIs(s, NUL, |s|);
    FindIs(t, NUL, |s|);
    assert t[..|s|] == s == s[..|s|];
  }

  /** The port the text between ':' and the path stands for, if any. */
  function PortOf(text: string): (p: Option<Port>)
    ensures p.Some? ==> p.value <= 65535
  {
    if text == [] || |text| > 5 then None
    else
      match WholeNumber(text)
      case None => None
      case Some(n) => if 0 <= n <= 65535 then Some(n) else None
  }

  lemma PortOfDecimal(p: Port)
    requires p <= 65535
    ensures PortOf(Decimal(p)) == Some(p)
  {
    var d := Decimal(p);
    assert PowerOfTen(5) == 100000 by {
      assert PowerOfTen(1) == 10 && PowerOfTen(2) == 100 && PowerOfTen(3) == 1000 && PowerOfTen(4) == 10000;
    }
    LengthOfDecimal(p, 5);
    NumberOfDecimal(p);
    FindIs(d, NUL, |d|);
    assert d[..|d|] == d;
    assert SkipSpaces(d) == d;
  }

  // ---------------------------------------------------------------- what set() computes

  /** The part of a URL behind the scheme, cut into host, port text and path. */
  datatype Authority = Authority(host: string, portText: Option<string>, path: string)

  function Cut(rest: string): Authority {
    var colon := Find(rest, ':');
    if colon < |rest| then
      var tail := rest[colon + 1..];
      var slash := Find(tail, '/');
      Authority(rest[..colon], Some(tail[..slash]), tail[slash..])
    else
      var slash := Find(rest, '/');
      Authority(rest[..slash], None, rest[slash..])
  }

  lemma CutInParts(rest: string)
    ensures var colon := Find(rest, ':');
            if colon < |rest| then
              var tail := rest[colon + 1..];
              Cut(rest) == Authority(rest[..colon], Some(tail[..Find(tail, '/')]), tail[Find(tail, '/')..])
            else
              var slash := Find(rest, '/');
              Cut(rest) == Authority(rest[..slash], None, rest[slash..]) && (rest[slash..] == "" <==> slash == |rest|)
  {
    hide Find;
  }

  function DefaultPort(https: bool, path: string): Port {
    if path == "/wsman" then if https then PORT_WSMAN_HTTPS else PORT_WSMAN_HTTP
    else if https then PORT_CIMXML_HTTPS else PORT_CIMXML_HTTP
  }

  function Invalid(i: Info, error: string): Info {
    i.(error := error, isValid := false)
  }

  /** Fields after the user information, if any, has been taken out of `body`, and what is left of it. */
  function TakeCredentials(i: Info, body: string): (Info, string) {
    var at := Find(body, '@');
    if at == |body| then (i, body)
    else
      var creds := body[..at];
      var colon := Find(creds, ':');
      (if colon < |creds| then i.(username := creds[..colon], password := creds[colon + 1..], isCredsValid := true)
       else i.(isCredsValid := false),
       body[at + 1..])
  }

  function WithoutCredentials(body: string): string {
    var at := Find(body, '@');
    if at == |body| then body else body[at + 1..]
  }

  lemma RestOfCredentials(i: Info, body: string)
    ensures var (j, rest) := TakeCredentials(i, body);
            && rest == WithoutCredentials(body)
            && j.path == i.path && j.port == i.port && j.isHttps == i.isHttps && j.isLocal == i.isLocal
  {
    hide Find;
  }

  lemma OnlyCredentials(i: Info, body: string)
    ensures var j := TakeCredentials(i, body).0;
            j == i.(username := j.username, password := j.password, isCredsValid := j.isCredsValid)
  {
  }

  function PortError(url: string): string {
    "Port number out of range: " + url
  }

  /** Host, port and path as far as `rest` names them, and whether the port, if named, is one. */
  function TakeTarget(i: Info, rest: string, url: string): (Info, bool) {
    var a := Cut(rest);
    match a.portText
    case Some(text) =>
      (match PortOf(text)
       case None => (Invalid(i.(hostname := a.host), PortError(url)), false)
       case Some(p) => (i.(hostname := a.host, port := p, path := a.path), true))
    case None => (i.(hostname := a.host, path := if a.path == "" then i.path else a.path), true)
  }

  function Complete(i: Info): Info {
    i.(port := if i.port == PORT_NOT_SET then DefaultPort(i.isHttps, i.path) else i.port, isValid := i.hostname != "")
  }

  function SetAuthority(i: Info, rest: string, url: string): Info {
    var (j, named) := TakeTarget(i, rest, url);
    if named then Complete(j) else j
  }

  function SetRemote(i: Info, https: bool, url: string): Info
    requires StartsWith(url, Scheme(https))
  {
    var (j, rest) := TakeCredentials(i.(url := url, port := PORT_NOT_SET, isHttps := https), url[|Scheme(https)|..]);
    SetAuthority(j.(url := Scheme(https) + rest), rest, url)
  }

  /** The names of this host: localhost, localhost4 and localhost6, alone or in the domain of the same number, the two
      loopback addresses, and every file:// URL. */
  lemma LocalNames(url: string)
    ensures IsLocalhost(url) <==>
      || url == "127.0.0.1" || url == "::1"
      || (|url| >= 7 && url[..7] == "file://")
      || exists n :: (n == "" || n == "4" || n == "6") &&
                     (url == "localhost" + n || url == "localhost" + n + ".localdomain" + n)
  {
    assert "localhost" + "" == "localhost" && "localhost" + "" + ".localdomain" + "" == "localhost.localdomain";
    assert "localhost" + "4" == "localhost4" && "localhost" + "4" + ".localdomain" + "4" == "localhost4.localdomain4";
    assert "localhost" + "6" == "localhost6" && "localhost" + "6" + ".localdomain" + "6" == "localhost6.localdomain6";
  }

  /** The fields after set(url); `fqdn` is the name of this host. */
  function Parsed(i: Info, fqdn: string, url: string): Info {
    if IsLocalhost(url) then
      i.(url := url, isHttps := false, isLocal := true, hostname := fqdn, port := 0, isValid := true)
    else if StartsWith(url, "http://") then SetRemote(i, false, url)
    else if StartsWith(url, "https://") then SetRemote(i, true, url)
    else Invalid(i.(url := url, port := PORT_NOT_SET), "Invalid scheme: " + url)
  }

  // ---------------------------------------------------------------- the object

  class URLInfo {
    var url: string
    var hostname: string
    var username: string
    var password: string
    var path: string
    var error: string
    var port: Port
    var isHttps: bool
    var isLocal: bool
    var isValid: bool
    var isCredsValid: bool

    function View(): Info
      reads this
    {
      Info(url, hostname, username, password, path, error, port, isHttps, isLocal, isValid, isCredsValid)
    }

    constructor ()
      ensures View() == FRESH
    {
      url, hostname, username, password, path, error := "https://unknown", "unknown", "", "", "", "";
      port, isHttps, isLocal, isValid, isCredsValid := PORT_NOT_SET, true, false, false, false;
    }

    method SetInvalid(message: string) returns (valid: bool)
      modifies this`error, this`isValid
      ensures !valid && !isValid && error == message
    {
      error := message;
      isValid := false;
      valid := false;
    }

    /** set() */
    method Set(newUrl: string, fqdn: string) returns (valid: bool)
      modifies this
      ensures View() == Parsed(old(View()), fqdn, newUrl) && valid == isValid
    {
      hide IsLocalhost, TakeCredentials, SetAuthority, StartsWith;
      PrefixFits(newUrl);
      url := newUrl;
      if IsLocalhost(url) {
        isHttps, isLocal, hostname, port, isValid := false, true, fqdn, 0, true;
        return true;
      }
      port := PORT_NOT_SET;
      var start;
      if StartsWith(url, "http://") {
        start := 7;
        isHttps := false;
      } else if StartsWith(url, "https://") {
        start := 8;
        isHttps := true;
      } else {
        valid := SetInvalid("Invalid scheme: " + newUrl);
        return;
      }
      OnlyCredentials(View(), url[start..]);
      EraseCredentials(start);
      valid := SetTarget(start, newUrl);
    }

    /** Takes user:password@ out of the url member. */
    method EraseCredentials(start: nat)
      requires start <= |url|
      modifies this`url, this`username, this`password, this`isCredsValid
      ensures var (i, rest) := TakeCredentials(old(View()), old(url[start..]));
              && url == old(url[..start]) + rest
              && username == i.username && password == i.password && isCredsValid == i.isCredsValid
    {
      hide Find;
      var body := url[start..];
      var at := Find(body, '@');
      if at < |body| {
        var creds := body[..at];
        var colon := Find(creds, ':');
        if colon < |creds| {
          username, password, isCredsValid := creds[..colon], creds[colon + 1..], true;
        } else {
          isCredsValid := false;
        }
        url := url[..start] + body[at + 1..];
      } else {
        assert url == url[..start] + url[start..];
      }
    }

    /** Host, port and path from position `start` of the url member. */
    method SetTarget(start: nat, newUrl: string) returns (valid: bool)
      requires start <= |url| && port == PORT_NOT_SET
      modifies this`hostname, this`port, this`path, this`error, this`isValid
      ensures View() == SetAuthority(old(View()), url[start..], newUrl) && valid == isValid
    {
      hide Cut, PortOf, PortError;
      var named := ReadTarget(start, newUrl);
      if !named {
        return isValid;
      }
      if port == PORT_NOT_SET {
        if path == "/wsman" {
          port := if isHttps then PORT_WSMAN_HTTPS else PORT_WSMAN_HTTP;
        } else {
          port := if isHttps then PORT_CIMXML_HTTPS else PORT_CIMXML_HTTP;
        }
      }
      isValid := hostname != "";
      valid := isValid;
    }

    method StorePort(text: string, newUrl: string) returns (named: bool)
      modifies this`port, this`error, this`isValid
      ensures named == PortOf(text).Some?
      ensures named ==> port == PortOf(text).value && error == old(error) && isValid == old(isValid)
      ensures !named ==> port == old(port) && error == PortError(newUrl) && !isValid
    {
      hide WholeNumber, PortError;
      if |text| == 0 || |text| > 5 {
        named := SetInvalid(PortError(newUrl));
        return;
      }
      var number := WholeNumber(text);
      if number.None? || number.value < 0 || number.value > 65535 {
        named := SetInvalid(PortError(newUrl));
        return;
      }
      port := number.value;
      named := true;
    }

    method ReadTarget(start: nat, newUrl: string) returns (named: bool)
      requires start <= |url| && port == PORT_NOT_SET
      modifies this`hostname, this`port, this`path, this`error, this`isValid
      ensures var a := Cut(url[start..]);
              && hostname == a.host
              && named == (a.portText.None? || PortOf(a.portText.value).Some?)
              && port == (if named && a.portText.Some? then PortOf(a.portText.value).value else old(port))
              && path == (if !named || (a.portText.None? && a.path == "") then old(path) else a.path)
      ensures named ==> error == old(error) && isValid == old(isValid)
      ensures !named ==> error == PortError(newUrl) && !isValid
    {
      hide Find, PortError, PortOf, Cut;
      var rest := url[start..];
      CutInParts(rest);
      var colon := Find(rest, ':');
      if colon < |rest| {
        hostname := rest[..colon];
        var tail := rest[colon + 1..];
        var len := Find(tail, '/');
        named := StorePort(tail[..len], newUrl);
        if !named {
          return;
        }
        path := tail[len..];
      } else {
        var slash := Find(rest, '/');
        hostname := rest[..slash];
        if slash < |rest| {
          path := rest[slash..];
        }
      }
      named := true;
    }
  }

  // ---------------------------------------------------------------- parsing well-formed URLs

  /** Host and path as they come out of parsing. */
  predicate WellFormed(host: string, path: string) {
    host != "" && ':' !in host && (path == "" || path[0] == '/')
  }

  lemma NotLocal(https: bool, rest: string)
    ensures !IsLocalhost(Scheme(https) + rest)
    ensures StartsWith(Scheme(https) + rest, "http://") <==> !https
    ensures StartsWith(Scheme(https) + rest, Scheme(https)) && (Scheme(https) + rest)[|Scheme(https)|..] == rest
  {
    var u := Scheme(https) + rest;
    assert u[..|Scheme(https)|] == Scheme(https);
    assert u[0] == 'h' && u[4] == if https then 's' else ':';
  }

  /** What set() does on a fresh object, in terms of the text behind the scheme. */
  function ParsedBody(https: bool, body: string, url: string): Info {
    var (i, rest) := TakeCredentials(FRESH.(url := url, isHttps := https), body);
    SetAuthority(i.(url := Scheme(https) + rest), rest, url)
  }

  lemma ParsedRemote(https: bool, body: string, fqdn: string)
    ensures Parsed(FRESH, fqdn, Scheme(https) + body) == ParsedBody(https, body, Scheme(https) + body)
  {
    hide IsLocalhost, StartsWith, TakeCredentials, SetAuthority;
    NotLocal(https, body);
  }

  lemma CutOfParts(host: string, text: string, path: string)
    requires ':' !in host && '/' !in text && (path == "" || path[0] == '/')
    ensures Cut(host + ":" + text + path) == Authority(host, Some(text), path)
  {
    hide Find;
    var rest := host + ":" + text + path;
    assert rest[..|host|] == host;
    FindIs(rest, ':', |host|);
    var tail := rest[|host| + 1..];
    assert tail == text + path;
    assert tail[..|text|] == text && tail[|text|..] == path;
    FindIs(tail, '/', |text|);
  }

  /** scheme://host:port/path on a fresh object gives back exactly its parts. */
  lemma ParsedOfParts(https: bool, host: string, port: Port, path: string, fqdn: string)
    requires WellFormed(host, path) && port <= 65535 && '@' !in host && '@' !in path
    ensures var url := Scheme(https) + host + ":" + Decimal(port) + path;
            Parsed(FRESH, fqdn, url) == Info(url, host, "", "", path, "", port, https, false, true, false)
  {
    hide Parsed, Cut, PortOf, Decimal, Find, TakeCredentials;
    var rest := host + ":" + Decimal(port) + path;
    var url := Scheme(https) + host + ":" + Decimal(port) + path;
    assert url == Scheme(https) + rest;
    ParsedRemote(https, rest, fqdn);
    NoCredentials(FRESH.(url := url, isHttps := https), rest);
    CutOfParts(host, Decimal(port), path);
    PortOfDecimal(port);
  }

  lemma CutWithoutPort(host: string, path: string)
    requires ':' !in host + path && '/' !in host && (path == "" || path[0] == '/')
    ensures Cut(host + path) == Authority(host, None, path)
  {
    hide Find;
    var rest := host + path;
    FindIs(rest, ':', |rest|);
    assert rest[..|host|] == host && rest[|host|..] == path;
    FindIs(rest, '/', |host|);
  }

  /** Without a port the scheme and the path decide: 5985 and 5986 for WS-Management, 5988 and 5989 for CIM-XML. */
  lemma DefaultPorts(https: bool, host: string, path: string, fqdn: string)
    requires host != "" && '/' !in host && (path == "" || path[0] == '/')
    requires ':' !in host + path && '@' !in host + path
    ensures var url := (if https then "https://" else "http://") + host + path;
            var port := if path == "/wsman" then (if https then 5986 else 5985) else if https then 5989 else 5988;
            Parsed(FRESH, fqdn, url) == Info(url, host, "", "", path, "", port, https, false, true, false)
  {
    hide Parsed, Cut, Find, TakeCredentials;
    var url := Scheme(https) + host + path;
    assert url == Scheme(https) + (host + path);
    ParsedRemote(https, host + path, fqdn);
    NoCredentials(FRESH.(url := url, isHttps := https), host + path);
    CutWithoutPort(host, path);
  }

  lemma CutIsWellFormed(rest: string)
    ensures var a := Cut(rest);
            ':' !in a.host && (a.path == "" || a.path[0] == '/')
  {
  }

  lemma AuthorityIsWellFormed(i: Info, rest: string, url: string)
    requires i.path == "" && i.port == PORT_NOT_SET
    ensures var j := SetAuthority(i, rest, url);
            j.isValid ==> WellFormed(j.hostname, j.path) && j.port <= 65535 && j.isLocal == i.isLocal
  {
    hide Cut, PortOf, PortError;
    CutIsWellFormed(rest);
  }

  /** Whatever a fresh object accepts as a remote URL is well formed. */
  lemma AcceptedIsWellFormed(fqdn: string, url: string)
    ensures var i := Parsed(FRESH, fqdn, url);
            i.isValid && !i.isLocal ==> WellFormed(i.hostname, i.path) && i.port <= 65535
  {
    hide IsLocalhost, SetAuthority, WellFormed;
    if !IsLocalhost(url) && (StartsWith(url, "http://") || StartsWith(url, "https://")) {
      var https := !StartsWith(url, "http://");
      var (j, rest) := TakeCredentials(FRESH.(url := url, isHttps := https), url[|Scheme(https)|..]);
      AuthorityIsWellFormed(j.(url := Scheme(https) + rest), rest, url);
    }
  }

  /** The same target: what a client connects to. */
  predicate SameTarget(i: Info, j: Info) {
    i.isValid == j.isValid && i.isHttps == j.isHttps && i.hostname == j.hostname && i.port == j.port && i.path == j.path
  }

  /** The main result: parsing what url() prints gives the same target exactly when no '@' is left in the host or
      the path, and then url() is a fixed point. */
  lemma PrintThenParse(fqdn: string, url: string)
    ensures var i := Parsed(FRESH, fqdn, url);
            var j := Parsed(FRESH, fqdn, i.Url());
            i.isValid && !i.isLocal ==>
              && (SameTarget(i, j) <==> '@' !in i.hostname && '@' !in i.path)
              && (SameTarget(i, j) ==> j.Url() == i.Url() && !j.isLocal)
  {
    hide Parsed, WellFormed;
    var i := Parsed(FRESH, fqdn, url);
    AcceptedIsWellFormed(fqdn, url);
    if i.isValid && !i.isLocal {
      if '@' !in i.hostname && '@' !in i.path {
        ParsedOfParts(i.isHttps, i.hostname, i.port, i.path, fqdn);
      } else {
        AtSignChangesTarget(i, fqdn);
      }
    }
  }

  lemma CutFits(rest: string)
    ensures var a := Cut(rest);
            && |a.host| + |a.path| <= |rest|
            && (':' in rest ==> |a.host| == Find(rest, ':'))
  {
  }

  /** An accepted target is no longer than the text it was read from, and its host ends before the first colon. */
  lemma TargetFits(i: Info, rest: string, url: string)
    requires i.path == "" && i.port == PORT_NOT_SET
    ensures var j := SetAuthority(i, rest, url);
            j.isValid ==> |j.hostname| + |j.path| <= |rest| && (':' in rest ==> |j.hostname| == Find(rest, ':'))
  {
    hide Cut, PortOf, PortError, Find;
    CutFits(rest);
  }

  /** Where the first '@' of host:port/path is, and what is left behind it. */
  lemma AfterAtSign(host: string, digits: string, path: string)
    requires ':' !in host && '@' !in digits && ('@' in host || '@' in path)
    ensures var body := host + ":" + digits + path;
            var at := Find(body, '@');
            && at < |body|
            && var rest := body[at + 1..];
            ('@' in host && ':' in rest && Find(rest, ':') < |host|) || |rest| < |path|
  {
    hide Find;
    var body := host + ":" + digits + path;
    var at := Find(host, '@');
    if at < |host| {
      FindIs(body, '@', at);
      var rest := body[at + 1..];
      assert rest == host[at + 1..] + ":" + digits + path;
      FindIs(rest, ':', |host| - at - 1);
    } else {
      var k := |host| + 1 + |digits|;
      assert body[k..] == path;
      assert body[k + Find(path, '@')] == '@';
      assert Find(body, '@') >= k;
    }
  }

  lemma AtSignChangesTarget(i: Info, fqdn: string)
    requires WellFormed(i.hostname, i.path) && i.port <= 65535 && i.isValid
    requires '@' in i.hostname || '@' in i.path
    ensures !SameTarget(i, Parsed(FRESH, fqdn, i.Url()))
  {
    hide Parsed, SetAuthority, Find, Decimal, TakeCredentials, Scheme;
    var url := i.Url();
    var body := i.hostname + ":" + Decimal(i.port) + i.path;
    assert url == Scheme(i.isHttps) + body;
    ParsedRemote(i.isHttps, body, fqdn);
    AfterAtSign(i.hostname, Decimal(i.port), i.path);
    RestOfCredentials(FRESH.(url := url, isHttps := i.isHttps), body);
    var (j, rest) := TakeCredentials(FRESH.(url := url, isHttps := i.isHttps), body);
    TargetFits(j.(url := Scheme(i.isHttps) + rest), rest, url);
  }

  // ---------------------------------------------------------------- credentials

  /** user:password@ in front of a URL changes nothing but the credentials. */
  lemma CredentialsAreSeparate(https: bool, user: string, password: string, rest: string, fqdn: string)
    requires ':' !in user && '@' !in user && '@' !in password && '@' !in rest
    ensures var i := Parsed(FRESH, fqdn, Scheme(https) + user + ":" + password + "@" + rest);
            var j := Parsed(FRESH, fqdn, Scheme(https) + rest);
            && i.username == user && i.password == password && i.isCredsValid
            && j.username == "" && j.password == "" && !j.isCredsValid
            && SameTarget(i, j) && i.url == j.url
  {
    hide Parsed, SetAuthority, Find, TakeCredentials;
    var body := user + ":" + password + "@" + rest;
    var full := Scheme(https) + user + ":" + password + "@" + rest;
    assert full == Scheme(https) + body;
    var plain := Scheme(https) + rest;
    ParsedRemote(https, body, fqdn);
    ParsedRemote(https, rest, fqdn);
    var i := FRESH.(url := full, isHttps := https);
    var j := FRESH.(url := plain, isHttps := https);
    CredentialsTaken(i, user, password, rest);
    NoCredentials(j, rest);
    var i' := i.(url := plain, username := user, password := password, isCredsValid := true);
    AuthorityIgnoresCredentials(i', j, rest, full, plain);
  }

  lemma CredentialsTaken(i: Info, user: string, password: string, rest: string)
    requires ':' !in user && '@' !in user && '@' !in password && '@' !in rest
    ensures TakeCredentials(i, user + ":" + password + "@" + rest)
         == (i.(username := user, password := password, isCredsValid := true), rest)
  {
    hide Find;
    var creds := user + ":" + password;
    var body := user + ":" + password + "@" + rest;
    assert body == creds + "@" + rest;
    assert body[..|creds|] == creds && body[|creds| + 1..] == rest;
    FindIs(body, '@', |creds|);
    assert creds[..|user|] == user && creds[|user| + 1..] == password;
    FindIs(creds, ':', |user|);
  }

  lemma NoCredentials(i: Info, rest: string)
    requires '@' !in rest
    ensures TakeCredentials(i, rest) == (i, rest)
  {
  }

  predicate EqualButCredentials(i: Info, j: Info) {
    i == j.(username := i.username, password := i.password, isCredsValid := i.isCredsValid, error := i.error)
  }

  /** Host, port and path are read without looking at the credentials. */
  lemma AuthorityIgnoresCredentials(i: Info, j: Info, rest: string, url: string, other: string)
    requires EqualButCredentials(i, j)
    ensures var k := SetAuthority(i, rest, url);
            var l := SetAuthority(j, rest, other);
            && EqualButCredentials(k, l)
            && k.username == i.username && k.password == i.password && k.isCredsValid == i.isCredsValid
            && l.username == j.username && l.password == j.password && l.isCredsValid == j.isCredsValid
  {
    hide TakeTarget, DefaultPort;
    TargetIgnoresCredentials(i, j, rest, url, other);
  }

  lemma TargetIgnoresCredentials(i: Info, j: Info, rest: string, url: string, other: string)
    requires EqualButCredentials(i, j)
    ensures var (k, named) := TakeTarget(i, rest, url);
            var (l, named') := TakeTarget(j, rest, other);
            && EqualButCredentials(k, l) && named == named'
            && k.username == i.username && k.password == i.password && k.isCredsValid == i.isCredsValid
            && l.username == j.username && l.password == j.password && l.isCredsValid == j.isCredsValid
  {
    hide Cut, PortOf, PortError;
  }

  // ---------------------------------------------------------------- an object that has been used before

  /** The text behind the scheme. */
  function Body(url: string): string {
    if StartsWith(url, "http://") then url[7..] else if StartsWith(url, "https://") then url[8..] else ""
  }

  /** A remote URL that says what the path is: it has a slash or, even if nothing is behind it, a port. */
  predicate NamesPath(url: string) {
    var rest := WithoutCredentials(Body(url));
    !IsLocalhost(url) && (':' in rest || '/' in rest)
  }

  lemma SlashOrPort(rest: string)
    ensures var a := Cut(rest);
            && (a.portText.Some? <==> ':' in rest)
            && (a.portText.None? ==> (a.path == "" <==> '/' !in rest))
  {
  }

  /** set() leaves isLocal alone, and the path if the URL does not name one. */
  lemma AuthorityOfUsed(i: Info, f: Info, rest: string, url: string)
    requires f.path == "" && i.port == f.port == PORT_NOT_SET && i.isHttps == f.isHttps
    ensures var u, v := SetAuthority(i, rest, url), SetAuthority(f, rest, url);
            && u.isValid == v.isValid && u.isLocal == i.isLocal && v.isLocal == f.isLocal
            && (v.isValid ==> (SameTarget(u, v) <==> i.path == "" || ':' in rest || '/' in rest))
  {
    hide TakeTarget, DefaultPort;
    TargetOfUsed(i, f, rest, url);
  }

  lemma TargetOfUsed(i: Info, f: Info, rest: string, url: string)
    requires f.path == "" && i.port == f.port && i.isHttps == f.isHttps
    ensures var (k, named) := TakeTarget(i, rest, url);
            var (l, named') := TakeTarget(f, rest, url);
            && named == named' && k.hostname == l.hostname && k.port == l.port && k.isHttps == l.isHttps
            && k.isLocal == i.isLocal && l.isLocal == f.isLocal && (!named ==> !k.isValid && !l.isValid)
            && (named ==> (k.path == l.path <==> i.path == "" || ':' in rest || '/' in rest))
  {
    hide Cut, PortOf, PortError;
    SlashOrPort(rest);
  }

  lemma RemoteOfUsed(i: Info, https: bool, url: string)
    requires StartsWith(url, Scheme(https))
    ensures var u, f := SetRemote(i, https, url), SetRemote(FRESH, https, url);
            var rest := WithoutCredentials(url[|Scheme(https)|..]);
            && u.isValid == f.isValid && u.isLocal == i.isLocal && !f.isLocal
            && (f.isValid ==> (SameTarget(u, f) <==> i.path == "" || ':' in rest || '/' in rest))
  {
    var body := url[|Scheme(https)|..];
    hide SetAuthority, SameTarget, StartsWith, TakeCredentials, WithoutCredentials, Scheme;
    var i', f' := i.(url := url, port := PORT_NOT_SET, isHttps := https), FRESH.(url := url, isHttps := https);
    RestOfCredentials(i', body);
    RestOfCredentials(f', body);
    var rest := WithoutCredentials(body);
    var j, g := TakeCredentials(i', body).0, TakeCredentials(f', body).0;
    AuthorityOfUsed(j.(url := Scheme(https) + rest), g.(url := Scheme(https) + rest), rest, url);
  }

  lemma BodyOf(https: bool, url: string)
    requires StartsWith(url, Scheme(https))
    ensures Body(url) == url[|Scheme(https)|..]
    ensures https ==> !StartsWith(url, "http://")
  {
    assert https ==> url[4] == 's';
  }

  /** The main result for a used object: a URL is accepted as on a fresh one, and gives the same target, local or not,
      exactly if the object was not local or the URL is, and the object had no path or the URL names one. */
  lemma UsedObject(i: Info, fqdn: string, url: string)
    ensures var u, f := Parsed(i, fqdn, url), Parsed(FRESH, fqdn, url);
            && u.isValid == f.isValid
            && (f.isValid ==>
                  (SameTarget(u, f) && u.isLocal == f.isLocal <==>
                   (!i.isLocal || IsLocalhost(url)) && (i.path == "" || NamesPath(url))))
  {
    hide SetRemote, TakeCredentials, WithoutCredentials, IsLocalhost, StartsWith, Body;
    if IsLocalhost(url) {
      var u, f := Parsed(i, fqdn, url), Parsed(FRESH, fqdn, url);
      assert SameTarget(u, f) <==> i.path == "";
    } else if StartsWith(url, Scheme(false)) {
      BodyOf(false, url);
      RemoteOfUsed(i, false, url);
      assert Parsed(i, fqdn, url) == SetRemote(i, false, url);
      assert Parsed(FRESH, fqdn, url) == SetRemote(FRESH, false, url);
    } else if StartsWith(url, Scheme(true)) {
      BodyOf(true, url);
      RemoteOfUsed(i, true, url);
      assert Parsed(i, fqdn, url) == SetRemote(i, true, url);
      assert Parsed(FRESH, fqdn, url) == SetRemote(FRESH, true, url);
    } else {
      assert !Parsed(i, fqdn, url).isValid && !Parsed(FRESH, fqdn, url).isValid;
    }
  }

  lemma LocalhostIsLocal(i: Info, fqdn: string)
    ensures Parsed(i, fqdn, "localhost").isLocal
  {
  }

  /** connectLocally() sets "localhost". Every remote URL set behind it stays local. */
  lemma LocalStaysLocal(fqdn: string, https: bool, rest: string)
    ensures var local := Parsed(FRESH, fqdn, "localhost");
            var u := Parsed(local, fqdn, Scheme(https) + rest);
            local.isLocal && u.isLocal && !Parsed(FRESH, fqdn, Scheme(https) + rest).isLocal
  {
    hide SetRemote, IsLocalhost, StartsWith;
    var local := Parsed(FRESH, fqdn, "localhost");
    var url := Scheme(https) + rest;
    LocalhostIsLocal(FRESH, fqdn);
    NotLocal(https, rest);
    RemoteOfUsed(local, https, url);
    assert Parsed(local, fqdn, url) == SetRemote(local, https, url);
    assert Parsed(FRESH, fqdn, url) == SetRemote(FRESH, https, url);
  }

  // ---------------------------------------------------------------- connecting again

  /** An '@' in the host or the path that url() prints is found where it stands. */
  lemma WhereAtSignIs(host: string, digits: string, path: string)
    requires ':' !in host && '@' !in digits
    ensures var body := host + ":" + digits + path;
            var at := Find(body, '@');
            if '@' in host then
              && at < |body| && ':' !in body[..at]
              && ':' in body[at + 1..] && Find(body[at + 1..], ':') < |host|
            else if '@' in path then
              && at < |body| && body[..at] == host + ":" + (digits + path[..Find(path, '@')])
              && body[at + 1..] == path[Find(path, '@') + 1..]
            else '@' !in body
  {
    hide Find;
    var body := host + ":" + digits + path;
    if '@' in host {
      var at := Find(host, '@');
      FindIs(body, '@', at);
      assert body[..at] == host[..at];
      assert body[at + 1..] == host[at + 1..] + ":" + digits + path;
      FindIs(body[at + 1..], ':', |host| - at - 1);
    } else if '@' in path {
      var k := |host| + 1 + |digits|;
      var at := k + Find(path, '@');
      assert body[k..] == path;
      assert body[..at] == host + ":" + (digits + path[..Find(path, '@')]);
      FindIs(body, '@', at);
      assert body[at + 1..] == path[Find(path, '@') + 1..];
    }
  }

  /** What is read behind an '@': the target is no longer than the text, or keeps its path. */
  lemma TargetOfRest(i: Info, rest: string, url: string)
    requires i.port == PORT_NOT_SET
    ensures var j := SetAuthority(i, rest, url);
            if ':' in rest || '/' in rest then
              j.isValid ==> |j.hostname| + |j.path| <= |rest| && (':' in rest ==> |j.hostname| == Find(rest, ':'))
            else
              && j.hostname == rest && j.path == i.path && j.port == DefaultPort(i.isHttps, i.path)
              && j.isValid == (rest != "") && j.isHttps == i.isHttps
  {
    hide Cut, PortOf, PortError, Find, DefaultPort;
    CutFits(rest);
    SlashOrPort(rest);
    HostOfPlainRest(rest);
  }

  lemma HostOfPlainRest(rest: string)
    ensures ':' !in rest && '/' !in rest ==> Cut(rest) == Authority(rest, None, "")
  {
  }

  lemma AuthorityKeepsRest(i: Info, rest: string, url: string)
    ensures var j := SetAuthority(i, rest, url);
            && j.username == i.username && j.password == i.password && j.isCredsValid == i.isCredsValid
            && j.isLocal == i.isLocal
  {
    hide Cut, PortOf, PortError, DefaultPort;
  }

  /** set(url()) of a remote or local object, in terms of the text behind the scheme. */
  lemma ReparsedRemote(i: Info, fqdn: string)
    ensures var body := i.hostname + ":" + Decimal(i.port) + i.path;
            var (k, rest) := TakeCredentials(i.(url := i.Url(), port := PORT_NOT_SET), body);
            Parsed(i, fqdn, i.Url()) == SetAuthority(k.(url := Scheme(i.isHttps) + rest), rest, i.Url())
  {
    hide IsLocalhost, StartsWith, TakeCredentials, SetAuthority, Decimal;
    var body := i.hostname + ":" + Decimal(i.port) + i.path;
    assert i.Url() == Scheme(i.isHttps) + body;
    NotLocal(i.isHttps, body);
  }

  /** The text behind the '@' names the host again and nothing else, and the port is the one set() would choose. */
  predicate SaysItAgain(i: Info) {
    && '@' !in i.hostname && '@' in i.path && '/' !in i.hostname
    && i.path[Find(i.path, '@') + 1..] == i.hostname && i.port == DefaultPort(i.isHttps, i.path)
  }

  /** A temporary connection connects to getUrl(), which sets the object from its own text. Without an '@' in host or
      path only the text is new. */
  lemma ReconnectKeeps(i: Info, fqdn: string)
    requires WellFormed(i.hostname, i.path) && i.port <= 65535 && i.isValid
    requires '@' !in i.hostname && '@' !in i.path
    ensures Parsed(i, fqdn, i.Url()) == i.(url := i.Url())
  {
    hide Parsed, Cut, PortOf, Decimal, Find, TakeCredentials;
    var body := i.hostname + ":" + Decimal(i.port) + i.path;
    ReparsedRemote(i, fqdn);
    NoCredentials(i.(url := i.Url(), port := PORT_NOT_SET), body);
    CutOfParts(i.hostname, Decimal(i.port), i.path);
    PortOfDecimal(i.port);
  }

  /** With one, the credentials are what stands before it, or are no longer valid. */
  lemma ReconnectCredentials(i: Info, fqdn: string)
    requires WellFormed(i.hostname, i.path) && i.port <= 65535
    ensures var j := Parsed(i, fqdn, i.Url());
            && j.isLocal == i.isLocal
            && ('@' in i.hostname ==> !j.isCredsValid && j.username == i.username && j.password == i.password)
            && ('@' !in i.hostname && '@' in i.path ==>
                 && j.isCredsValid && j.username == i.hostname
                 && j.password == Decimal(i.port) + i.path[..Find(i.path, '@')])
  {
    hide Parsed, SetAuthority, Find, Decimal;
    var body := i.hostname + ":" + Decimal(i.port) + i.path;
    var k0 := i.(url := i.Url(), port := PORT_NOT_SET);
    ReparsedRemote(i, fqdn);
    WhereAtSignIs(i.hostname, Decimal(i.port), i.path);
    var (k, rest) := TakeCredentials(k0, body);
    AuthorityKeepsRest(k.(url := Scheme(i.isHttps) + rest), rest, i.Url());
    if '@' !in i.hostname && '@' in i.path {
      var before := Decimal(i.port) + i.path[..Find(i.path, '@')];
      SplitAtColon(i.hostname, before);
    }
  }

  lemma SplitAtColon(user: string, password: string)
    requires ':' !in user
    ensures var creds := user + ":" + password;
            Find(creds, ':') == |user| && creds[..|user|] == user && creds[|user| + 1..] == password
  {
    var creds := user + ":" + password;
    assert creds[..|user|] == user;
    FindIs(creds, ':', |user|);
  }

  /** The main result for connecting again: the target is the same exactly if there is no '@' in host or path, or the
      one case in which the text behind it says the same again. */
  lemma ReconnectIff(i: Info, fqdn: string)
    requires WellFormed(i.hostname, i.path) && i.port <= 65535 && i.isValid
    ensures SameTarget(i, Parsed(i, fqdn, i.Url())) <==> ('@' !in i.hostname && '@' !in i.path) || SaysItAgain(i)
  {
    hide Parsed, SetAuthority, Find, Decimal, TakeCredentials;
    if '@' !in i.hostname && '@' !in i.path {
      ReconnectKeeps(i, fqdn);
    } else {
      var body := i.hostname + ":" + Decimal(i.port) + i.path;
      var k0 := i.(url := i.Url(), port := PORT_NOT_SET);
      ReparsedRemote(i, fqdn);
      WhereAtSignIs(i.hostname, Decimal(i.port), i.path);
      RestOfCredentials(k0, body);
      var (k, rest) := TakeCredentials(k0, body);
      TargetOfRest(k.(url := Scheme(i.isHttps) + rest), rest, i.Url());
    }
  }

  /** As for host b, port 5988 and path /a@b, which http://u@b:5988/a@b leaves. */
  lemma SayingItAgain(path: string, i: Info)
    requires path == "/a@b"
    requires i == FRESH.(hostname := "b", port := 5988, path := path, isHttps := false, isValid := true)
    ensures Kept(i) && SaysItAgain(i)
  {
    assert path[..2] == "/a" && path[3..] == "b";
    FindIs(path, '@', 2);
  }

  /** What every object keeps, whatever is set: a path is empty or starts with a slash, and a valid object has a host
      without colon and a legal port, if the name of this host has no colon. */
  predicate Kept(i: Info) {
    (i.path == "" || i.path[0] == '/') && (i.isValid ==> WellFormed(i.hostname, i.path) && i.port <= 65535)
  }

  lemma AuthorityKept(i: Info, rest: string, url: string)
    requires (i.path == "" || i.path[0] == '/') && i.port == PORT_NOT_SET
    ensures Kept(SetAuthority(i, rest, url))
  {
    hide Cut, PortOf, PortError;
    CutIsWellFormed(rest);
  }

  lemma SetKeeps(i: Info, fqdn: string, url: string)
    requires Kept(i) && fqdn != "" && ':' !in fqdn
    ensures Kept(Parsed(i, fqdn, url))
  {
    hide IsLocalhost, SetAuthority, StartsWith, TakeCredentials, Scheme;
    if !IsLocalhost(url) && (StartsWith(url, "http://") || StartsWith(url, "https://")) {
      var https := !StartsWith(url, "http://");
      PrefixFits(url);
      var k0 := i.(url := url, port := PORT_NOT_SET, isHttps := https);
      var body := url[|Scheme(https)|..];
      RestOfCredentials(k0, body);
      var (k, rest) := TakeCredentials(k0, body);
      AuthorityKept(k.(url := Scheme(https) + rest), rest, url);
    }
  }

  function SetAll(fqdn: string, urls: seq<string>): Info {
    if urls == [] then FRESH else Parsed(SetAll(fqdn, urls[..|urls| - 1]), fqdn, urls[|urls| - 1])
  }

  /** So the results on connecting again are about every object there is. */
  lemma {:induction false} AlwaysKept(fqdn: string, urls: seq<string>)
    requires fqdn != "" && ':' !in fqdn
    ensures Kept(SetAll(fqdn, urls))
  {
    hide Parsed, Kept;
    if urls == [] {
      FreshIsKept();
    } else {
      AlwaysKept(fqdn, urls[..|urls| - 1]);
      SetKeeps(SetAll(fqdn, urls[..|urls| - 1]), fqdn, urls[|urls| - 1]);
    }
  }

  lemma FreshIsKept()
    ensures Kept(FRESH)
  {
  }
}
