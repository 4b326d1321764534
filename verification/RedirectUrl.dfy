/**
 Redirect resolution (native_runtime/cpp/redirect_url.cc).  None stands for a throw.
 */
module RedirectUrl {
  import opened Primitives
  import opened SortedMap
  import opened Json
  import opened Text
  import opened DotSegments

  datatype Reference = Reference(
    scheme: Option<string>, authority: Option<string>, path: string, query: Option<string>, fragment: Option<string>)

  datatype HttpUrl = HttpUrl(
    scheme: string, host: string, port: Option<nat>, path: string, query: Option<string>, fragment: Option<string>)

  //
  // Characters
  //

  predicate ValidCharacter(c: char) { c > 0x20 as char && c != 0x7f as char && c != '\\' }

  /** ValidateURLCharacters does not throw. */
  predicate ValidText(s: string) { forall c <- s :: ValidCharacter(c) }

  predicate ValidScheme(s: string)
  {
    && s != "" && IsAlpha(s[0])
    && forall i :: 0 < i < |s| ==> IsAlphaNumeric(s[i]) || s[i] in {'+', '-', '.'}
  }

  //
  // Parsing
  //

  datatype Halves = Halves(front: string, back: Option<string>)

  /** The text before the first `c`, and the text after it if there is one. */
  function Cut(s: string, c: char): Halves
  {
    match IndexOf(s, c, 0)
    case None => Halves(s, None)
    case Some(i) => Halves(s[..i], Some(s[i + 1..]))
  }

  /** The authority and the path. */
  function ParseHierarchy(scheme: Option<string>, rest: string, query: Option<string>, fragment: Option<string>): Reference
  {
    if "//" <= rest then
      var after := rest[2..];
      match IndexOf(after, '/', 0)
      case None => Reference(scheme, Some(after), "", query, fragment)
      case Some(path) => Reference(scheme, Some(after[..path]), after[path..], query, fragment)
    else Reference(scheme, None, rest, query, fragment)
  }

  function ParseScheme(rest: string, query: Option<string>, fragment: Option<string>): Option<Reference>
  {
    var colon, slash := IndexOf(rest, ':', 0), IndexOf(rest, '/', 0);
    if colon.Some? && (slash.None? || colon.value < slash.value) then
      if ValidScheme(rest[..colon.value])
      then Some(ParseHierarchy(Some(LowerText(rest[..colon.value])), rest[colon.value + 1..], query, fragment))
      else None
    else Some(ParseHierarchy(None, rest, query, fragment))
  }

  function ParseReference(input: string): Option<Reference>
  {
    if !ValidText(input) then None
    else
      var outer := Cut(input, '#');
      var inner := Cut(outer.front, '?');
      ParseScheme(inner.front, inner.back, outer.back)
  }

  function ParsePort(t: string): (r: Option<nat>)
    ensures r.Some? ==> 0 < r.value <= 65535
  {
    if t != "" && AllDigits(t) && 0 < DigitsValue(t) <= 65535 then Some(DigitsValue(t)) else None
  }

  datatype HostPort = HostPort(host: string, port: string)

  /** The host in lower case and the text of the port, empty if there is none. */
  function SplitAuthority(authority: string): Option<HostPort>
  {
    if authority == "" || '@' in authority then None
    else if authority[0] == '[' then
      match IndexOf(authority, ']', 0)
      case None => None
      case Some(close) =>
        if close == 1 then None
        else
          var host, suffix := "[" + LowerText(authority[1..close]) + "]", authority[close + 1..];
          if suffix == "" then Some(HostPort(host, ""))
          else if suffix[0] != ':' || |suffix| == 1 then None
          else Some(HostPort(host, suffix[1..]))
    else
      match LastIndexOf(authority, ':')
      case None => Some(HostPort(LowerText(authority), ""))
      case Some(colon) =>
        if IndexOf(authority, ':', 0) != Some(colon) || colon + 1 == |authority| || colon == 0 then None
        else Some(HostPort(LowerText(authority[..colon]), authority[colon + 1..]))
  }

  predicate IsDefault(scheme: string, port: nat)
  {
    (scheme == "http" && port == 80) || (scheme == "https" && port == 443)
  }

  function ParseHttp(r: Reference): Option<HttpUrl>
  {
    if r.scheme.None? || r.authority.None? || (r.scheme.value != "http" && r.scheme.value != "https") then None
    else
      var scheme, split := r.scheme.value, SplitAuthority(r.authority.value);
      var path := if r.path == "" then "/" else r.path;
      if split.None? || path[0] != '/' then None
      else if split.value.port == "" then Some(HttpUrl(scheme, split.value.host, None, path, r.query, r.fragment))
      else
        var port := ParsePort(split.value.port);
        if port.None? then None
        else
          Some(HttpUrl(scheme, split.value.host, if IsDefault(scheme, port.value) then None else port, path, r.query, r.fragment))
  }

  /** ParseAbsoluteHTTPURL */
  function ParseAbsolute(s: string): Option<HttpUrl>
  {
    match ParseReference(s)
    case None => None
    case Some(r) => ParseHttp(r)
  }

  //
  // Printing
  //

  function AuthorityText(u: HttpUrl): string
  {
    u.host + if u.port.Some? then ":" + NatText(u.port.value) else ""
  }

  function Tail(mark: char, part: Option<string>): string
  {
    if part.Some? then [mark] + part.value else ""
  }

  /** An authority and what follows it. */
  function HierarchyText(authority: string, path: string, query: Option<string>, fragment: Option<string>): string
  {
    "//" + authority + path + Tail('?', query) + Tail('#', fragment)
  }

  /** Serialize, with the fragment. */
  function Serialize(u: HttpUrl): string
  {
    u.scheme + ":" + HierarchyText(AuthorityText(u), if u.path == "" then "/" else u.path, u.query, u.fragment)
  }

  /** HTTPRequestTarget */
  function RequestTarget(s: string): Option<string>
  {
    match ParseAbsolute(s)
    case None => None
    case Some(u) => Some((if u.path == "" then "/" else u.path) + Tail('?', u.query))
  }

  //
  // What parsing guarantees
  //

  predicate Without(s: string, cs: set<char>) { forall c <- s :: c !in cs }

  predicate Optionally(part: Option<string>, cs: set<char>) { part.Some? ==> ValidText(part.value) && Without(part.value, cs) }

  /** The parts contain neither forbidden characters nor the marks that end them. */
  predicate CleanReference(r: Reference)
  {
    && Optionally(r.authority, {'/', '?', '#'})
    && ValidText(r.path) && Without(r.path, {'?', '#'})
    && (r.authority.Some? ==> r.path == "" || Rooted(r.path))
    && Optionally(r.query, {'#'}) && Optionally(r.fragment, {})
  }

  predicate CleanHost(h: string)
  {
    && h != "" && LowerText(h) == h && ValidText(h) && Without(h, {'/', '?', '#', '@'})
    && if h[0] == '[' then |h| > 2 && h[|h| - 1] == ']' && ']' !in h[..|h| - 1] else ':' !in h
  }

  predicate CleanUrl(u: HttpUrl)
  {
    && u.scheme in {"http", "https"} && CleanHost(u.host)
    && (u.port.Some? ==> 0 < u.port.value <= 65535 && !IsDefault(u.scheme, u.port.value))
    && Rooted(u.path) && ValidText(u.path) && Without(u.path, {'?', '#'})
    && Optionally(u.query, {'#'}) && Optionally(u.fragment, {})
  }

  /** Exactly the texts without blanks, control bytes and backslashes pass. */
  lemma CharactersExactly(s: string)
    ensures ValidText(s) <==> forall i :: 0 <= i < |s| ==> 0x21 <= s[i] as int && s[i] as int != 0x7F && s[i] != '\\'
  {
    assert forall i :: 0 <= i < |s| ==> s[i] in s;
    if forall i :: 0 <= i < |s| ==> 0x21 <= s[i] as int && s[i] as int != 0x7F && s[i] != '\\' {
      forall c | c in s
        ensures ValidCharacter(c)
      {
        var i :| 0 <= i < |s| && s[i] == c;
      }
    }
  }

  lemma CutIsClean(s: string, c: char, cs: set<char>)
    requires ValidText(s) && Without(s, cs)
    ensures var h := Cut(s, c);
            && ValidText(h.front) && Without(h.front, cs + {c}) && Optionally(h.back, cs)
            && s == h.front + Tail(c, h.back)
  {
    var i := IndexOf(s, c, 0);
    if i.Some? { assert s == s[..i.value] + [c] + s[i.value + 1..]; }
  }

  lemma ReferenceIsClean(input: string)
    requires ParseReference(input).Some?
    ensures CleanReference(ParseReference(input).value)
  {
    hide Cut, ParseScheme, CleanReference;
    CutIsClean(input, '#', {});
    var outer := Cut(input, '#');
    CutIsClean(outer.front, '?', {'#'});
    var inner := Cut(outer.front, '?');
    assert Without(inner.front, {'?', '#'});
    SchemeIsClean(inner.front, inner.back, outer.back);
  }

  lemma SchemeIsClean(rest: string, query: Option<string>, fragment: Option<string>)
    requires ValidText(rest) && Without(rest, {'?', '#'}) && Optionally(query, {'#'}) && Optionally(fragment, {})
    requires ParseScheme(rest, query, fragment).Some?
    ensures CleanReference(ParseScheme(rest, query, fragment).value)
  {
    hide ParseHierarchy, CleanReference, IndexOf, LowerText, ValidScheme;
    var colon, slash := IndexOf(rest, ':', 0), IndexOf(rest, '/', 0);
    if colon.Some? && (slash.None? || colon.value < slash.value) {
      HierarchyIsClean(Some(LowerText(rest[..colon.value])), rest[colon.value + 1..], query, fragment);
    } else {
      HierarchyIsClean(None, rest, query, fragment);
    }
  }

  lemma HierarchyIsClean(scheme: Option<string>, rest: string, query: Option<string>, fragment: Option<string>)
    requires ValidText(rest) && Without(rest, {'?', '#'}) && Optionally(query, {'#'}) && Optionally(fragment, {})
    ensures CleanReference(ParseHierarchy(scheme, rest, query, fragment))
  {
    hide IndexOf;
  }

  lemma LowerKeeps(s: string, cs: set<char>)
    requires Without(s, cs) && forall c <- cs :: !('a' <= c <= 'z') && Lower(c) == c
    ensures Without(LowerText(s), cs) && (ValidText(s) ==> ValidText(LowerText(s))) && LowerText(LowerText(s)) == LowerText(s)
  {
    var t := LowerText(s);
    forall c | c in t
      ensures c !in cs && (ValidText(s) ==> ValidCharacter(c))
    {
      var i :| 0 <= i < |t| && t[i] == c;
      assert s[i] in s;
    }
  }

  lemma HostIsClean(authority: string)
    requires SplitAuthority(authority).Some? && ValidText(authority) && Without(authority, {'/', '?', '#'})
    ensures CleanHost(SplitAuthority(authority).value.host)
  {
    hide IndexOf, LastIndexOf, LowerText;
    if authority[0] == '[' {
      BracketedIsClean(authority);
    } else {
      NameIsClean(authority);
    }
  }

  lemma BracketedIsClean(authority: string)
    requires SplitAuthority(authority).Some? && ValidText(authority) && Without(authority, {'/', '?', '#'})
    requires authority[0] == '['
    ensures CleanHost(SplitAuthority(authority).value.host)
  {
    hide IndexOf, LastIndexOf, LowerText, CleanHost;
    var close := IndexOf(authority, ']', 0).value;
    var inside := authority[1..close];
    assert inside != "" && ValidText(inside) && Without(inside, {'/', '?', '#', '@', ']'});
    BracketsAreClean(inside);
  }

  lemma BracketsAreClean(inside: string)
    requires inside != "" && ValidText(inside) && Without(inside, {'/', '?', '#', '@', ']'})
    ensures CleanHost("[" + LowerText(inside) + "]")
  {
    var lower := LowerText(inside);
    var host := "[" + lower + "]";
    LowerKeeps(inside, {'/', '?', '#', '@', ']'});
    assert host[..|host| - 1] == "[" + lower;
    assert LowerText(host) == host by {
      forall i | 0 <= i < |host|
        ensures Lower(host[i]) == host[i]
      {
        if 0 < i < |host| - 1 { assert host[i] == lower[i - 1] == LowerText(lower)[i - 1]; }
      }
    }
  }

  lemma NameIsClean(authority: string)
    requires SplitAuthority(authority).Some? && ValidText(authority) && Without(authority, {'/', '?', '#'})
    requires authority[0] != '['
    ensures CleanHost(SplitAuthority(authority).value.host)
  {
    hide IndexOf, LastIndexOf, LowerText;
    var colon := LastIndexOf(authority, ':');
    var name := if colon.Some? then authority[..colon.value] else authority;
    assert Without(name, {'/', '?', '#', '@', ':'});
    LowerKeeps(name, {'/', '?', '#', '@', ':'});
    assert LowerText(name)[0] == Lower(authority[0]) != '[';
  }

  /** Every accepted URL is clean: lower-case host, no default port, rooted path. */
  lemma AbsoluteIsClean(s: string)
    requires ParseAbsolute(s).Some?
    ensures CleanUrl(ParseAbsolute(s).value)
  {
    hide ParseReference, SplitAuthority, CleanHost, ParsePort;
    ReferenceIsClean(s);
    HostIsClean(ParseReference(s).value.authority.value);
  }

  //
  // Reading back what was printed
  //

  lemma CutJoined(front: string, c: char, back: Option<string>)
    requires c !in front
    ensures Cut(front + Tail(c, back), c) == Halves(front, back)
  {
    hide IndexOf;
    var s := front + Tail(c, back);
    assert s[0..] == s;
    if back.Some? {
      assert s == front + [c] + back.value;
      FindAfter(s, c, 0, front, back.value);
    } else {
      FindNothing(s, c, 0);
    }
  }

  lemma HierarchyReads(
    scheme: Option<string>, authority: string, path: string, query: Option<string>, fragment: Option<string>)
    requires Without(authority, {'/', '?', '#'}) && (path == "" || Rooted(path))
    ensures ParseHierarchy(scheme, "//" + authority + path, query, fragment) ==
            Reference(scheme, Some(authority), path, query, fragment)
  {
    hide IndexOf;
    var rest := "//" + authority + path;
    assert rest[2..] == authority + path && rest[..2] == "//";
    var after := authority + path;
    assert after[0..] == after;
    if path == "" {
      FindNothing(after, '/', 0);
      assert after == authority;
    } else {
      assert after == authority + ['/'] + path[1..];
      FindAfter(after, '/', 0, authority, path[1..]);
      assert after[|authority|..] == path;
    }
  }

  lemma HttpScheme(scheme: string)
    requires scheme in {"http", "https"}
    ensures ':' !in scheme && '/' !in scheme + ":" && ValidScheme(scheme) && LowerText(scheme) == scheme
  {
  }

  lemma SchemeReads(
    scheme: string, authority: string, path: string, query: Option<string>, fragment: Option<string>)
    requires scheme in {"http", "https"}
    requires Without(authority, {'/', '?', '#'}) && (path == "" || Rooted(path))
    ensures ParseScheme(scheme + ":" + ("//" + authority + path), query, fragment) ==
            Some(Reference(Some(scheme), Some(authority), path, query, fragment))
  {
    hide IndexOf, ParseHierarchy, ValidScheme, LowerText;
    HttpScheme(scheme);
    var rest := "//" + authority + path;
    var s := scheme + ":" + rest;
    assert s[0..] == s;
    assert s == scheme + [':'] + rest;
    FindAfter(s, ':', 0, scheme, rest);
    assert s == (scheme + ":") + ['/'] + ("/" + authority + path);
    FindAfter(s, '/', 0, scheme + ":", "/" + authority + path);
    HierarchyReads(Some(scheme), authority, path, query, fragment);
  }

  /** A URL put together from clean parts is taken apart into the same parts. */
  lemma ComposedReads(
    scheme: string, authority: string, path: string, query: Option<string>, fragment: Option<string>)
    requires scheme in {"http", "https"}
    requires CleanReference(Reference(Some(scheme), Some(authority), path, query, fragment))
    ensures ParseReference(scheme + ":" + HierarchyText(authority, path, query, fragment)) ==
            Some(Reference(Some(scheme), Some(authority), path, query, fragment))
  {
    hide Cut, ParseScheme;
    var front := scheme + ":" + ("//" + authority + path);
    var middle := front + Tail('?', query);
    var s := middle + Tail('#', fragment);
    assert s == scheme + ":" + HierarchyText(authority, path, query, fragment);
    assert ValidText(s) && '?' !in front && '#' !in middle by { ComposedCharacters(scheme, authority, path, query, fragment); }
    CutJoined(middle, '#', fragment);
    CutJoined(front, '?', query);
    SchemeReads(scheme, authority, path, query, fragment);
  }

  lemma ComposedCharacters(
    scheme: string, authority: string, path: string, query: Option<string>, fragment: Option<string>)
    requires scheme in {"http", "https"}
    requires CleanReference(Reference(Some(scheme), Some(authority), path, query, fragment))
    ensures var front := scheme + ":" + ("//" + authority + path);
            var middle := front + Tail('?', query);
            ValidText(middle + Tail('#', fragment)) && '?' !in front && '#' !in middle
  {
    assert ValidText(scheme + ":" + "//") && '?' !in scheme + ":" + "//" && '#' !in scheme + ":" + "//";
    var front := scheme + ":" + ("//" + authority + path);
    assert front == (scheme + ":" + "//") + authority + path;
    assert ValidText(front) && '?' !in front && '#' !in front;
    assert ValidText(Tail('?', query)) && '#' !in Tail('?', query) && ValidText(Tail('#', fragment));
  }

  lemma PortReads(port: nat)
    requires 0 < port <= 65535
    ensures ParsePort(NatText(port)) == Some(port)
    ensures NatText(port) != "" && Without(NatText(port), {'/', '?', '#', '@', ':', ']'}) && ValidText(NatText(port))
  {
    hide NatText, DigitsValue;
    NatTextValue(port);
  }

  /** What an authority is made of: a host in brackets or without a colon, and a port that is
      not empty if there is one. */
  ghost predicate IsAuthority(a: string, host: string, port: Option<string>)
  {
    && a == host + Tail(':', port) && '@' !in a && host != "" && (port.Some? ==> port.value != "")
    && if host[0] == '[' then |host| > 2 && host[|host| - 1] == ']' && ']' !in host[..|host| - 1]
       else ':' !in host && (port.Some? ==> ':' !in port.value)
  }

  function PortText(port: Option<string>): string { if port.Some? then port.value else "" }

  /** Exactly these are accepted, with the host in lower case. */
  lemma AuthorityExactly(a: string, h: HostPort)
    ensures SplitAuthority(a) == Some(h) <==>
            exists host, port :: IsAuthority(a, host, port) && h == HostPort(LowerText(host), PortText(port))
  {
    hide SplitAuthority, LowerText;
    if SplitAuthority(a) == Some(h) {
      var host, port := AuthorityFound(a);
    }
    if host, port :| IsAuthority(a, host, port) && h == HostPort(LowerText(host), PortText(port)) {
      AuthorityAccepted(a, host, port);
    }
  }

  lemma AuthorityFound(a: string) returns (host: string, port: Option<string>)
    requires SplitAuthority(a).Some?
    ensures IsAuthority(a, host, port) && SplitAuthority(a).value == HostPort(LowerText(host), PortText(port))
  {
    hide IndexOf, LastIndexOf, LowerText, IsAuthority, SplitAuthority;
    SplitUnfolded(a);
    if a[0] == '[' {
      host, port := BracketsFound(a);
    } else {
      host, port := NameFound(a);
    }
  }

  lemma SplitUnfolded(a: string)
    requires SplitAuthority(a).Some?
    ensures a != "" && '@' !in a
  {
  }

  lemma BracketsFound(a: string) returns (host: string, port: Option<string>)
    requires SplitAuthority(a).Some? && a[0] == '['
    ensures IsAuthority(a, host, port) && SplitAuthority(a).value == HostPort(LowerText(host), PortText(port))
  {
    hide IndexOf, LastIndexOf, LowerText;
    var close := IndexOf(a, ']', 0).value;
    var suffix := a[close + 1..];
    host, port := a[..close + 1], if suffix == "" then None else Some(suffix[1..]);
    assert host[..|host| - 1] == a[..close] && host == "[" + a[1..close] + "]";
    LowerBracketed(a[1..close]);
    assert a == host + suffix;
    if suffix != "" { assert suffix == ":" + suffix[1..]; }
  }

  lemma NameFound(a: string) returns (host: string, port: Option<string>)
    requires SplitAuthority(a).Some? && a[0] != '['
    ensures IsAuthority(a, host, port) && SplitAuthority(a).value == HostPort(LowerText(host), PortText(port))
  {
    hide IndexOf, LastIndexOf, LowerText;
    var colon := LastIndexOf(a, ':');
    if colon.None? {
      host, port := a, None;
      assert host + "" == a;
    } else {
      host, port := a[..colon.value], Some(a[colon.value + 1..]);
      assert a == host + [':'] + a[colon.value + 1..];
      assert ':' !in host && ':' !in a[colon.value + 1..];
    }
  }

  lemma LowerBracketed(inside: string)
    ensures LowerText("[" + inside + "]") == "[" + LowerText(inside) + "]"
  {
  }

  lemma AuthorityAccepted(a: string, host: string, port: Option<string>)
    requires IsAuthority(a, host, port)
    ensures SplitAuthority(a) == Some(HostPort(LowerText(host), PortText(port)))
  {
    hide LowerText, SplitAuthority;
    if host[0] == '[' {
      BracketsAccepted(host, port);
    } else {
      NameAccepted(host, port);
    }
  }

  lemma BracketsAccepted(host: string, port: Option<string>)
    requires IsAuthority(host + Tail(':', port), host, port) && host[0] == '['
    ensures SplitAuthority(host + Tail(':', port)) == Some(HostPort(LowerText(host), PortText(port)))
  {
    hide IndexOf, LastIndexOf, LowerText;
    BracketFound(host, Tail(':', port));
    assert host == "[" + host[1..|host| - 1] + "]";
    LowerBracketed(host[1..|host| - 1]);
  }

  lemma NameAccepted(host: string, port: Option<string>)
    requires IsAuthority(host + Tail(':', port), host, port) && host[0] != '['
    ensures SplitAuthority(host + Tail(':', port)) == Some(HostPort(LowerText(host), PortText(port)))
  {
    hide IndexOf, LastIndexOf, LowerText;
    var a := host + Tail(':', port);
    assert a[0..] == a;
    if port.Some? {
      var p := port.value;
      assert a == host + [':'] + p;
      FindAfter(a, ':', 0, host, p);
      assert forall i :: |host| < i < |a| ==> a[i] == p[i - |host| - 1];
      assert LastIndexOf(a, ':') == Some(|host|);
      assert a[..|host|] == host && a[|host| + 1..] == p;
    } else {
      assert a == host;
    }
  }

  lemma AuthorityReads(u: HttpUrl)
    requires CleanHost(u.host) && (u.port.Some? ==> 0 < u.port.value <= 65535)
    ensures SplitAuthority(AuthorityText(u)) ==
            Some(HostPort(u.host, if u.port.Some? then NatText(u.port.value) else ""))
    ensures ValidText(AuthorityText(u)) && Without(AuthorityText(u), {'/', '?', '#'})
  {
    hide NatText, SplitAuthority, LowerText;
    if u.port.Some? { PortReads(u.port.value); }
    var port := if u.port.Some? then NatText(u.port.value) else "";
    if u.host[0] == '[' {
      BracketedReads(u.host, port);
    } else {
      NameReads(u.host, port);
    }
  }

  lemma LowerInside(host: string)
    requires LowerText(host) == host && |host| > 2 && host[0] == '[' && host[|host| - 1] == ']'
    ensures "[" + LowerText(host[1..|host| - 1]) + "]" == host
  {
    var inside := host[1..|host| - 1];
    forall i | 0 <= i < |inside|
      ensures Lower(inside[i]) == inside[i]
    {
      assert inside[i] == host[i + 1] == LowerText(host)[i + 1];
    }
    assert LowerText(inside) == inside;
  }

  lemma BracketFound(host: string, suffix: string)
    requires |host| > 2 && host[|host| - 1] == ']' && ']' !in host[..|host| - 1]
    ensures var authority, close := host + suffix, |host| - 1;
            && IndexOf(authority, ']', 0) == Some(close)
            && authority[1..close] == host[1..close] && authority[close + 1..] == suffix
  {
    hide IndexOf;
    var authority, close := host + suffix, |host| - 1;
    assert authority[0..] == authority;
    assert authority == host[..close] + [']'] + suffix;
    FindAfter(authority, ']', 0, host[..close], suffix);
  }

  lemma BracketedReads(host: string, port: string)
    requires CleanHost(host) && host[0] == '[' && Without(port, {'@'})
    ensures SplitAuthority(host + if port == "" then "" else ":" + port) == Some(HostPort(host, port))
  {
    hide IndexOf, LastIndexOf, LowerText, ValidText;
    BracketFound(host, "");
    BracketFound(host, ":" + port);
    LowerInside(host);
    assert host + "" == host && '@' !in host && '@' !in port;
    assert (":" + port)[1..] == port;
  }

  lemma NameReads(host: string, port: string)
    requires CleanHost(host) && host[0] != '[' && Without(port, {'@', ':'})
    ensures SplitAuthority(host + if port == "" then "" else ":" + port) == Some(HostPort(host, port))
  {
    hide IndexOf, LastIndexOf, LowerText;
    var authority := host + if port == "" then "" else ":" + port;
    assert authority[0..] == authority;
    if port == "" {
      assert authority == host;
    } else {
      assert authority == host + [':'] + port;
      FindAfter(authority, ':', 0, host, port);
      assert forall i :: |host| < i < |authority| ==> authority[i] == port[i - |host| - 1];
      assert LastIndexOf(authority, ':') == Some(|host|);
      assert authority[..|host|] == host && authority[|host| + 1..] == port;
    }
  }

  /** A clean URL is read back from its text. */
  lemma SerializedReads(u: HttpUrl)
    requires CleanUrl(u)
    ensures ParseAbsolute(Serialize(u)) == Some(u)
  {
    hide ParseReference, SplitAuthority, CleanHost, AuthorityText, HierarchyText, ParsePort;
    AuthorityReads(u);
    ComposedReads(u.scheme, AuthorityText(u), u.path, u.query, u.fragment);
    if u.port.Some? { PortReads(u.port.value); }
  }

  /** A port is read as written, except that the port of the scheme is left out. */
  lemma PortsExactly(u: HttpUrl, n: nat)
    requires CleanUrl(u.(port := None)) && 0 < n <= 65535
    ensures var default := if u.scheme == "http" then 80 else 443;
            ParseAbsolute(Serialize(u.(port := Some(n)))) == Some(u.(port := if n == default then None else Some(n)))
  {
    hide ParseReference, SplitAuthority, CleanHost, AuthorityText, HierarchyText, ParsePort;
    var v := u.(port := Some(n));
    AuthorityReads(v);
    ComposedReads(v.scheme, AuthorityText(v), v.path, v.query, v.fragment);
    PortReads(n);
  }

  //
  // Resolution
  //

  function MergePaths(base: string, relative: string): string
  {
    (match LastIndexOf(base, '/') case None => "/" case Some(slash) => base[..slash + 1]) + relative
  }

  lemma MergedIsRooted(base: string, relative: string)
    requires Rooted(base)
    ensures Rooted(MergePaths(base, relative))
  {
  }

  /** Section 5.2.3 of RFC 3986 in terms of segments: the last segment of the base gives way
      to those of the reference. */
  lemma MergeBySegments(base: string, relative: string)
    requires Rooted(base)
    ensures SegmentsOf(MergePaths(base, relative)) ==
            SegmentsOf(base)[..|SegmentsOf(base)| - 1] + Split(relative, '/')
  {
    hide Split, Join, PathOf, LastIndexOf;
    var segments := SegmentsOf(base);
    var front, more := segments[..|segments| - 1], Split(relative, '/');
    SegmentsFree(base);
    PathJoins(segments);
    assert base == PathOf(segments);
    LastSlash(segments);
    assert MergePaths(base, relative) == PathOf(front) + "/" + relative;
    SplitJoins(relative, '/');
    PathMore(front, more);
    PathJoins(front + more);
    JoinSplits(front + more, '/');
  }

  lemma LastSlash(segments: seq<string>)
    requires segments != [] && Free(segments, '/')
    ensures LastIndexOf(PathOf(segments), '/') == Some(|PathOf(segments[..|segments| - 1])|)
    ensures PathOf(segments)[..|PathOf(segments[..|segments| - 1])|] == PathOf(segments[..|segments| - 1])
  {
    hide LastIndexOf;
    var front, last, all := PathOf(segments[..|segments| - 1]), segments[|segments| - 1], PathOf(segments);
    assert all == front + "/" + last && all[|front|] == '/';
    assert forall i :: |front| < i < |all| ==> all[i] == last[i - |front| - 1];
  }

  lemma {:induction false} PathMore(front: seq<string>, more: seq<string>)
    requires more != []
    ensures PathOf(front + more) == PathOf(front) + "/" + Join(more, '/')
    decreases |more|
  {
    PushAppends(front, more[0]);
    if |more| == 1 {
      assert front + more == front + [more[0]];
    } else {
      PathMore(front + [more[0]], more[1..]);
      assert front + more == front + [more[0]] + more[1..];
    }
  }

  /** Removal of dot segments as the code does it. */
  function Removed(path: string): string { Turns(Buffers(path, "")) }

  function Target(base: HttpUrl, location: string, r: Reference): Option<HttpUrl>
  {
    if r.scheme.Some? then
      match ParseAbsolute(location)
      case None => None
      case Some(u) => Some(u.(path := Removed(u.path)))
    else if r.authority.Some? then
      match ParseAbsolute(base.scheme + ":" + location)
      case None => None
      case Some(u) => Some(u.(path := Removed(u.path)))
    else if r.path == "" then
      Some(base.(query := if r.query.Some? then r.query else base.query, fragment := r.fragment))
    else
      Some(base.(
        path := Removed(if r.path[0] == '/' then r.path else MergePaths(base.path, r.path)),
        query := r.query,
        fragment := r.fragment))
  }

  /** The resolved URL, before it is printed. */
  function ResolveTarget(source: string, location: string): Option<HttpUrl>
  {
    var base, r := ParseAbsolute(source), ParseReference(location);
    if base.None? || r.None? then None
    else
      match Target(base.value, location, r.value)
      case None => None
      case Some(u) => if base.value.scheme == "https" && u.scheme != "https" then None else Some(u)
  }

  /** ResolveRedirectURL */
  method ResolveRedirectURL(source: string, location: string) returns (r: Option<string>)
    ensures r == match ResolveTarget(source, location) case None => None case Some(u) => Some(Serialize(u))
  {
    hide ParseReference, ParseAbsolute, Serialize, Turns, MergePaths;
    var base := ParseAbsolute(source);
    if base == None { return None; }
    var reference := ParseReference(location);
    if reference == None { return None; }
    var target: HttpUrl;
    if reference.value.scheme.Some? {
      var parsed := ParseAbsolute(location);
      if parsed == None { return None; }
      var path := RemoveDotSegments(parsed.value.path);
      target := parsed.value.(path := path);
    } else if reference.value.authority.Some? {
      var parsed := ParseAbsolute(base.value.scheme + ":" + location);
      if parsed == None { return None; }
      var path := RemoveDotSegments(parsed.value.path);
      target := parsed.value.(path := path);
    } else {
      target := base.value;
      if reference.value.path == "" {
        if reference.value.query.Some? { target := target.(query := reference.value.query); }
      } else {
        var path := RemoveDotSegments(
          if reference.value.path[0] == '/' then reference.value.path
          else MergePaths(base.value.path, reference.value.path));
        target := target.(path := path, query := reference.value.query);
      }
      target := target.(fragment := reference.value.fragment);
    }
    if base.value.scheme == "https" && target.scheme != "https" { return None; }
    return Some(Serialize(target));
  }

  lemma RemovedIsClean(path: string)
    requires Rooted(path) && ValidText(path) && Without(path, {'?', '#'})
    ensures Removed(path) == Normal(path)
    ensures Rooted(Removed(path)) && ValidText(Removed(path)) && Without(Removed(path), {'?', '#'})
  {
    hide Turns, Normal;
    NothingYet();
    TurnsWalk(Buffers(path, ""), []);
    NormalIsNormal(path);
    assert Normal(path) == PathOf(Walk([], SegmentsOf(path))) by { NormalUnfolds(path); }
    forall c | c in Normal(path)
      ensures ValidCharacter(c) && c !in {'?', '#'}
    {
      if c != '/' && c !in path { NormalCharacters(path, c); }
    }
  }

  lemma NormalUnfolds(path: string)
    requires Rooted(path)
    ensures Normal(path) == PathOf(Walk([], SegmentsOf(path)))
  {
  }

  lemma MergedIsClean(base: string, relative: string)
    requires Rooted(base) && ValidText(base) && Without(base, {'?', '#'}) && ValidText(relative) && Without(relative, {'?', '#'})
    ensures var m := MergePaths(base, relative); Rooted(m) && ValidText(m) && Without(m, {'?', '#'})
  {
    hide LastIndexOf;
    MergedIsRooted(base, relative);
  }

  /** The resolved URL is clean, and keeps to https if the source does. */
  lemma TargetIsClean(source: string, location: string)
    requires ResolveTarget(source, location).Some?
    ensures CleanUrl(ResolveTarget(source, location).value)
    ensures ParseAbsolute(source).value.scheme == "https" ==> ResolveTarget(source, location).value.scheme == "https"
  {
    hide ParseAbsolute, ParseReference, MergePaths, Removed, CleanHost;
    var base, r := ParseAbsolute(source).value, ParseReference(location).value;
    AbsoluteIsClean(source);
    ReferenceIsClean(location);
    if r.scheme.Some? {
      AbsoluteIsClean(location);
      RemovedIsClean(ParseAbsolute(location).value.path);
    } else if r.authority.Some? {
      AbsoluteIsClean(base.scheme + ":" + location);
      RemovedIsClean(ParseAbsolute(base.scheme + ":" + location).value.path);
    } else if r.path != "" {
      if r.path[0] == '/' {
        RemovedIsClean(r.path);
      } else {
        MergedIsClean(base.path, r.path);
        RemovedIsClean(MergePaths(base.path, r.path));
      }
    }
  }

  /** Every URL that is returned is read back as exactly the parts it was printed from. */
  lemma ResolvedReads(source: string, location: string)
    requires ResolveTarget(source, location).Some?
    ensures ParseAbsolute(Serialize(ResolveTarget(source, location).value)) == ResolveTarget(source, location)
  {
    hide ResolveTarget, CleanUrl, Serialize, ParseAbsolute;
    TargetIsClean(source, location);
    SerializedReads(ResolveTarget(source, location).value);
  }

  //
  // Chains of redirects
  //

  function Resolve(source: string, location: string): Option<string>
  {
    match ResolveTarget(source, location) case None => None case Some(u) => Some(Serialize(u))
  }

  /** Following a list of Location headers one after the other. */
  function Follow(start: string, locations: seq<string>): Option<string>
    decreases |locations|
  {
    if locations == [] then Some(start)
    else
      match Resolve(start, locations[0])
      case None => None
      case Some(next) => Follow(next, locations[1..])
  }

  /** Along a chain of any length every URL parses into clean parts, so that a default port
      never reappears; a chain that starts with https stays with it; and the request target
      is the path and the query, never the fragment. */
  lemma {:induction false} ChainStaysClean(start: string, locations: seq<string>)
    requires ParseAbsolute(start).Some? && Follow(start, locations).Some?
    ensures var end := Follow(start, locations).value;
            && ParseAbsolute(end).Some? && CleanUrl(ParseAbsolute(end).value)
            && (ParseAbsolute(start).value.scheme == "https" ==> ParseAbsolute(end).value.scheme == "https")
            && RequestTarget(end).Some? && '#' !in RequestTarget(end).value && Rooted(RequestTarget(end).value)
            && IsMiddle(RequestTarget(end).value, ParseAbsolute(end).value)
            && (locations != [] ==> end == Serialize(ParseAbsolute(end).value))
    decreases |locations|
  {
    hide ParseAbsolute, ResolveTarget, Serialize, CleanUrl;
    if locations == [] {
      AbsoluteIsClean(start);
      TargetHasNoFragment(start);
    } else {
      var u := ResolveTarget(start, locations[0]);
      ResolvedReads(start, locations[0]);
      TargetIsClean(start, locations[0]);
      ChainStaysClean(Serialize(u.value), locations[1..]);
      if |locations| == 1 { assert Follow(start, locations) == Follow(Serialize(u.value), []); }
    }
  }

  /** The target is what stands between the authority and the fragment of the printed URL. */
  ghost predicate IsMiddle(target: string, u: HttpUrl)
  {
    u.scheme + "://" + AuthorityText(u) + target + Tail('#', u.fragment) == Serialize(u)
  }

  /** For every clean URL the request target is exactly the middle of its text. */
  lemma TargetIsMiddle(u: HttpUrl)
    requires CleanUrl(u)
    ensures RequestTarget(Serialize(u)).Some? && IsMiddle(RequestTarget(Serialize(u)).value, u)
  {
    hide ParseAbsolute, CleanUrl, Serialize;
    SerializedReads(u);
    TargetHasNoFragment(Serialize(u));
  }

  lemma TargetHasNoFragment(s: string)
    requires ParseAbsolute(s).Some? && CleanUrl(ParseAbsolute(s).value)
    ensures RequestTarget(s).Some? && '#' !in RequestTarget(s).value && Rooted(RequestTarget(s).value)
    ensures IsMiddle(RequestTarget(s).value, ParseAbsolute(s).value)
  {
    hide ParseAbsolute, CleanHost, AuthorityText, HierarchyText, Serialize, IsMiddle;
    PartsJoin(ParseAbsolute(s).value);
  }

  lemma PartsJoin(u: HttpUrl)
    requires u.path != ""
    ensures IsMiddle(u.path + Tail('?', u.query), u)
  {
    hide AuthorityText, Tail;
    Regroup(u.scheme, AuthorityText(u), u.path, Tail('?', u.query), Tail('#', u.fragment));
  }

  lemma Regroup(scheme: string, authority: string, path: string, query: string, fragment: string)
    ensures scheme + "://" + authority + (path + query) + fragment == scheme + ":" + ("//" + authority + path + query + fragment)
  {
    assert scheme + "://" == scheme + ":" + "//";
  }

  //
  // The transformation of section 5.2.2 of RFC 3986
  //

  function Transform(base: Reference, r: Reference): Reference
  {
    if r.scheme.Some? then
      Reference(r.scheme, r.authority, Removed(r.path), r.query, r.fragment)
    else if r.authority.Some? then
      Reference(base.scheme, r.authority, Removed(r.path), r.query, r.fragment)
    else if r.path == "" then
      Reference(base.scheme, base.authority, base.path, if r.query.Some? then r.query else base.query, r.fragment)
    else if r.path[0] == '/' then
      Reference(base.scheme, base.authority, Removed(r.path), r.query, r.fragment)
    else
      Reference(base.scheme, base.authority, Removed(MergePaths(base.path, r.path)), r.query, r.fragment)
  }

  function ReferenceOf(u: HttpUrl): Reference
  {
    Reference(Some(u.scheme), Some(AuthorityText(u)), u.path, u.query, u.fragment)
  }

  lemma RemovedEdges(path: string)
    requires path == "" || Rooted(path)
    ensures Removed("/") == "/" && Removed("") == ""
    ensures Rooted(path) ==> Rooted(Removed(path))
  {
    assert Turn(Buffers("/", "")) == Buffers("", "/") by { FindNothing("/", '/', 1); }
    if Rooted(path) {
      NothingYet();
      TurnsWalk(Buffers(path, ""), []);
      NormalIsNormal(path);
    }
  }

  lemma HierarchySplits(scheme: Option<string>, rest: string, query: Option<string>, fragment: Option<string>)
    ensures var r := ParseHierarchy(scheme, rest, query, fragment);
            && r.scheme == scheme && r.query == query && r.fragment == fragment
            && (r.authority.Some? ==> rest == "//" + r.authority.value + r.path)
  {
    hide IndexOf;
    if "//" <= rest {
      assert rest == "//" + rest[2..];
    }
  }

  lemma SchemelessSplits(rest: string, query: Option<string>, fragment: Option<string>)
    requires ParseScheme(rest, query, fragment).Some?
    ensures var r := ParseScheme(rest, query, fragment).value;
            && r.query == query && r.fragment == fragment
            && (r.scheme.None? && r.authority.Some? ==> rest == "//" + r.authority.value + r.path)
  {
    hide IndexOf, LowerText, ValidScheme, ParseHierarchy;
    HierarchySplits(None, rest, query, fragment);
    var colon := IndexOf(rest, ':', 0);
    if colon.Some? {
      HierarchySplits(Some(LowerText(rest[..colon.value])), rest[colon.value + 1..], query, fragment);
    }
  }

  lemma WithoutNothing(s: string)
    ensures Without(s, {})
  {
  }

  /** A reference of the form "//authority..." can be put behind a scheme. */
  lemma HierarchyRecomposes(input: string)
    requires ParseReference(input).Some?
    requires ParseReference(input).value.scheme.None? && ParseReference(input).value.authority.Some?
    ensures var r := ParseReference(input).value;
            input == HierarchyText(r.authority.value, r.path, r.query, r.fragment)
  {
    hide Cut, ParseScheme, ValidText, Without;
    assert Without(input, {}) by { WithoutNothing(input); }
    CutIsClean(input, '#', {});
    var outer := Cut(input, '#');
    CutIsClean(outer.front, '?', {'#'});
    var inner := Cut(outer.front, '?');
    var r := ParseReference(input).value;
    SchemelessSplits(inner.front, inner.back, outer.back);
    assert input == inner.front + Tail('?', inner.back) + Tail('#', outer.back);
  }

  lemma BehindScheme(base: HttpUrl, location: string)
    requires CleanUrl(base) && ParseReference(location).Some?
    requires ParseReference(location).value.scheme.None? && ParseReference(location).value.authority.Some?
    ensures ParseReference(base.scheme + ":" + location) ==
            Some(ParseReference(location).value.(scheme := Some(base.scheme)))
  {
    hide ParseReference, HierarchyText;
    var r := ParseReference(location).value;
    HierarchyRecomposes(location);
    ReferenceIsClean(location);
    ComposedReads(base.scheme, r.authority.value, r.path, r.query, r.fragment);
  }

  /** Parsing and then removing dot segments is the same as removing them first. */
  lemma RemoveAfterParse(r: Reference)
    requires r.authority.Some? ==> r.path == "" || Rooted(r.path)
    ensures ParseHttp(r.(path := Removed(r.path))) ==
            match ParseHttp(r) case None => None case Some(u) => Some(u.(path := Removed(u.path)))
  {
    hide Removed, SplitAuthority, ParsePort;
    if r.authority.Some? { RemovedEdges(r.path); }
  }

  lemma BaseReads(base: HttpUrl, r: Reference)
    requires CleanUrl(base) && r.scheme == Some(base.scheme) && r.authority == Some(AuthorityText(base)) && Rooted(r.path)
    ensures ParseHttp(r) == Some(base.(path := r.path, query := r.query, fragment := r.fragment))
  {
    hide SplitAuthority, CleanHost, AuthorityText, ParsePort;
    AuthorityReads(base);
    if base.port.Some? { PortReads(base.port.value); }
  }

  /** The code resolves as section 5.2.2 does, and then requires an HTTP URL that does not
      leave https. */
  lemma ResolvesAsRfc3986(source: string, location: string)
    requires ParseAbsolute(source).Some? && ParseReference(location).Some?
    ensures var base := ParseAbsolute(source).value;
            var u := ParseHttp(Transform(ReferenceOf(base), ParseReference(location).value));
            ResolveTarget(source, location) ==
            if u.Some? && !(base.scheme == "https" && u.value.scheme != "https") then u else None
  {
    hide ParseReference, Removed, MergePaths, CleanHost, SplitAuthority, ParsePort, AuthorityText, ParseHttp;
    var base, r := ParseAbsolute(source).value, ParseReference(location).value;
    AbsoluteIsClean(source);
    ReferenceIsClean(location);
    if r.scheme.Some? {
      RemoveAfterParse(r);
    } else if r.authority.Some? {
      BehindScheme(base, location);
      RemoveAfterParse(r.(scheme := Some(base.scheme)));
    } else {
      var path := if r.path == "" then base.path else Removed(if r.path[0] == '/' then r.path else MergePaths(base.path, r.path));
      assert Rooted(path) by {
        MergedIsRooted(base.path, r.path);
        RemovedEdges(if r.path == "" then "/" else if r.path[0] == '/' then r.path else MergePaths(base.path, r.path));
      }
      BaseReads(base, Transform(ReferenceOf(base), r));
    }
  }
}
