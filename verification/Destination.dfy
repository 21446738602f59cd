/** Destinations on the command line: `[user@]host[:port]` or `[user@][ipv6]:port`. */
module Destination {
  import opened Wrappers
  import opened Text

  datatype Reason =
    | MissingDestination | IsUrl | MissingUser | InvalidIPv6 | MissingHost | InvalidDestination
    | InvalidPort(text: string)

  datatype Parsed = Ok(user: string, host: string, port: nat) | Err(reason: Reason)

  /** The first place of a character, or -1. */
  function Index(s: string, c: char): (i: int)
    ensures -1 <= i < |s|
  {
    if s == "" then -1
    else if s[0] == c then 0
    else var i := Index(s[1..], c); if i < 0 then -1 else i + 1
  }

  /** The last place of a character, or -1. */
  function LastIndex(s: string, c: char): (i: int)
    ensures -1 <= i < |s|
  {
    if s == "" then -1
    else if s[|s| - 1] == c then |s| - 1
    else LastIndex(s[..|s| - 1], c)
  }

  ghost predicate FirstAt(s: string, c: char, i: int) {
    0 <= i < |s| && s[i] == c && forall k :: 0 <= k < i ==> s[k] != c
  }

  ghost predicate LastAt(s: string, c: char, i: int) {
    0 <= i < |s| && s[i] == c && forall k :: i < k < |s| ==> s[k] != c
  }

  lemma {:induction false} FirstIs(s: string, c: char, i: int)
    ensures FirstAt(s, c, i) <==> i >= 0 && Index(s, c) == i
    ensures Index(s, c) < 0 <==> c !in s
  {
    if s != "" && s[0] != c {
      FirstIs(s[1..], c, i - 1);
      assert s == [s[0]] + s[1..];
      assert FirstAt(s, c, i) ==> FirstAt(s[1..], c, i - 1);
      assert FirstAt(s[1..], c, i - 1) ==> FirstAt(s, c, i);
    }
  }

  lemma {:induction false} LastIs(s: string, c: char, i: int)
    ensures LastAt(s, c, i) <==> i >= 0 && LastIndex(s, c) == i
    ensures LastIndex(s, c) < 0 <==> c !in s
  {
    if s != "" && s[|s| - 1] != c {
      LastIs(s[..|s| - 1], c, i);
      assert s == s[..|s| - 1] + [s[|s| - 1]];
      assert LastAt(s, c, i) <==> LastAt(s[..|s| - 1], c, i);
    }
  }

  predicate SchemeAt(s: string, i: int) {
    0 <= i && i + 2 < |s| && s[i] == ':' && s[i + 1] == '/' && s[i + 2] == '/'
  }

  /** The text has `://` in it. */
  predicate HasScheme(s: string) { exists i | 0 <= i < |s| :: SchemeAt(s, i) }

  predicate IsDigit(c: char) { '0' <= c <= '9' }

  /** Other scripts' digits pass the original's first test and fail its second, with the
      same error. */
  predicate Digits(s: string) { s != "" && forall i :: 0 <= i < |s| ==> IsDigit(s[i]) }

  function Value(s: string): nat
    requires forall i :: 0 <= i < |s| ==> IsDigit(s[i])
  {
    if s == "" then 0 else 10 * Value(s[..|s| - 1]) + Digit(s[|s| - 1])
  }

  function Digit(c: char): nat
    requires IsDigit(c)
  {
    c as int - '0' as int
  }

  function ParsePort(s: string): Option<nat> {
    if !Digits(s) then None
    else
      var port := Value(s);
      if port < 1 || port > 65535 then None else Some(port)
  }

  /** `net.SplitHostPort`, for text that does not begin with a bracket: the parser has dealt
      with brackets before it asks. */
  function SplitHostPort(s: string): Option<(string, string)> {
    var i := LastIndex(s, ':');
    if i < 0 || ':' in s[..i] || '[' in s || ']' in s then None else Some((s[..i], s[i + 1..]))
  }

  function ParseBracketed(user: string, s: string): Parsed
    requires s != ""
  {
    var end := Index(s, ']');
    if end < 0 then Err(InvalidIPv6)
    else if end <= 1 then Err(MissingHost)
    else
      var rest := s[end + 1..];
      if rest == "" then Ok(user, s[1..end], 0)
      else if rest[0] != ':' then Err(InvalidDestination)
      else
        var port := ParsePort(rest[1..]);
        if port.None? then Err(InvalidPort(rest[1..])) else Ok(user, s[1..end], port.value)
  }

  function ParsePlain(user: string, s: string): Parsed {
    var split := SplitHostPort(s);
    if split.Some? then
      var port := ParsePort(split.value.1);
      if port.None? then Err(InvalidPort(split.value.1))
      else if split.value.0 == "" then Err(MissingHost)
      else Ok(user, split.value.0, port.value)
    else if s == "" then Err(MissingHost)
    else Ok(user, s, 0)
  }

  function ParseHost(user: string, s: string): Parsed {
    if s != "" && s[0] == '[' then ParseBracketed(user, s) else ParsePlain(user, s)
  }

  function Parse(text: string): Parsed {
    var s := TrimSpace(text);
    var i := LastIndex(s, '@');
    if s == "" then Err(MissingDestination)
    else if HasScheme(s) then Err(IsUrl)
    else if i < 0 then ParseHost("", s)
    else if TrimSpace(s[..i]) == "" then Err(MissingUser)
    else ParseHost(s[..i], s[i + 1..])
  }

  /** The parser as it reassigns its results step by step. */
  method ParseDestination(text: string) returns (r: Parsed)
    ensures r == Parse(text)
  {
    var s, user, host, port := TrimSpace(text), "", "", 0;
    if s == "" { return Err(MissingDestination); }
    if HasScheme(s) { return Err(IsUrl); }
    var i := LastIndex(s, '@');
    if i >= 0 {
      user := s[..i];
      s := s[i + 1..];
      if TrimSpace(user) == "" { return Err(MissingUser); }
    }
    assert Parse(text) == ParseHost(user, s);
    if s != "" && s[0] == '[' {
      var end := Index(s, ']');
      if end < 0 { return Err(InvalidIPv6); }
      host := s[1..end];
      var rest := s[end + 1..];
      if host == "" { return Err(MissingHost); }
      if rest == "" { return Ok(user, host, 0); }
      if rest[0] != ':' { return Err(InvalidDestination); }
      var parsed := ParsePort(rest[1..]);
      if parsed.None? { return Err(InvalidPort(rest[1..])); }
      port := parsed.value;
      return Ok(user, host, port);
    }
    var split := SplitHostPort(s);
    if split.Some? {
      var parsed := ParsePort(split.value.1);
      if parsed.None? { return Err(InvalidPort(split.value.1)); }
      port := parsed.value;
      host := split.value.0;
      if host == "" { return Err(MissingHost); }
      return Ok(user, host, port);
    }
    if s == "" { return Err(MissingHost); }
    return Ok(user, s, 0);
  }

  // ---- The grammar the parser accepts ----

  /** What may follow a host: nothing, or a colon and a port. */
  predicate Tail(tail: string, port: nat) {
    if tail == "" then port == 0
    else tail[0] == ':' && Digits(tail[1..]) && Value(tail[1..]) == port && 1 <= port <= 65535
  }

  /** Exactly one colon and no bracket: text that is read as a host and a port. */
  predicate HasOneColon(s: string) {
    && '[' !in s && ']' !in s
    && exists i | 0 <= i < |s| :: s[i] == ':' && ':' !in s[..i] && ':' !in s[i + 1..]
  }

  predicate BracketedHost(s: string, host: string, tail: string) {
    s == "[" + host + "]" + tail && ']' !in host
  }

  predicate PlainHost(s: string, host: string, tail: string) {
    && s == host + tail && host != "" && host[0] != '['
    && if tail == "" then !HasOneColon(host) else ':' !in host && '[' !in host && ']' !in host
  }

  ghost predicate HostReads(s: string, host: string, port: nat) {
    host != "" && exists tail :: Tail(tail, port) && (BracketedHost(s, host, tail) || PlainHost(s, host, tail))
  }

  predicate WithUser(s: string, user: string, rest: string) {
    '@' !in rest && if user == "" then s == rest else s == user + "@" + rest && TrimSpace(user) != ""
  }

  ghost predicate Reads(s: string, user: string, host: string, port: nat) {
    !HasScheme(s) && exists rest :: WithUser(s, user, rest) && HostReads(rest, host, port)
  }

  lemma TailOfPort(port: string)
    ensures ParsePort(port).Some? ==> Tail(":" + port, ParsePort(port).value)
  {
  }

  lemma BracketSplit(s: string, end: int)
    requires s != "" && s[0] == '[' && end == Index(s, ']') && end > 0
    ensures BracketedHost(s, s[1..end], s[end + 1..])
  {
    FirstIs(s, ']', end);
    assert s == "[" + s[1..end] + "]" + s[end + 1..];
  }

  lemma BracketedReads(user: string, s: string)
    requires s != "" && s[0] == '[' && ParseBracketed(user, s).Ok?
    ensures HostReads(s, ParseBracketed(user, s).host, ParseBracketed(user, s).port)
  {
    var end := Index(s, ']');
    BracketSplit(s, end);
    assert Tail(s[end + 1..], ParseBracketed(user, s).port);
  }

  lemma BracketedParses(user: string, s: string, host: string, port: nat, tail: string)
    requires host != "" && BracketedHost(s, host, tail) && Tail(tail, port)
    ensures ParseBracketed(user, s) == Ok(user, host, port)
  {
    assert FirstAt(s, ']', |host| + 1);
    FirstIs(s, ']', |host| + 1);
    assert s[|host| + 2..] == tail && s[1..|host| + 1] == host;
  }

  lemma SplitsOneColon(s: string)
    ensures SplitHostPort(s).Some? <==> HasOneColon(s)
  {
    var last := LastIndex(s, ':');
    LastIs(s, ':', last);
    if HasOneColon(s) {
      var i :| 0 <= i < |s| && s[i] == ':' && ':' !in s[..i] && ':' !in s[i + 1..];
      assert forall k :: i < k < |s| ==> s[k] == s[i + 1..][k - i - 1];
      LastIs(s, ':', i);
    }
    if last >= 0 {
      assert ':' !in s[last + 1..];
    }
  }

  lemma PlainReads(user: string, s: string)
    requires (s == "" || s[0] != '[') && ParsePlain(user, s).Ok?
    ensures HostReads(s, ParsePlain(user, s).host, ParsePlain(user, s).port)
  {
    SplitsOneColon(s);
    if HasOneColon(s) {
      ColonSplit(s, LastIndex(s, ':'));
      var tail := s[LastIndex(s, ':')..];
      assert Tail(tail, ParsePlain(user, s).port);
      assert PlainHost(s, ParsePlain(user, s).host, tail);
    } else {
      assert s == s + "";
      assert PlainHost(s, s, "") && Tail("", 0);
    }
  }

  lemma ColonSplit(s: string, i: int)
    requires i == LastIndex(s, ':') && i >= 0
    ensures s == s[..i] + s[i..] && s[i..] != "" && s[i..][0] == ':' && s[i..][1..] == s[i + 1..]
    ensures i > 0 ==> s[..i][0] == s[0]
    ensures forall c :: c !in s ==> c !in s[..i]
  {
    LastIs(s, ':', i);
  }

  lemma SplitIs(host: string, port: string)
    requires ':' !in host && '[' !in host && ']' !in host && Digits(port)
    ensures SplitHostPort(host + ":" + port) == Some((host, port))
  {
    var s := host + ":" + port;
    assert LastAt(s, ':', |host|);
    LastIs(s, ':', |host|);
    assert s[..|host|] == host && s[|host| + 1..] == port;
  }

  lemma PlainParses(user: string, s: string, host: string, port: nat, tail: string)
    requires PlainHost(s, host, tail) && Tail(tail, port)
    ensures ParsePlain(user, s) == Ok(user, host, port)
  {
    if tail == "" {
      assert s == host;
      SplitsOneColon(s);
    } else {
      var digits := tail[1..];
      SplitIs(host, digits);
      assert s == host + ":" + digits;
      assert ParsePort(digits) == Some(port);
    }
  }

  lemma HostParses(user: string, s: string, host: string, port: nat)
    requires HostReads(s, host, port)
    ensures ParseHost(user, s) == Ok(user, host, port)
  {
    var tail :| Tail(tail, port) && (BracketedHost(s, host, tail) || PlainHost(s, host, tail));
    if BracketedHost(s, host, tail) {
      BracketedParses(user, s, host, port, tail);
    } else {
      PlainParses(user, s, host, port, tail);
    }
  }

  lemma ReadsParse(text: string, user: string, host: string, port: nat)
    requires Reads(TrimSpace(text), user, host, port)
    ensures Parse(text) == Ok(user, host, port)
  {
    var s := TrimSpace(text);
    var rest :| WithUser(s, user, rest) && HostReads(rest, host, port);
    HostParses(user, rest, host, port);
    if user == "" {
      LastIs(s, '@', -1);
    } else {
      assert LastAt(s, '@', |user|);
      LastIs(s, '@', |user|);
      assert s[..|user|] == user && s[|user| + 1..] == rest;
    }
  }

  lemma HostIsRead(user: string, s: string)
    requires ParseHost(user, s).Ok?
    ensures ParseHost(user, s).user == user && HostReads(s, ParseHost(user, s).host, ParseHost(user, s).port)
  {
    if s != "" && s[0] == '[' { BracketedReads(user, s); } else { PlainReads(user, s); }
  }

  lemma UserSplit(s: string, i: int)
    requires i == LastIndex(s, '@') && (i < 0 || TrimSpace(s[..i]) != "")
    ensures WithUser(s, if i < 0 then "" else s[..i], s[i + 1..])
  {
    LastIs(s, '@', i);
    if i >= 0 {
      assert s == s[..i] + "@" + s[i + 1..];
      assert TrimSpace("") == "";
    } else {
      assert s[0..] == s;
    }
  }

  lemma ParseReads(text: string)
    requires Parse(text).Ok?
    ensures Reads(TrimSpace(text), Parse(text).user, Parse(text).host, Parse(text).port)
  {
    var s := TrimSpace(text);
    var i := LastIndex(s, '@');
    var user, rest := if i < 0 then "" else s[..i], s[i + 1..];
    assert i < 0 ==> rest == s;
    assert Parse(text) == ParseHost(user, rest);
    UserSplit(s, i);
    HostIsRead(user, rest);
  }

  /** The parser accepts exactly the texts of the grammar, each with its one reading. */
  lemma ParseIsTheGrammar(text: string, user: string, host: string, port: nat)
    ensures Parse(text) == Ok(user, host, port) <==> Reads(TrimSpace(text), user, host, port)
  {
    if Parse(text) == Ok(user, host, port) { ParseReads(text); }
    if Reads(TrimSpace(text), user, host, port) { ReadsParse(text, user, host, port); }
  }

  /** Whatever parses has a host, and a port that is absent or a port number. */
  lemma SuccessIsUsable(text: string)
    ensures Parse(text).Ok? ==> Parse(text).host != "" && (Parse(text).port == 0 || 1 <= Parse(text).port <= 65535)
    ensures Parse(text).Ok? ==> Parse(text).user == "" || TrimSpace(Parse(text).user) != ""
  {
    if Parse(text).Ok? { ParseReads(text); }
  }

  // ---- Parsing undoes printing ----

  function Numeral(n: nat): string {
    if n < 10 then [('0' as int + n) as char] else Numeral(n / 10) + [('0' as int + n % 10) as char]
  }

  lemma {:induction false} NumeralIs(n: nat)
    ensures Digits(Numeral(n)) && Value(Numeral(n)) == n
  {
    if n >= 10 {
      NumeralIs(n / 10);
      assert Numeral(n)[..|Numeral(n)| - 1] == Numeral(n / 10);
    } else {
      assert Numeral(n)[..0] == "";
    }
  }

  lemma SchemeSplit(a: string, c: char, b: string)
    requires c != ':' && c != '/' && !HasScheme(a) && !HasScheme(b)
    ensures !HasScheme(a + [c] + b)
  {
    var s := a + [c] + b;
    forall i | 0 <= i < |s| ensures !SchemeAt(s, i) {
      if i + 2 < |a| { assert !SchemeAt(a, i); }
      else if i > |a| {
        assert !SchemeAt(b, i - |a| - 1);
      }
    }
  }

  lemma SchemeNeedsSlash(a: string, b: string)
    requires ':' !in a && forall i :: 0 <= i < |b| ==> b[i] != '/'
    ensures !HasScheme(a + b)
  {
  }

  ghost predicate Printable(user: string, host: string, port: nat) {
    && NoSpace(user) && NoSpace(host) && host != "" && port <= 65535
    && !HasScheme(user) && !HasScheme(host)
    && '@' !in host && '[' !in host && ']' !in host
  }

  function PortText(port: nat): string { if port == 0 then "" else ":" + Numeral(port) }

  function HostText(host: string, port: nat): string {
    (if ':' in host then "[" + host + "]" else host) + PortText(port)
  }

  function Print(user: string, host: string, port: nat): string {
    if user == "" then HostText(host, port) else user + "@" + HostText(host, port)
  }

  lemma PortTextIs(port: nat)
    requires port <= 65535
    ensures Tail(PortText(port), port) && NoSpace(PortText(port))
    ensures forall i :: 0 <= i < |PortText(port)| ==> PortText(port)[i] == ':' || IsDigit(PortText(port)[i])
  {
    NumeralIs(port);
    if port > 0 {
      assert PortText(port)[1..] == Numeral(port);
      assert forall i :: 0 < i < |PortText(port)| ==> PortText(port)[i] == Numeral(port)[i - 1];
    }
  }

  lemma BracketedText(host: string, port: nat)
    requires Printable("", host, port) && ':' in host
    ensures var s := "[" + host + "]" + PortText(port);
            HostReads(s, host, port) && NoSpace(s) && !HasScheme(s) && '@' !in s
  {
    PortTextIs(port);
    var tail := PortText(port);
    var s := "[" + host + "]" + tail;
    assert BracketedHost(s, host, tail);
    BracketedNoScheme(host, tail);
  }

  lemma BracketedNoScheme(host: string, tail: string)
    requires !HasScheme(host) && forall i :: 0 <= i < |tail| ==> tail[i] != '/'
    ensures !HasScheme("[" + host + "]" + tail)
  {
    var s := "[" + host + "]" + tail;
    forall i | 0 <= i < |s| ensures !SchemeAt(s, i) {
      if 1 <= i && i + 1 < |host| { assert !SchemeAt(host, i - 1); }
    }
  }

  lemma PlainText(host: string, port: nat)
    requires Printable("", host, port) && ':' !in host
    ensures var s := host + PortText(port);
            HostReads(s, host, port) && NoSpace(s) && !HasScheme(s) && '@' !in s
  {
    PortTextIs(port);
    var tail := PortText(port);
    SchemeNeedsSlash(host, tail);
    LastIs(host, ':', -1);
    assert PlainHost(host + tail, host, tail);
  }

  lemma HostTextIs(host: string, port: nat)
    requires Printable("", host, port)
    ensures var s := HostText(host, port);
            HostReads(s, host, port) && NoSpace(s) && !HasScheme(s) && '@' !in s
  {
    if ':' in host { BracketedText(host, port); } else { PlainText(host, port); }
  }

  lemma PrintReads(user: string, host: string, port: nat)
    requires Printable(user, host, port)
    ensures NoSpace(Print(user, host, port)) && Reads(Print(user, host, port), user, host, port)
  {
    var rest := HostText(host, port);
    HostTextIs(host, port);
    if user != "" {
      SchemeSplit(user, '@', rest);
      TrimNothing(user);
    }
    assert WithUser(Print(user, host, port), user, rest);
  }

  /** Parsing the printed form gives back the same user, host and port. */
  lemma ParseUndoesPrint(user: string, host: string, port: nat)
    requires Printable(user, host, port)
    ensures Parse(Print(user, host, port)) == Ok(user, host, port)
  {
    PrintReads(user, host, port);
    TrimNothing(Print(user, host, port));
    ReadsParse(Print(user, host, port), user, host, port);
  }
}
