/** Which addresses a session may be opened to. */
module NetworkPolicy {
  import opened Wrappers
  import opened Text
  import D = Destination

  type Byte = x: int | 0 <= x < 256
  type Bytes4 = b: seq<Byte> | |b| == 4 witness [0, 0, 0, 0]
  type Bytes16 = b: seq<Byte> | |b| == 16 witness [0, 0, 0, 0, 0, 0, 0, 0, 0, 0, 0, 0, 0, 0, 0, 0]

  /** No address, an IPv4 address, or an IPv6 address with its zone. */
  datatype Addr = NoAddr | V4(four: Bytes4) | V6(sixteen: Bytes16, zone: string)

  datatype Prefix = Prefix(addr: Addr, bits: nat)

  const ZERO4: Bytes4 := [0, 0, 0, 0]
  const ZERO16: Bytes16 := [0, 0, 0, 0, 0, 0, 0, 0, 0, 0, 0, 0, 0, 0, 0, 0]

  /** What is left of a byte when its last bits, less than eight, are dropped. */
  function Leading(x: Byte, drop: nat): int {
    match drop
    case 1 => x / 2 case 2 => x / 4 case 3 => x / 8 case 4 => x / 16
    case 5 => x / 32 case 6 => x / 64 case 7 => x / 128
    case _ => x
  }

  /** The first `bits` bits agree: whole bytes first, then the part of one that is left. */
  predicate Alike(x: seq<Byte>, y: seq<Byte>, bits: nat)
    requires |x| == |y|
  {
    && bits <= 8 * |x|
    && x[..bits / 8] == y[..bits / 8]
    && (bits % 8 != 0 ==> Leading(x[bits / 8], 8 - bits % 8) == Leading(y[bits / 8], 8 - bits % 8))
  }

  /** Of the same family, without a zone, and alike in the leading bits. */
  predicate Contains(p: Prefix, a: Addr) {
    match p.addr
    case V4(x) => a.V4? && Alike(x, a.four, p.bits)
    case V6(x, _) => a.V6? && a.zone == "" && Alike(x, a.sixteen, p.bits)
    case NoAddr => false
  }

  predicate InAny(prefixes: seq<Prefix>, a: Addr) {
    exists i | 0 <= i < |prefixes| :: Contains(prefixes[i], a)
  }

  /** An IPv4 address written as an IPv6 one becomes the IPv4 address. */
  function Unmap(a: Addr): Addr {
    if a.V6? && a.sixteen[..12] == MAPPED then V4(a.sixteen[12..]) else a
  }

  const MAPPED: seq<Byte> := [0, 0, 0, 0, 0, 0, 0, 0, 0, 0, 0xFF, 0xFF]

  // ---- Kinds of address ----

  predicate IsPrivate(a: Addr) {
    match a
    case V4(b) => b[0] == 10 || (b[0] == 172 && b[1] / 16 == 1) || (b[0] == 192 && b[1] == 168)
    case V6(b, _) => b[0] / 2 == 0x7E
    case NoAddr => false
  }

  predicate IsLoopback(a: Addr) {
    match a
    case V4(b) => b[0] == 127
    case V6(b, _) => b == ZERO16[15 := 1]
    case NoAddr => false
  }

  predicate IsLinkLocalUnicast(a: Addr) {
    match a
    case V4(b) => b[0] == 169 && b[1] == 254
    case V6(b, _) => b[0] == 0xFE && b[1] / 64 == 2
    case NoAddr => false
  }

  predicate IsLinkLocalMulticast(a: Addr) {
    match a
    case V4(b) => b[0] == 224 && b[1] == 0 && b[2] == 0
    case V6(b, _) => b[0] == 0xFF && b[1] % 16 == 2
    case NoAddr => false
  }

  predicate IsUnspecified(a: Addr) { a == V4(ZERO4) || a == V6(ZERO16, "") }

  // ---- The policy ----

  datatype Policy = Policy(allowPrivate: bool, deny: seq<Prefix>, allow: seq<Prefix>)

  predicate NeverAllowed(a: Addr) {
    a == NoAddr || IsUnspecified(a) || IsLoopback(a) || IsLinkLocalUnicast(a) || IsLinkLocalMulticast(a)
  }

  predicate Admits(p: Policy, a: Addr) {
    if InAny(p.allow, a) then true
    else if InAny(p.deny, a) then false
    else if NeverAllowed(a) then false
    else p.allowPrivate || !IsPrivate(a)
  }

  const DEFAULTS: seq<Prefix> := [
    Prefix(V4([127, 0, 0, 0]), 8), Prefix(V6(ZERO16[15 := 1], ""), 128),
    Prefix(V4(ZERO4), 8), Prefix(V4([169, 254, 0, 0]), 16)]

  const DEFAULT_TEXTS: seq<string> := ["127.0.0.0/8", "::1/128", "0.0.0.0/8", "169.254.0.0/16"]

  const PRIVATE: seq<Prefix> := [
    Prefix(V4([10, 0, 0, 0]), 8), Prefix(V4([172, 16, 0, 0]), 12), Prefix(V4([192, 168, 0, 0]), 16),
    Prefix(V6(ZERO16[0 := 0xFC], ""), 7), Prefix(V6(ZERO16[0 := 0xFE][1 := 0x80], ""), 10)]

  /** The address library: its two parsers. */
  datatype Library = Library(parsePrefix: string -> Option<Prefix>, parseAddr: string -> Option<Addr>)

  /** It reads the built-in prefixes as they are meant. */
  ghost predicate ReadsDefaults(lib: Library) {
    forall i :: 0 <= i < 4 ==> lib.parsePrefix(DEFAULT_TEXTS[i]) == Some(DEFAULTS[i])
  }

  function WithoutZone(a: Addr): Addr { if a.V6? then a.(zone := "") else a }

  function ParsePrefixOrIP(lib: Library, s: string): Option<Prefix> {
    if '/' in s then lib.parsePrefix(s)
    else
      var addr := lib.parseAddr(s);
      if addr.None? then None
      else Some(Prefix(WithoutZone(addr.value), if addr.value.V6? then 128 else 32))
  }

  datatype Made = Made(policy: Policy) | BadDefault | BadDeny(entry: string) | BadAllow(entry: string)

  predicate Blank(s: string) { TrimSpace(s) == "" }

  predicate Readable(lib: Library, s: string) { Blank(s) || ParsePrefixOrIP(lib, TrimSpace(s)).Some? }

  /** The prefix is one of those the entries name. */
  predicate Names(lib: Library, entries: seq<string>, p: Prefix) {
    exists i | 0 <= i < |entries| :: !Blank(entries[i]) && ParsePrefixOrIP(lib, TrimSpace(entries[i])) == Some(p)
  }

  /** The first entry that cannot be read. */
  predicate FirstBad(lib: Library, entries: seq<string>, entry: string) {
    exists i | 0 <= i < |entries| ::
      && !Readable(lib, entries[i]) && entry == TrimSpace(entries[i])
      && forall j :: 0 <= j < i ==> Readable(lib, entries[j])
  }

  ghost predicate AllReadable(lib: Library, entries: seq<string>) {
    forall i :: 0 <= i < |entries| ==> Readable(lib, entries[i])
  }

  /** The texts already used, and the prefixes they stand for. */
  ghost predicate SeenInv(lib: Library, seen: set<string>, prefixes: seq<Prefix>) {
    forall s :: s in seen ==> ParsePrefixOrIP(lib, s).Some? && ParsePrefixOrIP(lib, s).value in prefixes
  }

  method ReadDeny(lib: Library, deny: seq<string>, start: set<string>, defaults: seq<Prefix>)
    returns (prefixes: seq<Prefix>, bad: Option<string>)
    requires SeenInv(lib, start, defaults)
    ensures bad.None? <==> AllReadable(lib, deny)
    ensures bad.Some? ==> FirstBad(lib, deny, bad.value)
    ensures bad.None? ==> forall p :: p in prefixes <==> p in defaults || Names(lib, deny, p)
  {
    prefixes, bad := defaults, None;
    var seen := start;
    for i := 0 to |deny|
      invariant AllReadable(lib, deny[..i]) && SeenInv(lib, seen, prefixes)
      invariant forall p :: p in prefixes <==> p in defaults || Names(lib, deny[..i], p)
    {
      NamesGrow(lib, deny, i);
      var d := TrimSpace(deny[i]);
      if d == "" || d in seen { continue; }
      var prefix := ParsePrefixOrIP(lib, d);
      if prefix.None? { return prefixes, Some(d); }
      prefixes := prefixes + [prefix.value];
      seen := seen + {d};
    }
    assert deny[..|deny|] == deny;
  }

  lemma NamesGrow(lib: Library, entries: seq<string>, i: nat)
    requires i < |entries|
    ensures forall p :: Names(lib, entries[..i + 1], p) <==>
              || Names(lib, entries[..i], p)
              || (!Blank(entries[i]) && ParsePrefixOrIP(lib, TrimSpace(entries[i])) == Some(p))
    ensures AllReadable(lib, entries[..i + 1]) <==> AllReadable(lib, entries[..i]) && Readable(lib, entries[i])
  {
    assert entries[..i + 1] == entries[..i] + [entries[i]];
  }

  method ReadAllow(lib: Library, allow: seq<string>) returns (prefixes: seq<Prefix>, bad: Option<string>)
    ensures bad.None? <==> AllReadable(lib, allow)
    ensures bad.Some? ==> FirstBad(lib, allow, bad.value)
    ensures bad.None? ==> forall p :: p in prefixes <==> Names(lib, allow, p)
  {
    prefixes, bad := [], None;
    for i := 0 to |allow|
      invariant AllReadable(lib, allow[..i])
      invariant forall p :: p in prefixes <==> Names(lib, allow[..i], p)
    {
      NamesGrow(lib, allow, i);
      var a := TrimSpace(allow[i]);
      if a == "" { continue; }
      var prefix := ParsePrefixOrIP(lib, a);
      if prefix.None? { return prefixes, Some(a); }
      prefixes := prefixes + [prefix.value];
    }
    assert allow[..|allow|] == allow;
  }

  /** The policy carries exactly the prefixes it was asked for, and the built-in ones. */
  ghost predicate Built(lib: Library, allowPrivate: bool, deny: seq<string>, allow: seq<string>, policy: Policy) {
    && policy.allowPrivate == allowPrivate
    && (forall p :: p in policy.deny <==> p in DEFAULTS || Names(lib, deny, p) || (!allowPrivate && p in PRIVATE))
    && (forall p :: p in policy.allow <==> Names(lib, allow, p))
  }

  method NewNetworkPolicy(lib: Library, allowPrivate: bool, deny: seq<string>, allow: seq<string>) returns (r: Made)
    ensures r.BadDefault? <==> exists i | 0 <= i < 4 :: lib.parsePrefix(DEFAULT_TEXTS[i]).None?
    ensures r.Made? <==> !r.BadDefault? && AllReadable(lib, deny) && AllReadable(lib, allow)
    ensures r.Made? && ReadsDefaults(lib) ==> Built(lib, allowPrivate, deny, allow, r.policy)
    ensures r.BadDeny? ==> FirstBad(lib, deny, r.entry)
    ensures r.BadAllow? ==> AllReadable(lib, deny) && FirstBad(lib, allow, r.entry)
  {
    var prefixes, seen := [], {};
    for i := 0 to |DEFAULT_TEXTS|
      invariant |prefixes| == i && forall j :: 0 <= j < i ==> lib.parsePrefix(DEFAULT_TEXTS[j]) == Some(prefixes[j])
      invariant SeenInv(lib, seen, prefixes)
    {
      var pref := lib.parsePrefix(DEFAULT_TEXTS[i]);
      if pref.None? { return BadDefault; }
      assert '/' in DEFAULT_TEXTS[i];
      seen := seen + {DEFAULT_TEXTS[i]};
      prefixes := prefixes + [pref.value];
    }
    assert ReadsDefaults(lib) ==> prefixes == DEFAULTS;
    var denied, bad := ReadDeny(lib, deny, seen, prefixes);
    if bad.Some? { return BadDeny(bad.value); }
    var allowed, badAllow := ReadAllow(lib, allow);
    if badAllow.Some? { return BadAllow(badAllow.value); }
    if !allowPrivate { denied := denied + PRIVATE; }
    return Made(Policy(allowPrivate, denied, allowed));
  }

  // ---- What the switch for private ranges changes ----

  lemma AlikeStart(x: seq<Byte>, y: seq<Byte>, n: nat)
    requires |x| == |y| && n <= |x|
    ensures n == 1 ==> (x[..n] == y[..n] <==> x[0] == y[0])
    ensures n == 2 ==> (x[..n] == y[..n] <==> x[0] == y[0] && x[1] == y[1])
  {
  }

  /** The address blocks of section 3 of RFC 1918. */
  lemma PrivateV4(a: Addr)
    requires a.V4?
    ensures Contains(PRIVATE[0], a) <==> a.four[0] == 10
    ensures Contains(PRIVATE[1], a) <==> a.four[0] == 172 && a.four[1] / 16 == 1
    ensures Contains(PRIVATE[2], a) <==> a.four[0] == 192 && a.four[1] == 168
  {
  }

  /** The unique local addresses of section 3 of RFC 4193, and the link-local ones. */
  lemma PrivateV6(a: Addr)
    requires a.V6?
    ensures Contains(PRIVATE[3], a) <==> a.zone == "" && IsPrivate(a)
    ensures Contains(PRIVATE[4], a) <==> a.zone == "" && IsLinkLocalUnicast(a)
  {
  }

  /** The built-in private prefixes hold the private addresses and the IPv6 link-local ones,
      except those with a zone: a prefix never holds these. */
  lemma PrivateBlocks(a: Addr)
    ensures InAny(PRIVATE, a) <==>
              (a.V6? ==> a.zone == "") && (IsPrivate(a) || (a.V6? && IsLinkLocalUnicast(a)))
  {
    if a.V4? { PrivateV4(a); }
    if a.V6? { PrivateV6(a); }
    assert InAny(PRIVATE, a) <==>
      Contains(PRIVATE[0], a) || Contains(PRIVATE[1], a) || Contains(PRIVATE[2], a)
      || Contains(PRIVATE[3], a) || Contains(PRIVATE[4], a);
  }

  lemma PrivateIsOrdinary(a: Addr)
    requires IsPrivate(a)
    ensures !NeverAllowed(a) && !InAny(DEFAULTS, a)
  {
    match a
    case V4(b) =>
      AlikeStart([127, 0, 0, 0], b, 1);
      AlikeStart(ZERO4, b, 1);
      AlikeStart([169, 254, 0, 0], b, 2);
    case V6(b, _) =>
      assert b[..16] == b;
  }

  lemma InAnyOf(prefixes: seq<Prefix>, a: Addr)
    ensures InAny(prefixes, a) <==> exists p :: p in prefixes && Contains(p, a)
  {
  }

  /** Some entry of the list names a prefix that holds the address. */
  ghost predicate Listed(lib: Library, entries: seq<string>, a: Addr) {
    exists p :: Names(lib, entries, p) && Contains(p, a)
  }

  /** What a policy admits, in terms of the lists it was made from. */
  lemma AdmitsByLists(lib: Library, allowPrivate: bool, deny: seq<string>, allow: seq<string>, policy: Policy, a: Addr)
    requires Built(lib, allowPrivate, deny, allow, policy)
    ensures Admits(policy, a) <==>
              || Listed(lib, allow, a)
              || (!Listed(lib, deny, a) && !InAny(DEFAULTS, a) && !NeverAllowed(a) && (allowPrivate || !IsPrivate(a)))
  {
    InAnyOf(policy.allow, a);
    InAnyOf(policy.deny, a);
    InAnyOf(DEFAULTS, a);
    InAnyOf(PRIVATE, a);
    PrivateBlocks(a);
  }

  /** Two policies made from the same lists differ exactly on the private addresses that
      neither list names: allowing private ranges admits those and nothing else. */
  lemma SwitchAdmitsPrivateOnly(lib: Library, deny: seq<string>, allow: seq<string>,
                                closed: Policy, open: Policy, a: Addr)
    requires Built(lib, false, deny, allow, closed) && Built(lib, true, deny, allow, open)
    ensures Admits(open, a) <==> Admits(closed, a) || (IsPrivate(a) && !Listed(lib, deny, a))
    ensures Admits(open, a) && !Admits(closed, a) <==> IsPrivate(a) && !Listed(lib, deny, a) && !Listed(lib, allow, a)
  {
    AdmitsByLists(lib, false, deny, allow, closed, a);
    AdmitsByLists(lib, true, deny, allow, open, a);
    if IsPrivate(a) { PrivateIsOrdinary(a); }
  }

  // ---- When a deny entry holds ----

  predicate HasZone(a: Addr) { a.V6? && a.zone != "" }

  /** An IPv4 address in IPv6 form: what the lists and tests see of it is the IPv4 address. */
  predicate Mapped(a: Addr) { a.V6? && a.sixteen[..12] == MAPPED }

  lemma ZoneLeavesLists(lib: Library, entries: seq<string>, a: Addr)
    ensures Listed(lib, entries, a) <==> Listed(lib, entries, WithoutZone(a)) && !HasZone(a)
  {
    if Listed(lib, entries, a) {
      var p :| Names(lib, entries, p) && Contains(p, a);
      assert Contains(p, WithoutZone(a));
    }
    if Listed(lib, entries, WithoutZone(a)) && !HasZone(a) { assert WithoutZone(a) == a; }
  }

  /** Refused for a reason of its own, whatever entry names another form of the address. */
  ghost predicate RefusedAsIs(lib: Library, allowPrivate: bool, deny: seq<string>, a: Addr) {
    Listed(lib, deny, a) || InAny(DEFAULTS, a) || NeverAllowed(a) || (IsPrivate(a) && !allowPrivate)
  }

  /** An address whose bytes a deny entry names, and which no allow entry names, as both
      callers have it tested: a mapped address is refused if and only if its IPv4 form is for
      a reason of its own; any other, if and only if it has no zone, or one of the tests after
      the lists refuses it. */
  lemma DenyEntryHoldsExactly(lib: Library, allowPrivate: bool, deny: seq<string>, allow: seq<string>,
                              policy: Policy, a: Addr)
    requires Built(lib, allowPrivate, deny, allow, policy)
    requires Listed(lib, deny, WithoutZone(a)) && !Listed(lib, allow, Unmap(a))
    ensures !Admits(policy, Unmap(a)) <==>
              if Mapped(a) then RefusedAsIs(lib, allowPrivate, deny, Unmap(a))
              else !HasZone(a) || NeverAllowed(a) || (IsPrivate(a) && !allowPrivate)
  {
    AdmitsByLists(lib, allowPrivate, deny, allow, policy, Unmap(a));
    if !Mapped(a) {
      ZoneLeavesLists(lib, deny, a);
      InAnyOf(DEFAULTS, a);
      if HasZone(a) { assert forall p :: !Contains(p, a); }
    }
  }

  /** A deny entry that is itself a mapped address holds nothing: the address it is written
      for is tested in its IPv4 form. Here the only entry is `::ffff:8.8.8.8`. */
  lemma MappedEntryHoldsNothing(lib: Library, allowPrivate: bool, entry: string, policy: Policy, zone: string)
    requires !Blank(entry)
    requires ParsePrefixOrIP(lib, TrimSpace(entry)) == Some(Prefix(V6(MAPPED + [8, 8, 8, 8], ""), 128))
    requires Built(lib, allowPrivate, [entry], [], policy)
    ensures Listed(lib, [entry], V6(MAPPED + [8, 8, 8, 8], ""))
    ensures Passes(policy, MAPPED + [8, 8, 8, 8]) && Admits(policy, Unmap(V6(MAPPED + [8, 8, 8, 8], zone)))
  {
    var m: Bytes16, p := MAPPED + [8, 8, 8, 8], Prefix(V6(MAPPED + [8, 8, 8, 8], ""), 128);
    assert Names(lib, [entry], p) by { assert [entry][0] == entry; }
    assert Contains(p, V6(m, ""));
    assert m[..12] == MAPPED && m[12..] == [8, 8, 8, 8];
    assert forall q :: Names(lib, [entry], q) ==> q == p;
    OrdinaryV4([8, 8, 8, 8]);
    AdmitsByLists(lib, allowPrivate, [entry], [], policy, V4([8, 8, 8, 8]));
  }

  lemma OrdinaryV4(b: Bytes4)
    requires b[0] == 8
    ensures !InAny(DEFAULTS, V4(b)) && !NeverAllowed(V4(b)) && !IsPrivate(V4(b))
  {
    AlikeStart([127, 0, 0, 0], b, 1);
    AlikeStart(ZERO4, b, 1);
    AlikeStart([169, 254, 0, 0], b, 2);
  }

  /** The tests after the lists look past the zone: loopback, link-local and, by default,
      private addresses are refused with one too. Only the unspecified address escapes. */
  lemma ZoneLeavesTests(a: Addr)
    ensures IsPrivate(a) <==> IsPrivate(WithoutZone(a))
    ensures NeverAllowed(a) <==> NeverAllowed(WithoutZone(a)) && !(HasZone(a) && a.sixteen == ZERO16)
  {
    if a.V6? {
      assert IsLoopback(a) <==> IsLoopback(WithoutZone(a));
      assert ZERO16[15 := 1][15] != ZERO16[15];
    }
  }

  /** An ordinary address with a zone is admitted by a policy made from no allow entries,
      whatever its deny entries say, although without the zone they have it refused. If the
      address is mapped, the zone changes nothing: it is dropped before any test. */
  lemma ZonePassesDenyEntry(lib: Library, allowPrivate: bool, deny: seq<string>, policy: Policy,
                            b: Bytes16, zone: string)
    requires Built(lib, allowPrivate, deny, [], policy) && zone != ""
    ensures Mapped(V6(b, "")) ==> Unmap(V6(b, zone)) == Unmap(V6(b, ""))
    ensures !Mapped(V6(b, "")) && Listed(lib, deny, V6(b, "")) && !NeverAllowed(V6(b, "")) && !IsPrivate(V6(b, "")) ==>
              Admits(policy, Unmap(V6(b, zone))) && !Admits(policy, Unmap(V6(b, "")))
  {
    if !Mapped(V6(b, "")) && Listed(lib, deny, V6(b, "")) {
      ZoneLeavesTests(V6(b, zone));
      DenyEntryHoldsExactly(lib, allowPrivate, deny, [], policy, V6(b, zone));
      DenyEntryHoldsExactly(lib, allowPrivate, deny, [], policy, V6(b, ""));
    }
  }

  /** The unspecified address is refused without a zone and admitted with any, by a policy
      made from no entries at all. */
  lemma ZonedUnspecifiedPasses(lib: Library, allowPrivate: bool, policy: Policy, zone: string)
    requires Built(lib, allowPrivate, [], [], policy) && zone != ""
    ensures !Admits(policy, Unmap(V6(ZERO16, ""))) && Admits(policy, Unmap(V6(ZERO16, zone)))
  {
    ZoneLeavesTests(V6(ZERO16, zone));
    AdmitsByLists(lib, allowPrivate, [], [], policy, V6(ZERO16, ""));
    AdmitsByLists(lib, allowPrivate, [], [], policy, V6(ZERO16, zone));
    InAnyOf(DEFAULTS, V6(ZERO16, zone));
    assert ZERO16[0] / 2 != 0x7E && ZERO16[15] != 1 && ZERO16[..12][10] != MAPPED[10];
  }

  // ---- Resolving a name once ----

  predicate IsLocalName(host: string) {
    var lower := ToLower(host);
    lower == "localhost" || (|lower| >= 10 && lower[|lower| - 10..] == ".localhost")
  }

  /** No letter outside ASCII has a lower case form in these names. */
  function ToLower(s: string): string {
    if s == "" then ""
    else (if 'A' <= s[0] <= 'Z' then [(s[0] as int + 32) as char] else [s[0]]) + ToLower(s[1..])
  }

  function Unbracket(host: string): string {
    if |host| >= 2 && host[0] == '[' && host[|host| - 1] == ']' then host[1..|host| - 1] else host
  }

  /** `netip.AddrFromSlice` on the bytes a resolver returned. */
  function AddrFromSlice(ip: seq<Byte>): Option<Addr> {
    if |ip| == 4 then Some(V4(ip)) else if |ip| == 16 then Some(V6(ip, "")) else None
  }

  predicate Passes(p: Policy, ip: seq<Byte>) {
    AddrFromSlice(ip).Some? && Admits(p, Unmap(AddrFromSlice(ip).value))
  }

  datatype Resolution = Allowed(addr: Addr, port: int) | InvalidPort | InvalidHost | Denied

  /** The loop over a resolver's answers. */
  method CheckAnswers(p: Policy, ips: seq<seq<Byte>>) returns (resolved: Option<Addr>)
    ensures resolved.Some? <==> forall i :: 0 <= i < |ips| ==> Passes(p, ips[i])
    ensures resolved.Some? ==>
              resolved.value == if ips == [] then NoAddr else Unmap(AddrFromSlice(ips[0]).value)
    ensures resolved.Some? && ips != [] ==> Admits(p, resolved.value) && resolved.value != NoAddr
  {
    var first := NoAddr;
    for i := 0 to |ips|
      invariant forall j :: 0 <= j < i ==> Passes(p, ips[j])
      invariant if i == 0 then first == NoAddr else first != NoAddr && first == Unmap(AddrFromSlice(ips[0]).value)
    {
      var addr := AddrFromSlice(ips[i]);
      if addr.None? { return None; }
      var plain := Unmap(addr.value);
      if !Admits(p, plain) { return None; }
      if first == NoAddr { first := plain; }
    }
    return Some(first);
  }

  /** The host without white space and brackets, when it is one that may be looked up. */
  function LookupName(host: string): Option<string> {
    var h := TrimSpace(host);
    if h == "" || D.HasScheme(h) then None else Some(Unbracket(h))
  }

  /** The address to dial. It is the literal if the host is one, and otherwise the first of
      the resolver's answers; `answers` is None if the resolver fails. */
  method ResolveAllowedHostPort(p: Policy, lib: Library, host: string, port: int, answers: Option<seq<seq<Byte>>>)
    returns (r: Resolution)
    ensures r.Allowed? ==> r.port == port && Admits(p, r.addr)
    ensures var name := LookupName(host);
            r.Allowed? <==>
              && 1 <= port <= 65535 && name.Some? && !IsLocalName(name.value)
              && (if lib.parseAddr(name.value).Some? then Admits(p, Unmap(lib.parseAddr(name.value).value))
                  else answers.Some? && answers.value != []
                       && forall i :: 0 <= i < |answers.value| ==> Passes(p, answers.value[i]))
    ensures r.Allowed? ==>
              var literal := lib.parseAddr(LookupName(host).value);
              r.addr == Unmap(if literal.Some? then literal.value else AddrFromSlice(answers.value[0]).value)
    ensures r.InvalidPort? <==> !(1 <= port <= 65535)
    ensures var name := LookupName(host);
            r.InvalidHost? <==>
              && 1 <= port <= 65535
              && (name.None? || (!IsLocalName(name.value) && lib.parseAddr(name.value).None?
                                 && (answers.None? || answers.value == [])))
  {
    if port < 1 || port > 65535 { return InvalidPort; }
    var name := LookupName(host);
    if name.None? { return InvalidHost; }
    if IsLocalName(name.value) { return Denied; }
    var literal := lib.parseAddr(name.value);
    if literal.Some? {
      var ip := Unmap(literal.value);
      if !Admits(p, ip) { return Denied; }
      return Allowed(ip, port);
    }
    if answers.None? || answers.value == [] { return InvalidHost; }
    var resolved := CheckAnswers(p, answers.value);
    if resolved.None? { return Denied; }
    return Allowed(resolved.value, port);
  }
}
