/** Name lookup over HTTPS: a list of endpoints sharing one deadline. Times and durations are
    in nanoseconds. */
module Doh {
  import opened Wrappers
  import opened Text

  const SECOND: int := 1_000_000_000
  const QUERY_TIMEOUT: int := 10 * SECOND
  const CAP: int := 2 * QUERY_TIMEOUT

  const TYPE_A: int := 1
  const TYPE_AAAA: int := 28

  /** Sixteen bytes as `net.ParseIP` yields them, or the four of an IPv4 address. */
  type IP = seq<int>

  /** `net.ParseIP`: the library's parser is a parameter of everything below. */
  type Parser = string -> Option<IP>

  ghost predicate IsParser(parse: Parser) {
    forall s :: parse(s).Some? ==> |parse(s).value| == 16
  }

  predicate IsMapped(ip: IP) {
    |ip| == 16 && (forall i :: 0 <= i < 10 ==> ip[i] == 0) && ip[10] == 255 && ip[11] == 255
  }

  function To4(ip: IP): Option<IP> {
    if |ip| == 4 then Some(ip) else if IsMapped(ip) then Some(ip[12..]) else None
  }

  datatype Answer = Answer(rrType: int, data: string)

  datatype Failure =
    | ContextDone | QueryFailed(text: string) | Joined(first: Failure, second: Failure) | NoRecords(endpoint: nat)

  datatype Query = Failed(error: Failure) | Answered(answers: seq<Answer>)

  /** How one endpoint behaves when it is asked: the two queries' results, whether its own
      context is done after each, the time the attempt takes, and whether the caller's context
      is done afterwards. */
  datatype Attempt = Attempt(a: Query, doneAfterA: bool, aaaa: Query, doneAfterAAAA: bool, elapsed: nat, done: bool)

  /** What one answer record contributes. */
  function Address(parse: Parser, answer: Answer, rrType: int): Option<IP> {
    var ip := parse(TrimSpace(answer.data));
    if answer.rrType != rrType || ip.None? then None
    else if rrType == TYPE_A then To4(ip.value)
    else if To4(ip.value).None? then ip
    else None
  }

  function Usable(parse: Parser, answers: seq<Answer>, rrType: int): seq<IP> {
    if answers == [] then []
    else
      var last := Address(parse, answers[|answers| - 1], rrType);
      Usable(parse, answers[..|answers| - 1], rrType) + if last.Some? then [last.value] else []
  }

  method FilterAddresses(parse: Parser, answers: seq<Answer>, rrType: int) returns (ips: seq<IP>)
    ensures ips == Usable(parse, answers, rrType)
  {
    ips := [];
    for i := 0 to |answers|
      invariant ips == Usable(parse, answers[..i], rrType)
    {
      assert answers[..i + 1][..i] == answers[..i];
      if answers[i].rrType != rrType { continue; }
      var ip := parse(TrimSpace(answers[i].data));
      if ip.None? { continue; }
      if rrType == TYPE_A {
        var v4 := To4(ip.value);
        if v4.Some? { ips := ips + [v4.value]; }
        continue;
      }
      if To4(ip.value).None? { ips := ips + [ip.value]; }
    }
    assert answers[..|answers|] == answers;
  }

  function QueryIps(parse: Parser, q: Query, rrType: int): seq<IP> {
    if q.Failed? then [] else Usable(parse, q.answers, rrType)
  }

  datatype EndpointResult = Found(ips: seq<IP>) | Nothing | Error(failure: Failure)

  function LookupEndpoint(parse: Parser, x: Attempt): EndpointResult {
    var ipv4 := QueryIps(parse, x.a, TYPE_A);
    if ipv4 != [] then Found(ipv4)
    else if x.doneAfterA then Error(ContextDone)
    else
      var ipv6 := QueryIps(parse, x.aaaa, TYPE_AAAA);
      if ipv6 != [] then Found(ipv6)
      else if x.doneAfterAAAA then Error(ContextDone)
      else if x.a.Failed? && x.aaaa.Failed? then Error(Joined(x.a.error, x.aaaa.error))
      else if x.a.Failed? then Error(x.a.error)
      else if x.aaaa.Failed? then Error(x.aaaa.error)
      else Nothing
  }

  // ---- Which addresses an endpoint can yield ----

  predicate SingleFamily(ips: seq<IP>) {
    || (forall i :: 0 <= i < |ips| ==> |ips[i]| == 4)
    || (forall i :: 0 <= i < |ips| ==> |ips[i]| == 16 && !IsMapped(ips[i]))
  }

  lemma {:induction false} UsableFamily(parse: Parser, answers: seq<Answer>, rrType: int)
    requires IsParser(parse)
    ensures forall ip :: ip in Usable(parse, answers, rrType) ==>
              if rrType == TYPE_A then |ip| == 4 else |ip| == 16 && !IsMapped(ip)
  {
    if answers != [] { UsableFamily(parse, answers[..|answers| - 1], rrType); }
  }

  /** Exactly the addresses of the records of that type count, in the records' order. */
  lemma {:induction false} UsableIs(parse: Parser, answers: seq<Answer>, rrType: int)
    ensures forall ip :: ip in Usable(parse, answers, rrType) <==>
              exists answer :: answer in answers && Address(parse, answer, rrType) == Some(ip)
  {
    if answers != [] {
      var init, last := answers[..|answers| - 1], answers[|answers| - 1];
      UsableIs(parse, init, rrType);
      assert answers == init + [last];
    }
  }

  /** An endpoint's addresses are never none and of one family, and IPv6 ones only when it
      gave no IPv4 address at all. */
  lemma EndpointPrefersV4(parse: Parser, x: Attempt)
    requires IsParser(parse) && LookupEndpoint(parse, x).Found?
    ensures var ips, v4 := LookupEndpoint(parse, x).ips, QueryIps(parse, x.a, TYPE_A);
            && ips != [] && SingleFamily(ips)
            && if v4 != [] then ips == v4
               else ips == QueryIps(parse, x.aaaa, TYPE_AAAA) && forall ip :: ip in ips ==> |ip| == 16
  {
    if x.a.Answered? { UsableFamily(parse, x.a.answers, TYPE_A); }
    if x.aaaa.Answered? { UsableFamily(parse, x.aaaa.answers, TYPE_AAAA); }
    var ips := LookupEndpoint(parse, x).ips;
    assert forall i :: 0 <= i < |ips| ==> ips[i] in ips;
  }

  // ---- The time budget ----

  /** Go's division of durations: toward zero. */
  function TruncDiv(a: int, n: nat): int
    requires n > 0
  {
    if a >= 0 then a / n else -((-a) / n)
  }

  function Budget(remaining: int, left: nat): int
    requires left > 0
  {
    var budget := TruncDiv(remaining, left);
    if budget > CAP then CAP else budget
  }

  function Spent(xs: seq<Attempt>): nat {
    if xs == [] then 0 else Spent(xs[..|xs| - 1]) + xs[|xs| - 1].elapsed
  }

  /** What the k-th endpoint is given, when the lookup began with `total` to go. */
  function BudgetAt(xs: seq<Attempt>, total: int, k: nat): int
    requires k < |xs|
  {
    Budget(total - Spent(xs[..k]), |xs| - k)
  }

  /** The first `tried` endpoints end within what they were given, and a context past its
      deadline is found done. */
  ghost predicate Respects(xs: seq<Attempt>, total: int, tried: nat)
    requires tried <= |xs|
  {
    forall k :: 0 <= k < tried ==>
      && (xs[k].elapsed <= BudgetAt(xs, total, k) || (BudgetAt(xs, total, k) < 0 && xs[k].elapsed == 0))
      && (total < 0 ==> xs[k].done)
  }

  /** Only the last endpoint tried may have left the caller's context done. */
  ghost predicate Reached(xs: seq<Attempt>, tried: nat)
    requires tried <= |xs|
  {
    forall k :: 0 <= k < tried - 1 ==> !xs[k].done
  }

  lemma DivBelow(a: int, n: nat, q: int)
    requires n > 0 && a >= 0 && q * n <= a
    ensures q <= a / n
  {
    if q > a / n { TimesKeeps(a / n + 1, q, n); }
  }

  lemma TimesKeeps(a: int, b: int, n: nat)
    requires a <= b
    ensures a * n <= b * n
  {
  }

  /** An endpoint within its budget leaves each later one at least the same share. */
  lemma ShareStays(remaining: int, left: nat, elapsed: nat, share: int)
    requires left > 0 && share >= 0 && share * left <= remaining
    requires elapsed <= Budget(remaining, left) || (Budget(remaining, left) < 0 && elapsed == 0)
    ensures share * (left - 1) <= remaining - elapsed
  {
    TimesKeeps(0, share, left);
    DivBelow(remaining, left, share);
    var given := remaining / left;
    TimesKeeps(share, given, left - 1);
    assert given * (left - 1) == given * left - given;
  }

  lemma ShareAt(xs: seq<Attempt>, total: int, k: nat, share: int)
    requires k < |xs| && share >= 0 && share * (|xs| - k) <= total - Spent(xs[..k])
    ensures BudgetAt(xs, total, k) >= if share < CAP then share else CAP
  {
    TimesKeeps(0, share, |xs| - k);
    DivBelow(total - Spent(xs[..k]), |xs| - k, share);
  }

  lemma ShareStep(xs: seq<Attempt>, total: int, k: nat, share: int)
    requires k < |xs| && Respects(xs, total, k + 1)
    requires share >= 0 && share * (|xs| - k) <= total - Spent(xs[..k])
    ensures share * (|xs| - k - 1) <= total - Spent(xs[..k + 1])
  {
    SpentGrows(xs, k);
    ShareStays(total - Spent(xs[..k]), |xs| - k, xs[k].elapsed, share);
  }

  /** By induction over the endpoints tried: what is left covers a full share for each to come. */
  lemma {:induction false} SharesLeft(xs: seq<Attempt>, total: int, k: nat, share: int)
    requires k <= |xs| && Respects(xs, total, k)
    requires share >= 0 && share * |xs| <= total
    ensures share * (|xs| - k) <= total - Spent(xs[..k])
  {
    if k == 0 {
      assert xs[..0] == [];
    } else {
      SharesLeft(xs, total, k - 1, share);
      ShareStep(xs, total, k - 1, share);
    }
  }

  /** Every endpoint that is tried gets at least an equal share of the whole budget, or
      twenty seconds if that is less, and together they stay within the budget. */
  lemma EveryEndpointGetsItsShare(xs: seq<Attempt>, total: int, tried: nat)
    requires 0 < tried <= |xs| && Respects(xs, total, tried) && Reached(xs, tried)
    ensures forall k :: 0 <= k < tried ==>
              BudgetAt(xs, total, k) >= if TruncDiv(total, |xs|) < CAP then TruncDiv(total, |xs|) else CAP
    ensures Spent(xs[..tried]) <= if total < 0 then 0 else total
  {
    if total >= 0 {
      var share := total / |xs|;
      DivTimes(total, |xs|);
      forall k | 0 <= k < tried ensures BudgetAt(xs, total, k) >= if share < CAP then share else CAP {
        SharesLeft(xs, total, k, share);
        ShareAt(xs, total, k, share);
      }
      SharesLeft(xs, total, tried, share);
      TimesKeeps(0, share, |xs| - tried);
    } else {
      PastDeadline(xs, total, tried);
    }
  }

  lemma DivTimes(a: int, n: nat)
    requires n > 0 && a >= 0
    ensures a / n * n <= a && a / n >= 0
  {
  }

  lemma PastDeadline(xs: seq<Attempt>, total: int, tried: nat)
    requires 0 < tried <= |xs| && Respects(xs, total, tried) && Reached(xs, tried) && total < 0
    ensures tried == 1 && Spent(xs[..1]) == 0
    ensures BudgetAt(xs, total, 0) == TruncDiv(total, |xs|) <= 0
  {
  }

  // ---- The lookup ----

  datatype Resolver = Resolver(hasClient: bool, endpoints: seq<Attempt>)

  datatype Result =
    | Ips(ips: seq<IP>) | EmptyHost | NilResolver | NilClient | NoEndpoints
    | AllFailed(failures: seq<Failure>)

  function LiteralIP(parse: Parser, host: string): Option<IP> {
    var ip := parse(host);
    if ip.Some? then ip
    else if |host| >= 2 && host[0] == '[' && host[|host| - 1] == ']' then parse(host[1..|host| - 1])
    else None
  }

  /** The caller's time to go, or the default when it set no deadline. */
  function Total(deadline: Option<int>, now: int): int {
    if deadline.Some? then deadline.value - now else 4 * QUERY_TIMEOUT
  }

  /** Asking one endpoint, as the loop sees it. */
  type Asker = Attempt -> EndpointResult

  function Asking(parse: Parser): Asker { (x: Attempt) => LookupEndpoint(parse, x) }

  /** What the failure of the k-th endpoint adds to the joined error. */
  function FailureOf(ask: Asker, x: Attempt, k: nat): Failure {
    var r := ask(x);
    if r.Error? then r.failure else NoRecords(k)
  }

  /** The first `tried` endpoints yielded nothing, and the lookup went on after each. */
  ghost predicate Passed(ask: Asker, xs: seq<Attempt>, tried: nat)
    requires tried <= |xs|
  {
    forall k :: 0 <= k < tried ==> !ask(xs[k]).Found? && !xs[k].done
  }

  /** Each failure is that of its endpoint. */
  ghost predicate FailuresAre(ask: Asker, xs: seq<Attempt>, failures: seq<Failure>) {
    |failures| <= |xs| && forall k :: 0 <= k < |failures| ==> failures[k] == FailureOf(ask, xs[k], k)
  }

  /** Each timeout is its endpoint's share of the time left when its turn came. */
  ghost predicate BudgetsAre(xs: seq<Attempt>, total: int, budgets: seq<int>) {
    |budgets| <= |xs| && forall k :: 0 <= k < |budgets| ==> budgets[k] == BudgetAt(xs, total, k)
  }

  /** What a lookup over the endpoints comes to: either the first endpoint in order with
      addresses decides it, or all that could be tried failed, each for its reason. */
  ghost predicate Decides(ask: Asker, xs: seq<Attempt>, tried: nat, r: Result) {
    && 1 <= tried <= |xs| && Passed(ask, xs, tried - 1)
    && match r
       case Ips(ips) => ask(xs[tried - 1]) == Found(ips)
       case AllFailed(failures) =>
         && !ask(xs[tried - 1]).Found? && (tried == |xs| || xs[tried - 1].done)
         && |failures| == tried && FailuresAre(ask, xs, failures)
       case _ => false
  }

  /** Looks a name up; `budgets` are the timeouts given to the endpoints tried. */
  method Lookup(parse: Parser, name: string, resolver: Option<Resolver>, deadline: Option<int>, start: int)
    returns (r: Result, budgets: seq<int>)
    ensures var host := TrimSpace(name);
            if host == "" then r == EmptyHost && budgets == []
            else if LiteralIP(parse, host).Some? then r == Ips([LiteralIP(parse, host).value]) && budgets == []
            else if resolver.None? then r == NilResolver && budgets == []
            else if !resolver.value.hasClient then r == NilClient && budgets == []
            else if resolver.value.endpoints == [] then r == NoEndpoints && budgets == []
            else
              var xs := resolver.value.endpoints;
              Decides(Asking(parse), xs, |budgets|, r) && BudgetsAre(xs, Total(deadline, start), budgets)
  {
    budgets := [];
    var host := TrimSpace(name);
    if host == "" { return EmptyHost, []; }
    var literal := LiteralIP(parse, host);
    if literal.Some? { return Ips([literal.value]), []; }
    if resolver.None? { return NilResolver, []; }
    if !resolver.value.hasClient { return NilClient, []; }
    if resolver.value.endpoints == [] { return NoEndpoints, []; }

    var until := if deadline.Some? then deadline.value else start + 4 * QUERY_TIMEOUT;
    r, budgets := AskInOrder(Asking(parse), resolver.value.endpoints, until, start);
  }

  lemma FailuresGrow(ask: Asker, xs: seq<Attempt>, failures: seq<Failure>)
    requires FailuresAre(ask, xs, failures) && |failures| < |xs|
    ensures FailuresAre(ask, xs, failures + [FailureOf(ask, xs[|failures|], |failures|)])
  {
  }

  lemma SpentGrows(xs: seq<Attempt>, k: nat)
    requires k < |xs|
    ensures Spent(xs[..k + 1]) == Spent(xs[..k]) + xs[k].elapsed
  {
    assert xs[..k + 1][..k] == xs[..k];
  }

  /** Gives the next endpoint its share of the time that remains. */
  method GiveBudget(xs: seq<Attempt>, ghost total: int, budgets: seq<int>, remaining: int) returns (given: seq<int>)
    requires BudgetsAre(xs, total, budgets) && |budgets| < |xs| && remaining == total - Spent(xs[..|budgets|])
    ensures BudgetsAre(xs, total, given) && |given| == |budgets| + 1
  {
    var budget := TruncDiv(remaining, |xs| - |budgets|);
    if budget > 2 * QUERY_TIMEOUT { budget := 2 * QUERY_TIMEOUT; }
    given := budgets + [budget];
  }

  /** The loop of the lookup, from `start` until the context's deadline. */
  method AskInOrder(ask: Asker, xs: seq<Attempt>, until: int, start: int) returns (r: Result, budgets: seq<int>)
    requires xs != []
    ensures Decides(ask, xs, |budgets|, r) && BudgetsAre(xs, until - start, budgets)
  {
    budgets := [];
    var now, errs, index := start, [], 0;
    while index < |xs|
      invariant 0 <= index <= |xs| && |budgets| == index && |errs| == index
      invariant Passed(ask, xs, index)
      invariant now == start + Spent(xs[..index])
      invariant BudgetsAre(xs, until - start, budgets) && FailuresAre(ask, xs, errs)
    {
      var x := xs[index];
      budgets := GiveBudget(xs, until - start, budgets, until - now);
      var answer := ask(x);
      SpentGrows(xs, index);
      FailuresGrow(ask, xs, errs);
      now := now + x.elapsed;
      if answer.Found? { return Ips(answer.ips), budgets; }
      errs := errs + [if answer.Error? then answer.failure else NoRecords(index)];
      if x.done { return AllFailed(errs), budgets; }
      index := index + 1;
    }
    return AllFailed(errs), budgets;
  }

  /** The lookup's outcome is determined: it is what the first endpoint in order with
      addresses says, if the context lives to see it, and a failure otherwise. */
  lemma OneOutcome(ask: Asker, xs: seq<Attempt>, t1: nat, r1: Result, t2: nat, r2: Result)
    requires Decides(ask, xs, t1, r1) && Decides(ask, xs, t2, r2)
    ensures t1 == t2 && r1 == r2
  {
  }

  /** A lookup succeeds exactly when some endpoint has addresses and none before it had any
      or found the context done. What it returns is not empty and of one family. */
  lemma SuccessComesFirst(parse: Parser, xs: seq<Attempt>, tried: nat, r: Result)
    requires IsParser(parse) && Decides(Asking(parse), xs, tried, r)
    ensures r.Ips? <==> exists k: nat :: k < |xs| && Passed(Asking(parse), xs, k) && LookupEndpoint(parse, xs[k]).Found?
    ensures r.Ips? ==> r.ips != [] && SingleFamily(r.ips)
    ensures r.AllFailed? ==> r.failures != []
  {
    if r.Ips? {
      assert Passed(Asking(parse), xs, tried - 1) && LookupEndpoint(parse, xs[tried - 1]).Found?;
      EndpointPrefersV4(parse, xs[tried - 1]);
    }
    if k: nat :| k < |xs| && Passed(Asking(parse), xs, k) && LookupEndpoint(parse, xs[k]).Found? {
      OneOutcome(Asking(parse), xs, tried, r, k + 1, Ips(LookupEndpoint(parse, xs[k]).ips));
    }
  }

  /** So in any lookup whose endpoints keep to their timeouts, each timeout is at least an
      equal share of the time there was, or twenty seconds, and the whole ends in time. */
  lemma LookupIsFair(ask: Asker, xs: seq<Attempt>, total: int, r: Result, budgets: seq<int>)
    ensures Decides(ask, xs, |budgets|, r) && BudgetsAre(xs, total, budgets) && Respects(xs, total, |budgets|) ==>
              && (forall k :: 0 <= k < |budgets| ==>
                    (if TruncDiv(total, |xs|) < CAP then TruncDiv(total, |xs|) else CAP) <= budgets[k] <= CAP)
              && Spent(xs[..|budgets|]) <= if total < 0 then 0 else total
  {
    if Decides(ask, xs, |budgets|, r) && BudgetsAre(xs, total, budgets) && Respects(xs, total, |budgets|) {
      assert Reached(xs, |budgets|);
      EveryEndpointGetsItsShare(xs, total, |budgets|);
    }
  }
}
