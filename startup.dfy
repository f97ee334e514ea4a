/**
 The start-up wiring of go-import-redirector's `main`: the check on the
 positional arguments, one rule per `(import, repo)` pair registered under its
 root, and the choice between a TCP and a Unix-socket listener.
 */
module Startup {
  import opened Wrappers
  import opened GoStrings
  import opened GoUrl
  import opened Redirect

  /** The default of the -listen flag. */
  const DefaultListenAddr := ":9001"

  /** The default of the -vcs flag. */
  const DefaultVcs := "git"

  /** The exit status of the usage message. */
  const UsageExitCode := 2

  /** The exit status of log.Fatalf. */
  const FatalExitCode := 1

  /** One registration with the request multiplexer: a pattern and the rule that serves it. */
  datatype Route = Route(pattern: string, rule: Rule)

  /** How start-up ends, before any listener is opened. */
  datatype Outcome =
    | UsageError                                   // usage message, exit status 2
    | ConfigFailure(pair: nat, error: ConfigError)  // log.Fatalf on the pair at this position
    | Routes(routes: seq<Route>)                   // the routes to serve

  /** The rule the `k`-th `(import, repo)` pair of the arguments makes, or why it makes none. */
  function PairRule(args: seq<string>, k: nat, defaultVcs: string, parse: Parser): Result<Rule, ConfigError>
    requires 2 * k + 1 < |args|
  {
    NewRedirect(args[2 * k], args[2 * k + 1], defaultVcs, parse)
  }

  /** `routes` are the routes of the first |routes| pairs: each pair's rule, under its root. */
  predicate RoutesOf(args: seq<string>, routes: seq<Route>, defaultVcs: string, parse: Parser)
    requires 2 * |routes| <= |args|
  {
    forall k :: 0 <= k < |routes| ==>
      && PairRule(args, k, defaultVcs, parse) == Ok(routes[k].rule)
      && routes[k].pattern == Root(routes[k].rule)
  }

  /** All pairs before `n` make a rule. */
  predicate PairsOk(args: seq<string>, n: nat, defaultVcs: string, parse: Parser)
    requires 2 * n <= |args|
  {
    forall k :: 0 <= k < n ==> PairRule(args, k, defaultVcs, parse).Ok?
  }

  /** One more successful pair extends the routes by its own route. */
  lemma RoutesOfAppend(args: seq<string>, routes: seq<Route>, defaultVcs: string, parse: Parser, rule: Rule)
    requires 2 * |routes| + 1 < |args|
    requires RoutesOf(args, routes, defaultVcs, parse)
    requires PairRule(args, |routes|, defaultVcs, parse) == Ok(rule)
    ensures RoutesOf(args, routes + [Route(Root(rule), rule)], defaultVcs, parse)
  {
    var routes' := routes + [Route(Root(rule), rule)];
    forall k | 0 <= k < |routes'|
      ensures PairRule(args, k, defaultVcs, parse) == Ok(routes'[k].rule)
      ensures routes'[k].pattern == Root(routes'[k].rule)
    {
      if k < |routes| {
        assert routes'[k] == routes[k];
      }
    }
  }

  /** The routes of the first pairs are all successful pairs. */
  lemma RoutesOfOk(args: seq<string>, routes: seq<Route>, defaultVcs: string, parse: Parser)
    requires 2 * |routes| <= |args|
    requires RoutesOf(args, routes, defaultVcs, parse)
    ensures PairsOk(args, |routes|, defaultVcs, parse)
  {
    forall k | 0 <= k < |routes|
      ensures PairRule(args, k, defaultVcs, parse).Ok?
    {
      assert PairRule(args, k, defaultVcs, parse) == Ok(routes[k].rule);
    }
  }

  /**
   The argument check and registration loop of `main`: fewer than two or an odd
   number of arguments is a usage error; otherwise each pair in order makes a rule,
   registered under its root, until a pair fails, which ends start-up.
   */
  method RegisterRules(args: seq<string>, defaultVcs: string, parse: Parser) returns (out: Outcome)
    ensures out == UsageError <==> |args| < 2 || |args| % 2 != 0
    ensures out.ConfigFailure? ==>
      && 2 * out.pair + 1 < |args|
      && PairRule(args, out.pair, defaultVcs, parse) == Err(out.error)
      && PairsOk(args, out.pair, defaultVcs, parse)
    ensures out.Routes? ==>
      && 2 * |out.routes| == |args|
      && RoutesOf(args, out.routes, defaultVcs, parse)
  {
    if |args| < 2 || |args| % 2 != 0 {
      return UsageError;
    }
    var pairs := |args| / 2;
    assert 2 * pairs == |args|;
    var routes: seq<Route> := [];
    var k := 0;
    while k < pairs
      invariant k <= pairs && |routes| == k
      invariant RoutesOf(args, routes, defaultVcs, parse)
    {
      var redirect := PairRule(args, k, defaultVcs, parse);
      if redirect.Err? {
        RoutesOfOk(args, routes, defaultVcs, parse);
        return ConfigFailure(k, redirect.error);
      }
      RoutesOfAppend(args, routes, defaultVcs, parse, redirect.value);
      routes := routes + [Route(Root(redirect.value), redirect.value)];
      k := k + 1;
    }
    return Routes(routes);
  }

  /**
   The exit status start-up ends with, 0 when it goes on to serve: the
   usage message exits with 2, a failing pair through log.Fatalf with 1.
   */
  function ExitStatus(out: Outcome): (code: int)
    ensures code == UsageExitCode <==> out == UsageError
    ensures code == FatalExitCode <==> out.ConfigFailure?
    ensures code == 0 <==> out.Routes?
  {
    match out
    case UsageError => UsageExitCode
    case ConfigFailure(_, _) => FatalExitCode
    case Routes(_) => 0
  }

  /** Where the server listens. */
  datatype Listener = Listener(network: string, address: string)

  /** A listen address starting with "unix:" names a Unix socket; any other is a TCP address. */
  function ListenTarget(addr: string): (l: Listener)
    ensures l.network == "unix" || l == Listener("tcp", addr)
    ensures l.network == "unix" <==> HasPrefix(addr, "unix:")
    ensures l.network == "unix" ==> "unix:" + l.address == addr
  {
    if HasPrefix(addr, "unix:") then
      assert addr == addr[..5] + addr[5..];
      Listener("unix", addr[5..])
    else Listener("tcp", addr)
  }

  /** Without -listen the server listens on TCP port 9001. */
  lemma DefaultListen()
    ensures ListenTarget(DefaultListenAddr) == Listener("tcp", ":9001")
  {
    assert DefaultListenAddr[0] != "unix:"[0];
  }

  /** The socket path after "unix:" is the address listened on. */
  lemma ListenUnix(socket: string)
    ensures ListenTarget("unix:" + socket) == Listener("unix", socket)
  {
    HasPrefixConcat("unix:", socket);
  }
}
