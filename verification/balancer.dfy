/** The round-robin load balancer of loadbalancer/main.go: backend servers
    built from URL strings, and a cursor that hands them out in turn. */
module Balancer {
  import opened Urls
  import opened Rotation

  /** A backend server: the parsed URL requests are forwarded to. */
  datatype Server = Server(url: URL)

  /** Wraps one URL string as a server; fails exactly when parsing fails,
      with the parser's own error. */
  function NewServer(parse: Parser, urlStr: string): (r: Result<Server, ParseError>)
    ensures r.Failure? <==> parse(urlStr).Failure?
    ensures r.Failure? ==> r.error == parse(urlStr).error
    ensures r.Success? ==> r.value.url == parse(urlStr).value
  {
    match parse(urlStr)
    case Failure(e) => Failure(e)
    case Success(u) => Success(Server(u))
  }

  /** Position k is the first URL of the list that does not parse. */
  predicate IsFirstFailure(parse: Parser, urls: seq<string>, k: int)
  {
    0 <= k < |urls| && parse(urls[k]).Failure? &&
    forall j :: 0 <= j < k ==> parse(urls[j]).Success?
  }

  /** The server list the construction loop builds from a list of URLs,
      defined URL by URL from the front, as the loop visits them: the servers
      in input order, or the error of the first URL that does not parse. */
  function BuildServers(parse: Parser, urls: seq<string>): (r: Result<seq<Server>, ParseError>)
    ensures r.Success? ==> |r.value| == |urls|
  {
    if urls == [] then Success([])
    else
      match BuildServers(parse, urls[..|urls| - 1])
      case Failure(e) => Failure(e)
      case Success(servers) =>
        match NewServer(parse, urls[|urls| - 1])
        case Failure(e) => Failure(e)
        case Success(s) => Success(servers + [s])
  }

  /** Construction succeeds exactly when every URL parses, and then server i
      is the one built from URL i: same length, same order. */
  lemma {:induction false} BuildServersSuccess(parse: Parser, urls: seq<string>)
    ensures BuildServers(parse, urls).Success? <==> forall i :: 0 <= i < |urls| ==> parse(urls[i]).Success?
    ensures BuildServers(parse, urls).Success? ==>
      forall i :: 0 <= i < |urls| ==> NewServer(parse, urls[i]) == Success(BuildServers(parse, urls).value[i])
  {
    if urls != [] {
      var front := urls[..|urls| - 1];
      BuildServersSuccess(parse, front);
      assert forall i :: 0 <= i < |front| ==> front[i] == urls[i];
    }
  }

  /** A failed construction reports the error of the first URL that does
      not parse. */
  lemma {:induction false} BuildServersFailure(parse: Parser, urls: seq<string>)
    requires BuildServers(parse, urls).Failure?
    ensures exists k :: IsFirstFailure(parse, urls, k) && BuildServers(parse, urls).error == parse(urls[k]).error
  {
    var front := urls[..|urls| - 1];
    assert forall i :: 0 <= i < |front| ==> front[i] == urls[i];
    if BuildServers(parse, front).Failure? {
      BuildServersFailure(parse, front);
      var k :| IsFirstFailure(parse, front, k) && BuildServers(parse, front).error == parse(front[k]).error;
      assert IsFirstFailure(parse, urls, k);
    } else {
      BuildServersSuccess(parse, front);
      assert IsFirstFailure(parse, urls, |urls| - 1);
    }
  }

  /** All or nothing: once a prefix of the URL list fails to build, the whole
      list fails with the same error, whatever follows it. */
  lemma {:induction false} PrefixFailure(parse: Parser, urls: seq<string>, i: nat)
    requires i <= |urls| && BuildServers(parse, urls[..i]).Failure?
    ensures BuildServers(parse, urls) == BuildServers(parse, urls[..i])
  {
    if i < |urls| {
      var front := urls[..|urls| - 1];
      assert front[..i] == urls[..i];
      PrefixFailure(parse, front, i);
    } else {
      assert urls[..i] == urls;
    }
  }

  /** A round-robin load balancer: the backends in configuration order and
      the position of the one the next request goes to. */
  class LoadBalancer {
    var servers: seq<Server>
    var index: int
    /** The positions handed out by NextServer since construction, in order. */
    ghost var picked: seq<nat>

    /** The cursor is a valid position (0 for an empty list) and equals the
        number of selections so far, wrapped; the selections so far are the
        round-robin schedule. */
    ghost predicate Valid()
      reads this
    {
      if |servers| == 0 then index == 0 && picked == []
      else 0 <= index < |servers| && index == |picked| % |servers| &&
           picked == Schedule(|servers|, |picked|)
    }

    /** The struct literal at the end of NewLoadBalancer: the cursor starts at 0. */
    constructor (servers: seq<Server>)
      ensures Valid()
      ensures this.servers == servers && index == 0 && picked == []
    {
      this.servers := servers;
      index := 0;
      picked := [];
    }

    /** Returns the server under the cursor and advances the cursor by one,
        wrapping at the end of the list. The list must not be empty (Go
        indexes out of range and divides by zero there). */
    method NextServer() returns (s: Server)
      requires Valid() && |servers| > 0
      modifies this
      ensures Valid()
      ensures servers == old(servers)
      ensures s == servers[old(index)]
      ensures index == (old(index) + 1) % |servers|
      ensures picked == old(picked) + [old(index)]
      ensures s == servers[|old(picked)| % |servers|]
    {
      s := servers[index];
      StepCursor(|picked|, |servers|);
      picked := picked + [index];
      index := (index + 1) % |servers|;
    }
  }

  /** Builds a balancer over the servers of the given URLs, in order, with the
      cursor at 0; stops at the first URL that does not parse and returns its
      error and no balancer. */
  method NewLoadBalancer(parse: Parser, serverURLs: seq<string>) returns (r: Result<LoadBalancer, ParseError>)
    ensures r.Failure? <==> BuildServers(parse, serverURLs).Failure?
    ensures r.Failure? ==> BuildServers(parse, serverURLs) == Failure(r.error)
    ensures r.Success? ==> (fresh(r.value) && r.value.Valid() &&
      BuildServers(parse, serverURLs) == Success(r.value.servers) &&
      r.value.index == 0 && r.value.picked == [])
  {
    var servers: seq<Server> := [];
    for i := 0 to |serverURLs|
      invariant BuildServers(parse, serverURLs[..i]) == Success(servers)
    {
      var server := NewServer(parse, serverURLs[i]);
      assert serverURLs[..i + 1][..i] == serverURLs[..i];
      if server.Failure? {
        PrefixFailure(parse, serverURLs, i + 1);
        return Failure(server.error);
      }
      servers := servers + [server.value];
    }
    assert serverURLs[..|serverURLs|] == serverURLs;
    var lb := new LoadBalancer(servers);
    return Success(lb);
  }

  /** From a freshly built balancer, selection j (0-based) returns the
      server at position j % n. */
  lemma RotationOrder(lb: LoadBalancer, j: nat)
    requires lb.Valid() && j < |lb.picked|
    ensures |lb.servers| > 0 && lb.picked[j] == j % |lb.servers|
  {
    ScheduleAt(|lb.servers|, |lb.picked|, j);
  }

  /** In any n*m consecutive selections each of the n servers is handed out
      exactly m times. */
  lemma FairSelections(lb: LoadBalancer, s: nat, m: nat, i: nat)
    requires lb.Valid() && i < |lb.servers| && s + |lb.servers| * m <= |lb.picked|
    ensures multiset(lb.picked[s..s + |lb.servers| * m])[i] == m
  {
    var n := |lb.servers|;
    var k := s + n * m;
    SchedulePrefix(n, |lb.picked|, k);
    FairWindow(n, s, k, m, i);
  }

  /** In any first k selections each server is handed out floor(k/n) or
      ceil(k/n) times. */
  lemma BalancedSelections(lb: LoadBalancer, i: nat)
    requires lb.Valid() && i < |lb.servers|
    ensures |lb.picked| / |lb.servers| <= multiset(lb.picked)[i] <= |lb.picked| / |lb.servers| + 1
  {
    ScheduleCount(|lb.servers|, |lb.picked|, i);
  }
}
