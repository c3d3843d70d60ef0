/** Records, the ordered host-to-record dictionary, and `build_endpoints`: for
    every router (in order) and every host its rule names (in order), a host the
    domain filter admits and that contains a dot becomes a CNAME record that
    points at the proxy's own hostname, stored under the host; a later
    occurrence of the same host overwrites the earlier one in place. */
module EndpointBuilder {
  import opened Wrappers
  import opened Settings
  import opened Ttl
  import opened DomainFilter
  import opened HostRules

  /** An endpoint record as the webhook receives it; `recordTtl` is `None` when
      the key `recordTTL` is absent. */
  datatype Record = Record(dnsName: string, recordType: string, targets: seq<string>, recordTtl: Option<int>)

  /** A Python dict from host name to record: `names` lists the keys in
      insertion order. */
  datatype Endpoints = Endpoints(names: seq<string>, records: map<string, Record>) {
    ghost predicate Valid() {
      && (forall i, j :: 0 <= i < j < |names| ==> names[i] != names[j])
      && (forall k :: k in records <==> k in names)
    }
  }

  const EMPTY := Endpoints([], map[])

  /** `d[host] = record`: a new key goes to the end, an existing one keeps its place. */
  function Put(d: Endpoints, host: string, record: Record): (r: Endpoints)
    requires d.Valid()
    ensures r.Valid()
    ensures r.records == d.records[host := record]
    ensures |r.names| >= |d.names| && r.names[..|d.names|] == d.names
    ensures host in d.records ==> |r.names| == |d.names|
    ensures host !in d.records ==> r.names == d.names + [host]
  {
    if host in d.records then Endpoints(d.names, d.records[host := record])
    else Endpoints(d.names + [host], d.records[host := record])
  }

  /** A router as the proxy's API lists it: `rule` is `None` when the key is absent. */
  datatype Router = Router(rule: Option<string>)

  /** The result of fetching the router list: `Unreachable` stands for a transport
      error, a non-success status or a body that is not JSON. */
  datatype RouterSource = Unreachable | Fetched(routers: seq<Router>)

  datatype SyncError = SourceUnavailable

  /** `router.get("rule", "")`. */
  function RuleOf(router: Router): string {
    match router.rule
    case Some(rule) => rule
    case None => ""
  }

  function CnameRecord(host: string, target: string, ttl: Option<int>): Record {
    Record(host, "CNAME", [target], ttl)
  }

  /** One pass of the inner loop body. */
  function AddHost(d: Endpoints, host: string, cfg: Config, ttl: Option<int>): Endpoints
    requires d.Valid()
  {
    if !Admits(cfg, host) || '.' !in host then d
    else Put(d, host, CnameRecord(host, cfg.traefikHostname, ttl))
  }

  function AddHosts(d: Endpoints, hosts: seq<string>, cfg: Config, ttl: Option<int>): (r: Endpoints)
    requires d.Valid()
    ensures r.Valid()
    decreases |hosts|
  {
    if hosts == [] then d
    else AddHost(AddHosts(d, hosts[..|hosts| - 1], cfg, ttl), hosts[|hosts| - 1], cfg, ttl)
  }

  function AddRouters(routers: seq<Router>, cfg: Config, ttl: Option<int>): (r: Endpoints)
    ensures r.Valid()
    decreases |routers|
  {
    if routers == [] then EMPTY
    else
      var last := routers[|routers| - 1];
      AddHosts(AddRouters(routers[..|routers| - 1], cfg, ttl), FindHosts(RuleOf(last)), cfg, ttl)
  }

  /** The dictionary `build_endpoints` returns for a fetched router list. */
  function EndpointsFor(routers: seq<Router>, cfg: Config): Endpoints {
    AddRouters(routers, cfg, ResolveTtl(cfg.defaultTtl))
  }

  /** `build_endpoints()`, with the fetch as an input. */
  method BuildEndpoints(source: RouterSource, cfg: Config) returns (r: Result<Endpoints, SyncError>)
    ensures source.Unreachable? ==> r == Failure(SourceUnavailable)
    ensures source.Fetched? ==> r == Success(EndpointsFor(source.routers, cfg))
  {
    if source.Unreachable? {
      return Failure(SourceUnavailable);
    }
    var routers := source.routers;
    var ttl := ResolveTtl(cfg.defaultTtl);
    var endpoints := EMPTY;
    for i := 0 to |routers|
      invariant endpoints == AddRouters(routers[..i], cfg, ttl)
    {
      var hosts := FindHosts(RuleOf(routers[i]));
      ghost var before := endpoints;
      for j := 0 to |hosts|
        invariant endpoints.Valid()
        invariant endpoints == AddHosts(before, hosts[..j], cfg, ttl)
      {
        var host := hosts[j];
        assert hosts[..j + 1][..j] == hosts[..j];
        if !Admits(cfg, host) {
          continue;
        }
        if '.' !in host {
          continue;
        }
        var record := CnameRecord(host, cfg.traefikHostname, ttl);
        endpoints := Put(endpoints, host, record);
      }
      assert hosts[..|hosts|] == hosts;
      assert routers[..i + 1][..i] == routers[..i];
    }
    assert routers[..|routers|] == routers;
    return Success(endpoints);
  }

  /** Every record is a CNAME to `target` with TTL `ttl`, stored under its own
      host name, and that name has a dot and passes the domain filter. */
  ghost predicate Shaped(d: Endpoints, cfg: Config, ttl: Option<int>) {
    forall k :: k in d.records ==>
      && d.records[k] == CnameRecord(k, cfg.traefikHostname, ttl)
      && '.' in k
      && Admits(cfg, k)
  }

  /** The hosts a router list names, before any filtering. */
  ghost predicate Mentioned(routers: seq<Router>, host: string) {
    exists i :: 0 <= i < |routers| && host in FindHosts(RuleOf(routers[i]))
  }

  lemma AddHostShapeAndKeys(d: Endpoints, h: string, cfg: Config, ttl: Option<int>)
    requires d.Valid() && Shaped(d, cfg, ttl)
    ensures Shaped(AddHost(d, h, cfg, ttl), cfg, ttl)
    ensures forall k :: k in AddHost(d, h, cfg, ttl).records <==>
      k in d.records || (k == h && '.' in k && Admits(cfg, k))
  {
  }

  lemma {:induction false} AddHostsShapeAndKeys(d: Endpoints, hosts: seq<string>, cfg: Config, ttl: Option<int>)
    requires d.Valid() && Shaped(d, cfg, ttl)
    ensures Shaped(AddHosts(d, hosts, cfg, ttl), cfg, ttl)
    ensures forall k :: k in AddHosts(d, hosts, cfg, ttl).records <==>
      k in d.records || (k in hosts && '.' in k && Admits(cfg, k))
    decreases |hosts|
  {
    if hosts != [] {
      var init := hosts[..|hosts| - 1];
      var h := hosts[|hosts| - 1];
      var before := AddHosts(d, init, cfg, ttl);
      assert AddHosts(d, hosts, cfg, ttl) == AddHost(before, h, cfg, ttl);
      AddHostsShapeAndKeys(d, init, cfg, ttl);
      AddHostShapeAndKeys(before, h, cfg, ttl);
      assert hosts == init + [h];
      assert forall k :: k in hosts <==> k in init || k == h;
    }
  }

  lemma {:induction false} AddRoutersShapeAndKeys(routers: seq<Router>, cfg: Config, ttl: Option<int>)
    ensures Shaped(AddRouters(routers, cfg, ttl), cfg, ttl)
    ensures forall k :: k in AddRouters(routers, cfg, ttl).records <==>
      Mentioned(routers, k) && '.' in k && Admits(cfg, k)
    decreases |routers|
  {
    if routers != [] {
      var init := routers[..|routers| - 1];
      var last := routers[|routers| - 1];
      AddRoutersShapeAndKeys(init, cfg, ttl);
      AddHostsShapeAndKeys(AddRouters(init, cfg, ttl), FindHosts(RuleOf(last)), cfg, ttl);
      forall k ensures Mentioned(routers, k) <==> Mentioned(init, k) || k in FindHosts(RuleOf(last)) {
        if Mentioned(routers, k) {
          var i :| 0 <= i < |routers| && k in FindHosts(RuleOf(routers[i]));
          if i < |routers| - 1 {
            assert routers[i] == init[i];
          }
        }
        if Mentioned(init, k) {
          var i :| 0 <= i < |init| && k in FindHosts(RuleOf(init[i]));
          assert routers[i] == init[i];
        }
        if k in FindHosts(RuleOf(last)) {
          assert k in FindHosts(RuleOf(routers[|routers| - 1]));
        }
      }
    }
  }

  /** What `build_endpoints` promises of each record: stored under its own
      `dnsName`, a name with a dot that the domain filter admits, of type CNAME,
      pointing at the proxy's hostname alone, and with a TTL exactly when the
      configured TTL resolves to one. No host appears twice. */
  lemma EndpointsForRecords(routers: seq<Router>, cfg: Config)
    ensures EndpointsFor(routers, cfg).Valid()
    ensures var d := EndpointsFor(routers, cfg);
      forall k :: k in d.records ==>
        && d.records[k].dnsName == k
        && '.' in k
        && Admits(cfg, k)
        && d.records[k].recordType == "CNAME"
        && d.records[k].targets == [cfg.traefikHostname]
        && d.records[k].recordTtl == ResolveTtl(cfg.defaultTtl)
  {
    AddRoutersShapeAndKeys(routers, cfg, ResolveTtl(cfg.defaultTtl));
  }

  /** A host gets a record exactly when some router's rule names it, it has a
      dot, and the domain filter admits it. */
  lemma EndpointsForKeys(routers: seq<Router>, cfg: Config, host: string)
    ensures host in EndpointsFor(routers, cfg).records <==>
      && (exists i :: 0 <= i < |routers| && host in FindHosts(RuleOf(routers[i])))
      && '.' in host
      && Admits(cfg, host)
  {
    AddRoutersShapeAndKeys(routers, cfg, ResolveTtl(cfg.defaultTtl));
  }

  /** Hosts already present add nothing: the second pass only rewrites values
      with equal ones. */
  lemma {:induction false} AddHostsAgainIsIdle(d: Endpoints, hosts: seq<string>, cfg: Config, ttl: Option<int>)
    requires d.Valid() && Shaped(d, cfg, ttl)
    requires forall k :: k in hosts && '.' in k && Admits(cfg, k) ==> k in d.records
    ensures AddHosts(d, hosts, cfg, ttl) == d
    decreases |hosts|
  {
    if hosts != [] {
      var init := hosts[..|hosts| - 1];
      var h := hosts[|hosts| - 1];
      assert forall k :: k in init ==> k in hosts;
      AddHostsAgainIsIdle(d, init, cfg, ttl);
      if Admits(cfg, h) && '.' in h {
        assert d.records[h := CnameRecord(h, cfg.traefikHostname, ttl)] == d.records;
      }
    }
  }

  /** A router whose rule already appeared earlier in the list adds nothing, so
      duplicated routers, adjacent or not, collapse into one set of entries. */
  lemma RepeatedRouterChangesNothing(routers: seq<Router>, r: Router, cfg: Config)
    requires r in routers
    ensures EndpointsFor(routers + [r], cfg) == EndpointsFor(routers, cfg)
  {
    var ttl := ResolveTtl(cfg.defaultTtl);
    var more := routers + [r];
    assert more[..|more| - 1] == routers;
    assert more[|more| - 1] == r;
    var d := AddRouters(routers, cfg, ttl);
    AddRoutersShapeAndKeys(routers, cfg, ttl);
    var i :| 0 <= i < |routers| && routers[i] == r;
    forall k | k in FindHosts(RuleOf(r)) && '.' in k && Admits(cfg, k) ensures k in d.records {
      assert Mentioned(routers, k);
    }
    AddHostsAgainIsIdle(d, FindHosts(RuleOf(r)), cfg, ttl);
  }
}
