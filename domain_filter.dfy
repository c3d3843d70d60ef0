/** The domain filter `allowed_domain`: a host that matches any ignored pattern
    is rejected; otherwise, when allowed patterns are configured, the host must
    match one of them; with no allowed patterns every host that is not ignored
    is admitted. */
module DomainFilter {
  import opened Glob
  import opened Settings

  /** `any(fnmatch.fnmatch(host, p) for p in patterns)`. */
  function AnyMatch(host: string, patterns: seq<string>): (r: bool)
    ensures r <==> exists i :: 0 <= i < |patterns| && FnMatch(host, patterns[i])
    decreases |patterns|
  {
    if patterns == [] then false
    else if FnMatch(host, patterns[0]) then true
    else
      var r := AnyMatch(host, patterns[1..]);
      assert forall i :: 1 <= i < |patterns| ==> patterns[i] == patterns[1..][i - 1];
      r
  }

  /** `allowed_domain(host)` with the two parsed lists as parameters. */
  function AllowedDomain(host: string, allowed: seq<string>, ignored: seq<string>): (r: bool)
    ensures r <==>
      && (forall i :: 0 <= i < |ignored| ==> !FnMatch(host, ignored[i]))
      && (allowed == [] || exists i :: 0 <= i < |allowed| && FnMatch(host, allowed[i]))
  {
    if AnyMatch(host, ignored) then false
    else if allowed != [] then AnyMatch(host, allowed)
    else true
  }

  /** The filter with the lists read from the configuration. */
  predicate Admits(cfg: Config, host: string) {
    AllowedDomain(host, ParseList(cfg.allowedDomains), ParseList(cfg.ignoredDomains))
  }

  /** Deny wins: a host matching an ignored pattern is rejected, whatever the
      allowed patterns say. */
  lemma IgnoredBeatsAllowed(host: string, allowed: seq<string>, ignored: seq<string>, i: nat, j: nat)
    requires i < |ignored| && FnMatch(host, ignored[i])
    requires j < |allowed| && FnMatch(host, allowed[j])
    ensures !AllowedDomain(host, allowed, ignored)
  {
  }

  /** With no allowed patterns, every host that no ignored pattern matches is admitted. */
  lemma EmptyAllowListAdmitsUnignored(host: string, ignored: seq<string>)
    requires forall i :: 0 <= i < |ignored| ==> !FnMatch(host, ignored[i])
    ensures AllowedDomain(host, [], ignored)
  {
  }

  /** A common configuration: `ALLOWED_DOMAINS=*.example.com` and nothing ignored
      admits exactly the hosts ending in `.example.com`. */
  lemma SuffixAllowList(host: string)
    ensures AllowedDomain(host, ["*.example.com"], []) <==>
      |host| >= 12 && host[|host| - 12..] == ".example.com"
  {
    assert "*.example.com" == "*" + ".example.com";
    assert IsPlain(".example.com");
    StarSuffixMatchesEndings(host, ".example.com");
  }
}
