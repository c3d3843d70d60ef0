/** `refresh_loop`: the agent loads its cache file once as the baseline, then
    forever builds the current endpoints, compares them with the baseline, and
    when something differs pushes the difference and writes the new endpoints
    to the cache file; a failure anywhere in that sequence is logged and the
    cycle ends. Every cycle ends with a sleep of `refreshInterval` seconds. The
    baseline variable is never reassigned after loading. */
module Reconciler {
  import opened Wrappers
  import opened Settings
  import opened EndpointBuilder
  import opened Differ
  import opened Publisher

  /** What the loop has done so far: the baseline it diffs against, the cache
      file's content (`None` when there is none), every payload posted to the
      webhook, every sleep, and whether the loop is still running. */
  datatype LoopState = LoopState(last: Endpoints, store: Option<Endpoints>, sent: seq<Delta>, sleeps: seq<int>, alive: bool)

  /** What the outside world does during one cycle: the router list the proxy
      serves (or a failed fetch), the webhook's answers to successive posts,
      and whether writing the cache file succeeds. */
  datatype CycleInput = CycleInput(source: RouterSource, webhook: seq<bool>, saveSucceeds: bool)

  /** `load_cache()`: the file's dictionary, or the empty one when there is no
      usable file. */
  function LoadCache(cached: Option<Endpoints>): Endpoints {
    match cached
    case Some(d) => d
    case None => EMPTY
  }

  /** The state when the loop starts. */
  function Start(cached: Option<Endpoints>): LoopState {
    LoopState(LoadCache(cached), cached, [], [], true)
  }

  /** The `try` block of one iteration: build, diff, and on a change push and
      save. */
  function Sync(s: LoopState, cfg: Config, input: CycleInput): LoopState
    requires s.last.Valid()
  {
    match input.source
    case Unreachable => s
    case Fetched(routers) =>
      var next := EndpointsFor(routers, cfg);
      var delta := Diff(s.last, next);
      if !HasChanges(delta) then s
      else
        var r := Push(input.webhook, cfg.maxRetries, cfg.backoffFactor);
        var pushed := s.(sent := s.sent + seq(r.posts, _ => delta), sleeps := s.sleeps + r.waits);
        if r.status == SleepRaised then pushed
        else if input.saveSucceeds then pushed.(store := Some(next))
        else pushed
  }

  /** One iteration of `while True`, as written: the baseline stays what was
      loaded. A negative interval makes the final `time.sleep` raise outside
      the `try`, which ends the loop. */
  function Cycle(s: LoopState, cfg: Config, input: CycleInput): (r: LoopState)
    requires s.last.Valid()
    ensures r.last == s.last
  {
    if !s.alive then s
    else
      var t := Sync(s, cfg, input);
      if cfg.refreshInterval < 0 then t.(alive := false)
      else t.(sleeps := t.sleeps + [cfg.refreshInterval])
  }

  /** The iterations for a sequence of inputs, in order. */
  function Run(s: LoopState, cfg: Config, inputs: seq<CycleInput>): (r: LoopState)
    requires s.last.Valid()
    ensures r.last == s.last
    decreases |inputs|
  {
    if inputs == [] then s
    else Cycle(Run(s, cfg, inputs[..|inputs| - 1]), cfg, inputs[|inputs| - 1])
  }

  /** A cycle changes the cache file or posts to the webhook only when the
      fetch worked and the new endpoints differ from the baseline; a failed
      fetch skips both. */
  lemma PushAndSaveOnlyOnChange(s: LoopState, cfg: Config, input: CycleInput)
    requires s.last.Valid()
    ensures var r := Cycle(s, cfg, input);
      && (r.sent != s.sent || r.store != s.store ==>
            && input.source.Fetched?
            && HasChanges(Diff(s.last, EndpointsFor(input.source.routers, cfg))))
      && (r.store != s.store ==> r.store == Some(EndpointsFor(input.source.routers, cfg)))
  {
  }

  /** When the endpoints match the baseline, the cycle only sleeps. */
  lemma QuietCycleOnlySleeps(s: LoopState, cfg: Config, routers: seq<Router>, webhook: seq<bool>, saveSucceeds: bool)
    requires s.last.Valid() && s.alive && cfg.refreshInterval >= 0
    requires s.last.records == EndpointsFor(routers, cfg).records
    ensures Cycle(s, cfg, CycleInput(Fetched(routers), webhook, saveSucceeds)) == s.(sleeps := s.sleeps + [cfg.refreshInterval])
  {
    HasChangesIffRecordsDiffer(s.last, EndpointsFor(routers, cfg));
  }

  /** When the endpoints differ from the baseline and at least one attempt is
      allowed, the cycle posts the difference, once per attempt. */
  lemma ChangeIsPosted(s: LoopState, cfg: Config, routers: seq<Router>, webhook: seq<bool>, saveSucceeds: bool)
    requires s.last.Valid() && s.alive && cfg.maxRetries >= 1
    requires s.last.records != EndpointsFor(routers, cfg).records
    ensures var r := Cycle(s, cfg, CycleInput(Fetched(routers), webhook, saveSucceeds));
      && |r.sent| > |s.sent|
      && r.sent[..|s.sent|] == s.sent
      && (forall i :: |s.sent| <= i < |r.sent| ==> r.sent[i] == Diff(s.last, EndpointsFor(routers, cfg)))
      && (cfg.refreshInterval >= 0 ==>
            r.sleeps == s.sleeps + Push(webhook, cfg.maxRetries, cfg.backoffFactor).waits + [cfg.refreshInterval])
  {
    HasChangesIffRecordsDiffer(s.last, EndpointsFor(routers, cfg));
    PushPostsBounded(webhook, cfg.maxRetries, cfg.backoffFactor);
  }

  /** After a delivered push, a successful write leaves the new endpoints in
      the cache file. */
  lemma DeliveredPushSaves(s: LoopState, cfg: Config, routers: seq<Router>, webhook: seq<bool>)
    requires s.last.Valid() && s.alive
    requires s.last.records != EndpointsFor(routers, cfg).records
    requires Push(webhook, cfg.maxRetries, cfg.backoffFactor).status == Delivered
    ensures Cycle(s, cfg, CycleInput(Fetched(routers), webhook, true)).store == Some(EndpointsFor(routers, cfg))
  {
    HasChangesIffRecordsDiffer(s.last, EndpointsFor(routers, cfg));
  }

  /** A backoff sleep that raises leaves the `try` before `save_cache`, so the
      cache file is not touched, whether or not writing would succeed. */
  lemma RaisingSleepSkipsSave(s: LoopState, cfg: Config, routers: seq<Router>, webhook: seq<bool>, saveSucceeds: bool)
    requires s.last.Valid()
    requires Push(webhook, cfg.maxRetries, cfg.backoffFactor).status == SleepRaised
    ensures Cycle(s, cfg, CycleInput(Fetched(routers), webhook, saveSucceeds)).store == s.store
  {
  }

  /** The cache file is written even when every push attempt failed. */
  lemma ExhaustedPushStillSaves(s: LoopState, cfg: Config, routers: seq<Router>, webhook: seq<bool>)
    requires s.last.Valid() && s.alive
    requires s.last.records != EndpointsFor(routers, cfg).records
    requires Push(webhook, cfg.maxRetries, cfg.backoffFactor).status == Exhausted
    ensures Cycle(s, cfg, CycleInput(Fetched(routers), webhook, true)).store == Some(EndpointsFor(routers, cfg))
  {
    HasChangesIffRecordsDiffer(s.last, EndpointsFor(routers, cfg));
  }

  /** The agent restarted from its cache file. */
  function Restart(s: LoopState): LoopState {
    Start(s.store).(sent := s.sent, sleeps := s.sleeps)
  }

  /** As written, a change whose push failed is lost across a restart: the
      cache file already holds the new endpoints, so after the restart the
      same router list shows no difference and nothing is posted again. */
  lemma RestartForgetsFailedPush(s: LoopState, cfg: Config, routers: seq<Router>, webhook: seq<bool>, later: seq<bool>)
    requires s.last.Valid() && s.alive && cfg.refreshInterval >= 0 && cfg.backoffFactor >= 0
    requires s.last.records != EndpointsFor(routers, cfg).records
    requires forall j :: 1 <= j <= cfg.maxRetries ==> !Succeeds(webhook, j)
    ensures var failed := Cycle(s, cfg, CycleInput(Fetched(routers), webhook, true));
      var back := Restart(failed);
      back.last.Valid() && Cycle(back, cfg, CycleInput(Fetched(routers), later, true)).sent == back.sent
  {
    PushExhaustsWhenAllFail(webhook, cfg.maxRetries, cfg.backoffFactor);
    HasChangesIffRecordsDiffer(s.last, EndpointsFor(routers, cfg));
    var next := EndpointsFor(routers, cfg);
    DiffOfSameIsEmpty(next);
  }

  /** As written, the same difference is posted again on every cycle: after a
      delivered push the baseline is still the old one, so an unchanged router
      list produces the same non-empty difference the next time. */
  lemma RepeatedChangeIsRepushed(s: LoopState, cfg: Config, routers: seq<Router>)
    requires s.last.Valid() && s.alive && cfg.maxRetries >= 1 && cfg.refreshInterval >= 0
    requires s.last.records != EndpointsFor(routers, cfg).records
    ensures var input := CycleInput(Fetched(routers), [true], true);
      var delta := Diff(s.last, EndpointsFor(routers, cfg));
      Cycle(Cycle(s, cfg, input), cfg, input).sent == s.sent + [delta, delta]
  {
    HasChangesIffRecordsDiffer(s.last, EndpointsFor(routers, cfg));
    assert Push([true], cfg.maxRetries, cfg.backoffFactor) == PushReport(Delivered, 1, []);
  }

  /** The cycle as evidently intended: after a delivered push the new
      endpoints become the baseline and are saved; when the push is not
      delivered, neither the baseline nor the cache file changes, so the
      difference is tried again on the next cycle. */
  function CycleFixed(s: LoopState, cfg: Config, input: CycleInput): (r: LoopState)
    requires s.last.Valid()
    ensures r.last.Valid()
  {
    if !s.alive then s
    else
      var t :=
        match input.source
        case Unreachable => s
        case Fetched(routers) =>
          var next := EndpointsFor(routers, cfg);
          var delta := Diff(s.last, next);
          if !HasChanges(delta) then s
          else
            var r := Push(input.webhook, cfg.maxRetries, cfg.backoffFactor);
            var pushed := s.(sent := s.sent + seq(r.posts, _ => delta), sleeps := s.sleeps + r.waits);
            if r.status != Delivered then pushed
            else pushed.(last := next, store := if input.saveSucceeds then Some(next) else s.store);
      if cfg.refreshInterval < 0 then t.(alive := false)
      else t.(sleeps := t.sleeps + [cfg.refreshInterval])
  }

  /** Corrected: once a difference is delivered, the next cycle over the same
      router list posts nothing. */
  lemma FixedCycleSettles(s: LoopState, cfg: Config, routers: seq<Router>, webhook: seq<bool>, later: seq<bool>, saveSucceeds: bool)
    requires s.last.Valid() && s.alive && cfg.refreshInterval >= 0
    requires Push(webhook, cfg.maxRetries, cfg.backoffFactor).status == Delivered
    ensures var first := CycleFixed(s, cfg, CycleInput(Fetched(routers), webhook, saveSucceeds));
      CycleFixed(first, cfg, CycleInput(Fetched(routers), later, saveSucceeds)).sent == first.sent
  {
    var next := EndpointsFor(routers, cfg);
    DiffOfSameIsEmpty(next);
    HasChangesIffRecordsDiffer(s.last, next);
  }

  /** Corrected: a push that is not delivered leaves the baseline and the cache
      file as they were, so after a restart the difference is found again. */
  lemma FixedCycleKeepsUndeliveredChange(s: LoopState, cfg: Config, routers: seq<Router>, webhook: seq<bool>, saveSucceeds: bool)
    requires s.last.Valid() && s.alive
    requires LoadCache(s.store) == s.last
    requires s.last.records != EndpointsFor(routers, cfg).records
    requires Push(webhook, cfg.maxRetries, cfg.backoffFactor).status != Delivered
    ensures var failed := CycleFixed(s, cfg, CycleInput(Fetched(routers), webhook, saveSucceeds));
      && failed.last == s.last && failed.store == s.store
      && Restart(failed).last.Valid()
      && HasChanges(Diff(Restart(failed).last, EndpointsFor(routers, cfg)))
  {
    HasChangesIffRecordsDiffer(s.last, EndpointsFor(routers, cfg));
  }

  /** The agent's background thread. */
  class SyncAgent {
    const cfg: Config
    var lastEndpoints: Endpoints
    var cacheFile: Option<Endpoints>
    var posted: seq<Delta>
    var slept: seq<int>
    var running: bool

    function State(): LoopState
      reads this
    {
      LoopState(lastEndpoints, cacheFile, posted, slept, running)
    }

    ghost predicate Valid()
      reads this
    {
      lastEndpoints.Valid()
    }

    /** The start of `refresh_loop`: the baseline is the cache file's content. */
    constructor(cfg: Config, cached: Option<Endpoints>)
      requires cached.Some? ==> cached.value.Valid()
      ensures Valid()
      ensures this.cfg == cfg && State() == Start(cached)
    {
      this.cfg := cfg;
      lastEndpoints := LoadCache(cached);
      cacheFile := cached;
      posted := [];
      slept := [];
      running := true;
    }

    /** One iteration of the loop. */
    method RefreshOnce(input: CycleInput)
      requires Valid()
      modifies this
      ensures Valid()
      ensures State() == Cycle(old(State()), cfg, input)
    {
      if !running {
        return;
      }
      var built := BuildEndpoints(input.source, cfg);
      if built.Success? {
        var next := built.value;
        var delta := DiffEndpoints(lastEndpoints, next);
        if HasChanges(delta) {
          var report, sentNow := PushToWebhook(delta, input.webhook, cfg.maxRetries, cfg.backoffFactor);
          assert sentNow == seq(report.posts, _ => delta);
          posted := posted + sentNow;
          slept := slept + report.waits;
          if report.status != SleepRaised && input.saveSucceeds {
            cacheFile := Some(next);
          }
        }
      }
      if cfg.refreshInterval < 0 {
        running := false;
      } else {
        slept := slept + [cfg.refreshInterval];
      }
    }

    /** The loop run over a finite sequence of iterations. */
    method RefreshLoop(inputs: seq<CycleInput>)
      requires Valid()
      modifies this
      ensures Valid()
      ensures State() == Run(old(State()), cfg, inputs)
    {
      for i := 0 to |inputs|
        invariant Valid()
        invariant State() == Run(old(State()), cfg, inputs[..i])
      {
        assert inputs[..i + 1][..i] == inputs[..i];
        RefreshOnce(inputs[i]);
      }
      assert inputs[..|inputs|] == inputs;
    }
  }
}
