/** The bounded pool that runs all pipelines. */
module Pool {
  import opened Results
  import opened Values
  import opened Concurrency

  datatype PipelineResult = PipelineResult(pipeline: string, success: bool, records: nat)

  datatype Stats = Stats(total: nat, successful: nat, failed: nat, results: seq<PipelineResult>)

  function Succeeded(results: seq<PipelineResult>): nat {
    if results == [] then 0
    else Succeeded(results[..|results| - 1]) + if results[|results| - 1].success then 1 else 0
  }

  function Names(results: seq<PipelineResult>): (names: seq<string>)
    ensures |names| == |results|
  {
    seq(|results|, j requires 0 <= j < |results| => results[j].pipeline)
  }

  lemma NamesMore(results: seq<PipelineResult>, r: PipelineResult)
    ensures Names(results + [r]) == Names(results) + [r.pipeline]
    ensures Succeeded(results + [r]) == Succeeded(results) + if r.success then 1 else 0
  {
    assert (results + [r])[..|results|] == results;
  }

  /** The results so far and the running pipelines are the first `next` pipelines. */
  ghost predicate Shared(configs: seq<string>, next: nat, results: seq<PipelineResult>, running: seq<string>) {
    next <= |configs| && multiset(Names(results)) + multiset(running) == multiset(configs[..next])
    && |results| + |running| == next
  }

  lemma StartedOne(configs: seq<string>, next: nat, results: seq<PipelineResult>, running: seq<string>)
    requires Shared(configs, next, results, running) && next < |configs|
    ensures Shared(configs, next + 1, results, running + [configs[next]])
  {
    assert configs[..next + 1] == configs[..next] + [configs[next]];
  }

  lemma SettledOne(configs: seq<string>, next: nat, results: seq<PipelineResult>, running: seq<string>, k: nat,
                   r: PipelineResult)
    requires Shared(configs, next, results, running) && k < |running| && r.pipeline == running[k]
    ensures Shared(configs, next, results + [r], running[..k] + running[k + 1..])
  {
    NamesMore(results, r);
    assert running == running[..k] + ([running[k]] + running[k + 1..]);
  }

  /** Some running pipeline settles first, with a result of its own or an error. */
  method Race(running: seq<string>) returns (index: nat, result: PipelineResult)
    requires running != []
    ensures index < |running| && result.pipeline == running[index]
  {
    index :| 0 <= index < |running|;
    var fulfilled: bool, success: bool, records: nat := *, *, *;
    result := PipelineResult(running[index], fulfilled && success, if fulfilled then records else 0);
  }

  /** `peak` pipelines are as many as the limit and their number allow. */
  predicate IsPeak(peak: nat, limit: Numeric, pipelines: nat) {
    peak <= pipelines && (peak > 0 ==> Below(peak - 1, limit)) && (peak < pipelines ==> !Below(peak, limit))
  }

  /** Where the loop stands before a round: `peak` pipelines ran at a time, and not for want of room. */
  ghost predicate Between(configs: seq<string>, limit: Numeric, next: nat, results: seq<PipelineResult>,
                          running: seq<string>, peak: nat) {
    && Shared(configs, next, results, running) && |running| <= peak <= next
    && (peak > 0 ==> Below(peak - 1, limit)) && (peak < next ==> !Below(peak, limit))
    && (results == [] ==> |running| == peak)
    && (results != [] && next < |configs| ==> !Below(peak, limit))
  }

  /** The inner loop: start pipelines as long as the limit allows it. */
  method FillPool(configs: seq<string>, limit: Numeric, start: nat, before: seq<string>, highest: nat,
                  ghost results: seq<PipelineResult>)
    returns (next: nat, running: seq<string>, peak: nat)
    requires Between(configs, limit, start, results, before, highest)
    ensures Between(configs, limit, next, results, running, peak)
    ensures next == |configs| || !Below(|running|, limit)
    ensures !Below(0, limit) ==> running == before && next == start
  {
    next, running, peak := start, before, highest;
    while next < |configs| && Below(|running|, limit)
      invariant Between(configs, limit, next, results, running, peak)
      invariant !Below(0, limit) ==> running == before && next == start
      decreases |configs| - next
    {
      StartedOne(configs, next, results, running);
      running := running + [configs[next]];
      next := next + 1;
      peak := if |running| > peak then |running| else peak;
    }
  }

  /** At most `rounds` rounds of the loop, as many as it may take. If the settings let work start, every pipeline is run
      once and gives one result, whatever order they finish in and whichever fail, in one round each; otherwise no
      number of rounds is enough. */
  method RunAllPipelines(configs: seq<string>, stored: Option<Stored>, vars: Variables, rounds: nat)
    returns (ended: bool, stats: Stats, peak: nat)
    ensures rounds >= |configs| ==> (ended <==> SettingsStartWork(Pipeline, stored, vars) || configs == [])
    ensures ended ==> rounds >= |configs| && multiset(Names(stats.results)) == multiset(configs)
    ensures ended ==> stats.total == |configs| == |stats.results| == stats.successful + stats.failed
    ensures ended ==> stats.successful == Succeeded(stats.results)
    ensures ended ==> IsPeak(peak, ConcurrencyLimit(Pipeline, stored, vars), |configs|)
  {
    LimitStartsWork(Pipeline, stored, vars);
    var limit := ConcurrencyLimit(Pipeline, stored, vars);
    var results: seq<PipelineResult> := [];
    var successful, failed := 0, 0;
    var running: seq<string> := [];
    var next: nat, round: nat := 0, 0;
    peak := 0;
    while round < rounds && (next < |configs| || running != [])
      invariant Between(configs, limit, next, results, running, peak)
      invariant next < |configs| && next > 0 ==> results != []
      invariant successful == Succeeded(results) && successful + failed == |results|
      invariant round <= rounds && |results| == if Below(0, limit) then round else 0
    {
      next, running, peak := FillPool(configs, limit, next, running, peak, results);
      if running != [] {
        var index, result := Race(running);
        NamesMore(results, result);
        SettledOne(configs, next, results, running, index, result);
        results := results + [result];
        if result.success {
          successful := successful + 1;
        } else {
          failed := failed + 1;
        }
        running := running[..index] + running[index + 1..];
      }
      round := round + 1;
    }
    ended := next == |configs| && running == [];
    assert configs[..|configs|] == configs;
    stats := Stats(|configs|, successful, failed, results);
  }
}
