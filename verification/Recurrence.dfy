/** Suppression counts from the last incident created, not from the last match: an attack that
    matches at every tick is reported again and again. */
module Recurrence {
  import opened Domain
  import opened EngineModel
  import opened Ticks
  import opened Dedup

  /** Some incident with this fingerprint is less than two windows old at `at`. */
  ghost predicate Reported(st: State, fp: string, window: int, at: int) {
    exists i :: 0 <= i < |st.trace.log| && st.trace.log[i].fingerprint == fp
      && at - st.trace.log[i].createdAt < 2 * window
  }

  ghost predicate MatchesAt(rules: seq<Rule>, st: State, tick: Step, fp: string, window: int)
    requires tick.Evaluate? && |tick.tenantOrders| == |rules|
  {
    exists m :: m in TickMatches(rules, st.buffers, tick.keyOrder, tick.tenantOrders, tick.now)
                && m.fp == fp && m.rule.window == window
  }

  /** A rule of this window matches under this fingerprint at every tick, and the ticks after
      `prev` are at most `gap` apart. */
  ghost predicate Ongoing(rules: seq<Rule>, st: State, steps: seq<Step>, fp: string, window: int, prev: int, gap: int)
    decreases |steps|
  {
    |steps| > 0 ==>
      var step := steps[0];
      if step.Evaluate? then
        && |step.tenantOrders| == |rules| && MatchesAt(rules, st, step, fp, window) && step.now - prev <= gap
        && Ongoing(rules, Next(rules, st, step), steps[1..], fp, window, step.now, gap)
      else Ongoing(rules, Next(rules, st, step), steps[1..], fp, window, prev, gap)
  }

  function LastTick(steps: seq<Step>, prev: int): int
    decreases |steps|
  {
    if |steps| == 0 then prev else LastTick(steps[1..], if steps[0].Evaluate? then steps[0].now else prev)
  }

  /** Every incident with the fingerprint from the n-th on follows another one within `bound`. */
  ghost predicate Closely(log: seq<Incident>, n: nat, fp: string, bound: int) {
    forall j :: n <= j < |log| && log[j].fingerprint == fp ==>
      exists i :: 0 <= i < j && log[i].fingerprint == fp && log[j].createdAt - log[i].createdAt < bound
  }

  // ---- one tick --------------------------------------------------------------------------

  /** After a match, its fingerprint has a young cache entry, to the end of the tick. */
  lemma {:induction false} EntryYoung(st: State, ms: seq<Match>, now: int, m: Match)
    requires m in ms && m.rule.window > 0
    ensures var cache := ProcessMatches(st, ms, now).cache; m.fp in cache && now - cache[m.fp] < 2 * m.rule.window
    decreases |ms|
  {
    var st1, rest := ProcessMatch(st, ms[0], now), ms[1..];
    if m == ms[0] {
      YoungStays(st1, rest, now, m.fp, m.rule.window);
    } else {
      EntryYoung(st1, rest, now, m);
    }
  }

  lemma {:induction false} YoungStays(st: State, ms: seq<Match>, now: int, fp: string, window: int)
    requires window > 0 && fp in st.cache && now - st.cache[fp] < 2 * window
    ensures var cache := ProcessMatches(st, ms, now).cache; fp in cache && now - cache[fp] < 2 * window
    decreases |ms|
  {
    if |ms| != 0 {
      YoungStays(ProcessMatch(st, ms[0], now), ms[1..], now, fp, window);
    }
  }

  lemma {:induction false} TickStamps(st: State, ms: seq<Match>, now: int)
    ensures st.trace.log <= ProcessMatches(st, ms, now).trace.log
    ensures forall k :: |st.trace.log| <= k < |ProcessMatches(st, ms, now).trace.log| ==>
              ProcessMatches(st, ms, now).trace.log[k].createdAt == now
    decreases |ms|
  {
    if |ms| != 0 {
      TickStamps(ProcessMatch(st, ms[0], now), ms[1..], now);
    }
  }

  lemma CloselyExtended(log: seq<Incident>, more: seq<Incident>, n: nat, fp: string, bound: int, now: int)
    requires log <= more && n <= |log| && Closely(log, n, fp, bound)
    requires forall k :: |log| <= k < |more| ==> more[k].createdAt == now
    requires exists i :: 0 <= i < |log| && log[i].fingerprint == fp && now - log[i].createdAt < bound
    ensures Closely(more, n, fp, bound)
  {
    var c :| 0 <= c < |log| && log[c].fingerprint == fp && now - log[c].createdAt < bound;
    forall j | n <= j < |more| && more[j].fingerprint == fp
      ensures exists i :: 0 <= i < j && more[i].fingerprint == fp && more[j].createdAt - more[i].createdAt < bound
    {
      if j < |log| {
        var i :| 0 <= i < j && log[i].fingerprint == fp && log[j].createdAt - log[i].createdAt < bound;
        assert more[i] == log[i] && more[j] == log[j];
      } else {
        assert more[c] == log[c];
      }
    }
  }

  lemma TickReports(rules: seq<Rule>, st: State, tick: Step, fp: string, window: int)
    requires tick.Evaluate? && |tick.tenantOrders| == |rules| && MatchesAt(rules, st, tick, fp, window) && window > 0
    requires CacheInv(Next(rules, st, tick))
    ensures Reported(Next(rules, st, tick), fp, window, tick.now)
  {
    var ms := TickMatches(rules, st.buffers, tick.keyOrder, tick.tenantOrders, tick.now);
    var m :| m in ms && m.fp == fp && m.rule.window == window;
    EntryYoung(Begin(rules, st, tick.now), ms, tick.now, m);
    var i :| Indexed(Next(rules, st, tick), fp, i);
  }

  lemma TickFollows(rules: seq<Rule>, st: State, tick: Step, n: nat, fp: string, window: int, prev: int, gap: int)
    requires tick.Evaluate? && |tick.tenantOrders| == |rules| && tick.now - prev <= gap
    requires Reported(st, fp, window, prev) && n <= |st.trace.log|
    requires Closely(st.trace.log, n, fp, 2 * window + gap)
    ensures n <= |Next(rules, st, tick).trace.log|
    ensures Closely(Next(rules, st, tick).trace.log, n, fp, 2 * window + gap)
  {
    var ms := TickMatches(rules, st.buffers, tick.keyOrder, tick.tenantOrders, tick.now);
    TickStamps(Begin(rules, st, tick.now), ms, tick.now);
    var c :| 0 <= c < |st.trace.log| && st.trace.log[c].fingerprint == fp
             && prev - st.trace.log[c].createdAt < 2 * window;
    CloselyExtended(st.trace.log, Next(rules, st, tick).trace.log, n, fp, 2 * window + gap, tick.now);
  }

  // ---- whole runs ----------------------------------------------------------------------------

  /** From a tick at `prev` that left the fingerprint reported, as long as the attack goes on:
      the last tick finds it reported less than two windows ago, and every new incident with
      it follows an earlier one by less than two windows and one gap between ticks. */
  lemma {:induction false} ReportsRecur(rules: seq<Rule>, st: State, steps: seq<Step>, n: nat, fp: string,
                                        window: int, prev: int, gap: int)
    requires WellFormedRules(rules) && ShortWindows(rules) && window > 0
    requires CacheInv(st) && SpacingInv(rules, st) && ValidRun(rules, st, steps)
    requires Ongoing(rules, st, steps, fp, window, prev, gap) && Reported(st, fp, window, prev)
    requires n <= |st.trace.log| && Closely(st.trace.log, n, fp, 2 * window + gap)
    ensures var st' := Run(rules, st, steps);
            && Reported(st', fp, window, LastTick(steps, prev))
            && n <= |st'.trace.log| && Closely(st'.trace.log, n, fp, 2 * window + gap)
    decreases |steps|
  {
    if |steps| != 0 {
      var step := steps[0];
      DedupStep(rules, st, step);
      if step.Evaluate? {
        TickReports(rules, st, step, fp, window);
        TickFollows(rules, st, step, n, fp, window, prev, gap);
        ReportsRecur(rules, Next(rules, st, step), steps[1..], n, fp, window, step.now, gap);
      } else {
        OthersKeepLog(rules, st, step);
        ReportsRecur(rules, Next(rules, st, step), steps[1..], n, fp, window, prev, gap);
      }
    }
  }

  /** In every run: when a tick matches under a fingerprint and so do all later ones, at most
      `gap` apart, the incidents after that tick never leave two windows and a gap without one. */
  lemma AttackReportedAgain(rules: seq<Rule>, before: seq<Step>, tick: Step, after: seq<Step>, fp: string,
                            window: int, gap: int)
    requires WellFormedRules(rules) && ShortWindows(rules) && window > 0
    requires ValidRun(rules, INITIAL, before)
    requires var st := Run(rules, INITIAL, before);
             && tick.Evaluate? && Enabled(rules, st, tick) && MatchesAt(rules, st, tick, fp, window)
             && ValidRun(rules, Next(rules, st, tick), after)
             && Ongoing(rules, Next(rules, st, tick), after, fp, window, tick.now, gap)
    ensures var st1 := Next(rules, Run(rules, INITIAL, before), tick);
            var st2 := Run(rules, st1, after);
            && Reported(st2, fp, window, LastTick(after, tick.now))
            && |st1.trace.log| <= |st2.trace.log|
            && Closely(st2.trace.log, |st1.trace.log|, fp, 2 * window + gap)
  {
    DedupRun(rules, INITIAL, before);
    var st := Run(rules, INITIAL, before);
    DedupStep(rules, st, tick);
    TickReports(rules, st, tick, fp, window);
    var st1 := Next(rules, st, tick);
    ReportsRecur(rules, st1, after, |st1.trace.log|, fp, window, tick.now, gap);
  }
}
