/** One evaluation tick in closed form: although the rule loop reads and writes the dedup
    cache as it goes, every decision equals the one reached with the cache at the tick's start. */
module Ticks {
  import opened Domain
  import opened EngineModel

  function FiredBy(cache: map<string, int>, m: Match, now: int, nextId: nat): seq<Incident> {
    if Suppressed(cache, m, now) then [] else [NewIncident(nextId, m, now)]
  }

  /** The incidents of a tick when every match is judged by the same cache. */
  function Fired(cache: map<string, int>, ms: seq<Match>, now: int, nextId: nat): seq<Incident>
    decreases |ms|
  {
    if |ms| == 0 then []
    else
      var head := FiredBy(cache, ms[0], now, nextId);
      head + Fired(cache, ms[1..], now, nextId + |head|)
  }

  predicate FiresWith(cache: map<string, int>, m: Match, now: int, fp: string) {
    m.fp == fp && !Suppressed(cache, m, now)
  }

  ghost predicate SomeFires(cache: map<string, int>, ms: seq<Match>, now: int, fp: string) {
    exists i :: 0 <= i < |ms| && FiresWith(cache, ms[i], now, fp)
  }

  /** The cache keeps its entries and gains one, stamped `now`, for each incident created. */
  ghost predicate CacheAfter(before: map<string, int>, after: map<string, int>, ms: seq<Match>, now: int) {
    forall fp ::
      && (fp in after <==> fp in before || SomeFires(before, ms, now, fp))
      && (fp in after ==> after[fp] == if SomeFires(before, ms, now, fp) then now else before[fp])
  }

  lemma {:induction false} FiredAgree(c1: map<string, int>, c2: map<string, int>, ms: seq<Match>, now: int, nextId: nat)
    requires forall i :: 0 <= i < |ms| ==> Suppressed(c1, ms[i], now) == Suppressed(c2, ms[i], now)
    ensures Fired(c1, ms, now, nextId) == Fired(c2, ms, now, nextId)
    decreases |ms|
  {
    if |ms| != 0 {
      FiredAgree(c1, c2, ms[1..], now, nextId + |FiredBy(c1, ms[0], now, nextId)|);
    }
  }

  /** Matches share a fingerprint only under one rule that never suppresses. */
  ghost predicate Independent(ms: seq<Match>) {
    forall i, j :: 0 <= i < j < |ms| ==>
      ms[i].fp != ms[j].fp || (ms[i].rule == ms[j].rule && ms[i].rule.window <= 0)
  }

  lemma RestUnaffected(st: State, ms: seq<Match>, now: int)
    requires |ms| > 0 && Independent(ms)
    ensures forall i :: 0 <= i < |ms[1..]| ==>
              Suppressed(ProcessMatch(st, ms[0], now).cache, ms[1..][i], now) == Suppressed(st.cache, ms[1..][i], now)
  {
    assert forall i :: 0 <= i < |ms[1..]| ==> ms[1..][i] == ms[i + 1];
  }

  lemma SomeFiresSplit(cache: map<string, int>, ms: seq<Match>, now: int, fp: string)
    requires |ms| > 0
    ensures SomeFires(cache, ms, now, fp) <==>
              FiresWith(cache, ms[0], now, fp) || SomeFires(cache, ms[1..], now, fp)
  {
    if SomeFires(cache, ms, now, fp) {
      var i :| 0 <= i < |ms| && FiresWith(cache, ms[i], now, fp);
      assert i > 0 ==> ms[1..][i - 1] == ms[i];
    }
    if SomeFires(cache, ms[1..], now, fp) {
      var i :| 0 <= i < |ms[1..]| && FiresWith(cache, ms[1..][i], now, fp);
      assert ms[i + 1] == ms[1..][i];
    }
  }

  lemma {:induction false} TickCache(st: State, ms: seq<Match>, now: int)
    requires Independent(ms)
    ensures CacheAfter(st.cache, ProcessMatches(st, ms, now).cache, ms, now)
    decreases |ms|
  {
    if |ms| != 0 {
      var st1, rest := ProcessMatch(st, ms[0], now), ms[1..];
      RestUnaffected(st, ms, now);
      TickCache(st1, rest, now);
      forall fp ensures SomeFires(st1.cache, rest, now, fp) == SomeFires(st.cache, rest, now, fp) {
        assert forall i :: 0 <= i < |rest| ==>
                 FiresWith(st1.cache, rest[i], now, fp) == FiresWith(st.cache, rest[i], now, fp);
      }
      forall fp ensures SomeFires(st.cache, ms, now, fp) <==>
          FiresWith(st.cache, ms[0], now, fp) || SomeFires(st.cache, rest, now, fp)
      {
        SomeFiresSplit(st.cache, ms, now, fp);
      }
    }
  }

  /** `after` is `before` with `extra` appended to everything that counts incidents. */
  ghost predicate Grows(before: State, after: State, extra: seq<Incident>) {
    && after.trace.log == before.trace.log + extra
    && after.outbox == before.outbox + extra
    && after.counters.created == before.counters.created + |extra|
  }

  lemma GrowsTransitive(a: State, b: State, c: State, x: seq<Incident>, y: seq<Incident>)
    requires Grows(a, b, x) && Grows(b, c, y)
    ensures Grows(a, c, x + y)
  {
  }

  lemma {:induction false} TickGrows(st: State, ms: seq<Match>, now: int)
    requires Independent(ms)
    ensures Grows(st, ProcessMatches(st, ms, now), Fired(st.cache, ms, now, st.counters.created))
    decreases |ms|
  {
    if |ms| != 0 {
      var st1, rest := ProcessMatch(st, ms[0], now), ms[1..];
      var head := FiredBy(st.cache, ms[0], now, st.counters.created);
      assert Grows(st, st1, head);
      RestUnaffected(st, ms, now);
      FiredAgree(st1.cache, st.cache, rest, now, st1.counters.created);
      TickGrows(st1, rest, now);
      GrowsTransitive(st, st1, ProcessMatches(st1, rest, now), head,
                      Fired(st1.cache, rest, now, st1.counters.created));
    }
  }

  ghost predicate Accounts(cache: map<string, int>, m: Match, now: int, inc: Incident) {
    !Suppressed(cache, m, now) && inc == NewIncident(inc.id, m, now)
  }

  /** Each incident comes from an unsuppressed match. */
  lemma {:induction false} FiredHasMatch(cache: map<string, int>, ms: seq<Match>, now: int, nextId: nat, inc: Incident)
    returns (m: Match)
    requires inc in Fired(cache, ms, now, nextId)
    ensures m in ms && Accounts(cache, m, now, inc)
    decreases |ms|
  {
    var head := FiredBy(cache, ms[0], now, nextId);
    if inc in head {
      m := ms[0];
    } else {
      m := FiredHasMatch(cache, ms[1..], now, nextId + |head|, inc);
    }
  }

  /** Each unsuppressed match yields an incident. */
  lemma {:induction false} MatchHasFired(cache: map<string, int>, ms: seq<Match>, now: int, nextId: nat, m: Match)
    returns (inc: Incident)
    requires m in ms && !Suppressed(cache, m, now)
    ensures inc in Fired(cache, ms, now, nextId) && Accounts(cache, m, now, inc)
    decreases |ms|
  {
    var head := FiredBy(cache, ms[0], now, nextId);
    if m == ms[0] {
      inc := head[0];
    } else {
      inc := MatchHasFired(cache, ms[1..], now, nextId + |head|, m);
    }
  }

  // ---- a fingerprint within a tick ----------------------------------------------------

  lemma {:induction false} LogGrows(st: State, ms: seq<Match>, now: int)
    ensures st.trace.log <= ProcessMatches(st, ms, now).trace.log
    decreases |ms|
  {
    if |ms| != 0 {
      LogGrows(ProcessMatch(st, ms[0], now), ms[1..], now);
    }
  }

  /** All matches with this fingerprint have windows of one length. */
  ghost predicate OneWindow(ms: seq<Match>, fp: string, window: int) {
    forall i :: 0 <= i < |ms| && ms[i].fp == fp ==> ms[i].rule.window == window
  }

  ghost predicate Reports(st: State, st': State, fp: string) {
    exists k :: |st.trace.log| <= k < |st'.trace.log| && st'.trace.log[k].fingerprint == fp
  }

  /** A fingerprint suppressed at some point of a tick stays so to its end. */
  lemma {:induction false} StaysSuppressed(st: State, ms: seq<Match>, now: int, fp: string, window: int)
    requires OneWindow(ms, fp, window) && fp in st.cache && now - st.cache[fp] < 2 * window
    ensures !Reports(st, ProcessMatches(st, ms, now), fp)
    decreases |ms|
  {
    if |ms| != 0 {
      var st1, rest := ProcessMatch(st, ms[0], now), ms[1..];
      assert forall i :: 0 <= i < |rest| ==> rest[i] == ms[i + 1];
      assert ms[0].fp == fp ==> Suppressed(st.cache, ms[0], now);
      StaysSuppressed(st1, rest, now, fp, window);
      LogGrows(st1, rest, now);
    }
  }

  /** One that is not suppressed when its tick starts is reported by it. */
  lemma {:induction false} GetsReported(st: State, ms: seq<Match>, now: int, m: Match)
    requires m in ms && OneWindow(ms, m.fp, m.rule.window) && !Suppressed(st.cache, m, now)
    ensures Reports(st, ProcessMatches(st, ms, now), m.fp)
    decreases |ms|
  {
    var st1, rest := ProcessMatch(st, ms[0], now), ms[1..];
    LogGrows(st1, rest, now);
    if ms[0].fp == m.fp {
      assert st1.trace.log[|st.trace.log|].fingerprint == m.fp;
    } else {
      assert forall i :: 0 <= i < |rest| ==> rest[i] == ms[i + 1];
      GetsReported(st1, rest, now, m);
    }
  }

  lemma OthersKeepLog(rules: seq<Rule>, st: State, step: Step)
    requires !step.Evaluate?
    ensures Next(rules, st, step).trace.log == st.trace.log
  {
  }
}
