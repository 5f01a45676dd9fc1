/** Concurrent updates lose nothing: TheHive write-backs and status patches may interleave
    freely with each other and with everything else. */
module Updates {
  import opened Domain
  import opened EngineModel
  import opened Reachable

  /** The last status accepted for an incident, or the one it had before. */
  function LastStatus(steps: seq<Step>, id: nat, before: string): string
    decreases |steps|
  {
    if |steps| == 0 then before
    else
      var s := steps[0];
      LastStatus(steps[1..], id, if s.Patch? && s.id == id && AcceptedStatus(s.status) then s.status else before)
  }

  function LastAlert(steps: seq<Step>, id: nat, before: string): string
    decreases |steps|
  {
    if |steps| == 0 then before
    else
      var s := steps[0];
      LastAlert(steps[1..], id, if s.WriteBack? && s.id == id then s.alertId else before)
  }

  /** When the incident was last written back to or patched. */
  function LastTouch(steps: seq<Step>, id: nat, before: int): int
    decreases |steps|
  {
    if |steps| == 0 then before
    else LastTouch(steps[1..], id, if Touches(steps[0], id) then steps[0].now else before)
  }

  predicate Touches(s: Step, id: nat) {
    (s.WriteBack? && s.id == id) || (s.Patch? && s.id == id && AcceptedStatus(s.status))
  }

  lemma {:induction false} MatchesKeepStored(st: State, ms: seq<Match>, now: int, id: nat)
    requires StoreInv(st) && id in st.incidents
    ensures id in ProcessMatches(st, ms, now).incidents
    ensures ProcessMatches(st, ms, now).incidents[id] == st.incidents[id]
    decreases |ms|
  {
    if |ms| != 0 {
      StoreMatches(st, [ms[0]], now);
      assert [ms[0]][1..] == [];
      assert ProcessMatches(st, [ms[0]], now) == ProcessMatches(ProcessMatch(st, ms[0], now), [], now);
      MatchesKeepStored(ProcessMatch(st, ms[0], now), ms[1..], now, id);
    }
  }

  ghost predicate Updated(before: Incident, after: Incident, step: Step, id: nat) {
    && after.status
       == (if step.Patch? && step.id == id && AcceptedStatus(step.status) then step.status else before.status)
    && after.theHiveId == (if step.WriteBack? && step.id == id then step.alertId else before.theHiveId)
    && after.updatedAt == (if Touches(step, id) then step.now else before.updatedAt)
    && SameIncident(after, before)
  }

  /** One step changes a stored incident only as its own patches and write-backs say. */
  lemma StepUpdates(rules: seq<Rule>, st: State, step: Step, id: nat)
    requires StoreInv(st) && id in st.incidents
    ensures var st' := Next(rules, st, step);
            && id in st'.incidents
            && Updated(st.incidents[id], st'.incidents[id], step, id)
  {
    match step
    case Evaluate(now, keyOrder, orders) => EvaluateKeepsStored(rules, st, now, keyOrder, orders, id);
    case WriteBack(_, alertId, now) => OwnUpdates(st, step.id, alertId, now, id);
    case Patch(_, status, now) => OwnUpdates(st, step.id, status, now, id);
    case _ => OtherStepsKeep(rules, st, step);
  }

  lemma OwnUpdates(st: State, target: nat, text: string, now: int, id: nat)
    requires id in st.incidents
    ensures id in WriteBackStep(st, target, text, now).incidents && id in PatchStep(st, target, text, now).incidents
    ensures Updated(st.incidents[id], WriteBackStep(st, target, text, now).incidents[id],
                    WriteBack(target, text, now), id)
    ensures Updated(st.incidents[id], PatchStep(st, target, text, now).incidents[id], Patch(target, text, now), id)
  {
  }

  lemma EvaluateKeepsStored(rules: seq<Rule>, st: State, now: int, keyOrder: seq<string>, orders: seq<seq<string>>,
                            id: nat)
    requires StoreInv(st) && id in st.incidents
    ensures var st' := EvaluateStep(rules, st, now, keyOrder, orders);
            id in st'.incidents && st'.incidents[id] == st.incidents[id]
  {
    if |orders| == |rules| {
      MatchesKeepStored(Begin(rules, st, now), TickMatches(rules, st.buffers, keyOrder, orders, now), now, id);
    }
  }

  lemma OtherStepsKeep(rules: seq<Rule>, st: State, step: Step)
    requires !step.Evaluate? && !step.WriteBack? && !step.Patch?
    ensures Next(rules, st, step).incidents == st.incidents
  {
  }

  /** Whatever is interleaved, a stored incident ends with the last accepted status, the
      last alert ID and the time of the last of these, and nothing else about it has changed. */
  lemma {:induction false} UpdatesSurvive(rules: seq<Rule>, st: State, steps: seq<Step>, id: nat)
    requires StoreInv(st) && id in st.incidents && ValidRun(rules, st, steps)
    ensures var st' := Run(rules, st, steps);
            && id in st'.incidents
            && st'.incidents[id].status == LastStatus(steps, id, st.incidents[id].status)
            && st'.incidents[id].theHiveId == LastAlert(steps, id, st.incidents[id].theHiveId)
            && st'.incidents[id].updatedAt == LastTouch(steps, id, st.incidents[id].updatedAt)
            && SameIncident(st'.incidents[id], st.incidents[id])
    decreases |steps|
  {
    if |steps| != 0 {
      StepUpdates(rules, st, steps[0], id);
      StoreStep(rules, st, steps[0]);
      UpdatesSurvive(rules, Next(rules, st, steps[0]), steps[1..], id);
    }
  }

  /** Statuses stay in {new, investigating, resolved} and never return to new. */
  lemma StatusNeverReturnsToNew(rules: seq<Rule>, before: seq<Step>, after: seq<Step>, id: nat)
    requires ValidRun(rules, INITIAL, before) && ValidRun(rules, Run(rules, INITIAL, before), after)
    requires id in Run(rules, INITIAL, before).incidents
    ensures var st, st' := Run(rules, INITIAL, before), Run(rules, Run(rules, INITIAL, before), after);
            && id in st'.incidents
            && ValidStatus(st'.incidents[id].status)
            && (st'.incidents[id].status == "new" ==>
                  st.incidents[id].status == "new"
                  && forall i :: 0 <= i < |after| && after[i].Patch? && after[i].id == id ==>
                       !AcceptedStatus(after[i].status))
  {
    StoreRun(rules, INITIAL, before);
    var st := Run(rules, INITIAL, before);
    StoreRun(rules, st, after);
    UpdatesSurvive(rules, st, after, id);
    NewOnlyIfUntouched(after, id, st.incidents[id].status);
  }

  lemma {:induction false} NewOnlyIfUntouched(steps: seq<Step>, id: nat, before: string)
    ensures LastStatus(steps, id, before) == "new" ==>
              before == "new"
              && forall i :: 0 <= i < |steps| && steps[i].Patch? && steps[i].id == id ==>
                   !AcceptedStatus(steps[i].status)
    decreases |steps|
  {
    if |steps| != 0 {
      var s := steps[0];
      var next := if s.Patch? && s.id == id && AcceptedStatus(s.status) then s.status else before;
      NewOnlyIfUntouched(steps[1..], id, next);
      if LastStatus(steps, id, before) == "new" {
        forall i | 0 <= i < |steps| && steps[i].Patch? && steps[i].id == id ensures !AcceptedStatus(steps[i].status) {
          assert i > 0 ==> steps[i] == steps[1..][i - 1];
        }
      }
    }
  }
}
