/** What a step can change for whom, and purging: what is above an observer's level cannot be seen. */
module Noninterference {
  import opened Types
  import opened Actors
  import opened SystemState
  import opened Steps

  // ---- Isolation of one step ----

  /** What a step makes of its own subject's record. */
  function SubjectUpdate(step: Step, p: PluginState): PluginState {
    if step.Host? && step.hc.function_.KernelAlloc? then
      p.(memoryUsed := SaturatingAdd(p.memoryUsed, ArgOrZero(step.hc)))
    else if step.IsDeclassify() && LevelOf(ArgOrZero(step.hc)).Some? then
      p.(level := LevelOf(ArgOrZero(step.hc)).value)
    else p
  }

  function PluginsAfter(plugins: map<PluginId, PluginState>, step: Step): map<PluginId, PluginState> {
    if step.Subject().Some? && step.Subject().value in plugins then
      plugins[step.Subject().value := SubjectUpdate(step, plugins[step.Subject().value])]
    else plugins
  }

  lemma HostTouchesSubjectOnly(s: State, hc: HostCall, auth: Authorized, result: HostResult)
    ensures HostEffect(s, hc).plugins == PluginsAfter(s.plugins, Host(hc, auth, result))
    ensures HostEffect(s, hc).resources == s.resources
    ensures s.TemporalSafety(HostEffect(s, hc))
  {
    var s' := HostEffect(s, hc);
    match hc.function_
    case KernelAlloc =>
    case Declassify =>
    case MemFree => assert s'.plugins == s.plugins && s'.resources == s.resources;
    case CapRevoke => assert s'.plugins == s.plugins && s'.meta == s.meta && s'.resources == s.resources;
    case CapCall => assert s' == s;
    case CapSend => assert s' == s;
    case ThreadOperation => assert s' == s;
  }

  /** No plugin but the subject is touched, no resource record changes, and the freed stays freed. */
  lemma StepTouchesSubjectOnly(s: State, step: Step)
    ensures StepEffect(s, step).plugins == PluginsAfter(s.plugins, step)
    ensures StepEffect(s, step).resources == s.resources
    ensures s.TemporalSafety(StepEffect(s, step))
  {
    match step
    case Host(hc, auth, result) => HostTouchesSubjectOnly(s, hc, auth, result);
    case _ =>
  }

  /** Isolation says that the records of all others are found again, key and value. */
  lemma IsolationExactly(s: State, t: State, active: PluginId)
    ensures s.PreservesIsolation(t, active) <==> (s.plugins - {active}).Items <= t.plugins.Items
  {
    var others := s.plugins - {active};
    if others.Items <= t.plugins.Items {
      forall pid | pid in s.plugins && pid != active
        ensures pid in t.plugins && t.plugins[pid] == s.plugins[pid]
      {
        assert (pid, s.plugins[pid]) in others.Items;
      }
    }
  }

  lemma StepPreservesIsolation(s: State, step: Step, active: PluginId)
    requires step.Subject() == Some(active) || step.Subject() == None
    ensures s.PreservesIsolation(StepEffect(s, step), active)
  {
    StepTouchesSubjectOnly(s, step);
  }

  // ---- Low-equivalence ----

  lemma LowLeftTransitive(l: SecurityLevel, s: State, t: State, u: State)
    requires LowLeft(l, s, t) && LowLeft(l, t, u)
    ensures LowLeft(l, s, u)
  {
  }

  lemma LowEquivalenceRelation(l: SecurityLevel, s: State, t: State, u: State)
    ensures LowEquivalent(l, s, s)
    ensures LowEquivalent(l, s, t) ==> LowEquivalent(l, t, s)
    ensures LowEquivalent(l, s, t) && LowEquivalent(l, t, u) ==> LowEquivalent(l, s, u)
  {
    if LowEquivalent(l, s, t) && LowEquivalent(l, t, u) {
      LowLeftTransitive(l, s, t, u);
      LowLeftTransitive(l, u, t, s);
    }
  }

  /** What an observer at a level sees: the records no higher than it. */
  function PluginView(l: SecurityLevel, s: State): map<PluginId, PluginState> {
    map pid | pid in s.plugins && s.plugins[pid].level.Rank() <= l.Rank() :: s.plugins[pid]
  }

  function ResourceView(l: SecurityLevel, s: State): map<ResourceId, SecurityLevel> {
    map rid | rid in s.resources && s.resources[rid].Rank() <= l.Rank() :: s.resources[rid]
  }

  /** Two states are low-equivalent exactly when they look the same. */
  lemma LowEquivalentExactly(l: SecurityLevel, s: State, t: State)
    ensures LowEquivalent(l, s, t) <==> PluginView(l, s) == PluginView(l, t) && ResourceView(l, s) == ResourceView(l, t)
  {
    if PluginView(l, s) == PluginView(l, t) && ResourceView(l, s) == ResourceView(l, t) {
      ViewsDecide(l, s, t);
      ViewsDecide(l, t, s);
    }
  }

  lemma ViewsDecide(l: SecurityLevel, s: State, t: State)
    requires PluginView(l, s) == PluginView(l, t) && ResourceView(l, s) == ResourceView(l, t)
    ensures LowLeft(l, s, t)
  {
    forall pid | pid in s.plugins && s.plugins[pid].level.Rank() <= l.Rank()
      ensures pid in t.plugins && t.plugins[pid] == s.plugins[pid]
    {
      assert pid in PluginView(l, s) && PluginView(l, t)[pid] == PluginView(l, s)[pid];
    }
    forall rid | rid in s.resources && s.resources[rid].Rank() <= l.Rank()
      ensures rid in t.resources && t.resources[rid] == s.resources[rid]
    {
      assert rid in ResourceView(l, s) && ResourceView(l, t)[rid] == ResourceView(l, s)[rid];
    }
  }

  predicate Above(l: SecurityLevel, s: State, step: Step) {
    step.Level(s).Rank() > l.Rank()
  }

  /** Kernel steps are secret; a plugin's steps are as high as the plugin, and public if it is not registered. */
  lemma AboveExactly(l: SecurityLevel, s: State, step: Step)
    ensures Above(l, s, step) <==>
      match step
      case Kernel(_) => l != Secret
      case PluginStep(pid, _) => pid in s.plugins && s.plugins[pid].level.Rank() > l.Rank()
      case Host(hc, _, _) => hc.caller in s.plugins && s.plugins[hc.caller].level.Rank() > l.Rank()
      case Free(caller, _) => caller in s.plugins && s.plugins[caller].level.Rank() > l.Rank()
      case RevokeCap(caller, _) => caller in s.plugins && s.plugins[caller].level.Rank() > l.Rank()
  {
  }

  /** A declassification that brings a plugin from above l into view. */
  predicate Leaks(l: SecurityLevel, s: State, step: Step) {
    step.IsDeclassify() && Above(l, s, step)
    && LevelOf(ArgOrZero(step.hc)).Some? && LevelOf(ArgOrZero(step.hc)).value.Rank() <= l.Rank()
  }

  /** A step from above l is invisible at l exactly unless it is such a declassification. */
  lemma HighStepInvisibleExactly(l: SecurityLevel, s: State, step: Step)
    requires Above(l, s, step)
    ensures LowEquivalent(l, s, StepEffect(s, step)) <==> !Leaks(l, s, step)
  {
    var s' := StepEffect(s, step);
    StepTouchesSubjectOnly(s, step);
    if step.Subject().Some? {
      var pid := step.Subject().value;
      assert pid in s.plugins && s.plugins[pid].level.Rank() > l.Rank();
      assert s'.plugins == s.plugins[pid := SubjectUpdate(step, s.plugins[pid])];
      assert SubjectUpdate(step, s.plugins[pid]).level.Rank() <= l.Rank() <==> Leaks(l, s, step);
      OneRecordChanged(l, s, s', pid);
    }
  }

  lemma OneRecordChanged(l: SecurityLevel, s: State, s': State, pid: PluginId)
    requires pid in s.plugins && s.plugins[pid].level.Rank() > l.Rank()
    requires pid in s'.plugins && s'.plugins == s.plugins[pid := s'.plugins[pid]]
    requires s'.resources == s.resources
    ensures LowEquivalent(l, s, s') <==> s'.plugins[pid].level.Rank() > l.Rank()
  {
  }

  lemma LowLeftKept(l: SecurityLevel, s: State, t: State, step: Step)
    requires LowEquivalent(l, s, t) && !Leaks(l, s, step)
    ensures LowLeft(l, StepEffect(s, step), StepEffect(t, step))
  {
    StepTouchesSubjectOnly(s, step);
    StepTouchesSubjectOnly(t, step);
    forall pid | pid in PluginsAfter(s.plugins, step) && PluginsAfter(s.plugins, step)[pid].level.Rank() <= l.Rank()
      ensures pid in PluginsAfter(t.plugins, step)
      ensures PluginsAfter(t.plugins, step)[pid] == PluginsAfter(s.plugins, step)[pid]
    {
      assert pid in s.plugins && s.plugins[pid].level.Rank() <= l.Rank();
    }
  }

  /** The same step taken in two low-equivalent states keeps them so. */
  lemma SameStepKeepsEquivalence(l: SecurityLevel, s: State, t: State, step: Step)
    requires LowEquivalent(l, s, t) && !Above(l, s, step)
    requires ExecuteStep(s, step).Ok? && ExecuteStep(t, step).Ok?
    ensures LowEquivalent(l, ExecuteStep(s, step).value, ExecuteStep(t, step).value)
  {
    if step.IsDeclassify() {
      assert step.hc.caller in s.plugins && s.plugins[step.hc.caller].level.Rank() <= l.Rank();
      assert t.plugins[step.hc.caller] == s.plugins[step.hc.caller];
    }
    LowLeftKept(l, s, t, step);
    LowLeftKept(l, t, s, step);
  }

  // ---- Purging ----

  /** The steps that are not above l in the state they are taken in. */
  function Purge(l: SecurityLevel, s: State, steps: seq<Step>): seq<Step>
    decreases |steps|
  {
    if steps == [] then []
    else
      var kept := if Above(l, s, steps[0]) then [] else [steps[0]];
      match ExecuteStep(s, steps[0])
      case Ok(s') => kept + Purge(l, s', steps[1..])
      case Err(_) => kept
  }

  predicate NoLeak(l: SecurityLevel, s: State, steps: seq<Step>)
    decreases |steps|
  {
    steps == [] || (
      !Leaks(l, s, steps[0])
      && (ExecuteStep(s, steps[0]).Ok? ==> NoLeak(l, ExecuteStep(s, steps[0]).value, steps[1..])))
  }

  lemma {:induction false} DeclassifyFreeNeverLeaks(l: SecurityLevel, s: State, steps: seq<Step>)
    requires forall step :: step in steps ==> !step.IsDeclassify()
    ensures NoLeak(l, s, steps)
    decreases |steps|
  {
    if steps != [] && ExecuteStep(s, steps[0]).Ok? {
      DeclassifyFreeNeverLeaks(l, ExecuteStep(s, steps[0]).value, steps[1..]);
    }
  }

  /**
   Noninterference: leave out every step from above l, and if both runs succeed an observer at l
   cannot tell their ends apart.
   */
  lemma {:induction false} PurgingIsInvisible(l: SecurityLevel, s: State, t: State, steps: seq<Step>)
    requires LowEquivalent(l, s, t) && NoLeak(l, s, steps)
    requires ExecuteAll(s, steps).Ok? && ExecuteAll(t, Purge(l, s, steps)).Ok?
    ensures LowEquivalent(l, ExecuteAll(s, steps).value, ExecuteAll(t, Purge(l, s, steps)).value)
    decreases |steps|
  {
    if steps != [] {
      var s1 := ExecuteStep(s, steps[0]).value;
      if Above(l, s, steps[0]) {
        HighStepInvisibleExactly(l, s, steps[0]);
        LowEquivalenceRelation(l, s1, s, t);
        assert Purge(l, s, steps) == Purge(l, s1, steps[1..]);
        PurgingIsInvisible(l, s1, t, steps[1..]);
      } else {
        var kept := Purge(l, s, steps);
        assert kept == [steps[0]] + Purge(l, s1, steps[1..]);
        assert kept[1..] == Purge(l, s1, steps[1..]);
        SameStepKeepsEquivalence(l, s, t, steps[0]);
        PurgingIsInvisible(l, s1, ExecuteStep(t, steps[0]).value, steps[1..]);
      }
    }
  }
}
