/**
 When ControllerReady=True means that the manager runs the policy, exactly when that breaks and
 when it is restored, and how a stopped controller stays down (pkg/controllers/jspolicy.go).
 */
module ControllerLaws {
  import opened Prelude
  import opened Conditions
  import opened Summary
  import opened Gvks
  import opened Reconciler
  import opened ReconcilerLaws

  /**
   `selects(selection, gvks)`: some successful update of the manager turns the selection into
   these kinds.
   */
  type Selecting = (Selection, set<GVK>) -> bool

  /** The manager runs the policy, for kinds that come from the selection the recorded hash covers. */
  predicate RunsAsRecorded(running: Option<set<GVK>>, recorded: Option<Key>, selects: Selecting) {
    running.Some? && recorded.Some? && selects(recorded.value.selection, running.value)
  }

  ghost predicate Honest(env: Env, selects: Selecting) {
    forall s :: env.started(s).Ok? ==> selects(s, env.started(s).value)
  }

  /** What ControllerReady=True promises. */
  predicate ServesWhenReady(w: World, selects: Selecting) {
    w.policy.Some? && IsTrue(w.policy.value.status.conditions, CONTROLLER_READY) ==>
        RunsAsRecorded(w.running, w.recorded, selects)
  }

  /** What the reconciler itself relies on: a recorded hash that did not fail is being run. */
  predicate Consistent(w: World, selects: Selecting) {
    w.policy.Some? ==>
      Trusts(Lookup(w.policy.value.status.conditions, CONTROLLER_READY), w.running, w.recorded, selects)
  }

  predicate Trusts(ready: Option<Condition>, running: Option<set<GVK>>, recorded: Option<Key>, selects: Selecting) {
    || (ready.Some? && ready.value.status.ConditionTrue?)
    || (recorded.Some? && !(ready.Some? && ready.value.status.ConditionFalse?))
    ==> RunsAsRecorded(running, recorded, selects)
  }

  /** The reconciliation will see BundleCompiled=False. */
  predicate BundleIsBad(policy: JsPolicy, bundle: Option<Bundle>, env: Env) {
    if HashBundle(policy.spec.source) == NoDigest then bundle.None?
    else if MustCompile(policy) then env.compiled(policy.spec.source).Err?
    else IsFalse(policy.status.conditions, BUNDLE_COMPILED)
  }

  /** Compiling itself ends the reconciliation with an error. */
  predicate BundleIsRefused(policy: JsPolicy, env: Env) {
    && HashBundle(policy.spec.source) != NoDigest && MustCompile(policy)
    && env.compiled(policy.spec.source).Ok? && !env.bundleStored
  }

  /** The reconciliation gets as far as comparing hashes. */
  predicate SyncsController(policy: JsPolicy, bundle: Option<Bundle>, env: Env) {
    && !BundleIsRefused(policy, env) && !BundleIsBad(policy, bundle, env)
    && policy.spec.ptype.Controller? && bundle.Some?
  }

  // ---------------------------------------------------------------- what a reconciliation does to the controller

  lemma BadBundleIsSeen(policy: JsPolicy, start: Progress, env: Env)
    requires Orderly(start.conditions) && start.conditions == policy.status.conditions && !start.failed
    ensures var p := Compile(policy, start, env);
            && p.failed == BundleIsRefused(policy, env)
            && (!p.failed ==> IsFalse(p.conditions, BUNDLE_COMPILED) == BundleIsBad(policy, start.bundle, env))
  {
    CompileView(policy, start, env);
  }

  /** The controller part of `Deploy`, ControllerReady seen through its state. */
  lemma DeployView(spec: Spec, hadBundle: bool, p: Progress, env: Env)
    requires Orderly(p.conditions)
    ensures var r := Deploy(spec, hadBundle, p, env);
            var was, now := Lookup(p.conditions, CONTROLLER_READY), Lookup(r.conditions, CONTROLLER_READY);
            if p.failed then r == p
            else if IsFalse(p.conditions, BUNDLE_COMPILED) then
              now == was && r.recorded == p.recorded && r.running == if env.webhooksDeleted then None else p.running
            else if spec.ptype.Controller? && hadBundle && p.bundle.Some? then
              IsSynced(spec, ControllerKey(spec, p.bundle.value), p.running, p.recorded, was,
                       r.running, r.recorded, TimelessOption(now), env)
            else now == was && r.recorded == p.recorded && r.running == p.running
  {
    SyncWebhookIsOrderly(p, env);
    MarkIsOrderly(p, TrueCondition(CONTROLLER_READY), env);
    if env.started(spec.selection).Err? {
      MarkIsOrderly(p, StartFailed(env.started(spec.selection).error), env);
    }
  }

  /** Controller, recorded hash and ControllerReady before and after the hashes were compared. */
  predicate IsSynced(spec: Spec, key: Key, running: Option<set<GVK>>, recorded: Option<Key>, ready: Option<Condition>,
          running': Option<set<GVK>>, recorded': Option<Key>, ready': Option<Condition>, env: Env) {
    recorded' == Some(key) &&
    if recorded != Some(key) then
      match env.started(spec.selection)
      case Ok(gvks) => running' == Some(gvks) && ready' == Some(TrueCondition(CONTROLLER_READY))
      case Err(text) => running' == None && ready' == Some(StartFailed(text))
    else
      running' == running &&
      ready' == if ready.Some? && ready.value.status.ConditionFalse? then TimelessOption(ready)
                else Some(TrueCondition(CONTROLLER_READY))
  }

  /** `Compile` leaves the controller alone, and its key. */
  lemma WorkIsDeploy(policy: JsPolicy, w: World, env: Env) returns (p: Progress)
    requires Orderly(policy.status.conditions)
    ensures Work(policy, w, env) == Deploy(policy.spec, w.bundle.Some?, p, env)
    ensures Orderly(p.conditions) && p.running == w.running && p.recorded == w.recorded
    ensures Lookup(p.conditions, CONTROLLER_READY) == Lookup(policy.status.conditions, CONTROLLER_READY)
    ensures p.failed == BundleIsRefused(policy, env)
    ensures !p.failed ==> IsFalse(p.conditions, BUNDLE_COMPILED) == BundleIsBad(policy, w.bundle, env)
    ensures w.bundle.Some? ==>
              p.bundle.Some? && ControllerKey(policy.spec, p.bundle.value) == ControllerKey(policy.spec, w.bundle.value)
  {
    var start := Progress(policy.status.conditions, w.bundle, w.running, w.recorded, false);
    p := Compile(policy, start, env);
    CompileView(policy, start, env);
    CompileIsOrderly(policy, start, env);
    BadBundleIsSeen(policy, start, env);
  }

  /** Before anything is stored: controller, recorded hash and ControllerReady from what there was. */
  lemma WorkView(policy: JsPolicy, w: World, env: Env)
    requires Orderly(policy.status.conditions)
    ensures var p := Work(policy, w, env);
            var was, now := Lookup(policy.status.conditions, CONTROLLER_READY), StateOf(p.conditions, CONTROLLER_READY);
            if SyncsController(policy, w.bundle, env) then
              IsSynced(policy.spec, ControllerKey(policy.spec, w.bundle.value), w.running, w.recorded, was,
                       p.running, p.recorded, now, env)
            else
              && now == TimelessOption(was) && p.recorded == w.recorded
              && p.running == if BundleIsBad(policy, w.bundle, env) && env.webhooksDeleted then None else w.running
  {
    var p := WorkIsDeploy(policy, w, env);
    DeployView(policy.spec, w.bundle.Some?, p, env);
    assert BundleIsBad(policy, w.bundle, env) ==> !BundleIsRefused(policy, env);
  }

  function ReadyState(w: World): Option<Condition>
    requires w.policy.Some?
  {
    StateOf(w.policy.value.status.conditions, CONTROLLER_READY)
  }

  /** The same once something is stored, which for ControllerReady takes the patch to commit. */
  lemma ControllerView(w: World, format: Formatter, env: Env) returns (ready: Option<Condition>)
    requires w.policy.Some? && WellFormed(w)
    ensures var policy, r := w.policy.value, Reconciled(w, format, env);
            && r.policy.Some? && r.policy.value.spec == policy.spec && WellFormed(r)
            && ReadyState(r) == (if env.conditionsCommitted then ready else ReadyState(w))
            && if SyncsController(policy, w.bundle, env) then
                 IsSynced(policy.spec, ControllerKey(policy.spec, w.bundle.value), w.running, w.recorded, ReadyState(w),
                          r.running, r.recorded, ready, env)
               else
                 && ready == ReadyState(w) && r.recorded == w.recorded
                 && r.running == if BundleIsBad(policy, w.bundle, env) && env.webhooksDeleted then None else w.running
  {
    hide Work, Reconciled;
    ReconcileView(w, format, env);
    WorkView(w.policy.value, w, env);
    ready := StateOf(Work(w.policy.value, w, env).conditions, CONTROLLER_READY);
    assert env.conditionsCommitted ==> ReadyState(Reconciled(w, format, env)) == ready;
  }

  // ---------------------------------------------------------------- the promise, one step at a time

  /** A controller fails to start under a hash recorded for it, and the patch that says so is lost. */
  predicate StartIsLost(policy: JsPolicy, bundle: Option<Bundle>, recorded: Option<Key>, env: Env) {
    && !env.conditionsCommitted && SyncsController(policy, bundle, env)
    && recorded != Some(ControllerKey(policy.spec, bundle.value)) && env.started(policy.spec.selection).Err?
  }

  /** The reconciliation leaves nothing running and says nothing about it. */
  predicate StopsSilently(w: World, env: Env)
    requires w.policy.Some?
  {
    || (BundleIsBad(w.policy.value, w.bundle, env) && env.webhooksDeleted)
    || StartIsLost(w.policy.value, w.bundle, w.recorded, env)
  }

  /** What the promise is after a reconciliation, from what there is before it. */
  predicate KeepsPromise(w: World, env: Env, selects: Selecting)
    requires w.policy.Some?
  {
    var policy := w.policy.value;
    var cs := policy.status.conditions;
    if StopsSilently(w, env) then !IsTrue(cs, CONTROLLER_READY)
    else if !SyncsController(policy, w.bundle, env) then ServesWhenReady(w, selects)
    else if w.recorded != Some(ControllerKey(policy.spec, w.bundle.value)) then true
    else if env.conditionsCommitted then !IsFalse(cs, CONTROLLER_READY) ==>
        RunsAsRecorded(w.running, w.recorded, selects)
    else ServesWhenReady(w, selects)
  }

  /**
   In any world, patched or not: exactly when ControllerReady=True means a running policy after a
   reconciliation.
   */
  lemma PromiseAfterReconcile(w: World, format: Formatter, env: Env, selects: Selecting)
    requires w.policy.Some? && WellFormed(w) && Honest(env, selects)
    ensures ServesWhenReady(Reconciled(w, format, env), selects) <==> KeepsPromise(w, env, selects)
  {
    hide Reconciled;
    var _ := ControllerView(w, format, env);
  }

  /** The steps that break the promise in a consistent world. */
  predicate BreaksPromise(w: World, step: Step) {
    && (step.Reconcile? || step.Restart?) && w.policy.Some?
    && IsTrue(w.policy.value.status.conditions, CONTROLLER_READY)
    && (step.Reconcile? ==> StopsSilently(w, step.env))
  }

  /**
   In a consistent world the promise is broken by exactly three steps, each with ControllerReady
   True before and after: a bad bundle, for which the manager forgets the policy; a failed start
   whose patch is lost; and a restart.
   */
  lemma PromiseBreaksExactly(w: World, format: Formatter, step: Step, selects: Selecting)
    requires WellFormed(w) && Consistent(w, selects) && (step.Reconcile? ==> Honest(step.env, selects))
    ensures ServesWhenReady(Do(w, format, step), selects) <==> !BreaksPromise(w, step)
  {
    hide Reconciled;
    if step.Reconcile? && w.policy.Some? {
      PromiseAfterReconcile(w, format, step.env, selects);
    } else if step.Reconcile? {
      NobodyThere(w, format, step.env);
    }
  }

  /**
   The steps that break the reconciler's own trust: unless ControllerReady is False, a bad bundle
   once a controller was recorded, because the recorded hash stays, and a failed start whose patch
   is lost, because the hash was recorded before; re-creating a deleted policy before the deletion
   was noticed when the old one was recorded but not running; and a restart while ControllerReady
   is True.
   */
  predicate Breaks(w: World, step: Step, selects: Selecting) {
    match step
    case Reconcile(env) =>
      && w.policy.Some? && !IsFalse(w.policy.value.status.conditions, CONTROLLER_READY)
      && (|| (w.recorded.Some? && BundleIsBad(w.policy.value, w.bundle, env) && env.webhooksDeleted)
          || StartIsLost(w.policy.value, w.bundle, w.recorded, env))
    case Create(_) => w.policy.None? && w.recorded.Some? && !RunsAsRecorded(w.running, w.recorded, selects)
    case Restart => w.policy.Some? && IsTrue(w.policy.value.status.conditions, CONTROLLER_READY)
    case _ => false
  }

  lemma StepIsConsistentUnlessItBreaks(w: World, format: Formatter, step: Step, selects: Selecting)
    requires WellFormed(w) && Consistent(w, selects) && (step.Reconcile? ==> Honest(step.env, selects))
    ensures Consistent(Do(w, format, step), selects) <==> !Breaks(w, step, selects)
  {
    hide Reconciled;
    if step.Reconcile? && w.policy.Some? {
      var _ := ControllerView(w, format, step.env);
    } else if step.Reconcile? {
      NobodyThere(w, format, step.env);
    }
  }

  /** After a restart, or before anything was recorded: exactly when a reconciliation restores consistency. */
  lemma RepairedExactly(w: World, format: Formatter, env: Env, selects: Selecting)
    requires w.policy.Some? && WellFormed(w) && w.recorded.None? && Honest(env, selects)
    ensures var cs, r := w.policy.value.status.conditions, Reconciled(w, format, env);
            Consistent(r, selects) <==>
            if StartIsLost(w.policy.value, w.bundle, w.recorded, env) then IsFalse(cs, CONTROLLER_READY)
            else SyncsController(w.policy.value, w.bundle, env) || !IsTrue(cs, CONTROLLER_READY)
    ensures var cs, r := w.policy.value.status.conditions, Reconciled(w, format, env);
            ServesWhenReady(r, selects) <==>
            || !IsTrue(cs, CONTROLLER_READY)
            || (SyncsController(w.policy.value, w.bundle, env)
                && !StartIsLost(w.policy.value, w.bundle, w.recorded, env))
  {
    hide Reconciled;
    var _ := ControllerView(w, format, env);
  }

  // ---------------------------------------------------------------- the promise over whole runs

  /** The manager answers honestly, and no step of the run is one that breaks. */
  ghost predicate NeverBreaks(w: World, format: Formatter, steps: seq<Step>, selects: Selecting)
    decreases |steps|
  {
    steps == [] ||
    (&& (steps[0].Reconcile? ==> Honest(steps[0].env, selects))
     && !Breaks(w, steps[0], selects) && NeverBreaks(Do(w, format, steps[0]), format, steps[1..], selects))
  }

  lemma {:induction false} RunStaysConsistent(w: World, format: Formatter, steps: seq<Step>, selects: Selecting)
    requires WellFormed(w) && Consistent(w, selects) && NeverBreaks(w, format, steps, selects)
    ensures Consistent(Run(w, format, steps), selects) && ServesWhenReady(Run(w, format, steps), selects)
    decreases |steps|
  {
    if steps != [] {
      var next := Do(w, format, steps[0]);
      StepKeepsWellFormed(w, format, steps[0]);
      StepIsConsistentUnlessItBreaks(w, format, steps[0], selects);
      RunStaysConsistent(next, format, steps[1..], selects);
    }
  }

  /** In every run without a step that breaks, ControllerReady=True means the policy is being run. */
  lemma ReadyControllersRun(bundle: Option<Bundle>, format: Formatter, steps: seq<Step>, selects: Selecting)
    requires NeverBreaks(Fresh(bundle), format, steps, selects)
    ensures ServesWhenReady(Run(Fresh(bundle), format, steps), selects)
  {
    RunStaysConsistent(Fresh(bundle), format, steps, selects);
  }

  /**
   When a running controller stops: a bad bundle, or a changed one that fails to start. A change
   of type is not among the reasons.
   */
  lemma WhenAControllerStops(w: World, format: Formatter, env: Env)
    requires WellFormed(w) && w.policy.Some? && w.running.Some?
    ensures var policy := w.policy.value;
            Reconciled(w, format, env).running.None? <==>
              || (BundleIsBad(policy, w.bundle, env) && env.webhooksDeleted)
              || (&& SyncsController(policy, w.bundle, env) && env.started(policy.spec.selection).Err?
                  && w.recorded != Some(ControllerKey(policy.spec, w.bundle.value)))
  {
    WorkView(w.policy.value, w, env);
  }
}
