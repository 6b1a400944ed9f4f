/**
 Runs of the reconciler that end with a controller policy ready in name and not running, what
 brings it back, and why nothing weaker than `Consistent` keeps ControllerReady honest
 (pkg/controllers/jspolicy.go).
 */
module ControllerRuns {
  import opened Prelude
  import opened Conditions
  import opened Summary
  import opened Reconciler
  import opened ReconcilerLaws
  import opened ControllerLaws

  /** Compiled, and not to be compiled again. */
  predicate IsDone(policy: JsPolicy) {
    && HashBundle(policy.spec.source) != NoDigest && !MustCompile(policy)
    && !IsFalse(policy.status.conditions, BUNDLE_COMPILED)
  }

  /** A controller policy that was compiled and recorded, with its bundle in place. */
  predicate IsDeployed(w: World) {
    && w.policy.Some? && w.bundle.Some? && IsDone(w.policy.value) && w.policy.value.spec.ptype.Controller?
    && w.recorded == Some(ControllerKey(w.policy.value.spec, w.bundle.value))
  }

  predicate SaysReady(w: World) {
    w.policy.Some? && IsTrue(w.policy.value.status.conditions, CONTROLLER_READY)
  }

  /** A controller policy in good order. */
  predicate RunsWell(w: World) {
    IsDeployed(w) && SaysReady(w) && w.running.Some?
  }

  /** Ready in name, with its hash recorded, and not running. */
  predicate StoppedForGood(w: World) {
    IsDeployed(w) && SaysReady(w) && w.running.None?
  }

  // ---------------------------------------------------------------- one reconciliation that compiles

  /** The source was edited, or is new: the reconciliation compiles and leaves the policy done. */
  lemma CompilingIsDone(w: World, format: Formatter, env: Env)
    requires w.policy.Some? && WellFormed(w) && HashBundle(w.policy.value.spec.source) != NoDigest
             && MustCompile(w.policy.value)
    requires Compiles(env, w.policy.value.spec.source)
    ensures var r := Reconciled(w, format, env);
            && r.policy.Some? && r.policy.value.spec == w.policy.value.spec && WellFormed(r)
            && r.bundle.Some? && IsDone(r.policy.value)
            && !BundleIsBad(w.policy.value, w.bundle, env) && !BundleIsRefused(w.policy.value, env)
  {
    BundleView(w, format, env);
    var _ := ControllerView(w, format, env);
  }

  /** With a bundle in place the reconciliation also compares hashes. */
  lemma DeployingCompares(w: World, format: Formatter, env: Env)
    requires w.policy.Some? && WellFormed(w) && w.bundle.Some? && w.policy.value.spec.ptype.Controller?
    requires HashBundle(w.policy.value.spec.source) != NoDigest
    requires Compiles(env, w.policy.value.spec.source) && (MustCompile(w.policy.value) || IsDone(w.policy.value))
    ensures var policy, r := w.policy.value, Reconciled(w, format, env);
            && r.policy.Some? && r.policy.value.spec == policy.spec && WellFormed(r) && IsDeployed(r)
            && IsSynced(policy.spec, Key(HashBundle(policy.spec.source), policy.spec.selection),
                        w.running, w.recorded, ReadyState(w), r.running, r.recorded, ReadyState(r), env)
  {
    BundleView(w, format, env);
    var _ := ControllerView(w, format, env);
  }

  // ---------------------------------------------------------------- a policy that runs well

  /** A new controller policy that compiles and starts runs well after two reconciliations. */
  lemma NewPolicyRunsWell(bundle: Option<Bundle>, format: Formatter, spec: Spec, first: Env, second: Env)
    requires spec.ptype.Controller? && HashBundle(spec.source) != NoDigest
    requires Compiles(first, spec.source) && Compiles(second, spec.source)
    requires first.started(spec.selection).Ok? && second.started(spec.selection).Ok?
    ensures var w := Run(Fresh(bundle), format, [Create(spec), Reconcile(first), Reconcile(second)]);
            WellFormed(w) && RunsWell(w) && w.policy.value.spec == spec
  {
    hide Reconciled, Run;
    var w2 := NewPolicyCompiles(bundle, format, spec, first);
    DeployingCompares(w2, format, second);
    DoReconciles(w2, format, second);
    assert [Create(spec), Reconcile(first), Reconcile(second)] ==
           [Create(spec), Reconcile(first)] + [Reconcile(second)];
    RunConcat(Fresh(bundle), format, [Create(spec), Reconcile(first)], [Reconcile(second)]);
    RunTwo(Fresh(bundle), format, Create(spec), Reconcile(first));
    RunLast(w2, format, Reconcile(second));
  }

  // ---------------------------------------------------------------- the way down, and no way back

  /** One reconciliation that does not compile stops the controller and keeps the hash. */
  lemma BadBundleStops(w: World, format: Formatter, env: Env)
    requires w.policy.Some? && WellFormed(w) && HashBundle(w.policy.value.spec.source) != NoDigest
             && MustCompile(w.policy.value)
    requires env.compiled(w.policy.value.spec.source).Err? && env.webhooksDeleted && env.conditionsCommitted
    requires env.statusCommitted
    ensures var r := Reconciled(w, format, env);
            && r.policy.Some? && r.policy.value.spec == w.policy.value.spec && WellFormed(r)
            && r.running.None? && r.recorded == w.recorded && r.bundle == w.bundle && ReadyState(r) == ReadyState(w)
            && r.policy.value.status.bundleHash == HashBundle(w.policy.value.spec.source)
  {
    BundleView(w, format, env);
    var _ := ControllerView(w, format, env);
  }

  /**
   Edit the source of a well-running policy into one that does not compile, let the reconciler
   see it, edit it back, and let the reconciler see that.
   */
  lemma RevertedPolicyIsStoppedForGood(w: World, format: Formatter, bad: Spec, sees: Env, seesAgain: Env)
    requires WellFormed(w) && RunsWell(w)
    requires HashBundle(bad.source) != NoDigest && bad.source != w.policy.value.spec.source
    requires sees.compiled(bad.source).Err? && sees.webhooksDeleted && sees.conditionsCommitted && sees.statusCommitted
    requires Compiles(seesAgain, w.policy.value.spec.source)
    ensures var good := w.policy.value.spec;
            StoppedForGood(Run(w, format, [Edit(bad), Reconcile(sees)] + [Edit(good), Reconcile(seesAgain)]))
  {
    hide Reconciled;
    hide Reconciled, Run;
    var good := w.policy.value.spec;
    var w2 := BrokenSpecStops(w, format, bad, sees);
    var w4 := RevertedSpecDeploys(w2, format, good, seesAgain);
    RunFour(w, format, Edit(bad), Reconcile(sees), Edit(good), Reconcile(seesAgain));
  }

  lemma BrokenSpecStops(w: World, format: Formatter, bad: Spec, env: Env) returns (r: World)
    requires w.policy.Some? && WellFormed(w) && HashBundle(bad.source) != NoDigest
    requires HashBundle(bad.source) != w.policy.value.status.bundleHash
    requires env.compiled(bad.source).Err? && env.webhooksDeleted && env.conditionsCommitted && env.statusCommitted
    ensures r == Do(Do(w, format, Edit(bad)), format, Reconcile(env))
    ensures r.policy.Some? && WellFormed(r) && r.running.None? && r.recorded == w.recorded && r.bundle == w.bundle
    ensures ReadyState(r) == ReadyState(w) && r.policy.value.status.bundleHash == HashBundle(bad.source)
  {
    hide Reconciled;
    var edited := Do(w, format, Edit(bad));
    r := Reconciled(edited, format, env);
    BadBundleStops(edited, format, env);
  }

  lemma RevertedSpecDeploys(w: World, format: Formatter, good: Spec, env: Env) returns (r: World)
    requires w.policy.Some? && WellFormed(w) && w.bundle.Some? && w.running.None? && SaysReady(w)
    requires good.ptype.Controller? && HashBundle(good.source) != NoDigest
    requires HashBundle(good.source) != w.policy.value.status.bundleHash
    requires w.recorded == Some(Key(HashBundle(good.source), good.selection)) && Compiles(env, good.source)
    ensures r == Do(Do(w, format, Edit(good)), format, Reconcile(env)) && StoppedForGood(r)
  {
    hide Reconciled;
    var edited := Do(w, format, Edit(good));
    r := Reconciled(edited, format, env);
    DeployingCompares(edited, format, env);
  }

  /**
   Delete a policy that was recorded but failed to start, and create it again before the deletion
   was noticed: the new one is ready in name, with its predecessor's hash.
   */
  lemma RecreatedPolicyIsStoppedForGood(bundle: Option<Bundle>, format: Formatter, spec: Spec, first: Env,
          second: Env, third: Env)
    requires spec.ptype.Controller? && HashBundle(spec.source) != NoDigest
    requires Compiles(first, spec.source) && Compiles(second, spec.source) && Compiles(third, spec.source)
    requires first.started(spec.selection).Err? && second.started(spec.selection).Err?
    ensures StoppedForGood(Run(Fresh(bundle), format,
              [Create(spec), Reconcile(first)] +
              ([Reconcile(second), Delete(false)] + [Create(spec), Reconcile(third)])))
  {
    hide Reconciled, Run;
    var start := Fresh(bundle);
    var w2 := NewPolicyCompiles(bundle, format, spec, first);
    var w4 := FailedPolicyIsDeleted(w2, format, spec, second);
    var w6 := RecreatedDeploys(w4, format, spec, third);
    RunConcat(start, format, [Create(spec), Reconcile(first)],
              [Reconcile(second), Delete(false)] + [Create(spec), Reconcile(third)]);
    RunTwo(start, format, Create(spec), Reconcile(first));
    RunFour(w2, format, Reconcile(second), Delete(false), Create(spec), Reconcile(third));
  }

  /** A new controller policy compiles; it is recorded already when there was a bundle. */
  lemma NewPolicyCompiles(bundle: Option<Bundle>, format: Formatter, spec: Spec, env: Env) returns (r: World)
    requires spec.ptype.Controller? && HashBundle(spec.source) != NoDigest && Compiles(env, spec.source)
    ensures r == Do(Do(Fresh(bundle), format, Create(spec)), format, Reconcile(env))
    ensures r.policy.Some? && r.policy.value.spec == spec && WellFormed(r) && r.bundle.Some? && IsDone(r.policy.value)
    ensures var key := Key(HashBundle(spec.source), spec.selection);
            if bundle.Some? then IsSynced(spec, key, None, None, None, r.running, r.recorded, ReadyState(r), env)
            else r.running.None? && r.recorded.None? && ReadyState(r) == None
  {
    hide Reconciled;
    var created := Do(Fresh(bundle), format, Create(spec));
    r := Reconciled(created, format, env);
    CompilingIsDone(created, format, env);
    var _ := ControllerView(created, format, env);
  }

  lemma FailedPolicyIsDeleted(w: World, format: Formatter, spec: Spec, env: Env) returns (r: World)
    requires w.policy.Some? && w.policy.value.spec == spec && WellFormed(w) && w.bundle.Some? && IsDone(w.policy.value)
    requires spec.ptype.Controller? && w.running.None? && Compiles(env, spec.source) && env.started(spec.selection).Err?
    ensures r == Do(Do(w, format, Reconcile(env)), format, Delete(false))
    ensures r.policy.None? && r.bundle.Some? && r.running.None?
    ensures r.recorded == Some(Key(HashBundle(spec.source), spec.selection))
  {
    hide Reconciled;
    var failed := Reconciled(w, format, env);
    DeployingCompares(w, format, env);
    r := Do(failed, format, Delete(false));
  }

  lemma RecreatedDeploys(w: World, format: Formatter, spec: Spec, env: Env) returns (r: World)
    requires w.policy.None? && w.bundle.Some? && w.running.None? && spec.ptype.Controller?
             && HashBundle(spec.source) != NoDigest
    requires w.recorded == Some(Key(HashBundle(spec.source), spec.selection)) && Compiles(env, spec.source)
    ensures r == Do(Do(w, format, Create(spec)), format, Reconcile(env)) && StoppedForGood(r)
  {
    hide Reconciled;
    var created := Do(w, format, Create(spec));
    r := Reconciled(created, format, env);
    DeployingCompares(created, format, env);
  }

  /**
   Lose the patch of a first start that fails: the hash stays recorded, nothing says that the start
   failed, and the next reconciliation declares the controller ready.
   */
  lemma LostStartIsStoppedForGood(format: Formatter, spec: Spec, first: Env, lost: Env, next: Env)
    requires spec.ptype.Controller? && HashBundle(spec.source) != NoDigest
    requires Compiles(first, spec.source) && Compiles(next, spec.source)
    requires lost.started(spec.selection).Err? && !lost.conditionsCommitted
    ensures StoppedForGood(Run(Fresh(None), format,
            [Create(spec), Reconcile(first)] + [Reconcile(lost), Reconcile(next)]))
  {
    hide Reconciled, Run;
    var w2 := NewPolicyCompiles(None, format, spec, first);
    var w4 := LostStartDeploys(w2, format, spec, lost, next);
    RunFour(Fresh(None), format, Create(spec), Reconcile(first), Reconcile(lost), Reconcile(next));
  }

  lemma LostStartDeploys(w: World, format: Formatter, spec: Spec, lost: Env, next: Env) returns (r: World)
    requires w.policy.Some? && w.policy.value.spec == spec && WellFormed(w) && w.bundle.Some? && IsDone(w.policy.value)
    requires spec.ptype.Controller? && w.recorded.None? && ReadyState(w) == None
    requires lost.started(spec.selection).Err? && !lost.conditionsCommitted && Compiles(next, spec.source)
    ensures r == Do(Do(w, format, Reconcile(lost)), format, Reconcile(next)) && StoppedForGood(r)
  {
    hide Reconciled;
    var w1 := Reconciled(w, format, lost);
    LostStartRecords(w, format, lost);
    r := Reconciled(w1, format, next);
    DeployingCompares(w1, format, next);
  }

  /** A failed start whose patch is lost leaves the hash and nothing else. */
  lemma LostStartRecords(w: World, format: Formatter, env: Env)
    requires w.policy.Some? && WellFormed(w) && w.bundle.Some? && IsDone(w.policy.value)
    requires w.policy.value.spec.ptype.Controller? && w.recorded.None?
    requires env.started(w.policy.value.spec.selection).Err? && !env.conditionsCommitted
    ensures var spec, r := w.policy.value.spec, Reconciled(w, format, env);
            && r.policy.Some? && r.policy.value.spec == spec && WellFormed(r)
            && r.bundle == w.bundle && IsDone(r.policy.value) && r.running.None? && ReadyState(r) == ReadyState(w)
            && r.recorded == Some(Key(HashBundle(spec.source), spec.selection))
  {
    hide Reconciled;
    DoneStays(w, format, env);
    var _ := ControllerView(w, format, env);
  }

  /** What was compiled stays so, committed or not. */
  lemma DoneStays(w: World, format: Formatter, env: Env)
    requires w.policy.Some? && WellFormed(w) && IsDone(w.policy.value)
    ensures var r := Reconciled(w, format, env);
            && r.policy.Some? && r.policy.value.spec == w.policy.value.spec && WellFormed(r)
            && r.bundle == w.bundle && IsDone(r.policy.value)
  {
    hide Reconciled, Work;
    ReconcileView(w, format, env);
    WorkKeepsCompiled(w.policy.value, w, env);
    var r := Reconciled(w, format, env);
    assert env.conditionsCommitted ==>
             StateOf(r.policy.value.status.conditions, BUNDLE_COMPILED)
                 == StateOf(w.policy.value.status.conditions, BUNDLE_COMPILED);
  }

  /** With the key recorded and ControllerReady=True there is nothing to do about the controller. */
  lemma StoppedStays(w: World, format: Formatter, env: Env)
    requires WellFormed(w) && StoppedForGood(w)
    ensures var r := Reconciled(w, format, env);
            r.policy.Some? && r.running.None? && r.recorded == w.recorded && SaysReady(r)
  {
    hide Reconciled, Work;
    ReconcileView(w, format, env);
    WorkView(w.policy.value, w, env);
    var p, r := Work(w.policy.value, w, env), Reconciled(w, format, env);
    assert SyncsController(w.policy.value, w.bundle, env);
    assert env.conditionsCommitted ==> ReadyState(r) == StateOf(p.conditions, CONTROLLER_READY);
  }

  lemma ReconcileStaysStopped(w: World, format: Formatter, env: Env)
    requires WellFormed(w) && StoppedForGood(w)
    ensures WellFormed(Reconciled(w, format, env)) && StoppedForGood(Reconciled(w, format, env))
  {
    hide Reconciled;
    DoneStays(w, format, env);
    StoppedStays(w, format, env);
  }

  /**
   While the spec stays and the process lives, no number of reconciliations starts the controller
   again, whatever the outside answers.
   */
  lemma {:induction false} StoppedControllersStayDown(w: World, format: Formatter, envs: seq<Env>)
    requires WellFormed(w) && StoppedForGood(w)
    ensures StoppedForGood(ReconcileAll(w, format, envs))
    decreases |envs|
  {
    if envs != [] {
      var next := Reconciled(w, format, envs[0]);
      ReconcileStaysStopped(w, format, envs[0]);
      StoppedControllersStayDown(next, format, envs[1..]);
    }
  }

  lemma RestartedDeploys(w: World, format: Formatter, env: Env) returns (r: World)
    requires WellFormed(w) && StoppedForGood(w)
    requires Compiles(env, w.policy.value.spec.source) && env.started(w.policy.value.spec.selection).Ok?
    ensures r == Do(Do(w, format, Restart), format, Reconcile(env)) && RunsWell(r)
  {
    hide Reconciled;
    var restarted := Do(w, format, Restart);
    r := Reconciled(restarted, format, env);
    DeployingCompares(restarted, format, env);
  }

  /** A restart brings it back: the next reconciliation that can start it does. */
  lemma RestartRevives(w: World, format: Formatter, env: Env)
    requires WellFormed(w) && StoppedForGood(w)
    requires Compiles(env, w.policy.value.spec.source) && env.started(w.policy.value.spec.selection).Ok?
    ensures RunsWell(Run(w, format, [Restart, Reconcile(env)]))
  {
    hide Reconciled, Run, Do;
    var r := RestartedDeploys(w, format, env);
    RunTwo(w, format, Restart, Reconcile(env));
  }

  // ---------------------------------------------------------------- nothing weaker will do

  /** A recorded hash is the hash of something. */
  predicate IsKey(recorded: Option<Key>) {
    recorded.Some? ==>
      var hash := recorded.value.bundleHash;
      hash != NoDigest && (hash.OfSource? ==> hash.source.javascript != "")
  }

  lemma {:induction false} RunKeepsKey(w: World, format: Formatter, steps: seq<Step>)
    requires WellFormed(w) && IsKey(w.recorded)
    ensures IsKey(Run(w, format, steps).recorded)
    decreases |steps|
  {
    if steps != [] {
      var next := Do(w, format, steps[0]);
      StepKeepsWellFormed(w, format, steps[0]);
      if steps[0].Reconcile? && w.policy.Some? {
        WorkView(w.policy.value, w, steps[0].env);
      }
      RunKeepsKey(next, format, steps[1..]);
    }
  }

  /** Compiles anything and starts nothing; every manager is honest about that. */
  function Compiler(): Env {
    Env(_ => Ok(""), true, true, WebhookSynced, _ => Err(""), _ => ZERO_TIME, _ => ZERO_TIME, true, true)
  }

  /** A source other than these two. */
  function OtherSource(s: Source, hash: Digest): (r: Source)
    ensures r != s && OfSource(r) != hash && r.javascript != ""
  {
    var one, two := Source(s.javascript + "x", s.dependencies), Source(s.javascript + "xx", s.dependencies);
    assert |one.javascript| == |s.javascript| + 1 && |two.javascript| == |s.javascript| + 2;
    if OfSource(one) == hash then two else one
  }

  predicate Distrusted(w: World, selects: Selecting) {
    && w.policy.Some? && w.recorded.Some? && !IsFalse(w.policy.value.status.conditions, CONTROLLER_READY)
    && !RunsAsRecorded(w.running, w.recorded, selects)
  }

  /** A recorded hash that is neither failed nor run breaks the promise as soon as its spec is reconciled. */
  lemma RecordedSpecBreaksThePromise(w: World, format: Formatter, env: Env, selects: Selecting)
    requires WellFormed(w) && Distrusted(w, selects) && Honest(env, selects) && env.conditionsCommitted
    requires SyncsController(w.policy.value, w.bundle, env)
    requires w.recorded == Some(ControllerKey(w.policy.value.spec, w.bundle.value))
    ensures !ServesWhenReady(Reconciled(w, format, env), selects) && !Breaks(w, Reconcile(env), selects)
  {
    var _ := ControllerView(w, format, env);
  }

  /** The last two steps: put the recorded spec back and reconcile it. */
  lemma PuttingBackBreaks(w: World, format: Formatter, spec: Spec, selects: Selecting)
    requires WellFormed(w) && Distrusted(w, selects) && w.bundle.Some? && spec.ptype.Controller?
    requires HashBundle(spec.source) != w.policy.value.status.bundleHash || HashBundle(spec.source) == NoDigest
    requires w.recorded == Some(ControllerKey(spec, w.bundle.value))
    ensures var steps := [Edit(spec), Reconcile(Compiler())];
            NeverBreaks(w, format, steps, selects) && !ServesWhenReady(Run(w, format, steps), selects)
  {
    var e := Compiler();
    var w1 := Do(w, format, Edit(spec));
    RecordedSpecBreaksThePromise(w1, format, e, selects);
    TwoStepsNeverBreak(w, format, Edit(spec), Reconcile(e), selects);
    RunTwo(w, format, Edit(spec), Reconcile(e));
  }

  lemma TwoStepsNeverBreak(w: World, format: Formatter, a: Step, b: Step, selects: Selecting)
    requires (a.Reconcile? ==> Honest(a.env, selects)) && (b.Reconcile? ==> Honest(b.env, selects))
    requires !Breaks(w, a, selects) && !Breaks(Do(w, format, a), b, selects)
    ensures NeverBreaks(w, format, [a, b], selects)
  {
    assert [a, b][1..] == [b] && [b][1..] == [];
    assert NeverBreaks(Do(Do(w, format, a), format, b), format, [], selects);
    assert NeverBreaks(Do(w, format, a), format, [b], selects);
  }

  lemma {:induction false} NeverBreaksConcat(w: World, format: Formatter, a: seq<Step>, b: seq<Step>,
          selects: Selecting)
    requires NeverBreaks(w, format, a, selects) && NeverBreaks(Run(w, format, a), format, b, selects)
    ensures NeverBreaks(w, format, a + b, selects)
    decreases |a|
  {
    if a == [] {
      assert a + b == b;
    } else {
      assert (a + b)[0] == a[0] && (a + b)[1..] == a[1..] + b;
      NeverBreaksConcat(Do(w, format, a[0]), format, a[1..], b, selects);
    }
  }

  /**
   Run some other source as a webhook policy for a while: the controller is left alone, and the
   bundle is there.
   */
  lemma Detour(w: World, format: Formatter, spec: Spec, selects: Selecting)
    requires WellFormed(w) && Distrusted(w, selects) && spec.ptype.Validating?
    requires HashBundle(spec.source) != NoDigest && HashBundle(spec.source) != w.policy.value.status.bundleHash
    ensures var steps := [Edit(spec), Reconcile(Compiler())];
            var r := Run(w, format, steps);
            && NeverBreaks(w, format, steps, selects) && WellFormed(r) && Distrusted(r, selects) && r.bundle.Some?
            && r.recorded == w.recorded && r.policy.value.status.bundleHash == HashBundle(spec.source)
  {
    hide Reconciled;
    var e := Compiler();
    var w1 := Do(w, format, Edit(spec));
    CompilingIsDone(w1, format, e);
    BundleView(w1, format, e);
    var _ := ControllerView(w1, format, e);
    TwoStepsNeverBreak(w, format, Edit(spec), Reconcile(e), selects);
    RunTwo(w, format, Edit(spec), Reconcile(e));
  }

  /** From a world that cannot be trusted some harmless run breaks the promise. */
  lemma DistrustIsFound(w: World, format: Formatter, selects: Selecting) returns (steps: seq<Step>)
    requires WellFormed(w) && IsKey(w.recorded) && !Consistent(w, selects)
    ensures NeverBreaks(w, format, steps, selects) && !ServesWhenReady(Run(w, format, steps), selects)
  {
    if !ServesWhenReady(w, selects) {
      return [];
    }
    var key := w.recorded.value;
    match key.bundleHash
    case OfBundle(bytes) =>
      var spec := Spec(Source("", map[]), Controller, key.selection);
      var stored := Do(w, format, WriteBundle(bytes));
      PuttingBackBreaks(stored, format, spec, selects);
      steps := [WriteBundle(bytes)] + [Edit(spec), Reconcile(Compiler())];
      RunOne(w, format, WriteBundle(bytes), [Edit(spec), Reconcile(Compiler())]);
      assert steps[1..] == [Edit(spec), Reconcile(Compiler())];
    case OfSource(s) =>
      var other := Spec(OtherSource(s, w.policy.value.status.bundleHash), Validating, key.selection);
      var spec := Spec(s, Controller, key.selection);
      var first, second := [Edit(other), Reconcile(Compiler())], [Edit(spec), Reconcile(Compiler())];
      Detour(w, format, other, selects);
      PuttingBackBreaks(Run(w, format, first), format, spec, selects);
      NeverBreaksConcat(w, format, first, second, selects);
      RunConcat(w, format, first, second);
      steps := first + second;
  }

  /**
   `Consistent` is exactly what keeps ControllerReady honest: it holds if and only if no run
   without a breaking step ever makes ControllerReady=True a lie.
   */
  lemma ConsistentExactlyWhenThePromiseIsSafe(w: World, format: Formatter, selects: Selecting)
    requires WellFormed(w) && IsKey(w.recorded)
    ensures Consistent(w, selects) <==>
            forall steps :: NeverBreaks(w, format, steps, selects) ==> ServesWhenReady(Run(w, format, steps), selects)
  {
    if Consistent(w, selects) {
      forall steps | NeverBreaks(w, format, steps, selects) ensures ServesWhenReady(Run(w, format, steps), selects) {
        RunStaysConsistent(w, format, steps, selects);
      }
    } else {
      var steps := DistrustIsFound(w, format, selects);
      assert NeverBreaks(w, format, steps, selects) && !ServesWhenReady(Run(w, format, steps), selects);
    }
  }
}
