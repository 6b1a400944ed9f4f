/**
 What a JsPolicy's status promises, over whole runs of the reconciler under arbitrary edits and
 failures (pkg/controllers/jspolicy.go).
 */
module ReconcilerLaws {
  import opened Prelude
  import opened Conditions
  import opened ConditionPatch
  import opened PatchLaws
  import opened Summary
  import opened Reconciler

  datatype Step =
    | Create(spec: Spec)
    | Edit(spec: Spec)
    /** The owner reference may take the bundle along. */
    | Delete(dropsBundle: bool)
    | WriteBundle(bytes: string)
    | DropBundle
    /** The process ends and starts anew: what it kept in memory is gone. */
    | Restart
    | Reconcile(env: Env)

  const NEW_STATUS := PolicyStatus([], NoDigest, NoPhase, "", "")

  /** A step that is not possible leaves the world alone. */
  function Do(w: World, format: Formatter, step: Step): World {
    match step
    case Create(spec) => if w.policy.None? then w.(policy := Some(JsPolicy(spec, NEW_STATUS))) else w
    case Edit(spec) => if w.policy.Some? then w.(policy := Some(w.policy.value.(spec := spec))) else w
    case Delete(dropsBundle) => w.(policy := None, bundle := if dropsBundle then None else w.bundle)
    case WriteBundle(bytes) => w.(bundle := Some(Bundle(bytes)))
    case DropBundle => w.(bundle := None)
    case Restart => w.(running := None, recorded := None)
    case Reconcile(env) => Reconciled(w, format, env)
  }

  function Run(w: World, format: Formatter, steps: seq<Step>): World
    decreases |steps|
  {
    if steps == [] then w else Run(Do(w, format, steps[0]), format, steps[1..])
  }

  lemma RunOne(w: World, format: Formatter, a: Step, rest: seq<Step>)
    ensures Run(w, format, [a] + rest) == Run(Do(w, format, a), format, rest)
  {
    assert ([a] + rest)[1..] == rest;
  }

  lemma {:induction false} RunConcat(w: World, format: Formatter, a: seq<Step>, b: seq<Step>)
    ensures Run(w, format, a + b) == Run(Run(w, format, a), format, b)
    decreases |a|
  {
    if a == [] {
      assert a + b == b;
    } else {
      var next := Do(w, format, a[0]);
      assert a + b == [a[0]] + (a[1..] + b) && a == [a[0]] + a[1..];
      RunOne(w, format, a[0], a[1..] + b);
      RunOne(w, format, a[0], a[1..]);
      RunConcat(next, format, a[1..], b);
    }
  }

  lemma RunTwo(w: World, format: Formatter, a: Step, b: Step)
    ensures Run(w, format, [a, b]) == Do(Do(w, format, a), format, b)
  {
    assert [a, b] == [a] + [b] && [b] == [b] + [];
    RunOne(w, format, a, [b]);
    RunOne(Do(w, format, a), format, b, []);
  }

  lemma RunLast(w: World, format: Formatter, a: Step)
    ensures Run(w, format, [a]) == Do(w, format, a)
  {
    assert [a] == [a] + [];
    RunOne(w, format, a, []);
  }

  lemma RunFour(w: World, format: Formatter, a: Step, b: Step, c: Step, d: Step)
    ensures Run(w, format, [a, b] + [c, d]) == Do(Do(Do(Do(w, format, a), format, b), format, c), format, d)
  {
    RunConcat(w, format, [a, b], [c, d]);
    RunTwo(w, format, a, b);
    RunTwo(Do(Do(w, format, a), format, b), format, c, d);
  }

  lemma DoReconciles(w: World, format: Formatter, env: Env)
    ensures Do(w, format, Reconcile(env)) == Reconciled(w, format, env)
  {
    hide Reconciled;
  }

  /** The API server takes the bundle and the status, and the source compiles. */
  predicate Compiles(env: Env, source: Source) {
    env.conditionsCommitted && env.statusCommitted && env.bundleStored && env.compiled(source).Ok?
  }

  /** Nothing known under the name yet, but for a bundle somebody may have stored. */
  function Fresh(bundle: Option<Bundle>): World {
    World(None, bundle, None, None)
  }

  /** `bundles(source, bytes)`: some successful run of the bundler on the source gives the bytes. */
  type Bundling = (Source, string) -> bool

  /** The bundler is what it is. */
  ghost predicate BundlesHonestly(step: Step, bundles: Bundling) {
    step.Reconcile? ==> forall s :: step.env.compiled(s).Ok? ==> bundles(s, step.env.compiled(s).value)
  }

  /** Every status patch commits, only the reconciler writes bundles, and the bundler is what it is. */
  ghost predicate Undisturbed(step: Step, bundles: Bundling) {
    !step.WriteBundle? && !step.DropBundle? && Commits(step) && BundlesHonestly(step, bundles)
  }

  predicate Commits(step: Step) {
    step.Reconcile? ==> step.env.conditionsCommitted && step.env.statusCommitted
  }

  ghost predicate WellFormed(w: World) {
    w.policy.Some? ==> Orderly(w.policy.value.status.conditions)
  }

  function StateOf(cs: seq<Condition>, t: string): Option<Condition> {
    TimelessOption(Lookup(cs, t))
  }

  // ---------------------------------------------------------------- what a reconciliation commits

  lemma SummaryIsOrderly(cs: seq<Condition>, format: Formatter, now: Time)
    requires Orderly(cs)
    ensures var s := SetSummaryOf(cs, Some(SUMMARISED), format, now);
            Orderly(s) && forall t :: t != READY ==> Lookup(s, t) == Lookup(cs, t)
  {
    var ready := SummaryOf(cs, Some(SUMMARISED), format);
    if ready.Some? {
      SetReadyIsOrderly(cs, ready.value, now);
    }
  }

  lemma SetReadyIsOrderly(cs: seq<Condition>, ready: Condition, now: Time)
    requires Orderly(cs) && ready.ctype == READY
    ensures var s := SetCondition(cs, ready, now);
            Orderly(s) && forall t :: t != READY ==> Lookup(s, t) == Lookup(cs, t)
  {
    SetTouchesOneType(cs, ready, now);
    assert READY !in SUMMARISED;
  }

  /** What a patch stores of the conditions wanted. */
  lemma CommitView(was: seq<Condition>, wanted: seq<Condition>, env: Env)
    requires Orderly(was) && Orderly(wanted)
    ensures var cs := CommitConditions(was, wanted, env);
            && Orderly(cs)
            && if env.conditionsCommitted
               then Timeless(cs) == Timeless(wanted) && forall t :: StateOf(cs, t) == StateOf(wanted, t)
               else cs == was
  {
    RoundTrip(was, wanted, OWNED, env.patchClock);
    RoundTripOfSortedLists(was, wanted, OWNED, env.patchClock);
    var cs := CommitConditions(was, wanted, env);
    forall t | env.conditionsCommitted ensures StateOf(cs, t) == StateOf(wanted, t) {
    }
    forall t | t in SUMMARISED && Lookup(cs, t).Some? ensures Proper(Lookup(cs, t).value) {
      assert env.conditionsCommitted ==> StateOf(cs, t) == StateOf(wanted, t);
    }
  }

  /** The conditions a reconciliation summarises are always proper in these runs. */
  lemma OrderlySummarisesProper(w: World, env: Env)
    requires WellFormed(w)
    ensures SummarisesProper(w, env)
  {
    hide Work;
    if w.policy.Some? {
      WorkIsOrderly(w.policy.value, w, env);
      OrderlyConforms(Work(w.policy.value, w, env).conditions);
    }
  }

  /** Type by type, what is stored after a reconciliation. */
  lemma ReconcileView(w: World, format: Formatter, env: Env)
    requires w.policy.Some? && WellFormed(w)
    ensures var was, p, r := w.policy.value, Work(w.policy.value, w, env), Reconciled(w, format, env);
            && r.policy.Some? && r.policy.value.spec == was.spec && WellFormed(r)
            && r.bundle == p.bundle && r.running == p.running && r.recorded == p.recorded
            && r.policy.value.status.bundleHash ==
               (if env.statusCommitted then HashBundle(was.spec.source) else was.status.bundleHash)
            && var cs := r.policy.value.status.conditions;
               if env.conditionsCommitted then
                 && (forall t :: t != READY ==> StateOf(cs, t) == StateOf(p.conditions, t))
                 && Timeless(cs) == Timeless(SetSummaryOf(p.conditions, Some(SUMMARISED), format, env.clock(READY)))
               else cs == was.status.conditions
  {
    hide Work, CommitConditions, SetSummaryOf;
    var was := w.policy.value;
    var p := Work(was, w, env);
    WorkIsOrderly(was, w, env);
    SummaryIsOrderly(p.conditions, format, env.clock(READY));
    CommitView(was.status.conditions, SetSummaryOf(p.conditions, Some(SUMMARISED), format, env.clock(READY)), env);
  }

  lemma StepKeepsWellFormed(w: World, format: Formatter, step: Step)
    requires WellFormed(w)
    ensures WellFormed(Do(w, format, step))
  {
    if step.Reconcile? && w.policy.Some? {
      ReconcileView(w, format, step.env);
    }
  }

  lemma {:induction false} RunKeepsWellFormed(w: World, format: Formatter, steps: seq<Step>)
    requires WellFormed(w)
    ensures WellFormed(Run(w, format, steps))
    decreases |steps|
  {
    if steps != [] {
      StepKeepsWellFormed(w, format, steps[0]);
      RunKeepsWellFormed(Do(w, format, steps[0]), format, steps[1..]);
    }
  }

  // ---------------------------------------------------------------- the stored bundle

  /**
   BundleCompiled=True with a hash: the stored bundle is a successful bundling of the source with
   that hash.
   */
  predicate CompiledMatches(w: World, bundles: Bundling) {
    Vouches(w) && IsTrue(w.policy.value.status.conditions, BUNDLE_COMPILED) ==>
      IsBundleOf(w.bundle, w.policy.value.status.bundleHash, bundles)
  }

  /** There is a hash to vouch with. */
  predicate Vouches(w: World) {
    w.policy.Some? && w.policy.value.status.bundleHash != NoDigest
  }

  predicate IsBundleOf(bundle: Option<Bundle>, hash: Digest, bundles: Bundling) {
    bundle.Some? && hash.OfSource? && bundles(hash.source, bundle.value.bytes)
  }

  /** Only `Compile` decides about the bundle and BundleCompiled. */
  lemma WorkKeepsCompiled(policy: JsPolicy, w: World, env: Env)
    requires Orderly(policy.status.conditions)
    ensures var start := Progress(policy.status.conditions, w.bundle, w.running, w.recorded, false);
            && Work(policy, w, env).bundle == Compile(policy, start, env).bundle
            && Lookup(Work(policy, w, env).conditions, BUNDLE_COMPILED) ==
               Lookup(Compile(policy, start, env).conditions, BUNDLE_COMPILED)
  {
    var start := Progress(policy.status.conditions, w.bundle, w.running, w.recorded, false);
    CompileIsOrderly(policy, start, env);
    DeployKeepsCompiled(policy.spec, w.bundle.Some?, Compile(policy, start, env), env);
  }

  lemma DeployKeepsCompiled(spec: Spec, hadBundle: bool, p: Progress, env: Env)
    requires Orderly(p.conditions)
    ensures var r := Deploy(spec, hadBundle, p, env);
            r.bundle == p.bundle && Lookup(r.conditions, BUNDLE_COMPILED) == Lookup(p.conditions, BUNDLE_COMPILED)
  {
    SyncWebhookIsOrderly(p, env);
    if p.bundle.Some? {
      SyncControllerIsOrderly(spec, p.bundle.value, p, env);
    }
  }

  /** What `Compile` leaves in BundleCompiled. */
  lemma CompileView(policy: JsPolicy, start: Progress, env: Env)
    requires Orderly(start.conditions) && start.conditions == policy.status.conditions
    ensures var p := Compile(policy, start, env);
            && p.running == start.running && p.recorded == start.recorded
            && (forall t :: t != BUNDLE_COMPILED ==> Lookup(p.conditions, t) == Lookup(start.conditions, t))
            && StateOf(p.conditions, BUNDLE_COMPILED) ==
               (if HashBundle(policy.spec.source) == NoDigest
                   then Some(if start.bundle.None? then BundleMissing() else TrueCondition(BUNDLE_COMPILED))
                else if !MustCompile(policy) then StateOf(start.conditions, BUNDLE_COMPILED)
                else if env.compiled(policy.spec.source).Err?
                    then Some(CompileFailed(env.compiled(policy.spec.source).error))
                else if env.bundleStored then Some(TrueCondition(BUNDLE_COMPILED))
                else None)
  {
    CompileIsOrderly(policy, start, env);
    if HashBundle(policy.spec.source) == NoDigest {
      MarkIsOrderly(start, if start.bundle.None? then BundleMissing() else TrueCondition(BUNDLE_COMPILED), env);
    } else if MustCompile(policy) {
      match env.compiled(policy.spec.source)
      case Err(text) => MarkIsOrderly(start, CompileFailed(text), env);
      case Ok(bytes) =>
        DeleteTouchesOneType(start.conditions, BUNDLE_COMPILED);
        MarkIsOrderly(start.(bundle := Some(Bundle(bytes))), TrueCondition(BUNDLE_COMPILED), env);
    }
  }

  /** Types that the reconciler does not write but in the summary. */
  lemma WorkOthers(policy: JsPolicy, w: World, env: Env, t: string)
    requires Orderly(policy.status.conditions) && t !in SUMMARISED
    ensures Lookup(Work(policy, w, env).conditions, t) == Lookup(policy.status.conditions, t)
  {
    hide Compile;
    var start := Progress(policy.status.conditions, w.bundle, w.running, w.recorded, false);
    assert BUNDLE_COMPILED in SUMMARISED && CONTROLLER_READY in SUMMARISED && WEBHOOK_READY in SUMMARISED;
    CompileIsOrderly(policy, start, env);
    DeployOthers(policy.spec, w.bundle.Some?, Compile(policy, start, env), env, t);
  }

  lemma DeployOthers(spec: Spec, hadBundle: bool, p: Progress, env: Env, t: string)
    requires Orderly(p.conditions) && t != CONTROLLER_READY && t != WEBHOOK_READY
    ensures Lookup(Deploy(spec, hadBundle, p, env).conditions, t) == Lookup(p.conditions, t)
  {
    SyncWebhookIsOrderly(p, env);
    if p.bundle.Some? {
      SyncControllerIsOrderly(spec, p.bundle.value, p, env);
    }
  }

  /**
   The patch of a reconciliation merges with whatever others made of the conditions meanwhile: it
   changes the reconciler's own types only, and those it owns.
   */
  lemma PatchNeverConflicts(w: World, format: Formatter, env: Env, latest: seq<Condition>, clock: Clock)
    requires w.policy.Some? && WellFormed(w) && Unique(latest)
    ensures var was := w.policy.value.status.conditions;
            var wanted := Wanted(w.policy.value, Work(w.policy.value, w, env), format, env).conditions;
            ApplyOps(NewPatchOps(was, wanted), latest, OWNED, clock).Ok?
  {
    hide Work, ApplyOps, NewPatchOps, SetSummaryOf;
    var policy := w.policy.value;
    var was, p := policy.status.conditions, Work(policy, w, env).conditions;
    var wanted := SetSummaryOf(p, Some(SUMMARISED), format, env.clock(READY));
    WorkIsOrderly(policy, w, env);
    SummaryIsOrderly(p, format, env.clock(READY));
    MergeFailsExactly(was, wanted, latest, OWNED, clock);
    forall t | t !in OWNED.owned ensures Lookup(wanted, t) == Lookup(was, t) {
      WorkOthers(policy, w, env, t);
    }
  }

  /** Bundle, BundleCompiled and the stored hash after a reconciliation, committed or not. */
  lemma BundleView(w: World, format: Formatter, env: Env)
    requires w.policy.Some? && WellFormed(w)
    ensures var policy, r := w.policy.value, Reconciled(w, format, env);
            var source := policy.spec.source;
            var compiles := HashBundle(source) != NoDigest && MustCompile(policy);
            && r.policy.Some? && r.policy.value.spec == policy.spec && WellFormed(r)
            && r.policy.value.status.bundleHash ==
               (if env.statusCommitted then HashBundle(source) else policy.status.bundleHash)
            && r.bundle == (if compiles && env.compiled(source).Ok? && env.bundleStored
                            then Some(Bundle(env.compiled(source).value)) else w.bundle)
            && StateOf(r.policy.value.status.conditions, BUNDLE_COMPILED) ==
               (if !env.conditionsCommitted then StateOf(policy.status.conditions, BUNDLE_COMPILED)
                else if HashBundle(source) == NoDigest then
                  Some(if w.bundle.None? then BundleMissing() else TrueCondition(BUNDLE_COMPILED))
                else if !compiles then StateOf(policy.status.conditions, BUNDLE_COMPILED)
                else if env.compiled(source).Err? then Some(CompileFailed(env.compiled(source).error))
                else if env.bundleStored then Some(TrueCondition(BUNDLE_COMPILED))
                else None)
  {
    hide Work, Reconciled;
    var policy := w.policy.value;
    ReconcileView(w, format, env);
    WorkKeepsCompiled(policy, w, env);
    CompileView(policy, Progress(policy.status.conditions, w.bundle, w.running, w.recorded, false), env);
    assert env.conditionsCommitted ==>
             StateOf(Reconciled(w, format, env).policy.value.status.conditions, BUNDLE_COMPILED) ==
             StateOf(Work(policy, w, env).conditions, BUNDLE_COMPILED);
  }

  lemma NobodyThere(w: World, format: Formatter, env: Env)
    requires w.policy.None?
    ensures Reconciled(w, format, env).policy.None?
  {
  }

  /** Once a deletion is noticed nothing is known under the name any more, but for a bundle. */
  lemma NoticedDeletionForgets(w: World, format: Formatter, dropsBundle: bool, env: Env)
    ensures Run(w, format, [Delete(dropsBundle), Reconcile(env)]) == Fresh(if dropsBundle then None else w.bundle)
  {
    RunTwo(w, format, Delete(dropsBundle), Reconcile(env));
  }

  /** A policy without javascript is never compiled: its bundle is what somebody else stored. */
  lemma NoJavascriptNoCompile(w: World, format: Formatter, env: Env)
    requires w.policy.Some? && WellFormed(w) && w.policy.value.spec.source.javascript == ""
    ensures var r := Reconciled(w, format, env);
            && r.policy.Some? && r.bundle == w.bundle
            && (env.conditionsCommitted ==>
                  && (IsTrue(r.policy.value.status.conditions, BUNDLE_COMPILED) <==> w.bundle.Some?)
                  && (IsFalse(r.policy.value.status.conditions, BUNDLE_COMPILED) <==> w.bundle.None?))
  {
    hide Reconciled;
    BundleView(w, format, env);
  }

  /** The reconciliation stores a new bundle. */
  predicate StoresBundle(policy: JsPolicy, env: Env) {
    && HashBundle(policy.spec.source) != NoDigest && MustCompile(policy)
    && env.compiled(policy.spec.source).Ok? && env.bundleStored
  }

  /**
   A lost patch ends the match between status and bundle. Either a new bundle was stored, the hash
   of its source is lost, and the bundle is none of the source the status still names. Or the new
   source could not be bundled, its hash is committed all the same, the loss of True is not, and
   the old bundle is none of the new source. Or a policy lost its source, BundleCompiled becomes
   True for the bundle there is, and the old hash stays without being the hash of one of its
   sources.
   */
  predicate Loses(w: World, env: Env, bundles: Bundling)
    requires w.policy.Some?
  {
    var policy := w.policy.value;
    var source, status := policy.spec.source, policy.status;
    var compiled := IsTrue(status.conditions, BUNDLE_COMPILED);
    if StoresBundle(policy, env) then
      && !env.statusCommitted && status.bundleHash != NoDigest && (env.conditionsCommitted || compiled)
      && !IsBundleOf(Some(Bundle(env.compiled(source).value)), status.bundleHash, bundles)
    else if HashBundle(source) != NoDigest then
      && MustCompile(policy) && env.statusCommitted && !env.conditionsCommitted && compiled
      && !IsBundleOf(w.bundle, HashBundle(source), bundles)
    else
      && w.bundle.Some? && !env.statusCommitted && env.conditionsCommitted && !compiled && status.bundleHash != NoDigest
      && !IsBundleOf(w.bundle, status.bundleHash, bundles)
  }

  /** The steps that end the match: a lost patch, and a bundle dropped or overwritten by others. */
  predicate EndsTheMatch(w: World, step: Step, bundles: Bundling) {
    match step
    case Reconcile(env) => w.policy.Some? && Loses(w, env, bundles)
    case DropBundle => Vouches(w) && IsTrue(w.policy.value.status.conditions, BUNDLE_COMPILED)
    case WriteBundle(bytes) =>
      && Vouches(w) && IsTrue(w.policy.value.status.conditions, BUNDLE_COMPILED)
      && !IsBundleOf(Some(Bundle(bytes)), w.policy.value.status.bundleHash, bundles)
    case _ => false
  }

  lemma MatchAfterReconcile(w: World, format: Formatter, env: Env, bundles: Bundling)
    requires w.policy.Some? && WellFormed(w) && CompiledMatches(w, bundles) && BundlesHonestly(Reconcile(env), bundles)
    ensures CompiledMatches(Reconciled(w, format, env), bundles) <==> !Loses(w, env, bundles)
  {
    hide Reconciled;
    BundleView(w, format, env);
  }

  /** Exactly the steps in `EndsTheMatch` make BundleCompiled=True vouch for the wrong bundle. */
  lemma MatchEndsExactly(w: World, format: Formatter, step: Step, bundles: Bundling)
    requires WellFormed(w) && CompiledMatches(w, bundles) && BundlesHonestly(step, bundles)
    ensures CompiledMatches(Do(w, format, step), bundles) <==> !EndsTheMatch(w, step, bundles)
  {
    hide Reconciled;
    if step.Reconcile? && w.policy.Some? {
      MatchAfterReconcile(w, format, step.env, bundles);
    } else if step.Reconcile? {
      NobodyThere(w, format, step.env);
    }
  }

  /** The bundler is honest, and no step of the run ends the match. */
  ghost predicate NeverEndsTheMatch(w: World, format: Formatter, steps: seq<Step>, bundles: Bundling)
    decreases |steps|
  {
    steps == [] ||
    (&& BundlesHonestly(steps[0], bundles) && !EndsTheMatch(w, steps[0], bundles)
     && NeverEndsTheMatch(Do(w, format, steps[0]), format, steps[1..], bundles))
  }

  lemma {:induction false} RunKeepsCompiledMatches(w: World, format: Formatter, steps: seq<Step>, bundles: Bundling)
    requires WellFormed(w) && CompiledMatches(w, bundles) && NeverEndsTheMatch(w, format, steps, bundles)
    ensures CompiledMatches(Run(w, format, steps), bundles)
    decreases |steps|
  {
    if steps != [] {
      var next := Do(w, format, steps[0]);
      StepKeepsWellFormed(w, format, steps[0]);
      MatchEndsExactly(w, format, steps[0], bundles);
      RunKeepsCompiledMatches(next, format, steps[1..], bundles);
    }
  }

  /** Where every status patch commits and nobody else writes bundles, no step ends the match. */
  lemma {:induction false} UndisturbedRunsMatch(w: World, format: Formatter, steps: seq<Step>, bundles: Bundling)
    requires forall i :: 0 <= i < |steps| ==> Undisturbed(steps[i], bundles)
    ensures NeverEndsTheMatch(w, format, steps, bundles)
    decreases |steps|
  {
    if steps != [] {
      var next := Do(w, format, steps[0]);
      assert Undisturbed(steps[0], bundles);
      UndisturbedRunsMatch(next, format, steps[1..], bundles);
    }
  }

  /**
   In every run of edits, compile failures, storage errors, restarts and reconciliations in which
   no step ends the match, BundleCompiled=True with a hash vouches for the stored bundle.
   */
  lemma StatusVouchesForBundle(bundle: Option<Bundle>, format: Formatter, steps: seq<Step>, bundles: Bundling)
    requires NeverEndsTheMatch(Fresh(bundle), format, steps, bundles)
    ensures CompiledMatches(Run(Fresh(bundle), format, steps), bundles)
  {
    RunKeepsCompiledMatches(Fresh(bundle), format, steps, bundles);
  }

  /** A new policy with a source is compiled, and its status vouches for its bundle. */
  lemma FirstCompile(bundle: Option<Bundle>, format: Formatter, spec: Spec, env: Env) returns (r: World)
    requires HashBundle(spec.source) != NoDigest && Compiles(env, spec.source)
    ensures r == Do(Do(Fresh(bundle), format, Create(spec)), format, Reconcile(env))
    ensures r.policy.Some? && r.policy.value.spec == spec && WellFormed(r) && r.bundle.Some?
    ensures IsTrue(r.policy.value.status.conditions, BUNDLE_COMPILED)
    ensures r.policy.value.status.bundleHash == HashBundle(spec.source)
            && r.bundle == Some(Bundle(env.compiled(spec.source).value))
  {
    hide Reconciled;
    var created := Do(Fresh(bundle), format, Create(spec));
    r := Reconciled(created, format, env);
    BundleView(created, format, env);
  }

  /** A run that loses a patch: compile a new policy, edit its source, and lose the hash of the new bundle. */
  lemma LostPatchBreaksTheVoucher(bundle: Option<Bundle>, format: Formatter, spec: Spec, first: Env, edited: Spec,
          lost: Env, bundles: Bundling)
    requires HashBundle(spec.source) != NoDigest && HashBundle(edited.source) != NoDigest
             && edited.source != spec.source
    requires Compiles(first, spec.source) && BundlesHonestly(Reconcile(first), bundles)
    requires lost.compiled(edited.source).Ok? && lost.bundleStored && !lost.statusCommitted
    requires BundlesHonestly(Reconcile(lost), bundles) && !bundles(spec.source, lost.compiled(edited.source).value)
    ensures !CompiledMatches(Run(Fresh(bundle), format,
            [Create(spec), Reconcile(first)] + [Edit(edited), Reconcile(lost)]), bundles)
  {
    hide Reconciled, Run;
    var w := FirstCompile(bundle, format, spec, first);
    var w1 := Do(w, format, Edit(edited));
    assert CompiledMatches(w1, bundles);
    MatchAfterReconcile(w1, format, lost, bundles);
    DoReconciles(w1, format, lost);
    RunFour(Fresh(bundle), format, Create(spec), Reconcile(first), Edit(edited), Reconcile(lost));
  }

  function ReconcileAll(w: World, format: Formatter, envs: seq<Env>): World
    decreases |envs|
  {
    if envs == [] then w else ReconcileAll(Reconciled(w, format, envs[0]), format, envs[1..])
  }

  /** When a missing bundle of a policy with a source comes to exist. */
  lemma BundleAppearsExactly(w: World, format: Formatter, env: Env)
    requires w.policy.Some? && WellFormed(w) && w.bundle.None?
    ensures var policy := w.policy.value;
            Reconciled(w, format, env).bundle.Some? <==>
            && HashBundle(policy.spec.source) != NoDigest && MustCompile(policy)
            && env.compiled(policy.spec.source).Ok? && env.bundleStored
  {
    ReconcileView(w, format, env);
    WorkKeepsCompiled(w.policy.value, w, env);
  }

  /**
   Nothing would make the reconciler compile: there is no source, or it was compiled before, well
   or not.
   */
  predicate WillNotCompile(policy: JsPolicy) {
    HashBundle(policy.spec.source) == NoDigest || !MustCompile(policy)
  }

  lemma ReconcileWillNotCompile(w: World, format: Formatter, env: Env)
    requires w.policy.Some? && WellFormed(w) && w.bundle.None? && WillNotCompile(w.policy.value)
    ensures var r := Reconciled(w, format, env);
            r.policy.Some? && WellFormed(r) && r.bundle.None? && WillNotCompile(r.policy.value)
  {
    var policy := w.policy.value;
    BundleAppearsExactly(w, format, env);
    ReconcileView(w, format, env);
    WorkKeepsCompiled(policy, w, env);
    assert env.conditionsCommitted ==>
             StateOf(Reconciled(w, format, env).policy.value.status.conditions, BUNDLE_COMPILED) ==
             StateOf(Work(policy, w, env).conditions, BUNDLE_COMPILED);
  }

  lemma {:induction false} MissingBundleStaysMissing(w: World, format: Formatter, envs: seq<Env>)
    requires w.policy.Some? && WellFormed(w) && w.bundle.None? && WillNotCompile(w.policy.value)
    ensures ReconcileAll(w, format, envs).bundle.None?
    decreases |envs|
  {
    if envs != [] {
      var next := Reconciled(w, format, envs[0]);
      ReconcileWillNotCompile(w, format, envs[0]);
      MissingBundleStaysMissing(next, format, envs[1..]);
    }
  }

  /** An environment in which everything works out. */
  function Sunny(bytes: string): Env {
    Env(_ => Ok(bytes), true, true, WebhookSynced, _ => Ok({}), _ => ZERO_TIME, _ => ZERO_TIME, true, true)
  }

  /**
   A missing bundle stays missing for good, whatever the reconciler meets, exactly when the
   policy has no source or was compiled before: nobody rebuilds a bundle that was dropped.
   */
  lemma MissingForGoodExactly(w: World, format: Formatter)
    requires w.policy.Some? && WellFormed(w) && w.bundle.None?
    ensures (forall envs :: ReconcileAll(w, format, envs).bundle.None?) <==> WillNotCompile(w.policy.value)
  {
    if WillNotCompile(w.policy.value) {
      forall envs ensures ReconcileAll(w, format, envs).bundle.None? {
        MissingBundleStaysMissing(w, format, envs);
      }
    } else {
      var env := Sunny("");
      BundleAppearsExactly(w, format, env);
      ReconcileOnce(w, format, env);
    }
  }

  lemma ReconcileOnce(w: World, format: Formatter, env: Env)
    ensures ReconcileAll(w, format, [env]) == Reconciled(w, format, env)
  {
    var next := Reconciled(w, format, env);
    assert [env][1..] == [] && ReconcileAll(next, format, []) == next;
  }
}
