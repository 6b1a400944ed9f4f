/**
 Reconciling an unchanged policy comes to rest: three error-free reconciliations reach a
 fixpoint, where Phase agrees with the conditions, and two are not always enough
 (pkg/controllers/jspolicy.go).
 */
module FixpointLaws {
  import opened Prelude
  import opened Conditions
  import opened PatchLaws
  import opened Summary
  import opened Gvks
  import opened SummaryTimes
  import opened Reconciler
  import opened ReconcilerLaws
  import opened ControllerLaws
  import opened ControllerRuns
  import opened WebhookLaws

  /** The API server answers every call; the bundler and the manager may still refuse. */
  predicate NoClientErrors(env: Env) {
    && env.bundleStored && env.webhooksDeleted && env.webhook.WebhookSynced?
    && env.conditionsCommitted && env.statusCommitted
  }

  // ---------------------------------------------------------------- nothing left to do

  predicate BundleSettled(policy: JsPolicy, bundle: Option<Bundle>) {
    policy.status.bundleHash == HashBundle(policy.spec.source) &&
    if HashBundle(policy.spec.source) == NoDigest then
      StateOf(policy.status.conditions, BUNDLE_COMPILED) ==
      Some(if bundle.None? then BundleMissing() else TrueCondition(BUNDLE_COMPILED))
    else Lookup(policy.status.conditions, BUNDLE_COMPILED).Some?
  }

  predicate DeploymentSettled(spec: Spec, cs: seq<Condition>, bundle: Option<Bundle>, running: Option<set<GVK>>,
          recorded: Option<Key>) {
    if IsFalse(cs, BUNDLE_COMPILED) then running.None?
    else if spec.ptype.Controller? then
      bundle.Some? ==>
        && recorded == Some(ControllerKey(spec, bundle.value))
        && (IsFalse(cs, CONTROLLER_READY) || StateOf(cs, CONTROLLER_READY) == Some(TrueCondition(CONTROLLER_READY)))
    else StateOf(cs, WEBHOOK_READY) == Some(TrueCondition(WEBHOOK_READY))
  }

  /** A further reconciliation has nothing to do before its summary. */
  predicate Settled(w: World) {
    && w.policy.Some? && BundleSettled(w.policy.value, w.bundle)
    && DeploymentSettled(w.policy.value.spec, w.policy.value.status.conditions, w.bundle, w.running, w.recorded)
  }

  lemma MarkSameState(p: Progress, c: Condition, env: Env)
    requires Orderly(p.conditions) && StateOf(p.conditions, c.ctype) == Some(c)
    ensures Mark(p, c, env) == p
  {
    SetSameStateIsNoop(p.conditions, c, env.clock(c.ctype));
  }

  lemma QuietCompile(policy: JsPolicy, p: Progress, env: Env)
    requires Orderly(p.conditions) && p.conditions == policy.status.conditions && BundleSettled(policy, p.bundle)
    ensures Compile(policy, p, env) == p
  {
    if HashBundle(policy.spec.source) == NoDigest {
      MarkSameState(p, if p.bundle.None? then BundleMissing() else TrueCondition(BUNDLE_COMPILED), env);
    }
  }

  lemma QuietDeploy(spec: Spec, p: Progress, env: Env)
    requires Orderly(p.conditions) && NoClientErrors(env) && !p.failed
    requires DeploymentSettled(spec, p.conditions, p.bundle, p.running, p.recorded)
    ensures Deploy(spec, p.bundle.Some?, p, env) == p
  {
    if !IsFalse(p.conditions, BUNDLE_COMPILED) {
      if !spec.ptype.Controller? {
        MarkSameState(p, TrueCondition(WEBHOOK_READY), env);
      } else if p.bundle.Some? && !IsFalse(p.conditions, CONTROLLER_READY) {
        MarkSameState(p, TrueCondition(CONTROLLER_READY), env);
      }
    }
  }

  lemma QuietWork(w: World, env: Env)
    requires WellFormed(w) && Settled(w) && NoClientErrors(env)
    ensures var policy := w.policy.value;
            Work(policy, w, env) == Progress(policy.status.conditions, w.bundle, w.running, w.recorded, false)
  {
    var policy := w.policy.value;
    var start := Progress(policy.status.conditions, w.bundle, w.running, w.recorded, false);
    QuietCompile(policy, start, env);
    QuietDeploy(policy.spec, start, env);
  }

  // ---------------------------------------------------------------- getting there

  /** With the bundle in view, everything after compiling settles. */
  lemma DeploySettles(spec: Spec, p: Progress, env: Env)
    requires Orderly(p.conditions) && NoClientErrors(env) && !p.failed
    ensures var r := Deploy(spec, p.bundle.Some?, p, env);
            !r.failed && DeploymentSettled(spec, r.conditions, r.bundle, r.running, r.recorded)
  {
    if !IsFalse(p.conditions, BUNDLE_COMPILED) {
      MarkIsOrderly(p, TrueCondition(WEBHOOK_READY), env);
      if p.bundle.Some? && spec.ptype.Controller? {
        SyncControllerSettles(spec, p.bundle.value, p, env);
      }
    }
  }

  lemma SyncControllerSettles(spec: Spec, bundle: Bundle, p: Progress, env: Env)
    requires Orderly(p.conditions) && !p.failed
    ensures var r := SyncController(spec, bundle, p, env);
            && !r.failed && r.bundle == p.bundle && r.recorded == Some(ControllerKey(spec, bundle))
            && Lookup(r.conditions, BUNDLE_COMPILED) == Lookup(p.conditions, BUNDLE_COMPILED)
            && (IsFalse(r.conditions, CONTROLLER_READY)
                || StateOf(r.conditions, CONTROLLER_READY) == Some(TrueCondition(CONTROLLER_READY)))
  {
    MarkIsOrderly(p, TrueCondition(CONTROLLER_READY), env);
    if env.started(spec.selection).Err? {
      MarkIsOrderly(p, StartFailed(env.started(spec.selection).error), env);
    }
  }

  lemma SettledIgnoresTimes(spec: Spec, a: seq<Condition>, b: seq<Condition>, bundle: Option<Bundle>,
          running: Option<set<GVK>>, recorded: Option<Key>)
    requires DeploymentSettled(spec, a, bundle, running, recorded)
    requires forall t :: t != READY ==> StateOf(a, t) == StateOf(b, t)
    ensures DeploymentSettled(spec, b, bundle, running, recorded)
  {
    assert StateOf(a, BUNDLE_COMPILED) == StateOf(b, BUNDLE_COMPILED);
    assert StateOf(a, CONTROLLER_READY) == StateOf(b, CONTROLLER_READY);
    assert StateOf(a, WEBHOOK_READY) == StateOf(b, WEBHOOK_READY);
  }

  /** The reconciliation will create the bundle of a controller policy, and leave the rest to the next one. */
  predicate MakesControllerBundle(policy: JsPolicy, bundle: Option<Bundle>, env: Env) {
    && policy.spec.ptype.Controller? && bundle.None?
    && HashBundle(policy.spec.source) != NoDigest && MustCompile(policy) && env.compiled(policy.spec.source).Ok?
  }

  lemma WorkSettles(policy: JsPolicy, w: World, env: Env)
    requires w.policy == Some(policy) && WellFormed(w) && NoClientErrors(env)
    ensures var p := Work(policy, w, env);
            && !p.failed
            && (!MakesControllerBundle(policy, w.bundle, env) ==>
                  DeploymentSettled(policy.spec, p.conditions, p.bundle, p.running, p.recorded))
            && BundleSettled(policy.(status := policy.status.(conditions := p.conditions,
                bundleHash := HashBundle(policy.spec.source))), p.bundle)
  {
    var start := Progress(policy.status.conditions, w.bundle, w.running, w.recorded, false);
    var p := Compile(policy, start, env);
    CompileView(policy, start, env);
    CompileIsOrderly(policy, start, env);
    DeployKeepsCompiled(policy.spec, w.bundle.Some?, p, env);
    if !MakesControllerBundle(policy, w.bundle, env) {
      DeploySettles(policy.spec, p, env);
      assert policy.spec.ptype.Controller? ==> p.bundle.Some? == w.bundle.Some?;
      assert Deploy(policy.spec, w.bundle.Some?, p, env) == Deploy(policy.spec, p.bundle.Some?, p, env);
    }
  }

  /** A reconciliation settles everything, unless it was the one to create a controller's bundle. */
  lemma ReconcileSettles(w: World, format: Formatter, env: Env)
    requires w.policy.Some? && WellFormed(w) && NoClientErrors(env)
    ensures var r := Reconciled(w, format, env);
            && r.policy.Some? && r.policy.value.spec == w.policy.value.spec && WellFormed(r)
            && BundleSettled(r.policy.value, r.bundle)
            && (!MakesControllerBundle(w.policy.value, w.bundle, env) ==> Settled(r))
  {
    var policy, r := w.policy.value, Reconciled(w, format, env);
    var p := Work(policy, w, env);
    WorkSettles(policy, w, env);
    ReconcileView(w, format, env);
    assert StateOf(r.policy.value.status.conditions, BUNDLE_COMPILED) == StateOf(p.conditions, BUNDLE_COMPILED);
    if !MakesControllerBundle(policy, w.bundle, env) {
      SettledIgnoresTimes(policy.spec, p.conditions, r.policy.value.status.conditions, p.bundle, p.running, p.recorded);
    }
  }

  /** Once the bundle is settled no reconciliation makes one. */
  lemma SettledBundleIsNotMade(policy: JsPolicy, bundle: Option<Bundle>, env: Env)
    requires BundleSettled(policy, bundle)
    ensures !MakesControllerBundle(policy, bundle, env)
  {
  }

  // ---------------------------------------------------------------- the summary and the phase

  /** Summarising again, at any time, changes nothing. */
  ghost predicate ReadyIsCurrent(cs: seq<Condition>, format: Formatter) {
    forall now :: SetSummaryOf(cs, Some(SUMMARISED), format, now) == cs
  }

  lemma SummaryIsCurrent(a: seq<Condition>, cs: seq<Condition>, format: Formatter, now: Time)
    requires Orderly(a) && Orderly(cs)
    requires Timeless(cs) == Timeless(SetSummaryOf(a, Some(SUMMARISED), format, now))
    ensures ReadyIsCurrent(cs, format)
  {
    OrderlyConforms(a);
    forall later ensures SetSummaryOf(cs, Some(SUMMARISED), format, later) == cs {
      SummaryHolds(a, cs, Some(SUMMARISED), format, now, later);
    }
  }

  lemma SummaryHolds(a: seq<Condition>, cs: seq<Condition>, types: Option<seq<string>>, format: Formatter, now: Time,
          later: Time)
    requires Unique(a) && Conforms(Scope(a, types)) && Unique(cs) && Sorted(cs)
    requires Timeless(cs) == Timeless(SetSummaryOf(a, types, format, now))
    ensures SetSummaryOf(cs, types, format, later) == cs
  {
    var ready := SummaryOf(a, types, format);
    SummaryIgnoresTimes(cs, SetSummaryOf(a, types, format, now), types, format);
    if ready.Some? {
      SummaryIsSet(a, types, format, now);
      SummaryIgnoresReady(a, types, format, ready.value, now);
      StoredIsSet(a, cs, ready.value, now);
      SummaryAlreadySet(cs, types, format, later);
    }
  }

  lemma SummaryAlreadySet(cs: seq<Condition>, types: Option<seq<string>>, format: Formatter, now: Time)
    requires Unique(cs) && Sorted(cs) && SummaryOf(cs, types, format).Some?
    requires Lookup(cs, READY).Some? && SameState(Lookup(cs, READY).value, SummaryOf(cs, types, format).value)
    ensures SetSummaryOf(cs, types, format, now) == cs
  {
    SummaryIsSet(cs, types, format, now);
    SetSameStateIsNoop(cs, SummaryOf(cs, types, format).value, now);
  }

  /** The stored Ready is the summary, if there is anything to summarise. */
  lemma ReadyAfterSummary(a: seq<Condition>, cs: seq<Condition>, format: Formatter, now: Time)
    requires Orderly(a) && Timeless(cs) == Timeless(SetSummaryOf(a, Some(SUMMARISED), format, now))
    requires SummaryOf(a, Some(SUMMARISED), format).Some?
    ensures var ready := SummaryOf(a, Some(SUMMARISED), format).value;
            Lookup(cs, READY).Some? && SameState(Lookup(cs, READY).value, ready)
  {
    SummaryIsSet(a, Some(SUMMARISED), format, now);
    StoredIsSet(a, cs, SummaryOf(a, Some(SUMMARISED), format).value, now);
  }

  lemma SummaryIsSet(a: seq<Condition>, types: Option<seq<string>>, format: Formatter, now: Time)
    requires SummaryOf(a, types, format).Some?
    ensures SummaryOf(a, types, format).value.ctype == READY
    ensures SetSummaryOf(a, types, format, now) == SetCondition(a, SummaryOf(a, types, format).value, now)
  {
  }

  lemma StoredIsSet(a: seq<Condition>, cs: seq<Condition>, c: Condition, now: Time)
    requires Unique(a) && Timeless(cs) == Timeless(SetCondition(a, c, now))
    ensures Lookup(cs, c.ctype).Some? && SameState(Lookup(cs, c.ctype).value, c)
  {
    SetTouchesOneType(a, c, now);
    TimelessLookup(cs, c.ctype);
    TimelessLookup(SetCondition(a, c, now), c.ctype);
  }

  lemma ReconcileMakesReadyCurrent(w: World, format: Formatter, env: Env)
    requires w.policy.Some? && WellFormed(w) && env.conditionsCommitted
    ensures ReadyIsCurrent(Reconciled(w, format, env).policy.value.status.conditions, format)
  {
    ReconcileView(w, format, env);
    WorkIsOrderly(w.policy.value, w, env);
    SummaryIsCurrent(Work(w.policy.value, w, env).conditions,
        Reconciled(w, format, env).policy.value.status.conditions, format, env.clock(READY));
  }

  predicate PhaseIsCurrent(status: PolicyStatus) {
    match FirstError(status.conditions)
    case Some(c) => status.phase == Failed && status.reason == c.reason && status.message == c.message
    case None => status.phase == Synced && status.reason == "" && status.message == ""
  }

  /**
   Once settled with a current Ready, one reconciliation brings the phase up to date and changes
   nothing else.
   */
  lemma SettledReconcile(w: World, format: Formatter, env: Env)
    requires WellFormed(w) && Settled(w) && NoClientErrors(env)
    requires ReadyIsCurrent(w.policy.value.status.conditions, format)
    ensures var r := Reconciled(w, format, env);
            && r.policy.Some? && r.policy.value.spec == w.policy.value.spec
            && r.bundle == w.bundle && r.running == w.running && r.recorded == w.recorded
            && r.policy.value.status.conditions == w.policy.value.status.conditions
            && r.policy.value.status.bundleHash == w.policy.value.status.bundleHash
            && PhaseIsCurrent(r.policy.value.status)
            && (PhaseIsCurrent(w.policy.value.status) ==> r == w)
  {
    var cs := w.policy.value.status.conditions;
    QuietWork(w, env);
    RoundTripOfSortedLists(cs, cs, OWNED, env.patchClock);
    assert SetSummaryOf(cs, Some(SUMMARISED), format, env.clock(READY)) == cs;
  }

  /** At rest: no error-free reconciliation changes anything any more, whatever bundler and manager answer. */
  ghost predicate AtRest(w: World, format: Formatter) {
    forall env :: NoClientErrors(env) ==> Reconciled(w, format, env) == w
  }

  ghost predicate ShowsErrors(status: PolicyStatus) {
    exists c :: c in status.conditions && IsError(c)
  }

  lemma ThirdReconcileRests(w: World, format: Formatter, env: Env)
    requires WellFormed(w) && Settled(w) && NoClientErrors(env)
    requires ReadyIsCurrent(w.policy.value.status.conditions, format)
    ensures var r := Reconciled(w, format, env);
            AtRest(r, format) && (r.policy.value.status.phase.Failed? <==> ShowsErrors(r.policy.value.status))
  {
    var r := Reconciled(w, format, env);
    SettledReconcile(w, format, env);
    forall e | NoClientErrors(e) ensures Reconciled(r, format, e) == r {
      SettledReconcile(r, format, e);
    }
  }

  /**
   Three error-free reconciliations of an unchanged policy bring everything to rest, with Phase
   Failed exactly when some condition is False with severity Error.
   */
  lemma ThreeReconcilesReachAFixpoint(w: World, format: Formatter, first: Env, second: Env, third: Env)
    requires w.policy.Some? && WellFormed(w)
    requires NoClientErrors(first) && NoClientErrors(second) && NoClientErrors(third)
    ensures var r := Reconciled(Reconciled(Reconciled(w, format, first), format, second), format, third);
            r.policy.Some? && AtRest(r, format) && (r.policy.value.status.phase.Failed? <==>
                ShowsErrors(r.policy.value.status))
  {
    var w1 := Reconciled(w, format, first);
    var w2 := Reconciled(w1, format, second);
    ReconcileSettles(w, format, first);
    SettledBundleIsNotMade(w1.policy.value, w1.bundle, second);
    ReconcileSettles(w1, format, second);
    ReconcileMakesReadyCurrent(w1, format, second);
    ThirdReconcileRests(w2, format, third);
  }

  /** Two are enough unless the first one creates the bundle of a controller policy. */
  lemma TwoSufficeUnlessABundleIsMade(w: World, format: Formatter, first: Env, second: Env)
    requires w.policy.Some? && WellFormed(w) && NoClientErrors(first) && NoClientErrors(second)
    requires !MakesControllerBundle(w.policy.value, w.bundle, first)
    ensures AtRest(Reconciled(Reconciled(w, format, first), format, second), format)
  {
    ReconcileSettles(w, format, first);
    ReconcileMakesReadyCurrent(w, format, first);
    ThirdReconcileRests(Reconciled(w, format, first), format, second);
  }

  /** Once everything but the phase is settled, rest is exactly a current phase. */
  lemma SettledRestsExactly(w: World, format: Formatter)
    requires WellFormed(w) && Settled(w) && ReadyIsCurrent(w.policy.value.status.conditions, format)
    ensures AtRest(w, format) <==> PhaseIsCurrent(w.policy.value.status)
  {
    forall env | NoClientErrors(env) ensures PhaseIsCurrent(w.policy.value.status) ==> Reconciled(w, format, env) == w {
      SettledReconcile(w, format, env);
    }
    SettledReconcile(w, format, Sunny(""));
  }

  /**
   At rest, for any policy: exactly when bundle and deployment are settled, Ready is the summary of
   the other conditions, and the phase fits the stored list.
   */
  lemma AtRestExactly(w: World, format: Formatter)
    requires w.policy.Some? && WellFormed(w)
    ensures AtRest(w, format) <==>
            && Settled(w) && ReadyIsCurrent(w.policy.value.status.conditions, format)
            && PhaseIsCurrent(w.policy.value.status)
  {
    hide Reconciled;
    if AtRest(w, format) {
      var env := Sunny("");
      assert Reconciled(w, format, env) == w;
      ReconcileSettles(w, format, env);
      SettledBundleIsNotMade(w.policy.value, w.bundle, env);
      ReconcileMakesReadyCurrent(w, format, env);
    }
    if Settled(w) && ReadyIsCurrent(w.policy.value.status.conditions, format) {
      SettledRestsExactly(w, format);
    }
  }

  // ---------------------------------------------------------------- when the phase lags

  predicate IsErrorAt(cs: seq<Condition>, t: string) {
    Lookup(cs, t).Some? && IsError(Lookup(cs, t).value)
  }

  /** The reconciliation ends in a client error. */
  predicate EndsInError(policy: JsPolicy, bundle: Option<Bundle>, env: Env) {
    || BundleIsRefused(policy, env)
    || (BundleIsBad(policy, bundle, env) && !env.webhooksDeleted)
    || (SyncsWebhook(policy, bundle, env) && !env.webhook.WebhookSynced?)
  }

  /** From what there was before: exactly when a reconciliation ends in an error. */
  lemma FailsExactly(policy: JsPolicy, w: World, env: Env)
    requires Orderly(policy.status.conditions)
    ensures Work(policy, w, env).failed <==> EndsInError(policy, w.bundle, env)
  {
    hide Work;
    var p := WorkIsDeploy(policy, w, env);
  }

  /** Which types but Ready a reconciliation will want to show as errors. */
  predicate ErrorAfter(w: World, env: Env, t: string)
    requires w.policy.Some?
  {
    var policy := w.policy.value;
    var cs := policy.status.conditions;
    if t == BUNDLE_COMPILED then
      if HashBundle(policy.spec.source) == NoDigest then w.bundle.None?
      else if MustCompile(policy) then env.compiled(policy.spec.source).Err?
      else IsErrorAt(cs, t)
    else if t == CONTROLLER_READY && SyncsController(policy, w.bundle, env) &&
            w.recorded != Some(ControllerKey(policy.spec, w.bundle.value)) then
      env.started(policy.spec.selection).Err?
    else if t == WEBHOOK_READY && SyncsWebhook(policy, w.bundle, env) && !env.webhook.WebhookListOrDeleteFailed? then
      env.webhook.WebhookApplyFailed?
    else IsErrorAt(cs, t)
  }

  lemma WorkErrors(policy: JsPolicy, w: World, env: Env, t: string)
    requires w.policy == Some(policy) && WellFormed(w)
    ensures var p := Work(policy, w, env);
            && (t != READY ==> (IsErrorAt(p.conditions, t) <==> ErrorAfter(w, env, t)))
            && (t == READY ==> StateOf(p.conditions, t) == StateOf(policy.status.conditions, t))
  {
    hide Work;
    if t == CONTROLLER_READY {
      WorkView(policy, w, env);
    } else if t == BUNDLE_COMPILED {
      BundleError(policy, w, env);
    } else if t == WEBHOOK_READY {
      WorkWebhook(policy, w, env);
    } else {
      WorkOthers(policy, w, env, t);
    }
  }

  lemma BundleError(policy: JsPolicy, w: World, env: Env)
    requires w.policy == Some(policy) && WellFormed(w)
    ensures var p := Work(policy, w, env);
            && (Lookup(p.conditions, BUNDLE_COMPILED).None? <==> BundleIsRefused(policy, env))
            && (IsErrorAt(p.conditions, BUNDLE_COMPILED) <==> ErrorAfter(w, env, BUNDLE_COMPILED))
  {
    hide Work, Compile;
    CompileView(policy, Progress(policy.status.conditions, w.bundle, w.running, w.recorded, false), env);
    WorkKeepsCompiled(policy, w, env);
  }

  lemma FirstErrorByType(cs: seq<Condition>)
    requires Unique(cs)
    ensures FirstError(cs).Some? <==> exists t :: IsErrorAt(cs, t)
  {
    if FirstError(cs).Some? {
      LookupUnique(cs, FirstError(cs).value);
      assert IsErrorAt(cs, FirstError(cs).value.ctype);
    }
  }

  /** Which conditions of a list are in scope, by type. */
  lemma ScopeByType(cs: seq<Condition>, c: Condition)
    requires Orderly(cs)
    ensures c in Scope(cs, Some(SUMMARISED)) <==> c.ctype in SUMMARISED && Lookup(cs, c.ctype) == Some(c)
  {
    if c in cs {
      LookupUnique(cs, c);
    }
    assert READY !in SUMMARISED;
  }

  /** With something in scope, Ready becomes an error exactly when something in scope is one. */
  lemma ReadyIsRedExactly(cs: seq<Condition>, format: Formatter, t: string)
    requires Orderly(cs) && t in SUMMARISED && Lookup(cs, t).Some?
    ensures var ready := SummaryOf(cs, Some(SUMMARISED), format);
            ready.Some? && (IsError(ready.value) <==> exists u :: u in SUMMARISED && IsErrorAt(cs, u))
  {
    ScopeByType(cs, Lookup(cs, t).value);
    OrderlyConforms(cs);
    var scope := Scope(cs, Some(SUMMARISED));
    ErrorsWin(scope, READY, SUMMARISED, format);
    if u :| u in SUMMARISED && IsErrorAt(cs, u) {
      ScopeByType(cs, Lookup(cs, u).value);
      assert HasKey(Lookup(cs, u).value, ConditionFalse, SeverityError);
    }
    if c :| c in scope && HasKey(c, ConditionFalse, SeverityError) {
      ScopeByType(cs, c);
      assert IsErrorAt(cs, c.ctype);
    }
  }

  /** With nothing in scope, Ready stays as it is. */
  lemma NothingToSummarise(cs: seq<Condition>, format: Formatter, now: Time)
    requires Orderly(cs) && forall t :: t in SUMMARISED ==> Lookup(cs, t).None?
    ensures SetSummaryOf(cs, Some(SUMMARISED), format, now) == cs
  {
    var scope := Scope(cs, Some(SUMMARISED));
    if scope != [] {
      ScopeByType(cs, scope[0]);
      assert false;
    }
  }

  /** Errors of the stored list, when the summary of `a` was stored; `t` is in scope. */
  lemma StoredErrors(a: seq<Condition>, stored: seq<Condition>, format: Formatter, now: Time, t: string)
    requires Orderly(a) && Orderly(stored) && t in SUMMARISED && Lookup(a, t).Some?
    requires forall t :: t != READY ==> StateOf(stored, t) == StateOf(a, t)
    requires Timeless(stored) == Timeless(SetSummaryOf(a, Some(SUMMARISED), format, now))
    ensures IsErrorAt(stored, READY) <==> exists u :: u in SUMMARISED && IsErrorAt(a, u)
    ensures (exists t :: IsErrorAt(stored, t)) <==> exists t :: t != READY && IsErrorAt(a, t)
  {
    hide SummaryOf, SetSummaryOf;
    ReadyIsRedExactly(a, format, t);
    ReadyAfterSummary(a, stored, format, now);
    assert READY !in SUMMARISED;
    forall t | t != READY ensures IsErrorAt(stored, t) <==> IsErrorAt(a, t) {
      assert StateOf(stored, t) == StateOf(a, t);
    }
  }

  /** The same with nothing in scope. */
  lemma StoredErrorsOfNothing(a: seq<Condition>, stored: seq<Condition>, format: Formatter, now: Time)
    requires Orderly(a) && Orderly(stored) && forall t :: t in SUMMARISED ==> Lookup(a, t).None?
    requires Timeless(stored) == Timeless(SetSummaryOf(a, Some(SUMMARISED), format, now))
    ensures forall t :: IsErrorAt(stored, t) <==> IsErrorAt(a, t)
  {
    NothingToSummarise(a, format, now);
    forall t ensures IsErrorAt(stored, t) <==> IsErrorAt(a, t) {
      TimelessLookup(a, t);
      TimelessLookup(stored, t);
    }
  }

  lemma ShowsErrorsByType(cs: seq<Condition>)
    requires Unique(cs)
    ensures (exists c :: c in cs && IsError(c)) <==> exists t :: IsErrorAt(cs, t)
  {
    if c :| c in cs && IsError(c) {
      LookupUnique(cs, c);
      assert IsErrorAt(cs, c.ctype);
    }
  }

  /** Some type but Ready will show an error. */
  ghost predicate WillShowErrors(w: World, env: Env)
    requires w.policy.Some?
  {
    exists t :: t != READY && ErrorAfter(w, env, t)
  }

  /** Nothing will be there to summarise: storing the bundle fails, and no other condition was set. */
  predicate SummarisesNothing(policy: JsPolicy, env: Env) {
    && BundleIsRefused(policy, env)
    && Lookup(policy.status.conditions, CONTROLLER_READY).None?
    && Lookup(policy.status.conditions, WEBHOOK_READY).None?
  }

  /**
   The stored phase after any reconciliation, from what there is before it: Failed exactly when the
   reconciliation ends in an error, Ready was one, or some condition is going to be one.
   */
  lemma PhaseAfterReconcile(w: World, format: Formatter, env: Env)
    requires w.policy.Some? && WellFormed(w)
    ensures var policy, r := w.policy.value, Reconciled(w, format, env);
            && r.policy.Some?
            && if !env.statusCommitted then r.policy.value.status.phase == policy.status.phase
               else r.policy.value.status.phase == if
                 || EndsInError(policy, w.bundle, env)
                 || IsErrorAt(policy.status.conditions, READY) || WillShowErrors(w, env)
               then Failed else Synced
  {
    hide Work, Reconciled, ErrorAfter, IsErrorAt, EndsInError;
    ErrorsOfWork(w.policy.value, w, env);
    FailsExactly(w.policy.value, w, env);
    PhaseIsWanted(w, format, env);
  }

  /** Whether the stored conditions show an error, from what there was before. */
  lemma ErrorsAfterReconcile(w: World, format: Formatter, env: Env)
    requires w.policy.Some? && WellFormed(w)
    ensures var was, r := w.policy.value.status, Reconciled(w, format, env);
            && r.policy.Some?
            && (ShowsErrors(r.policy.value.status) <==>
                  if !env.conditionsCommitted then ShowsErrors(was)
                  else WillShowErrors(w, env)
                       || (IsErrorAt(was.conditions, READY) && SummarisesNothing(w.policy.value, env)))
  {
    hide Work, Reconciled, ErrorAfter, IsErrorAt;
    var policy, r := w.policy.value, Reconciled(w, format, env);
    ReconcileView(w, format, env);
    if env.conditionsCommitted {
      ErrorsOfWork(policy, w, env);
      ScopeOfWork(policy, w, env);
      var p, stored := Work(policy, w, env).conditions, r.policy.value.status.conditions;
      if SummarisesNothing(policy, env) {
        StoredErrorsOfNothing(p, stored, format, env.clock(READY));
      } else {
        var t :| t in SUMMARISED && Lookup(p, t).Some?;
        StoredErrors(p, stored, format, env.clock(READY), t);
      }
      ShowsErrorsByType(stored);
    }
  }

  /** There is nothing to summarise exactly when it looks that way before. */
  lemma ScopeOfWork(policy: JsPolicy, w: World, env: Env)
    requires w.policy == Some(policy) && WellFormed(w)
    ensures (forall t :: t in SUMMARISED ==> Lookup(Work(policy, w, env).conditions, t).None?) <==>
              SummarisesNothing(policy, env)
  {
    hide Work, ErrorAfter;
    var p := Work(policy, w, env).conditions;
    BundleError(policy, w, env);
    WorkView(policy, w, env);
    WorkWebhook(policy, w, env);
    assert StateOf(p, CONTROLLER_READY).None? <==> Lookup(p, CONTROLLER_READY).None?;
    assert BUNDLE_COMPILED in SUMMARISED && CONTROLLER_READY in SUMMARISED && WEBHOOK_READY in SUMMARISED;
  }

  /**
   The phase counts the old Ready, the stored conditions do not. So after an error-free
   reconciliation the two disagree exactly when Ready was an error and nothing else is going to be
   one.
   */
  lemma PhaseLagsExactly(w: World, format: Formatter, env: Env)
    requires w.policy.Some? && WellFormed(w) && NoClientErrors(env)
    ensures var r := Reconciled(w, format, env);
            && r.policy.Some?
            && ((r.policy.value.status.phase.Failed? <==> ShowsErrors(r.policy.value.status)) <==>
                !(IsErrorAt(w.policy.value.status.conditions, READY) && !WillShowErrors(w, env)))
  {
    hide Reconciled, ErrorAfter, IsErrorAt, ShowsErrors;
    PhaseAfterReconcile(w, format, env);
    ErrorsAfterReconcile(w, format, env);
  }

  lemma ErrorsOfWork(policy: JsPolicy, w: World, env: Env)
    requires w.policy == Some(policy) && WellFormed(w)
    ensures var p := Work(policy, w, env);
            && Orderly(p.conditions)
            && (FirstError(p.conditions).Some? <==>
                  IsErrorAt(policy.status.conditions, READY) || WillShowErrors(w, env))
            && ((exists t :: t != READY && IsErrorAt(p.conditions, t)) <==> WillShowErrors(w, env))
            && (IsErrorAt(p.conditions, READY) <==> IsErrorAt(policy.status.conditions, READY))
  {
    hide Work, ErrorAfter;
    var p := Work(policy, w, env);
    forall t
      ensures t != READY ==> (IsErrorAt(p.conditions, t) <==> ErrorAfter(w, env, t))
      ensures t == READY ==> (IsErrorAt(p.conditions, t) <==> IsErrorAt(policy.status.conditions, t))
    {
      WorkErrors(policy, w, env, t);
    }
    WorkIsOrderly(policy, w, env);
    FirstErrorByType(p.conditions);
  }

  lemma PhaseIsWanted(w: World, format: Formatter, env: Env)
    requires w.policy.Some?
    ensures var p, r := Work(w.policy.value, w, env), Reconciled(w, format, env);
            && r.policy.Some?
            && r.policy.value.status.phase == if !env.statusCommitted then w.policy.value.status.phase
                                              else if FirstError(p.conditions).Some? || p.failed then Failed
                                              else Synced
  {
    hide Work;
  }

  // ---------------------------------------------------------------- which error Ready names

  /** Of several errors Ready names that of the controller, then that of the webhook, then that of the bundle. */
  predicate Outranks(u: string, t: string) {
    (u == CONTROLLER_READY && t != CONTROLLER_READY) || (u == WEBHOOK_READY && t == BUNDLE_COMPILED)
  }

  lemma SummaryNamesTheError(cs: seq<Condition>, format: Formatter, t: string)
    requires Orderly(cs) && t in SUMMARISED && IsErrorAt(cs, t)
    requires forall u :: u in SUMMARISED && Outranks(u, t) ==> !IsErrorAt(cs, u)
    ensures var c := Lookup(cs, t).value;
            SummaryOf(cs, Some(SUMMARISED), format) ==
            Some(c.(ctype := READY, message := format(c.message), time := ZERO_TIME))
  {
    hide SummaryOf, Scope;
    var c := Lookup(cs, t).value;
    var i := if t == CONTROLLER_READY then 0 else if t == WEBHOOK_READY then 1 else 2;
    OrderlyConforms(cs);
    ScopeByType(cs, c);
    forall d | d in Scope(cs, Some(SUMMARISED)) ensures Priority(d) == 0 ==> IsErrorAt(cs, d.ctype) {
      ScopeByType(cs, d);
    }
    ReadyQuotesThePreferred(cs, SUMMARISED, format, c, i);
  }

  /** The stored Ready after a committed reconciliation that wants to show an error. */
  lemma ReadyNamesTheError(w: World, format: Formatter, env: Env, t: string)
    requires w.policy.Some? && WellFormed(w) && env.conditionsCommitted && t in SUMMARISED && ErrorAfter(w, env, t)
    requires forall u :: u in SUMMARISED && Outranks(u, t) ==> !ErrorAfter(w, env, u)
    ensures var r := Reconciled(w, format, env);
            && r.policy.Some?
            && var cs := r.policy.value.status.conditions;
               && Lookup(cs, READY).Some? && Lookup(cs, t).Some?
               && var c := Lookup(cs, t).value;
                  SameState(Lookup(cs, READY).value, c.(ctype := READY, message := format(c.message)))
  {
    hide Reconciled, Work, ErrorAfter, IsErrorAt, SetSummaryOf, SummaryOf;
    var policy, r := w.policy.value, Reconciled(w, format, env);
    assert READY !in SUMMARISED;
    ReconcileView(w, format, env);
    var p, cs := Work(policy, w, env).conditions, r.policy.value.status.conditions;
    WorkIsOrderly(policy, w, env);
    forall u | u in SUMMARISED ensures IsErrorAt(p, u) <==> ErrorAfter(w, env, u) {
      WorkErrors(policy, w, env, u);
    }
    ErrorIsThere(p, t);
    SummaryNamesTheError(p, format, t);
    ReadyAfterSummary(p, cs, format, env.clock(READY));
    assert StateOf(cs, t) == StateOf(p, t);
  }

  // ---------------------------------------------------------------- which error the status names

  /** In display order, an error at `t` and none before it. */
  ghost predicate IsFirstErrorAt(cs: seq<Condition>, t: string) {
    IsErrorAt(cs, t) && forall u :: Before(u, t) ==> !IsErrorAt(cs, u)
  }

  lemma FirstErrorInOrder(cs: seq<Condition>)
    requires Unique(cs) && Sorted(cs) && FirstError(cs).Some?
    ensures var c := FirstError(cs).value;
            IsFirstErrorAt(cs, c.ctype) && Lookup(cs, c.ctype) == Some(c)
  {
    var c := FirstError(cs).value;
    var i :| 0 <= i < |cs| && cs[i] == c && IsError(cs[i]) && forall j :: 0 <= j < i ==> !IsError(cs[j]);
    LookupUnique(cs, c);
    forall u | Before(u, c.ctype) ensures !IsErrorAt(cs, u) {
      BeforeIsStrictTotalOrder(u, c.ctype, u);
    }
  }

  /**
   Reason and message of the status are those of the first error in display order, and Ready comes
   first: a Ready that was an error before is named once more, whatever happened since.
   */
  lemma ReasonAfterReconcile(w: World, format: Formatter, env: Env)
    requires w.policy.Some? && WellFormed(w) && env.conditionsCommitted && env.statusCommitted
    ensures var was, r := w.policy.value.status.conditions, Reconciled(w, format, env);
            && r.policy.Some?
            && var status := r.policy.value.status;
               if IsErrorAt(was, READY) then
                 status.reason == Lookup(was, READY).value.reason && status.message == Lookup(was, READY).value.message
               else if WillShowErrors(w, env) then
                 exists t :: && t != READY && IsFirstNamed(w, env, t) && Lookup(status.conditions, t).Some?
                             && status.reason == Lookup(status.conditions, t).value.reason
                             && status.message == Lookup(status.conditions, t).value.message
               else status.reason == "" && status.message == ""
  {
    hide Work, Reconciled, ErrorAfter, IsErrorAt, IsFirstNamed, WillShowErrors;
    var policy, r := w.policy.value, Reconciled(w, format, env);
    var p := Work(policy, w, env).conditions;
    ReconcileView(w, format, env);
    ReasonIsWanted(w, format, env);
    NamedError(w, env);
    if FirstError(p).Some? && FirstError(p).value.ctype != READY {
      var t := FirstError(p).value.ctype;
      assert StateOf(r.policy.value.status.conditions, t) == StateOf(p, t);
    }
  }

  /** The first error among the conditions wanted. */
  lemma NamedError(w: World, env: Env)
    requires w.policy.Some? && WellFormed(w)
    ensures var was, p := w.policy.value.status.conditions, Work(w.policy.value, w, env).conditions;
            if IsErrorAt(was, READY) then FirstError(p) == Lookup(was, READY) && FirstError(p).Some?
            else if WillShowErrors(w, env) then
              && FirstError(p).Some? && FirstError(p).value.ctype != READY
              && IsFirstNamed(w, env, FirstError(p).value.ctype)
              && Lookup(p, FirstError(p).value.ctype) == FirstError(p)
            else FirstError(p).None?
  {
    hide Work, ErrorAfter, IsErrorAt, IsError, IsFirstNamed;
    var policy := w.policy.value;
    var p := Work(policy, w, env).conditions;
    ErrorsOfWork(policy, w, env);
    if FirstError(p).Some? {
      var c := FirstError(p).value;
      FirstErrorInOrder(p);
      assert READY !in SUMMARISED;
      WorkOthers(policy, w, env, READY);
      BeforeIsStrictTotalOrder(READY, c.ctype, READY);
      BeforeIsStrictTotalOrder(c.ctype, READY, READY);
      NamedFirst(w, env, c.ctype);
    }
  }

  /** `t` is going to be an error, and no other type before it but Ready. */
  ghost predicate IsFirstNamed(w: World, env: Env, t: string)
    requires w.policy.Some?
  {
    ErrorAfter(w, env, t) && forall u :: u != READY && Before(u, t) ==> !ErrorAfter(w, env, u)
  }

  lemma NamedFirst(w: World, env: Env, t: string)
    requires w.policy.Some? && WellFormed(w) && IsFirstErrorAt(Work(w.policy.value, w, env).conditions, t)
    ensures t != READY ==> IsFirstNamed(w, env, t)
  {
    hide Work, ErrorAfter, IsErrorAt;
    WorkErrors(w.policy.value, w, env, t);
    forall u | u != READY && Before(u, t) ensures t != READY ==> !ErrorAfter(w, env, u) {
      WorkErrors(w.policy.value, w, env, u);
    }
  }

  lemma ReasonIsWanted(w: World, format: Formatter, env: Env)
    requires w.policy.Some? && env.statusCommitted
    ensures var p, r := Work(w.policy.value, w, env), Reconciled(w, format, env);
            && r.policy.Some?
            && match FirstError(p.conditions)
               case Some(c) => r.policy.value.status.reason == c.reason && r.policy.value.status.message == c.message
               case None => r.policy.value.status.reason == "" && r.policy.value.status.message == ""
  {
    hide Work;
  }

  // ---------------------------------------------------------------- two are not always enough

  predicate OtherType(t: string) {
    t != READY && t != BUNDLE_COMPILED && t != CONTROLLER_READY
  }

  /** Only the types a controller policy gets. */
  ghost predicate NoOtherTypes(w: World) {
    w.policy.Some? && forall t :: OtherType(t) ==> Lookup(w.policy.value.status.conditions, t) == None
  }

  lemma NoOtherTypesStays(w: World, format: Formatter, env: Env)
    requires WellFormed(w) && NoOtherTypes(w) && w.policy.value.spec.ptype.Controller? && NoClientErrors(env)
    ensures NoOtherTypes(Reconciled(w, format, env))
  {
    hide Work, Reconciled;
    ReconcileView(w, format, env);
    var p, cs := Work(w.policy.value, w, env), Reconciled(w, format, env).policy.value.status.conditions;
    forall t | OtherType(t) ensures Lookup(cs, t) == None {
      if t == WEBHOOK_READY {
        WorkWebhook(w.policy.value, w, env);
      } else {
        assert t !in SUMMARISED;
        WorkOthers(w.policy.value, w, env, t);
      }
      assert StateOf(cs, t) == StateOf(p.conditions, t);
    }
  }

  /** A controller policy that failed to start, and whose bundle was dropped and source edited since. */
  ghost predicate FailedBefore(w: World) {
    && NoOtherTypes(w) && w.policy.value.spec.ptype.Controller? && w.bundle.None?
    && HashBundle(w.policy.value.spec.source) != NoDigest && MustCompile(w.policy.value)
    && w.recorded != Some(Key(HashBundle(w.policy.value.spec.source), w.policy.value.spec.selection))
    && IsErrorAt(w.policy.value.status.conditions, CONTROLLER_READY)
  }

  /** Its bundle was compiled and stored; Ready still shows the old failure. */
  ghost predicate Halfway(w: World) {
    && NoOtherTypes(w) && IsDeployable(w) && IsTrue(w.policy.value.status.conditions, BUNDLE_COMPILED)
    && IsErrorAt(w.policy.value.status.conditions, READY)
  }

  predicate IsDeployable(w: World) {
    && w.policy.Some? && w.bundle.Some? && w.policy.value.spec.ptype.Controller? && IsDone(w.policy.value)
    && w.recorded != Some(ControllerKey(w.policy.value.spec, w.bundle.value))
  }

  lemma FirstGoesHalfway(w: World, format: Formatter, env: Env)
    requires WellFormed(w) && FailedBefore(w) && NoClientErrors(env) && env.compiled(w.policy.value.spec.source).Ok?
    ensures WellFormed(Reconciled(w, format, env)) && Halfway(Reconciled(w, format, env))
  {
    hide Reconciled, Work;
    var policy, r := w.policy.value, Reconciled(w, format, env);
    CompilingIsDone(w, format, env);
    var _ := ControllerView(w, format, env);
    BundleView(w, format, env);
    NoOtherTypesStays(w, format, env);
    assert CONTROLLER_READY in SUMMARISED;
    ReadyTurnsRed(w, format, env, CONTROLLER_READY);
  }

  lemma ErrorIsThere(cs: seq<Condition>, t: string)
    requires IsErrorAt(cs, t)
    ensures Lookup(cs, t).Some?
  {
  }

  /** Ready is stored as an error as soon as anything it summarises is going to be one. */
  lemma ReadyTurnsRed(w: World, format: Formatter, env: Env, t: string)
    requires w.policy.Some? && WellFormed(w) && NoClientErrors(env) && t in SUMMARISED && ErrorAfter(w, env, t)
    ensures var r := Reconciled(w, format, env);
            r.policy.Some? && IsErrorAt(r.policy.value.status.conditions, READY)
  {
    hide Reconciled, Work, ErrorAfter, IsErrorAt;
    var policy, r := w.policy.value, Reconciled(w, format, env);
    ReconcileView(w, format, env);
    assert READY !in SUMMARISED;
    WorkErrors(policy, w, env, t);
    WorkIsOrderly(policy, w, env);
    ErrorIsThere(Work(policy, w, env).conditions, t);
    StoredErrors(Work(policy, w, env).conditions, r.policy.value.status.conditions, format, env.clock(READY), t);
  }

  lemma SecondLags(w: World, format: Formatter, env: Env)
    requires WellFormed(w) && Halfway(w) && NoClientErrors(env) && env.started(w.policy.value.spec.selection).Ok?
    ensures var r := Reconciled(w, format, env);
            r.policy.Some? && r.policy.value.status.phase.Failed? && !ShowsErrors(r.policy.value.status)
  {
    hide Reconciled;
    PhaseAfterReconcile(w, format, env);
    ErrorsAfterReconcile(w, format, env);
    forall t | t != READY ensures !ErrorAfter(w, env, t) {
      assert OtherType(t) ==> Lookup(w.policy.value.status.conditions, t) == None;
    }
  }

  /** Two error-free reconciliations of such a policy leave a failure in the phase that no condition shows. */
  lemma TwoLeaveAFailure(w: World, format: Formatter, first: Env, second: Env)
    requires WellFormed(w) && FailedBefore(w) && NoClientErrors(first) && first.compiled(w.policy.value.spec.source).Ok?
    requires NoClientErrors(second) && second.started(w.policy.value.spec.selection).Ok?
    ensures var r := Reconciled(Reconciled(w, format, first), format, second);
            && r.policy.Some? && r.policy.value.status.phase.Failed?
            && !ShowsErrors(r.policy.value.status) && !AtRest(r, format)
  {
    hide Reconciled;
    var w1 := Reconciled(w, format, first);
    var w2 := Reconciled(w1, format, second);
    FirstGoesHalfway(w, format, first);
    var _ := ControllerView(w, format, first);
    SecondLags(w1, format, second);
    ThreeReconcilesReachAFixpoint(w, format, first, second, second);
    assert Reconciled(w2, format, second) != w2;
  }

  /** How a policy gets there: it fails to start, its bundle is dropped and its source edited. */
  function FailingRun(spec: Spec, first: Env, second: Env, edited: Spec): seq<Step> {
    [Create(spec), Reconcile(first)] + ([Reconcile(second), DropBundle] + [Edit(edited)])
  }

  lemma FailingRunFails(bundle: Option<Bundle>, format: Formatter, spec: Spec, first: Env, second: Env, edited: Spec)
    requires spec.ptype.Controller? && edited.ptype.Controller? && HashBundle(spec.source) != NoDigest
    requires HashBundle(edited.source) != NoDigest && edited.source != spec.source
    requires NoClientErrors(first) && first.compiled(spec.source).Ok? && first.started(spec.selection).Err?
    requires NoClientErrors(second) && second.compiled(spec.source).Ok? && second.started(spec.selection).Err?
    ensures var w := Run(Fresh(bundle), format, FailingRun(spec, first, second, edited));
            WellFormed(w) && FailedBefore(w) && w.policy.value.spec == edited
  {
    hide Reconciled, Run, Do;
    var w2 := NewPolicyCompiles(bundle, format, spec, first);
    NewPolicyHasNoOtherTypes(bundle, format, spec, first);
    var w5 := FailedIsEdited(w2, format, spec, second, edited);
    var rest := [Reconcile(second), DropBundle] + [Edit(edited)];
    RunConcat(Fresh(bundle), format, [Create(spec), Reconcile(first)], rest);
    RunTwo(Fresh(bundle), format, Create(spec), Reconcile(first));
    RunConcat(w2, format, [Reconcile(second), DropBundle], [Edit(edited)]);
    RunTwo(w2, format, Reconcile(second), DropBundle);
    RunLast(Do(Do(w2, format, Reconcile(second)), format, DropBundle), format, Edit(edited));
  }

  lemma NewPolicyHasNoOtherTypes(bundle: Option<Bundle>, format: Formatter, spec: Spec, env: Env)
    requires spec.ptype.Controller? && NoClientErrors(env)
    ensures NoOtherTypes(Do(Do(Fresh(bundle), format, Create(spec)), format, Reconcile(env)))
  {
    hide Reconciled;
    NoOtherTypesStays(Do(Fresh(bundle), format, Create(spec)), format, env);
  }

  /** The bundle is there and the start fails, again or for the first time. */
  lemma StartFails(w: World, format: Formatter, env: Env)
    requires WellFormed(w) && NoOtherTypes(w) && w.bundle.Some? && IsDone(w.policy.value)
    requires w.policy.value.spec.ptype.Controller? && NoClientErrors(env)
    requires env.compiled(w.policy.value.spec.source).Ok? && env.started(w.policy.value.spec.selection).Err?
    requires w.recorded.Some? ==> IsErrorAt(w.policy.value.status.conditions, CONTROLLER_READY)
    ensures var spec, r := w.policy.value.spec, Reconciled(w, format, env);
            && WellFormed(r) && NoOtherTypes(r) && r.policy.value.spec == spec
            && r.policy.value.status.bundleHash == HashBundle(spec.source)
            && r.recorded == Some(Key(HashBundle(spec.source), spec.selection))
            && IsErrorAt(r.policy.value.status.conditions, CONTROLLER_READY)
  {
    hide Reconciled;
    DeployingCompares(w, format, env);
    BundleView(w, format, env);
    NoOtherTypesStays(w, format, env);
  }

  lemma FailedIsEdited(w: World, format: Formatter, spec: Spec, env: Env, edited: Spec) returns (r: World)
    requires WellFormed(w) && NoOtherTypes(w) && w.policy.value.spec == spec && w.bundle.Some? && IsDone(w.policy.value)
    requires spec.ptype.Controller? && edited.ptype.Controller? && HashBundle(spec.source) != NoDigest
    requires HashBundle(edited.source) != NoDigest && edited.source != spec.source
    requires NoClientErrors(env) && env.compiled(spec.source).Ok? && env.started(spec.selection).Err?
    requires w.recorded.Some? ==> IsErrorAt(w.policy.value.status.conditions, CONTROLLER_READY)
    ensures r == Do(Do(Do(w, format, Reconcile(env)), format, DropBundle), format, Edit(edited))
    ensures WellFormed(r) && FailedBefore(r) && r.policy.value.spec == edited
  {
    hide Reconciled;
    var failed := Reconciled(w, format, env);
    StartFails(w, format, env);
    var dropped := Do(failed, format, DropBundle);
    r := Do(dropped, format, Edit(edited));
  }

  /**
   A run that shows it: after two error-free reconciliations the phase reports a failure that no
   condition shows.
   */
  lemma TwoAreNotEnough(bundle: Option<Bundle>, format: Formatter, spec: Spec, first: Env, second: Env, edited: Spec,
          third: Env, fourth: Env)
    requires spec.ptype.Controller? && edited.ptype.Controller? && HashBundle(spec.source) != NoDigest
    requires HashBundle(edited.source) != NoDigest && edited.source != spec.source
    requires NoClientErrors(first) && first.compiled(spec.source).Ok? && first.started(spec.selection).Err?
    requires NoClientErrors(second) && second.compiled(spec.source).Ok? && second.started(spec.selection).Err?
    requires NoClientErrors(third) && third.compiled(edited.source).Ok?
    requires NoClientErrors(fourth) && fourth.started(edited.selection).Ok?
    ensures var w := Run(Fresh(bundle), format, FailingRun(spec, first, second, edited));
            var r := Reconciled(Reconciled(w, format, third), format, fourth);
            && r.policy.Some? && r.policy.value.status.phase.Failed?
            && !ShowsErrors(r.policy.value.status) && !AtRest(r, format)
  {
    hide Reconciled, Run;
    FailingRunFails(bundle, format, spec, first, second, edited);
    TwoLeaveAFailure(Run(Fresh(bundle), format, FailingRun(spec, first, second, edited)), format, third, fourth);
  }
}
