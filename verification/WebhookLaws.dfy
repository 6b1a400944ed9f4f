/**
 What WebhookReady=True promises: one webhook configuration of the policy's kind that says what the
 spec wants, and none of the other kind; and exactly when that breaks
 (pkg/controllers/jspolicy.go).
 */
module WebhookLaws {
  import opened Prelude
  import opened Summary
  import opened Reconciler
  import opened ReconcilerLaws
  import opened ControllerLaws
  import opened ControllerRuns
  import W = Webhooks

  /** A policy's world together with all webhook configurations. */
  datatype Cluster = Cluster(world: World, validating: W.Configs, mutating: W.Configs)

  /** What the configuration of a policy should say. */
  type Content = Spec -> string

  /** The configurations of a policy's own kind, and of the other. */
  function Right(c: Cluster, ptype: PolicyType): W.Configs {
    if ptype.Mutating? then c.mutating else c.validating
  }

  function Wrong(c: Cluster, ptype: PolicyType): W.Configs {
    if ptype.Mutating? then c.validating else c.mutating
  }

  predicate SaysWebhookReady(w: World) {
    w.policy.Some? && IsTrue(w.policy.value.status.conditions, WEBHOOK_READY)
  }

  /** The configurations are what the spec asks for; a controller policy asks for none. */
  ghost predicate HasItsWebhook(c: Cluster, name: string, content: Content)
    requires c.world.policy.Some?
  {
    var spec := c.world.policy.value.spec;
    !spec.ptype.Controller? && W.InSync(Right(c, spec.ptype), Wrong(c, spec.ptype), name, content(spec))
  }

  /** What WebhookReady=True promises. */
  ghost predicate WebhookPromise(c: Cluster, name: string, content: Content) {
    SaysWebhookReady(c.world) ==> HasItsWebhook(c, name, content)
  }

  /** The reconciliation gets as far as the webhooks. */
  predicate SyncsWebhook(policy: JsPolicy, bundle: Option<Bundle>, env: Env) {
    !BundleIsRefused(policy, env) && !BundleIsBad(policy, bundle, env) && !policy.spec.ptype.Controller?
  }

  /** A reconciliation, configurations included: its environment is how the calls about them end. */
  ghost predicate ReconcilesTo(c: Cluster, name: string, format: Formatter, env: Env, content: Content, r: Cluster) {
    && r.world == Reconciled(c.world, format, env)
    && match c.world.policy
       case None => SameConfigs(c, r)
       case Some(policy) =>
         if SyncsWebhook(policy, c.world.bundle, env) then
           W.SyncsTo(Right(c, policy.spec.ptype), Wrong(c, policy.spec.ptype), name, content(policy.spec),
                     Right(r, policy.spec.ptype), Wrong(r, policy.spec.ptype), env.webhook)
         else if BundleIsBad(policy, c.world.bundle, env) then
           W.DeletesTo(c.validating, c.mutating, name, r.validating, r.mutating, env.webhooksDeleted)
         else SameConfigs(c, r)
  }

  predicate SameConfigs(c: Cluster, r: Cluster) {
    r.validating == c.validating && r.mutating == c.mutating
  }

  ghost predicate StepsTo(c: Cluster, name: string, format: Formatter, step: Step, content: Content, r: Cluster) {
    if step.Reconcile? then ReconcilesTo(c, name, format, step.env, content, r)
    else r.world == Do(c.world, format, step) && SameConfigs(c, r)
  }

  // ---------------------------------------------------------------- the condition

  /** WebhookReady before anything is stored. */
  lemma WorkWebhook(policy: JsPolicy, w: World, env: Env)
    requires Orderly(policy.status.conditions)
    ensures StateOf(Work(policy, w, env).conditions, WEBHOOK_READY) ==
            var was := StateOf(policy.status.conditions, WEBHOOK_READY);
            if !SyncsWebhook(policy, w.bundle, env) then was
            else
              match env.webhook
              case WebhookSynced => Some(TrueCondition(WEBHOOK_READY))
              case WebhookListOrDeleteFailed => was
              case WebhookApplyFailed(text) => Some(SyncFailed(text))
  {
    hide Compile, Deploy;
    var start := Progress(policy.status.conditions, w.bundle, w.running, w.recorded, false);
    var p := Compile(policy, start, env);
    CompileView(policy, start, env);
    CompileIsOrderly(policy, start, env);
    BadBundleIsSeen(policy, start, env);
    DeployWebhook(policy.spec, w.bundle.Some?, p, env);
    assert BundleIsBad(policy, w.bundle, env) ==> !BundleIsRefused(policy, env);
  }

  lemma DeployWebhook(spec: Spec, hadBundle: bool, p: Progress, env: Env)
    requires Orderly(p.conditions)
    ensures StateOf(Deploy(spec, hadBundle, p, env).conditions, WEBHOOK_READY) ==
            var was := StateOf(p.conditions, WEBHOOK_READY);
            if p.failed || IsFalse(p.conditions, BUNDLE_COMPILED) || spec.ptype.Controller? then was
            else
              match env.webhook
              case WebhookSynced => Some(TrueCondition(WEBHOOK_READY))
              case WebhookListOrDeleteFailed => was
              case WebhookApplyFailed(text) => Some(SyncFailed(text))
  {
    MarkIsOrderly(p, TrueCondition(WEBHOOK_READY), env);
    if env.webhook.WebhookApplyFailed? {
      MarkIsOrderly(p.(failed := true), SyncFailed(env.webhook.text), env);
    }
    if p.bundle.Some? {
      SyncControllerIsOrderly(spec, p.bundle.value, p, env);
    }
  }

  /** The reconciliation decides what WebhookReady says, and the decision is stored. */
  predicate DecidesWebhook(policy: JsPolicy, bundle: Option<Bundle>, env: Env) {
    SyncsWebhook(policy, bundle, env) && env.conditionsCommitted && !env.webhook.WebhookListOrDeleteFailed?
  }

  lemma WebhookView(w: World, format: Formatter, env: Env)
    requires w.policy.Some? && WellFormed(w)
    ensures var r := Reconciled(w, format, env);
            && r.policy.Some? && r.policy.value.spec == w.policy.value.spec && WellFormed(r)
            && (SaysWebhookReady(r) <==>
                if DecidesWebhook(w.policy.value, w.bundle, env) then env.webhook.WebhookSynced?
                else SaysWebhookReady(w))
  {
    hide Work, Reconciled;
    ReconcileView(w, format, env);
    WorkWebhook(w.policy.value, w, env);
    var p, r := Work(w.policy.value, w, env), Reconciled(w, format, env);
    assert env.conditionsCommitted ==>
             StateOf(r.policy.value.status.conditions, WEBHOOK_READY) == StateOf(p.conditions, WEBHOOK_READY);
  }

  // ---------------------------------------------------------------- the promise

  /** In any cluster: exactly when WebhookReady=True tells the truth after a reconciliation. */
  lemma WebhookPromiseAfterReconcile(c: Cluster, name: string, format: Formatter, env: Env, content: Content,
          r: Cluster)
    requires c.world.policy.Some? && WellFormed(c.world) && ReconcilesTo(c, name, format, env, content, r)
    ensures WebhookPromise(r, name, content) <==>
            || DecidesWebhook(c.world.policy.value, c.world.bundle, env)
            || !SaysWebhookReady(c.world) || HasItsWebhook(r, name, content)
  {
    hide Reconciled;
    WebhookView(c.world, format, env);
  }

  /** The steps that end the promise where it holds. */
  ghost predicate EndsWebhookPromise(c: Cluster, name: string, step: Step, content: Content, r: Cluster) {
    && SaysWebhookReady(c.world)
    && var spec := c.world.policy.value.spec;
       match step
       case Edit(edited) => edited.ptype != spec.ptype || content(edited) != content(spec)
       case Reconcile(env) =>
         && BundleIsBad(c.world.policy.value, c.world.bundle, env)
         && W.Owned(Right(r, spec.ptype), name) == {}
       case _ => false
  }

  /** Deletions keep a sole configuration in sync until it goes itself. */
  lemma DeletingKeepsInSync(right: W.Configs, wrong: W.Configs, right': W.Configs, wrong': W.Configs, name: string,
          content: string)
    requires W.InSync(right, wrong, name, content)
    requires W.OnlyDeletes(right, right', name) && W.OnlyDeletes(wrong, wrong', name)
    ensures W.InSync(right', wrong', name, content) <==> W.Owned(right', name) != {}
  {
    var n :| W.Owned(right, name) == {n} && right[n].content == content;
    if W.Owned(right', name) != {} {
      var k :| k in W.Owned(right', name);
      assert k in W.Owned(right, name) && W.Owned(right', name) == {n};
      assert n in right' && right'[n] == right[n];
    }
  }

  /** In sync for one spec is in sync for another exactly when they agree on kind and content. */
  lemma InSyncForOneSpec(c: Cluster, name: string, a: Spec, b: Spec, content: Content)
    requires !a.ptype.Controller? && W.InSync(Right(c, a.ptype), Wrong(c, a.ptype), name, content(a))
    ensures !b.ptype.Controller? && W.InSync(Right(c, b.ptype), Wrong(c, b.ptype), name, content(b)) <==>
            b.ptype == a.ptype && content(b) == content(a)
  {
    var n :| W.Owned(Right(c, a.ptype), name) == {n} && Right(c, a.ptype)[n].content == content(a);
    assert n in W.Owned(Right(c, a.ptype), name);
  }

  lemma EditEndsWebhookPromise(c: Cluster, name: string, format: Formatter, edited: Spec, content: Content, r: Cluster)
    requires WebhookPromise(c, name, content) && StepsTo(c, name, format, Edit(edited), content, r)
    ensures WebhookPromise(r, name, content) <==> !EndsWebhookPromise(c, name, Edit(edited), content, r)
  {
    if SaysWebhookReady(c.world) {
      InSyncForOneSpec(c, name, c.world.policy.value.spec, edited, content);
    }
  }

  lemma ReconcileEndsWebhookPromise(c: Cluster, name: string, format: Formatter, env: Env, content: Content, r: Cluster)
    requires c.world.policy.Some? && WellFormed(c.world) && WebhookPromise(c, name, content)
    requires ReconcilesTo(c, name, format, env, content, r)
    ensures WebhookPromise(r, name, content) <==> !EndsWebhookPromise(c, name, Reconcile(env), content, r)
  {
    hide Reconciled;
    var policy := c.world.policy.value;
    var ptype := policy.spec.ptype;
    WebhookPromiseAfterReconcile(c, name, format, env, content, r);
    WebhookView(c.world, format, env);
    if SaysWebhookReady(c.world) && BundleIsBad(policy, c.world.bundle, env) {
      DeletingKeepsInSync(Right(c, ptype), Wrong(c, ptype), Right(r, ptype), Wrong(r, ptype),
                          name, content(policy.spec));
    }
  }

  /**
   Where WebhookReady=True tells the truth, exactly two steps make it lie: an edit of kind or
   content, until it is reconciled, and a bad bundle for which the configuration was deleted,
   because WebhookReady stays True. A sync that fails does not: it leaves what is in sync alone.
   */
  lemma WebhookPromiseEndsExactly(c: Cluster, name: string, format: Formatter, step: Step, content: Content, r: Cluster)
    requires WellFormed(c.world) && WebhookPromise(c, name, content) && StepsTo(c, name, format, step, content, r)
    ensures WebhookPromise(r, name, content) <==> !EndsWebhookPromise(c, name, step, content, r)
  {
    hide Reconciled;
    if step.Edit? {
      EditEndsWebhookPromise(c, name, format, step.spec, content, r);
    } else if step.Reconcile? && c.world.policy.Some? {
      ReconcileEndsWebhookPromise(c, name, format, step.env, content, r);
    } else if step.Reconcile? {
      NobodyThere(c.world, format, step.env);
    }
  }

  // ---------------------------------------------------------------- two ways to keep lying

  /** A compiled policy that was a webhook policy and says so, retyped to a controller policy. */
  predicate IsRetyped(w: World) {
    SaysWebhookReady(w) && IsDone(w.policy.value) && w.policy.value.spec.ptype.Controller?
  }

  /** No reconciliation takes away its configurations or its WebhookReady=True. */
  lemma RetypedPolicyKeepsItsWebhooks(c: Cluster, name: string, format: Formatter, env: Env, content: Content,
          r: Cluster)
    requires WellFormed(c.world) && IsRetyped(c.world) && ReconcilesTo(c, name, format, env, content, r)
    ensures WellFormed(r.world) && IsRetyped(r.world) && SameConfigs(c, r) && !WebhookPromise(r, name, content)
  {
    hide Reconciled;
    WebhookView(c.world, format, env);
    DoneStays(c.world, format, env);
  }

  /**
   A run: a new webhook policy is compiled and synced, then edited into a source that does not
   compile. Its configuration is deleted and WebhookReady stays True.
   */
  lemma BrokenPolicyStaysWebhookReady(bundle: Option<Bundle>, validating: W.Configs, mutating: W.Configs, name: string,
          format: Formatter, content: Content, spec: Spec, first: Env, synced: Cluster, bad: Spec, sees: Env,
          r: Cluster)
    requires !spec.ptype.Controller? && HashBundle(spec.source) != NoDigest && Compiles(first, spec.source)
             && first.webhook.WebhookSynced?
    requires ReconcilesTo(Cluster(Do(Fresh(bundle), format, Create(spec)), validating, mutating), name, format, first,
             content, synced)
    requires HashBundle(bad.source) != NoDigest && bad.source != spec.source && sees.compiled(bad.source).Err?
             && sees.webhooksDeleted
    requires ReconcilesTo(synced.(world := Do(synced.world, format, Edit(bad))), name, format, sees, content, r)
    ensures SaysWebhookReady(r.world) && W.Owned(r.validating, name) == {} && W.Owned(r.mutating, name) == {}
    ensures !WebhookPromise(r, name, content)
  {
    hide Reconciled;
    var created := Do(Fresh(bundle), format, Create(spec));
    CompilingIsDone(created, format, first);
    BundleView(created, format, first);
    WebhookView(created, format, first);
    var edited := Do(synced.world, format, Edit(bad));
    WebhookView(edited, format, sees);
  }
}
