/**
 One reconciliation of a JsPolicy (pkg/controllers/jspolicy.go): compile the bundle, run the
 controller or sync the webhooks, and patch the status. What the API server, the bundler and
 the controller manager answer comes in as an `Env`; webhook configurations have a module of
 their own.
 */
module Reconciler {
  import opened Prelude
  import opened Conditions
  import opened ConditionPatch
  import opened Summary
  import opened Gvks

  const BUNDLE_COMPILED := "BundleCompiled"
  const CONTROLLER_READY := "ControllerReady"
  const WEBHOOK_READY := "WebhookReady"

  /** The conditions Ready summarises, in the order in which their messages are preferred. */
  const SUMMARISED: seq<string> := [CONTROLLER_READY, WEBHOOK_READY, BUNDLE_COMPILED]

  const OWNED := ApplyOptions([READY, CONTROLLER_READY, BUNDLE_COMPILED, WEBHOOK_READY], false)

  datatype PolicyType = Mutating | Validating | Controller

  datatype Source = Source(javascript: string, dependencies: map<string, string>)

  /** Hashes are taken to be injective; the empty string is the hash of no javascript. */
  datatype Digest = NoDigest | OfSource(source: Source) | OfBundle(bytes: string)

  datatype Spec = Spec(source: Source, ptype: PolicyType, selection: Selection)

  datatype Phase = NoPhase | Synced | Failed

  datatype PolicyStatus = PolicyStatus(conditions: seq<Condition>, bundleHash: Digest, phase: Phase,
                                       reason: string, message: string)

  datatype JsPolicy = JsPolicy(spec: Spec, status: PolicyStatus)

  /** The stored bundle. */
  datatype Bundle = Bundle(bytes: string)

  /** What the controller-policy hash covers. */
  datatype Key = Key(bundleHash: Digest, selection: Selection)

  /** Everything there is to one policy name; `running`: the kinds the manager runs it for. */
  datatype World = World(policy: Option<JsPolicy>, bundle: Option<Bundle>, running: Option<set<GVK>>,
                         recorded: Option<Key>)

  datatype WebhookOutcome = WebhookSynced | WebhookListOrDeleteFailed | WebhookApplyFailed(text: string)

  /** How the outside answers during one reconciliation. */
  datatype Env = Env(
    compiled: Source -> Result<string, string>,
    bundleStored: bool,
    webhooksDeleted: bool,
    webhook: WebhookOutcome,
    started: Selection -> Result<set<GVK>, string>,
    clock: Clock,
    patchClock: Clock,
    conditionsCommitted: bool,
    statusCommitted: bool)

  // ---------------------------------------------------------------- specification

  function TrueCondition(t: string): Condition {
    Condition(t, ConditionTrue, SeverityNone, "", "", ZERO_TIME)
  }

  function FalseCondition(t: string, reason: string, message: string): Condition {
    Condition(t, ConditionFalse, SeverityError, reason, message, ZERO_TIME)
  }

  function CompileFailed(text: string): Condition {
    FalseCondition(BUNDLE_COMPILED, "CompileFailed", text)
  }

  function BundleMissing(): Condition {
    FalseCondition(BUNDLE_COMPILED, "BundleMissing", "couldn't find js policy bundle, but no javascript provided")
  }

  function StartFailed(text: string): Condition {
    FalseCondition(CONTROLLER_READY, "InitControllerPolicy", "error starting controller policy: " + text)
  }

  function SyncFailed(text: string): Condition {
    FalseCondition(WEBHOOK_READY, "SyncFailed", text)
  }

  predicate IsTrue(cs: seq<Condition>, t: string) {
    Lookup(cs, t).Some? && Lookup(cs, t).value.status.ConditionTrue?
  }

  predicate IsFalse(cs: seq<Condition>, t: string) {
    Lookup(cs, t).Some? && Lookup(cs, t).value.status.ConditionFalse?
  }

  function HashBundle(source: Source): Digest {
    if source.javascript == "" then NoDigest else OfSource(source)
  }

  /** What a reconciliation has done so far; `failed` ends it with an error. */
  datatype Progress = Progress(conditions: seq<Condition>, bundle: Option<Bundle>, running: Option<set<GVK>>,
                               recorded: Option<Key>, failed: bool)

  function Mark(p: Progress, c: Condition, env: Env): Progress {
    p.(conditions := SetCondition(p.conditions, c, env.clock(c.ctype)))
  }

  /** The bundle has to be compiled: never done, or done for another source. */
  predicate MustCompile(policy: JsPolicy) {
    || Lookup(policy.status.conditions, BUNDLE_COMPILED).None?
    || HashBundle(policy.spec.source) != policy.status.bundleHash
  }

  function Compile(policy: JsPolicy, p: Progress, env: Env): Progress {
    if HashBundle(policy.spec.source) == NoDigest then
      Mark(p, if p.bundle.None? then BundleMissing() else TrueCondition(BUNDLE_COMPILED), env)
    else if !MustCompile(policy) then p
    else
      match env.compiled(policy.spec.source)
      case Err(text) => Mark(p, CompileFailed(text), env)
      case Ok(bytes) =>
        if env.bundleStored then
          Mark(p.(bundle := Some(Bundle(bytes))), TrueCondition(BUNDLE_COMPILED), env)
        else p.(conditions := Without(p.conditions, BUNDLE_COMPILED), failed := true)
  }

  /** The key a running controller is recorded under. */
  function ControllerKey(spec: Spec, bundle: Bundle): Key {
    var hash := HashBundle(spec.source);
    Key(if hash == NoDigest then OfBundle(bundle.bytes) else hash, spec.selection)
  }

  /**
   What makes a controller start anew: another selection, another source, or, without javascript,
   another bundle.
   */
  lemma KeyChangesExactly(a: Spec, b: Spec, x: Bundle, y: Bundle)
    ensures ControllerKey(a, x) == ControllerKey(b, y) <==>
              && a.selection == b.selection
              && if a.source.javascript == "" then b.source.javascript == "" && x.bytes == y.bytes
                 else a.source == b.source
  {
  }

  function SyncController(spec: Spec, bundle: Bundle, p: Progress, env: Env): Progress {
    var key := ControllerKey(spec, bundle);
    if p.recorded != Some(key) then
      match env.started(spec.selection)
      case Ok(gvks) => Mark(p.(recorded := Some(key), running := Some(gvks)), TrueCondition(CONTROLLER_READY), env)
      case Err(text) => Mark(p.(recorded := Some(key), running := None), StartFailed(text), env)
    else if IsFalse(p.conditions, CONTROLLER_READY) then p
    else Mark(p, TrueCondition(CONTROLLER_READY), env)
  }

  function SyncWebhook(p: Progress, env: Env): Progress {
    match env.webhook
    case WebhookSynced => Mark(p, TrueCondition(WEBHOOK_READY), env)
    case WebhookListOrDeleteFailed => p.(failed := true)
    case WebhookApplyFailed(text) => Mark(p.(failed := true), SyncFailed(text), env)
  }

  /** Everything after compiling. `hadBundle`: there was a bundle when the reconciliation began. */
  function Deploy(spec: Spec, hadBundle: bool, p: Progress, env: Env): Progress {
    if p.failed then p
    else if IsFalse(p.conditions, BUNDLE_COMPILED) then
      if env.webhooksDeleted then p.(running := None) else p.(failed := true)
    else if spec.ptype.Controller? then
      if hadBundle && p.bundle.Some? then SyncController(spec, p.bundle.value, p, env) else p
    else SyncWebhook(p, env)
  }

  function Work(policy: JsPolicy, w: World, env: Env): Progress {
    Deploy(policy.spec, w.bundle.Some?,
           Compile(policy, Progress(policy.status.conditions, w.bundle, w.running, w.recorded, false), env), env)
  }

  predicate IsError(c: Condition) {
    c.status.ConditionFalse? && c.severity.SeverityError?
  }

  function FirstError(cs: seq<Condition>): (r: Option<Condition>)
    ensures r.Some? ==> exists i :: 0 <= i < |cs| && cs[i] == r.value && IsError(cs[i])
                                    && forall j :: 0 <= j < i ==> !IsError(cs[j])
    ensures r.None? <==> forall c :: c in cs ==> !IsError(c)
  {
    if cs == [] then None else if IsError(cs[0]) then Some(cs[0]) else FirstError(cs[1..])
  }

  /** The status a reconciliation wants: the phase looks at Ready as it was before the summary. */
  function Wanted(policy: JsPolicy, p: Progress, format: Formatter, env: Env): PolicyStatus {
    WantedWith(policy, p, SetSummaryOf(p.conditions, Some(SUMMARISED), format, env.clock(READY)))
  }

  function WantedWith(policy: JsPolicy, p: Progress, conditions: seq<Condition>): PolicyStatus {
    var hash := HashBundle(policy.spec.source);
    match FirstError(p.conditions)
    case Some(c) => PolicyStatus(conditions, hash, Failed, c.reason, c.message)
    case None => PolicyStatus(conditions, hash, if p.failed then Failed else Synced, "", "")
  }

  /** The patch: conditions by diff and replay, then the other fields. */
  function CommitConditions(was: seq<Condition>, wanted: seq<Condition>, env: Env): seq<Condition> {
    var merged := ApplyOps(NewPatchOps(was, wanted), was, OWNED, env.patchClock);
    if env.conditionsCommitted && merged.Ok? then merged.value else was
  }

  function Commit(was: PolicyStatus, wanted: PolicyStatus, env: Env): PolicyStatus {
    var conditions := CommitConditions(was.conditions, wanted.conditions, env);
    if env.statusCommitted then wanted.(conditions := conditions) else was.(conditions := conditions)
  }

  function Reconciled(w: World, format: Formatter, env: Env): World {
    match w.policy
    case None => w.(running := None, recorded := None)
    case Some(policy) =>
      var p := Work(policy, w, env);
      Stored(policy, p, Wanted(policy, p, format, env), env)
  }

  function Stored(policy: JsPolicy, p: Progress, wanted: PolicyStatus, env: Env): World {
    World(Some(policy.(status := Commit(policy.status, wanted, env))), p.bundle, p.running, p.recorded)
  }

  /**
   Every outcome of a reconciliation. On conditions with odd severities the summary depends on
   how the sort orders equal priorities; on all others `Reconciled` is the only one.
   */
  ghost predicate MayReconcileTo(w: World, format: Formatter, env: Env, now: World) {
    match w.policy
    case None => now == w.(running := None, recorded := None)
    case Some(policy) =>
      var p := Work(policy, w, env);
      exists conditions ::
        && IsSummarised(p.conditions, Some(SUMMARISED), format, env.clock(READY), conditions)
        && now == Stored(policy, p, WantedWith(policy, p, conditions), env)
  }

  /** The conditions a reconciliation is about to summarise have severities where they should. */
  predicate SummarisesProper(w: World, env: Env) {
    w.policy.Some? ==> Conforms(Scope(Work(w.policy.value, w, env).conditions, Some(SUMMARISED)))
  }

  lemma StoredIsAnOutcome(w: World, policy: JsPolicy, format: Formatter, env: Env, conditions: seq<Condition>)
    requires w.policy == Some(policy)
    requires var p := Work(policy, w, env);
             && IsSummarised(p.conditions, Some(SUMMARISED), format, env.clock(READY), conditions)
             && (Conforms(Scope(p.conditions, Some(SUMMARISED))) ==>
                   conditions == SetSummaryOf(p.conditions, Some(SUMMARISED), format, env.clock(READY)))
    ensures var now := Stored(policy, Work(policy, w, env), WantedWith(policy, Work(policy, w, env), conditions), env);
            MayReconcileTo(w, format, env, now) && (SummarisesProper(w, env) ==> now == Reconciled(w, format, env))
  {
  }

  // ---------------------------------------------------------------- well-formed condition lists

  /** One condition per type, in display order, severities only on False conditions. */
  ghost predicate Orderly(cs: seq<Condition>) {
    Unique(cs) && Sorted(cs) && forall t :: t in SUMMARISED && Lookup(cs, t).Some? ==> Proper(Lookup(cs, t).value)
  }

  lemma OrderlyConforms(cs: seq<Condition>)
    requires Orderly(cs)
    ensures Conforms(Scope(cs, Some(SUMMARISED)))
  {
    forall c | c in Scope(cs, Some(SUMMARISED)) ensures Proper(c) {
      LookupUnique(cs, c);
      assert c.ctype in SUMMARISED;
    }
  }

  lemma MarkIsOrderly(p: Progress, c: Condition, env: Env)
    requires Orderly(p.conditions) && Proper(c)
    ensures Orderly(Mark(p, c, env).conditions)
    ensures forall t :: Lookup(Mark(p, c, env).conditions, t) ==
                        if t == c.ctype then Some(Stamp(Lookup(p.conditions, t), c, env.clock(t)))
                        else Lookup(p.conditions, t)
  {
    SetTouchesOneType(p.conditions, c, env.clock(c.ctype));
  }

  lemma CompileIsOrderly(policy: JsPolicy, p: Progress, env: Env)
    requires Orderly(p.conditions)
    ensures Orderly(Compile(policy, p, env).conditions)
    ensures forall t :: t != BUNDLE_COMPILED ==>
              Lookup(Compile(policy, p, env).conditions, t) == Lookup(p.conditions, t)
  {
    if HashBundle(policy.spec.source) == NoDigest {
      MarkIsOrderly(p, if p.bundle.None? then BundleMissing() else TrueCondition(BUNDLE_COMPILED), env);
    } else if MustCompile(policy) {
      match env.compiled(policy.spec.source)
      case Err(text) => MarkIsOrderly(p, CompileFailed(text), env);
      case Ok(bytes) =>
        DeleteTouchesOneType(p.conditions, BUNDLE_COMPILED);
        MarkIsOrderly(p.(bundle := Some(Bundle(bytes))), TrueCondition(BUNDLE_COMPILED), env);
    }
  }

  lemma SyncControllerIsOrderly(spec: Spec, bundle: Bundle, p: Progress, env: Env)
    requires Orderly(p.conditions)
    ensures var r := SyncController(spec, bundle, p, env);
            Orderly(r.conditions) && forall t :: t != CONTROLLER_READY ==>
                Lookup(r.conditions, t) == Lookup(p.conditions, t)
  {
    MarkIsOrderly(p, TrueCondition(CONTROLLER_READY), env);
    if env.started(spec.selection).Err? {
      MarkIsOrderly(p, StartFailed(env.started(spec.selection).error), env);
    }
  }

  lemma SyncWebhookIsOrderly(p: Progress, env: Env)
    requires Orderly(p.conditions)
    ensures var r := SyncWebhook(p, env);
            Orderly(r.conditions) && forall t :: t != WEBHOOK_READY ==>
                Lookup(r.conditions, t) == Lookup(p.conditions, t)
  {
    MarkIsOrderly(p, TrueCondition(WEBHOOK_READY), env);
    if env.webhook.WebhookApplyFailed? {
      MarkIsOrderly(p, SyncFailed(env.webhook.text), env);
    }
  }

  lemma WorkIsOrderly(policy: JsPolicy, w: World, env: Env)
    requires Orderly(policy.status.conditions)
    ensures Orderly(Work(policy, w, env).conditions)
  {
    var start := Progress(policy.status.conditions, w.bundle, w.running, w.recorded, false);
    CompileIsOrderly(policy, start, env);
    var p := Compile(policy, start, env);
    SyncWebhookIsOrderly(p, env);
    if p.bundle.Some? {
      SyncControllerIsOrderly(policy.spec, p.bundle.value, p, env);
    }
  }

  // ---------------------------------------------------------------- the reconciler

  class JsPolicyReconciler {
    /** The API server. */
    var policies: map<string, JsPolicy>
    var bundles: map<string, Bundle>
    /** The controller-policy manager. */
    var running: map<string, set<GVK>>
    var controllerPolicyHash: map<string, Key>

    constructor ()
      ensures policies == map[] && bundles == map[] && running == map[] && controllerPolicyHash == map[]
    {
      policies, bundles, running, controllerPolicyHash := map[], map[], map[], map[];
    }

    static function At<T>(m: map<string, T>, name: string): Option<T> {
      if name in m then Some(m[name]) else None
    }

    function WorldOf(name: string): World
      reads this
    {
      World(At(policies, name), At(bundles, name), At(running, name), At(controllerPolicyHash, name))
    }

    function ProgressOf(name: string, draft: Setter, failed: bool): Progress
      reads this, draft
    {
      Progress(draft.conditions, At(bundles, name), At(running, name), At(controllerPolicyHash, name), failed)
    }

    /** `Reconcile`: does to its own policy what `Reconciled` says and touches no other. */
    method Reconcile(name: string, format: Formatter, env: Env)
      modifies this
      ensures MayReconcileTo(old(WorldOf(name)), format, env, WorldOf(name))
      ensures SummarisesProper(old(WorldOf(name)), env) ==> WorldOf(name) == Reconciled(old(WorldOf(name)), format, env)
      ensures forall n :: n != name ==> WorldOf(n) == old(WorldOf(n))
    {
      if name !in policies {
        running := running - {name};
        controllerPolicyHash := controllerPolicyHash - {name};
        return;
      }
      ghost var conditions := ReconcileFound(name, policies[name], format, env);
      StoredIsAnOutcome(old(WorldOf(name)), old(policies)[name], format, env, conditions);
    }

    /** The rest of `Reconcile`, for a policy that exists. */
    method ReconcileFound(name: string, policy: JsPolicy, format: Formatter,
            env: Env) returns (ghost conditions: seq<Condition>)
      requires name in policies && policies[name] == policy
      modifies this
      ensures var p := Work(policy, old(WorldOf(name)), env);
              && WorldOf(name) == Stored(policy, p, WantedWith(policy, p, conditions), env)
              && IsSummarised(p.conditions, Some(SUMMARISED), format, env.clock(READY), conditions)
              && (Conforms(Scope(p.conditions, Some(SUMMARISED))) ==>
                    conditions == SetSummaryOf(p.conditions, Some(SUMMARISED), format, env.clock(READY)))
      ensures forall n :: n != name ==> WorldOf(n) == old(WorldOf(n))
    {
      var draft := new Setter(policy.status.conditions);
      var failed := DoWork(name, policy, draft, env);
      var status := ReconcilePhase(policy, draft, failed);
      PatchPolicy(name, policy, draft, status, format, env);
      conditions := draft.conditions;
    }

    /** Everything in `Reconcile` before the deferred patch; the result is whether it ends in an error. */
    method DoWork(name: string, policy: JsPolicy, draft: Setter, env: Env) returns (failed: bool)
      requires draft.conditions == policy.status.conditions
      modifies this`bundles, this`running, this`controllerPolicyHash, draft
      ensures ProgressOf(name, draft, failed) == Work(policy, old(WorldOf(name)), env)
      ensures OthersKept(old(bundles), old(running), old(controllerPolicyHash),
                         bundles, running, controllerPolicyHash, name)
    {
      var hadBundle := name in bundles;
      failed := CompileBundle(name, policy, draft, env);
      if failed {
        return;
      }
      var compiled := draft.Get(BUNDLE_COMPILED);
      if compiled.Some? && compiled.value.status.ConditionFalse? {
        if !env.webhooksDeleted {
          return true;
        }
        running := running - {name};
        return;
      }
      if policy.spec.ptype.Controller? {
        if hadBundle && name in bundles {
          SyncControllerPolicy(name, policy, bundles[name], draft, env);
        }
        return;
      }
      match env.webhook
      case WebhookSynced =>
        var _ := draft.Set(TrueCondition(WEBHOOK_READY), env.clock(WEBHOOK_READY));
      case WebhookListOrDeleteFailed =>
        failed := true;
      case WebhookApplyFailed(text) =>
        var _ := draft.Set(SyncFailed(text), env.clock(WEBHOOK_READY));
        failed := true;
    }

    method CompileBundle(name: string, policy: JsPolicy, draft: Setter, env: Env) returns (failed: bool)
      requires draft.conditions == policy.status.conditions
      modifies this`bundles, draft
      ensures ProgressOf(name, draft, failed) == Compile(policy, old(ProgressOf(name, draft, false)), env)
      ensures forall n :: n != name ==> At(bundles, n) == At(old(bundles), n)
    {
      var hash := HashBundle(policy.spec.source);
      if hash == NoDigest {
        var c := if name in bundles then TrueCondition(BUNDLE_COMPILED) else BundleMissing();
        var _ := draft.Set(c, env.clock(BUNDLE_COMPILED));
        return false;
      }
      var has := draft.Get(BUNDLE_COMPILED);
      if has.Some? && hash == policy.status.bundleHash {
        return false;
      }
      match env.compiled(policy.spec.source)
      case Err(text) =>
        var _ := draft.Set(CompileFailed(text), env.clock(BUNDLE_COMPILED));
        return false;
      case Ok(bytes) =>
        if !env.bundleStored {
          draft.Delete(BUNDLE_COMPILED);
          return true;
        }
        bundles := bundles[name := Bundle(bytes)];
        var _ := draft.Set(TrueCondition(BUNDLE_COMPILED), env.clock(BUNDLE_COMPILED));
        return false;
    }

    method SyncControllerPolicy(name: string, policy: JsPolicy, bundle: Bundle, draft: Setter, env: Env)
      modifies this`running, this`controllerPolicyHash, draft
      ensures ProgressOf(name, draft, false) ==
              SyncController(policy.spec, bundle, old(ProgressOf(name, draft, false)), env)
      ensures forall n :: n != name ==>
                At(running, n) == At(old(running), n) && At(controllerPolicyHash, n) == At(old(controllerPolicyHash), n)
    {
      var key := ControllerKey(policy.spec, bundle);
      if name !in controllerPolicyHash || controllerPolicyHash[name] != key {
        controllerPolicyHash := controllerPolicyHash[name := key];
        match env.started(policy.spec.selection) {
          case Err(text) =>
            running := running - {name};
            var _ := draft.Set(StartFailed(text), env.clock(CONTROLLER_READY));
            return;
          case Ok(gvks) =>
            running := running[name := gvks];
        }
      } else {
        var ready := draft.Get(CONTROLLER_READY);
        if ready.Some? && ready.value.status.ConditionFalse? {
          return;
        }
      }
      var _ := draft.Set(TrueCondition(CONTROLLER_READY), env.clock(CONTROLLER_READY));
    }

    /** The status fields but for the conditions: `reconcilePhase`, then the bundle hash. */
    method ReconcilePhase(policy: JsPolicy, draft: Setter, failed: bool) returns (status: PolicyStatus)
      ensures status.conditions == draft.conditions && status.bundleHash == HashBundle(policy.spec.source)
      ensures status.phase == (if failed || FirstError(draft.conditions).Some? then Failed else Synced)
      ensures match FirstError(draft.conditions)
              case Some(c) => status.reason == c.reason && status.message == c.message
              case None => status.reason == "" && status.message == ""
    {
      var phase := if failed then Failed else Synced;
      var reason, message := "", "";
      var cs := draft.conditions;
      for i := 0 to |cs|
        invariant FirstError(cs) == FirstError(cs[i..])
        invariant phase == (if failed then Failed else Synced) && reason == "" && message == ""
      {
        assert cs[i..][1..] == cs[i + 1..];
        if cs[i].status.ConditionFalse? && cs[i].severity.SeverityError? {
          phase, reason, message := Failed, cs[i].reason, cs[i].message;
          return PolicyStatus(cs, HashBundle(policy.spec.source), phase, reason, message);
        }
      }
      status := PolicyStatus(cs, HashBundle(policy.spec.source), phase, reason, message);
    }

    /** `patchPolicy`: summarise into Ready, then patch what changed. */
    method PatchPolicy(name: string, policy: JsPolicy, draft: Setter, status: PolicyStatus, format: Formatter, env: Env)
      modifies this`policies, draft
      ensures IsSummarised(old(draft.conditions), Some(SUMMARISED), format, env.clock(READY), draft.conditions)
      ensures Conforms(Scope(old(draft.conditions), Some(SUMMARISED))) ==>
                draft.conditions == SetSummaryOf(old(draft.conditions), Some(SUMMARISED), format, env.clock(READY))
      ensures policies == old(policies)[name := policy.(status :=
                Commit(policy.status, status.(conditions := draft.conditions), env))]
    {
      SetSummary(draft, Some(SUMMARISED), format, env.clock(READY));
      var conditions := PatchConditions(policy.status.conditions, draft, env);
      var committed := if env.statusCommitted then status else policy.status;
      policies := policies[name := policy.(status := committed.(conditions := conditions))];
    }

    static method PatchConditions(was: seq<Condition>, draft: Setter, env: Env) returns (conditions: seq<Condition>)
      ensures conditions == CommitConditions(was, draft.conditions, env)
    {
      var before := new Setter(was);
      var latest := new Setter(was);
      var patch := NewPatch(before, draft);
      var conflict := patch.Apply(latest, OWNED, env.patchClock);
      conditions := if env.conditionsCommitted && conflict.None? then latest.conditions else was;
    }

    static ghost predicate OthersKept(b: map<string, Bundle>, r: map<string, set<GVK>>, h: map<string, Key>,
            b': map<string, Bundle>, r': map<string, set<GVK>>, h': map<string, Key>, name: string) {
      forall n :: n != name ==> At(b', n) == At(b, n) && At(r', n) == At(r, n) && At(h', n) == At(h, n)
    }
  }
}
