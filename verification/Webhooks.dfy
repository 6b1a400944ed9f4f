/**
 The webhook configurations of a policy: `syncWebhook` and `deletePolicyWebhooks`
 (pkg/controllers/jspolicy.go). Lists by owner are accurate and come in any order; every
 single API call may fail.
 */
module Webhooks {
  import opened Prelude
  import R = Reconciler

  /** A configuration: the JsPolicy that controls it, if any, and what it says. */
  datatype Config = Config(owner: Option<string>, content: string)

  type Configs = map<string, Config>

  /** How the API server answers: two lists, deletions by name, and the final apply. */
  datatype Api = Api(firstList: bool, secondList: bool, deletes: string -> bool, applied: Result<(), string>)

  function Owned(m: Configs, policy: string): set<string> {
    set n | n in m && m[n].owner == Some(policy)
  }

  /** Whatever others own, or nobody, is as it was. */
  ghost predicate OthersKept(was: Configs, now: Configs, policy: string) {
    forall n :: (n in was && was[n].owner != Some(policy)) || (n in now && now[n].owner != Some(policy)) ==>
      n in was && n in now && now[n] == was[n]
  }

  /** Nothing but configurations of the policy went, and nothing came. */
  ghost predicate OnlyDeletes(was: Configs, now: Configs, policy: string) {
    && OthersKept(was, now, policy)
    && Owned(now, policy) <= Owned(was, policy)
    && forall n :: n in now ==> n in was && now[n] == was[n]
  }

  lemma DeleteOne(was: Configs, now: Configs, policy: string, name: string)
    requires OnlyDeletes(was, now, policy) && name in Owned(was, policy)
    ensures OnlyDeletes(was, now - {name}, policy) && Owned(now - {name}, policy) == Owned(now, policy) - {name}
  {
  }

  /** `List` by owner. */
  method ListOwned(m: Configs, policy: string) returns (items: seq<string>)
    ensures forall n :: n in items <==> n in Owned(m, policy)
    ensures forall i, j :: 0 <= i < j < |items| ==> items[i] != items[j]
  {
    items := [];
    var left := Owned(m, policy);
    while left != {}
      invariant left <= Owned(m, policy)
      invariant forall n :: n in items <==> n in Owned(m, policy) - left
      invariant forall i, j :: 0 <= i < j < |items| ==> items[i] != items[j]
      decreases left
    {
      var n :| n in left;
      assert n !in items;
      items := items + [n];
      left := left - {n};
    }
  }

  /** Of `items[start..]` those before `k` can be deleted, and `k` is the end or the first that cannot. */
  ghost predicate StopsAt(items: seq<string>, start: nat, deletes: string -> bool, k: nat) {
    && start <= k <= |items|
    && (forall j :: start <= j < k ==> deletes(items[j]))
    && (k < |items| ==> !deletes(items[k]))
  }

  /** What cannot be deleted is still there. */
  ghost predicate RefusedStay(was: Configs, now: Configs, deletes: string -> bool) {
    forall n :: n in was && !deletes(n) ==> n in now && now[n] == was[n]
  }

  /** The deletion loops: everything up to the first refusal goes, and nothing else. */
  method DeleteFrom(m: Configs, policy: string, items: seq<string>, start: nat, deletes: string -> bool)
    returns (now: Configs, ok: bool)
    requires start <= |items| && forall n :: n in items ==> n in Owned(m, policy)
    ensures OnlyDeletes(m, now, policy) && RefusedStay(m, now, deletes)
    ensures ok <==> forall n :: n in items[start..] ==> deletes(n)
    ensures ok ==> Owned(now, policy) == Owned(m, policy) - (set n | n in items[start..])
    ensures exists k: nat :: StopsAt(items, start, deletes, k) && now == m - (set n | n in items[start..k])
  {
    now := m;
    assert items[start..start] == [];
    for i := start to |items|
      invariant OnlyDeletes(m, now, policy) && RefusedStay(m, now, deletes)
      invariant forall j :: start <= j < i ==> deletes(items[j])
      invariant now == m - (set n | n in items[start..i])
      invariant Owned(now, policy) == Owned(m, policy) - (set n | n in items[start..i])
    {
      assert items[start..i + 1] == items[start..i] + [items[i]];
      assert items[i] in items[start..];
      if !deletes(items[i]) {
        assert StopsAt(items, start, deletes, i);
        return now, false;
      }
      DeleteOne(m, now, policy, items[i]);
      now := now - {items[i]};
    }
    assert items[start..|items|] == items[start..];
    assert StopsAt(items, start, deletes, |items|);
    ok := true;
  }

  /**
   The policy has exactly one configuration of the kind `right`, says `content`, and none of the
   other kind.
   */
  ghost predicate InSync(right: Configs, wrong: Configs, policy: string, content: string) {
    && Owned(wrong, policy) == {}
    && exists n :: Owned(right, policy) == {n} && right[n].content == content
  }

  /** What a sync does to the policy's configurations, whichever way it ends. */
  ghost predicate SyncsTo(right: Configs, wrong: Configs, policy: string, content: string,
          right': Configs, wrong': Configs, outcome: R.WebhookOutcome) {
    && OnlyDeletes(wrong, wrong', policy)
    && (!outcome.WebhookSynced? ==> OnlyDeletes(right, right', policy))
    && (outcome.WebhookSynced? ==> InSync(right', wrong', policy, content))
    && (InSync(right, wrong, policy, content) ==> right' == right && wrong' == wrong)
  }

  /**
   How a sync ended, from the answers of the API server: it succeeds only if both lists, the apply
   and every deletion it needed did; nothing that may not be deleted goes, and a failing list ends
   it before anything more is done.
   */
  ghost predicate IsExplained(right: Configs, wrong: Configs, policy: string, right': Configs, wrong': Configs,
          api: Api, outcome: R.WebhookOutcome) {
    && RefusedStay(wrong, wrong', api.deletes)
    && (forall n :: n in right && !api.deletes(n) ==> n in right')
    && (!api.firstList ==> right' == right && wrong' == wrong)
    && (!api.secondList ==> right' == right)
    && (outcome.WebhookListOrDeleteFailed? <==>
          || !api.firstList || !api.secondList
          || (exists n :: n in Owned(wrong, policy) && !api.deletes(n)) || |Owned(right', policy)| > 1)
    && (outcome.WebhookListOrDeleteFailed? && api.firstList && api.secondList ==>
          exists n :: n in Owned(right, policy) + Owned(wrong, policy) && !api.deletes(n))
    && (!outcome.WebhookListOrDeleteFailed? ==>
          outcome == if api.applied.Ok? then R.WebhookSynced else R.WebhookApplyFailed(api.applied.error))
    && (outcome.WebhookApplyFailed? ==> Owned(wrong', policy) == {})
  }

  /** What deleting all of the policy's configurations does, whether it ends well or not. */
  ghost predicate DeletesTo(validating: Configs, mutating: Configs, policy: string,
          validating': Configs, mutating': Configs, ok: bool) {
    && OnlyDeletes(validating, validating', policy) && OnlyDeletes(mutating, mutating', policy)
    && (ok ==> Owned(validating', policy) == {} && Owned(mutating', policy) == {})
  }

  /** `apply.Apply`: create or overwrite. */
  function Apply(m: Configs, name: string, policy: string, content: string): Configs {
    m[name := Config(Some(policy), content)]
  }

  /**
   `syncWebhook` for either kind: `right` are the configurations of the policy's kind, `wrong`
   those of the other. `suffix` is the random string of a new name.
   */
  method Sync(right: Configs, wrong: Configs, policy: string, content: string, suffix: string, api: Api)
    returns (right': Configs, wrong': Configs, outcome: R.WebhookOutcome)
    ensures SyncsTo(right, wrong, policy, content, right', wrong', outcome)
    ensures IsExplained(right, wrong, policy, right', wrong', api, outcome)
    ensures api.firstList && api.secondList && api.applied.Ok?
            && (forall n :: n in Owned(right, policy) + Owned(wrong, policy) ==> api.deletes(n))
            ==> outcome.WebhookSynced?
    ensures outcome.WebhookSynced? && Owned(right, policy) != {} ==>
              Owned(right', policy) <= Owned(right, policy) && OthersKept(right, right', policy)
    ensures outcome.WebhookSynced? && Owned(right, policy) == {} ==>
              right' == Apply(right, policy + "-" + suffix, policy, content)
  {
    right' := right;
    var ok: bool;
    wrong', ok := RemoveAll(wrong, policy, api.firstList, api.deletes);
    if !ok {
      return right', wrong', R.WebhookListOrDeleteFailed;
    }
    var kept: Option<string>;
    right', kept, ok := KeepOne(right, policy, api.secondList, api.deletes);
    if !ok {
      return right', wrong', R.WebhookListOrDeleteFailed;
    }
    var name := if kept.Some? then kept.value else policy + "-" + suffix;
    match api.applied
    case Err(text) =>
      outcome := R.WebhookApplyFailed(text);
    case Ok(_) =>
      AppliedIsInSync(right', policy, name, content);
      right' := Apply(right', name, policy, content);
      outcome := R.WebhookSynced;
  }

  /** List the policy's configurations of one kind and delete them all. */
  method RemoveAll(m: Configs, policy: string, listed: bool, deletes: string -> bool) returns (now: Configs, ok: bool)
    ensures OnlyDeletes(m, now, policy) && RefusedStay(m, now, deletes)
    ensures ok <==> listed && forall n :: n in Owned(m, policy) ==> deletes(n)
    ensures ok ==> Owned(now, policy) == {}
    ensures !listed || Owned(m, policy) == {} ==> now == m
  {
    if !listed {
      return m, false;
    }
    var items := ListOwned(m, policy);
    assert items[0..] == items;
    now, ok := DeleteFrom(m, policy, items, 0, deletes);
    if Owned(m, policy) == {} {
      NothingDeleted(m, now, policy);
    }
  }

  lemma NothingDeleted(was: Configs, now: Configs, policy: string)
    requires OnlyDeletes(was, now, policy) && Owned(was, policy) == {}
    ensures now == was
  {
    forall n ensures n in was <==> n in now {
      assert n in was ==> n !in Owned(was, policy);
    }
  }

  /** List the policy's configurations of one kind and delete all but the first. */
  method KeepOne(m: Configs, policy: string, listed: bool, deletes: string -> bool)
    returns (now: Configs, kept: Option<string>, ok: bool)
    ensures OnlyDeletes(m, now, policy) && RefusedStay(m, now, deletes)
    ensures ok ==>
              && listed
              && Owned(now, policy) == (if kept.Some? then {kept.value} else {})
              && (kept.None? <==> Owned(m, policy) == {})
              && forall n :: n in Owned(m, policy) && kept != Some(n) ==> deletes(n)
    ensures !ok ==> !listed || (|Owned(now, policy)| > 1 && exists n :: n in Owned(m, policy) && !deletes(n))
    ensures !listed || |Owned(m, policy)| <= 1 ==> now == m
  {
    now, kept := m, None;
    if !listed {
      return now, kept, false;
    }
    var items := ListOwned(m, policy);
    ok := true;
    OneAndTheRest(m, policy, items);
    if |items| > 1 {
      now, ok := DeleteFrom(m, policy, items, 1, deletes);
      if !ok {
        TwoStay(m, now, policy, items, deletes);
        return;
      }
    }
    kept := if |items| > 0 then Some(items[0]) else None;
  }

  /** A refused deletion leaves the first configuration and the refused one. */
  lemma TwoStay(m: Configs, now: Configs, policy: string, items: seq<string>, deletes: string -> bool)
    requires |items| > 1 && !(forall n :: n in items[1..] ==> deletes(n))
    requires forall n :: n in items <==> n in Owned(m, policy)
    requires forall i, j :: 0 <= i < j < |items| ==> items[i] != items[j]
    requires exists k: nat :: StopsAt(items, 1, deletes, k) && now == m - (set n | n in items[1..k])
    ensures |Owned(now, policy)| > 1 && exists n :: n in Owned(m, policy) && !deletes(n)
  {
    var k: nat :| StopsAt(items, 1, deletes, k) && now == m - (set n | n in items[1..k]);
    var refused :| refused in items[1..] && !deletes(refused);
    assert k < |items|;
    assert items[0] in items && items[k] in items;
    assert items[0] !in items[1..k] && items[k] !in items[1..k];
    assert {items[0], items[k]} <= Owned(now, policy);
    SubsetSize({items[0], items[k]}, Owned(now, policy));
  }

  lemma OneAndTheRest(m: Configs, policy: string, items: seq<string>)
    requires forall n :: n in items <==> n in Owned(m, policy)
    requires forall i, j :: 0 <= i < j < |items| ==> items[i] != items[j]
    ensures |items| == 0 ==> Owned(m, policy) == {}
    ensures |items| > 0 ==> Owned(m, policy) - (set n | n in items[1..]) == {items[0]}
    ensures |items| > 1 ==> |Owned(m, policy)| > 1
  {
    if |items| > 0 {
      assert items == [items[0]] + items[1..];
      assert items[0] in items && items[0] !in items[1..];
      if |items| > 1 {
        assert items[1] in items;
        SubsetSize({items[0], items[1]}, Owned(m, policy));
      }
    }
  }

  lemma SubsetSize(a: set<string>, b: set<string>)
    requires a <= b
    ensures |a| <= |b|
  {
    assert b == a + (b - a);
  }

  lemma AppliedIsInSync(m: Configs, policy: string, name: string, content: string)
    requires Owned(m, policy) <= {name}
    ensures Owned(Apply(m, name, policy, content), policy) == {name}
            && Apply(m, name, policy, content)[name].content == content
    ensures name in m && m[name] == Config(Some(policy), content) ==> Apply(m, name, policy, content) == m
  {
    assert name in Owned(Apply(m, name, policy, content), policy);
  }

  // ---------------------------------------------------------------- the reconciler's view

  class Webhooks {
    var validating: Configs
    var mutating: Configs

    constructor ()
      ensures validating == map[] && mutating == map[]
    {
      validating, mutating := map[], map[];
    }

    /** `syncWebhook`: a controller policy has nothing to sync; anything but a mutating policy validates. */
    method SyncWebhook(policy: string, ptype: R.PolicyType, content: string, suffix: string,
            api: Api) returns (outcome: Option<R.WebhookOutcome>)
      modifies this
      ensures ptype.Controller? <==> outcome.None?
      ensures ptype.Controller? ==> validating == old(validating) && mutating == old(mutating)
      ensures ptype.Mutating? ==>
                && SyncsTo(old(mutating), old(validating), policy, content, mutating, validating, outcome.value)
                && IsExplained(old(mutating), old(validating), policy, mutating, validating, api, outcome.value)
      ensures ptype.Validating? ==>
                && SyncsTo(old(validating), old(mutating), policy, content, validating, mutating, outcome.value)
                && IsExplained(old(validating), old(mutating), policy, validating, mutating, api, outcome.value)
      ensures policy + "-" + suffix !in old(validating) && policy + "-" + suffix !in old(mutating) ==>
                OthersKept(old(validating), validating, policy) && OthersKept(old(mutating), mutating, policy)
    {
      match ptype {
        case Controller =>
          outcome := None;
        case Mutating =>
          var r: R.WebhookOutcome;
          mutating, validating, r := Sync(mutating, validating, policy, content, suffix, api);
          outcome := Some(r);
        case Validating =>
          var r: R.WebhookOutcome;
          validating, mutating, r := Sync(validating, mutating, policy, content, suffix, api);
          outcome := Some(r);
      }
    }

    /** `deletePolicyWebhooks`. */
    method DeletePolicyWebhooks(policy: string, api: Api) returns (ok: bool)
      modifies this
      ensures DeletesTo(old(validating), old(mutating), policy, validating, mutating, ok)
      ensures RefusedStay(old(validating), validating, api.deletes) && RefusedStay(old(mutating), mutating, api.deletes)
      ensures ok <==>
                && api.firstList && api.secondList
                && forall n :: n in Owned(old(validating), policy) + Owned(old(mutating), policy) ==> api.deletes(n)
      ensures !api.firstList || (exists n :: n in Owned(old(validating), policy) && !api.deletes(n)) ==>
                mutating == old(mutating)
      ensures !api.firstList ==> validating == old(validating)
      ensures !api.secondList ==> mutating == old(mutating)
    {
      validating, ok := RemoveAll(validating, policy, api.firstList, api.deletes);
      if ok {
        mutating, ok := RemoveAll(mutating, policy, api.secondList, api.deletes);
      }
    }
  }

  // ---------------------------------------------------------------- many policies

  /** A policy that is in sync stays so while another one is synced or cleaned up. */
  lemma SyncingOthersKeepsInSync(right: Configs, right': Configs, wrong: Configs, wrong': Configs, policy: string,
          content: string, other: string)
    requires policy != other && InSync(right, wrong, policy, content)
    requires OthersKept(right, right', other) && OthersKept(wrong, wrong', other)
    ensures InSync(right', wrong', policy, content)
  {
    var n :| Owned(right, policy) == {n} && right[n].content == content;
    assert n in Owned(right, policy);
    assert Owned(right', policy) == {n};
    assert forall k :: k in Owned(wrong', policy) ==> k in Owned(wrong, policy);
  }

  /** `random.RandomString(5)` */
  const SUFFIX_LENGTH := 5

  /** Every owned configuration carries a name that was generated for its owner. */
  ghost predicate WellNamed(m: Configs) {
    forall n :: n in m && m[n].owner.Some? ==>
      exists s: string :: |s| == SUFFIX_LENGTH && n == m[n].owner.value + "-" + s
  }

  lemma GeneratedNamesAreSeparate(p: string, q: string, s: string, t: string)
    requires |s| == |t| && p + "-" + s == q + "-" + t
    ensures p == q && s == t
  {
    assert |p| == |q|;
    assert p == (p + "-" + s)[..|p|] && q == (q + "-" + t)[..|q|];
    assert s == (p + "-" + s)[|p| + 1..] && t == (q + "-" + t)[|q| + 1..];
  }

  lemma HitsOnlyOwn(m: Configs, policy: string, suffix: string)
    requires WellNamed(m) && |suffix| == SUFFIX_LENGTH
    ensures policy + "-" + suffix in m && m[policy + "-" + suffix].owner.Some? ==>
            m[policy + "-" + suffix].owner == Some(policy)
  {
    var name := policy + "-" + suffix;
    if name in m && m[name].owner.Some? {
      var s: string :| |s| == SUFFIX_LENGTH && name == m[name].owner.value + "-" + s;
      GeneratedNamesAreSeparate(policy, m[name].owner.value, suffix, s);
    }
  }

  /** So a name generated for a policy without configurations can only hit one that no policy owns. */
  lemma GeneratedNameHitsNoPolicy(m: Configs, policy: string, suffix: string, content: string)
    requires WellNamed(m) && |suffix| == SUFFIX_LENGTH && Owned(m, policy) == {}
    ensures var name := policy + "-" + suffix;
            (name in m ==> m[name].owner.None?) && WellNamed(Apply(m, name, policy, content))
  {
    var name := policy + "-" + suffix;
    HitsOnlyOwn(m, policy, suffix);
    assert name in m && m[name].owner == Some(policy) ==> name in Owned(m, policy);
    var m' := Apply(m, name, policy, content);
    forall n | n in m' && m'[n].owner.Some?
      ensures exists s: string :: |s| == SUFFIX_LENGTH && n == m'[n].owner.value + "-" + s
    {
      if n != name {
        assert n in m && m'[n] == m[n];
      } else {
        assert |suffix| == SUFFIX_LENGTH && n == m'[n].owner.value + "-" + suffix;
      }
    }
  }
}
