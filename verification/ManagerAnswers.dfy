/**
 The reconciler's view of the manager: what a successful `Update` says about the kinds a policy is
 run for (pkg/controllers/jspolicy.go, pkg/controller/manager.go).
 */
module ManagerAnswers {
  import opened Prelude
  import opened Gvks
  import I = InformersMap
  import M = Manager
  import opened Summary
  import opened Reconciler
  import opened ReconcilerLaws
  import opened ControllerLaws

  /** `gvks` are the first matches of every selected group-kind, as the mapper answers. */
  ghost predicate SelectsSet(sel: Selection, kindsFor: KindsFor, gvks: set<GVK>) {
    sel.resources != [] && Candidates(sel.resources, kindsFor).Ok? &&
    forall g :: g in gvks <==> FirstMatch(Candidates(sel.resources, kindsFor).value, sel, g)
  }

  /** The mapper may answer differently at different times: `answered` holds of each of its states. */
  ghost predicate SelectsUnder(answered: KindsFor -> bool, sel: Selection, gvks: set<GVK>) {
    exists kindsFor :: answered(kindsFor) && SelectsSet(sel, kindsFor, gvks)
  }

  ghost function ManagerSelecting(answered: KindsFor -> bool): Selecting {
    (sel: Selection, gvks: set<GVK>) => SelectsUnder(answered, sel, gvks)
  }

  /**
   The manager's part of `syncControllerPolicy`: update, and forget the policy if that fails. A
   success is one that `ManagerSelecting` allows, so an environment that answers with this method
   is honest.
   */
  method StartController(m: M.PolicyManager, name: string, sel: Selection, kindsFor: KindsFor, answers: GVK -> I.Answer,
          requeueError: Option<string>) returns (r: Result<set<GVK>, M.UpdateError>)
    requires m.Valid()
    modifies m, m.created, m.cache.informersMap
    ensures m.Valid()
    ensures r.Ok? ==>
              && name in m.policies && r.value == Elements(m.policies[name].gvks)
              && forall answered: KindsFor -> bool :: answered(kindsFor) ==> ManagerSelecting(answered)(sel, r.value)
    ensures r.Err? ==> name !in m.policies
    ensures r.Ok? <==>
              && M.SelectsSome(sel, kindsFor)
              && if name in old(m.policies) && M.Selects(sel, kindsFor, old(m.policies)[name].gvks)
                 then requeueError.None?
                 else forall g :: FirstMatch(Candidates(sel.resources, kindsFor).value, sel, g) ==>
                   old(m.CanWatch(g, answers(g)))
  {
    var err := m.Update(name, sel, kindsFor, true, answers, requeueError);
    if err.Some? {
      m.Delete(name);
      return Err(err.value);
    }
    var gvks := m.policies[name].gvks;
    r := Ok(Elements(gvks));
    SelectsElements(sel, kindsFor, gvks);
  }

  lemma SelectsElements(sel: Selection, kindsFor: KindsFor, gvks: seq<GVK>)
    requires M.Selects(sel, kindsFor, gvks)
    ensures SelectsSet(sel, kindsFor, Elements(gvks))
  {
    assert forall g :: g in gvks <==> g in Elements(gvks);
  }

  /**
   ControllerReady end to end: in every run without a step that breaks, the manager runs a ready
   policy for exactly the first matches of the selection whose hash was recorded, in some state of
   the mapper.
   */
  lemma ReadyControllersWatchTheirSelection(bundle: Option<Bundle>, format: Formatter, steps: seq<Step>,
          answered: KindsFor -> bool)
    requires NeverBreaks(Fresh(bundle), format, steps, ManagerSelecting(answered))
    ensures var w := Run(Fresh(bundle), format, steps);
            w.policy.Some? && IsTrue(w.policy.value.status.conditions, CONTROLLER_READY) ==>
              && w.running.Some? && w.recorded.Some?
              && exists kindsFor ::
                   answered(kindsFor) && SelectsSet(w.recorded.value.selection, kindsFor, w.running.value)
  {
    ReadyControllersRun(bundle, format, steps, ManagerSelecting(answered));
  }
}
