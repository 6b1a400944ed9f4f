/**
 The map of shared informers (pkg/cache/informers_map.go): every lock-protected region is one
 atomic step, and callers of `Get`, deletions and the one `Start` interleave freely. Informers
 are identities; closing a stop channel and running an informer are counted, so that a second
 close or a second run would show.
 */
module InformersMap {
  import opened Prelude
  import opened Gvks

  type InformerId = nat

  datatype Informer = Informer(gvk: GVK, closes: nat, runs: nat)

  /** The informers ever created, the map from kinds to them, and the `started` flag. */
  datatype State = State(informers: seq<Informer>, entries: map<GVK, InformerId>, started: bool)

  const EMPTY := State([], map[], false)

  /**
   What a caller of `Get` meets: the kind cannot be mapped or listed, the wait for the first sync
   is cut short, or neither.
   */
  datatype Answer = Unavailable | Unsynced | Available

  /** Asked for an informer now, the map has one, or can make one, and does not time out. */
  predicate CanHave(s: State, gvk: GVK, answer: Answer) {
    (gvk in s.entries || !answer.Unavailable?) && !(s.started && answer.Unsynced?)
  }

  // ---------------------------------------------------------------- the atomic regions

  /** `addInformerToMap` when nothing goes wrong: look again, then create. */
  function AddInformer(s: State, gvk: GVK): State {
    if gvk in s.entries then s
    else State(s.informers + [Informer(gvk, 0, if s.started then 1 else 0)], s.entries[gvk := |s.informers|], s.started)
  }

  function DeleteInformer(s: State, gvk: GVK): State {
    if gvk !in s.entries || s.entries[gvk] >= |s.informers| then s
    else
      var i := s.entries[gvk];
      s.(informers := s.informers[i := s.informers[i].(closes := s.informers[i].closes + 1)],
         entries := s.entries - {gvk})
  }

  predicate Mapped(s: State, i: InformerId) {
    i < |s.informers| && s.informers[i].gvk in s.entries && s.entries[s.informers[i].gvk] == i
  }

  /** The first region of `Start`: run what is mapped, then let later additions run at once. */
  function StartInformers(s: State): State {
    s.(informers := seq(|s.informers|, i requires 0 <= i < |s.informers| =>
                        if Mapped(s, i) then s.informers[i].(runs := s.informers[i].runs + 1) else s.informers[i]),
       started := true)
  }

  /** The second region of `Start`, after its context is done: stop what is mapped. */
  function StopInformers(s: State): State {
    s.(informers := seq(|s.informers|, i requires 0 <= i < |s.informers| =>
                        if Mapped(s, i) then s.informers[i].(closes := s.informers[i].closes + 1) else s.informers[i]),
       entries := map[])
  }

  // ---------------------------------------------------------------- the representation invariant

  /**
   An informer is mapped, under its own kind, exactly while its channel is open; no channel is
   closed twice; no informer runs twice, none before the start, and every mapped one after it.
   */
  ghost predicate Sound(s: State) {
    && (forall g :: g in s.entries ==> s.entries[g] < |s.informers| && s.informers[s.entries[g]].gvk == g)
    && (forall i :: 0 <= i < |s.informers| ==>
          && (Mapped(s, i) <==> s.informers[i].closes == 0)
          && s.informers[i].closes <= 1
          && s.informers[i].runs <= 1
          && (!s.started ==> s.informers[i].runs == 0)
          && (s.started && Mapped(s, i) ==> s.informers[i].runs == 1))
  }

  lemma AddKeepsSound(s: State, gvk: GVK)
    requires Sound(s)
    ensures Sound(AddInformer(s, gvk)) && gvk in AddInformer(s, gvk).entries
    ensures gvk in s.entries ==> AddInformer(s, gvk) == s
    ensures forall i :: Mapped(s, i) ==> Mapped(AddInformer(s, gvk), i)
    ensures var n := AddInformer(s, gvk);
            && n.started == s.started && n.entries.Keys == s.entries.Keys + {gvk}
            && s.informers <= n.informers && |n.informers| <= |s.informers| + 1
  {
    var n := AddInformer(s, gvk);
    forall i | 0 <= i < |s.informers| ensures Mapped(n, i) == Mapped(s, i) {
    }
  }

  lemma DeleteKeepsSound(s: State, gvk: GVK)
    requires Sound(s)
    ensures Sound(DeleteInformer(s, gvk)) && DeleteInformer(s, gvk).entries == s.entries - {gvk}
    ensures var n := DeleteInformer(s, gvk);
            && n.started == s.started && |n.informers| == |s.informers|
            && forall i :: 0 <= i < |s.informers| ==>
                 n.informers[i] == if gvk in s.entries && i == s.entries[gvk] then s.informers[i].(closes := 1)
                                   else s.informers[i]
  {
    var n := DeleteInformer(s, gvk);
    if gvk in s.entries {
      forall i | 0 <= i < |s.informers| ensures Mapped(n, i) == (Mapped(s, i) && i != s.entries[gvk]) {
      }
    } else {
      assert s.entries - {gvk} == s.entries;
    }
  }

  lemma StartKeepsSound(s: State)
    requires Sound(s) && !s.started
    ensures Sound(StartInformers(s))
    ensures var n := StartInformers(s);
            && n.started && n.entries == s.entries && |n.informers| == |s.informers|
            && forall i :: 0 <= i < |s.informers| ==>
                 n.informers[i] == if Mapped(s, i) then s.informers[i].(runs := 1) else s.informers[i]
  {
    var n := StartInformers(s);
    forall i | 0 <= i < |s.informers| ensures Mapped(n, i) == Mapped(s, i) {
    }
  }

  lemma StopKeepsSound(s: State)
    requires Sound(s)
    ensures Sound(StopInformers(s))
    ensures IsStopped(s, StopInformers(s))
  {
    var n := StopInformers(s);
    forall i | 0 <= i < |s.informers| ensures !Mapped(n, i) {
    }
  }

  /** The map is empty and every informer that ever existed is closed; nothing else changed. */
  ghost predicate IsStopped(s: State, n: State) {
    && n.entries == map[] && n.started == s.started && |n.informers| == |s.informers|
    && forall i :: 0 <= i < |s.informers| ==> n.informers[i] == s.informers[i].(closes := 1)
  }

  // ---------------------------------------------------------------- interleavings

  /** A call of `Get`: before its first region, after a miss, returned. */
  datatype Caller = Missed(gvk: GVK) | Returned(gvk: GVK, informer: InformerId, ran: bool) | Failed

  /** `starter` is the goroutine of the single `Start`. */
  datatype Starter = NotStarted | Running | Stopped

  datatype System = System(state: State, callers: seq<Caller>, starter: Starter)

  datatype Step =
    | GetLookup(gvk: GVK)
    | GetAdd(caller: nat, succeeds: bool)
    /** A caller that saw `started` stops waiting for the informer to sync. */
    | GetTimeout(caller: nat)
    | Delete(gvk: GVK)
    | Start
    | Stop

  ghost function Do(s: System, step: Step): System {
    match step
    case GetLookup(g) =>
      var found := g in s.state.entries;
      s.(callers := s.callers + [if found then Returned(g, s.state.entries[g], s.state.started) else Missed(g)])
    case GetAdd(c, succeeds) =>
      if c >= |s.callers| || !s.callers[c].Missed? then s
      else
        var g := s.callers[c].gvk;
        if !succeeds && g !in s.state.entries then s.(callers := s.callers[c := Failed])
        else
          var n := AddInformer(s.state, g);
          s.(state := n, callers := s.callers[c := Returned(g, n.entries[g], n.started)])
    case GetTimeout(c) =>
      if c < |s.callers| && s.callers[c].Returned? && s.callers[c].ran then s.(callers := s.callers[c := Failed]) else s
    case Delete(g) => s.(state := DeleteInformer(s.state, g))
    case Start => if s.starter.NotStarted? then s.(state := StartInformers(s.state), starter := Running) else s
    case Stop => if s.starter.Running? then s.(state := StopInformers(s.state), starter := Stopped) else s
  }

  ghost function Run(s: System, steps: seq<Step>): System
    decreases |steps|
  {
    if steps == [] then s else Run(Do(s, steps[0]), steps[1..])
  }

  ghost predicate Inv(s: System) {
    && Sound(s.state)
    && (s.starter.NotStarted? <==> !s.state.started)
    && forall c :: 0 <= c < |s.callers| && s.callers[c].Returned? ==> IsAnswer(s.state, s.callers[c])
  }

  /** A returned informer belongs to the requested kind and was run if the caller saw `started`. */
  ghost predicate IsAnswer(s: State, c: Caller)
    requires c.Returned?
  {
    c.informer < |s.informers| && s.informers[c.informer].gvk == c.gvk && (c.ran ==> s.informers[c.informer].runs == 1)
  }

  lemma GetAddKeepsInv(s: System, c: nat, succeeds: bool)
    requires Inv(s)
    ensures Inv(Do(s, GetAdd(c, succeeds)))
  {
    if c < |s.callers| && s.callers[c].Missed? {
      hide AddInformer;
      var g := s.callers[c].gvk;
      AddKeepsSound(s.state, g);
      AddKeepsAnswers(s.state, g);
    }
  }

  lemma AddKeepsAnswers(s: State, gvk: GVK)
    requires Sound(s)
    ensures var n := AddInformer(s, gvk);
            && n.started == s.started && gvk in n.entries && Mapped(n, n.entries[gvk])
            && IsAnswer(n, Returned(gvk, n.entries[gvk], n.started))
            && forall c: Caller :: c.Returned? && IsAnswer(s, c) ==> IsAnswer(n, c)
  {
    AddKeepsSound(s, gvk);
    var n := AddInformer(s, gvk);
    assert gvk in s.entries ==> Mapped(s, s.entries[gvk]);
    assert Mapped(n, n.entries[gvk]);
    assert forall i :: 0 <= i < |s.informers| ==> n.informers[i] == s.informers[i];
  }

  lemma StepKeepsInv(s: System, step: Step)
    requires Inv(s)
    ensures Inv(Do(s, step))
  {
    match step
    case GetLookup(g) => assert g in s.state.entries ==> Mapped(s.state, s.state.entries[g]);
    case GetAdd(c, succeeds) => GetAddKeepsInv(s, c, succeeds);
    case GetTimeout(_) =>
    case Delete(g) => DeleteKeepsSound(s.state, g);
    case Start => if s.starter.NotStarted? { StartKeepsSound(s.state); }
    case Stop => StopKeepsSound(s.state);
  }

  lemma {:induction false} RunKeepsInv(s: System, steps: seq<Step>)
    requires Inv(s)
    ensures Inv(Run(s, steps))
    decreases |steps|
  {
    if steps != [] {
      StepKeepsInv(s, steps[0]);
      RunKeepsInv(Do(s, steps[0]), steps[1..]);
    }
  }

  /**
   In every interleaving of gets, deletions and one start: at most one open informer per kind,
   mapped exactly while open; no double close, no double run; after the start every mapped
   informer has been run.
   */
  lemma InformersAreExclusive(steps: seq<Step>)
    ensures var s := Run(System(EMPTY, [], NotStarted), steps).state;
            && (forall i, j ::
                  0 <= i < j < |s.informers| && s.informers[i].closes == 0 && s.informers[j].closes == 0 ==>
                    s.informers[i].gvk != s.informers[j].gvk)
            && (forall i :: 0 <= i < |s.informers| ==>
                  && (Mapped(s, i) <==> s.informers[i].closes == 0)
                  && s.informers[i].closes <= 1 && s.informers[i].runs <= 1
                  && (s.started && Mapped(s, i) ==> s.informers[i].runs == 1))
  {
    RunKeepsInv(System(EMPTY, [], NotStarted), steps);
    var s := Run(System(EMPTY, [], NotStarted), steps).state;
    forall i, j | 0 <= i < j < |s.informers| && s.informers[i].closes == 0 && s.informers[j].closes == 0
      ensures s.informers[i].gvk != s.informers[j].gvk
    {
      assert Mapped(s, i) && Mapped(s, j);
    }
  }

  /** Two callers that both missed get the same informer unless it is deleted in between. */
  lemma RacingCallersShareOneInformer(s: System, c: nat, d: nat)
    requires Inv(s) && c < |s.callers| && d < |s.callers| && c != d
    requires s.callers[c].Missed? && s.callers[d] == s.callers[c]
    ensures var n := Do(Do(s, GetAdd(c, true)), GetAdd(d, true));
            && n.callers[c].Returned? && n.callers[d] == n.callers[c]
            && n.state == AddInformer(s.state, s.callers[c].gvk)
  {
    AddKeepsSound(s.state, s.callers[c].gvk);
  }

  /**
   A call of `Get` that nobody disturbs returns the mapped informer of the kind, running if the map
   is started, and creates it if it was not there.
   */
  lemma GetReturnsTheMappedInformer(s: System, gvk: GVK)
    requires Inv(s)
    ensures var n := Do(Do(s, GetLookup(gvk)), GetAdd(|s.callers|, true));
            && n.state == AddInformer(s.state, gvk) && gvk in n.state.entries && |n.callers| == |s.callers| + 1
            && n.callers[|s.callers|] == Returned(gvk, n.state.entries[gvk], s.state.started)
            && Mapped(n.state, n.state.entries[gvk])
            && (s.state.started ==> n.state.informers[n.state.entries[gvk]].runs == 1)
            && (gvk in s.state.entries ==> Do(s, GetLookup(gvk)) == n)
  {
    AddKeepsSound(s.state, gvk);
    AddKeepsAnswers(s.state, gvk);
    assert Mapped(AddInformer(s.state, gvk), AddInformer(s.state, gvk).entries[gvk]);
  }

  /**
   A call that cannot create its informer fails and leaves no trace; one that stops waiting for its
   informer to sync fails and leaves the informer in the map.
   */
  lemma GetFailsExactly(s: System, gvk: GVK)
    requires Inv(s)
    ensures var n := Do(Do(s, GetLookup(gvk)), GetAdd(|s.callers|, false));
            && n.state == s.state && |n.callers| == |s.callers| + 1
            && (n.callers[|s.callers|].Failed? <==> gvk !in s.state.entries)
    ensures var n := Do(Do(Do(s, GetLookup(gvk)), GetAdd(|s.callers|, true)), GetTimeout(|s.callers|));
            && n.state == AddInformer(s.state, gvk) && |n.callers| == |s.callers| + 1
            && (n.callers[|s.callers|].Failed? <==> s.state.started)
  {
    GetReturnsTheMappedInformer(s, gvk);
  }

  /** `Start` runs every mapped informer, and a deletion closes the mapped informer of its kind and no other. */
  lemma StartAndDelete(s: System, gvk: GVK)
    requires Inv(s)
    ensures var n := Do(s, Start);
            s.starter.NotStarted? ==>
              && n.starter.Running? && n.state.started && n.state.entries == s.state.entries
              && forall g :: g in n.state.entries ==> n.state.informers[n.state.entries[g]].runs == 1
    ensures var n := Do(s, Delete(gvk));
            && n.state.entries == s.state.entries - {gvk} && n.callers == s.callers && n.starter == s.starter
            && |n.state.informers| == |s.state.informers|
            && forall i :: 0 <= i < |s.state.informers| ==>
                 n.state.informers[i] == if gvk in s.state.entries && i == s.state.entries[gvk]
                                         then s.state.informers[i].(closes := 1) else s.state.informers[i]
  {
    DeleteKeepsSound(s.state, gvk);
    if s.starter.NotStarted? {
      StartKeepsSound(s.state);
      assert forall g :: g in s.state.entries ==> Mapped(s.state, s.state.entries[g]);
    }
  }

  // ---------------------------------------------------------------- the end of Start

  lemma StepKeepsClosed(s: System, step: Step, i: InformerId)
    requires Inv(s) && i < |s.state.informers| && s.state.informers[i].closes == 1
    ensures i < |Do(s, step).state.informers| && Do(s, step).state.informers[i] == s.state.informers[i]
  {
    assert !Mapped(s.state, i);
    match step
    case GetAdd(c, _) => if c < |s.callers| && s.callers[c].Missed? { AddKeepsSound(s.state, s.callers[c].gvk); }
    case Delete(g) => DeleteKeepsSound(s.state, g);
    case _ =>
  }

  /** A stop channel that was closed stays closed, and its informer is never run or mapped again. */
  lemma {:induction false} RunKeepsClosed(s: System, steps: seq<Step>, i: InformerId)
    requires Inv(s) && i < |s.state.informers| && s.state.informers[i].closes == 1
    ensures var n := Run(s, steps).state;
            i < |n.informers| && n.informers[i] == s.state.informers[i] && !Mapped(n, i)
    decreases |steps|
  {
    if steps == [] {
      assert !Mapped(s.state, i);
    } else {
      StepKeepsClosed(s, steps[0], i);
      StepKeepsInv(s, steps[0]);
      RunKeepsClosed(Do(s, steps[0]), steps[1..], i);
    }
  }

  /**
   When the context of `Start` ends, every informer there is gets stopped, once, and stays so in
   every continuation.
   */
  lemma EndOfStartStopsEverything(steps: seq<Step>, later: seq<Step>)
    requires Run(System(EMPTY, [], NotStarted), steps).starter.Running?
    ensures var s := Run(System(EMPTY, [], NotStarted), steps);
            var n := Do(s, Stop);
            && n.starter.Stopped? && IsStopped(s.state, n.state)
            && var r := Run(n, later).state;
               |s.state.informers| <= |r.informers| && forall i :: 0 <= i < |s.state.informers| ==>
                 r.informers[i] == s.state.informers[i].(closes := 1) && !Mapped(r, i)
  {
    RunKeepsInv(System(EMPTY, [], NotStarted), steps);
    var s := Run(System(EMPTY, [], NotStarted), steps);
    var n := Do(s, Stop);
    StopKeepsSound(s.state);
    StepKeepsInv(s, Stop);
    var r := Run(n, later).state;
    forall i | 0 <= i < |s.state.informers|
      ensures i < |r.informers| && r.informers[i] == s.state.informers[i].(closes := 1) && !Mapped(r, i)
    {
      assert n.state.informers[i] == s.state.informers[i].(closes := 1);
      RunKeepsClosed(n, later, i);
    }
    if s.state.informers != [] {
      RunKeepsClosed(n, later, |s.state.informers| - 1);
    }
  }

  /**
   `Start` does not come back: an informer that is created after its end runs at once and is open
   until somebody deletes it.
   */
  lemma {:induction false} LateInformersRunOn(s: System, steps: seq<Step>, gvk: GVK)
    requires Inv(s) && s.starter.Stopped? && gvk in s.state.entries && Delete(gvk) !in steps
    ensures var r := Run(s, steps).state;
            && gvk in r.entries && r.entries[gvk] == s.state.entries[gvk] && Mapped(r, r.entries[gvk])
            && r.informers[r.entries[gvk]].closes == 0 && r.informers[r.entries[gvk]].runs == 1
    decreases |steps|
  {
    if steps == [] {
      assert Mapped(s.state, s.state.entries[gvk]);
    } else {
      assert steps[0] in steps;
      LateInformerStays(s, steps[0], gvk);
      StepKeepsInv(s, steps[0]);
      LateInformersRunOn(Do(s, steps[0]), steps[1..], gvk);
    }
  }

  lemma LateInformerStays(s: System, step: Step, gvk: GVK)
    requires Inv(s) && s.starter.Stopped? && gvk in s.state.entries && step != Delete(gvk)
    ensures var n := Do(s, step);
            n.starter.Stopped? && gvk in n.state.entries && n.state.entries[gvk] == s.state.entries[gvk]
  {
    match step
    case Delete(g) => DeleteKeepsSound(s.state, g);
    case _ =>
  }

  // ---------------------------------------------------------------- the imperative form

  /** `specificInformersMap`; each method is a region under its mutex. */
  class SpecificInformersMap {
    var informersByGVK: map<GVK, InformerId>
    var started: bool
    /** The informers themselves, which the source reaches through `MapEntry`. */
    var informers: seq<Informer>

    ghost function Abs(): State
      reads this
    {
      State(informers, informersByGVK, started)
    }

    ghost predicate Valid()
      reads this
    {
      Sound(Abs())
    }

    constructor ()
      ensures Valid() && Abs() == EMPTY
    {
      informersByGVK, started, informers := map[], false, [];
    }

    /**
     `Get`: the read-locked lookup, after a miss `addInformerToMap`, and once the map is started
     the wait for the informer to sync. A wait that is cut short leaves the informer in the map.
     */
    method Get(gvk: GVK, answer: Answer) returns (r: Option<InformerId>, running: bool)
      requires Valid()
      modifies this
      ensures Valid()
      ensures Abs() == if gvk in old(informersByGVK) || !answer.Unavailable? then AddInformer(old(Abs()), gvk)
                       else old(Abs())
      ensures r.None? <==> (gvk !in old(informersByGVK) && answer.Unavailable?) || (started && answer.Unsynced?)
      ensures r.Some? ==> gvk in informersByGVK && r.value == informersByGVK[gvk] && running == started
    {
      AddKeepsSound(Abs(), gvk);
      running := started;
      if gvk in informersByGVK {
        r := Some(informersByGVK[gvk]);
      } else {
        r := AddInformerToMap(gvk, !answer.Unavailable?);
        if r.None? {
          return;
        }
      }
      if running && answer.Unsynced? {
        r := None;
      }
    }

    method AddInformerToMap(gvk: GVK, succeeds: bool) returns (r: Option<InformerId>)
      requires Valid()
      modifies this
      ensures Valid()
      ensures r.None? <==> gvk !in old(informersByGVK) && !succeeds
      ensures r.None? ==> Abs() == old(Abs())
      ensures r.Some? ==>
                Abs() == AddInformer(old(Abs()), gvk) && gvk in informersByGVK && r.value == informersByGVK[gvk]
    {
      AddKeepsSound(Abs(), gvk);
      if gvk in informersByGVK {
        return Some(informersByGVK[gvk]);
      }
      if !succeeds {
        return None;
      }
      var i := |informers|;
      informers := informers + [Informer(gvk, 0, 0)];
      informersByGVK := informersByGVK[gvk := i];
      if started {
        informers := informers[i := informers[i].(runs := 1)];
      }
      assert informers == old(informers) + [Informer(gvk, 0, if started then 1 else 0)];
      r := Some(i);
    }

    method Delete(gvk: GVK)
      requires Valid()
      modifies this
      ensures Valid() && Abs() == DeleteInformer(old(Abs()), gvk)
      ensures informersByGVK == old(informersByGVK) - {gvk}
    {
      DeleteKeepsSound(Abs(), gvk);
      if gvk !in informersByGVK {
        return;
      }
      var i := informersByGVK[gvk];
      informers := informers[i := informers[i].(closes := informers[i].closes + 1)];
      informersByGVK := informersByGVK - {gvk};
    }

    /** The first region of `Start`. */
    method StartMapped()
      requires Valid() && !started
      modifies this
      ensures Valid() && Abs() == StartInformers(old(Abs()))
      ensures started && informersByGVK == old(informersByGVK) && |informers| == |old(informers)|
      ensures forall i :: 0 <= i < |informers| ==>
                informers[i] == if Mapped(old(Abs()), i) then old(informers)[i].(runs := 1) else old(informers)[i]
    {
      StartKeepsSound(Abs());
      var left := informersByGVK.Keys;
      while left != {}
        invariant informersByGVK == old(informersByGVK) && !started && left <= informersByGVK.Keys
        invariant |informers| == |old(informers)|
        invariant forall i :: 0 <= i < |informers| ==>
                    var was := old(informers)[i];
                    informers[i] == if Mapped(old(Abs()), i) && was.gvk !in left then was.(runs := was.runs + 1)
                                    else was
        decreases left
      {
        var gvk :| gvk in left;
        var i := informersByGVK[gvk];
        assert Mapped(old(Abs()), i);
        informers := informers[i := informers[i].(runs := informers[i].runs + 1)];
        left := left - {gvk};
      }
      started := true;
      assert informers == StartInformers(old(Abs())).informers;
    }

    /** The second region of `Start`. */
    method StopMapped()
      requires Valid()
      modifies this
      ensures Valid() && Abs() == StopInformers(old(Abs())) && IsStopped(old(Abs()), Abs())
    {
      var left := informersByGVK.Keys;
      while left != {}
        invariant started == old(started) && left <= old(informersByGVK).Keys
        invariant informersByGVK == old(informersByGVK) - (old(informersByGVK).Keys - left)
        invariant |informers| == |old(informers)|
        invariant forall i :: 0 <= i < |informers| ==>
                    var was := old(informers)[i];
                    informers[i] == if Mapped(old(Abs()), i) && was.gvk !in left then was.(closes := was.closes + 1)
                                    else was
        decreases left
      {
        var gvk :| gvk in left;
        var i := informersByGVK[gvk];
        assert Mapped(old(Abs()), i);
        informers := informers[i := informers[i].(closes := informers[i].closes + 1)];
        informersByGVK := informersByGVK - {gvk};
        left := left - {gvk};
      }
      assert informers == StopInformers(old(Abs())).informers;
      StopKeepsSound(old(Abs()));
    }
  }

  /** `informerCache`: the map plus a last-used clock (pkg/cache/cache.go). */
  class InformerCache {
    const informersMap: SpecificInformersMap
    const cleanup: int
    var lastUsed: map<GVK, int>

    constructor (m: SpecificInformersMap, cleanup: int)
      ensures informersMap == m && this.cleanup == cleanup && lastUsed == map[]
    {
      informersMap := m;
      this.cleanup := cleanup;
      lastUsed := map[];
    }

    predicate Expired(gvk: GVK, now: int)
      reads this
    {
      gvk in lastUsed && lastUsed[gvk] + cleanup < now
    }

    /**
     `Get` and `List` of the cache: they may create the informer, and mark it as used if the
     cache has been started and the informer has synced. Otherwise they end in an error, and an
     informer they created stays.
     */
    method Use(gvk: GVK, answer: Answer, now: int) returns (ok: bool)
      requires informersMap.Valid()
      modifies this, informersMap
      ensures informersMap.Valid()
      ensures informersMap.Abs() ==
              if gvk in old(informersMap.informersByGVK) || !answer.Unavailable?
              then AddInformer(old(informersMap.Abs()), gvk)
              else old(informersMap.Abs())
      ensures ok <==>
                && informersMap.started && !answer.Unsynced?
                && (gvk in old(informersMap.informersByGVK) || !answer.Unavailable?)
      ensures lastUsed == if ok then old(lastUsed)[gvk := now] else old(lastUsed)
    {
      var i, running := informersMap.Get(gvk, answer);
      ok := i.Some? && running;
      if ok {
        lastUsed := lastUsed[gvk := now];
      }
    }

    /** Stops and forgets exactly the informers that expired and are not excluded. */
    method GarbageCollectInformers(exclude: set<GVK>, now: int)
      requires informersMap.Valid()
      modifies this, informersMap
      ensures informersMap.Valid()
      ensures informersMap.informersByGVK ==
              old(informersMap.informersByGVK) - (set g | g in old(lastUsed) && g !in exclude && old(Expired(g, now)))
      ensures lastUsed == old(lastUsed) - (set g | g in old(lastUsed) && g !in exclude && old(Expired(g, now)))
      ensures forall g :: g in old(lastUsed) ==> (g in lastUsed <==> g in exclude || now <= old(lastUsed)[g] + cleanup)
      ensures informersMap.started == old(informersMap.started)
      ensures |informersMap.informers| == |old(informersMap.informers)|
      ensures forall i :: 0 <= i < |informersMap.informers| ==>
              informersMap.informers[i].gvk == old(informersMap.informers)[i].gvk
    {
      ghost var collected := set g | g in lastUsed && g !in exclude && Expired(g, now);
      var left := lastUsed.Keys;
      while left != {}
        invariant informersMap.Valid() && left <= old(lastUsed).Keys
        invariant informersMap.informersByGVK == old(informersMap.informersByGVK) - (collected - left)
        invariant lastUsed == old(lastUsed) - (collected - left)
        invariant informersMap.started == old(informersMap.started)
        invariant |informersMap.informers| == |old(informersMap.informers)|
        invariant forall i :: 0 <= i < |informersMap.informers| ==>
                  informersMap.informers[i].gvk == old(informersMap.informers)[i].gvk
        decreases left
      {
        var gvk :| gvk in left;
        assert gvk in lastUsed && lastUsed[gvk] == old(lastUsed)[gvk];
        if gvk !in exclude && lastUsed[gvk] + cleanup < now {
          informersMap.Delete(gvk);
          lastUsed := lastUsed - {gvk};
          assert collected - (left - {gvk}) == (collected - left) + {gvk};
        } else {
          assert collected - (left - {gvk}) == collected - left;
        }
        left := left - {gvk};
      }
      assert collected - {} == collected;
    }
  }
}
