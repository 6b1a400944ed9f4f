/**
 The controller-policy manager and its event handlers (pkg/controller/manager.go,
 pkg/controller/handler.go) on top of the garbage-collected informer cache. Each public method
 holds the manager's lock for its whole duration and is one atomic step. `Valid` is kept by
 every one of them, so it holds in every state the manager can reach before it is shut down.
 */
module Manager {
  import opened Prelude
  import opened Gvks
  import I = InformersMap

  /** A policy controller: the goroutine started for one registration of a policy. */
  datatype Controller = Controller(name: string, gvks: seq<GVK>, generation: nat)

  /** The manager's record of a registered policy. */
  datatype Policy = Policy(controller: Controller, gvks: seq<GVK>)

  function WithoutName(cs: seq<Controller>, name: string): seq<Controller> {
    if cs == [] then []
    else
      var last := cs[|cs| - 1];
      WithoutName(cs[..|cs| - 1], name) + if last.name != name then [last] else []
  }

  /** At most one controller per policy name. */
  ghost predicate OnePerName(cs: seq<Controller>) {
    forall i, j :: 0 <= i < j < |cs| ==> cs[i].name != cs[j].name
  }

  lemma {:induction false} WithoutNameKeeps(cs: seq<Controller>, name: string)
    ensures forall c :: c in WithoutName(cs, name) <==> c in cs && c.name != name
    ensures OnePerName(cs) ==> OnePerName(WithoutName(cs, name))
  {
    if cs != [] {
      var init, last := cs[..|cs| - 1], cs[|cs| - 1];
      assert cs == init + [last];
      WithoutNameKeeps(init, name);
      var rest := WithoutName(init, name);
      forall k | 0 <= k < |rest| ensures rest[k] in init {
      }
    }
  }

  /** The controllers whose policy a lookup finds, in order. */
  function Found(cs: seq<Controller>, found: string -> bool): seq<Controller> {
    if cs == [] then []
    else
      var last := cs[|cs| - 1];
      Found(cs[..|cs| - 1], found) + if found(last.name) then [last] else []
  }

  lemma {:induction false} FoundKeeps(cs: seq<Controller>, found: string -> bool)
    ensures forall c :: c in Found(cs, found) <==> c in cs && found(c.name)
    ensures OnePerName(cs) ==> OnePerName(Found(cs, found))
  {
    if cs != [] {
      var init, last := cs[..|cs| - 1], cs[|cs| - 1];
      assert cs == init + [last];
      FoundKeeps(init, found);
      var rest := Found(init, found);
      forall k | 0 <= k < |rest| ensures rest[k] in init {
      }
    }
  }

  /** Removal and delivery go controller by controller and keep the order they were added in. */
  lemma {:induction false} HandlersKeepOrder(a: seq<Controller>, b: seq<Controller>, name: string,
          found: string -> bool)
    ensures WithoutName(a + b, name) == WithoutName(a, name) + WithoutName(b, name)
    ensures Found(a + b, found) == Found(a, found) + Found(b, found)
  {
    if b == [] {
      assert a + b == a;
    } else {
      var init, last := b[..|b| - 1], b[|b| - 1];
      assert (a + b)[..|a + b| - 1] == a + init && (a + b)[|a + b| - 1] == last;
      HandlersKeepOrder(a, init, name, found);
      Associate(WithoutName(a, name), WithoutName(init, name), if last.name != name then [last] else []);
      Associate(Found(a, found), Found(init, found), if found(last.name) then [last] else []);
    }
  }

  class Handler {
    var policies: seq<Controller>

    constructor ()
      ensures policies == []
    {
      policies := [];
    }

    method NumPolicies() returns (n: nat)
      ensures n == |policies|
    {
      n := |policies|;
    }

    method RemovePolicy(name: string)
      modifies this
      ensures policies == WithoutName(old(policies), name)
    {
      var ps := policies;
      var kept: seq<Controller> := [];
      for i := 0 to |ps|
        invariant kept == WithoutName(ps[..i], name)
      {
        assert ps[..i + 1][..i] == ps[..i];
        if ps[i].name != name {
          kept := kept + [ps[i]];
        }
      }
      assert ps[..|ps|] == ps;
      policies := kept;
    }

    method AddPolicy(c: Controller)
      modifies this
      ensures policies == old(policies) + [c]
    {
      policies := policies + [c];
    }

    /** `add`: hand an event to every policy whose object the client still finds. */
    method Add(found: string -> bool) returns (reached: seq<Controller>)
      ensures reached == Found(policies, found)
    {
      reached := [];
      for i := 0 to |policies|
        invariant reached == Found(policies[..i], found)
      {
        assert policies[..i + 1][..i] == policies[..i];
        if !found(policies[i].name) {
          continue;
        }
        reached := reached + [policies[i]];
      }
      assert policies[..|policies|] == policies;
    }
  }

  /** The controllers an event reaches when it is handed to these handlers in turn. */
  ghost function Receivers(hs: seq<Handler>, found: string -> bool): seq<Controller>
    reads hs
  {
    if hs == [] then [] else Found(hs[0].policies, found) + Receivers(hs[1..], found)
  }

  lemma {:induction false} OnlyOneReceives(hs: seq<Handler>, found: string -> bool, k: nat)
    requires k < |hs| && forall i :: 0 <= i < |hs| && i != k ==> hs[i].policies == []
    ensures Receivers(hs, found) == Found(hs[k].policies, found)
  {
    if k == 0 {
      NobodyReceives(hs[1..], found);
    } else {
      assert hs[0].policies == [];
      OnlyOneReceives(hs[1..], found, k - 1);
    }
  }

  lemma {:induction false} NobodyReceives(hs: seq<Handler>, found: string -> bool)
    requires forall i :: 0 <= i < |hs| ==> hs[i].policies == []
    ensures Receivers(hs, found) == []
  {
    if hs != [] {
      NobodyReceives(hs[1..], found);
    }
  }

  /** What the handler of each kind holds. */
  ghost function ContentsOf(handlers: map<GVK, Handler>): map<GVK, seq<Controller>>
    reads handlers.Values
  {
    map g | g in handlers :: handlers[g].policies
  }

  /** The handlers that have a policy to deliver to. */
  ghost function ActiveOf(created: set<Handler>): set<Handler>
    reads created
  {
    set h | h in created && h.policies != []
  }

  // ---------------------------------------------------------------- policies and handlers

  /**
   The handler of each kind holds exactly the controllers of the registered policies that watch
   the kind, each once, and every kind of a registered policy has a handler.
   */
  ghost predicate IsRegistered(policies: map<string, Policy>, contents: map<GVK, seq<Controller>>) {
    && (forall n :: n in policies ==>
          && policies[n].controller.name == n && policies[n].controller.gvks == policies[n].gvks
          && NoRepeats(policies[n].gvks))
    && (forall n, g :: Watches(policies, n, g) ==> g in contents && policies[n].controller in contents[g])
    && (forall g :: g in contents ==> HoldsRegistered(policies, g, contents[g]))
  }

  predicate Watches(policies: map<string, Policy>, n: string, g: GVK) {
    n in policies && g in policies[n].gvks
  }

  ghost predicate HoldsRegistered(policies: map<string, Policy>, g: GVK, held: seq<Controller>) {
    && OnePerName(held)
    && forall c :: c in held ==> Watches(policies, c.name, g) && policies[c.name].controller == c
  }

  function WithController(contents: map<GVK, seq<Controller>>, c: Controller): map<GVK, seq<Controller>> {
    map g | g in contents :: if g in c.gvks then contents[g] + [c] else contents[g]
  }

  function WithoutPolicy(contents: map<GVK, seq<Controller>>, name: string): map<GVK, seq<Controller>> {
    map g | g in contents :: WithoutName(contents[g], name)
  }

  lemma RegisterKeepsRegistered(policies: map<string, Policy>, contents: map<GVK, seq<Controller>>, c: Controller)
    requires IsRegistered(policies, contents) && c.name !in policies && NoRepeats(c.gvks)
    requires forall g :: g in c.gvks ==> g in contents
    ensures IsRegistered(policies[c.name := Policy(c, c.gvks)], WithController(contents, c))
  {
    var policies' := policies[c.name := Policy(c, c.gvks)];
    var contents' := WithController(contents, c);
    forall g | g in contents' ensures HoldsRegistered(policies', g, contents'[g]) {
      assert HoldsRegistered(policies, g, contents[g]);
      RegisteredHolds(policies, g, contents[g], c);
    }
    forall n, g | Watches(policies', n, g) ensures g in contents' && policies'[n].controller in contents'[g] {
      RegisteredIsHeld(policies, contents, c, n, g);
    }
  }

  /** One handler when a new policy is registered. */
  lemma RegisteredHolds(policies: map<string, Policy>, g: GVK, held: seq<Controller>, c: Controller)
    requires HoldsRegistered(policies, g, held) && c.name !in policies
    ensures HoldsRegistered(policies[c.name := Policy(c, c.gvks)], g, if g in c.gvks then held + [c] else held)
  {
    assert forall d :: d in held ==> Watches(policies, d.name, g);
  }

  /** One watched kind when a new policy is registered. */
  lemma RegisteredIsHeld(policies: map<string, Policy>, contents: map<GVK, seq<Controller>>, c: Controller, n: string,
          g: GVK)
    requires IsRegistered(policies, contents) && c.name !in policies
    requires forall g :: g in c.gvks ==> g in contents
    requires Watches(policies[c.name := Policy(c, c.gvks)], n, g)
    ensures g in contents && policies[c.name := Policy(c, c.gvks)][n].controller in WithController(contents, c)[g]
  {
    assert n != c.name ==> Watches(policies, n, g);
  }

  lemma UnregisterKeepsRegistered(policies: map<string, Policy>, contents: map<GVK, seq<Controller>>, name: string)
    requires IsRegistered(policies, contents)
    ensures IsRegistered(policies - {name}, WithoutPolicy(contents, name))
  {
    var policies' := policies - {name};
    var contents' := WithoutPolicy(contents, name);
    forall g | g in contents' ensures HoldsRegistered(policies', g, contents'[g]) {
      assert HoldsRegistered(policies, g, contents[g]);
      WithoutNameKeeps(contents[g], name);
      forall c: Controller | c in contents'[g]
        ensures Watches(policies', c.name, g) && policies'[c.name].controller == c
      {
        assert Watches(policies, c.name, g);
      }
    }
    forall n, g | Watches(policies', n, g) ensures g in contents' && policies'[n].controller in contents'[g] {
      assert Watches(policies, n, g);
      WithoutNameKeeps(contents[g], name);
    }
  }

  ghost predicate DropsOnlyEmpty(was: map<GVK, seq<Controller>>, now: map<GVK, seq<Controller>>) {
    now.Keys <= was.Keys && forall g :: g in was ==> if g in now then now[g] == was[g] else was[g] == []
  }

  /** Only handlers that hold nothing may go. */
  lemma DropEmptyKeepsRegistered(policies: map<string, Policy>, contents: map<GVK, seq<Controller>>,
          kept: map<GVK, seq<Controller>>)
    requires IsRegistered(policies, contents)
    requires DropsOnlyEmpty(contents, kept)
    ensures IsRegistered(policies, kept)
  {
    forall n, g | Watches(policies, n, g) ensures g in kept && policies[n].controller in kept[g] {
    }
    forall g | g in kept ensures HoldsRegistered(policies, g, kept[g]) {
      assert HoldsRegistered(policies, g, contents[g]);
    }
  }

  /** Nothing but informers of some of `gvks` came in. */
  ghost predicate GainsInformers(was: I.State, now: I.State, gvks: set<GVK>) {
    now.started == was.started && was.entries.Keys <= now.entries.Keys <= was.entries.Keys + gvks
  }

  /** Nothing but empty handlers for some of `gvks` came in. */
  ghost predicate GainsOnlyEmpty(was: map<GVK, seq<Controller>>, now: map<GVK, seq<Controller>>, gvks: set<GVK>) {
    && (forall g :: g in was ==> g in now && now[g] == was[g])
    && (forall g :: g in now ==> g in was || (g in gvks && now[g] == []))
  }

  lemma GainsCompose(was: map<GVK, seq<Controller>>, mid: map<GVK, seq<Controller>>, now: map<GVK, seq<Controller>>,
          a: set<GVK>, b: set<GVK>)
    requires GainsOnlyEmpty(was, mid, a) && GainsOnlyEmpty(mid, now, b)
    ensures GainsOnlyEmpty(was, now, a + b) && mid.Keys <= now.Keys
  {
  }

  lemma NothingIsRegistered()
    ensures IsRegistered(map[], map[])
  {
  }

  lemma GainsFewer(was: map<GVK, seq<Controller>>, now: map<GVK, seq<Controller>>, a: set<GVK>, b: set<GVK>)
    requires GainsOnlyEmpty(was, now, a) && a <= b
    ensures GainsOnlyEmpty(was, now, b)
  {
  }

  /**
   Handlers for the kinds in `done` are there: they were from the start, or an informer could be
   had for them then, and nothing else came in.
   */
  ghost predicate Ensured(was: map<GVK, seq<Controller>>, now: map<GVK, seq<Controller>>, had: I.State, m: I.State,
          done: set<GVK>, answers: GVK -> I.Answer) {
    && GainsOnlyEmpty(was, now, done) && GainsInformers(had, m, done) && done <= now.Keys
    && forall g :: g in done ==> g in was || I.CanHave(had, g, answers(g))
  }

  lemma NothingEnsured(was: map<GVK, seq<Controller>>, had: I.State, answers: GVK -> I.Answer)
    ensures Ensured(was, was, had, had, {}, answers)
  {
  }

  /** Whether the next kind can be watched now is whether it could at first: handling others changes nothing. */
  lemma EnsuredGoesOn(was: map<GVK, seq<Controller>>, mid: map<GVK, seq<Controller>>, now: map<GVK, seq<Controller>>,
          had: I.State, m: I.State, n: I.State, done: set<GVK>, gvk: GVK, answers: GVK -> I.Answer)
    requires Ensured(was, mid, had, m, done, answers)
    requires GainsOnlyEmpty(mid, now, {gvk}) && GainsInformers(m, n, {gvk})
    ensures gvk in mid || I.CanHave(m, gvk, answers(gvk)) <==> gvk in was || I.CanHave(had, gvk, answers(gvk))
    ensures GainsOnlyEmpty(was, now, done + {gvk})
    ensures gvk in now && (gvk in was || I.CanHave(had, gvk, answers(gvk))) ==>
              Ensured(was, now, had, n, done + {gvk}, answers)
  {
    GainsCompose(was, mid, now, done, {gvk});
  }

  lemma AllEnsured(was: map<GVK, seq<Controller>>, now: map<GVK, seq<Controller>>, had: I.State, m: I.State,
          gvks: seq<GVK>, answers: GVK -> I.Answer)
    requires Ensured(was, now, had, m, Elements(gvks), answers)
    ensures GainsOnlyEmpty(was, now, Elements(gvks)) && Elements(gvks) <= now.Keys
    ensures forall g :: g in gvks ==> g in was || I.CanHave(had, g, answers(g))
  {
    assert forall g :: g in gvks ==> g in Elements(gvks);
  }

  lemma EmptyHandlerKeepsRegistered(policies: map<string, Policy>, contents: map<GVK, seq<Controller>>, gvk: GVK)
    requires IsRegistered(policies, contents) && gvk !in contents
    ensures IsRegistered(policies, contents[gvk := []])
  {
    assert HoldsRegistered(policies, gvk, []);
  }

  // ---------------------------------------------------------------- handlers and informers

  type Listeners = map<I.InformerId, seq<Handler>>

  function Attached(listeners: Listeners, i: I.InformerId): seq<Handler> {
    if i in listeners then listeners[i] else []
  }

  /**
   Every mapped handler is attached to the current, open informer of its kind and to no other,
   different kinds have different handlers, no handler listens twice, and only mapped handlers
   have policies: what garbage collection left behind on an informer has none.
   */
  ghost predicate IsWired(m: I.State, handlers: map<GVK, Handler>, listeners: Listeners, created: set<Handler>,
          active: set<Handler>) {
    && I.Sound(m)
    && (forall g :: g in handlers ==>
          handlers[g] in created && g in m.entries && handlers[g] in Attached(listeners, m.entries[g]))
    && (forall g, h :: g in handlers && h in handlers && g != h ==> handlers[g] != handlers[h])
    && (forall i :: i in listeners ==> i < |m.informers| && ListensWell(m, handlers, listeners[i], i, created))
    && active <= handlers.Values
  }

  ghost predicate ListensWell(m: I.State, handlers: map<GVK, Handler>, hs: seq<Handler>, i: I.InformerId,
          created: set<Handler>)
    requires i < |m.informers|
  {
    && (forall a, b :: 0 <= a < b < |hs| ==> hs[a] != hs[b])
    && (forall h :: h in hs ==> h in created)
    && (forall g :: g in handlers && handlers[g] in hs ==>
          m.informers[i].gvk == g && g in m.entries && m.entries[g] == i)
  }

  lemma AttachKeepsListening(m: I.State, handlers: map<GVK, Handler>, listeners: Listeners, created: set<Handler>,
          gvk: GVK, h: Handler, i: I.InformerId)
    requires I.Sound(m) && gvk !in handlers && h !in created && i < |I.AddInformer(m, gvk).informers|
    requires forall g :: g in handlers ==> handlers[g] in created
    requires i in listeners ==> i < |m.informers| && ListensWell(m, handlers, listeners[i], i, created)
    ensures var n := I.AddInformer(m, gvk);
            gvk in n.entries &&
            ListensWell(n, handlers[gvk := h],
                        if i == n.entries[gvk] then Attached(listeners, i) + [h] else Attached(listeners, i),
                        i, created + {h})
  {
    I.AddKeepsSound(m, gvk);
    var n := I.AddInformer(m, gvk);
    assert i < |m.informers| ==> n.informers[i] == m.informers[i];
    assert I.Mapped(n, n.entries[gvk]);
  }

  lemma AttachKeepsEntries(m: I.State, handlers: map<GVK, Handler>, listeners: Listeners, created: set<Handler>,
          active: set<Handler>, gvk: GVK, h: Handler, g: GVK)
    requires IsWired(m, handlers, listeners, created, active)
    requires gvk !in handlers && g in handlers[gvk := h]
    ensures var n := I.AddInformer(m, gvk);
            && gvk in n.entries && g in n.entries
            && handlers[gvk := h][g] in
               Attached(listeners[n.entries[gvk] := Attached(listeners, n.entries[gvk]) + [h]], n.entries[g])
  {
    assert g != gvk ==> g in m.entries && handlers[g] in Attached(listeners, m.entries[g]);
  }

  lemma ActiveStaysMapped(handlers: map<GVK, Handler>, active: set<Handler>, gvk: GVK, h: Handler)
    requires active <= handlers.Values && gvk !in handlers
    ensures active <= handlers[gvk := h].Values
  {
    forall x | x in active ensures x in handlers[gvk := h].Values {
      var g :| g in handlers && handlers[g] == x;
      assert handlers[gvk := h][g] == x;
    }
  }

  lemma AttachKeepsWired(m: I.State, handlers: map<GVK, Handler>, listeners: Listeners, created: set<Handler>,
          active: set<Handler>, gvk: GVK, h: Handler)
    requires IsWired(m, handlers, listeners, created, active)
    requires gvk !in handlers && h !in created
    ensures var n := I.AddInformer(m, gvk);
            && gvk in n.entries
            && IsWired(n, handlers[gvk := h], listeners[n.entries[gvk] := Attached(listeners, n.entries[gvk]) + [h]],
                       created + {h}, active)
  {
    I.AddKeepsSound(m, gvk);
    var n := I.AddInformer(m, gvk);
    var k := n.entries[gvk];
    var handlers' := handlers[gvk := h];
    var listeners' := listeners[k := Attached(listeners, k) + [h]];
    assert I.Mapped(n, k);
    forall i | i in listeners' ensures i < |n.informers| && ListensWell(n, handlers', listeners'[i], i, created + {h}) {
      AttachKeepsListening(m, handlers, listeners, created, gvk, h, i);
    }
    forall g | g in handlers' ensures g in n.entries && handlers'[g] in Attached(listeners', n.entries[g]) {
      AttachKeepsEntries(m, handlers, listeners, created, active, gvk, h, g);
    }
    ActiveStaysMapped(handlers, active, gvk, h);
  }

  /** Informers keep their kinds, and the informers of `spared` kinds stay mapped. */
  ghost predicate SparesInformers(m: I.State, n: I.State, spared: set<GVK>) {
    && |n.informers| == |m.informers|
    && (forall i :: 0 <= i < |m.informers| ==> n.informers[i].gvk == m.informers[i].gvk)
    && (forall g :: g in spared && g in m.entries ==> g in n.entries && n.entries[g] == m.entries[g])
  }

  ghost predicate KeepsActive(was: map<GVK, Handler>, now: map<GVK, Handler>, active: set<Handler>) {
    now.Keys <= was.Keys && forall g :: g in was ==> if g in now then now[g] == was[g] else was[g] !in active
  }

  /**
   Garbage collection: handlers leave the map when they have no policies, and informers stop
   only for kinds that lost their handler.
   */
  lemma CollectKeepsWired(m: I.State, n: I.State, handlers: map<GVK, Handler>, kept: map<GVK, Handler>,
          listeners: Listeners, created: set<Handler>, active: set<Handler>)
    requires IsWired(m, handlers, listeners, created, active) && I.Sound(n)
    requires KeepsActive(handlers, kept, active)
    requires SparesInformers(m, n, kept.Keys)
    ensures IsWired(n, kept, listeners, created, active)
  {
    forall i | i in listeners ensures i < |n.informers| && ListensWell(n, kept, listeners[i], i, created) {
      assert ListensWell(m, handlers, listeners[i], i, created);
    }
    forall x | x in active ensures x in kept.Values {
      var g :| g in handlers && handlers[g] == x;
      assert kept[g] == x;
    }
  }

  /** Forgetting every handler: what is attached and still has a policy belongs to nobody. */
  lemma ForgettingKeepsWired(m: I.State, n: I.State, handlers: map<GVK, Handler>, listeners: Listeners,
          created: set<Handler>, active: set<Handler>)
    requires IsWired(m, handlers, listeners, created, active) && I.Sound(n) && SparesInformers(m, n, {})
    ensures IsWired(n, map[], listeners, created, active) <==> active == {}
  {
    if active == {} {
      CollectKeepsWired(m, n, handlers, map[], listeners, created, active);
    }
    var none: map<GVK, Handler> := map[];
    assert forall x :: x !in none.Values;
  }

  lemma ActivityKeepsWired(m: I.State, handlers: map<GVK, Handler>, listeners: Listeners, created: set<Handler>,
          active: set<Handler>)
    requires IsWired(m, handlers, listeners, created, active)
    ensures forall now :: now <= active + handlers.Values ==> IsWired(m, handlers, listeners, created, now)
  {
  }

  lemma UseKeepsWired(m: I.State, gvk: GVK, handlers: map<GVK, Handler>, listeners: Listeners, created: set<Handler>,
          active: set<Handler>)
    requires IsWired(m, handlers, listeners, created, active)
    ensures IsWired(I.AddInformer(m, gvk), handlers, listeners, created, active)
  {
    I.AddKeepsSound(m, gvk);
    var n := I.AddInformer(m, gvk);
    forall i | i in listeners ensures i < |n.informers| && ListensWell(n, handlers, listeners[i], i, created) {
      assert ListensWell(m, handlers, listeners[i], i, created);
      assert n.informers[i] == m.informers[i];
    }
  }

  /** `gvks` lists the first match of every group-kind the selection matches. */
  ghost predicate Selects(sel: Selection, kindsFor: KindsFor, gvks: seq<GVK>) {
    sel.resources != [] && Candidates(sel.resources, kindsFor).Ok? &&
    forall g :: g in gvks <==> FirstMatch(Candidates(sel.resources, kindsFor).value, sel, g)
  }

  /** Something is selected: no resource is a wildcard or unknown, and some kind matches. */
  ghost predicate SelectsSome(sel: Selection, kindsFor: KindsFor) {
    sel.resources != [] && Candidates(sel.resources, kindsFor).Ok? &&
    exists g :: FirstMatch(Candidates(sel.resources, kindsFor).value, sel, g)
  }

  lemma SelectionIsASet(sel: Selection, kindsFor: KindsFor, gs: seq<GVK>, gvks: seq<GVK>)
    requires Selects(sel, kindsFor, gvks)
    ensures Selects(sel, kindsFor, gs) <==> Elements(gs) == Elements(gvks)
  {
    assert forall g :: g in gs <==> g in Elements(gs);
    assert forall g :: g in gvks <==> g in Elements(gvks);
  }

  ghost predicate OthersUnchanged(now: map<string, Policy>, was: map<string, Policy>, name: string) {
    forall n :: n != name ==> (n in now <==> n in was) && (n in now ==> now[n] == was[n])
  }

  datatype UpdateError = KindsError(error: GvkError) | InformerError(gvk: GVK) | RequeueError(text: string)

  class PolicyManager {
    const cache: I.InformerCache
    var policies: map<string, Policy>
    /** Named `informers` in the source. */
    var handlers: map<GVK, Handler>
    /** The handlers attached to each informer; the informer library keeps them. */
    var listeners: Listeners
    var generation: nat
    /** Every handler ever created. */
    ghost var created: set<Handler>

    function Entries(): map<GVK, I.InformerId>
      reads this, cache, cache.informersMap
    {
      cache.informersMap.informersByGVK
    }

    /** The kind has a handler, or an informer can be had for it. */
    ghost predicate CanWatch(gvk: GVK, answer: I.Answer)
      reads this, cache, cache.informersMap
    {
      gvk in handlers || I.CanHave(cache.informersMap.Abs(), gvk, answer)
    }

    /**
     What a collection that spares `kept` leaves of the informers and of the times they were used:
     exactly what is not spared and was not used for the clean-up time goes.
     */
    ghost predicate Collected(was: map<GVK, I.InformerId>, now: map<GVK, I.InformerId>, used: map<GVK, int>,
            used': map<GVK, int>, kept: set<GVK>, time: int) {
      && (forall g :: g in now <==> g in was && !(g !in kept && g in used && used[g] + cache.cleanup < time))
      && (forall g :: g in used' <==> g in used && !(g !in kept && used[g] + cache.cleanup < time))
      && (forall g :: g in now ==> now[g] == was[g])
      && (forall g :: g in used' ==> used'[g] == used[g])
    }

    ghost function Active(): set<Handler>
      reads this, created
    {
      ActiveOf(created)
    }

    /** Handlers and informers fit together. */
    ghost predicate Wired()
      reads this, cache, cache.informersMap, created
    {
      IsWired(cache.informersMap.Abs(), handlers, listeners, created, Active())
    }

    ghost predicate Owned()
      reads this
    {
      forall g :: g in handlers ==> handlers[g] in created
    }

    ghost function Contents(): map<GVK, seq<Controller>>
      reads this, handlers.Values
    {
      ContentsOf(handlers)
    }

    /** Controllers are told apart by the order they were started in. */
    ghost predicate Numbered()
      reads this
    {
      forall n :: n in policies ==> policies[n].controller.generation < generation
    }

    ghost predicate Valid()
      reads this, cache, cache.informersMap, created, handlers.Values
    {
      Owned() && Numbered() && Wired() && IsRegistered(policies, Contents())
    }

    constructor (c: I.InformerCache)
      requires c.informersMap.Valid()
      ensures Valid() && policies == map[] && handlers == map[] && listeners == map[] && cache == c && created == {}
    {
      cache := c;
      policies, handlers, listeners := map[], map[], map[];
      generation := 0;
      created := {};
    }

    /** First loop of `addNoLock`, one kind: unless it has a handler, attach a new one to its informer. */
    method EnsureHandler(gvk: GVK, answer: I.Answer) returns (ok: bool)
      requires Valid()
      modifies this, cache.informersMap
      ensures Valid() && fresh(created - old(created)) && old(created) <= created
      ensures policies == old(policies) && generation == old(generation)
      ensures GainsOnlyEmpty(old(Contents()), Contents(), {gvk}) && (ok ==> gvk in Contents())
      ensures ok <==> old(CanWatch(gvk, answer))
      ensures GainsInformers(old(cache.informersMap.Abs()), cache.informersMap.Abs(), {gvk})
    {
      if gvk in handlers {
        return true;
      }
      I.AddKeepsSound(cache.informersMap.Abs(), gvk);
      UseKeepsWired(cache.informersMap.Abs(), gvk, handlers, listeners, created, Active());
      ok := GetInformerForKind(gvk, answer);
      if ok {
        AttachHandler(gvk, old(cache.informersMap.Abs()));
      }
    }

    method GetInformerForKind(gvk: GVK, answer: I.Answer) returns (ok: bool)
      requires Owned() && cache.informersMap.Valid()
      modifies cache.informersMap
      ensures Owned() && Contents() == old(Contents()) && Active() == old(Active())
      ensures cache.informersMap.Abs() in
              {old(cache.informersMap.Abs()), I.AddInformer(old(cache.informersMap.Abs()), gvk)}
      ensures ok ==> cache.informersMap.Abs() == I.AddInformer(old(cache.informersMap.Abs()), gvk) && gvk in Entries()
      ensures ok <==> I.CanHave(old(cache.informersMap.Abs()), gvk, answer)
    {
      var informer, _ := cache.informersMap.Get(gvk, answer);
      ok := informer.Some?;
    }

    /** The second half of the step above, when the informer is there. */
    method AttachHandler(gvk: GVK, ghost before: I.State)
      requires Owned() && Numbered() && IsRegistered(policies, Contents()) && gvk !in handlers
      requires IsWired(before, handlers, listeners, created, Active())
      requires cache.informersMap.Abs() == I.AddInformer(before, gvk) && gvk in Entries()
      modifies this
      ensures Valid() && fresh(created - old(created)) && old(created) <= created
      ensures policies == old(policies) && generation == old(generation)
      ensures Contents() == old(Contents())[gvk := []]
      ensures cache.informersMap.Abs() == old(cache.informersMap.Abs())
    {
      var handler := LinkHandler(gvk, Entries()[gvk]);
      AttachKeepsWired(before, old(handlers), old(listeners), old(created), old(Active()), gvk, handler);
      EmptyHandlerKeepsRegistered(policies, old(Contents()), gvk);
    }

    method LinkHandler(gvk: GVK, i: I.InformerId) returns (handler: Handler)
      requires Owned() && gvk !in handlers
      modifies this
      ensures fresh(handler)
      ensures handlers == old(handlers)[gvk := handler]
      ensures listeners == old(listeners)[i := Attached(old(listeners), i) + [handler]]
      ensures created == old(created) + {handler} && policies == old(policies) && generation == old(generation)
      ensures Owned() && Contents() == old(Contents())[gvk := []] && Active() == old(Active())
    {
      handler := new Handler();
      listeners := listeners[i := Attached(listeners, i) + [handler]];
      handlers := handlers[gvk := handler];
      created := created + {handler};
    }

    /** First loop of `addNoLock`. An informer that cannot be had, or not in time, ends it half-way. */
    method EnsureHandlers(gvks: seq<GVK>, answers: GVK -> I.Answer) returns (failed: Option<GVK>)
      requires Valid()
      modifies this, cache.informersMap
      ensures Valid() && fresh(created - old(created)) && old(created) <= created
      ensures policies == old(policies) && generation == old(generation)
      ensures GainsOnlyEmpty(old(Contents()), Contents(), Elements(gvks))
      ensures failed.None? ==> Elements(gvks) <= Contents().Keys
      ensures failed.None? <==> forall g :: g in gvks ==> old(CanWatch(g, answers(g)))
      ensures failed.Some? ==>
                failed.value in gvks && !old(CanWatch(failed.value, answers(failed.value)))
    {
      hide Ensured, IsRegistered, IsWired;
      ghost var was, had: I.State, done: set<GVK> := Contents(), cache.informersMap.Abs(), {};
      NothingEnsured(was, had, answers);
      assert Elements(gvks[..0]) == done;
      for i := 0 to |gvks|
        invariant Valid() && fresh(created - old(created)) && old(created) <= created
        invariant policies == old(policies) && generation == old(generation)
        invariant done == Elements(gvks[..i]) && Ensured(was, Contents(), had, cache.informersMap.Abs(), done, answers)
      {
        var ok := EnsureNext(gvks[i], answers, was, had, done);
        ElementsSnoc(gvks, i);
        done := done + {gvks[i]};
        if !ok {
          GainsFewer(was, Contents(), done, Elements(gvks));
          return Some(gvks[i]);
        }
      }
      assert gvks[..|gvks|] == gvks;
      AllEnsured(was, Contents(), had, cache.informersMap.Abs(), gvks, answers);
      failed := None;
    }

    /** The body of the loop. */
    method EnsureNext(gvk: GVK, answers: GVK -> I.Answer, ghost was: map<GVK, seq<Controller>>, ghost had: I.State,
            ghost done: set<GVK>)
      returns (ok: bool)
      requires Valid() && Ensured(was, Contents(), had, cache.informersMap.Abs(), done, answers)
      modifies this, cache.informersMap
      ensures Valid() && fresh(created - old(created)) && old(created) <= created
      ensures policies == old(policies) && generation == old(generation)
      ensures ok <==> gvk in was || I.CanHave(had, gvk, answers(gvk))
      ensures GainsOnlyEmpty(was, Contents(), done + {gvk})
      ensures ok ==> Ensured(was, Contents(), had, cache.informersMap.Abs(), done + {gvk}, answers)
    {
      hide IsRegistered, IsWired;
      ghost var mid, m := Contents(), cache.informersMap.Abs();
      ok := EnsureHandler(gvk, answers(gvk));
      EnsuredGoesOn(was, mid, Contents(), had, m, cache.informersMap.Abs(), done, gvk, answers);
    }

    /** Second loop of `addNoLock`. */
    method AddToHandlers(c: Controller)
      requires NoRepeats(c.gvks) && forall g :: g in c.gvks ==> g in handlers
      requires forall g, h :: g in handlers && h in handlers && g != h ==> handlers[g] != handlers[h]
      modifies handlers.Values
      ensures Contents() == WithController(old(Contents()), c)
    {
      for i := 0 to |c.gvks|
        invariant forall g :: g in handlers ==>
                    handlers[g].policies == if g in c.gvks[..i] then old(handlers[g].policies) + [c]
                                            else old(handlers[g].policies)
      {
        assert c.gvks[i] in c.gvks && c.gvks[i] !in c.gvks[..i];
        assert c.gvks[..i + 1] == c.gvks[..i] + [c.gvks[i]];
        handlers[c.gvks[i]].AddPolicy(c);
      }
      assert c.gvks[..|c.gvks|] == c.gvks;
    }

    /** The loop of `deleteNoLock`. */
    method RemoveFromHandlers(name: string)
      requires forall g, h :: g in handlers && h in handlers && g != h ==> handlers[g] != handlers[h]
      modifies handlers.Values
      ensures Contents() == WithoutPolicy(old(Contents()), name)
    {
      hide WithoutName;
      var left := handlers.Keys;
      while left != {}
        invariant left <= handlers.Keys
        invariant forall g :: g in handlers ==>
                    handlers[g].policies == if g in left then old(handlers[g].policies)
                                            else WithoutName(old(handlers[g].policies), name)
        decreases left
      {
        var g :| g in left;
        handlers[g].RemovePolicy(name);
        left := left - {g};
      }
    }

    /** The end of `addNoLock`: hand the new controller to its handlers and register the policy. */
    method RegisterController(name: string, gvks: seq<GVK>)
      requires Valid() && name !in policies && NoRepeats(gvks) && forall g :: g in gvks ==> g in Contents()
      modifies this, created
      ensures Valid() && created == old(created) && handlers == old(handlers)
      ensures policies == old(policies)[name := Policy(Controller(name, gvks, old(generation)), gvks)]
      ensures generation == old(generation) + 1
    {
      var c := Controller(name, gvks, generation);
      RegisterKeepsRegistered(policies, Contents(), c);
      ActivityKeepsWired(cache.informersMap.Abs(), handlers, listeners, created, Active());
      Register(c);
    }

    method Register(c: Controller)
      requires Owned() && Numbered() && c.generation == generation
      requires NoRepeats(c.gvks) && forall g :: g in c.gvks ==> g in handlers
      requires forall g, h :: g in handlers && h in handlers && g != h ==> handlers[g] != handlers[h]
      modifies this`policies, this`generation, created
      ensures policies == old(policies)[c.name := Policy(c, c.gvks)] && generation == old(generation) + 1 && Numbered()
      ensures Contents() == WithController(old(Contents()), c)
      ensures Active() <= old(Active()) + handlers.Values
    {
      AddToHandlers(c);
      policies := policies[c.name := Policy(c, c.gvks)];
      generation := generation + 1;
    }

    method AddNoLock(name: string, gvks: seq<GVK>, answers: GVK -> I.Answer) returns (err: Option<UpdateError>)
      requires Valid() && NoRepeats(gvks)
      modifies this, created, cache.informersMap
      ensures Valid() && fresh(created - old(created)) && old(created) <= created
      ensures name in old(policies) ==> err.None? && policies == old(policies)
      ensures name !in old(policies) && err.None? ==>
                policies == old(policies)[name := Policy(Controller(name, gvks, old(generation)), gvks)]
      ensures err.None? <==>
                name in old(policies) || forall g :: g in gvks ==> old(CanWatch(g, answers(g)))
      ensures err.Some? ==>
                && policies == old(policies) && err.value.InformerError? && err.value.gvk in gvks
                && !old(CanWatch(err.value.gvk, answers(err.value.gvk)))
    {
      if name in policies {
        return None;
      }
      var failed := EnsureHandlers(gvks, answers);
      if failed.Some? {
        return Some(InformerError(failed.value));
      }
      forall g | g in gvks ensures g in Contents() {
        assert g in Elements(gvks);
      }
      RegisterController(name, gvks);
      err := None;
    }

    method DeleteNoLock(name: string)
      requires Valid()
      modifies this, created
      ensures Valid() && created == old(created) && handlers == old(handlers) && generation == old(generation)
      ensures policies == old(policies) - {name}
    {
      if name !in policies {
        assert policies - {name} == policies;
        return;
      }
      UnregisterKeepsRegistered(policies, Contents(), name);
      ActivityKeepsWired(cache.informersMap.Abs(), handlers, listeners, created, Active());
      Unregister(name);
    }

    method Unregister(name: string)
      requires Owned() && Numbered()
      requires forall g, h :: g in handlers && h in handlers && g != h ==> handlers[g] != handlers[h]
      modifies this`policies, created
      ensures policies == old(policies) - {name} && Numbered()
      ensures Contents() == WithoutPolicy(old(Contents()), name)
      ensures Active() <= old(Active()) + handlers.Values
    {
      RemoveFromHandlers(name);
      policies := policies - {name};
    }

    method Delete(name: string)
      requires Valid()
      modifies this, created
      ensures Valid() && created == old(created) && handlers == old(handlers)
      ensures policies == old(policies) - {name}
    {
      DeleteNoLock(name);
    }

    /** Remove the old registration, then add the new one. */
    method ReplacePolicy(name: string, gvks: seq<GVK>, answers: GVK -> I.Answer) returns (err: Option<UpdateError>)
      requires Valid() && NoRepeats(gvks) && name in policies
      modifies this, created, cache.informersMap
      ensures Valid() && fresh(created - old(created)) && old(created) <= created
      ensures OthersUnchanged(policies, old(policies), name)
      ensures err.None? ==> name in policies && policies[name].gvks == gvks && policies[name] != old(policies)[name]
      ensures err.None? <==> forall g :: g in gvks ==> old(CanWatch(g, answers(g)))
      ensures err.Some? ==>
                && name !in policies && err.value.InformerError? && err.value.gvk in gvks
                && !old(CanWatch(err.value.gvk, answers(err.value.gvk)))
    {
      DeleteNoLock(name);
      err := AddNoLock(name, gvks, answers);
    }

    /** The part of `Update` under the lock; `requeueError` is what re-queuing all objects ends with. */
    method UpdateLocked(name: string, gvks: seq<GVK>, requeue: bool, answers: GVK -> I.Answer,
            requeueError: Option<string>)
      returns (err: Option<UpdateError>)
      requires Valid() && NoRepeats(gvks)
      modifies this, created, cache.informersMap
      ensures Valid() && fresh(created - old(created)) && old(created) <= created
      ensures OthersUnchanged(policies, old(policies), name)
      ensures match err
              case None => name in policies && Elements(policies[name].gvks) == Elements(gvks)
              case Some(KindsError(_)) => false
              case Some(InformerError(g)) => name !in policies && g in gvks && !old(CanWatch(g, answers(g)))
              case Some(RequeueError(text)) =>
                requeue && requeueError == Some(text) && name in policies && policies == old(policies)
      ensures name in old(policies) ==> (policies == old(policies) <==>
              Elements(old(policies)[name].gvks) == Elements(gvks))
      ensures err.None? <==>
                if name in old(policies) && Elements(old(policies)[name].gvks) == Elements(gvks)
                then !(requeue && requeueError.Some?)
                else forall g :: g in gvks ==> old(CanWatch(g, answers(g)))
    {
      if name !in policies {
        err := AddNoLock(name, gvks, answers);
        return;
      }
      var current := policies[name].gvks;
      ContainmentIsEquality(current, gvks);
      var same := AreGVKsEqual(current, gvks);
      if same {
        err := if requeue && requeueError.Some? then Some(RequeueError(requeueError.value)) else None;
      } else {
        err := ReplacePolicy(name, gvks, answers);
      }
    }

    /**
     `Update`. The policy ends up watching the first match of every selected group-kind, is
     registered anew exactly when that set changed, and no other policy is touched; when an
     informer cannot be had the policy is not registered at all.
     */
    method Update(name: string, sel: Selection, kindsFor: KindsFor, requeue: bool, answers: GVK -> I.Answer,
            requeueError: Option<string>)
      returns (err: Option<UpdateError>)
      requires Valid()
      modifies this, created, cache.informersMap
      ensures Valid() && fresh(created - old(created)) && old(created) <= created
      ensures OthersUnchanged(policies, old(policies), name)
      ensures match err
              case None => name in policies && Selects(sel, kindsFor, policies[name].gvks)
              case Some(KindsError(e)) =>
                && policies == old(policies) && !SelectsSome(sel, kindsFor)
                && e == if sel.resources == [] then NoResources
                        else if Candidates(sel.resources, kindsFor).Ok? then NoKinds
                        else Candidates(sel.resources, kindsFor).error
              case Some(InformerError(g)) =>
                && name !in policies && !old(CanWatch(g, answers(g)))
                && SelectsSome(sel, kindsFor) && FirstMatch(Candidates(sel.resources, kindsFor).value, sel, g)
              case Some(RequeueError(text)) =>
                requeue && requeueError == Some(text) && name in policies && policies == old(policies)
      ensures !SelectsSome(sel, kindsFor) ==> err.Some? && err.value.KindsError?
      ensures name in old(policies) && SelectsSome(sel, kindsFor) ==>
                (policies == old(policies) <==> Selects(sel, kindsFor, old(policies)[name].gvks))
      ensures err.None? <==>
                && SelectsSome(sel, kindsFor)
                && if name in old(policies) && Selects(sel, kindsFor, old(policies)[name].gvks)
                   then !(requeue && requeueError.Some?)
                   else forall g :: FirstMatch(Candidates(sel.resources, kindsFor).value, sel, g) ==>
                     old(CanWatch(g, answers(g)))
    {
      var gvks := GvksFromPolicy(sel, kindsFor);
      if gvks.Err? {
        return Some(KindsError(gvks.error));
      }
      assert Elements(gvks.value) != {} by {
        assert gvks.value[0] in Elements(gvks.value);
      }
      assert FirstMatch(Candidates(sel.resources, kindsFor).value, sel, gvks.value[0]);
      err := UpdateLocked(name, gvks.value, requeue, answers, requeueError);
      forall gs: seq<GVK> ensures Selects(sel, kindsFor, gs) <==> Elements(gs) == Elements(gvks.value) {
        SelectionIsASet(sel, kindsFor, gs, gvks.value);
      }
    }

    /** `garbageCollectInformers`: handlers without policies go, and so may unused informers. */
    method GarbageCollectInformers(now: int)
      requires Valid()
      modifies this, cache, cache.informersMap
      ensures Valid() && policies == old(policies) && created == old(created)
      ensures forall g :: g in handlers <==> g in old(Contents()) && old(Contents())[g] != []
      ensures Collected(old(Entries()), Entries(), old(cache.lastUsed), cache.lastUsed, handlers.Keys, now)
    {
      CollectUnused(now);
      CollectKeepsWired(old(cache.informersMap.Abs()), cache.informersMap.Abs(), old(handlers), handlers, listeners,
          created, old(Active()));
      DropEmptyKeepsRegistered(policies, old(Contents()), Contents());
    }

    method CollectUnused(now: int)
      requires Owned() && cache.informersMap.Valid()
      modifies this`handlers, cache, cache.informersMap
      ensures cache.informersMap.Valid()
      ensures SparesInformers(old(cache.informersMap.Abs()), cache.informersMap.Abs(), handlers.Keys)
      ensures Owned() && Active() == old(Active()) && KeepsActive(old(handlers), handlers, Active())
      ensures DropsOnlyEmpty(old(Contents()), Contents()) && forall g :: g in Contents() ==> Contents()[g] != []
      ensures Collected(old(Entries()), Entries(), old(cache.lastUsed), cache.lastUsed, handlers.Keys, now)
    {
      var exclude := KeepUsedHandlers();
      cache.GarbageCollectInformers(exclude, now);
    }

    /** The loop of `garbageCollectInformers`. */
    method KeepUsedHandlers() returns (exclude: set<GVK>)
      requires Owned()
      modifies this`handlers
      ensures KeepsActive(old(handlers), handlers, Active())
      ensures DropsOnlyEmpty(old(Contents()), Contents()) && forall g :: g in Contents() ==> Contents()[g] != []
      ensures exclude == handlers.Keys
    {
      exclude := {};
      var left := handlers.Keys;
      while left != {}
        invariant left <= handlers.Keys <= old(handlers).Keys
        invariant forall g :: g in handlers ==> handlers[g] == old(handlers)[g]
        invariant forall g :: g in old(handlers) && g !in left ==> (g in handlers <==> old(handlers)[g].policies != [])
        invariant exclude == handlers.Keys - left
        decreases left
      {
        var g :| g in left;
        var n := handlers[g].NumPolicies();
        if n == 0 {
          handlers := handlers - {g};
        } else {
          exclude := exclude + {g};
        }
        left := left - {g};
      }
    }

    /**
     `cleanup`, at shutdown: nothing is registered any more. The handlers are forgotten, not
     emptied, so handlers and informers still fit together exactly when no handler had a policy:
     events can reach the controllers of stopped policies.
     */
    method Cleanup(now: int)
      requires Valid()
      modifies this, cache, cache.informersMap
      ensures policies == map[] && handlers == map[] && IsRegistered(policies, Contents())
      ensures created == old(created) && listeners == old(listeners) && Active() == old(Active())
      ensures Collected(old(Entries()), Entries(), old(cache.lastUsed), cache.lastUsed, {}, now)
      ensures Wired() <==> Active() == {}
    {
      hide IsRegistered;
      assert cache.informersMap.Valid();
      hide IsWired;
      ResetMaps(now);
      ForgettingKeepsWired(old(cache.informersMap.Abs()), cache.informersMap.Abs(), old(handlers), listeners, created,
          Active());
      assert handlers == map[] && policies == map[] && Contents() == map[];
      NothingIsRegistered();
    }

    method ResetMaps(now: int)
      requires Owned() && cache.informersMap.Valid()
      modifies this`policies, this`handlers, cache, cache.informersMap
      ensures policies == map[] && handlers == map[] && Active() == old(Active())
      ensures cache.informersMap.Valid() && SparesInformers(old(cache.informersMap.Abs()), cache.informersMap.Abs(), {})
      ensures Collected(old(Entries()), Entries(), old(cache.lastUsed), cache.lastUsed, {}, now)
    {
      var left := policies.Keys;
      while left != {}
        invariant policies.Keys == left
        modifies this`policies
        decreases left
      {
        var k :| k in left;
        policies := policies - {k};
        left := left - {k};
      }
      policies := map[];
      handlers := map[];
      cache.GarbageCollectInformers({}, now);
    }

    /** Readers of the cache create informers and mark them as used behind the manager's back. */
    method CacheIsUsed(gvk: GVK, answer: I.Answer, now: int)
      requires Valid()
      modifies cache, cache.informersMap
      ensures Valid()
    {
      UseKeepsWired(cache.informersMap.Abs(), gvk, handlers, listeners, created, Active());
      UseCache(gvk, answer, now);
    }

    method UseCache(gvk: GVK, answer: I.Answer, now: int)
      requires Owned() && cache.informersMap.Valid()
      modifies cache, cache.informersMap
      ensures Active() == old(Active()) && Contents() == old(Contents())
      ensures cache.informersMap.Abs() in
              {old(cache.informersMap.Abs()), I.AddInformer(old(cache.informersMap.Abs()), gvk)}
    {
      var _ := cache.Use(gvk, answer, now);
    }
  }

  /**
   Exactly-once delivery: an event on the current informer of a kind reaches the controller of
   every registered policy that watches the kind and whose object the client finds, each once,
   and nobody else; an event on a replaced informer reaches nobody.
   */
  lemma EventsReachEachPolicyOnce(m: PolicyManager, i: I.InformerId, found: string -> bool)
    requires m.Valid() && i < |m.cache.informersMap.informers|
    ensures var g := m.cache.informersMap.informers[i].gvk;
            var reached := Receivers(Attached(m.listeners, i), found);
            && OnePerName(reached)
            && forall c :: c in reached <==>
                 && I.Mapped(m.cache.informersMap.Abs(), i) && Watches(m.policies, c.name, g)
                 && m.policies[c.name].controller == c && found(c.name)
  {
    var s := m.cache.informersMap.Abs();
    var g := s.informers[i].gvk;
    var hs := Attached(m.listeners, i);
    forall j | 0 <= j < |hs| && hs[j].policies != []
      ensures g in m.handlers && m.handlers[g] == hs[j] && I.Mapped(s, i)
    {
      ActiveListenerIsMapped(s, m.handlers, m.listeners, m.created, m.Active(), i, hs[j]);
    }
    if I.Mapped(s, i) && g in m.handlers {
      var k :| 0 <= k < |hs| && hs[k] == m.handlers[g];
      assert ListensWell(s, m.handlers, m.listeners[i], i, m.created);
      OnlyOneReceives(hs, found, k);
      FoundKeeps(hs[k].policies, found);
      assert m.Contents()[g] == m.handlers[g].policies;
      assert HoldsRegistered(m.policies, g, m.Contents()[g]);
    } else {
      NobodyReceives(hs, found);
      assert forall c: Controller :: Watches(m.policies, c.name, g) ==> g in m.Contents();
    }
  }

  lemma ActiveListenerIsMapped(m: I.State, handlers: map<GVK, Handler>, listeners: Listeners, created: set<Handler>,
          active: set<Handler>, i: I.InformerId, h: Handler)
    requires IsWired(m, handlers, listeners, created, active) && i < |m.informers|
    requires h in Attached(listeners, i) && h in active
    ensures var g := m.informers[i].gvk; g in handlers && handlers[g] == h && I.Mapped(m, i)
  {
    var g :| g in handlers && handlers[g] == h;
    assert ListensWell(m, handlers, listeners[i], i, created);
  }
}
