/** Laws of condition patches: order independence, commutation, round trip, idempotence. */
module PatchLaws {
  import opened Prelude
  import opened Conditions
  import opened ConditionPatch

  // ---------------------------------------------------------------- lists up to transition times

  function Timeless(cs: seq<Condition>): seq<Condition> {
    if cs == [] then [] else [cs[0].(time := ZERO_TIME)] + Timeless(cs[1..])
  }

  lemma {:induction false} TimelessLookup(cs: seq<Condition>, t: string)
    ensures Lookup(Timeless(cs), t) == TimelessOption(Lookup(cs, t))
  {
    if cs != [] {
      TimelessLookup(cs[1..], t);
      assert Timeless(cs)[1..] == Timeless(cs[1..]);
    }
  }

  lemma {:induction false} TimelessElements(cs: seq<Condition>)
    ensures |Timeless(cs)| == |cs|
    ensures forall i :: 0 <= i < |cs| ==> Timeless(cs)[i] == cs[i].(time := ZERO_TIME)
  {
    if cs != [] {
      TimelessElements(cs[1..]);
    }
  }

  /** Sorted duplicate-free lists with the same states type by type are equal up to times. */
  lemma SameStatesSameTimelessList(a: seq<Condition>, b: seq<Condition>)
    requires Unique(a) && Unique(b) && Sorted(a) && Sorted(b)
    requires forall t :: TimelessOption(Lookup(a, t)) == TimelessOption(Lookup(b, t))
    ensures Timeless(a) == Timeless(b)
  {
    TimelessElements(a);
    TimelessElements(b);
    forall t ensures Lookup(Timeless(a), t) == Lookup(Timeless(b), t) {
      TimelessLookup(a, t);
      TimelessLookup(b, t);
    }
    SameLookupsSameList(Timeless(a), Timeless(b));
  }

  // ---------------------------------------------------------------- order independence

  /** What is left of a list when the operations only keep and drop conditions. */
  function Survivors(ops: seq<PatchOp>, cs: seq<Condition>, opts: ApplyOptions): seq<Condition> {
    if cs == [] then []
    else
      var op := OpFor(ops, cs[0].ctype);
      var dropped := op.Some? && Judge(op.value, Some(cs[0]), opts.Forces(cs[0].ctype)) == Drop;
      (if dropped then [] else [cs[0]]) + Survivors(ops, cs[1..], opts)
  }

  lemma {:induction false} SurvivorsAfterOne(ops: seq<PatchOp>, cs: seq<Condition>, opts: ApplyOptions, drop: bool)
    requires Distinct(ops) && ops != []
    requires var op := ops[0];
             forall c :: c in cs && c.ctype == op.Type() ==> (Judge(op, Some(c), opts.Forces(c.ctype)) == Drop) == drop
    ensures Survivors(ops, cs, opts) == Survivors(ops[1..], if drop then Without(cs, ops[0].Type()) else cs, opts)
  {
    if cs != [] {
      SurvivorsAfterOne(ops, cs[1..], opts, drop);
      var kept := Without(cs, ops[0].Type());
      if cs[0].ctype == ops[0].Type() {
        assert kept == Without(cs[1..], ops[0].Type());
      } else {
        assert kept[1..] == Without(cs[1..], ops[0].Type());
      }
    }
  }

  /** A patch that stores nothing keeps the order of what it leaves, sorted or not. */
  lemma {:induction false} ApplyWithoutStores(ops: seq<PatchOp>, latest: seq<Condition>, opts: ApplyOptions,
          clock: Clock)
    requires Distinct(ops) && Unique(latest) && ApplyOps(ops, latest, opts, clock).Ok?
    requires forall t :: !Stores(ops, latest, opts, t)
    ensures ApplyOps(ops, latest, opts, clock) == Ok(Survivors(ops, latest, opts))
  {
    if ops == [] {
      NoOperationsAllSurvive(latest, opts);
    } else {
      var op := ops[0];
      ApplyOpTouchesOneType(op, latest, opts, clock);
      assert !Stores(ops, latest, opts, op.Type());
      var next := ApplyOp(op, latest, opts, clock).value;
      forall t ensures !Stores(ops[1..], next, opts, t) {
        assert !Stores(ops, latest, opts, t);
      }
      ApplyWithoutStores(ops[1..], next, opts, clock);
      forall c | c in latest && c.ctype == op.Type() ensures Lookup(latest, op.Type()) == Some(c) {
        LookupUnique(latest, c);
      }
      var drop := Judge(op, Lookup(latest, op.Type()), opts.Forces(op.Type())) == Drop;
      SurvivorsAfterOne(ops, latest, opts, drop);
    }
  }

  lemma {:induction false} NoOperationsAllSurvive(cs: seq<Condition>, opts: ApplyOptions)
    ensures Survivors([], cs, opts) == cs
  {
    if cs != [] {
      NoOperationsAllSurvive(cs[1..], opts);
    }
  }

  lemma {:induction false} SurvivorsDependOnOpFor(p: seq<PatchOp>, q: seq<PatchOp>, cs: seq<Condition>,
          opts: ApplyOptions)
    requires forall t :: OpFor(p, t) == OpFor(q, t)
    ensures Survivors(p, cs, opts) == Survivors(q, cs, opts)
  {
    if cs != [] {
      SurvivorsDependOnOpFor(p, q, cs[1..], opts);
    }
  }

  /** The clock decides transition times and nothing else. */
  lemma OutcomeUpToTime(p: seq<PatchOp>, q: seq<PatchOp>, latest: seq<Condition>, opts: ApplyOptions, c: Clock,
          d: Clock, t: string)
    requires OpFor(p, t) == OpFor(q, t)
    ensures TimelessOption(Outcome(p, latest, opts, c, t)) == TimelessOption(Outcome(q, latest, opts, d, t))
    ensures Clashes(p, latest, opts, t) == Clashes(q, latest, opts, t)
    ensures Stores(p, latest, opts, t) == Stores(q, latest, opts, t)
  {
  }

  /**
   Running the same operations in another order, at other times, succeeds or fails alike and
   ends in the same list up to transition times.
   */
  lemma OperationOrderIsIrrelevant(p: seq<PatchOp>, q: seq<PatchOp>, latest: seq<Condition>, opts: ApplyOptions,
          c: Clock, d: Clock)
    requires Distinct(p) && Distinct(q) && Unique(latest)
    requires forall t :: OpFor(p, t) == OpFor(q, t)
    ensures ApplyOps(p, latest, opts, c).Ok? <==> ApplyOps(q, latest, opts, d).Ok?
    ensures ApplyOps(p, latest, opts, c).Ok? ==>
              Timeless(ApplyOps(p, latest, opts, c).value) == Timeless(ApplyOps(q, latest, opts, d).value)
  {
    ApplyIsDecidedPerType(p, latest, opts, c);
    ApplyIsDecidedPerType(q, latest, opts, d);
    forall t
      ensures TimelessOption(Outcome(p, latest, opts, c, t)) == TimelessOption(Outcome(q, latest, opts, d, t))
      ensures Clashes(p, latest, opts, t) == Clashes(q, latest, opts, t)
      ensures Stores(p, latest, opts, t) == Stores(q, latest, opts, t)
    {
      OutcomeUpToTime(p, q, latest, opts, c, d, t);
    }
    var a, b := ApplyOps(p, latest, opts, c), ApplyOps(q, latest, opts, d);
    if a.Ok? {
      if exists t :: Stores(p, latest, opts, t) {
        SameStatesSameTimelessList(a.value, b.value);
      } else {
        ApplyWithoutStores(p, latest, opts, c);
        ApplyWithoutStores(q, latest, opts, d);
        SurvivorsDependOnOpFor(p, q, latest, opts);
      }
    }
  }

  lemma {:induction false} ApplyConcat(p: seq<PatchOp>, q: seq<PatchOp>, latest: seq<Condition>, opts: ApplyOptions,
          clock: Clock)
    ensures ApplyOps(p + q, latest, opts, clock) ==
            match ApplyOps(p, latest, opts, clock)
            case Ok(mid) => ApplyOps(q, mid, opts, clock)
            case Err(t) => Err(t)
  {
    if p == [] {
      assert p + q == q;
    } else {
      assert (p + q)[1..] == p[1..] + q;
      var first := ApplyOp(p[0], latest, opts, clock);
      if first.Ok? {
        ApplyConcat(p[1..], q, first.value, opts, clock);
      }
    }
  }

  function ThenApply(p: seq<PatchOp>, q: seq<PatchOp>, latest: seq<Condition>, opts: ApplyOptions,
          clock: Clock): Result<seq<Condition>, string> {
    match ApplyOps(p, latest, opts, clock)
    case Ok(mid) => ApplyOps(q, mid, opts, clock)
    case Err(t) => Err(t)
  }

  /**
   Patches of two writers that touch disjoint condition types commute on every list: either
   order succeeds or neither does, and both end in the same list up to transition times.
   */
  lemma DisjointPatchesCommute(p: seq<PatchOp>, q: seq<PatchOp>, latest: seq<Condition>, opts: ApplyOptions,
          c: Clock, d: Clock)
    requires Distinct(p) && Distinct(q) && Unique(latest)
    requires forall t :: OpFor(p, t) == None || OpFor(q, t) == None
    ensures ThenApply(p, q, latest, opts, c).Ok? <==> ThenApply(q, p, latest, opts, d).Ok?
    ensures ThenApply(p, q, latest, opts, c).Ok? ==>
              Timeless(ThenApply(p, q, latest, opts, c).value) == Timeless(ThenApply(q, p, latest, opts, d).value)
  {
    ApplyConcat(p, q, latest, opts, c);
    ApplyConcat(q, p, latest, opts, d);
    DistinctConcat(p, q);
    forall t ensures OpFor(q, t) == None || OpFor(p, t) == None {
      assert OpFor(p, t) == None || OpFor(q, t) == None;
    }
    DistinctConcat(q, p);
    forall t ensures OpFor(p + q, t) == OpFor(q + p, t) {
      OpForConcat(p, q, t);
      OpForConcat(q, p, t);
      assert OpFor(p, t) == None || OpFor(q, t) == None;
    }
    OperationOrderIsIrrelevant(p + q, q + p, latest, opts, c, d);
  }

  // ---------------------------------------------------------------- round trip

  /** Every operation already has its effect on `cs`. */
  ghost predicate Settled(ops: seq<PatchOp>, cs: seq<Condition>) {
    forall op :: op in ops ==>
      if op.Remove? then Lookup(cs, op.Type()).None?
      else Lookup(cs, op.Type()).Some? && SameState(Lookup(cs, op.Type()).value, op.after)
  }

  lemma {:induction false} SettledPatchIsNoop(ops: seq<PatchOp>, cs: seq<Condition>, opts: ApplyOptions, clock: Clock)
    requires Unique(cs) && Settled(ops, cs)
    requires Sorted(cs) || forall op :: op in ops ==> op.Remove?
    ensures ApplyOps(ops, cs, opts, clock) == Ok(cs)
  {
    if ops != [] {
      var op := ops[0];
      if op.Remove? {
        WithoutAbsent(cs, op.Type());
      } else {
        assert op in ops;
        SetSameStateIsNoop(cs, op.after, clock(op.Type()));
      }
      assert ApplyOp(op, cs, opts, clock) == Ok(cs);
      SettledPatchIsNoop(ops[1..], cs, opts, clock);
    }
  }

  lemma RoundTripOfOneType(before: Option<Condition>, after: Option<Condition>, forced: bool, now: Time)
    ensures var r := ThreeWay(before, after, before, forced, now);
            && r.Resolved? && TimelessOption(r.value) == TimelessOption(after)
            && (TimelessOption(before) == TimelessOption(after) ==> r.value == before)
  {
  }

  /**
   Replaying a diff on the list it started from never fails and yields exactly the conditions
   of `after`, up to transition times; a condition whose state did not change keeps its time.
   */
  lemma RoundTrip(before: seq<Condition>, after: seq<Condition>, opts: ApplyOptions, clock: Clock)
    requires Unique(before) && Unique(after)
    ensures var r := ApplyOps(NewPatchOps(before, after), before, opts, clock);
            && r.Ok? && Unique(r.value)
            && (Sorted(before) ==> Sorted(r.value))
            && (forall t :: TimelessOption(Lookup(r.value, t)) == TimelessOption(Lookup(after, t)))
            && (forall t :: TimelessOption(Lookup(before, t)) == TimelessOption(Lookup(after, t)) ==>
                Lookup(r.value, t) == Lookup(before, t))
  {
    ApplyRefinesThreeWayMerge(before, after, before, opts, clock);
    var r := ApplyOps(NewPatchOps(before, after), before, opts, clock);
    forall t
      ensures var m := MergeAt(before, after, before, opts, clock, t);
              && m != Clash && TimelessOption(m.value) == TimelessOption(Lookup(after, t))
              && (TimelessOption(Lookup(before, t)) == TimelessOption(Lookup(after, t)) ==>
                  m.value == Lookup(before, t))
    {
      RoundTripOfOneType(Lookup(before, t), Lookup(after, t), opts.Forces(t), clock(t));
    }
  }

  /** A list in display order that already equals the target up to times is left as it is. */
  lemma RoundTripOfSortedLists(before: seq<Condition>, after: seq<Condition>, opts: ApplyOptions, clock: Clock)
    requires Unique(before) && Unique(after) && Sorted(before) && Sorted(after)
    ensures var r := ApplyOps(NewPatchOps(before, after), before, opts, clock);
            && r.Ok? && Timeless(r.value) == Timeless(after)
            && (Timeless(before) == Timeless(after) ==> r.value == before)
  {
    RoundTrip(before, after, opts, clock);
    var r := ApplyOps(NewPatchOps(before, after), before, opts, clock).value;
    SameStatesSameTimelessList(r, after);
    if Timeless(before) == Timeless(after) {
      forall t ensures Lookup(r, t) == Lookup(before, t) {
        TimelessLookup(before, t);
        TimelessLookup(after, t);
      }
      SameLookupsSameList(r, before);
    }
  }

  /** The operations as a first run leaves them differ only in transition times. */
  lemma {:induction false} RestampKeepsStates(ops: seq<PatchOp>, latest: seq<Condition>, opts: ApplyOptions,
          clock: Clock)
    ensures |RestampOps(ops, latest, opts, clock)| == |ops|
    ensures forall i :: 0 <= i < |ops| ==> SameOperation(RestampOps(ops, latest, opts, clock)[i], ops[i])
  {
    if ops != [] {
      var first := ApplyOp(ops[0], latest, opts, clock);
      if first.Ok? {
        RestampKeepsStates(ops[1..], first.value, opts, clock);
      }
    }
  }

  /** Equality of operations up to the transition time of the condition they store. */
  predicate SameOperation(p: PatchOp, q: PatchOp) {
    match (p, q)
    case (Add(a), Add(b)) => SameState(a, b)
    case (Change(x, a), Change(y, b)) => x == y && SameState(a, b)
    case (Remove(x), Remove(y)) => x == y
    case _ => false
  }

  lemma OperationComesFromDiff(before: seq<Condition>, after: seq<Condition>, op: PatchOp, opts: ApplyOptions)
    requires Unique(before) && Unique(after) && op in NewPatchOps(before, after)
    ensures if op.Remove? then Lookup(after, op.Type()).None? else Lookup(after, op.Type()) == Some(op.after)
    ensures !op.Remove? ==> Stores(NewPatchOps(before, after), before, opts, op.Type())
  {
    NewPatchIsPerTypeDiff(before, after);
    DistinctOp(NewPatchOps(before, after), op);
    assert Diff(Lookup(before, op.Type()), Lookup(after, op.Type())) == Some(op);
  }

  /** Applying the same patch object a second time, whenever that is, changes nothing. */
  lemma SecondApplyChangesNothing(before: seq<Condition>, after: seq<Condition>, opts: ApplyOptions, c: Clock, d: Clock)
    requires Unique(before) && Unique(after)
    ensures var ops := NewPatchOps(before, after);
            var first := ApplyOps(ops, before, opts, c);
            first.Ok? && ApplyOps(RestampOps(ops, before, opts, c), first.value, opts, d) == first
  {
    var ops := NewPatchOps(before, after);
    RoundTrip(before, after, opts, c);
    var r := ApplyOps(ops, before, opts, c).value;
    var again := RestampOps(ops, before, opts, c);
    RestampKeepsStates(ops, before, opts, c);
    forall op | op in again
      ensures if op.Remove? then Lookup(r, op.Type()).None?
              else Lookup(r, op.Type()).Some? && SameState(Lookup(r, op.Type()).value, op.after)
      ensures !op.Remove? ==> Stores(ops, before, opts, op.Type())
    {
      var i :| 0 <= i < |again| && again[i] == op;
      OperationComesFromDiff(before, after, ops[i], opts);
      assert TimelessOption(Lookup(r, op.Type())) == TimelessOption(Lookup(after, op.Type()));
    }
    if exists op :: op in again && !op.Remove? {
      NewPatchIsPerTypeDiff(before, after);
      ApplyIsDecidedPerType(ops, before, opts, c);
    }
    SettledPatchIsNoop(again, r, opts, d);
  }

  // ---------------------------------------------------------------- what the caller's object shows afterwards

  /**
   The operations share their conditions with the object the patch was made from. Where one was
   stored, the object now shows exactly what was stored, transition time included; elsewhere it is
   as before.
   */
  lemma {:induction false} CallerSeesWhatWasStored(ops: seq<PatchOp>, latest: seq<Condition>, opts: ApplyOptions,
          clock: Clock, t: string)
    requires Distinct(ops) && Unique(latest) && ApplyOps(ops, latest, opts, clock).Ok?
    ensures var r, now := ApplyOps(ops, latest, opts, clock).value, OpFor(RestampOps(ops, latest, opts, clock), t);
            if Stores(ops, latest, opts, t)
            then now.Some? && !now.value.Remove? && Lookup(r, t) == Some(now.value.after)
            else now == OpFor(ops, t)
  {
    if ops != [] {
      var op := ops[0];
      var next := ApplyOp(op, latest, opts, clock).value;
      ApplyOpTouchesOneType(op, latest, opts, clock);
      ApplyIsDecidedPerType(ops, latest, opts, clock);
      CallerSeesWhatWasStored(ops[1..], next, opts, clock, t);
      var stamped := Restamp(op, latest, opts, clock);
      assert stamped.Type() == op.Type();
      assert RestampOps(ops, latest, opts, clock) == [stamped] + RestampOps(ops[1..], next, opts, clock);
      assert ([stamped] + RestampOps(ops[1..], next, opts, clock))[1..] == RestampOps(ops[1..], next, opts, clock);
    }
  }
}
