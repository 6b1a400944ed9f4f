/**
 Condition patches: `NewPatch` diffs two condition lists and `Apply` replays the diff on a
 third one (pkg/util/conditions/patch.go). The module proves that the pair is a per-type
 three-way merge.
 */
module ConditionPatch {
  import opened Prelude
  import opened Conditions

  datatype PatchOp =
    | Add(after: Condition)
    | Change(before: Condition, after: Condition)
    | Remove(before: Condition)
  {
    function Type(): string {
      if Remove? then before.ctype else after.ctype
    }
  }

  datatype ApplyOptions = ApplyOptions(owned: seq<string>, force: bool) {
    /** For an owned type, or when told to overwrite, the writer wins every disagreement. */
    predicate Forces(t: string) {
      force || t in owned
    }
  }

  /** What `time.Now()` returns while the operation on a given type executes. */
  type Clock = string -> Time

  // ---------------------------------------------------------------- specification of Apply

  datatype Verdict = Store | Keep | Drop | Conflict

  function Judge(op: PatchOp, latest: Option<Condition>, forced: bool): (v: Verdict)
    ensures v == Store ==> !op.Remove?
    ensures v == Drop ==> op.Remove?
  {
    match op
    case Add(after) =>
      if forced || latest.None? then Store
      else if SameState(latest.value, after) then Keep
      else Conflict
    case Change(before, after) =>
      if forced then Store
      else if latest.None? then Conflict
      else if latest.value == before then Store
      else if SameState(latest.value, after) then Keep
      else Conflict
    case Remove(before) =>
      if forced || latest.None? || SameState(latest.value, before) then Drop
      else Conflict
  }

  function ApplyOp(op: PatchOp, latest: seq<Condition>, opts: ApplyOptions, clock: Clock)
    : Result<seq<Condition>, string> {
    var t := op.Type();
    match Judge(op, Lookup(latest, t), opts.Forces(t))
    case Store => Ok(SetCondition(latest, op.after, clock(t)))
    case Keep => Ok(latest)
    case Drop => Ok(Without(latest, t))
    case Conflict => Err(t)
  }

  /** The operation after it ran: `Set` rewrites the time of the condition it is handed. */
  function Restamp(op: PatchOp, latest: seq<Condition>, opts: ApplyOptions, clock: Clock): PatchOp {
    var t := op.Type();
    if Judge(op, Lookup(latest, t), opts.Forces(t)) != Store then op
    else op.(after := Stamp(Lookup(latest, t), op.after, clock(t)))
  }

  /** The operations in order, stopping at the first conflict. */
  function ApplyOps(ops: seq<PatchOp>, latest: seq<Condition>, opts: ApplyOptions, clock: Clock)
    : Result<seq<Condition>, string> {
    if ops == [] then Ok(latest)
    else
      match ApplyOp(ops[0], latest, opts, clock)
      case Ok(next) => ApplyOps(ops[1..], next, opts, clock)
      case Err(t) => Err(t)
  }

  function RestampOps(ops: seq<PatchOp>, latest: seq<Condition>, opts: ApplyOptions, clock: Clock): seq<PatchOp> {
    if ops == [] then []
    else
      match ApplyOp(ops[0], latest, opts, clock)
      case Ok(next) => [Restamp(ops[0], latest, opts, clock)] + RestampOps(ops[1..], next, opts, clock)
      case Err(_) => ops
  }

  // ---------------------------------------------------------------- specification of NewPatch

  /** The operation that turns one optional condition of a type into another. */
  function Diff(before: Option<Condition>, after: Option<Condition>): Option<PatchOp> {
    match (before, after)
    case (None, None) => None
    case (None, Some(a)) => Some(Add(a))
    case (Some(b), None) => Some(Remove(b))
    case (Some(b), Some(a)) => if a != b then Some(Change(b, a)) else None
  }

  function ToSeq(op: Option<PatchOp>): seq<PatchOp> {
    if op.Some? then [op.value] else []
  }

  /** First loop of `NewPatch`: additions and changes, in the order of `after`. */
  function AddsAndChanges(before: seq<Condition>, after: seq<Condition>): seq<PatchOp> {
    if after == [] then []
    else ToSeq(Diff(Lookup(before, after[0].ctype), Some(after[0]))) + AddsAndChanges(before, after[1..])
  }

  /** Second loop of `NewPatch`: removals, in the order of `before`. */
  function Removals(before: seq<Condition>, after: seq<Condition>): seq<PatchOp> {
    if before == [] then []
    else (if Lookup(after, before[0].ctype).None? then [Remove(before[0])] else []) + Removals(before[1..], after)
  }

  /** One round of each loop. */
  lemma AddsAndChangesStep(before: seq<Condition>, after: seq<Condition>, i: nat, ops: seq<PatchOp>)
    requires i < |after| && AddsAndChanges(before, after) == ops + AddsAndChanges(before, after[i..])
    ensures AddsAndChanges(before, after) ==
            ops + ToSeq(Diff(Lookup(before, after[i].ctype), Some(after[i]))) + AddsAndChanges(before, after[i + 1..])
  {
    assert after[i..][1..] == after[i + 1..];
    Associate(ops, ToSeq(Diff(Lookup(before, after[i].ctype), Some(after[i]))), AddsAndChanges(before, after[i + 1..]));
  }

  lemma RemovalsStep(before: seq<Condition>, after: seq<Condition>, i: nat, ops: seq<PatchOp>)
    requires i < |before| && Removals(before, after) == ops + Removals(before[i..], after)
    ensures Removals(before, after) ==
            ops + (if Lookup(after, before[i].ctype).None? then [Remove(before[i])] else [])
                + Removals(before[i + 1..], after)
  {
    assert before[i..][1..] == before[i + 1..];
    var here := if Lookup(after, before[i].ctype).None? then [Remove(before[i])] else [];
    Associate(ops, here, Removals(before[i + 1..], after));
  }

  function NewPatchOps(before: seq<Condition>, after: seq<Condition>): seq<PatchOp> {
    AddsAndChanges(before, after) + Removals(before, after)
  }

  // ---------------------------------------------------------------- operations, type by type

  function OpFor(ops: seq<PatchOp>, t: string): (r: Option<PatchOp>)
    ensures r.Some? ==> r.value in ops && r.value.Type() == t
    ensures r.None? <==> forall op :: op in ops ==> op.Type() != t
  {
    if ops == [] then None
    else if ops[0].Type() == t then Some(ops[0])
    else OpFor(ops[1..], t)
  }

  /** No two operations on the same type. */
  ghost predicate Distinct(ops: seq<PatchOp>) {
    ops == [] || (OpFor(ops[1..], ops[0].Type()) == None && Distinct(ops[1..]))
  }

  lemma {:induction false} OpForConcat(p: seq<PatchOp>, q: seq<PatchOp>, t: string)
    ensures OpFor(p + q, t) == if OpFor(p, t).Some? then OpFor(p, t) else OpFor(q, t)
  {
    if p == [] {
      assert p + q == q;
    } else {
      assert (p + q)[1..] == p[1..] + q;
      OpForConcat(p[1..], q, t);
    }
  }

  lemma {:induction false} DistinctConcat(p: seq<PatchOp>, q: seq<PatchOp>)
    requires Distinct(p) && Distinct(q)
    requires forall t :: OpFor(p, t) == None || OpFor(q, t) == None
    ensures Distinct(p + q)
  {
    if p == [] {
      assert p + q == q;
    } else {
      var t := p[0].Type();
      assert (p + q)[1..] == p[1..] + q;
      assert OpFor(p, t) == Some(p[0]) && OpFor(q, t) == None;
      OpForConcat(p[1..], q, t);
      forall u ensures OpFor(p[1..], u) == None || OpFor(q, u) == None {
        assert OpFor(p, u) == None || OpFor(q, u) == None;
      }
      DistinctConcat(p[1..], q);
    }
  }

  lemma {:induction false} DistinctOp(ops: seq<PatchOp>, op: PatchOp)
    requires Distinct(ops) && op in ops
    ensures OpFor(ops, op.Type()) == Some(op)
  {
    if op != ops[0] {
      assert op in ops[1..];
      DistinctOp(ops[1..], op);
    }
  }

  lemma {:induction false} AddsAndChangesOpFor(before: seq<Condition>, after: seq<Condition>)
    requires Unique(after)
    ensures Distinct(AddsAndChanges(before, after))
    ensures forall t :: OpFor(AddsAndChanges(before, after), t) ==
                        if Lookup(after, t).Some? then Diff(Lookup(before, t), Lookup(after, t)) else None
  {
    if after != [] {
      UniqueTail(after);
      AddsAndChangesOpFor(before, after[1..]);
      var head := ToSeq(Diff(Lookup(before, after[0].ctype), Some(after[0])));
      var rest := AddsAndChanges(before, after[1..]);
      forall t ensures OpFor(head + rest, t) ==
                       if Lookup(after, t).Some? then Diff(Lookup(before, t), Lookup(after, t)) else None {
        OpForConcat(head, rest, t);
      }
      DistinctConcat(head, rest);
    }
  }

  lemma {:induction false} RemovalsOpFor(before: seq<Condition>, after: seq<Condition>)
    requires Unique(before)
    ensures Distinct(Removals(before, after))
    ensures forall t :: OpFor(Removals(before, after), t) ==
                        if Lookup(after, t).None? then Diff(Lookup(before, t), None) else None
  {
    if before != [] {
      UniqueTail(before);
      RemovalsOpFor(before[1..], after);
      var head := if Lookup(after, before[0].ctype).None? then [Remove(before[0])] else [];
      var rest := Removals(before[1..], after);
      forall t ensures OpFor(head + rest, t) ==
                       if Lookup(after, t).None? then Diff(Lookup(before, t), None) else None {
        OpForConcat(head, rest, t);
      }
      DistinctConcat(head, rest);
    }
  }

  /** `NewPatch` emits exactly the per-type difference, at most one operation per type. */
  lemma NewPatchIsPerTypeDiff(before: seq<Condition>, after: seq<Condition>)
    requires Unique(before) && Unique(after)
    ensures Distinct(NewPatchOps(before, after))
    ensures forall t :: OpFor(NewPatchOps(before, after), t) == Diff(Lookup(before, t), Lookup(after, t))
  {
    AddsAndChangesOpFor(before, after);
    RemovalsOpFor(before, after);
    DistinctConcat(AddsAndChanges(before, after), Removals(before, after));
    forall t ensures OpFor(NewPatchOps(before, after), t) == Diff(Lookup(before, t), Lookup(after, t)) {
      OpForConcat(AddsAndChanges(before, after), Removals(before, after), t);
    }
  }

  // ---------------------------------------------------------------- Apply, type by type

  predicate Clashes(ops: seq<PatchOp>, latest: seq<Condition>, opts: ApplyOptions, t: string) {
    var op := OpFor(ops, t);
    op.Some? && Judge(op.value, Lookup(latest, t), opts.Forces(t)) == Conflict
  }

  predicate Stores(ops: seq<PatchOp>, latest: seq<Condition>, opts: ApplyOptions, t: string) {
    var op := OpFor(ops, t);
    op.Some? && Judge(op.value, Lookup(latest, t), opts.Forces(t)) == Store
  }

  function Effect(op: PatchOp, latest: Option<Condition>, forced: bool, now: Time): Option<Condition> {
    match Judge(op, latest, forced)
    case Store => Some(Stamp(latest, op.after, now))
    case Keep => latest
    case Drop => None
    case Conflict => latest
  }

  /** What type `t` holds after the operations ran, from what it held before. */
  function Outcome(ops: seq<PatchOp>, latest: seq<Condition>, opts: ApplyOptions, clock: Clock,
          t: string): Option<Condition> {
    var op := OpFor(ops, t);
    if op.None? then Lookup(latest, t)
    else Effect(op.value, Lookup(latest, t), opts.Forces(t), clock(t))
  }

  lemma ApplyOpTouchesOneType(op: PatchOp, latest: seq<Condition>, opts: ApplyOptions, clock: Clock)
    requires Unique(latest)
    ensures var r := ApplyOp(op, latest, opts, clock);
            r.Err? <==> Judge(op, Lookup(latest, op.Type()), opts.Forces(op.Type())) == Conflict
    ensures var r := ApplyOp(op, latest, opts, clock);
            r.Ok? ==>
              && Unique(r.value)
              && (Sorted(latest) || Judge(op, Lookup(latest, op.Type()), opts.Forces(op.Type())) == Store ==>
                  Sorted(r.value))
              && forall t :: Lookup(r.value, t) ==
                             if t == op.Type() then Effect(op, Lookup(latest, t), opts.Forces(t), clock(t))
                             else Lookup(latest, t)
  {
    var t := op.Type();
    if !op.Remove? {
      SetTouchesOneType(latest, op.after, clock(t));
    }
    DeleteTouchesOneType(latest, t);
  }

  /**
   On operations of distinct types the outcome is decided type by type from the original
   list: `Apply` fails exactly when some type clashes there, and otherwise every type gets
   its own outcome.
   */
  lemma {:induction false} ApplyIsDecidedPerType(ops: seq<PatchOp>, latest: seq<Condition>, opts: ApplyOptions,
          clock: Clock)
    requires Distinct(ops) && Unique(latest)
    ensures var r := ApplyOps(ops, latest, opts, clock);
            r.Ok? <==> forall t :: !Clashes(ops, latest, opts, t)
    ensures var r := ApplyOps(ops, latest, opts, clock);
            r.Err? ==> Clashes(ops, latest, opts, r.error)
    ensures var r := ApplyOps(ops, latest, opts, clock);
            r.Ok? ==>
              && Unique(r.value)
              && (Sorted(latest) || (exists t :: Stores(ops, latest, opts, t)) ==> Sorted(r.value))
              && forall t :: Lookup(r.value, t) == Outcome(ops, latest, opts, clock, t)
  {
    if ops != [] {
      var op := ops[0];
      ApplyOpTouchesOneType(op, latest, opts, clock);
      var first := ApplyOp(op, latest, opts, clock);
      assert OpFor(ops, op.Type()) == Some(op);
      if first.Err? {
        assert Clashes(ops, latest, opts, op.Type());
      } else {
        var next := first.value;
        ApplyIsDecidedPerType(ops[1..], next, opts, clock);
        forall t | t != op.Type()
          ensures OpFor(ops, t) == OpFor(ops[1..], t) && Lookup(next, t) == Lookup(latest, t)
          ensures Clashes(ops, latest, opts, t) == Clashes(ops[1..], next, opts, t)
          ensures Stores(ops, latest, opts, t) == Stores(ops[1..], next, opts, t)
        {
        }
        assert !Clashes(ops, latest, opts, op.Type());
        assert !Clashes(ops[1..], next, opts, op.Type());
        var r := ApplyOps(ops, latest, opts, clock);
        assert r == ApplyOps(ops[1..], next, opts, clock);
        if r.Ok? {
          forall t ensures !Clashes(ops, latest, opts, t) {
            assert !Clashes(ops[1..], next, opts, t);
          }
          forall t ensures Lookup(r.value, t) == Outcome(ops, latest, opts, clock, t) {
            assert Lookup(r.value, t) == Outcome(ops[1..], next, opts, clock, t);
          }
          if exists t :: Stores(ops, latest, opts, t) {
            var t :| Stores(ops, latest, opts, t);
            assert t == op.Type() || Stores(ops[1..], next, opts, t);
          }
        }
      }
    }
  }

  /**
   Between two lists, a type that both hold shows the old time if its state is the same, and the
   time of the operation otherwise.
   */
  ghost predicate TimesMove(latest: seq<Condition>, next: seq<Condition>, clock: Clock) {
    forall t :: Lookup(latest, t).Some? && Lookup(next, t).Some? ==>
      var was, now := Lookup(latest, t).value, Lookup(next, t).value;
      now.time == if SameState(was, now) then was.time else clock(t)
  }

  lemma ApplyMovesTimes(ops: seq<PatchOp>, latest: seq<Condition>, opts: ApplyOptions, clock: Clock)
    requires Distinct(ops) && Unique(latest) && ApplyOps(ops, latest, opts, clock).Ok?
    ensures TimesMove(latest, ApplyOps(ops, latest, opts, clock).value, clock)
    ensures forall t :: Lookup(latest, t).None? && Lookup(ApplyOps(ops, latest, opts, clock).value, t).Some? ==>
              && OpFor(ops, t).Some? && !OpFor(ops, t).value.Remove?
              && var now, after := Lookup(ApplyOps(ops, latest, opts, clock).value, t).value, OpFor(ops, t).value.after;
                 SameState(now, after) && now.time == if after.time == ZERO_TIME then clock(t) else after.time
  {
    hide ApplyOps;
    ApplyIsDecidedPerType(ops, latest, opts, clock);
    var r := ApplyOps(ops, latest, opts, clock).value;
    assert forall t :: Lookup(r, t) == Outcome(ops, latest, opts, clock, t);
  }

  // ---------------------------------------------------------------- the three-way merge

  datatype Resolution = Resolved(value: Option<Condition>) | Clash

  /** Latest already is where the writer wants it. */
  predicate Agrees(latest: Option<Condition>, after: Option<Condition>) {
    match (latest, after)
    case (None, None) => true
    case (Some(l), Some(a)) => SameState(l, a)
    case _ => false
  }

  /** Nobody moved latest since the writer read it; a removal does not look at the time. */
  predicate Unmoved(latest: Option<Condition>, before: Option<Condition>, removal: bool) {
    latest == before || (removal && Agrees(latest, before))
  }

  /** The three-way merge of one condition type. */
  function ThreeWay(before: Option<Condition>, after: Option<Condition>, latest: Option<Condition>, forced: bool,
          now: Time): Resolution {
    var wanted := if after.Some? then Some(Stamp(latest, after.value, now)) else None;
    if after == before then Resolved(latest)
    else if forced then Resolved(wanted)
    else if Agrees(latest, after) then Resolved(latest)
    else if Unmoved(latest, before, after.None?) then Resolved(wanted)
    else Clash
  }

  function MergeAt(before: seq<Condition>, after: seq<Condition>, latest: seq<Condition>, opts: ApplyOptions,
          clock: Clock, t: string): Resolution {
    ThreeWay(Lookup(before, t), Lookup(after, t), Lookup(latest, t), opts.Forces(t), clock(t))
  }

  lemma ThreeWayOfDiff(before: Option<Condition>, after: Option<Condition>, latest: Option<Condition>, forced: bool,
          now: Time)
    ensures ThreeWay(before, after, latest, forced, now) ==
            match Diff(before, after)
            case None => Resolved(latest)
            case Some(op) =>
              if Judge(op, latest, forced) == Conflict then Clash else Resolved(Effect(op, latest, forced, now))
  {
    match (before, after)
    case (None, None) =>
    case (None, Some(a)) =>
    case (Some(b), None) =>
    case (Some(b), Some(a)) =>
  }

  /** The list-level diff and replay refine the per-type three-way merge. */
  lemma ApplyRefinesThreeWayMerge(before: seq<Condition>, after: seq<Condition>, latest: seq<Condition>,
          opts: ApplyOptions, clock: Clock)
    requires Unique(before) && Unique(after) && Unique(latest)
    ensures var r := ApplyOps(NewPatchOps(before, after), latest, opts, clock);
            r.Ok? <==> forall t :: MergeAt(before, after, latest, opts, clock, t) != Clash
    ensures var r := ApplyOps(NewPatchOps(before, after), latest, opts, clock);
            r.Err? ==> MergeAt(before, after, latest, opts, clock, r.error) == Clash
    ensures var r := ApplyOps(NewPatchOps(before, after), latest, opts, clock);
            r.Ok? ==>
              && Unique(r.value)
              && (Sorted(latest) ==> Sorted(r.value))
              && forall t :: MergeAt(before, after, latest, opts, clock, t) == Resolved(Lookup(r.value, t))
  {
    var ops := NewPatchOps(before, after);
    NewPatchIsPerTypeDiff(before, after);
    ApplyIsDecidedPerType(ops, latest, opts, clock);
    forall t
      ensures MergeAt(before, after, latest, opts, clock, t) ==
              if Clashes(ops, latest, opts, t) then Clash else Resolved(Outcome(ops, latest, opts, clock, t))
    {
      assert OpFor(ops, t) == Diff(Lookup(before, t), Lookup(after, t));
      ThreeWayOfDiff(Lookup(before, t), Lookup(after, t), Lookup(latest, t), opts.Forces(t), clock(t));
    }
  }

  /**
   The writer changed the type, may not overwrite it, does not find it as it wants it, and it was
   moved since the writer read it. A removal does not mind a moved time.
   */
  predicate MustNotMerge(before: seq<Condition>, after: seq<Condition>, latest: seq<Condition>, opts: ApplyOptions,
          t: string) {
    var b, a, l := Lookup(before, t), Lookup(after, t), Lookup(latest, t);
    && a != b && !opts.force && t !in opts.owned
    && TimelessOption(l) != TimelessOption(a) && l != b && !(a.None? && TimelessOption(l) == TimelessOption(b))
  }

  lemma ClashesExactly(before: seq<Condition>, after: seq<Condition>, latest: seq<Condition>, opts: ApplyOptions,
          clock: Clock, t: string)
    ensures MergeAt(before, after, latest, opts, clock, t) == Clash <==> MustNotMerge(before, after, latest, opts, t)
    ensures MergeAt(before, after, latest, opts, clock, t).Resolved? ==>
              var b, a, l := Lookup(before, t), Lookup(after, t), Lookup(latest, t);
              var r := MergeAt(before, after, latest, opts, clock, t).value;
              if a == b then r == l else TimelessOption(r) == TimelessOption(a)
  {
    hide Lookup;
  }

  /**
   The merge in words. It fails if and only if some type must not merge. Otherwise a type the
   writer left alone stays as it is in `latest`, one it changed ends in the state the writer
   wants, and times move exactly where states do.
   */
  lemma MergeFailsExactly(before: seq<Condition>, after: seq<Condition>, latest: seq<Condition>, opts: ApplyOptions,
          clock: Clock)
    requires Unique(before) && Unique(after) && Unique(latest)
    ensures var r := ApplyOps(NewPatchOps(before, after), latest, opts, clock);
            r.Err? <==> exists t :: MustNotMerge(before, after, latest, opts, t)
    ensures var r := ApplyOps(NewPatchOps(before, after), latest, opts, clock);
            r.Ok? ==> TimesMove(latest, r.value, clock) && forall t ::
              if Lookup(after, t) == Lookup(before, t) then Lookup(r.value, t) == Lookup(latest, t)
              else TimelessOption(Lookup(r.value, t)) == TimelessOption(Lookup(after, t))
  {
    hide ApplyOps, NewPatchOps, MergeAt, MustNotMerge, TimesMove, TimelessOption;
    ApplyRefinesThreeWayMerge(before, after, latest, opts, clock);
    NewPatchIsPerTypeDiff(before, after);
    var r := ApplyOps(NewPatchOps(before, after), latest, opts, clock);
    if r.Ok? {
      ApplyMovesTimes(NewPatchOps(before, after), latest, opts, clock);
    }
    forall t
      ensures MergeAt(before, after, latest, opts, clock, t) == Clash <==> MustNotMerge(before, after, latest, opts, t)
      ensures r.Ok? ==>
        if Lookup(after, t) == Lookup(before, t) then Lookup(r.value, t) == Lookup(latest, t)
        else TimelessOption(Lookup(r.value, t)) == TimelessOption(Lookup(after, t))
    {
      ClashesExactly(before, after, latest, opts, clock, t);
      assert r.Ok? ==> MergeAt(before, after, latest, opts, clock, t) == Resolved(Lookup(r.value, t));
    }
  }

  // ---------------------------------------------------------------- the imperative form

  /** Applying `was` to `cs` has done its first `i` operations: the list is now `latest`. */
  ghost predicate Progress(was: seq<PatchOp>, cs: seq<Condition>, opts: ApplyOptions, clock: Clock,
          ops: seq<PatchOp>, latest: seq<Condition>, i: nat)
    requires i <= |ops|
  {
    && ApplyOps(was, cs, opts, clock) == ApplyOps(ops[i..], latest, opts, clock)
    && RestampOps(was, cs, opts, clock) == ops[..i] + RestampOps(ops[i..], latest, opts, clock)
  }

  lemma ProgressBegins(ops: seq<PatchOp>, cs: seq<Condition>, opts: ApplyOptions, clock: Clock)
    ensures Progress(ops, cs, opts, clock, ops, cs, 0)
  {
    assert ops[0..] == ops && ops[..0] == [];
  }

  lemma ProgressGoesOn(was: seq<PatchOp>, cs: seq<Condition>, opts: ApplyOptions, clock: Clock, ops: seq<PatchOp>,
          latest: seq<Condition>, i: nat, next: seq<Condition>)
    requires i < |ops| && Progress(was, cs, opts, clock, ops, latest, i)
    requires ApplyOp(ops[i], latest, opts, clock) == Ok(next)
    ensures Progress(was, cs, opts, clock, ops[i := Restamp(ops[i], latest, opts, clock)], next, i + 1)
  {
    var rest := ops[i..];
    assert rest[1..] == ops[i + 1..] && rest[0] == ops[i];
    var stamped := Restamp(ops[i], latest, opts, clock);
    var ops' := ops[i := stamped];
    assert ops'[..i + 1] == ops[..i] + [stamped] && ops'[i + 1..] == rest[1..];
    assert RestampOps(rest, latest, opts, clock) == [stamped] + RestampOps(rest[1..], next, opts, clock);
    Associate(ops[..i], [stamped], RestampOps(rest[1..], next, opts, clock));
  }

  lemma ProgressStops(was: seq<PatchOp>, cs: seq<Condition>, opts: ApplyOptions, clock: Clock, ops: seq<PatchOp>,
          latest: seq<Condition>, i: nat, t: string)
    requires i < |ops| && Progress(was, cs, opts, clock, ops, latest, i)
    requires ApplyOp(ops[i], latest, opts, clock) == Err(t)
    ensures ApplyOps(was, cs, opts, clock) == Err(t) && RestampOps(was, cs, opts, clock) == ops
  {
    var rest := ops[i..];
    assert rest[0] == ops[i] && ops == ops[..i] + rest;
    assert RestampOps(rest, latest, opts, clock) == rest;
  }

  lemma ProgressEnds(was: seq<PatchOp>, cs: seq<Condition>, opts: ApplyOptions, clock: Clock, ops: seq<PatchOp>,
          latest: seq<Condition>)
    requires Progress(was, cs, opts, clock, ops, latest, |ops|)
    ensures ApplyOps(was, cs, opts, clock) == Ok(latest) && RestampOps(was, cs, opts, clock) == ops
  {
    assert ops[|ops|..] == [] && ops[..|ops|] == ops;
  }

  /** `Patch`: the operations share the conditions they point to, and `Apply` rewrites those. */
  class Patch {
    var ops: seq<PatchOp>

    constructor (operations: seq<PatchOp>)
      ensures ops == operations
    {
      ops := operations;
    }

    /** `Apply`; returns the type of the condition that caused a merge conflict, if any. */
    method Apply(latest: Setter, opts: ApplyOptions, clock: Clock) returns (conflict: Option<string>)
      modifies this, latest
      ensures conflict.None? ==> ApplyOps(old(ops), old(latest.conditions), opts, clock) == Ok(latest.conditions)
      ensures conflict.Some? ==> ApplyOps(old(ops), old(latest.conditions), opts, clock) == Err(conflict.value)
      ensures ops == RestampOps(old(ops), old(latest.conditions), opts, clock)
    {
      hide Progress, ApplyOps, RestampOps;
      ghost var was, cs := ops, latest.conditions;
      ProgressBegins(ops, latest.conditions, opts, clock);
      for i := 0 to |ops|
        invariant |ops| == |was| && Progress(was, cs, opts, clock, ops, latest.conditions, i)
      {
        conflict := ApplyNext(i, latest, opts, clock, was, cs);
        if conflict.Some? {
          return;
        }
      }
      ProgressEnds(was, cs, opts, clock, ops, latest.conditions);
      conflict := None;
    }

    method ApplyNext(i: nat, latest: Setter, opts: ApplyOptions, clock: Clock, ghost was: seq<PatchOp>,
            ghost cs: seq<Condition>)
      returns (conflict: Option<string>)
      requires i < |ops| && Progress(was, cs, opts, clock, ops, latest.conditions, i)
      modifies this, latest
      ensures |ops| == |old(ops)|
      ensures conflict.None? ==> Progress(was, cs, opts, clock, ops, latest.conditions, i + 1)
      ensures conflict.Some? ==>
                ApplyOps(was, cs, opts, clock) == Err(conflict.value) && RestampOps(was, cs, opts, clock) == ops
    {
      ghost var prior := latest.conditions;
      var done := ApplyOperation(ops[i], latest, opts, clock);
      if done.Err? {
        ProgressStops(was, cs, opts, clock, ops, prior, i, done.error);
        return Some(done.error);
      }
      ProgressGoesOn(was, cs, opts, clock, ops, prior, i, latest.conditions);
      ops := ops[i := done.value];
      conflict := None;
    }
  }

  /** The body of the loop in `Apply`: one operation against `latest`. */
  method ApplyOperation(op: PatchOp, latest: Setter, opts: ApplyOptions, clock: Clock)
    returns (r: Result<PatchOp, string>)
    modifies latest
    ensures r.Ok? ==> ApplyOp(op, old(latest.conditions), opts, clock) == Ok(latest.conditions)
    ensures r.Ok? ==> r.value == Restamp(op, old(latest.conditions), opts, clock)
    ensures r.Err? ==> ApplyOp(op, old(latest.conditions), opts, clock) == Err(r.error)
    ensures r.Err? ==> latest.conditions == old(latest.conditions)
  {
    var t := op.Type();
    var forced := opts.force || t in opts.owned;
    var current := latest.Get(t);
    match op
    case Add(after) =>
      if !forced && current.Some? {
        return if SameState(current.value, after) then Ok(op) else Err(t);
      }
      var stamped := latest.Set(after, clock(t));
      r := Ok(Add(stamped));
    case Change(before, after) =>
      if !forced {
        if current.None? {
          return Err(t);
        }
        if current.value != before {
          return if SameState(current.value, after) then Ok(op) else Err(t);
        }
      }
      var stamped := latest.Set(after, clock(t));
      r := Ok(Change(before, stamped));
    case Remove(before) =>
      if !forced && current.Some? && !SameState(current.value, before) {
        return Err(t);
      }
      latest.Delete(t);
      r := Ok(op);
  }

  method AddOrChange(current: Option<Condition>, target: Condition) returns (step: seq<PatchOp>)
    ensures step == ToSeq(Diff(current, Some(target)))
  {
    step := [];
    if current.None? {
      step := step + [Add(target)];
    } else if target != current.value {
      step := step + [Change(current.value, target)];
    }
  }

  method NewPatch(before: Setter, after: Setter) returns (patch: Patch)
    ensures fresh(patch) && patch.ops == NewPatchOps(before.conditions, after.conditions)
  {
    var ops: seq<PatchOp> := [];
    var target := after.conditions;
    for i := 0 to |target|
      invariant AddsAndChanges(before.conditions, target) == ops + AddsAndChanges(before.conditions, target[i..])
    {
      AddsAndChangesStep(before.conditions, target, i, ops);
      var current := before.Get(target[i].ctype);
      var step := AddOrChange(current, target[i]);
      ops := ops + step;
    }
    ops := AppendRemovals(ops, before, after);
    patch := new Patch(ops);
  }

  /** The second loop of `NewPatch`. */
  method AppendRemovals(patch: seq<PatchOp>, before: Setter, after: Setter) returns (ops: seq<PatchOp>)
    ensures ops == patch + Removals(before.conditions, after.conditions)
  {
    var removals: seq<PatchOp> := [];
    var base := before.conditions;
    for i := 0 to |base|
      invariant Removals(base, after.conditions) == removals + Removals(base[i..], after.conditions)
    {
      RemovalsStep(base, after.conditions, i, removals);
      var wanted := after.Get(base[i].ctype);
      if wanted.None? {
        removals := removals + [Remove(base[i])];
      }
    }
    ops := patch + removals;
  }
}
