/**
 Any number of writers patching the conditions of one object under an optimistic lock
 (`patchStatusConditions`, pkg/util/patch/helper.go). The server keeps every version it ever
 committed; a schedule is an arbitrary sequence of steps, and a step that is not possible in
 a state leaves the state alone, so a theorem about all schedules is one about all
 interleavings.
 */
module PatchWriters {
  import opened Prelude
  import opened Conditions
  import opened ConditionPatch
  import opened PatchLaws

  /** `wait.Backoff{Steps: 5}` */
  const STEPS := 5

  datatype Phase =
    | Idle
    | Loaded(version: nat, latest: seq<Condition>)
    | Merging(version: nat, latest: seq<Condition>, applied: seq<PatchOp>, clock: Clock, merged: seq<Condition>)
    | Done
    | Failed

  /**
   A call of `patchStatusConditions`. `ops` is the shared diff, whose transition times earlier
   attempts may have rewritten; `loads` and `sends` count the calls to the API server.
   */
  datatype Writer = Writer(
    before: seq<Condition>,
    after: seq<Condition>,
    opts: ApplyOptions,
    ops: seq<PatchOp>,
    loads: nat,
    sends: nat,
    phase: Phase)

  /** A committed version: who wrote it, with which operations, and the resulting list. */
  datatype Version = Version(author: Option<nat>, ops: seq<PatchOp>, clock: Clock, conditions: seq<Condition>)

  datatype System = System(history: seq<Version>, writers: seq<Writer>)

  datatype Step =
    /** A reconciler that once read `version` starts patching towards `after`. */
    | Enter(version: nat, after: seq<Condition>, opts: ApplyOptions)
    /** The closure starts with a read, which a cache may answer with an old version. */
    | Load(writer: nat, version: nat)
    | Merge(writer: nat, clock: Clock)
    | Send(writer: nat)
    /** Any client error that is not a conflict. */
    | Abort(writer: nat)
    /** Somebody changes another part of the object, which moves the resource version. */
    | Touch

  ghost predicate Enabled(s: System, step: Step) {
    match step
    case Enter(v, after, _) => v < |s.history| && Unique(after)
    case Load(w, v) => w < |s.writers| && s.writers[w].phase.Idle? && s.writers[w].loads < STEPS && v < |s.history|
    case Merge(w, _) => w < |s.writers| && s.writers[w].phase.Loaded?
    case Send(w) => w < |s.writers| && s.writers[w].phase.Merging?
    case Abort(w) =>
      w < |s.writers| && (s.writers[w].phase.Loaded? || s.writers[w].phase.Merging? || s.writers[w].phase.Idle?)
    case Touch => s.history != []
  }

  ghost function Do(s: System, step: Step): System {
    if !Enabled(s, step) then s
    else
      match step
      case Enter(v, after, opts) =>
        var before := s.history[v].conditions;
        var diff := NewPatchOps(before, after);
        s.(writers := s.writers + [Writer(before, after, opts, diff, 0, 0, if diff == [] then Done else Idle)])
      case Load(w, v) =>
        var me := s.writers[w];
        s.(writers := s.writers[w := me.(loads := me.loads + 1, phase := Loaded(v, s.history[v].conditions))])
      case Merge(w, clock) =>
        var me := s.writers[w];
        var latest := me.phase.latest;
        var phase :=
          match ApplyOps(me.ops, latest, me.opts, clock)
          case Ok(merged) => Merging(me.phase.version, latest, me.ops, clock, merged)
          case Err(_) => Failed;
        s.(writers := s.writers[w := me.(ops := RestampOps(me.ops, latest, me.opts, clock), phase := phase)])
      case Send(w) =>
        var me := s.writers[w].(sends := s.writers[w].sends + 1);
        var p := me.phase;
        if p.version == |s.history| - 1 then
          System(s.history + [Version(Some(w), p.applied, p.clock, p.merged)], s.writers[w := me.(phase := Done)])
        else
          s.(writers := s.writers[w := me.(phase := if me.loads < STEPS then Idle else Failed)])
      case Abort(w) => s.(writers := s.writers[w := s.writers[w].(phase := Failed)])
      case Touch => s.(history := s.history + [s.history[|s.history| - 1].(author := None)])
  }

  ghost function Run(s: System, steps: seq<Step>): System
    decreases |steps|
  {
    if steps == [] then s else Run(Do(s, steps[0]), steps[1..])
  }

  ghost function Initial(cs: seq<Condition>): System {
    System([Version(None, [], _ => ZERO_TIME, cs)], [])
  }

  // ---------------------------------------------------------------- operations up to times

  ghost predicate SameOps(p: seq<PatchOp>, q: seq<PatchOp>) {
    |p| == |q| && forall i :: 0 <= i < |p| ==> SameOperation(p[i], q[i])
  }

  lemma {:induction false} SameOpsSameOpFor(p: seq<PatchOp>, q: seq<PatchOp>)
    requires SameOps(p, q)
    ensures Distinct(p) <==> Distinct(q)
    ensures forall t :: OpFor(p, t).Some? == OpFor(q, t).Some?
    ensures forall t :: OpFor(p, t).Some? ==> SameOperation(OpFor(p, t).value, OpFor(q, t).value)
  {
    if p != [] {
      assert SameOperation(p[0], q[0]);
      assert SameOps(p[1..], q[1..]);
      SameOpsSameOpFor(p[1..], q[1..]);
    }
  }

  lemma JudgeIgnoresTimeOfAfter(p: PatchOp, q: PatchOp, latest: Option<Condition>, forced: bool, now: Time)
    requires SameOperation(p, q)
    ensures Judge(p, latest, forced) == Judge(q, latest, forced)
    ensures TimelessOption(Effect(p, latest, forced, now)) == TimelessOption(Effect(q, latest, forced, now))
  {
  }

  /** A diff whose times were rewritten by earlier attempts still merges as the original does. */
  lemma RestampedDiffMerges(before: seq<Condition>, after: seq<Condition>, ops: seq<PatchOp>, latest: seq<Condition>,
          opts: ApplyOptions, clock: Clock)
    requires Unique(before) && Unique(after) && Unique(latest)
    requires SameOps(ops, NewPatchOps(before, after))
    requires ApplyOps(ops, latest, opts, clock).Ok?
    ensures MergesTo(before, after, latest, opts, clock, ApplyOps(ops, latest, opts, clock).value)
    ensures Unique(ApplyOps(ops, latest, opts, clock).value)
    ensures Sorted(latest) ==> Sorted(ApplyOps(ops, latest, opts, clock).value)
  {
    var diff := NewPatchOps(before, after);
    NewPatchIsPerTypeDiff(before, after);
    SameOpsSameOpFor(ops, diff);
    ApplyIsDecidedPerType(ops, latest, opts, clock);
    ApplyMovesTimes(ops, latest, opts, clock);
    var r := ApplyOps(ops, latest, opts, clock).value;
    forall t
      ensures MergeAt(before, after, latest, opts, clock, t) != Clash
      ensures TimelessOption(MergeAt(before, after, latest, opts, clock, t).value) == TimelessOption(Lookup(r, t))
      ensures Lookup(before, t) == Lookup(after, t) ==> Lookup(r, t) == Lookup(latest, t)
    {
      assert OpFor(diff, t) == Diff(Lookup(before, t), Lookup(after, t));
      assert !Clashes(ops, latest, opts, t);
      assert Lookup(r, t) == Outcome(ops, latest, opts, clock, t);
      ThreeWayOfDiff(Lookup(before, t), Lookup(after, t), Lookup(latest, t), opts.Forces(t), clock(t));
      if OpFor(ops, t).Some? {
        JudgeIgnoresTimeOfAfter(OpFor(ops, t).value, OpFor(diff, t).value, Lookup(latest, t), opts.Forces(t), clock(t));
      }
    }
  }

  lemma RestampedDiffClashes(before: seq<Condition>, after: seq<Condition>, ops: seq<PatchOp>,
          latest: seq<Condition>, opts: ApplyOptions, clock: Clock)
    requires Unique(before) && Unique(after) && Unique(latest)
    requires SameOps(ops, NewPatchOps(before, after))
    requires ApplyOps(ops, latest, opts, clock).Err?
    ensures MergeAt(before, after, latest, opts, clock, ApplyOps(ops, latest, opts, clock).error) == Clash
  {
    var t := ApplyOps(ops, latest, opts, clock).error;
    var diff := NewPatchOps(before, after);
    NewPatchIsPerTypeDiff(before, after);
    SameOpsSameOpFor(ops, diff);
    ApplyIsDecidedPerType(ops, latest, opts, clock);
    assert OpFor(diff, t) == Diff(Lookup(before, t), Lookup(after, t));
    ThreeWayOfDiff(Lookup(before, t), Lookup(after, t), Lookup(latest, t), opts.Forces(t), clock(t));
    JudgeIgnoresTimeOfAfter(OpFor(ops, t).value, OpFor(diff, t).value, Lookup(latest, t), opts.Forces(t), clock(t));
  }

  /**
   `next` is the three-way merge of `latest` with the writer's change, type by type and up to
   transition times, types the writer did not touch are exactly as in `latest`, and times move
   exactly where states do.
   */
  ghost predicate MergesTo(before: seq<Condition>, after: seq<Condition>, latest: seq<Condition>, opts: ApplyOptions,
          clock: Clock, next: seq<Condition>) {
    && TimesMove(latest, next, clock)
    && forall t ::
      && MergeAt(before, after, latest, opts, clock, t).Resolved?
      && TimelessOption(MergeAt(before, after, latest, opts, clock, t).value) == TimelessOption(Lookup(next, t))
      && (Lookup(before, t) == Lookup(after, t) ==> Lookup(next, t) == Lookup(latest, t))
  }

  // ---------------------------------------------------------------- the invariant

  ghost predicate ValidWriter(history: seq<Version>, me: Writer) {
    && Unique(me.before) && Unique(me.after)
    && SameOps(me.ops, NewPatchOps(me.before, me.after))
    && me.loads <= STEPS
    && me.sends <= me.loads
    && (me.phase.Idle? ==> me.sends == me.loads < STEPS)
    && (me.phase.Loaded? || me.phase.Merging? ==>
          && me.sends + 1 == me.loads
          && me.phase.version < |history|
          && me.phase.latest == history[me.phase.version].conditions)
    && (me.phase.Merging? ==>
          && SameOps(me.phase.applied, NewPatchOps(me.before, me.after))
          && ApplyOps(me.phase.applied, me.phase.latest, me.opts, me.phase.clock) == Ok(me.phase.merged))
  }

  /** `next` is one writer's merge with the version just before it, or leaves the list alone. */
  ghost predicate Follows(writers: seq<Writer>, prev: Version, next: Version) {
    if next.author.None? then next.conditions == prev.conditions
    else
      && next.author.value < |writers|
      && var me := writers[next.author.value];
         && me.phase.Done?
         && SameOps(next.ops, NewPatchOps(me.before, me.after))
         && ApplyOps(next.ops, prev.conditions, me.opts, next.clock) == Ok(next.conditions)
         && MergesTo(me.before, me.after, prev.conditions, me.opts, next.clock, next.conditions)
  }

  ghost predicate Inv(s: System) {
    && s.history != []
    && s.history[0].author.None?
    && (forall k :: 0 <= k < |s.history| ==> Unique(s.history[k].conditions))
    && (forall w :: 0 <= w < |s.writers| ==> ValidWriter(s.history, s.writers[w]))
    && (forall k :: 0 < k < |s.history| ==> Follows(s.writers, s.history[k - 1], s.history[k]))
    && (forall j, k :: 0 <= j < k < |s.history| && s.history[j].author.Some? ==>
        s.history[j].author != s.history[k].author)
  }

  lemma SameOperationsCompose(p: seq<PatchOp>, q: seq<PatchOp>, r: seq<PatchOp>)
    requires SameOps(p, q) && SameOps(q, r)
    ensures SameOps(p, r)
  {
    forall i | 0 <= i < |p| ensures SameOperation(p[i], r[i]) {
      assert SameOperation(p[i], q[i]) && SameOperation(q[i], r[i]);
    }
  }

  lemma StepKeepsHistory(s: System, step: Step)
    requires Inv(s)
    ensures var n := Do(s, step);
            && |s.history| <= |n.history| && n.history[..|s.history|] == s.history
            && |s.writers| <= |n.writers|
            && forall w :: 0 <= w < |s.writers| ==>
                 && n.writers[w].before == s.writers[w].before && n.writers[w].after == s.writers[w].after
                 && n.writers[w].opts == s.writers[w].opts
                 && (s.writers[w].phase.Done? ==> n.writers[w] == s.writers[w])
  {
    hide NewPatchOps, ApplyOps, RestampOps;
  }

  /** What a commit adds to the history. */
  lemma CommitFollows(s: System, w: nat)
    requires Inv(s) && Enabled(s, Send(w)) && s.writers[w].phase.version == |s.history| - 1
    ensures var n := Do(s, Send(w));
            && |n.history| == |s.history| + 1 && Unique(n.history[|s.history|].conditions)
            && Follows(n.writers, s.history[|s.history| - 1], n.history[|s.history|])
  {
    var me := s.writers[w];
    var prev := s.history[|s.history| - 1];
    assert ValidWriter(s.history, me);
    RestampedDiffMerges(me.before, me.after, me.phase.applied, prev.conditions, me.opts, me.phase.clock);
  }

  /** What was committed stays explained, because a writer that is done does not change. */
  lemma HistoryStaysExplained(s: System, step: Step, k: nat)
    requires Inv(s) && 0 < k < |s.history|
    ensures var n := Do(s, step);
            k < |n.history| && n.history[k - 1] == s.history[k - 1] && n.history[k] == s.history[k] &&
            Follows(n.writers, n.history[k - 1], n.history[k])
  {
    var n := Do(s, step);
    StepKeepsHistory(s, step);
    assert n.history[k - 1] == n.history[..|s.history|][k - 1] && n.history[k] == n.history[..|s.history|][k];
    FollowsStays(s.writers, n.writers, s.history[k - 1], s.history[k]);
  }

  lemma FollowsStays(writers: seq<Writer>, now: seq<Writer>, prev: Version, next: Version)
    requires Follows(writers, prev, next) && |writers| <= |now|
    requires forall w :: 0 <= w < |writers| && writers[w].phase.Done? ==> now[w] == writers[w]
    ensures Follows(now, prev, next)
  {
  }

  lemma ValidWriterStays(history: seq<Version>, v: Version, me: Writer)
    requires ValidWriter(history, me)
    ensures ValidWriter(history + [v], me)
  {
  }

  /** A writer that can still send has committed nothing. */
  lemma SenderIsNew(s: System, w: nat, k: nat)
    requires Inv(s) && Enabled(s, Send(w)) && k < |s.history|
    ensures s.history[k].author != Some(w)
  {
    assert k > 0 ==> Follows(s.writers, s.history[k - 1], s.history[k]);
  }

  lemma CommitKeepsInv(s: System, w: nat)
    requires Inv(s) && Enabled(s, Send(w)) && s.writers[w].phase.version == |s.history| - 1
    ensures Inv(Do(s, Send(w)))
  {
    hide Follows, MergesTo, ValidWriter, ApplyOps, NewPatchOps, RestampOps;
    var n := Do(s, Send(w));
    CommitFollows(s, w);
    forall k | 0 < k < |n.history| ensures Follows(n.writers, n.history[k - 1], n.history[k]) {
      if k < |s.history| {
        HistoryStaysExplained(s, Send(w), k);
      }
    }
    forall v | 0 <= v < |n.writers| ensures ValidWriter(n.history, n.writers[v]) {
      CommitKeepsWriters(s, w, v);
    }
    forall j, k | 0 <= j < k < |n.history| && n.history[j].author.Some?
      ensures n.history[j].author != n.history[k].author
    {
      SenderIsNew(s, w, j);
      assert n.history[j] == s.history[j] && (k < |s.history| ==> n.history[k] == s.history[k]);
    }
  }

  lemma CommitKeepsWriters(s: System, w: nat, v: nat)
    requires Inv(s) && Enabled(s, Send(w)) && v < |s.writers|
    ensures ValidWriter(Do(s, Send(w)).history, Do(s, Send(w)).writers[v])
  {
    var n := Do(s, Send(w));
    assert ValidWriter(s.history, s.writers[v]);
    if v != w && |n.history| > |s.history| {
      ValidWriterStays(s.history, n.history[|s.history|], s.writers[v]);
    }
  }

  lemma SendKeepsInv(s: System, w: nat)
    requires Inv(s) && Enabled(s, Send(w))
    ensures Inv(Do(s, Send(w)))
  {
    if s.writers[w].phase.version == |s.history| - 1 {
      CommitKeepsInv(s, w);
    } else {
      var n := Do(s, Send(w));
      forall v | 0 <= v < |n.writers| ensures ValidWriter(n.history, n.writers[v]) {
        CommitKeepsWriters(s, w, v);
      }
      PrivateStepKeepsInv(s, Send(w));
    }
  }

  /** A step that commits nothing only has to keep its own writer valid. */
  lemma PrivateStepKeepsInv(s: System, step: Step)
    requires Inv(s) && Enabled(s, step) && Do(s, step).history == s.history
    requires forall w :: 0 <= w < |Do(s, step).writers| ==> ValidWriter(Do(s, step).history, Do(s, step).writers[w])
    ensures Inv(Do(s, step))
  {
    var n := Do(s, step);
    forall k | 0 < k < |n.history| ensures Follows(n.writers, n.history[k - 1], n.history[k]) {
      HistoryStaysExplained(s, step, k);
    }
  }

  lemma MergeKeepsInv(s: System, w: nat, clock: Clock)
    requires Inv(s) && Enabled(s, Merge(w, clock))
    ensures Inv(Do(s, Merge(w, clock)))
  {
    var n := Do(s, Merge(w, clock));
    forall v | 0 <= v < |n.writers| ensures ValidWriter(n.history, n.writers[v]) {
      var me := s.writers[v];
      assert ValidWriter(s.history, me);
      if v == w {
        RestampKeepsStates(me.ops, me.phase.latest, me.opts, clock);
        SameOperationsCompose(n.writers[v].ops, me.ops, NewPatchOps(me.before, me.after));
      }
    }
    PrivateStepKeepsInv(s, Merge(w, clock));
  }

  lemma TouchKeepsInv(s: System)
    requires Inv(s)
    ensures Inv(Do(s, Touch))
  {
    var n := Do(s, Touch);
    forall k | 0 < k < |n.history| ensures Follows(n.writers, n.history[k - 1], n.history[k]) {
      if k < |s.history| {
        HistoryStaysExplained(s, Touch, k);
      }
    }
    forall v | 0 <= v < |n.writers| ensures ValidWriter(n.history, n.writers[v]) {
      ValidWriterStays(s.history, n.history[|s.history|], s.writers[v]);
    }
  }

  lemma EnterLoadAbortKeepInv(s: System, step: Step)
    requires Inv(s) && Enabled(s, step) && (step.Enter? || step.Load? || step.Abort?)
    ensures Inv(Do(s, step))
  {
    var n := Do(s, step);
    forall v | 0 <= v < |n.writers| ensures ValidWriter(n.history, n.writers[v]) {
      assert v < |s.writers| ==> ValidWriter(s.history, s.writers[v]);
      if step.Enter? && v == |s.writers| {
        forall op: PatchOp ensures SameOperation(op, op) {}
      }
    }
    PrivateStepKeepsInv(s, step);
  }

  lemma StepKeepsInv(s: System, step: Step)
    requires Inv(s)
    ensures Inv(Do(s, step))
  {
    if Enabled(s, step) {
      match step
      case Merge(w, clock) => MergeKeepsInv(s, w, clock);
      case Send(w) => SendKeepsInv(s, w);
      case Touch => TouchKeepsInv(s);
      case _ => EnterLoadAbortKeepInv(s, step);
    }
  }

  lemma {:induction false} RunKeepsInv(s: System, steps: seq<Step>)
    requires Inv(s)
    ensures Inv(Run(s, steps))
    decreases |steps|
  {
    if steps != [] {
      StepKeepsInv(s, steps[0]);
      RunKeepsInv(Do(s, steps[0]), steps[1..]);
    }
  }

  // ---------------------------------------------------------------- theorems about every schedule

  /**
   Every committed version is exactly one writer's `Apply` of its own diff (up to the times
   earlier attempts wrote into it) to the version committed immediately before it, hence the
   three-way merge of the two, or leaves the conditions alone; a writer commits once.
   */
  lemma EveryCommitMergesWithItsPredecessor(cs: seq<Condition>, steps: seq<Step>, k: nat)
    requires Unique(cs)
    requires 0 < k < |Run(Initial(cs), steps).history|
    ensures var s := Run(Initial(cs), steps);
            var prev, next := s.history[k - 1].conditions, s.history[k].conditions;
            match s.history[k].author
            case None => next == prev
            case Some(w) =>
              && w < |s.writers| && s.writers[w].phase.Done?
              && SameOps(s.history[k].ops, NewPatchOps(s.writers[w].before, s.writers[w].after))
              && ApplyOps(s.history[k].ops, prev, s.writers[w].opts, s.history[k].clock) == Ok(next)
              && Unique(next) && (Sorted(prev) ==> Sorted(next))
              && MergesTo(s.writers[w].before, s.writers[w].after, prev, s.writers[w].opts, s.history[k].clock, next)
              && (forall j :: 0 <= j < |s.history| && s.history[j].author == Some(w) ==> j == k)
  {
    RunKeepsInv(Initial(cs), steps);
    var s := Run(Initial(cs), steps);
    assert Follows(s.writers, s.history[k - 1], s.history[k]);
    if s.history[k].author.Some? {
      var me := s.writers[s.history[k].author.value];
      assert ValidWriter(s.history, me);
      RestampedDiffMerges(me.before, me.after, s.history[k].ops, s.history[k - 1].conditions, me.opts,
          s.history[k].clock);
    }
  }

  ghost predicate Touches(s: System, k: nat, t: string)
    requires k < |s.history|
  {
    match s.history[k].author
    case None => false
    case Some(w) => w < |s.writers| && Lookup(s.writers[w].before, t) != Lookup(s.writers[w].after, t)
  }

  /**
   No update is lost: what version `j` says about a type stays, transition time included,
   until a writer that changes that very type commits.
   */
  lemma {:induction false} NoUpdateIsLost(cs: seq<Condition>, steps: seq<Step>, j: nat, k: nat, t: string)
    requires Unique(cs)
    requires j <= k < |Run(Initial(cs), steps).history|
    requires forall i :: j < i <= k ==> !Touches(Run(Initial(cs), steps), i, t)
    ensures var s := Run(Initial(cs), steps);
            Lookup(s.history[k].conditions, t) == Lookup(s.history[j].conditions, t)
  {
    if j < k {
      var s := Run(Initial(cs), steps);
      NoUpdateIsLost(cs, steps, j, k - 1, t);
      EveryCommitMergesWithItsPredecessor(cs, steps, k);
      assert !Touches(s, k, t);
    }
  }

  /** A writer reads anew before each send, and gives up after five attempts. */
  lemma AttemptsAreBounded(cs: seq<Condition>, steps: seq<Step>, w: nat)
    requires Unique(cs) && w < |Run(Initial(cs), steps).writers|
    ensures var me := Run(Initial(cs), steps).writers[w];
            me.sends <= me.loads <= 5 && (me.phase.Idle? ==> me.sends == me.loads < 5)
  {
    RunKeepsInv(Initial(cs), steps);
    assert ValidWriter(Run(Initial(cs), steps).history, Run(Initial(cs), steps).writers[w]);
  }

  /** A writer whose read is current and undisturbed commits what it merged. */
  lemma CurrentWriterCommits(s: System, w: nat, clock: Clock)
    requires Inv(s) && w < |s.writers| && s.writers[w].phase.Idle? && s.writers[w].loads < STEPS
    requires ApplyOps(s.writers[w].ops, s.history[|s.history| - 1].conditions, s.writers[w].opts, clock).Ok?
    ensures var n := Do(Do(Do(s, Load(w, |s.history| - 1)), Merge(w, clock)), Send(w));
            && w < |n.writers| && n.writers[w].phase.Done?
            && |n.history| == |s.history| + 1
            && Ok(n.history[|s.history|].conditions) ==
               ApplyOps(s.writers[w].ops, s.history[|s.history| - 1].conditions, s.writers[w].opts, clock)
  {
    var s1 := Do(s, Load(w, |s.history| - 1));
    var s2 := Do(s1, Merge(w, clock));
    assert s2.writers[w].phase.Merging?;
  }

  /** A call that has something to change goes on to read; one that has not is done at once. */
  lemma WritersBegin(s: System, version: nat, after: seq<Condition>, opts: ApplyOptions)
    requires Inv(s) && version < |s.history| && Unique(after)
    ensures var n := Do(s, Enter(version, after, opts));
            var before := s.history[version].conditions;
            && n.history == s.history && |n.writers| == |s.writers| + 1 && n.writers[..|s.writers|] == s.writers
            && var me := n.writers[|s.writers|];
               && me.before == before && me.after == after && me.opts == opts && me.loads == 0
               && if forall t :: Lookup(before, t) == Lookup(after, t) then me.phase.Done? else me.phase.Idle?
  {
    var before := s.history[version].conditions;
    var ops := NewPatchOps(before, after);
    NewPatchIsPerTypeDiff(before, after);
    forall t ensures OpFor(ops, t).None? <==> Lookup(before, t) == Lookup(after, t) {
      assert OpFor(ops, t) == Diff(Lookup(before, t), Lookup(after, t));
    }
    if ops != [] {
      assert OpFor(ops, ops[0].Type()).Some?;
    }
  }

  /** Somebody else's change of the object keeps the conditions and makes every read out of date. */
  lemma TouchOutdatesReads(s: System, w: nat)
    requires Inv(s) && w < |s.writers| && (s.writers[w].phase.Loaded? || s.writers[w].phase.Merging?)
    ensures var n := Do(s, Touch);
            && n.writers == s.writers && n.writers[w].phase.version < |n.history| - 1
            && n.history[|n.history| - 1].conditions == s.history[|s.history| - 1].conditions
  {
    assert ValidWriter(s.history, s.writers[w]);
  }

  /** The writer has failed and committed nothing. */
  ghost predicate GaveUp(s: System, w: nat) {
    w < |s.writers| && s.writers[w].phase.Failed? && forall k :: 0 <= k < |s.history| ==> s.history[k].author != Some(w)
  }

  lemma StepKeepsGivenUp(s: System, step: Step, w: nat)
    requires GaveUp(s, w)
    ensures GaveUp(Do(s, step), w)
  {
    hide NewPatchOps, ApplyOps, RestampOps;
  }

  lemma {:induction false} RunKeepsGivenUp(s: System, steps: seq<Step>, w: nat)
    requires GaveUp(s, w)
    ensures GaveUp(Run(s, steps), w)
    decreases |steps|
  {
    if steps != [] {
      StepKeepsGivenUp(s, steps[0], w);
      RunKeepsGivenUp(Do(s, steps[0]), steps[1..], w);
    }
  }

  /** After a client error a writer that has not committed never does, whatever follows. */
  lemma ClientErrorsAreFinal(s: System, w: nat, later: seq<Step>)
    requires Inv(s) && w < |s.writers| && !s.writers[w].phase.Done? && !s.writers[w].phase.Failed?
    ensures GaveUp(Run(Do(s, Abort(w)), later), w)
  {
    forall k | 0 <= k < |s.history| ensures s.history[k].author != Some(w) {
      assert k > 0 ==> Follows(s.writers, s.history[k - 1], s.history[k]);
    }
    RunKeepsGivenUp(Do(s, Abort(w)), later, w);
  }

  /** A writer whose version is out of date commits nothing and reads again, four times at most. */
  lemma OutdatedWriterRetries(s: System, w: nat)
    requires Inv(s) && w < |s.writers| && s.writers[w].phase.Merging? && s.writers[w].phase.version < |s.history| - 1
    ensures var n := Do(s, Send(w));
            && n.history == s.history && n.writers == s.writers[w := n.writers[w]]
            && (s.writers[w].loads < 5 ==> n.writers[w].phase.Idle?)
            && (s.writers[w].loads == 5 ==> n.writers[w].phase.Failed?)
  {
  }

  /** What a writer cannot merge it does not send. */
  lemma ConflictingWriterFails(s: System, w: nat, clock: Clock)
    requires Inv(s) && w < |s.writers| && s.writers[w].phase.Loaded?
    requires exists t :: MustNotMerge(s.writers[w].before, s.writers[w].after, s.writers[w].phase.latest,
                                      s.writers[w].opts, t)
    ensures Do(s, Merge(w, clock)).writers[w].phase.Failed? && Do(s, Merge(w, clock)).history == s.history
  {
    var me := s.writers[w];
    var t :| MustNotMerge(me.before, me.after, me.phase.latest, me.opts, t);
    assert ValidWriter(s.history, me);
    ClashesExactly(me.before, me.after, me.phase.latest, me.opts, clock, t);
    if ApplyOps(me.ops, me.phase.latest, me.opts, clock).Ok? {
      RestampedDiffMerges(me.before, me.after, me.ops, me.phase.latest, me.opts, clock);
    }
  }

  // ---------------------------------------------------------------- the retry loop itself

  datatype Reply = Accepted | Conflicted | Rejected

  /** How the API server treats one attempt: what the read returns and how the send ends. */
  datatype Attempt = Attempt(read: Result<seq<Condition>, string>, clock: Clock, reply: Reply)

  datatype Patched =
    | NothingToDo
    | Committed(conditions: seq<Condition>)
    | MergeConflict(ctype: string)
    | ClientError
    | TimedOut

  /** The closure handed to the backoff loop; `None` asks for another attempt. */
  method AttemptPatch(diff: Patch, opts: ApplyOptions, attempt: Attempt, ghost before: seq<Condition>,
          ghost after: seq<Condition>)
    returns (result: Option<Patched>)
    requires Unique(before) && Unique(after) && SameOps(diff.ops, NewPatchOps(before, after))
    requires attempt.read.Ok? ==> Unique(attempt.read.value)
    modifies diff
    ensures SameOps(diff.ops, NewPatchOps(before, after))
    ensures result.None? ==>
              attempt.read.Ok? && attempt.reply.Conflicted? && CanMerge(before, after, attempt.read.value, opts)
    ensures result.Some? ==> Settles(before, after, opts, attempt, result.value)
  {
    if attempt.read.Err? {
      return Some(ClientError);
    }
    var latest := new Setter(attempt.read.value);
    ghost var ops := diff.ops;
    var conflict := diff.Apply(latest, opts, attempt.clock);
    RestampKeepsStates(ops, attempt.read.value, opts, attempt.clock);
    SameOperationsCompose(diff.ops, ops, NewPatchOps(before, after));
    if conflict.Some? {
      RestampedDiffClashes(before, after, ops, attempt.read.value, opts, attempt.clock);
      ClashesExactly(before, after, attempt.read.value, opts, attempt.clock, conflict.value);
      return Some(MergeConflict(conflict.value));
    }
    RestampedDiffMerges(before, after, ops, attempt.read.value, opts, attempt.clock);
    MergedMeansMergeable(before, after, attempt.read.value, opts, attempt.clock, latest.conditions);
    match attempt.reply
    case Conflicted => result := None;
    case Rejected => result := Some(ClientError);
    case Accepted =>
      result := Some(Committed(latest.conditions));
  }

  /** No type must not merge. */
  ghost predicate CanMerge(before: seq<Condition>, after: seq<Condition>, latest: seq<Condition>, opts: ApplyOptions) {
    forall t :: !MustNotMerge(before, after, latest, opts, t)
  }

  lemma MergedMeansMergeable(before: seq<Condition>, after: seq<Condition>, latest: seq<Condition>, opts: ApplyOptions,
          clock: Clock, next: seq<Condition>)
    requires MergesTo(before, after, latest, opts, clock, next)
    ensures CanMerge(before, after, latest, opts)
  {
    hide MergeAt, MustNotMerge;
    forall t ensures !MustNotMerge(before, after, latest, opts, t) {
      ClashesExactly(before, after, latest, opts, clock, t);
      assert MergeAt(before, after, latest, opts, clock, t).Resolved?;
    }
  }

  /** What the last attempt of a call may report. */
  ghost predicate Settles(before: seq<Condition>, after: seq<Condition>, opts: ApplyOptions, attempt: Attempt,
          result: Patched) {
    match result
    case Committed(cs) =>
      && attempt.read.Ok? && attempt.reply.Accepted?
      && MergesTo(before, after, attempt.read.value, opts, attempt.clock, cs)
    case MergeConflict(t) =>
      && attempt.read.Ok? && MergeAt(before, after, attempt.read.value, opts, attempt.clock, t) == Clash
      && MustNotMerge(before, after, attempt.read.value, opts, t)
    case ClientError =>
      attempt.read.Err? || (attempt.reply.Rejected? && CanMerge(before, after, attempt.read.value, opts))
    case _ => false
  }

  /** `patchStatusConditions`, run against the answers it gets from the API server. */
  method PatchStatusConditions(before: Setter, after: Setter, opts: ApplyOptions, server: seq<Attempt>)
    returns (result: Patched, used: nat)
    requires Unique(before.conditions) && Unique(after.conditions) && |server| == STEPS
    requires forall a :: a in server && a.read.Ok? ==> Unique(a.read.value)
    ensures used <= STEPS
    ensures forall i :: 0 <= i < used - 1 ==> server[i].read.Ok? && server[i].reply.Conflicted?
    ensures match result
            case NothingToDo => used == 0 && NewPatchOps(before.conditions, after.conditions) == []
            case TimedOut => used == STEPS && forall i :: 0 <= i < STEPS ==> server[i].reply.Conflicted?
            case _ => 0 < used && Settles(before.conditions, after.conditions, opts, server[used - 1], result)
  {
    var diff := NewPatch(before, after);
    if diff.ops == [] {
      return NothingToDo, 0;
    }
    forall i | 0 <= i < |diff.ops| ensures SameOperation(diff.ops[i], diff.ops[i]) {}
    used := 0;
    while used < STEPS
      invariant 0 <= used <= STEPS
      invariant SameOps(diff.ops, NewPatchOps(before.conditions, after.conditions))
      invariant forall i :: 0 <= i < used ==> server[i].read.Ok? && server[i].reply.Conflicted?
    {
      used := used + 1;
      var settled := AttemptPatch(diff, opts, server[used - 1], before.conditions, after.conditions);
      if settled.Some? {
        return settled.value, used;
      }
    }
    result := TimedOut;
  }
}
