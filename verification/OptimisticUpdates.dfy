/**
 Read, modify, update with an optimistic lock, and again on conflict: the loop shared by
 `ReportRequest` and `LogRequest` (pkg/webhook/report.go, pkg/webhook/audit.go). Reads may come
 from a stale cache; the object may be removed and created anew at any moment. The module is
 generic in what a request does to the object, `change`.
 */
module OptimisticUpdates {
  import opened Prelude

  datatype Phase<T> = Reading | Loaded(version: nat, draft: T) | Done | GaveUp

  /** One request; `left` is its retry counter, `updates` counts its update calls. */
  datatype Writer<T, R> = Writer(request: R, retries: nat, left: nat, updates: nat, phase: Phase<T>)

  datatype Version<T> = Version(author: Option<nat>, value: T)

  /** Every version ever committed; `live`: the object exists, in its last version. */
  datatype System<T, R> = System(history: seq<Version<T>>, live: bool, writers: seq<Writer<T, R>>)

  datatype Step<R> =
    | Start(request: R, retries: nat)
    | Get(w: nat, version: nat)
    /** The read found nothing, so the object is created unless it exists after all. */
    | Create(w: nat)
    | Update(w: nat)
    /** Any other client error. */
    | Abort(w: nat)
    /** Somebody deletes the object. */
    | Remove

  /**
   How a request changes the object, what a new object holds, and whether conflicts count down the
   retries.
   */
  datatype Config<!T, !R> = Config(change: (T, R) -> T, empty: T, countdown: bool)

  predicate Enabled<T, R>(s: System<T, R>, step: Step<R>) {
    match step
    case Start(_, _) => true
    case Get(w, v) => w < |s.writers| && s.writers[w].phase.Reading? && v < |s.history|
    case Create(w) => w < |s.writers| && s.writers[w].phase.Reading?
    case Update(w) => w < |s.writers| && s.writers[w].phase.Loaded?
    case Abort(w) => w < |s.writers| && (s.writers[w].phase.Reading? || s.writers[w].phase.Loaded?)
    case Remove => true
  }

  function AfterConflict<T, R>(me: Writer<T, R>, countdown: bool): Writer<T, R>
    requires me.left > 0
  {
    var left := if countdown then me.left - 1 else me.left;
    me.(left := left, phase := if left == 0 then GaveUp else Reading)
  }

  /** A step that is not possible leaves the system alone. */
  function Do<T, R>(s: System<T, R>, step: Step<R>, c: Config<T, R>): System<T, R> {
    if !Enabled(s, step) then s
    else
      match step
      case Start(request, retries) =>
        s.(writers := s.writers + [Writer(request, retries, retries, 0, if retries == 0 then GaveUp else Reading)])
      case Get(w, v) =>
        var next := Loaded(v, c.change(s.history[v].value, s.writers[w].request));
        s.(writers := s.writers[w := s.writers[w].(phase := next)])
      case Create(w) => if s.live then s else s.(history := s.history + [Version(None, c.empty)], live := true)
      case Update(w) =>
        var me := s.writers[w].(updates := s.writers[w].updates + 1);
        if !s.live then s.(writers := s.writers[w := me.(phase := Done)])
        else if me.phase.version == |s.history| - 1 then
          s.(history := s.history + [Version(Some(w), me.phase.draft)], writers := s.writers[w := me.(phase := Done)])
        else if me.left == 0 then s
        else s.(writers := s.writers[w := AfterConflict(me, c.countdown)])
      case Abort(w) => s.(writers := s.writers[w := s.writers[w].(phase := GaveUp)])
      case Remove => s.(live := false)
  }

  function Run<T, R>(s: System<T, R>, steps: seq<Step<R>>, c: Config<T, R>): System<T, R>
    decreases |steps|
  {
    if steps == [] then s else Run(Do(s, steps[0], c), steps[1..], c)
  }

  /** The object as it is when the first request comes in, if it exists. */
  function Initial<T, R>(value: Option<T>): System<T, R> {
    match value
    case None => System([], false, [])
    case Some(v) => System([Version(None, v)], true, [])
  }

  // ---------------------------------------------------------------- the invariant

  predicate ValidWriter<T(==), R>(history: seq<Version<T>>, me: Writer<T, R>, c: Config<T, R>) {
    && me.updates <= (if c.countdown then me.retries else me.updates)
    && (me.phase.Reading? || me.phase.Loaded? ==> me.left > 0 && (c.countdown ==> me.updates + me.left == me.retries))
    && (me.phase.Loaded? ==>
          me.phase.version < |history| && me.phase.draft == c.change(history[me.phase.version].value, me.request))
  }

  /** `next` is what its author's request makes of the version just before it, or a new object. */
  predicate Follows<T(==), R>(writers: seq<Writer<T, R>>, prev: Version<T>, next: Version<T>, c: Config<T, R>) {
    match next.author
    case None => next.value == c.empty
    case Some(w) => w < |writers| && writers[w].phase.Done? && next.value == c.change(prev.value, writers[w].request)
  }

  ghost predicate Inv<T, R>(s: System<T, R>, first: T, c: Config<T, R>) {
    && (s.live ==> s.history != [])
    && (s.history != [] ==> s.history[0] == Version(None, first) || s.history[0] == Version(None, c.empty))
    && (forall w :: 0 <= w < |s.writers| ==> ValidWriter(s.history, s.writers[w], c))
    && (forall k :: 0 < k < |s.history| ==> Follows(s.writers, s.history[k - 1], s.history[k], c))
    && (forall j, k :: 0 <= j < k < |s.history| && s.history[j].author.Some? ==>
        s.history[j].author != s.history[k].author)
  }

  lemma StepKeepsHistory<T, R>(s: System<T, R>, step: Step<R>, c: Config<T, R>)
    ensures var n := Do(s, step, c);
            && |s.history| <= |n.history| <= |s.history| + 1 && n.history[..|s.history|] == s.history
            && |s.writers| <= |n.writers|
            && forall w :: 0 <= w < |s.writers| ==>
                 && n.writers[w].request == s.writers[w].request
                 && (s.writers[w].phase.Done? ==> n.writers[w] == s.writers[w])
  {
  }

  lemma StepKeepsWriter<T, R>(s: System<T, R>, step: Step<R>, c: Config<T, R>, w: nat)
    requires forall v :: 0 <= v < |s.writers| ==> ValidWriter(s.history, s.writers[v], c)
    requires w < |Do(s, step, c).writers|
    ensures ValidWriter(Do(s, step, c).history, Do(s, step, c).writers[w], c)
  {
    StepKeepsHistory(s, step, c);
    var n := Do(s, step, c);
    if w < |s.writers| {
      assert ValidWriter(s.history, s.writers[w], c);
      if s.writers[w].phase.Loaded? {
        assert n.history[..|s.history|][s.writers[w].phase.version] == s.history[s.writers[w].phase.version];
      }
    }
  }

  lemma StepFollows<T, R>(s: System<T, R>, step: Step<R>, c: Config<T, R>, first: T, k: nat)
    requires Inv(s, first, c) && 0 < k < |Do(s, step, c).history|
    ensures var n := Do(s, step, c);
            Follows(n.writers, n.history[k - 1], n.history[k], c)
  {
    StepKeepsHistory(s, step, c);
    var n := Do(s, step, c);
    if k < |s.history| {
      assert n.history[k] == n.history[..|s.history|][k] && n.history[k - 1] == n.history[..|s.history|][k - 1];
      assert Follows(s.writers, s.history[k - 1], s.history[k], c);
    } else if step.Update? {
      assert ValidWriter(s.history, s.writers[step.w], c);
    }
  }

  lemma StepKeepsAuthors<T, R>(s: System<T, R>, step: Step<R>, c: Config<T, R>, first: T, j: nat, k: nat)
    requires Inv(s, first, c) && j < k < |Do(s, step, c).history| && Do(s, step, c).history[j].author.Some?
    ensures Do(s, step, c).history[j].author != Do(s, step, c).history[k].author
  {
    StepKeepsHistory(s, step, c);
    var n := Do(s, step, c);
    assert n.history[j] == n.history[..|s.history|][j];
    if k < |s.history| {
      assert n.history[k] == n.history[..|s.history|][k];
    } else {
      assert j > 0 ==> Follows(s.writers, s.history[j - 1], s.history[j], c);
    }
  }

  lemma StepKeepsStart<T, R>(s: System<T, R>, step: Step<R>, c: Config<T, R>, first: T)
    requires Inv(s, first, c)
    ensures var n := Do(s, step, c);
            && (n.live ==> n.history != [])
            && (n.history != [] ==> n.history[0] == Version(None, first) || n.history[0] == Version(None, c.empty))
  {
  }

  lemma StepKeepsInv<T, R>(s: System<T, R>, step: Step<R>, c: Config<T, R>, first: T)
    requires Inv(s, first, c)
    ensures Inv(Do(s, step, c), first, c)
  {
    hide Do, Follows, ValidWriter;
    var n := Do(s, step, c);
    StepKeepsStart(s, step, c, first);
    forall w | 0 <= w < |n.writers| ensures ValidWriter(n.history, n.writers[w], c) {
      StepKeepsWriter(s, step, c, w);
    }
    forall k | 0 < k < |n.history| ensures Follows(n.writers, n.history[k - 1], n.history[k], c) {
      StepFollows(s, step, c, first, k);
    }
    forall j, k | 0 <= j < k < |n.history| && n.history[j].author.Some?
      ensures n.history[j].author != n.history[k].author
    {
      StepKeepsAuthors(s, step, c, first, j, k);
    }
  }

  lemma {:induction false} RunKeepsInv<T, R>(s: System<T, R>, steps: seq<Step<R>>, c: Config<T, R>, first: T)
    requires Inv(s, first, c)
    ensures Inv(Run(s, steps, c), first, c)
    decreases |steps|
  {
    if steps != [] {
      StepKeepsInv(s, steps[0], c, first);
      RunKeepsInv(Do(s, steps[0], c), steps[1..], c, first);
    }
  }

  // ---------------------------------------------------------------- progress

  /** A new request may read unless it may not try at all. */
  lemma RequestsBegin<T, R>(s: System<T, R>, request: R, retries: nat, c: Config<T, R>)
    ensures var n := Do(s, Start(request, retries), c);
            && n.history == s.history && n.live == s.live && |n.writers| == |s.writers| + 1
            && n.writers[..|s.writers|] == s.writers && n.writers[|s.writers|].request == request
            && (n.writers[|s.writers|].phase.Reading? <==> retries > 0)
  {
  }

  /** A request that reads the current version and is not disturbed commits. */
  lemma CurrentRequestCommits<T, R>(s: System<T, R>, c: Config<T, R>, w: nat)
    requires s.live && s.history != [] && w < |s.writers| && s.writers[w].phase.Reading?
    ensures var last := |s.history| - 1;
            var n := Do(Do(s, Get(w, last), c), Update(w), c);
            && n.live && n.writers[w].phase.Done?
            && n.history == s.history + [Version(Some(w), c.change(s.history[last].value, s.writers[w].request))]
  {
  }

  /**
   A conflict changes nothing but the request, which reads again unless it counts down and this was
   its last try.
   */
  lemma ConflictsRetry<T, R>(s: System<T, R>, c: Config<T, R>, w: nat)
    requires s.live && w < |s.writers| && s.writers[w].phase.Loaded? && s.writers[w].left > 0
    requires s.writers[w].phase.version != |s.history| - 1
    ensures var n := Do(s, Update(w), c);
            && n.history == s.history && n.live
            && n.writers == s.writers[w := n.writers[w]]
            && n.writers[w].request == s.writers[w].request
            && n.writers[w].left == (if c.countdown then s.writers[w].left - 1 else s.writers[w].left)
            && n.writers[w].phase == if c.countdown && s.writers[w].left == 1 then GaveUp else Reading
  {
  }

  /** A request that finds nothing creates the object and reads again; others may have been faster. */
  lemma MissingObjectsAreCreated<T, R>(s: System<T, R>, c: Config<T, R>, w: nat)
    requires w < |s.writers| && s.writers[w].phase.Reading?
    ensures var n := Do(s, Create(w), c);
            && n.live && n.writers == s.writers
            && n.history == if s.live then s.history else s.history + [Version(None, c.empty)]
  {
  }

  /** Any other client error ends the request and changes nothing else. */
  lemma ErrorsEndRequests<T, R>(s: System<T, R>, c: Config<T, R>, w: nat)
    requires w < |s.writers| && (s.writers[w].phase.Reading? || s.writers[w].phase.Loaded?)
    ensures var n := Do(s, Abort(w), c);
            n.history == s.history && n.live == s.live && n.writers == s.writers[w := s.writers[w].(phase := GaveUp)]
  {
  }

  /** An object that is deleted under a request is not created again by its update. */
  lemma DeletedObjectsStayDeleted<T, R>(s: System<T, R>, c: Config<T, R>, w: nat)
    requires w < |s.writers| && s.writers[w].phase.Loaded?
    ensures var n := Do(Do(s, Remove, c), Update(w), c);
            !n.live && n.history == s.history && n.writers[w].phase.Done?
  {
  }

  // ---------------------------------------------------------------- every schedule

  function Start0<T>(value: Option<T>, c: T): T {
    if value.Some? then value.value else c
  }

  /**
   Every committed version is its author's request applied to the version committed just before
   it, no request commits twice, and a request that counts down updates at most as often as it
   may retry.
   */
  lemma EveryCommitAppliesOneRequest<T, R>(value: Option<T>, steps: seq<Step<R>>, c: Config<T, R>, k: nat)
    requires 0 < k < |Run(Initial(value), steps, c).history|
    ensures var s := Run(Initial(value), steps, c);
            match s.history[k].author
            case None => s.history[k].value == c.empty
            case Some(w) =>
              && w < |s.writers| && s.history[k].value == c.change(s.history[k - 1].value, s.writers[w].request)
              && forall j :: 0 <= j < |s.history| && s.history[j].author == Some(w) ==> j == k
  {
    RunKeepsInv(Initial(value), steps, c, Start0(value, c.empty));
    var s := Run(Initial(value), steps, c);
    assert Follows(s.writers, s.history[k - 1], s.history[k], c);
  }

  lemma UpdatesAreBounded<T, R>(value: Option<T>, steps: seq<Step<R>>, c: Config<T, R>, w: nat)
    requires c.countdown && w < |Run(Initial(value), steps, c).writers|
    ensures var me := Run(Initial(value), steps, c).writers[w];
            me.updates <= me.retries
  {
    RunKeepsInv(Initial(value), steps, c, Start0(value, c.empty));
    var s := Run(Initial(value), steps, c);
    assert ValidWriter(s.history, s.writers[w], c);
  }

  /** The committed requests, in the order of their commits. */
  function Committed<T, R>(history: seq<Version<T>>, writers: seq<Writer<T, R>>): seq<R> {
    if history == [] then []
    else
      var last := history[|history| - 1];
      Committed(history[..|history| - 1], writers) +
      if last.author.Some? && last.author.value < |writers| then [writers[last.author.value].request] else []
  }

  /**
   What holds of the first object and of a new one, and survives every admissible request, holds
   of every version.
   */
  lemma {:induction false} EveryVersionKeeps<T(!new), R(!new)>(value: Option<T>, steps: seq<Step<R>>,
          c: Config<T, R>, good: T -> bool, admits: R -> bool, k: nat)
    requires good(c.empty) && (value.Some? ==> good(value.value))
    requires forall t, r :: good(t) && admits(r) ==> good(c.change(t, r))
    requires k < |Run(Initial(value), steps, c).history|
    requires forall w :: 0 <= w < |Run(Initial(value), steps, c).writers| ==>
             admits(Run(Initial(value), steps, c).writers[w].request)
    ensures good(Run(Initial(value), steps, c).history[k].value)
    decreases k
  {
    RunKeepsInv(Initial(value), steps, c, Start0(value, c.empty));
    if k > 0 {
      EveryVersionKeeps(value, steps, c, good, admits, k - 1);
      EveryCommitAppliesOneRequest(value, steps, c, k);
    }
  }

  // ---------------------------------------------------------------- windows over what was committed

  predicate IsSuffix<E(==)>(s: seq<E>, all: seq<E>) {
    |s| <= |all| && all[|all| - |s|..] == s
  }

  function Entries<R, E>(qs: seq<R>, entry: R -> E): seq<E> {
    if qs == [] then [] else Entries(qs[..|qs| - 1], entry) + [entry(qs[|qs| - 1])]
  }

  lemma SuffixGrows<E>(s: seq<E>, all: seq<E>, x: E, drop: nat)
    requires IsSuffix(s, all) && drop <= |s| + 1
    ensures IsSuffix((s + [x])[drop..], all + [x])
  {
    var n := |all| - |s|;
    assert all == all[..n] + s;
    assert all + [x] == all[..n] + (s + [x]);
  }

  lemma EntriesSnoc<R, E>(init: seq<E>, qs: seq<R>, q: R, entry: R -> E)
    ensures init + Entries(qs + [q], entry) == init + Entries(qs, entry) + [entry(q)]
  {
    assert (qs + [q])[..|qs|] == qs;
  }

  lemma CommittedSnoc<T, R>(history: seq<Version<T>>, writers: seq<Writer<T, R>>, k: nat)
    requires k < |history|
    ensures Committed(history[..k + 1], writers) ==
            Committed(history[..k], writers) +
            (if history[k].author.Some? && history[k].author.value < |writers|
             then [writers[history[k].author.value].request] else [])
  {
    assert history[..k + 1][..k] == history[..k];
  }

  /** The first version stays what it was. */
  lemma {:induction false} RunKeepsFirst<T, R>(s: System<T, R>, steps: seq<Step<R>>, c: Config<T, R>)
    ensures s.history != [] ==> Run(s, steps, c).history != [] && Run(s, steps, c).history[0] == s.history[0]
    decreases |steps|
  {
    if steps != [] {
      StepKeepsHistory(s, steps[0], c);
      var n := Do(s, steps[0], c);
      assert s.history != [] ==> n.history[0] == n.history[..|s.history|][0];
      RunKeepsFirst(n, steps[1..], c);
    }
  }

  /** The last `n` elements. */
  function Tail<E>(s: seq<E>, n: nat): seq<E> {
    if n <= |s| then s[|s| - n..] else s
  }

  /**
   When each request adds an entry at the end and keeps some of the last ones, every version is a
   suffix of all entries committed so far.
   */
  lemma {:induction false} VersionsAreWindows<T(!new), R(!new), E>(
      value: Option<T>, steps: seq<Step<R>>, c: Config<T, R>, view: T -> seq<E>, entry: R -> E,
      kept: (T, R) -> nat, k: nat)
    requires view(c.empty) == []
    requires forall t, r :: view(c.change(t, r)) == Tail(view(t) + [entry(r)], kept(t, r))
    requires k < |Run(Initial(value), steps, c).history|
    ensures var s := Run(Initial(value), steps, c);
            IsSuffix(view(s.history[k].value),
                     (if value.Some? then view(value.value) else []) +
                     Entries(Committed(s.history[..k + 1], s.writers), entry))
    decreases k
  {
    hide Run, Do, Committed, IsSuffix, Tail;
    var s := Run(Initial(value), steps, c);
    if k == 0 {
      FirstIsAWindow(value, steps, c, view, entry);
    } else {
      VersionsAreWindows(value, steps, c, view, entry, kept, k - 1);
      EveryCommitAppliesOneRequest(value, steps, c, k);
      CommittedSnoc(s.history, s.writers, k);
      if s.history[k].author.Some? {
        var q, prev := s.writers[s.history[k].author.value].request, s.history[k - 1].value;
        var init := if value.Some? then view(value.value) else [];
        WindowGrows(view(prev), init, Committed(s.history[..k], s.writers), q, entry, kept(prev, q));
      } else {
        NothingIsASuffix((if value.Some? then view(value.value) else [])
            + Entries(Committed(s.history[..k + 1], s.writers), entry));
      }
    }
  }

  lemma NothingIsASuffix<E>(all: seq<E>)
    ensures IsSuffix([], all)
  {
  }

  lemma WindowGrows<R, E>(window: seq<E>, init: seq<E>, before: seq<R>, q: R, entry: R -> E, keep: nat)
    requires IsSuffix(window, init + Entries(before, entry))
    ensures IsSuffix(Tail(window + [entry(q)], keep), init + Entries(before + [q], entry))
  {
    EntriesSnoc(init, before, q, entry);
    SuffixGrows(window, init + Entries(before, entry), entry(q),
                if keep <= |window| + 1 then |window| + 1 - keep else 0);
  }

  lemma FirstIsAWindow<T, R, E>(value: Option<T>, steps: seq<Step<R>>, c: Config<T, R>, view: T -> seq<E>,
          entry: R -> E)
    requires view(c.empty) == [] && Run(Initial(value), steps, c).history != []
    ensures var s := Run(Initial(value), steps, c);
            IsSuffix(view(s.history[0].value), (if value.Some? then view(value.value) else [])
                + Entries(Committed(s.history[..1], s.writers), entry))
  {
    hide Do;
    var s := Run(Initial(value), steps, c);
    var init := if value.Some? then view(value.value) else [];
    RunKeepsInv(Initial(value), steps, c, Start0(value, c.empty));
    RunKeepsFirst(Initial(value), steps, c);
    CommittedSnoc(s.history, s.writers, 0);
    assert s.history[..0] == [] && s.history[0].author == None;
    assert init + [] == init;
  }
}
