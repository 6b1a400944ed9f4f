/**
 Policy reports and the violations log (pkg/webhook/report.go, pkg/webhook/audit.go): bounded
 logs whose entries come from concurrent requests, and counters that must keep matching.
 */
module Reports {
  import opened Prelude
  import opened OptimisticUpdates

  datatype ReportStatus = Fail | Error | Warn | Pass | Skip | OtherResult(text: string)

  datatype ViolationPolicy = Deny | WarnOnly | ControllerAction | OtherAction(text: string)

  /** One entry; everything but its status is payload. */
  datatype Entry = Entry(status: ReportStatus, payload: string)

  datatype Tally = Tally(fail: int, error: int, warn: int, pass: int, skip: int)

  datatype Report = Report(results: seq<Entry>, summary: Tally)

  const EMPTY_REPORT := Report([], Tally(0, 0, 0, 0, 0))

  /** `resolveAction` followed by `mapStatus`. */
  function StatusFor(violationPolicy: Option<ViolationPolicy>, isController: bool): (s: ReportStatus)
    ensures s == Pass <==> isController || violationPolicy == Some(ControllerAction)
    ensures s == Fail <==> !isController && (violationPolicy.None? || violationPolicy == Some(Deny))
    ensures s == Warn <==> !isController && violationPolicy == Some(WarnOnly)
    ensures s in {Pass, Fail, Warn, Skip}
  {
    var action := if isController then ControllerAction
                  else if violationPolicy.Some? then violationPolicy.value
                  else Deny;
    match action
    case Deny => Fail
    case WarnOnly => Warn
    case ControllerAction => Pass
    case OtherAction(_) => Skip
  }

  function Count(results: seq<Entry>, s: ReportStatus): nat {
    if results == [] then 0 else (if results[0].status == s then 1 else 0) + Count(results[1..], s)
  }

  /** What the summary ought to say. */
  function TallyOf(results: seq<Entry>): Tally {
    Tally(Count(results, Fail), Count(results, Error), Count(results, Warn), Count(results, Pass), Count(results, Skip))
  }

  /** The summary holds the per-status counts of the results. */
  predicate Consistent(r: Report) {
    r.summary == TallyOf(r.results)
  }

  function Bump(t: Tally, s: ReportStatus, delta: int): Tally {
    match s
    case Fail => t.(fail := t.fail + delta)
    case Error => t.(error := t.error + delta)
    case Warn => t.(warn := t.warn + delta)
    case Pass => t.(pass := t.pass + delta)
    case Skip => t.(skip := t.skip + delta)
    case OtherResult(_) => t
  }

  /** Append, and drop the oldest entry if there are too many now. */
  function Slide(results: seq<Entry>, e: Entry, maxEvents: int): seq<Entry> {
    var all := results + [e];
    if |all| > maxEvents then all[1..] else all
  }

  lemma {:induction false} CountSnoc(results: seq<Entry>, e: Entry, s: ReportStatus)
    ensures Count(results + [e], s) == Count(results, s) + (if e.status == s then 1 else 0)
  {
    if results == [] {
      assert results + [e] == [e];
    } else {
      assert (results + [e])[1..] == results[1..] + [e];
      CountSnoc(results[1..], e, s);
    }
  }

  lemma CountSlide(results: seq<Entry>, e: Entry, maxEvents: int, s: ReportStatus)
    ensures Count(Slide(results, e, maxEvents), s) ==
            Count(results, s) + Delta(e.status, s, 1) +
            (if |results| + 1 > maxEvents then Delta((results + [e])[0].status, s, -1) else 0)
  {
    CountSnoc(results, e, s);
  }

  function Delta(s: ReportStatus, t: ReportStatus, d: int): int {
    if s == t then d else 0
  }

  lemma BumpEach(t: Tally, s: ReportStatus, d: int)
    ensures Bump(t, s, d) == Tally(t.fail + Delta(s, Fail, d), t.error + Delta(s, Error, d), t.warn + Delta(s, Warn, d),
                                   t.pass + Delta(s, Pass, d), t.skip + Delta(s, Skip, d))
  {
  }

  /** The tally of the slid window, by one increment and at most one decrement. */
  lemma TallySlide(results: seq<Entry>, e: Entry, maxEvents: int)
    ensures TallyOf(Slide(results, e, maxEvents)) ==
            Bump(if |results| + 1 > maxEvents then Bump(TallyOf(results), (results + [e])[0].status, -1)
                 else TallyOf(results),
                 e.status, 1)
  {
    CountSlide(results, e, maxEvents, Fail);
    CountSlide(results, e, maxEvents, Error);
    CountSlide(results, e, maxEvents, Warn);
    CountSlide(results, e, maxEvents, Pass);
    CountSlide(results, e, maxEvents, Skip);
    BumpEach(TallyOf(results), (results + [e])[0].status, -1);
    BumpEach(if |results| + 1 > maxEvents then Bump(TallyOf(results), (results + [e])[0].status, -1)
             else TallyOf(results),
             e.status, 1);
  }

  /** The report a request leaves; the summary moves by differences, right or wrong. */
  function Recorded(r: Report, e: Entry, maxEvents: int): Report {
    var full := |r.results| + 1 > maxEvents;
    var summary := if full then Bump(r.summary, (r.results + [e])[0].status, -1) else r.summary;
    Report(Slide(r.results, e, maxEvents), Bump(summary, e.status, 1))
  }

  class PolicyReport {
    var results: seq<Entry>
    var fail: int
    var error: int
    var warn: int
    var pass: int
    var skip: int

    function Abs(): Report
      reads this
    {
      Report(results, Tally(fail, error, warn, pass, skip))
    }

    constructor (r: Report)
      ensures Abs() == r
    {
      results := r.results;
      fail, error, warn, pass, skip := r.summary.fail, r.summary.error, r.summary.warn, r.summary.pass, r.summary.skip;
    }

    /** The middle of `handlePolicyReport`; the cluster variant does the same. */
    method Record(e: Entry, maxEvents: int)
      modifies this
      ensures Abs() == Recorded(old(Abs()), e, maxEvents)
      ensures old(Consistent(Abs())) ==> Consistent(Abs())
    {
      TallySlide(results, e, maxEvents);
      results := results + [e];
      if |results| > maxEvents {
        var removed := results[0];
        results := results[1..];
        Tick(removed.status, -1);
      }
      Tick(e.status, 1);
    }

    /** The two switches over the counters. */
    method Tick(s: ReportStatus, delta: int)
      modifies this`fail, this`error, this`warn, this`pass, this`skip
      ensures Abs().summary == Bump(old(Abs().summary), s, delta)
    {
      match s
      case Fail => fail := fail + delta;
      case Error => error := error + delta;
      case Warn => warn := warn + delta;
      case Pass => pass := pass + delta;
      case Skip => skip := skip + delta;
      case OtherResult(_) =>
    }
  }

  // ---------------------------------------------------------------- reports under concurrent requests

  datatype ReportRequest = ReportRequest(entry: Entry, maxEvents: int)

  const REPORTS := Config((r: Report, q: ReportRequest) => Recorded(r, q.entry, q.maxEvents), EMPTY_REPORT, true)

  predicate IsGood(r: Report, bound: int) {
    Consistent(r) && |r.results| <= bound
  }

  lemma RecordedIsGood(r: Report, q: ReportRequest, bound: int)
    requires IsGood(r, bound) && q.maxEvents <= bound
    ensures IsGood(REPORTS.change(r, q), bound)
  {
    TallySlide(r.results, q.entry, q.maxEvents);
  }

  /**
   Whatever the requests, conflicts, stale reads and deletions: every committed report counts
   its own results, and none is longer than the limit or the report everything began with.
   */
  lemma ReportsStayConsistent(first: Option<Report>, steps: seq<Step<ReportRequest>>, maxEvents: nat, k: nat)
    requires first.Some? ==> Consistent(first.value)
    requires k < |Run(Initial(first), steps, REPORTS).history|
    requires forall w :: 0 <= w < |Run(Initial(first), steps, REPORTS).writers| ==>
               Run(Initial(first), steps, REPORTS).writers[w].request.maxEvents <= maxEvents
    ensures var r := Run(Initial(first), steps, REPORTS).history[k].value;
            Consistent(r) && |r.results| <= Bound(first, maxEvents)
  {
    var bound := Bound(first, maxEvents);
    var good := (r: Report) => IsGood(r, bound);
    var admits := (q: ReportRequest) => q.maxEvents <= bound;
    forall r, q | good(r) && admits(q) ensures good(REPORTS.change(r, q)) {
      RecordedIsGood(r, q, bound);
    }
    EveryVersionKeeps(first, steps, REPORTS, good, admits, k);
  }

  function Bound(first: Option<Report>, maxEvents: nat): nat {
    if first.Some? && |first.value.results| > maxEvents then |first.value.results| else maxEvents
  }

  /** A request calls update at most as often as its retry counter says. */
  lemma ReportUpdatesAreBounded(first: Option<Report>, steps: seq<Step<ReportRequest>>, w: nat)
    requires w < |Run(Initial(first), steps, REPORTS).writers|
    ensures var me := Run(Initial(first), steps, REPORTS).writers[w];
            me.updates <= me.retries
  {
    UpdatesAreBounded(first, steps, REPORTS, w);
  }

  function ResultsOf(r: Report): seq<Entry> {
    r.results
  }

  function EntryOf(q: ReportRequest): Entry {
    q.entry
  }

  function Kept(r: Report, q: ReportRequest): nat {
    if |r.results| + 1 > q.maxEvents then |r.results| else |r.results| + 1
  }

  /** A request that keeps anything at all leaves its own entry at the end. */
  lemma CommittedEntryIsLast(first: Option<Report>, steps: seq<Step<ReportRequest>>, k: nat)
    requires 0 < k < |Run(Initial(first), steps, REPORTS).history|
    ensures var s := Run(Initial(first), steps, REPORTS);
            s.history[k].author.Some? ==>
              && s.history[k].author.value < |s.writers|
              && var q, results := s.writers[s.history[k].author.value].request, s.history[k].value.results;
                 && (q.maxEvents >= 1 ==> results != [] && results[|results| - 1] == q.entry)
                 && var before := s.history[k - 1].value.results;
                    |results| == if |before| + 1 > q.maxEvents then |before| else |before| + 1
  {
    EveryCommitAppliesOneRequest(first, steps, REPORTS, k);
  }

  /** A report is a window over the entries committed so far: none is lost in between or reordered. */
  lemma ReportsAreWindows(first: Option<Report>, steps: seq<Step<ReportRequest>>, k: nat)
    requires k < |Run(Initial(first), steps, REPORTS).history|
    ensures var s := Run(Initial(first), steps, REPORTS);
            IsSuffix(s.history[k].value.results,
                     (if first.Some? then first.value.results else []) +
                     Entries(Committed(s.history[..k + 1], s.writers), EntryOf))
  {
    forall r, q ensures ResultsOf(REPORTS.change(r, q)) == Tail(ResultsOf(r) + [EntryOf(q)], Kept(r, q)) {
    }
    VersionsAreWindows(first, steps, REPORTS, ResultsOf, EntryOf, Kept, k);
  }

  // ---------------------------------------------------------------- the violations log

  const DEFAULT_AUDIT_LOG_SIZE := 20

  /** A violation and the size its policy asks for at the time. */
  datatype LogRequest = LogRequest(violation: Entry, auditLogSize: Option<int>)

  function LogSize(asked: Option<int>): (n: nat)
    ensures n < 40
    ensures asked.Some? && 0 <= asked.value < 40 ==> n == asked.value
    ensures asked.None? || !(0 <= asked.value < 40) ==> n == 20
  {
    if asked.Some? && 0 <= asked.value < 40 then asked.value else DEFAULT_AUDIT_LOG_SIZE
  }

  /** The last `n` violations. */
  function Last(vs: seq<Entry>, n: nat): (r: seq<Entry>)
    ensures IsSuffix(r, vs) && |r| == if |vs| < n then |vs| else n
  {
    if |vs| > n then vs[|vs| - n..] else vs
  }

  class Violations {
    var violations: seq<Entry>

    constructor (vs: seq<Entry>)
      ensures violations == vs
    {
      violations := vs;
    }

    /** The middle of `LogRequest`. */
    method Log(q: LogRequest)
      modifies this
      ensures violations == Last(old(violations) + [q.violation], LogSize(q.auditLogSize))
      ensures IsSuffix(violations, old(violations) + [q.violation])
      ensures |violations| == if |old(violations)| + 1 < LogSize(q.auditLogSize) then |old(violations)| + 1
                              else LogSize(q.auditLogSize)
      ensures q.auditLogSize != Some(0) ==> violations != [] && violations[|violations| - 1] == q.violation
    {
      var logSize := DEFAULT_AUDIT_LOG_SIZE;
      if q.auditLogSize.Some? && q.auditLogSize.value >= 0 && q.auditLogSize.value < 40 {
        logSize := q.auditLogSize.value;
      }
      violations := violations + [q.violation];
      if |violations| > logSize {
        violations := violations[|violations| - logSize..];
      }
    }
  }

  const LOGS := Config((vs: seq<Entry>, q: LogRequest) => Last(vs + [q.violation], LogSize(q.auditLogSize)), [], false)

  function AllOf(vs: seq<Entry>): seq<Entry> {
    vs
  }

  function ViolationOf(q: LogRequest): Entry {
    q.violation
  }

  function KeptInLog(vs: seq<Entry>, q: LogRequest): nat {
    if |vs| + 1 > LogSize(q.auditLogSize) then LogSize(q.auditLogSize) else |vs| + 1
  }

  /** A conflict never makes a violation be dropped: its request reads again, as often as it takes. */
  lemma LogRequestsKeepTrying(s: System<seq<Entry>, LogRequest>, w: nat)
    requires s.live && w < |s.writers| && s.writers[w].phase.Loaded? && s.writers[w].left > 0
    requires s.writers[w].phase.version != |s.history| - 1
    ensures var n := Do(s, Update(w), LOGS);
            && n.history == s.history && n.writers[w].phase.Reading? && n.writers[w].left == s.writers[w].left
            && n.writers[w].request == s.writers[w].request
  {
    ConflictsRetry(s, LOGS, w);
  }

  /** A report request gives up after as many conflicts as it may retry. */
  lemma ReportRequestsGiveUp(s: System<Report, ReportRequest>, w: nat)
    requires s.live && w < |s.writers| && s.writers[w].phase.Loaded? && s.writers[w].left > 0
    requires s.writers[w].phase.version != |s.history| - 1
    ensures var n := Do(s, Update(w), REPORTS);
            && n.history == s.history && n.writers[w].left == s.writers[w].left - 1
            && (n.writers[w].phase.GaveUp? <==> s.writers[w].left == 1)
            && (n.writers[w].phase.Reading? <==> s.writers[w].left > 1)
  {
    ConflictsRetry(s, REPORTS, w);
  }

  /**
   The log is always a suffix of the violations committed so far, even as the sizes policies ask
   for change.
   */
  lemma LogIsASuffix(first: Option<seq<Entry>>, steps: seq<Step<LogRequest>>, k: nat)
    requires k < |Run(Initial(first), steps, LOGS).history|
    ensures var s := Run(Initial(first), steps, LOGS);
            IsSuffix(s.history[k].value,
                     (if first.Some? then first.value else []) +
                     Entries(Committed(s.history[..k + 1], s.writers), ViolationOf))
  {
    forall vs, q ensures AllOf(LOGS.change(vs, q)) == Tail(AllOf(vs) + [ViolationOf(q)], KeptInLog(vs, q)) {
    }
    VersionsAreWindows(first, steps, LOGS, AllOf, ViolationOf, KeptInLog, k);
  }

  /**
   A committed log holds one violation more than its predecessor, or as many as the request that
   committed it allows, which is never more than 39.
   */
  lemma LogIsBounded(first: Option<seq<Entry>>, steps: seq<Step<LogRequest>>, k: nat)
    requires 0 < k < |Run(Initial(first), steps, LOGS).history|
    ensures var s := Run(Initial(first), steps, LOGS);
            match s.history[k].author
            case None => s.history[k].value == []
            case Some(w) =>
              && w < |s.writers|
              && var size, all := LogSize(s.writers[w].request.auditLogSize), |s.history[k - 1].value| + 1;
                 |s.history[k].value| == (if all < size then all else size) < 40
  {
    EveryCommitAppliesOneRequest(first, steps, LOGS, k);
  }
}
