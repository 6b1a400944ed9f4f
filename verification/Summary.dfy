/**
 The Ready condition as a summary of the others: `getConditionGroups`, `merge`, `summary` and
 `SetSummary` (pkg/util/conditions/merge.go, merge_strategies.go, getter.go, setter.go).
 */
module Summary {
  import opened Prelude
  import opened Conditions

  /** `fmt.Sprintf` called with a format and no arguments. */
  type Formatter = string -> string

  function MergePriority(status: Status, severity: Severity): nat {
    match status
    case ConditionFalse =>
      (match severity
       case SeverityError => 0
       case SeverityWarning => 1
       case SeverityInfo => 2
       case _ => 99)
    case ConditionTrue => 3
    case ConditionUnknown => 4
    case OtherStatus(_) => 99
  }

  function Priority(c: Condition): nat {
    MergePriority(c.status, c.severity)
  }

  /** A severity on False conditions and on no others, as the condition type demands. */
  predicate Proper(c: Condition) {
    if c.status.ConditionFalse?
    then c.severity.SeverityError? || c.severity.SeverityWarning? || c.severity.SeverityInfo?
    else c.severity.SeverityNone? && !c.status.OtherStatus?
  }

  predicate Conforms(cs: seq<Condition>) {
    forall c :: c in cs ==> Proper(c)
  }

  // ---------------------------------------------------------------- specification

  function Filter(cs: seq<Condition>, keep: Condition -> bool): (r: seq<Condition>)
    ensures forall c :: c in r <==> c in cs && keep(c)
    ensures (forall c :: c in cs ==> !keep(c)) ==> r == []
  {
    if cs == [] then []
    else (if keep(cs[0]) then [cs[0]] else []) + Filter(cs[1..], keep)
  }

  predicate HasKey(c: Condition, status: Status, severity: Severity) {
    c.status == status && c.severity == severity
  }

  /** The conditions of a group, in list order. */
  function Members(cs: seq<Condition>, status: Status, severity: Severity): seq<Condition> {
    Filter(cs, c => HasKey(c, status, severity))
  }

  /** The first condition of no lower priority than any other. */
  function Worst(cs: seq<Condition>): (c: Condition)
    requires cs != []
    ensures c in cs
    ensures forall d :: d in cs ==> Priority(c) <= Priority(d)
  {
    if |cs| == 1 then cs[0]
    else
      var w := Worst(cs[1..]);
      if Priority(cs[0]) <= Priority(w) then cs[0] else w
  }

  /** `order[i]` is there, and no type before it in the order. */
  predicate IsFirstPresent(members: seq<Condition>, order: seq<string>, i: nat)
    requires i < |order|
  {
    Lookup(members, order[i]).Some? && forall j :: 0 <= j < i ==> Lookup(members, order[j]).None?
  }

  /** `getFirstCondition`: the first type of `order` that is there, else the first condition. */
  function Preferred(members: seq<Condition>, order: seq<string>): (c: Condition)
    requires members != []
    ensures c in members
  {
    if order == [] then members[0]
    else if Lookup(members, order[0]).Some? then Lookup(members, order[0]).value
    else Preferred(members, order[1..])
  }

  lemma {:induction false} PreferredIsFirst(members: seq<Condition>, order: seq<string>, i: nat)
    requires members != [] && i <= |order|
    requires if i < |order| then IsFirstPresent(members, order, i)
             else forall t :: t in order ==> Lookup(members, t).None?
    ensures Preferred(members, order) == if i < |order| then Lookup(members, order[i]).value else members[0]
  {
    if i > 0 {
      assert order[0] in order;
      if i < |order| {
        assert forall j :: 0 <= j < i - 1 ==> order[1..][j] == order[j + 1];
      }
      PreferredIsFirst(members, order[1..], i - 1);
    }
  }

  /** The merged condition when the group with the given key is on top. */
  function Summarise(cs: seq<Condition>, top: Condition, target: string, order: seq<string>,
          format: Formatter): Condition
    requires top in cs
  {
    var members := Sort(Members(cs, top.status, top.severity));
    var first := if members == [] then top else Preferred(members, order);
    match top.status
    case ConditionTrue => Condition(target, ConditionTrue, SeverityNone, "", "", ZERO_TIME)
    case ConditionFalse =>
      Condition(target, ConditionFalse, top.severity, first.reason, format(first.message), ZERO_TIME)
    case _ => Condition(target, ConditionUnknown, SeverityNone, first.reason, format(first.message), ZERO_TIME)
  }

  function MergeConditions(cs: seq<Condition>, target: string, order: seq<string>,
          format: Formatter): Option<Condition> {
    if cs == [] then None else Some(Summarise(cs, Worst(cs), target, order, format))
  }

  predicate InScope(c: Condition, types: Option<seq<string>>) {
    c.ctype != READY && (types.None? || c.ctype in types.value)
  }

  /** Everything but Ready, restricted to the given types if there are any. */
  function Scope(cs: seq<Condition>, types: Option<seq<string>>): seq<Condition> {
    Filter(cs, c => InScope(c, types))
  }

  lemma ScopeExactly(cs: seq<Condition>, types: Option<seq<string>>, c: Condition)
    ensures c in Scope(cs, types) <==> c in cs && c.ctype != READY && (types.Some? ==> c.ctype in types.value)
  {
    assert InScope(c, types) <==> c.ctype != READY && (types.Some? ==> c.ctype in types.value);
  }

  /** The types whose messages are preferred. */
  function Order(types: Option<seq<string>>): seq<string> {
    if types.Some? then types.value else []
  }

  function SummaryOf(cs: seq<Condition>, types: Option<seq<string>>, format: Formatter): Option<Condition> {
    MergeConditions(Scope(cs, types), READY, Order(types), format)
  }

  function SetSummaryOf(cs: seq<Condition>, types: Option<seq<string>>, format: Formatter, now: Time): seq<Condition> {
    var ready := SummaryOf(cs, types, format);
    if ready.None? then cs else SetCondition(cs, ready.value, now)
  }

  // ---------------------------------------------------------------- filters through lookups

  lemma FilterCons(c: Condition, cs: seq<Condition>, keep: Condition -> bool)
    ensures Filter([c] + cs, keep) == if keep(c) then [c] + Filter(cs, keep) else Filter(cs, keep)
  {
    assert ([c] + cs)[1..] == cs;
  }

  lemma LookupCons(c: Condition, cs: seq<Condition>, t: string)
    ensures Lookup([c] + cs, t) == if c.ctype == t then Some(c) else Lookup(cs, t)
  {
    assert ([c] + cs)[1..] == cs;
  }

  lemma {:induction false} FilterLookup(cs: seq<Condition>, keep: Condition -> bool)
    requires Unique(cs)
    ensures Unique(Filter(cs, keep))
    ensures forall t :: Lookup(Filter(cs, keep), t) ==
                        if Lookup(cs, t).Some? && keep(Lookup(cs, t).value) then Lookup(cs, t) else None
  {
    if cs != [] {
      hide Filter, Lookup;
      var head, tail := cs[0], cs[1..];
      assert cs == [head] + tail;
      UniqueTail(cs);
      FilterLookup(tail, keep);
      FilterCons(head, tail, keep);
      var rest := Filter(tail, keep);
      if keep(head) {
        UniqueCons(head, rest);
      }
      forall t ensures Lookup(Filter(cs, keep), t) ==
                       if Lookup(cs, t).Some? && keep(Lookup(cs, t).value) then Lookup(cs, t) else None {
        LookupCons(head, tail, t);
        LookupCons(head, rest, t);
      }
    }
  }

  /** Sorting what a filter keeps depends only on the conditions in the list, not on their order. */
  lemma SortedFilterIsOrderFree(cs: seq<Condition>, ds: seq<Condition>, keep: Condition -> bool)
    requires Unique(cs) && Unique(ds) && forall t :: Lookup(cs, t) == Lookup(ds, t)
    ensures Sort(Filter(cs, keep)) == Sort(Filter(ds, keep))
  {
    FilterLookup(cs, keep);
    FilterLookup(ds, keep);
    SortKeeps(Filter(cs, keep));
    SortKeeps(Filter(ds, keep));
    forall t ensures Lookup(Sort(Filter(cs, keep)), t) == Lookup(Sort(Filter(ds, keep)), t) {
      assert Lookup(Sort(Filter(cs, keep)), t) == Lookup(Filter(cs, keep), t);
      assert Lookup(Sort(Filter(ds, keep)), t) == Lookup(Filter(ds, keep), t);
      assert Lookup(cs, t) == Lookup(ds, t);
    }
    SameLookupsSameList(Sort(Filter(cs, keep)), Sort(Filter(ds, keep)));
  }

  lemma SameLookupsSameMembers(cs: seq<Condition>, ds: seq<Condition>)
    requires Unique(cs) && Unique(ds) && forall t :: Lookup(cs, t) == Lookup(ds, t)
    ensures forall c :: c in cs <==> c in ds
  {
    forall c ensures c in cs <==> c in ds {
      assert Lookup(cs, c.ctype) == Lookup(ds, c.ctype);
      if c in cs { LookupUnique(cs, c); }
      if c in ds { LookupUnique(ds, c); }
    }
  }

  // ---------------------------------------------------------------- properties of the summary

  /**
   The summary is empty exactly when nothing is in scope; otherwise it has the status and
   severity of a condition of minimal priority, and its reason and message come from one.
   */
  lemma MergeShowsTheWorst(cs: seq<Condition>, target: string, order: seq<string>, format: Formatter)
    requires Conforms(cs)
    ensures MergeConditions(cs, target, order, format).None? <==> cs == []
    ensures cs != [] ==>
              var r := MergeConditions(cs, target, order, format).value;
              && r.ctype == target && r.time == ZERO_TIME
              && (r.status.ConditionTrue? ==> r.reason == "" && r.message == "")
              && exists c :: c in cs && (forall d :: d in cs ==> Priority(c) <= Priority(d))
                             && r.status == c.status && r.severity == c.severity
                             && (!c.status.ConditionTrue? ==> r.reason == c.reason && r.message == format(c.message))
  {
    if cs != [] {
      var top := Worst(cs);
      var members := Members(cs, top.status, top.severity);
      assert HasKey(top, top.status, top.severity) && top in members;
      SortMembers(members);
      var first := Preferred(Sort(members), order);
      assert first in cs && HasKey(first, top.status, top.severity);
      assert Summarise(cs, top, target, order, format).status == first.status;
    }
  }

  lemma {:induction false} InsertMembers(cs: seq<Condition>, c: Condition)
    ensures forall d :: d in Insert(cs, c) <==> d == c || d in cs
  {
    if cs != [] && Before(cs[0].ctype, c.ctype) {
      InsertMembers(cs[1..], c);
      forall d ensures d in Insert(cs, c) <==> d == c || d in cs {
        assert d in cs <==> d == cs[0] || d in cs[1..];
      }
    }
  }

  lemma {:induction false} SortMembers(cs: seq<Condition>)
    ensures forall d :: d in Sort(cs) <==> d in cs
    ensures Sort(cs) == [] <==> cs == []
  {
    if cs != [] {
      SortMembers(cs[1..]);
      InsertMembers(Sort(cs[1..]), cs[0]);
      assert cs[0] in Sort(cs);
      forall d ensures d in Sort(cs) <==> d in cs {
        assert d in cs <==> d == cs[0] || d in cs[1..];
      }
    }
  }

  /** One False condition of severity Error makes the summary one; True hides Unknown. */
  lemma ErrorsWin(cs: seq<Condition>, target: string, order: seq<string>, format: Formatter)
    requires Conforms(cs) && cs != []
    ensures var r := MergeConditions(cs, target, order, format).value;
            (exists c :: c in cs && HasKey(c, ConditionFalse, SeverityError)) <==>
                HasKey(r, ConditionFalse, SeverityError)
    ensures var r := MergeConditions(cs, target, order, format).value;
            r.status.ConditionTrue? <==>
              (exists c :: c in cs && c.status.ConditionTrue?) && forall c :: c in cs ==> !c.status.ConditionFalse?
    ensures var r := MergeConditions(cs, target, order, format).value;
            r.status.ConditionUnknown? <==> forall c :: c in cs ==> c.status.ConditionUnknown?
  {
    var w := Worst(cs);
    assert Priority(w) == 0 <==> HasKey(w, ConditionFalse, SeverityError);
    if c :| c in cs && HasKey(c, ConditionFalse, SeverityError) {
      assert Priority(w) <= Priority(c);
    }
    if c :| c in cs && c.status.ConditionTrue? {
      assert Priority(w) <= Priority(c);
    }
    if c :| c in cs && !c.status.ConditionUnknown? {
      assert Priority(w) <= Priority(c) <= 3;
    }
    assert MergeConditions(cs, target, order, format).value == Summarise(cs, w, target, order, format);
    assert w.status.ConditionUnknown? ==> forall c :: c in cs ==> Priority(c) >= 4;
    assert w.status.ConditionTrue? ==> forall c :: c in cs ==> Priority(c) >= 3;
  }

  /** Priorities tell the groups of conforming conditions apart. */
  lemma PriorityIsInjective(c: Condition, d: Condition)
    requires Conforms([c, d]) && Priority(c) == Priority(d)
    ensures HasKey(c, d.status, d.severity)
  {
    assert c in [c, d] && d in [c, d];
  }

  /** The summary depends on which conditions there are and not on their order. */
  lemma MergeIsOrderFree(cs: seq<Condition>, ds: seq<Condition>, target: string, order: seq<string>, format: Formatter)
    requires Unique(cs) && Unique(ds) && Conforms(cs)
    requires forall t :: Lookup(cs, t) == Lookup(ds, t)
    ensures MergeConditions(cs, target, order, format) == MergeConditions(ds, target, order, format)
  {
    SameLookupsSameMembers(cs, ds);
    if cs == [] {
      assert ds != [] ==> ds[0] in ds;
    } else {
      assert cs[0] in cs;
      var c, d := Worst(cs), Worst(ds);
      assert d in cs && c in ds;
      PriorityIsInjective(c, d);
      SortedFilterIsOrderFree(cs, ds, x => HasKey(x, c.status, c.severity));
      var members := Members(cs, c.status, c.severity);
      assert HasKey(c, c.status, c.severity) && c in members;
      SortMembers(members);
    }
  }

  /** Ready is not in its own scope, so setting it does not move the summary. */
  lemma SummaryIgnoresReady(cs: seq<Condition>, types: Option<seq<string>>, format: Formatter, ready: Condition,
          now: Time)
    requires Unique(cs) && Conforms(Scope(cs, types)) && ready.ctype == READY
    ensures SummaryOf(SetCondition(cs, ready, now), types, format) == SummaryOf(cs, types, format)
  {
    var once := SetCondition(cs, ready, now);
    SetTouchesOneType(cs, ready, now);
    var keep := (c: Condition) => InScope(c, types);
    FilterLookup(cs, keep);
    FilterLookup(once, keep);
    forall t ensures Lookup(Filter(cs, keep), t) == Lookup(Filter(once, keep), t) {
      assert Lookup(once, t) == if t == READY then Some(Stamp(Lookup(cs, t), ready, now)) else Lookup(cs, t);
    }
    assert Scope(cs, types) == Filter(cs, keep) && Scope(once, types) == Filter(once, keep);
    MergeIsOrderFree(Scope(cs, types), Scope(once, types), READY, Order(types), format);
  }

  /** Summarising twice is summarising once: even the transition time of Ready stays. */
  lemma SetSummaryIsIdempotent(cs: seq<Condition>, types: Option<seq<string>>, format: Formatter, now: Time,
          later: Time)
    requires Unique(cs) && Conforms(Scope(cs, types))
    ensures var once := SetSummaryOf(cs, types, format, now);
            Unique(once) && SetSummaryOf(once, types, format, later) == once
  {
    var ready := SummaryOf(cs, types, format);
    SummaryIsReady(cs, types, format);
    if ready.Some? {
      hide SummaryOf;
      SetTouchesOneType(cs, ready.value, now);
      SummaryIgnoresReady(cs, types, format, ready.value, now);
      SetSameStateIsNoop(SetCondition(cs, ready.value, now), ready.value, later);
    }
  }

  lemma SummaryIsReady(cs: seq<Condition>, types: Option<seq<string>>, format: Formatter)
    ensures var ready := SummaryOf(cs, types, format);
            ready.Some? ==> ready.value.ctype == READY
  {
    hide Scope, Members, Preferred, Worst, Sort;
  }

  /** A message without '%' reaches Ready unchanged. */
  ghost predicate PlainFormats(format: Formatter) {
    forall s :: '%' !in s ==> format(s) == s
  }

  /**
   What a reader of Ready learns: when the summary is not True, some condition of minimal
   priority has exactly its status, severity, reason and message.
   */
  lemma ReadyQuotesACondition(cs: seq<Condition>, types: Option<seq<string>>, format: Formatter)
    requires Conforms(Scope(cs, types)) && PlainFormats(format)
    requires forall c :: c in cs ==> '%' !in c.message
    ensures var r := SummaryOf(cs, types, format);
            r.Some? && !r.value.status.ConditionTrue? ==>
              exists c :: c in Scope(cs, types) && (forall d :: d in Scope(cs, types) ==> Priority(c) <= Priority(d))
                          && SameState(r.value, c.(ctype := READY))
  {
    var order := Order(types);
    MergeShowsTheWorst(Scope(cs, types), READY, order, format);
    var r := SummaryOf(cs, types, format);
    if r.Some? && !r.value.status.ConditionTrue? {
      var c :| c in Scope(cs, types) && (forall d :: d in Scope(cs, types) ==> Priority(c) <= Priority(d))
               && r.value.status == c.status && r.value.severity == c.severity
               && (!c.status.ConditionTrue? ==> r.value.reason == c.reason && r.value.message == format(c.message));
      assert SameState(r.value, c.(ctype := READY));
    }
  }

  /** Of the conditions of minimal priority `c` has the type that comes first in the order. */
  ghost predicate IsQuoted(scope: seq<Condition>, order: seq<string>, c: Condition, i: nat)
    requires i < |order|
  {
    && c in scope && c.ctype == order[i]
    && (forall d :: d in scope ==> Priority(c) <= Priority(d))
    && forall d, j :: d in scope && Priority(d) == Priority(c) && 0 <= j < i ==> d.ctype != order[j]
  }

  /** A summary that is not True is that condition, word for word but for the format. */
  lemma ReadyQuotesThePreferred(cs: seq<Condition>, types: seq<string>, format: Formatter, c: Condition, i: nat)
    requires Unique(cs) && Conforms(Scope(cs, Some(types))) && i < |types|
    requires IsQuoted(Scope(cs, Some(types)), types, c, i) && !c.status.ConditionTrue?
    ensures SummaryOf(cs, Some(types), format) ==
            Some(c.(ctype := READY, message := format(c.message), time := ZERO_TIME))
  {
    hide Scope, Preferred, Sort;
    var scope := Scope(cs, Some(types));
    FilterLookup(cs, x => InScope(x, Some(types)));
    ScopeIsUnique(cs, Some(types));
    PriorityIsInjective(c, Worst(scope));
    var members := Members(scope, c.status, c.severity);
    PreferredMember(scope, types, c, i);
    SortMembers(members);
  }

  lemma ScopeIsUnique(cs: seq<Condition>, types: Option<seq<string>>)
    requires Unique(cs)
    ensures Unique(Scope(cs, types))
  {
    FilterLookup(cs, x => InScope(x, types));
    assert Scope(cs, types) == Filter(cs, x => InScope(x, types));
  }

  lemma PreferredMember(scope: seq<Condition>, order: seq<string>, c: Condition, i: nat)
    requires Unique(scope) && i < |order| && IsQuoted(scope, order, c, i)
    ensures var members := Sort(Members(scope, c.status, c.severity));
            members != [] && Preferred(members, order) == c
  {
    var keep := (x: Condition) => HasKey(x, c.status, c.severity);
    var members := Members(scope, c.status, c.severity);
    assert members == Filter(scope, keep) && keep(c);
    FilterLookup(scope, keep);
    LookupUnique(scope, c);
    SortKeeps(members);
    var sorted := Sort(members);
    forall t
      ensures Lookup(sorted, t) ==
              if Lookup(scope, t).Some? && keep(Lookup(scope, t).value) then Lookup(scope, t) else None
    {
      assert Lookup(sorted, t) == Lookup(members, t);
    }
    PreferredIsFirst(sorted, order, i);
  }

  // ---------------------------------------------------------------- the imperative form

  datatype Group = Group(status: Status, severity: Severity, members: seq<Condition>)

  predicate Tells(g: Group, h: Group) {
    g.status != h.status || g.severity != h.severity
  }

  /** Distinct keys; every group holds exactly the conditions with its key; none is missing. */
  ghost predicate Grouped(groups: seq<Group>, cs: seq<Condition>) {
    && (forall i, j :: 0 <= i < j < |groups| ==> Tells(groups[i], groups[j]))
    && (forall g :: g in groups ==> g.members == Members(cs, g.status, g.severity) && g.members != [])
    && (forall c :: c in cs ==> Covered(groups, c))
  }

  ghost predicate Covered(groups: seq<Group>, c: Condition) {
    exists g :: g in groups && HasKey(c, g.status, g.severity)
  }

  lemma {:induction false} FilterSnoc(cs: seq<Condition>, c: Condition, keep: Condition -> bool)
    ensures Filter(cs + [c], keep) == Filter(cs, keep) + (if keep(c) then [c] else [])
  {
    if cs == [] {
      assert cs + [c] == [c];
    } else {
      var head, tail := cs[0], cs[1..];
      FilterSnoc(tail, c, keep);
      FilterAround(head, tail, c, keep);
      assert cs == [head] + tail;
    }
  }

  lemma FilterAround(head: Condition, tail: seq<Condition>, c: Condition, keep: Condition -> bool)
    requires Filter(tail + [c], keep) == Filter(tail, keep) + (if keep(c) then [c] else [])
    ensures Filter([head] + tail + [c], keep) == Filter([head] + tail, keep) + (if keep(c) then [c] else [])
  {
    hide Filter;
    Associate([head], tail, [c]);
    FilterCons(head, tail, keep);
    FilterCons(head, tail + [c], keep);
    Associate([head], Filter(tail, keep), if keep(c) then [c] else []);
  }

  lemma FilterPrefix(cs: seq<Condition>, i: nat, keep: Condition -> bool)
    requires i < |cs|
    ensures Filter(cs[..i + 1], keep) == Filter(cs[..i], keep) + (if keep(cs[i]) then [cs[i]] else [])
  {
    assert cs[..i + 1] == cs[..i] + [cs[i]];
    FilterSnoc(cs[..i], cs[i], keep);
  }

  lemma MembersSnoc(cs: seq<Condition>, c: Condition, status: Status, severity: Severity)
    ensures Members(cs + [c], status, severity) ==
            Members(cs, status, severity) + if HasKey(c, status, severity) then [c] else []
  {
    FilterSnoc(cs, c, x => HasKey(x, status, severity));
  }

  lemma GrowGroup(groups: seq<Group>, i: nat, c: Condition, cs: seq<Condition>)
    requires Grouped(groups, cs) && i < |groups| && HasKey(c, groups[i].status, groups[i].severity)
    ensures Grouped(groups[i := groups[i].(members := groups[i].members + [c])], cs + [c])
  {
    var r := groups[i := groups[i].(members := groups[i].members + [c])];
    forall k | 0 <= k < |r|
      ensures r[k].members == Members(cs + [c], r[k].status, r[k].severity) && r[k].members != []
    {
      GrownMembers(groups, i, k, c, cs);
    }
    forall j, k | 0 <= j < k < |r| ensures Tells(r[j], r[k]) {
      assert Tells(groups[j], groups[k]);
    }
    forall d | d in cs + [c] ensures Covered(r, d) {
      GrownCovers(groups, i, c, cs, d);
    }
  }

  lemma GrownCovers(groups: seq<Group>, i: nat, c: Condition, cs: seq<Condition>, d: Condition)
    requires Grouped(groups, cs) && i < |groups| && HasKey(c, groups[i].status, groups[i].severity) && d in cs + [c]
    ensures Covered(groups[i := groups[i].(members := groups[i].members + [c])], d)
  {
    var r := groups[i := groups[i].(members := groups[i].members + [c])];
    var k := if d in cs then GroupOf(groups, cs, d) else i;
    assert r[k] in r && HasKey(d, r[k].status, r[k].severity);
  }

  ghost function GroupOf(groups: seq<Group>, cs: seq<Condition>, d: Condition): (k: nat)
    requires Grouped(groups, cs) && d in cs
    ensures k < |groups| && HasKey(d, groups[k].status, groups[k].severity)
  {
    assert Covered(groups, d);
    var g :| g in groups && HasKey(d, g.status, g.severity);
    var k :| 0 <= k < |groups| && groups[k] == g;
    k
  }

  lemma GrownMembers(groups: seq<Group>, i: nat, k: nat, c: Condition, cs: seq<Condition>)
    requires Grouped(groups, cs) && i < |groups| && k < |groups| && HasKey(c, groups[i].status, groups[i].severity)
    ensures var m := if k == i then groups[k].members + [c] else groups[k].members;
            m == Members(cs + [c], groups[k].status, groups[k].severity) && m != []
  {
    assert groups[k] in groups;
    MembersSnoc(cs, c, groups[k].status, groups[k].severity);
    assert k < i ==> Tells(groups[k], groups[i]);
    assert i < k ==> Tells(groups[i], groups[k]);
  }

  lemma NewGroup(groups: seq<Group>, c: Condition, cs: seq<Condition>)
    requires Grouped(groups, cs)
    requires forall k :: 0 <= k < |groups| ==> !HasKey(c, groups[k].status, groups[k].severity)
    ensures Grouped(groups + [Group(c.status, c.severity, [c])], cs + [c])
  {
    var r := groups + [Group(c.status, c.severity, [c])];
    forall k | 0 <= k < |r|
      ensures r[k].members == Members(cs + [c], r[k].status, r[k].severity) && r[k].members != []
    {
      NewMembers(groups, k, c, cs);
    }
    forall j, k | 0 <= j < k < |r| ensures Tells(r[j], r[k]) {
      assert k < |groups| ==> Tells(groups[j], groups[k]);
    }
    forall d | d in cs + [c] ensures Covered(r, d) {
      var k := if d in cs then GroupOf(groups, cs, d) else |groups|;
      assert r[k] in r && HasKey(d, r[k].status, r[k].severity);
    }
  }

  lemma NewMembers(groups: seq<Group>, k: nat, c: Condition, cs: seq<Condition>)
    requires Grouped(groups, cs) && k <= |groups|
    requires forall k :: 0 <= k < |groups| ==> !HasKey(c, groups[k].status, groups[k].severity)
    ensures var g := (groups + [Group(c.status, c.severity, [c])])[k];
            g.members == Members(cs + [c], g.status, g.severity) && g.members != []
  {
    if k < |groups| {
      assert groups[k] in groups;
      MembersSnoc(cs, c, groups[k].status, groups[k].severity);
    } else {
      forall d | d in cs ensures !HasKey(d, c.status, c.severity) {
        var i := GroupOf(groups, cs, d);
      }
      MembersSnoc(cs, c, c.status, c.severity);
    }
  }

  /** One round of the grouping loop. */
  method AddToGroups(groups: seq<Group>, c: Condition, ghost cs: seq<Condition>) returns (r: seq<Group>)
    requires Grouped(groups, cs)
    ensures Grouped(r, cs + [c])
  {
    var i := 0;
    while i < |groups| && !HasKey(c, groups[i].status, groups[i].severity)
      invariant 0 <= i <= |groups|
      invariant forall k :: 0 <= k < i ==> !HasKey(c, groups[k].status, groups[k].severity)
    {
      i := i + 1;
    }
    if i < |groups| {
      GrowGroup(groups, i, c, cs);
      r := groups[i := groups[i].(members := groups[i].members + [c])];
    } else {
      NewGroup(groups, c, cs);
      r := groups + [Group(c.status, c.severity, [c])];
    }
  }

  ghost predicate ByPriority(groups: seq<Group>) {
    forall i, j :: 0 <= i < j < |groups| ==>
      MergePriority(groups[i].status, groups[i].severity) <= MergePriority(groups[j].status, groups[j].severity)
  }

  predicate Splits(groups: seq<Group>, g: Group, k: nat) {
    && k <= |groups|
    && (forall i :: 0 <= i < k ==>
          MergePriority(groups[i].status, groups[i].severity) <= MergePriority(g.status, g.severity))
    && (k < |groups| ==> MergePriority(g.status, g.severity) < MergePriority(groups[k].status, groups[k].severity))
  }

  lemma InsertKeepsPriority(groups: seq<Group>, g: Group, k: nat)
    requires ByPriority(groups) && Splits(groups, g, k)
    ensures ByPriority(groups[..k] + [g] + groups[k..])
  {
    var r := groups[..k] + [g] + groups[k..];
    forall i, j | 0 <= i < j < |r|
      ensures MergePriority(r[i].status, r[i].severity) <= MergePriority(r[j].status, r[j].severity) {
      assert i < k ==> r[i] == groups[i];
      assert i > k ==> r[i] == groups[i - 1];
      assert j < k ==> r[j] == groups[j];
      assert j > k ==> r[j] == groups[j - 1];
    }
  }

  method InsertGroup(groups: seq<Group>, g: Group) returns (r: seq<Group>)
    requires ByPriority(groups)
    ensures ByPriority(r) && multiset(r) == multiset(groups) + multiset{g}
  {
    var p := MergePriority(g.status, g.severity);
    var k := 0;
    while k < |groups| && MergePriority(groups[k].status, groups[k].severity) <= p
      invariant 0 <= k <= |groups|
      invariant forall i :: 0 <= i < k ==> MergePriority(groups[i].status, groups[i].severity) <= p
    {
      k := k + 1;
    }
    InsertKeepsPriority(groups, g, k);
    assert groups == groups[..k] + groups[k..];
    r := groups[..k] + [g] + groups[k..];
  }

  /** `sort.Sort` on groups: a permutation in order of priority, ties in any order. */
  method SortGroups(groups: seq<Group>) returns (r: seq<Group>)
    ensures multiset(r) == multiset(groups) && |r| == |groups|
    ensures ByPriority(r)
  {
    r := [];
    for n := 0 to |groups|
      invariant multiset(r) == multiset(groups[..n])
      invariant ByPriority(r)
    {
      assert groups[..n + 1] == groups[..n] + [groups[n]];
      r := InsertGroup(r, groups[n]);
    }
    assert groups[..|groups|] == groups;
    assert |r| == |multiset(r)|;
  }

  /** The groups after sorting: those of `Grouped`, by priority, the first one's members sorted. */
  ghost predicate SortedGroups(groups: seq<Group>, cs: seq<Condition>) {
    && ByPriority(groups)
    && (forall i, j :: 0 <= i < j < |groups| ==> Tells(groups[i], groups[j]))
    && (forall c :: c in cs ==> Covered(groups, c))
    && forall i :: 0 <= i < |groups| ==> IsGroupOf(groups[i], cs, i == 0)
  }

  predicate IsGroupOf(g: Group, cs: seq<Condition>, sorted: bool) {
    var members := Members(cs, g.status, g.severity);
    members != [] && g.members == if sorted then Sort(members) else members
  }

  lemma SortKeepsGroups(groups: seq<Group>, sorted: seq<Group>, cs: seq<Condition>)
    requires Grouped(groups, cs) && multiset(sorted) == multiset(groups)
    ensures Grouped(sorted, cs)
  {
    forall g ensures g in sorted <==> g in groups {
      assert g in multiset(sorted) <==> g in multiset(groups);
    }
    forall i, j | 0 <= i < j < |sorted| ensures Tells(sorted[i], sorted[j]) {
      if !Tells(sorted[i], sorted[j]) {
        SameKeySameGroup(groups, cs, sorted[i], sorted[j]);
        TwiceInSequence(sorted, i, j);
        GroupsCountOnce(groups, sorted[i]);
      }
    }
    forall c | c in cs ensures Covered(sorted, c) {
      assert Covered(groups, c);
    }
  }

  lemma SameKeySameGroup(groups: seq<Group>, cs: seq<Condition>, g: Group, h: Group)
    requires Grouped(groups, cs) && g in groups && h in groups && !Tells(g, h)
    ensures g == h
  {
  }

  lemma TwiceInSequence(groups: seq<Group>, i: nat, j: nat)
    requires i < j < |groups| && groups[i] == groups[j]
    ensures multiset(groups)[groups[i]] >= 2
  {
    assert groups == groups[..j] + [groups[j]] + groups[j + 1..];
    assert groups[..j][i] == groups[i];
  }

  lemma {:induction false} GroupsCountOnce(groups: seq<Group>, g: Group)
    requires forall i, j :: 0 <= i < j < |groups| ==> Tells(groups[i], groups[j])
    ensures multiset(groups)[g] <= 1
  {
    if groups != [] {
      assert groups == [groups[0]] + groups[1..];
      GroupsCountOnce(groups[1..], g);
      forall h | h in groups[1..] ensures Tells(groups[0], h) {
        var k :| 0 <= k < |groups[1..]| && groups[1..][k] == h;
        assert h == groups[k + 1];
      }
    }
  }

  /** `getConditionGroups`: every condition is in the group with its key, groups by priority. */
  method GetConditionGroups(cs: seq<Condition>) returns (groups: seq<Group>)
    ensures SortedGroups(groups, cs) && (groups == [] <==> cs == [])
  {
    groups := [];
    for n := 0 to |cs|
      invariant Grouped(groups, cs[..n])
    {
      assert cs[..n + 1] == cs[..n] + [cs[n]];
      groups := AddToGroups(groups, cs[n], cs[..n]);
    }
    assert cs[..|cs|] == cs;
    var sorted := SortGroups(groups);
    SortKeepsGroups(groups, sorted, cs);
    groups := sorted;
    if |sorted| > 0 {
      groups := sorted[0 := sorted[0].(members := Sort(sorted[0].members))];
      TopIsSorted(sorted, groups, cs);
    } else {
      NoGroupsNoConditions(sorted, cs);
    }
  }

  lemma TopIsSorted(groups: seq<Group>, now: seq<Group>, cs: seq<Condition>)
    requires Grouped(groups, cs) && ByPriority(groups)
    requires groups != [] && now == groups[0 := groups[0].(members := Sort(groups[0].members))]
    ensures SortedGroups(now, cs) && cs != []
  {
    forall i | 0 <= i < |now| ensures IsGroupOf(now[i], cs, i == 0) {
      assert groups[i] in groups;
    }
    forall c | c in cs ensures Covered(now, c) {
      SortingCovers(groups, cs, c);
    }
    NoGroupsNoConditions(groups, cs);
  }

  lemma SortingCovers(groups: seq<Group>, cs: seq<Condition>, c: Condition)
    requires Grouped(groups, cs) && c in cs && groups != []
    ensures Covered(groups[0 := groups[0].(members := Sort(groups[0].members))], c)
  {
    var k := GroupOf(groups, cs, c);
    var now := groups[0 := groups[0].(members := Sort(groups[0].members))];
    assert now[k] in now && HasKey(c, now[k].status, now[k].severity);
  }

  lemma NoGroupsNoConditions(groups: seq<Group>, cs: seq<Condition>)
    requires Grouped(groups, cs)
    ensures groups == [] <==> cs == []
  {
    if groups != [] {
      assert groups[0] in groups;
      assert groups[0].members[0] in groups[0].members;
    }
    if cs != [] {
      var k := GroupOf(groups, cs, cs[0]);
    }
  }

  /** `getFirstCondition` on the sorted top group. */
  method GetFirstCondition(members: seq<Condition>, order: seq<string>) returns (first: Condition)
    requires members != []
    ensures first == Preferred(members, order)
  {
    for i := 0 to |order|
      invariant Preferred(members, order) == Preferred(members, order[i..])
    {
      assert order[i..][1..] == order[i + 1..];
      var view := new Setter(members);
      var c := view.Get(order[i]);
      if c.Some? {
        return c.value;
      }
    }
    first := members[0];
  }

  /** What `merge` may return: on conditions that do not conform, priorities can tie. */
  ghost predicate IsMerge(cs: seq<Condition>, target: string, order: seq<string>, format: Formatter,
          r: Option<Condition>) {
    && (r.None? <==> cs == [])
    && (r.Some? ==> exists c :: c in cs && (forall d :: d in cs ==> Priority(c) <= Priority(d))
                                && r.value == Summarise(cs, c, target, order, format))
  }

  /** The top group is the one of a condition of minimal priority. */
  lemma TopGroup(groups: seq<Group>, cs: seq<Condition>) returns (c: Condition)
    requires SortedGroups(groups, cs) && groups != []
    ensures c in cs && HasKey(c, groups[0].status, groups[0].severity)
    ensures forall d :: d in cs ==> Priority(c) <= Priority(d)
    ensures groups[0].members == Sort(Members(cs, c.status, c.severity)) && groups[0].members != []
  {
    assert IsGroupOf(groups[0], cs, true);
    var members := Members(cs, groups[0].status, groups[0].severity);
    c := members[0];
    assert c in members;
    SortMembers(members);
    forall d | d in cs ensures Priority(c) <= Priority(d) {
      assert Covered(groups, d);
      var g :| g in groups && HasKey(d, g.status, g.severity);
      var k :| 0 <= k < |groups| && groups[k] == g;
      assert k > 0 ==>
          MergePriority(groups[0].status, groups[0].severity) <= MergePriority(groups[k].status, groups[k].severity);
    }
  }

  /**
   `merge`. Whatever order the sort leaves equal priorities in, the result summarises a group
   of minimal priority; on conforming conditions there is only one.
   */
  method Merge(cs: seq<Condition>, target: string, order: seq<string>, format: Formatter) returns (r: Option<Condition>)
    ensures IsMerge(cs, target, order, format, r)
    ensures Conforms(cs) ==> r == MergeConditions(cs, target, order, format)
  {
    var groups := GetConditionGroups(cs);
    if groups == [] {
      return None;
    }
    var top := groups[0];
    ghost var c := TopGroup(groups, cs);
    var first := GetFirstCondition(top.members, order);
    match top.status {
      case ConditionTrue =>
        r := Some(Condition(target, ConditionTrue, SeverityNone, "", "", ZERO_TIME));
      case ConditionFalse =>
        r := Some(Condition(target, ConditionFalse, top.severity, first.reason, format(first.message), ZERO_TIME));
      case _ =>
        r := Some(Condition(target, ConditionUnknown, SeverityNone, first.reason, format(first.message), ZERO_TIME));
    }
    assert r.value == Summarise(cs, c, target, order, format);
    TopIsMerged(cs, c, target, order, format);
  }

  lemma TopIsMerged(cs: seq<Condition>, c: Condition, target: string, order: seq<string>, format: Formatter)
    requires c in cs && forall d :: d in cs ==> Priority(c) <= Priority(d)
    requires Members(cs, c.status, c.severity) != []
    ensures IsMerge(cs, target, order, format, Some(Summarise(cs, c, target, order, format)))
    ensures Conforms(cs) ==> Some(Summarise(cs, c, target, order, format)) == MergeConditions(cs, target, order, format)
  {
    if Conforms(cs) {
      PriorityIsInjective(c, Worst(cs));
      SortMembers(Members(cs, c.status, c.severity));
    }
  }

  predicate Has(cs: seq<Condition>, status: Status, severity: Severity) {
    exists c :: c in cs && HasKey(c, status, severity)
  }

  predicate HasStatus(cs: seq<Condition>, status: Status) {
    exists c :: c in cs && c.status == status
  }

  /**
   The order in which conditions win, on any list: False by severity, then True, then Unknown; only
   when there is none of these does a condition that does not conform show.
   */
  lemma WhoWins(cs: seq<Condition>, target: string, order: seq<string>, format: Formatter, r: Condition)
    requires IsMerge(cs, target, order, format, Some(r))
    ensures HasKey(r, ConditionFalse, SeverityError) <==> Has(cs, ConditionFalse, SeverityError)
    ensures !Has(cs, ConditionFalse, SeverityError) ==>
              (HasKey(r, ConditionFalse, SeverityWarning) <==> Has(cs, ConditionFalse, SeverityWarning))
    ensures !Has(cs, ConditionFalse, SeverityError) && !Has(cs, ConditionFalse, SeverityWarning) ==>
              (HasKey(r, ConditionFalse, SeverityInfo) <==> Has(cs, ConditionFalse, SeverityInfo))
    ensures (forall s :: s in {SeverityError, SeverityWarning, SeverityInfo} ==> !Has(cs, ConditionFalse, s)) ==>
              && (r.status.ConditionTrue? <==> HasStatus(cs, ConditionTrue))
              && (!HasStatus(cs, ConditionTrue) && HasStatus(cs, ConditionUnknown) ==> r.status.ConditionUnknown?)
  {
    hide Members, Sort, Preferred;
    var c :| c in cs && (forall d :: d in cs ==> Priority(c) <= Priority(d))
             && r == Summarise(cs, c, target, order, format);
    WinnerIsMinimal(cs, c);
  }

  /** The same for a condition of minimal priority. */
  lemma WinnerIsMinimal(cs: seq<Condition>, c: Condition)
    requires c in cs && forall d :: d in cs ==> Priority(c) <= Priority(d)
    ensures Has(cs, ConditionFalse, SeverityError) <==> HasKey(c, ConditionFalse, SeverityError)
    ensures Priority(c) > 0 ==>
              (Has(cs, ConditionFalse, SeverityWarning) <==> HasKey(c, ConditionFalse, SeverityWarning))
    ensures Priority(c) > 1 ==> (Has(cs, ConditionFalse, SeverityInfo) <==> HasKey(c, ConditionFalse, SeverityInfo))
    ensures Priority(c) > 2 ==> (HasStatus(cs, ConditionTrue) <==> c.status.ConditionTrue?)
    ensures Priority(c) > 3 ==> (HasStatus(cs, ConditionUnknown) <==> c.status.ConditionUnknown?)
  {
  }

  /** `summary` with the `WithConditions` option. */
  method ReadySummary(from: Setter, types: Option<seq<string>>, format: Formatter) returns (ready: Option<Condition>)
    ensures IsMerge(Scope(from.conditions, types), READY, Order(types), format, ready)
    ensures Conforms(Scope(from.conditions, types)) ==> ready == SummaryOf(from.conditions, types, format)
  {
    var scope := Collect(from.conditions, types);
    ready := Merge(scope, READY, Order(types), format);
  }

  /** The loop of `summary`. */
  method Collect(cs: seq<Condition>, types: Option<seq<string>>) returns (scope: seq<Condition>)
    ensures scope == Scope(cs, types)
  {
    scope := [];
    ghost var keep := (c: Condition) => InScope(c, types);
    for i := 0 to |cs|
      invariant scope == Filter(cs[..i], keep)
    {
      FilterPrefix(cs, i, keep);
      if InScope(cs[i], types) {
        scope := scope + [cs[i]];
      }
    }
    assert cs[..|cs|] == cs;
    assert scope == Scope(cs, types);
  }

  /** What `SetSummary` may leave: Ready set to what `merge` may return, if it returns anything. */
  ghost predicate IsSummarised(cs: seq<Condition>, types: Option<seq<string>>, format: Formatter, now: Time,
          after: seq<Condition>) {
    exists ready: Option<Condition> ::
      && IsMerge(Scope(cs, types), READY, Order(types), format, ready)
      && after == if ready.None? then cs else SetCondition(cs, ready.value, now)
  }

  method SetSummary(to: Setter, types: Option<seq<string>>, format: Formatter, now: Time)
    modifies to
    ensures IsSummarised(old(to.conditions), types, format, now, to.conditions)
    ensures Conforms(Scope(old(to.conditions), types)) ==>
            to.conditions == SetSummaryOf(old(to.conditions), types, format, now)
  {
    var ready := ReadySummary(to, types, format);
    if ready.Some? {
      var _ := to.Set(ready.value, now);
    }
  }
}
