/**
 Status conditions and the operations that keep them in a list: `Get`, `Set`, `Delete` and
 the display order (pkg/util/conditions/getter.go, pkg/util/conditions/setter.go).
 */
module Conditions {
  import opened Prelude
  import GoStrings

  datatype Status = ConditionTrue | ConditionFalse | ConditionUnknown | OtherStatus(text: string)

  datatype Severity = SeverityError | SeverityWarning | SeverityInfo | SeverityNone | OtherSeverity(text: string)

  /** A transition time, an opaque value but for its zero value. */
  type Time = int
  const ZERO_TIME: Time := 0

  datatype Condition = Condition(
    ctype: string,
    status: Status,
    severity: Severity,
    reason: string,
    message: string,
    time: Time)

  const READY := "Ready"

  /** `hasSameState`: equality of everything but the transition time. */
  predicate SameState(a: Condition, b: Condition): (same: bool)
    ensures same <==> && a.ctype == b.ctype && a.status == b.status && a.severity == b.severity
                      && a.reason == b.reason && a.message == b.message
  {
    a.(time := ZERO_TIME) == b.(time := ZERO_TIME)
  }

  /** A condition, if there is one, without its transition time. */
  function TimelessOption(c: Option<Condition>): Option<Condition> {
    if c.None? then None else Some(c.value.(time := ZERO_TIME))
  }

  // ---------------------------------------------------------------- display order

  /** `lexicographicLess` on condition types: Ready first, then Go's string order. */
  predicate Before(a: string, b: string) {
    (a == READY || GoStrings.Less(a, b)) && b != READY
  }

  /** The display order is a strict total order on condition types. */
  lemma BeforeIsStrictTotalOrder(a: string, b: string, c: string)
    ensures !Before(a, a)
    ensures Before(a, b) ==> !Before(b, a)
    ensures Before(a, b) && Before(b, c) ==> Before(a, c)
    ensures a == b || Before(a, b) || Before(b, a)
    ensures a != READY ==> Before(READY, a)
    ensures a != READY && b != READY ==> (Before(a, b) <==> GoStrings.Less(a, b))
  {
    GoStrings.LessIrreflexive(a);
    GoStrings.LessConnected(a, b);
    if GoStrings.Less(a, b) && GoStrings.Less(b, a) {
      GoStrings.LessTransitive(a, b, a);
    }
    if GoStrings.Less(a, b) && GoStrings.Less(b, c) {
      GoStrings.LessTransitive(a, b, c);
    }
  }

  /** No condition stands before one that orders strictly before it. */
  ghost predicate Sorted(cs: seq<Condition>) {
    forall i, j :: 0 <= i < j < |cs| ==> !Before(cs[j].ctype, cs[i].ctype)
  }

  /** At most one condition per type. */
  ghost predicate Unique(cs: seq<Condition>) {
    forall i, j :: 0 <= i < j < |cs| ==> cs[i].ctype != cs[j].ctype
  }

  // ---------------------------------------------------------------- specification functions

  /** The first condition of type `t`. */
  function Lookup(cs: seq<Condition>, t: string): (r: Option<Condition>)
    ensures r.Some? ==> r.value.ctype == t && r.value in cs
    ensures r.None? <==> forall c :: c in cs ==> c.ctype != t
  {
    if cs == [] then None
    else if cs[0].ctype == t then Some(cs[0])
    else Lookup(cs[1..], t)
  }

  /** Replaces the first condition of `c`'s type, or appends `c`. */
  function Put(cs: seq<Condition>, c: Condition): seq<Condition> {
    if cs == [] then [c]
    else if cs[0].ctype == c.ctype then [c] + cs[1..]
    else [cs[0]] + Put(cs[1..], c)
  }

  function Without(cs: seq<Condition>, t: string): seq<Condition> {
    if cs == [] then []
    else (if cs[0].ctype == t then [] else [cs[0]]) + Without(cs[1..], t)
  }

  /** One round of a loop that copies what it keeps. */
  lemma WithoutStep(cs: seq<Condition>, t: string, i: nat, kept: seq<Condition>)
    requires i < |cs| && Without(cs, t) == kept + Without(cs[i..], t)
    ensures Without(cs, t) == kept + (if cs[i].ctype == t then [] else [cs[i]]) + Without(cs[i + 1..], t)
  {
    assert cs[i..][1..] == cs[i + 1..];
  }

  function Insert(cs: seq<Condition>, c: Condition): seq<Condition> {
    if cs == [] || !Before(cs[0].ctype, c.ctype) then [c] + cs
    else [cs[0]] + Insert(cs[1..], c)
  }

  function Sort(cs: seq<Condition>): seq<Condition> {
    if cs == [] then [] else Insert(Sort(cs[1..]), cs[0])
  }

  /** What `Set` makes of the condition it is handed: transition time rewritten. */
  function Stamp(prior: Option<Condition>, c: Condition, now: Time): Condition {
    match prior
    case Some(e) => c.(time := if SameState(e, c) then e.time else now)
    case None => if c.time == ZERO_TIME then c.(time := now) else c
  }

  /** The list `Set` leaves behind. */
  function SetCondition(cs: seq<Condition>, c: Condition, now: Time): seq<Condition> {
    Sort(Put(cs, Stamp(Lookup(cs, c.ctype), c, now)))
  }

  // ---------------------------------------------------------------- a list is its lookups

  lemma UniqueTail(cs: seq<Condition>)
    requires Unique(cs) && cs != []
    ensures Unique(cs[1..])
    ensures Lookup(cs[1..], cs[0].ctype) == None
  {
    forall c | c in cs[1..] ensures c.ctype != cs[0].ctype {
      var i :| 0 <= i < |cs[1..]| && cs[1..][i] == c;
      assert c == cs[i + 1];
    }
  }

  lemma UniqueCons(c: Condition, cs: seq<Condition>)
    requires Unique(cs) && Lookup(cs, c.ctype) == None
    ensures Unique([c] + cs)
  {
    forall i, j | 0 <= i < j < |[c] + cs| ensures ([c] + cs)[i].ctype != ([c] + cs)[j].ctype {
      assert ([c] + cs)[j] == cs[j - 1];
      assert cs[j - 1] in cs;
    }
  }

  lemma LookupUnique(cs: seq<Condition>, c: Condition)
    requires Unique(cs) && c in cs
    ensures Lookup(cs, c.ctype) == Some(c)
  {
    var i :| 0 <= i < |cs| && cs[i] == c;
    var r := Lookup(cs, c.ctype).value;
    var j :| 0 <= j < |cs| && cs[j] == r;
    if i < j { assert false; }
    if j < i { assert false; }
  }

  /** In a sorted list nothing orders before the head, and the tail is sorted. */
  lemma SortedTail(cs: seq<Condition>)
    requires Sorted(cs) && cs != []
    ensures Sorted(cs[1..])
    ensures forall c :: c in cs ==> !Before(c.ctype, cs[0].ctype)
  {
    forall i, j | 0 <= i < j < |cs[1..]| ensures !Before(cs[1..][j].ctype, cs[1..][i].ctype) {
      assert cs[1..][i] == cs[i + 1] && cs[1..][j] == cs[j + 1];
    }
    BeforeIsStrictTotalOrder(cs[0].ctype, cs[0].ctype, cs[0].ctype);
  }

  /** Sorted duplicate-free lists with the same lookups are the same list. */
  lemma {:induction false} SameLookupsSameList(a: seq<Condition>, b: seq<Condition>)
    requires Unique(a) && Unique(b) && Sorted(a) && Sorted(b)
    requires forall t :: Lookup(a, t) == Lookup(b, t)
    ensures a == b
  {
    assert b != [] ==> Lookup(b, b[0].ctype) != None;
    assert a != [] ==> Lookup(a, a[0].ctype) != None;
    if a != [] {
      var ta, tb := a[0].ctype, b[0].ctype;
      assert Lookup(a, ta) == Lookup(b, ta) && Lookup(a, tb) == Lookup(b, tb);
      SortedTail(a);
      SortedTail(b);
      BeforeIsStrictTotalOrder(ta, tb, ta);
      assert a[0] == b[0];
      UniqueTail(a);
      UniqueTail(b);
      forall t ensures Lookup(a[1..], t) == Lookup(b[1..], t) {
        assert Lookup(a, t) == Lookup(b, t);
      }
      SameLookupsSameList(a[1..], b[1..]);
      assert a == [a[0]] + a[1..] && b == [b[0]] + b[1..];
    }
  }

  // ---------------------------------------------------------------- Put, Without, Sort through lookups

  lemma {:induction false} PutLookup(cs: seq<Condition>, c: Condition, t: string)
    ensures Lookup(Put(cs, c), t) == if t == c.ctype then Some(c) else Lookup(cs, t)
  {
    if cs != [] {
      PutLookup(cs[1..], c, t);
    }
  }

  /** A scan that stops at the first condition of type `t`, or runs off the end. */
  lemma {:induction false} FirstAt(cs: seq<Condition>, i: nat, t: string)
    requires i <= |cs| && forall k :: 0 <= k < i ==> cs[k].ctype != t
    requires i < |cs| ==> cs[i].ctype == t
    ensures Lookup(cs, t) == if i < |cs| then Some(cs[i]) else None
  {
    if i > 0 {
      FirstAt(cs[1..], i - 1, t);
    }
  }

  lemma {:induction false} PutAt(cs: seq<Condition>, i: nat, c: Condition)
    requires i <= |cs| && forall k :: 0 <= k < i ==> cs[k].ctype != c.ctype
    requires i < |cs| ==> cs[i].ctype == c.ctype
    ensures Put(cs, c) == if i < |cs| then cs[i := c] else cs + [c]
  {
    if i > 0 {
      PutAt(cs[1..], i - 1, c);
      assert Put(cs, c) == [cs[0]] + Put(cs[1..], c);
      if i < |cs| {
        assert [cs[0]] + cs[1..][i - 1 := c] == cs[i := c];
      } else {
        assert [cs[0]] + (cs[1..] + [c]) == cs + [c];
      }
    } else if cs != [] {
      assert Put(cs, c) == [c] + cs[1..];
    }
  }

  lemma {:induction false} PutUnique(cs: seq<Condition>, c: Condition)
    requires Unique(cs)
    ensures Unique(Put(cs, c))
  {
    if cs != [] {
      UniqueTail(cs);
      PutUnique(cs[1..], c);
      if cs[0].ctype == c.ctype {
        UniqueCons(c, cs[1..]);
      } else {
        PutLookup(cs[1..], c, cs[0].ctype);
        UniqueCons(cs[0], Put(cs[1..], c));
      }
    }
  }

  lemma {:induction false} WithoutLookup(cs: seq<Condition>, t: string, u: string)
    ensures Lookup(Without(cs, t), u) == if u == t then None else Lookup(cs, u)
  {
    if cs != [] {
      WithoutLookup(cs[1..], t, u);
      if cs[0].ctype == t {
        assert Without(cs, t) == Without(cs[1..], t);
      } else {
        assert Without(cs, t)[1..] == Without(cs[1..], t);
      }
    }
  }

  lemma {:induction false} WithoutUniqueSorted(cs: seq<Condition>, t: string)
    ensures Unique(cs) ==> Unique(Without(cs, t))
    ensures Sorted(cs) ==> Sorted(Without(cs, t))
    ensures forall c :: c in Without(cs, t) <==> c in cs && c.ctype != t
  {
    if cs != [] {
      WithoutUniqueSorted(cs[1..], t);
      var rest := Without(cs[1..], t);
      if cs[0].ctype == t {
        assert Without(cs, t) == rest;
      }
      if Unique(cs) {
        UniqueTail(cs);
        WithoutLookup(cs[1..], t, cs[0].ctype);
        UniqueCons(cs[0], rest);
      }
      if Sorted(cs) {
        SortedTail(cs);
        SortedCons(cs[0], rest);
      }
    }
  }

  lemma SortedCons(c: Condition, cs: seq<Condition>)
    requires Sorted(cs) && forall d :: d in cs ==> !Before(d.ctype, c.ctype)
    ensures Sorted([c] + cs)
  {
    forall i, j | 0 <= i < j < |[c] + cs| ensures !Before(([c] + cs)[j].ctype, ([c] + cs)[i].ctype) {
      assert ([c] + cs)[j] == cs[j - 1];
      assert cs[j - 1] in cs;
    }
  }

  /** Deleting a type that is not there changes nothing. */
  lemma {:induction false} WithoutAbsent(cs: seq<Condition>, t: string)
    requires Lookup(cs, t) == None
    ensures Without(cs, t) == cs
  {
    if cs != [] {
      assert cs[0] in cs;
      WithoutAbsent(cs[1..], t);
    }
  }

  lemma {:induction false} InsertLookup(cs: seq<Condition>, c: Condition, t: string)
    requires Lookup(cs, c.ctype) == None
    ensures Lookup(Insert(cs, c), t) == if t == c.ctype then Some(c) else Lookup(cs, t)
  {
    if cs != [] && Before(cs[0].ctype, c.ctype) {
      assert cs[0] in cs;
      InsertLookup(cs[1..], c, t);
      assert Insert(cs, c)[1..] == Insert(cs[1..], c);
    } else {
      assert ([c] + cs)[1..] == cs;
    }
  }

  lemma {:induction false} InsertKeeps(cs: seq<Condition>, c: Condition)
    requires Unique(cs) && Sorted(cs) && Lookup(cs, c.ctype) == None
    ensures Unique(Insert(cs, c)) && Sorted(Insert(cs, c))
    ensures forall d :: d in Insert(cs, c) ==> d == c || d in cs
  {
    if cs != [] && Before(cs[0].ctype, c.ctype) {
      UniqueTail(cs);
      SortedTail(cs);
      assert cs[0] in cs;
      InsertKeeps(cs[1..], c);
      InsertLookup(cs[1..], c, cs[0].ctype);
      UniqueCons(cs[0], Insert(cs[1..], c));
      BeforeIsStrictTotalOrder(cs[0].ctype, c.ctype, c.ctype);
      SortedCons(cs[0], Insert(cs[1..], c));
    } else {
      UniqueCons(c, cs);
      forall d | d in cs ensures !Before(d.ctype, c.ctype) {
        SortedTail(cs);
        BeforeIsStrictTotalOrder(cs[0].ctype, c.ctype, d.ctype);
        BeforeIsStrictTotalOrder(d.ctype, c.ctype, cs[0].ctype);
      }
      SortedCons(c, cs);
    }
  }

  /** Sorting a duplicate-free list keeps every lookup and yields the display order. */
  lemma {:induction false} SortKeeps(cs: seq<Condition>)
    requires Unique(cs)
    ensures Unique(Sort(cs)) && Sorted(Sort(cs))
    ensures forall t :: Lookup(Sort(cs), t) == Lookup(cs, t)
  {
    if cs != [] {
      UniqueTail(cs);
      SortKeeps(cs[1..]);
      assert Lookup(Sort(cs[1..]), cs[0].ctype) == None;
      InsertKeeps(Sort(cs[1..]), cs[0]);
      forall t ensures Lookup(Sort(cs), t) == Lookup(cs, t) {
        InsertLookup(Sort(cs[1..]), cs[0], t);
        assert Lookup(Sort(cs[1..]), t) == Lookup(cs[1..], t);
      }
    }
  }

  /** Sorting loses and invents nothing, on any list, and yields the display order. */
  lemma {:induction false} SortIsAPermutation(cs: seq<Condition>)
    ensures multiset(Sort(cs)) == multiset(cs) && Sorted(Sort(cs))
  {
    if cs != [] {
      SortIsAPermutation(cs[1..]);
      InsertIsAPermutation(Sort(cs[1..]), cs[0]);
      assert cs == [cs[0]] + cs[1..];
    }
  }

  lemma {:induction false} InsertIsAPermutation(cs: seq<Condition>, c: Condition)
    requires Sorted(cs)
    ensures multiset(Insert(cs, c)) == multiset(cs) + multiset{c} && Sorted(Insert(cs, c))
  {
    if cs != [] && Before(cs[0].ctype, c.ctype) {
      SortedTail(cs);
      InsertIsAPermutation(cs[1..], c);
      assert cs == [cs[0]] + cs[1..];
      BeforeIsStrictTotalOrder(cs[0].ctype, c.ctype, c.ctype);
      forall d | d in Insert(cs[1..], c) ensures !Before(d.ctype, cs[0].ctype) {
        assert d in multiset(Insert(cs[1..], c));
        assert d in cs[1..] || d == c;
      }
      SortedCons(cs[0], Insert(cs[1..], c));
    } else {
      forall d | d in cs ensures !Before(d.ctype, c.ctype) {
        SortedTail(cs);
        BeforeIsStrictTotalOrder(cs[0].ctype, c.ctype, d.ctype);
        BeforeIsStrictTotalOrder(d.ctype, c.ctype, cs[0].ctype);
      }
      SortedCons(c, cs);
    }
  }

  /**
   `sort.Slice` promises a sorted permutation and no more. On a duplicate-free list there is
   only one, so any sorting algorithm returns `Sort`.
   */
  lemma SortIsTheOnlySortedPermutation(cs: seq<Condition>, r: seq<Condition>)
    requires Unique(cs) && multiset(r) == multiset(cs) && Sorted(r)
    ensures r == Sort(cs)
  {
    PermutationUnique(cs, r);
    SortKeeps(cs);
    forall t ensures Lookup(r, t) == Lookup(Sort(cs), t) {
      assert Lookup(Sort(cs), t) == Lookup(cs, t);
      forall c ensures c in r <==> c in cs {
        assert c in multiset(r) <==> c in multiset(cs);
      }
      if Lookup(cs, t).Some? {
        LookupUnique(r, Lookup(cs, t).value);
      }
    }
    SameLookupsSameList(r, Sort(cs));
  }

  lemma {:induction false} PermutationUnique(cs: seq<Condition>, r: seq<Condition>)
    requires Unique(cs) && multiset(r) == multiset(cs)
    ensures Unique(r)
  {
    forall i, j | 0 <= i < j < |r| ensures r[i].ctype != r[j].ctype {
      if r[i].ctype == r[j].ctype {
        assert r[i] in multiset(cs) && r[j] in multiset(cs);
        LookupUnique(cs, r[i]);
        LookupUnique(cs, r[j]);
        assert r == r[..j] + [r[j]] + r[j + 1..];
        assert r[..j][i] == r[i];
        assert multiset(r)[r[i]] >= 2;
        UniqueCount(cs, r[i]);
      }
    }
  }

  lemma {:induction false} UniqueCount(cs: seq<Condition>, c: Condition)
    requires Unique(cs)
    ensures multiset(cs)[c] <= 1
  {
    if cs != [] {
      UniqueTail(cs);
      UniqueCount(cs[1..], c);
      assert cs == [cs[0]] + cs[1..];
    }
  }

  // ---------------------------------------------------------------- what Set and Delete do, type by type

  /**
   `Set` touches its own type only: it stores the condition with its new transition time,
   keeps every other type, and leaves a sorted duplicate-free list.
   */
  lemma SetTouchesOneType(cs: seq<Condition>, c: Condition, now: Time)
    requires Unique(cs)
    ensures Unique(SetCondition(cs, c, now)) && Sorted(SetCondition(cs, c, now))
    ensures forall t :: Lookup(SetCondition(cs, c, now), t) ==
                        if t == c.ctype then Some(Stamp(Lookup(cs, t), c, now)) else Lookup(cs, t)
  {
    var put := Put(cs, Stamp(Lookup(cs, c.ctype), c, now));
    PutUnique(cs, Stamp(Lookup(cs, c.ctype), c, now));
    SortKeeps(put);
    forall t
      ensures Lookup(Sort(put), t) == if t == c.ctype then Some(Stamp(Lookup(cs, t), c, now)) else Lookup(cs, t)
    {
      assert Lookup(Sort(put), t) == Lookup(put, t);
      PutLookup(cs, Stamp(Lookup(cs, c.ctype), c, now), t);
    }
  }

  /**
   A transition time moves when the state does: `Set` stores the state it is handed, with the time
   of the call if the type had another state, with the old time if it had this one, and for a new
   type with the condition's own time, or that of the call if it has none.
   */
  lemma SetMovesTheTime(cs: seq<Condition>, c: Condition, now: Time)
    requires Unique(cs)
    ensures var prior, stored := Lookup(cs, c.ctype), Lookup(SetCondition(cs, c, now), c.ctype);
            && stored.Some? && SameState(stored.value, c)
            && (prior.Some? && !SameState(prior.value, c) ==> stored.value.time == now)
            && (prior.Some? && SameState(prior.value, c) ==> stored.value.time == prior.value.time)
            && (prior.None? && c.time == ZERO_TIME ==> stored.value.time == now)
            && (prior.None? && c.time != ZERO_TIME ==> stored.value.time == c.time)
  {
    SetTouchesOneType(cs, c, now);
  }

  /** `Delete` removes its own type only and keeps the order. */
  lemma DeleteTouchesOneType(cs: seq<Condition>, t: string)
    ensures Unique(cs) ==> Unique(Without(cs, t))
    ensures Sorted(cs) ==> Sorted(Without(cs, t))
    ensures forall u :: Lookup(Without(cs, t), u) == if u == t then None else Lookup(cs, u)
    ensures forall c :: c in Without(cs, t) <==> c in cs && c.ctype != t
  {
    WithoutUniqueSorted(cs, t);
    forall u ensures Lookup(Without(cs, t), u) == if u == t then None else Lookup(cs, u) {
      WithoutLookup(cs, t, u);
    }
  }

  /** Setting a condition to the state it already has changes nothing, not even its time. */
  lemma SetSameStateIsNoop(cs: seq<Condition>, c: Condition, now: Time)
    requires Unique(cs) && Sorted(cs)
    requires Lookup(cs, c.ctype).Some? && SameState(Lookup(cs, c.ctype).value, c)
    ensures SetCondition(cs, c, now) == cs
  {
    SetTouchesOneType(cs, c, now);
    forall t ensures Lookup(SetCondition(cs, c, now), t) == Lookup(cs, t) {
    }
    SameLookupsSameList(SetCondition(cs, c, now), cs);
  }

  // ---------------------------------------------------------------- the object that carries conditions

  /** `Getter` and `Setter`: an API object seen through its condition list. */
  class Setter {
    var conditions: seq<Condition>

    constructor (cs: seq<Condition>)
      ensures conditions == cs
    {
      conditions := cs;
    }

    method Get(t: string) returns (r: Option<Condition>)
      ensures r == Lookup(conditions, t)
    {
      for i := 0 to |conditions|
        invariant Lookup(conditions, t) == Lookup(conditions[i..], t)
      {
        if conditions[i].ctype == t {
          return Some(conditions[i]);
        }
        assert conditions[i..][1..] == conditions[i + 1..];
      }
      r := None;
    }

    /** `Set`; the out-parameter is the pointed-to condition after the call. */
    method Set(condition: Condition, now: Time) returns (stamped: Condition)
      modifies this
      ensures conditions == SetCondition(old(conditions), condition, now)
      ensures stamped == Stamp(Lookup(old(conditions), condition.ctype), condition, now)
      ensures SameState(stamped, condition)
      ensures match Lookup(old(conditions), condition.ctype)
              case Some(prior) => stamped.time == if SameState(prior, condition) then prior.time else now
              case None => stamped.time == if condition.time == ZERO_TIME then now else condition.time
    {
      var cs := conditions;
      stamped := condition;
      var i := 0;
      while i < |cs| && cs[i].ctype != condition.ctype
        invariant 0 <= i <= |cs|
        invariant forall k :: 0 <= k < i ==> cs[k].ctype != condition.ctype
      {
        i := i + 1;
      }
      FirstAt(cs, i, condition.ctype);
      if i < |cs| {
        if !SameState(cs[i], condition) {
          stamped := condition.(time := now);
          cs := cs[i := stamped];
        } else {
          stamped := condition.(time := cs[i].time);
          assert stamped == cs[i] && cs[i := stamped] == cs;
        }
      } else {
        if stamped.time == ZERO_TIME {
          stamped := stamped.(time := now);
        }
        cs := cs + [stamped];
      }
      assert cs == Put(conditions, stamped) by {
        PutAt(conditions, i, stamped);
      }
      conditions := Sort(cs);
    }

    method Delete(t: string)
      modifies this
      ensures conditions == Without(old(conditions), t)
    {
      var cs, kept: seq<Condition> := conditions, [];
      for i := 0 to |cs|
        invariant Without(cs, t) == kept + Without(cs[i..], t)
      {
        WithoutStep(cs, t, i, kept);
        if cs[i].ctype != t {
          kept := kept + [cs[i]];
        }
      }
      conditions := kept;
    }
  }
}
