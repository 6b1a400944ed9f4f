/**
 Transition times play no part in the Ready summary: lists that differ only in times have the
 same summary (pkg/util/conditions/merge.go never reads `LastTransitionTime`).
 */
module SummaryTimes {
  import opened Prelude
  import opened Conditions
  import opened PatchLaws
  import opened Summary

  function Untimed(c: Condition): Condition {
    c.(time := ZERO_TIME)
  }

  lemma TimelessCons(c: Condition, cs: seq<Condition>)
    ensures Timeless([c] + cs) == [Untimed(c)] + Timeless(cs)
  {
    assert ([c] + cs)[1..] == cs;
  }

  lemma {:induction false} FilterUntimed(cs: seq<Condition>, keep: Condition -> bool)
    requires forall c :: keep(Untimed(c)) == keep(c)
    ensures Filter(Timeless(cs), keep) == Timeless(Filter(cs, keep))
  {
    if cs != [] {
      var head, tail := cs[0], cs[1..];
      FilterUntimed(tail, keep);
      assert cs == [head] + tail;
      TimelessCons(head, tail);
      FilterCons(Untimed(head), Timeless(tail), keep);
      FilterCons(head, tail, keep);
      TimelessCons(head, Filter(tail, keep));
    }
  }

  lemma {:induction false} WorstUntimed(cs: seq<Condition>)
    requires cs != []
    ensures Timeless(cs) != [] && Worst(Timeless(cs)) == Untimed(Worst(cs))
  {
    if |cs| > 1 {
      WorstUntimed(cs[1..]);
      assert Timeless(cs)[0] == Untimed(cs[0]) && Timeless(cs)[1..] == Timeless(cs[1..]);
    }
  }

  lemma {:induction false} InsertUntimed(cs: seq<Condition>, c: Condition)
    ensures Insert(Timeless(cs), Untimed(c)) == Timeless(Insert(cs, c))
  {
    if cs != [] && Before(cs[0].ctype, c.ctype) {
      InsertUntimed(cs[1..], c);
      assert Timeless(cs)[0] == Untimed(cs[0]) && Timeless(cs)[1..] == Timeless(cs[1..]);
      assert Insert(cs, c)[1..] == Insert(cs[1..], c);
    } else {
      assert ([c] + cs)[1..] == cs;
    }
  }

  lemma {:induction false} SortUntimed(cs: seq<Condition>)
    ensures Sort(Timeless(cs)) == Timeless(Sort(cs))
  {
    if cs != [] {
      SortUntimed(cs[1..]);
      assert Timeless(cs)[0] == Untimed(cs[0]) && Timeless(cs)[1..] == Timeless(cs[1..]);
      InsertUntimed(Sort(cs[1..]), cs[0]);
    }
  }

  lemma {:induction false} PreferredUntimed(members: seq<Condition>, order: seq<string>)
    requires members != []
    ensures Timeless(members) != [] && Preferred(Timeless(members), order) == Untimed(Preferred(members, order))
  {
    TimelessElements(members);
    if order != [] {
      TimelessLookup(members, order[0]);
      PreferredUntimed(members, order[1..]);
    }
  }

  lemma MergeUntimed(cs: seq<Condition>, target: string, order: seq<string>, format: Formatter)
    ensures MergeConditions(Timeless(cs), target, order, format) == MergeConditions(cs, target, order, format)
  {
    if cs != [] {
      WorstUntimed(cs);
      var top := Worst(cs);
      var members := Members(cs, top.status, top.severity);
      FilterUntimed(cs, c => HasKey(c, top.status, top.severity));
      SortUntimed(members);
      TimelessElements(Sort(members));
      if Sort(members) != [] {
        PreferredUntimed(Sort(members), order);
      }
    }
  }

  /** Lists that are equal up to transition times have the same summary. */
  lemma SummaryIgnoresTimes(cs: seq<Condition>, ds: seq<Condition>, types: Option<seq<string>>, format: Formatter)
    requires Timeless(cs) == Timeless(ds)
    ensures SummaryOf(cs, types, format) == SummaryOf(ds, types, format)
  {
    var order := Order(types);
    FilterUntimed(cs, c => InScope(c, types));
    FilterUntimed(ds, c => InScope(c, types));
    MergeUntimed(Scope(cs, types), READY, order, format);
    MergeUntimed(Scope(ds, types), READY, order, format);
  }
}
