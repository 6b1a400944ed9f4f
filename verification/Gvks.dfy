/**
 The kinds a controller policy watches: `gvksFromPolicy` and `areGVKsEqual`
 (pkg/controller/manager.go).
 */
module Gvks {
  import opened Prelude

  datatype GVK = GVK(group: string, version: string, kind: string)
  datatype GroupKind = GroupKind(group: string, kind: string)

  /** The fields of a policy spec that select kinds. */
  datatype Selection = Selection(resources: seq<string>, apiGroups: seq<string>, apiVersions: seq<string>)

  datatype GvkError = NoResources | WildcardResource | NoKinds | MapperError(text: string)

  /** `RESTMapper.KindsFor`, highest priority first. */
  type KindsFor = string -> Result<seq<GVK>, string>

  function KindOf(g: GVK): GroupKind {
    GroupKind(g.group, g.kind)
  }

  predicate Accepts(allowed: seq<string>, value: string) {
    allowed == [] || "*" in allowed || value in allowed
  }

  /** No list and "*" accept everything, another name only itself, and a longer list what its parts do. */
  lemma AcceptsExactly(a: seq<string>, b: seq<string>, name: string, value: string)
    ensures Accepts([], value) && Accepts(["*"], value)
    ensures name != "*" ==> (Accepts([name], value) <==> value == name)
    ensures a != [] && b != [] ==> (Accepts(a + b, value) <==> Accepts(a, value) || Accepts(b, value))
  {
    assert "*" in ["*"];
  }

  predicate Matches(sel: Selection, g: GVK) {
    Accepts(sel.apiGroups, g.group) && Accepts(sel.apiVersions, g.version)
  }

  /** Everything the mapper offers, in resource order and then priority order. */
  function Candidates(resources: seq<string>, kindsFor: KindsFor): Result<seq<GVK>, GvkError> {
    if resources == [] then Ok([])
    else if resources[0] == "*" then Err(WildcardResource)
    else
      match kindsFor(resources[0])
      case Err(e) => Err(MapperError(e))
      case Ok(kinds) =>
        match Candidates(resources[1..], kindsFor)
        case Err(e) => Err(e)
        case Ok(rest) => Ok(kinds + rest)
  }

  /** Resources are asked in order, and the first one that fails decides. */
  lemma {:induction false} CandidatesConcat(a: seq<string>, b: seq<string>, kindsFor: KindsFor)
    ensures Candidates(a + b, kindsFor) ==
            match (Candidates(a, kindsFor), Candidates(b, kindsFor))
            case (Err(e), _) => Err(e)
            case (Ok(_), Err(e)) => Err(e)
            case (Ok(p), Ok(q)) => Ok(p + q)
  {
    if a == [] {
      assert a + b == b;
      assert Candidates(b, kindsFor).Ok? ==> [] + Candidates(b, kindsFor).value == Candidates(b, kindsFor).value;
    } else {
      assert (a + b)[1..] == a[1..] + b;
      CandidatesConcat(a[1..], b, kindsFor);
      if a[0] != "*" && kindsFor(a[0]).Ok? && Candidates(a[1..], kindsFor).Ok? && Candidates(b, kindsFor).Ok? {
        Associate(kindsFor(a[0]).value, Candidates(a[1..], kindsFor).value, Candidates(b, kindsFor).value);
      }
    }
  }

  /** One resource: the wildcard is refused, otherwise the mapper's answer. */
  lemma CandidatesOfOne(resource: string, kindsFor: KindsFor)
    ensures Candidates([resource], kindsFor) ==
            if resource == "*" then Err(WildcardResource)
            else match kindsFor(resource)
                 case Ok(kinds) => Ok(kinds)
                 case Err(e) => Err(MapperError(e))
  {
    assert [resource][1..] == [];
    assert kindsFor(resource).Ok? ==> kindsFor(resource).value + [] == kindsFor(resource).value;
  }

  /** `g` matches, and no earlier match has its group and kind. */
  ghost predicate FirstMatch(candidates: seq<GVK>, sel: Selection, g: GVK) {
    exists i :: 0 <= i < |candidates| && FirstMatchAt(candidates, sel, g, i)
  }

  ghost predicate FirstMatchAt(candidates: seq<GVK>, sel: Selection, g: GVK, i: nat)
    requires i < |candidates|
  {
    && candidates[i] == g && Matches(sel, g)
    && forall j :: 0 <= j < i ==> !(Matches(sel, candidates[j]) && KindOf(candidates[j]) == KindOf(g))
  }

  ghost predicate Matched(candidates: seq<GVK>, sel: Selection, gk: GroupKind) {
    exists c :: c in candidates && Matches(sel, c) && KindOf(c) == gk
  }

  ghost predicate NoRepeats(gs: seq<GVK>) {
    forall i, j :: 0 <= i < j < |gs| ==> gs[i] != gs[j]
  }

  lemma FirstMatchSnoc(cs: seq<GVK>, c: GVK, sel: Selection)
    ensures forall g :: FirstMatch(cs + [c], sel, g) <==>
                        FirstMatch(cs, sel, g) || (g == c && Matches(sel, c) && !Matched(cs, sel, KindOf(c)))
    ensures forall gk :: Matched(cs + [c], sel, gk) <==> Matched(cs, sel, gk) || (Matches(sel, c) && KindOf(c) == gk)
  {
    var ds := cs + [c];
    forall g ensures FirstMatch(ds, sel, g) <==>
                     FirstMatch(cs, sel, g) || (g == c && Matches(sel, c) && !Matched(cs, sel, KindOf(c))) {
      if FirstMatch(ds, sel, g) {
        var i :| 0 <= i < |ds| && FirstMatchAt(ds, sel, g, i);
        if i < |cs| {
          forall j | 0 <= j < i ensures !(Matches(sel, cs[j]) && KindOf(cs[j]) == KindOf(g)) {
            assert ds[j] == cs[j];
          }
          assert FirstMatchAt(cs, sel, g, i);
        } else {
          forall d | d in cs ensures !(Matches(sel, d) && KindOf(d) == KindOf(c)) {
            var j :| 0 <= j < |cs| && cs[j] == d;
            assert ds[j] == d;
          }
        }
      }
      if FirstMatch(cs, sel, g) {
        var i :| 0 <= i < |cs| && FirstMatchAt(cs, sel, g, i);
        assert FirstMatchAt(ds, sel, g, i);
      } else if g == c && Matches(sel, c) && !Matched(cs, sel, KindOf(c)) {
        assert FirstMatchAt(ds, sel, g, |cs|);
      }
    }
    forall gk ensures Matched(ds, sel, gk) <==> Matched(cs, sel, gk) || (Matches(sel, c) && KindOf(c) == gk) {
      assert forall d :: d in ds <==> d in cs || d == c;
    }
  }

  /** Every group-kind with a match has exactly one first match. */
  lemma {:induction false} OneFirstMatchPerGroupKind(cs: seq<GVK>, sel: Selection)
    ensures forall gk :: Matched(cs, sel, gk) <==> exists g :: FirstMatch(cs, sel, g) && KindOf(g) == gk
    ensures forall g, h :: FirstMatch(cs, sel, g) && FirstMatch(cs, sel, h) && KindOf(g) == KindOf(h) ==> g == h
  {
    if cs != [] {
      var init, c := cs[..|cs| - 1], cs[|cs| - 1];
      assert cs == init + [c];
      OneFirstMatchPerGroupKind(init, sel);
      FirstMatchSnoc(init, c, sel);
      forall gk ensures Matched(cs, sel, gk) <==> exists g :: FirstMatch(cs, sel, g) && KindOf(g) == gk {
        if Matched(cs, sel, gk) {
          if Matched(init, sel, gk) {
            var g :| FirstMatch(init, sel, g) && KindOf(g) == gk;
            assert FirstMatch(cs, sel, g);
          } else {
            assert FirstMatch(cs, sel, c);
          }
        }
      }
    }
  }

  /** Every matching candidate is represented, by one that matches and has its group and kind, and by no two. */
  lemma SelectedKinds(cs: seq<GVK>, sel: Selection, c: GVK) returns (g: GVK)
    requires c in cs && Accepts(sel.apiGroups, c.group) && Accepts(sel.apiVersions, c.version)
    ensures FirstMatch(cs, sel, g) && g in cs && g.group == c.group && g.kind == c.kind
    ensures Accepts(sel.apiVersions, g.version)
    ensures forall h :: FirstMatch(cs, sel, h) && h.group == c.group && h.kind == c.kind ==> h == g
  {
    hide FirstMatch;
    OneFirstMatchPerGroupKind(cs, sel);
    assert Matched(cs, sel, KindOf(c));
    g :| FirstMatch(cs, sel, g) && KindOf(g) == KindOf(c);
    FirstMatchMatches(cs, sel, g);
  }

  lemma FirstMatchMatches(cs: seq<GVK>, sel: Selection, g: GVK)
    requires FirstMatch(cs, sel, g)
    ensures g in cs && Matches(sel, g)
  {
  }

  /** The inner loop of `gvksFromPolicy`. */
  method CollectKinds(kinds: seq<GVK>, sel: Selection, all: set<GVK>, groupKinds: set<GroupKind>, ghost seen: seq<GVK>)
    returns (all': set<GVK>, groupKinds': set<GroupKind>)
    requires forall g :: g in all <==> FirstMatch(seen, sel, g)
    requires forall gk :: gk in groupKinds <==> Matched(seen, sel, gk)
    ensures forall g :: g in all' <==> FirstMatch(seen + kinds, sel, g)
    ensures forall gk :: gk in groupKinds' <==> Matched(seen + kinds, sel, gk)
  {
    all', groupKinds' := all, groupKinds;
    assert seen + kinds[..0] == seen;
    for i := 0 to |kinds|
      invariant forall g :: g in all' <==> FirstMatch(seen + kinds[..i], sel, g)
      invariant forall gk :: gk in groupKinds' <==> Matched(seen + kinds[..i], sel, gk)
    {
      var gvk := kinds[i];
      FirstMatchSnoc(seen + kinds[..i], gvk, sel);
      assert seen + kinds[..i + 1] == seen + kinds[..i] + [gvk];
      var matchedGroups := false;
      if sel.apiGroups == [] {
        matchedGroups := true;
      } else {
        for k := 0 to |sel.apiGroups|
          invariant matchedGroups <==> "*" in sel.apiGroups[..k] || gvk.group in sel.apiGroups[..k]
        {
          if sel.apiGroups[k] == "*" || sel.apiGroups[k] == gvk.group {
            matchedGroups := true;
          }
        }
        assert sel.apiGroups[..|sel.apiGroups|] == sel.apiGroups;
      }
      var matchedVersion := false;
      if sel.apiVersions == [] {
        matchedVersion := true;
      } else {
        for k := 0 to |sel.apiVersions|
          invariant matchedVersion <==> "*" in sel.apiVersions[..k] || gvk.version in sel.apiVersions[..k]
        {
          if sel.apiVersions[k] == "*" || sel.apiVersions[k] == gvk.version {
            matchedVersion := true;
          }
        }
        assert sel.apiVersions[..|sel.apiVersions|] == sel.apiVersions;
      }
      if matchedVersion && matchedGroups && KindOf(gvk) !in groupKinds' {
        all' := all' + {gvk};
        groupKinds' := groupKinds' + {KindOf(gvk)};
      }
    }
    assert kinds[..|kinds|] == kinds;
  }

  /**
   `gvksFromPolicy`: the first match of every group-kind, each once, in no particular order
   (the source ranges over a map).
   */
  method GvksFromPolicy(sel: Selection, kindsFor: KindsFor) returns (r: Result<seq<GVK>, GvkError>)
    ensures sel.resources == [] ==> r == Err(NoResources)
    ensures sel.resources != [] ==>
              match Candidates(sel.resources, kindsFor)
              case Err(e) => r == Err(e)
              case Ok(cs) =>
                if r.Ok? then r.value != [] && NoRepeats(r.value) && forall g :: g in r.value <==>
                    FirstMatch(cs, sel, g)
                else r == Err(NoKinds) && forall g :: !FirstMatch(cs, sel, g)
  {
    if sel.resources == [] {
      return Err(NoResources);
    }
    var all: set<GVK>, groupKinds: set<GroupKind> := {}, {};
    ghost var seen: seq<GVK> := [];
    assert sel.resources[0..] == sel.resources;
    assert Candidates(sel.resources, kindsFor).Ok? ==>
             [] + Candidates(sel.resources, kindsFor).value == Candidates(sel.resources, kindsFor).value;
    for i := 0 to |sel.resources|
      invariant forall g :: g in all <==> FirstMatch(seen, sel, g)
      invariant forall gk :: gk in groupKinds <==> Matched(seen, sel, gk)
      invariant Candidates(sel.resources, kindsFor) ==
                match Candidates(sel.resources[i..], kindsFor)
                case Ok(rest) => Ok(seen + rest)
                case Err(e) => Err(e)
    {
      assert sel.resources[i..][1..] == sel.resources[i + 1..];
      if sel.resources[i] == "*" {
        return Err(WildcardResource);
      }
      var kinds := kindsFor(sel.resources[i]);
      if kinds.Err? {
        return Err(MapperError(kinds.error));
      }
      all, groupKinds := CollectKinds(kinds.value, sel, all, groupKinds, seen);
      ghost var rest := Candidates(sel.resources[i + 1..], kindsFor);
      assert rest.Ok? ==> seen + (kinds.value + rest.value) == seen + kinds.value + rest.value;
      seen := seen + kinds.value;
    }
    assert Candidates(sel.resources, kindsFor) == Ok(seen + []);
    assert seen + [] == seen;
    var gvks := ToSeq(all);
    r := if gvks == [] then Err(NoKinds) else Ok(gvks);
  }

  /** Ranging over the keys of a map. */
  method ToSeq(all: set<GVK>) returns (r: seq<GVK>)
    ensures NoRepeats(r) && forall g :: g in r <==> g in all
  {
    r := [];
    var left := all;
    while left != {}
      invariant NoRepeats(r) && left <= all
      invariant forall g :: g in r <==> g in all - left
      decreases left
    {
      var g :| g in left;
      assert g !in r;
      left := left - {g};
      r := r + [g];
    }
  }

  // ---------------------------------------------------------------- areGVKsEqual

  method AreGVKsEqual(o1: seq<GVK>, o2: seq<GVK>) returns (equal: bool)
    ensures equal <==> |o1| == |o2| && forall g :: g in o1 ==> g in o2
  {
    if |o1| != |o2| {
      return false;
    }
    for i := 0 to |o1|
      invariant forall k :: 0 <= k < i ==> o1[k] in o2
    {
      var found := false;
      for j := 0 to |o2|
        invariant found <==> o1[i] in o2[..j]
      {
        if o1[i].kind == o2[j].kind && o1[i].group == o2[j].group && o1[i].version == o2[j].version {
          found := true;
        }
      }
      assert o2[..|o2|] == o2;
      if !found {
        return false;
      }
    }
    equal := true;
  }

  function Elements(gs: seq<GVK>): set<GVK> {
    set g | g in gs
  }

  lemma ElementsSnoc(gs: seq<GVK>, i: nat)
    requires i < |gs|
    ensures Elements(gs[..i + 1]) == Elements(gs[..i]) + {gs[i]} <= Elements(gs)
  {
    assert gs[..i + 1] == gs[..i] + [gs[i]];
  }

  lemma {:induction false} ElementCount(gs: seq<GVK>)
    ensures |Elements(gs)| <= |gs|
    ensures NoRepeats(gs) ==> |Elements(gs)| == |gs|
  {
    if gs != [] {
      ElementCount(gs[1..]);
      assert Elements(gs) == {gs[0]} + Elements(gs[1..]);
      if NoRepeats(gs) {
        assert forall i :: 0 <= i < |gs[1..]| ==> gs[1..][i] == gs[i + 1];
        assert gs[0] !in Elements(gs[1..]);
      }
    }
  }

  lemma SubsetOfSameSize(a: set<GVK>, b: set<GVK>)
    requires a <= b && |b| <= |a|
    ensures a == b
  {
    assert b == a + (b - a);
    assert |b| == |a| + |b - a|;
    assert b - a == {};
  }

  /**
   The one-directional comparison of `areGVKsEqual` decides set equality on lists without
   repeats, by counting.
   */
  lemma ContainmentIsEquality(o1: seq<GVK>, o2: seq<GVK>)
    requires NoRepeats(o1) && NoRepeats(o2)
    ensures (|o1| == |o2| && forall g :: g in o1 ==> g in o2) <==> Elements(o1) == Elements(o2)
  {
    ElementCount(o1);
    ElementCount(o2);
    if |o1| == |o2| && forall g :: g in o1 ==> g in o2 {
      SubsetOfSameSize(Elements(o1), Elements(o2));
    }
    if Elements(o1) == Elements(o2) {
      forall g | g in o1 ensures g in o2 {
        assert g in Elements(o1);
      }
    }
  }

  /** With a repeated kind the comparison would call different sets equal. */
  lemma RepeatsWouldFoolTheComparison(a: GVK, b: GVK)
    requires a != b
    ensures var o1, o2 := [a, a], [a, b];
            |o1| == |o2| && (forall g :: g in o1 ==> g in o2) && Elements(o1) != Elements(o2)
  {
    assert b in Elements([a, b]) && b !in Elements([a, a]);
  }
}
