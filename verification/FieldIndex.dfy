/**
 Listing by field from the cache (`indexByField` in pkg/cache/cache.go, `CacheReader.List` in
 pkg/cache/cache_reader.go): every object is indexed under its namespace and under a marker
 for all namespaces, and a list is one index lookup and a label filter.
 */
module FieldIndex {
  import opened Prelude

  const ALL_NAMESPACES := "__all_namespaces"

  function Effective(ns: string): string {
    if ns != "" then ns else ALL_NAMESPACES
  }

  function KeyToNamespacedKey(ns: string, baseKey: string): string {
    if ns != "" then ns + "/" + baseKey else ALL_NAMESPACES + "/" + baseKey
  }

  /** Namespaces as the API server accepts them, or none. */
  predicate IsNamespace(ns: string) {
    '/' !in ns && ns != ALL_NAMESPACES
  }

  // ---------------------------------------------------------------- when keys coincide

  lemma KeyParts(ns: string, value: string)
    ensures KeyToNamespacedKey(ns, value) == Effective(ns) + "/" + value
    ensures Effective(ns) + "/" <= KeyToNamespacedKey(ns, value)
  {
  }

  /** Two keys with the same namespace part hold the same value. */
  lemma SamePrefixSameValue(p: string, v: string, w: string)
    requires p + v == p + w
    ensures v == w
  {
    assert (p + v)[|p|..] == v && (p + w)[|p|..] == w;
  }

  lemma ShorterIsPrefix(a: string, b: string, v: string, w: string)
    requires a + "/" + v == b + "/" + w && |a| <= |b|
    ensures a == b || a + "/" <= b
  {
    var s := a + "/" + v;
    assert a == s[..|a|] && b == (b + "/" + w)[..|b|] && b == s[..|b|];
    if |a| < |b| {
      assert s[..|a| + 1] == a + "/";
      assert b[..|a| + 1] == s[..|a| + 1];
    }
  }

  /**
   Two namespaces share a key exactly when they are the same to the index, or one continues the
   other after a slash.
   */
  lemma KeysCollideExactly(a: string, b: string)
    ensures (exists v, w :: KeyToNamespacedKey(a, v) == KeyToNamespacedKey(b, w)) <==>
            Effective(a) == Effective(b) || Effective(a) + "/" <= Effective(b) || Effective(b) + "/" <= Effective(a)
  {
    var x, y := Effective(a), Effective(b);
    if v, w :| KeyToNamespacedKey(a, v) == KeyToNamespacedKey(b, w) {
      KeyParts(a, v);
      KeyParts(b, w);
      if |x| <= |y| {
        ShorterIsPrefix(x, y, v, w);
      } else {
        ShorterIsPrefix(y, x, w, v);
      }
    }
    if x == y {
      assert KeyToNamespacedKey(a, "") == KeyToNamespacedKey(b, "");
    } else if x + "/" <= y {
      Continued(a, b);
    } else if y + "/" <= x {
      Continued(b, a);
      var v, w :| KeyToNamespacedKey(b, v) == KeyToNamespacedKey(a, w);
      assert KeyToNamespacedKey(a, w) == KeyToNamespacedKey(b, v);
    }
  }

  lemma Continued(a: string, b: string)
    requires Effective(a) + "/" <= Effective(b)
    ensures exists v, w :: KeyToNamespacedKey(a, v) == KeyToNamespacedKey(b, w)
  {
    var x, y := Effective(a), Effective(b);
    var v := y[|x| + 1..] + "/";
    assert x + "/" + v == y + "/" + "";
    KeyParts(a, v);
    KeyParts(b, "");
    assert KeyToNamespacedKey(a, v) == KeyToNamespacedKey(b, "");
  }

  /** On namespaces proper the key determines namespace and value. */
  lemma KeysAreInjective(a: string, b: string, v: string, w: string)
    requires IsNamespace(a) && IsNamespace(b)
    ensures KeyToNamespacedKey(a, v) == KeyToNamespacedKey(b, w) <==> a == b && v == w
  {
    if KeyToNamespacedKey(a, v) == KeyToNamespacedKey(b, w) {
      var x, y := Effective(a), Effective(b);
      KeyParts(a, v);
      KeyParts(b, w);
      NoSlash(a);
      NoSlash(b);
      if |x| <= |y| {
        ShorterIsPrefix(x, y, v, w);
        ContinuedHasSlash(x, y);
      } else {
        ShorterIsPrefix(y, x, w, v);
        ContinuedHasSlash(y, x);
      }
      SamePrefixSameValue(x + "/", v, w);
    }
  }

  lemma ContinuedHasSlash(x: string, y: string)
    ensures x + "/" <= y ==> '/' in y
  {
    if x + "/" <= y {
      assert (x + "/")[|x|] == '/' && y[|x|] == (x + "/")[|x|];
    }
  }

  lemma NoSlash(ns: string)
    requires IsNamespace(ns)
    ensures '/' !in Effective(ns)
  {
  }

  // ---------------------------------------------------------------- the index function

  function Keys(ns: string, values: seq<string>): seq<string> {
    seq(|values|, i requires 0 <= i < |values| => KeyToNamespacedKey(ns, values[i]))
  }

  /** The keys an object is indexed under. */
  function IndexKeys(ns: string, values: seq<string>): seq<string> {
    if ns == "" then Keys("", values) else Keys(ns, values) + Keys("", values)
  }

  /**
   The function `indexByField` registers, from the extracted values on. Without a namespace it
   overwrites the extractor's own slice; with one it leaves it alone.
   */
  method IndexFunc(ns: string, rawVals: array<string>) returns (vals: array<string>)
    modifies rawVals
    ensures vals[..] == IndexKeys(ns, old(rawVals[..]))
    ensures if ns == "" then vals == rawVals else fresh(vals) && rawVals[..] == old(rawVals[..])
  {
    var n := rawVals.Length;
    if ns == "" {
      vals := rawVals;
    } else {
      vals := new string[n * 2](_ => "");
    }
    ghost var raw := rawVals[..];
    for i := 0 to n
      invariant forall k :: 0 <= k < i ==> vals[k] == KeyToNamespacedKey(ns, raw[k])
      invariant ns != "" ==> forall k :: 0 <= k < i ==> vals[k + n] == KeyToNamespacedKey("", raw[k])
      invariant forall k :: i <= k < n ==> rawVals[k] == raw[k]
      invariant ns != "" ==> rawVals[..] == raw
    {
      var rawVal := rawVals[i];
      vals[i] := KeyToNamespacedKey(ns, rawVal);
      if ns != "" {
        vals[i + n] := KeyToNamespacedKey("", rawVal);
      }
    }
  }

  /** Why extractors must return a new slice each time: keys made from keys are different keys. */
  lemma KeysOfKeysDiffer(values: seq<string>)
    requires values != []
    ensures Keys("", Keys("", values)) != Keys("", values)
  {
    var k := Keys("", values);
    assert k[0] == ALL_NAMESPACES + "/" + values[0] && Keys("", k)[0] == ALL_NAMESPACES + "/" + k[0];
    assert |Keys("", k)[0]| > |k[0]|;
  }

  lemma KeyIsIndexed(ns: string, values: seq<string>, listed: string, value: string)
    requires IsNamespace(ns) && IsNamespace(listed)
    ensures KeyToNamespacedKey(listed, value) in IndexKeys(ns, values) <==>
              value in values && (listed == "" || listed == ns)
  {
    var key := KeyToNamespacedKey(listed, value);
    forall other: string | IsNamespace(other)
      ensures key in Keys(other, values) <==> value in values && listed == other
    {
      forall i | 0 <= i < |values| ensures Keys(other, values)[i] == key <==> listed == other && values[i] == value {
        KeysAreInjective(listed, other, value, values[i]);
      }
      if value in values && listed == other {
        var i :| 0 <= i < |values| && values[i] == value;
        assert Keys(other, values)[i] == key;
      }
    }
    assert IsNamespace("");
    assert ns != "" ==> (key in IndexKeys(ns, values) <==> key in Keys(ns, values) || key in Keys("", values));
  }

  // ---------------------------------------------------------------- listing

  datatype Object = Object(namespace: string, name: string, labels: map<string, string>, payload: string)

  type Extractor = Object -> seq<string>

  datatype Operator = Equals | DoubleEquals | OtherOperator(text: string)

  datatype Requirement = Requirement(field: string, operator: Operator, value: string)

  datatype ListOptions = ListOptions(
    namespace: string, fieldSelector: Option<seq<Requirement>>,
    labelSelector: Option<map<string, string> -> bool>)

  datatype ListError = NonExactMatch | NoSuchIndex(field: string)

  function RequiresExactMatch(reqs: seq<Requirement>): (r: Option<Requirement>)
    ensures r.Some? <==> |reqs| == 1 && !reqs[0].operator.OtherOperator?
    ensures r.Some? ==> r.value == reqs[0]
  {
    if |reqs| != 1 then None
    else if reqs[0].operator != Equals && reqs[0].operator != DoubleEquals then None
    else Some(reqs[0])
  }

  /** What a scan of every object would keep, before labels. */
  predicate InNamespace(o: Object, namespace: string) {
    namespace == "" || o.namespace == namespace
  }

  predicate HasLabels(o: Object, selector: Option<map<string, string> -> bool>) {
    selector.None? || selector.value(o.labels)
  }

  class CacheReader {
    /** The informer's store: one object per namespace and name. */
    var objects: set<Object>
    var indexers: map<string, Extractor>

    constructor (os: set<Object>, fields: map<string, Extractor>)
      ensures objects == os && indexers == fields
    {
      objects, indexers := os, fields;
    }

    predicate Namespaced()
      reads this
    {
      forall o :: o in objects ==> IsNamespace(o.namespace)
    }

    /** The store's own lookup: the objects that are indexed under `key`. */
    function ByIndex(field: string, key: string): set<Object>
      requires field in indexers
      reads this
    {
      set o | o in objects && key in IndexKeys(o.namespace, indexers[field](o))
    }

    /** `List`: what a full scan for namespace, field and labels would find, each object once. */
    method List(opts: ListOptions) returns (r: Result<seq<Object>, ListError>)
      requires Namespaced() && IsNamespace(opts.namespace)
      ensures r == Err(NonExactMatch) <==>
                opts.fieldSelector.Some? && RequiresExactMatch(opts.fieldSelector.value).None?
      ensures r.Err? && r != Err(NonExactMatch) <==>
                && opts.fieldSelector.Some? && RequiresExactMatch(opts.fieldSelector.value).Some?
                && opts.fieldSelector.value[0].field !in indexers
      ensures r.Err? ==> r.error == NonExactMatch || r.error == NoSuchIndex(opts.fieldSelector.value[0].field)
      ensures r.Ok? ==>
                && (forall o :: o in r.value <==>
                      && o in objects && InNamespace(o, opts.namespace) && HasLabels(o, opts.labelSelector)
                      && (opts.fieldSelector.Some? ==>
                          opts.fieldSelector.value[0].value in indexers[opts.fieldSelector.value[0].field](o)))
                && forall i, j :: 0 <= i < j < |r.value| ==> r.value[i] != r.value[j]
    {
      var objs: set<Object>;
      if opts.fieldSelector.Some? {
        var exact := RequiresExactMatch(opts.fieldSelector.value);
        if exact.None? {
          return Err(NonExactMatch);
        }
        if exact.value.field !in indexers {
          return Err(NoSuchIndex(exact.value.field));
        }
        objs := ByIndex(exact.value.field, KeyToNamespacedKey(opts.namespace, exact.value.value));
        IndexAgreesWithScan(exact.value.field, opts.namespace, exact.value.value);
      } else if opts.namespace != "" {
        objs := set o | o in objects && o.namespace == opts.namespace;
      } else {
        objs := objects;
      }
      var kept := SelectLabels(objs, opts.labelSelector);
      r := Ok(kept);
    }

    static method SelectLabels(objs: set<Object>, selector: Option<map<string, string> -> bool>)
      returns (kept: seq<Object>)
      ensures forall o :: o in kept <==> o in objs && HasLabels(o, selector)
      ensures forall i, j :: 0 <= i < j < |kept| ==> kept[i] != kept[j]
    {
      kept := [];
      var left := objs;
      while left != {}
        invariant left <= objs
        invariant forall o :: o in kept <==> o in objs - left && HasLabels(o, selector)
        invariant forall i, j :: 0 <= i < j < |kept| ==> kept[i] != kept[j]
        decreases left
      {
        var item :| item in left;
        left := left - {item};
        if selector.Some? && !selector.value(item.labels) {
          continue;
        }
        assert item !in kept;
        kept := kept + [item];
      }
    }

    /** An index lookup finds what a scan by namespace and value finds. */
    lemma IndexAgreesWithScan(field: string, namespace: string, value: string)
      requires field in indexers && Namespaced() && IsNamespace(namespace)
      ensures ByIndex(field, KeyToNamespacedKey(namespace, value)) ==
              set o | o in objects && InNamespace(o, namespace) && value in indexers[field](o)
    {
      forall o | o in objects
        ensures KeyToNamespacedKey(namespace, value) in IndexKeys(o.namespace, indexers[field](o)) <==>
                InNamespace(o, namespace) && value in indexers[field](o) {
        KeyIsIndexed(o.namespace, indexers[field](o), namespace, value);
      }
    }
  }

  /** With a slash in a namespace the index answers for the wrong namespace. */
  lemma SlashesConfuseTheIndex(o: Object, value: string)
    requires o.namespace == "a/b"
    ensures KeyToNamespacedKey("a", "b/" + value) in IndexKeys(o.namespace, [value])
    ensures !InNamespace(o, "a")
  {
    assert Keys("a/b", [value])[0] == "a/b" + "/" + value;
    assert "a" + "/" + ("b/" + value) == "a/b" + "/" + value;
  }
}
