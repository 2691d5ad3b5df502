/**
 * myOverride / myOverrideRecursive: the deep merge of an override document
 * into a base document. A map override walks its keys in compairString
 * order and replaces or merges each; a sequence override merges map
 * elements into base elements with the same `name` and appends the rest
 * under the blnOverride flag; any other pairing of kinds is an error.
 */
module Override {
  import opened Wrappers
  import opened Document
  import opened KeyOrder

  /** What a merge step yields: a value, or the dynamic type of the base that could not take the override. */
  datatype Outcome<T> = Done(value: T) | Failed(typeName: string)

  /** reflect.TypeOf of a base value, as it appears in the "unknown type" error. */
  function TypeName(v: Value): (r: string)
    ensures v.Other? ==> r == v.typeName
    ensures v.Map? ==> r == "map[string]interface {}"
    ensures v.Seq? ==> r == "[]interface {}"
  {
    match v
    case Null => "<nil>"
    case Str(_) => "string"
    case Int(_) => "int"
    case Float(_) => "float64"
    case Bool(_) => "bool"
    case Macro(_) => "main.stringMacro"
    case Map(_) => "map[string]interface {}"
    case Seq(_) => "[]interface {}"
    case Other(t) => t
  }

  // ---------------------------------------------------------------------
  // The merge as a function

  /** myOverrideRecursive on values. */
  function Merge(pk: seq<string>, data: Value, over: Value): Outcome<Value>
    decreases over, 3
  {
    if over.Null? then Done(data)
    else if data.Null? then Done(over)
    else if data.Map? && over.Map? then
      MergeKeys(pk, data.entries, over.entries, SortedKeys(pk, over.entries), 0)
    else if data.Seq? && over.Seq? then
      MergeItems(pk, data.items, over.items, 0, false)
    else Failed(TypeName(data))
  }

  /** The key loop from position i on, with the base map as updated so far. */
  function MergeKeys(pk: seq<string>, dest: map<string, Value>, m: map<string, Value>,
                     keys: seq<string>, i: nat): Outcome<Value>
    requires i <= |keys| && forall j :: 0 <= j < |keys| ==> keys[j] in m
    decreases Map(m), 2, |keys| - i
  {
    if i == |keys| then Done(Map(dest))
    else
      match MergedValue(pk, dest, m, keys[i])
      case Failed(t) => Failed(t)
      case Done(v) => MergeKeys(pk, dest[keys[i] := v], m, keys, i + 1)
  }

  /**
   * The value key k gets: the override's value when the base has none (or
   * null) or the override's value is not a map or sequence; otherwise the
   * merge of the two.
   */
  function MergedValue(pk: seq<string>, dest: map<string, Value>, m: map<string, Value>, k: string): Outcome<Value>
    requires k in m
    decreases Map(m), 1
  {
    var vdest := if k in dest then dest[k] else Null;
    if vdest.Null? || !IsCollection(m[k]) then Done(m[k])
    else Merge(pk, vdest, m[k])
  }

  /** The element loop from position j on, with the base sequence and the flag so far. */
  function MergeItems(pk: seq<string>, adest: seq<Value>, a: seq<Value>, j: nat, flag: bool): Outcome<Value>
    requires j <= |a|
    decreases Seq(a), 2, |a| - j
  {
    if j == |a| then Done(Seq(adest))
    else
      match MergeItem(pk, adest, a, j, flag)
      case Failed(t) => Failed(t)
      case Done(step) => MergeItems(pk, step.0, a, j + 1, step.1)
  }

  /**
   * One pass of the element loop: a map element is merged into the base
   * elements with its name and appended when the flag is still false; a
   * string, int, float or bool is appended; anything else is ignored.
   */
  function MergeItem(pk: seq<string>, adest: seq<Value>, a: seq<Value>, j: nat, flag: bool): Outcome<(seq<Value>, bool)>
    requires j < |a|
    decreases Seq(a), 1
  {
    if a[j].Map? then
      match MatchNamed(pk, adest, a, j, 0, flag)
      case Failed(t) => Failed(t)
      case Done(step) => if !step.1 then Done((step.0 + [a[j]], true)) else Done(step)
    else if IsPlainScalar(a[j]) then Done((adest + [a[j]], true))
    else Done((adest, flag))
  }

  /** The inner loop over the base elements from idest on: merge a[j] into each one with the same name. */
  function MatchNamed(pk: seq<string>, adest: seq<Value>, a: seq<Value>, j: nat, idest: nat, flag: bool)
    : Outcome<(seq<Value>, bool)>
    requires j < |a| && idest <= |adest|
    decreases Seq(a), 0, |adest| - idest
  {
    if idest == |adest| then Done((adest, flag))
    else if Matches(adest[idest], a[j]) then
      match Merge(pk, adest[idest], a[j])
      case Failed(t) => Failed(t)
      case Done(r) => MatchNamed(pk, adest[idest := r], a, j, idest + 1, true)
    else MatchNamed(pk, adest, a, j, idest + 1, flag)
  }

  /** A base element a map element merges into: a map whose string name equals the element's name. */
  predicate Matches(dest: Value, elem: Value)
  {
    ElementName(dest).Some? && ElementName(elem) == ElementName(dest)
  }

  // ---------------------------------------------------------------------
  // The imperative merge

  /**
   * myOverrideRecursive: the merged value, or the type error. On an error
   * the value returned is not specified (the caller discards it).
   */
  method OverrideRecursive(pk: seq<string>, data: Value, dataOverride: Value)
    returns (result: Value, err: Option<string>)
    ensures err.None? <==> Merge(pk, data, dataOverride).Done?
    ensures err.None? ==> result == Merge(pk, data, dataOverride).value
    ensures err.Some? ==> err.value == Merge(pk, data, dataOverride).typeName
    decreases dataOverride, 3
  {
    if dataOverride.Null? {
      return data, None;
    }
    if data.Null? {
      return dataOverride, None;
    }
    if data.Map? && dataOverride.Map? {
      var keylist := SortedKeys(pk, dataOverride.entries);
      result, err := OverrideKeys(pk, data.entries, dataOverride.entries, keylist);
      return;
    }
    if data.Seq? && dataOverride.Seq? {
      result, err := OverrideItems(pk, data.items, dataOverride.items);
      return;
    }
    return data, Some(TypeName(data));
  }

  /** The key loop of myOverrideRecursive: mdest[k] is replaced or merged, key by key. */
  method OverrideKeys(pk: seq<string>, mdest: map<string, Value>, m: map<string, Value>, keylist: seq<string>)
    returns (result: Value, err: Option<string>)
    requires forall j :: 0 <= j < |keylist| ==> keylist[j] in m
    ensures err.None? <==> MergeKeys(pk, mdest, m, keylist, 0).Done?
    ensures err.None? ==> result == MergeKeys(pk, mdest, m, keylist, 0).value
    ensures err.Some? ==> err.value == MergeKeys(pk, mdest, m, keylist, 0).typeName
    decreases Map(m), 2
  {
    var dest := mdest;
    for i := 0 to |keylist|
      invariant MergeKeys(pk, mdest, m, keylist, 0) == MergeKeys(pk, dest, m, keylist, i)
    {
      var k := keylist[i];
      // a missing key reads as nil
      var vdest := if k in dest then dest[k] else Null;
      var v := m[k];
      if vdest.Null? || v.Null? || !(v.Map? || v.Seq?) {
        dest := dest[k := v];
      } else {
        var r, e := OverrideRecursive(pk, vdest, v);
        if e.Some? {
          return Map(dest), e;
        }
        dest := dest[k := r];
      }
    }
    return Map(dest), None;
  }

  /** The element loop of myOverrideRecursive, with its blnOverride flag. */
  method OverrideItems(pk: seq<string>, data: seq<Value>, a: seq<Value>)
    returns (result: Value, err: Option<string>)
    ensures err.None? <==> MergeItems(pk, data, a, 0, false).Done?
    ensures err.None? ==> result == MergeItems(pk, data, a, 0, false).value
    ensures err.Some? ==> err.value == MergeItems(pk, data, a, 0, false).typeName
    decreases Seq(a), 2
  {
    var adest := data;
    var blnOverride := false;
    for j := 0 to |a|
      invariant MergeItems(pk, data, a, 0, false) == MergeItems(pk, adest, a, j, blnOverride)
    {
      var elem := a[j];
      if elem.Map? {
        var e;
        adest, blnOverride, e := OverrideNamed(pk, adest, a, j, blnOverride);
        if e.Some? {
          return Seq(data), e;
        }
        if !blnOverride {
          adest := adest + [elem];
          blnOverride := true;
        }
      } else if elem.Str? || elem.Int? || elem.Float? || elem.Bool? {
        adest := adest + [elem];
        blnOverride := true;
      }
    }
    // the "unknown slice type" warning printed when nothing was merged is not modelled
    return Seq(adest), None;
  }

  /** The inner loop: merges the map element a[j] into every base element with the same name. */
  method OverrideNamed(pk: seq<string>, adest: seq<Value>, a: seq<Value>, j: nat, flag: bool)
    returns (dest: seq<Value>, blnOverride: bool, err: Option<string>)
    requires j < |a| && a[j].Map?
    ensures err.None? <==> MatchNamed(pk, adest, a, j, 0, flag).Done?
    ensures err.None? ==> (dest, blnOverride) == MatchNamed(pk, adest, a, j, 0, flag).value
    ensures err.Some? ==> err.value == MatchNamed(pk, adest, a, j, 0, flag).typeName
    decreases Seq(a), 0
  {
    var m := a[j].entries;
    dest, blnOverride := adest, flag;
    for idest := 0 to |adest|
      invariant |dest| == |adest|
      invariant MatchNamed(pk, adest, a, j, 0, flag) == MatchNamed(pk, dest, a, j, idest, blnOverride)
    {
      var destelem := dest[idest];
      if destelem.Map? && "name" in destelem.entries && destelem.entries["name"].Str? {
        if "name" in m && m["name"] == destelem.entries["name"] {
          var r, e := OverrideRecursive(pk, destelem, a[j]);
          if e.Some? {
            return adest, flag, e;
          }
          dest := dest[idest := r];
          blnOverride := true;
        }
      }
    }
    err := None;
  }

  /** myOverride: the merge from the roots. */
  method MyOverride(pk: seq<string>, data: Value, dataOverride: Value) returns (result: Value, err: Option<string>)
    ensures err.None? <==> Merge(pk, data, dataOverride).Done?
    ensures err.None? ==> result == Merge(pk, data, dataOverride).value
    ensures err.Some? ==> err.value == Merge(pk, data, dataOverride).typeName
  {
    result, err := OverrideRecursive(pk, data, dataOverride);
  }

  // ---------------------------------------------------------------------
  // Map merge

  /** Every key of the override map merges without error. */
  predicate AllKeysMerge(pk: seq<string>, d: map<string, Value>, m: map<string, Value>)
  {
    forall k :: k in m ==> MergedValue(pk, d, m, k).Done?
  }

  /**
   * The merged map: keys only the base has keep their values; every
   * override key takes the override's value, or the merge of the base's
   * map or sequence with it.
   */
  function Combined(pk: seq<string>, d: map<string, Value>, m: map<string, Value>): (r: map<string, Value>)
    requires AllKeysMerge(pk, d, m)
    ensures r.Keys == d.Keys + m.Keys
    ensures forall k :: k in d && k !in m ==> r[k] == d[k]
    ensures forall k :: k in m && (k !in d || d[k].Null? || !IsCollection(m[k])) ==> r[k] == m[k]
    ensures forall k :: k in m && k in d && !d[k].Null? && IsCollection(m[k]) ==> Merge(pk, d[k], m[k]) == Done(r[k])
  {
    map k | k in d.Keys + m.Keys :: if k in m then MergedValue(pk, d, m, k).value else d[k]
  }

  /** The key loop after i keys: the keys done hold their merged values, the others the base's. */
  lemma {:induction false} MergeKeysProgress(pk: seq<string>, d: map<string, Value>, m: map<string, Value>,
                                             keys: seq<string>, i: nat, dest: map<string, Value>)
    requires i <= |keys| && forall j :: 0 <= j < |keys| ==> keys[j] in m
    requires forall j, l :: 0 <= j < l < |keys| ==> keys[j] != keys[l]
    requires forall k :: k in m ==> k in keys
    requires forall j :: 0 <= j < i ==> keys[j] in dest && MergedValue(pk, d, m, keys[j]) == Done(dest[keys[j]])
    requires forall k :: k in dest && k !in keys[..i] ==> k in d && dest[k] == d[k]
    requires forall k :: k in d ==> k in dest
    ensures MergeKeys(pk, dest, m, keys, i).Done? <==> AllKeysMerge(pk, d, m)
    ensures AllKeysMerge(pk, d, m) ==> MergeKeys(pk, dest, m, keys, i) == Done(Map(Combined(pk, d, m)))
    decreases |keys| - i
  {
    if i == |keys| {
      MergeKeysEnd(pk, d, m, keys, dest);
    } else {
      var k := keys[i];
      UnvisitedKeepsBase(pk, d, m, keys, i, dest);
      var mv := MergedValue(pk, d, m, k);
      if mv.Done? {
        var dest' := dest[k := mv.value];
        VisitedStep(pk, d, m, keys, i, dest);
        MergeKeysProgress(pk, d, m, keys, i + 1, dest');
        assert MergeKeys(pk, dest, m, keys, i) == MergeKeys(pk, dest', m, keys, i + 1);
      } else {
        assert MergeKeys(pk, dest, m, keys, i) == Failed(mv.typeName);
      }
    }
  }

  /** After the last key: every key merged, and the updated base is the combined map. */
  lemma MergeKeysEnd(pk: seq<string>, d: map<string, Value>, m: map<string, Value>,
                     keys: seq<string>, dest: map<string, Value>)
    requires forall j :: 0 <= j < |keys| ==> keys[j] in m
    requires forall k :: k in m ==> k in keys
    requires forall j :: 0 <= j < |keys| ==> keys[j] in dest && MergedValue(pk, d, m, keys[j]) == Done(dest[keys[j]])
    requires forall k :: k in dest && k !in keys ==> k in d && dest[k] == d[k]
    requires forall k :: k in d ==> k in dest
    ensures AllKeysMerge(pk, d, m) && dest == Combined(pk, d, m)
  {
    forall k | k in m
      ensures MergedValue(pk, d, m, k).Done?
    {
      var j :| 0 <= j < |keys| && keys[j] == k;
    }
    var c := Combined(pk, d, m);
    forall k | k in dest
      ensures k in c && dest[k] == c[k]
    {
      if k in keys {
        var j :| 0 <= j < |keys| && keys[j] == k;
      }
    }
    forall k | k in c
      ensures k in dest
    {
      if k in m {
        var j :| 0 <= j < |keys| && keys[j] == k;
      }
    }
  }

  /** A key not yet visited still sees the base's value. */
  lemma UnvisitedKeepsBase(pk: seq<string>, d: map<string, Value>, m: map<string, Value>,
                           keys: seq<string>, i: nat, dest: map<string, Value>)
    requires i < |keys| && keys[i] in m
    requires forall j :: 0 <= j < i ==> keys[j] != keys[i]
    requires forall k :: k in dest && k !in keys[..i] ==> k in d && dest[k] == d[k]
    requires forall k :: k in d ==> k in dest
    ensures MergedValue(pk, dest, m, keys[i]) == MergedValue(pk, d, m, keys[i])
  {
    assert keys[i] !in keys[..i];
  }

  /** Visiting key i keeps the loop's description true for i + 1 keys. */
  lemma VisitedStep(pk: seq<string>, d: map<string, Value>, m: map<string, Value>,
                    keys: seq<string>, i: nat, dest: map<string, Value>)
    requires i < |keys| && forall j :: 0 <= j < |keys| ==> keys[j] in m
    requires forall j, l :: 0 <= j < l < |keys| ==> keys[j] != keys[l]
    requires forall j :: 0 <= j < i ==> keys[j] in dest && MergedValue(pk, d, m, keys[j]) == Done(dest[keys[j]])
    requires forall k :: k in dest && k !in keys[..i] ==> k in d && dest[k] == d[k]
    requires MergedValue(pk, d, m, keys[i]).Done?
    ensures var dest' := dest[keys[i] := MergedValue(pk, d, m, keys[i]).value];
      (forall j :: 0 <= j < i + 1 ==> keys[j] in dest' && MergedValue(pk, d, m, keys[j]) == Done(dest'[keys[j]]))
      && (forall k :: k in dest' && k !in keys[..i + 1] ==> k in d && dest'[k] == d[k])
  {
    var dest' := dest[keys[i] := MergedValue(pk, d, m, keys[i]).value];
    forall k | k in dest' && k !in keys[..i + 1]
      ensures k in d && dest'[k] == d[k]
    {
      assert keys[..i + 1] == keys[..i] + [keys[i]];
    }
  }

  /**
   * Merging two maps: it fails exactly when some override key fails, and
   * otherwise yields the combined map.
   */
  lemma MapMerge(pk: seq<string>, d: map<string, Value>, m: map<string, Value>)
    ensures Merge(pk, Map(d), Map(m)).Done? <==> AllKeysMerge(pk, d, m)
    ensures AllKeysMerge(pk, d, m) ==> Merge(pk, Map(d), Map(m)) == Done(Map(Combined(pk, d, m)))
  {
    var keys := SortedKeys(pk, m);
    SortedKeysPermutation(pk, m);
    assert keys[..0] == [];
    MergeKeysProgress(pk, d, m, keys, 0, d);
    MergeMaps(pk, d, m);
  }

  lemma MergeMaps(pk: seq<string>, d: map<string, Value>, m: map<string, Value>)
    ensures Merge(pk, Map(d), Map(m)) == MergeKeys(pk, d, m, SortedKeys(pk, m), 0)
  {
  }

  /** A scalar in the base under a key whose override is a map or sequence makes the whole merge fail. */
  lemma NestedMismatchFails(pk: seq<string>, d: map<string, Value>, m: map<string, Value>, k: string)
    requires k in d && k in m
    requires !d[k].Null? && !IsCollection(d[k]) && IsCollection(m[k])
    ensures Merge(pk, Map(d), Map(m)).Failed?
  {
    assert MergedValue(pk, d, m, k) == Failed(TypeName(d[k]));
    MapMerge(pk, d, m);
  }

  /** The trivial cases: a null override keeps the base, a null base takes the override, other kind pairs fail. */
  lemma MergeBaseCases(pk: seq<string>, data: Value, over: Value)
    ensures over.Null? ==> Merge(pk, data, over) == Done(data)
    ensures !over.Null? && data.Null? ==> Merge(pk, data, over) == Done(over)
    ensures !over.Null? && !data.Null? && !(data.Map? && over.Map?) && !(data.Seq? && over.Seq?)
            ==> Merge(pk, data, over) == Failed(TypeName(data))
  {
  }

  /** Merging a map element into one with the same name keeps the name. */
  lemma MergeKeepsName(pk: seq<string>, dest: Value, elem: Value)
    requires Matches(dest, elem)
    ensures Merge(pk, dest, elem).Done? ==> Similar(dest, Merge(pk, dest, elem).value)
  {
    MapMerge(pk, dest.entries, elem.entries);
  }

  // ---------------------------------------------------------------------
  // Sequence merge

  /** An element after merging: unchanged, or a map with the same string name. */
  predicate Similar(x: Value, y: Value)
  {
    y == x || (ElementName(x).Some? && ElementName(y) == ElementName(x))
  }

  /** The plain scalars of a sequence, in order. */
  function Scalars(s: seq<Value>): (r: seq<Value>)
    ensures |r| <= |s|
    ensures forall i :: 0 <= i < |r| ==> IsPlainScalar(r[i])
  {
    if s == [] then []
    else Scalars(s[..|s| - 1]) + (if IsPlainScalar(s[|s| - 1]) then [s[|s| - 1]] else [])
  }

  /** The number of maps in a sequence. */
  function MapCount(s: seq<Value>): (r: nat)
    ensures r <= |s|
  {
    if s == [] then 0 else MapCount(s[..|s| - 1]) + (if s[|s| - 1].Map? then 1 else 0)
  }

  /** The base elements stay in place, each unchanged or merged under its own name. */
  predicate Kept(b: seq<Value>, r: seq<Value>)
  {
    |r| >= |b| && forall i :: 0 <= i < |b| ==> Similar(b[i], r[i])
  }

  /**
   * What is appended after the base: only maps and plain scalars; the
   * scalars of the override, in order; and at most one map, none when the
   * override has none.
   */
  predicate AppendedFrom(t: seq<Value>, a: seq<Value>)
  {
    (forall i :: 0 <= i < |t| ==> t[i].Map? || IsPlainScalar(t[i]))
    && Scalars(t) == Scalars(a)
    && MapCount(t) <= 1 && MapCount(t) <= MapCount(a)
  }

  lemma SimilarTrans(x: Value, y: Value, z: Value)
    requires Similar(x, y) && Similar(y, z)
    ensures Similar(x, z)
  {
  }

  /** Pointwise similar sequences have the same scalars and the same number of maps. */
  lemma {:induction false} SimilarCounts(s: seq<Value>, t: seq<Value>)
    requires |s| == |t| && forall i :: 0 <= i < |s| ==> Similar(s[i], t[i])
    ensures Scalars(s) == Scalars(t) && MapCount(s) == MapCount(t)
    ensures forall i :: 0 <= i < |s| ==> (s[i].Map? || IsPlainScalar(s[i]) <==> t[i].Map? || IsPlainScalar(t[i]))
  {
    if s != [] {
      SimilarCounts(s[..|s| - 1], t[..|t| - 1]);
    }
  }

  lemma AppendOne(s: seq<Value>, x: Value)
    ensures Scalars(s + [x]) == Scalars(s) + (if IsPlainScalar(x) then [x] else [])
    ensures MapCount(s + [x]) == MapCount(s) + (if x.Map? then 1 else 0)
  {
    assert (s + [x])[..|s|] == s;
  }

  /** The inner loop's effect: no length change, every element similar, and the flag set when anything changed. */
  predicate InnerShape(adest: seq<Value>, d: seq<Value>, flag: bool, flag': bool)
  {
    |d| == |adest| && (forall i :: 0 <= i < |adest| ==> Similar(adest[i], d[i]))
    && (flag ==> flag') && (!flag' ==> d == adest)
  }

  /** The inner loop changes no length, keeps every element similar, and sets the flag when it changes anything. */
  lemma {:induction false} MatchNamedShape(pk: seq<string>, adest: seq<Value>, a: seq<Value>, j: nat, idest: nat, flag: bool)
    requires j < |a| && idest <= |adest|
    ensures MatchNamed(pk, adest, a, j, idest, flag).Done? ==>
              var r := MatchNamed(pk, adest, a, j, idest, flag).value;
              InnerShape(adest, r.0, flag, r.1)
    decreases |adest| - idest
  {
    if idest == |adest| {
    } else if Matches(adest[idest], a[j]) {
      match Merge(pk, adest[idest], a[j])
      case Failed(_) =>
      case Done(x) =>
        MergeKeepsName(pk, adest[idest], a[j]);
        MatchNamedShape(pk, adest[idest := x], a, j, idest + 1, true);
        var r := MatchNamed(pk, adest[idest := x], a, j, idest + 1, true);
        if r.Done? {
          InnerShapeStep(adest, idest, x, r.value.0, flag, r.value.1);
        }
    } else {
      MatchNamedShape(pk, adest, a, j, idest + 1, flag);
    }
  }

  /** A merged element, then the rest of the inner loop. */
  lemma InnerShapeStep(adest: seq<Value>, idest: nat, x: Value, d: seq<Value>, flag: bool, flag': bool)
    requires idest < |adest| && Similar(adest[idest], x)
    requires InnerShape(adest[idest := x], d, true, flag')
    ensures InnerShape(adest, d, flag, flag')
  {
    var e := adest[idest := x];
    forall i | 0 <= i < |adest|
      ensures Similar(adest[i], d[i])
    {
      SimilarTrans(adest[i], e[i], d[i]);
    }
  }

  /** The shape the element loop keeps after j override elements. */
  predicate SeqShape(b: seq<Value>, adest: seq<Value>, a: seq<Value>, flag: bool)
  {
    Kept(b, adest) && AppendedFrom(adest[|b|..], a) && (!flag ==> adest == b)
  }

  /** One pass of the element loop keeps the shape. */
  lemma MergeItemShape(pk: seq<string>, b: seq<Value>, adest: seq<Value>, a: seq<Value>, j: nat, flag: bool)
    requires j < |a| && SeqShape(b, adest, a[..j], flag)
    ensures MergeItem(pk, adest, a, j, flag).Done? ==>
              var r := MergeItem(pk, adest, a, j, flag).value;
              SeqShape(b, r.0, a[..j + 1], r.1)
  {
    var x := a[j];
    assert a[..j + 1] == a[..j] + [x];
    AppendOne(a[..j], x);
    if x.Map? {
      MatchNamedShape(pk, adest, a, j, 0, flag);
      match MatchNamed(pk, adest, a, j, 0, flag)
      case Failed(_) =>
      case Done(step) =>
        MatchedShape(b, adest, step.0, a[..j], flag, step.1);
        if !step.1 {
          AppendFirstMap(b, a[..j], x);
        }
    } else if IsPlainScalar(x) {
      AppendScalar(b, adest, a[..j], flag, x);
    }
  }

  /** The inner loop keeps the shape. */
  lemma MatchedShape(b: seq<Value>, adest: seq<Value>, d: seq<Value>, p: seq<Value>, flag: bool, flag': bool)
    requires SeqShape(b, adest, p, flag)
    requires |d| == |adest| && forall i :: 0 <= i < |adest| ==> Similar(adest[i], d[i])
    requires (flag ==> flag') && (!flag' ==> d == adest)
    ensures SeqShape(b, d, p, flag')
  {
    forall i | 0 <= i < |b|
      ensures Similar(b[i], d[i])
    {
      SimilarTrans(b[i], adest[i], d[i]);
    }
    var t, u := adest[|b|..], d[|b|..];
    assert forall i :: 0 <= i < |t| ==> t[i] == adest[|b| + i] && u[i] == d[|b| + i];
    SimilarCounts(t, u);
  }

  /** The first map appended while nothing else has been. */
  lemma AppendFirstMap(b: seq<Value>, p: seq<Value>, x: Value)
    requires x.Map? && Scalars([]) == Scalars(p)
    ensures SeqShape(b, b + [x], p + [x], true)
  {
    assert (b + [x])[|b|..] == [x];
    assert [x] == [] + [x];
    AppendOne([], x);
    AppendOne(p, x);
  }

  /** A scalar appended. */
  lemma AppendScalar(b: seq<Value>, adest: seq<Value>, p: seq<Value>, flag: bool, x: Value)
    requires IsPlainScalar(x) && SeqShape(b, adest, p, flag)
    ensures SeqShape(b, adest + [x], p + [x], true)
  {
    var t := adest[|b|..];
    assert (adest + [x])[|b|..] == t + [x];
    AppendedScalar(t, p, x);
    KeptAppend(b, adest, x);
  }

  lemma AppendedScalar(t: seq<Value>, p: seq<Value>, x: Value)
    requires IsPlainScalar(x) && AppendedFrom(t, p)
    ensures AppendedFrom(t + [x], p + [x])
  {
    AppendOne(t, x);
    AppendOne(p, x);
  }

  lemma KeptAppend(b: seq<Value>, adest: seq<Value>, x: Value)
    requires Kept(b, adest)
    ensures Kept(b, adest + [x])
  {
    assert forall i :: 0 <= i < |adest| ==> (adest + [x])[i] == adest[i];
  }

  lemma {:induction false} MergeItemsShape(pk: seq<string>, b: seq<Value>, adest: seq<Value>, a: seq<Value>, j: nat, flag: bool)
    requires j <= |a| && SeqShape(b, adest, a[..j], flag)
    ensures MergeItems(pk, adest, a, j, flag).Done? ==>
              MergeItems(pk, adest, a, j, flag).value.Seq?
              && Kept(b, MergeItems(pk, adest, a, j, flag).value.items)
              && AppendedFrom(MergeItems(pk, adest, a, j, flag).value.items[|b|..], a)
    decreases |a| - j
  {
    if j == |a| {
      assert a[..j] == a;
    } else {
      MergeItemShape(pk, b, adest, a, j, flag);
      match MergeItem(pk, adest, a, j, flag)
      case Failed(_) =>
      case Done(step) => MergeItemsShape(pk, b, step.0, a, j + 1, step.1);
    }
  }

  /**
   * Merging two sequences: the base elements are neither removed nor
   * reordered, and each is unchanged or merged under its own name; after
   * them come only maps and plain scalars: the override's scalars in
   * order, and at most one map.
   */
  lemma SeqMerge(pk: seq<string>, b: seq<Value>, a: seq<Value>)
    ensures Merge(pk, Seq(b), Seq(a)).Done? ==>
              var r := Merge(pk, Seq(b), Seq(a)).value;
              r.Seq? && Kept(b, r.items) && AppendedFrom(r.items[|b|..], a)
  {
    assert b[|b|..] == [];
    MergeItemsShape(pk, b, b, a, 0, false);
  }

  /** Lists of plain scalars concatenate. */
  lemma {:induction false} ScalarItems(pk: seq<string>, adest: seq<Value>, a: seq<Value>, j: nat, flag: bool)
    requires j <= |a| && forall i :: 0 <= i < |a| ==> IsPlainScalar(a[i])
    ensures MergeItems(pk, adest, a, j, flag) == Done(Seq(adest + a[j..]))
    decreases |a| - j
  {
    if j == |a| {
      assert adest + a[j..] == adest;
    } else {
      ScalarItems(pk, adest + [a[j]], a, j + 1, true);
      assert adest + [a[j]] + a[j + 1..] == adest + a[j..];
    }
  }

  /** A sequence of strings, ints, floats and bools is appended to the base whole. */
  lemma ScalarListsConcatenate(pk: seq<string>, b: seq<Value>, a: seq<Value>)
    requires forall i :: 0 <= i < |a| ==> IsPlainScalar(a[i])
    ensures Merge(pk, Seq(b), Seq(a)) == Done(Seq(b + a))
  {
    ScalarItems(pk, b, a, 0, false);
    assert a[0..] == a;
  }

  /** The inner loop at a matching base element whose merge succeeds. */
  lemma MatchHit(pk: seq<string>, adest: seq<Value>, a: seq<Value>, j: nat, idest: nat, flag: bool)
    requires j < |a| && idest < |adest| && Matches(adest[idest], a[j])
    requires Merge(pk, adest[idest], a[j]).Done?
    ensures MatchNamed(pk, adest, a, j, idest, flag)
         == MatchNamed(pk, adest[idest := Merge(pk, adest[idest], a[j]).value], a, j, idest + 1, true)
  {
  }

  /** The inner loop at a base element without the element's name. */
  lemma MatchMiss(pk: seq<string>, adest: seq<Value>, a: seq<Value>, j: nat, idest: nat, flag: bool)
    requires j < |a| && idest < |adest| && !Matches(adest[idest], a[j])
    ensures MatchNamed(pk, adest, a, j, idest, flag) == MatchNamed(pk, adest, a, j, idest + 1, flag)
  {
  }

  /**
   * The inner loop from idest on: every base element with the element's
   * name becomes the merge of the two, and every other one is left alone.
   */
  lemma {:induction false} MatchNamedReplaces(pk: seq<string>, adest: seq<Value>, a: seq<Value>, j: nat, idest: nat, flag: bool)
    requires j < |a| && idest <= |adest|
    ensures MatchNamed(pk, adest, a, j, idest, flag).Done? ==>
              var r := MatchNamed(pk, adest, a, j, idest, flag).value;
              |r.0| == |adest|
              && (forall i :: 0 <= i < idest ==> r.0[i] == adest[i])
              && (forall i :: idest <= i < |adest| ==>
                    if Matches(adest[i], a[j]) then Merge(pk, adest[i], a[j]) == Done(r.0[i]) else r.0[i] == adest[i])
    decreases |adest| - idest
  {
    if idest < |adest| {
      if Matches(adest[idest], a[j]) {
        if Merge(pk, adest[idest], a[j]).Done? {
          var adest' := adest[idest := Merge(pk, adest[idest], a[j]).value];
          MatchHit(pk, adest, a, j, idest, flag);
          MatchNamedReplaces(pk, adest', a, j, idest + 1, true);
        }
      } else {
        MatchMiss(pk, adest, a, j, idest, flag);
        MatchNamedReplaces(pk, adest, a, j, idest + 1, flag);
      }
    }
  }

  /** The inner loop from idest on ends with the flag set exactly when it was set or some base element matched. */
  lemma {:induction false} MatchNamedFlag(pk: seq<string>, adest: seq<Value>, a: seq<Value>, j: nat, idest: nat, flag: bool)
    requires j < |a| && idest <= |adest|
    ensures MatchNamed(pk, adest, a, j, idest, flag).Done? ==>
              (MatchNamed(pk, adest, a, j, idest, flag).value.1
               <==> flag || exists i :: idest <= i < |adest| && Matches(adest[i], a[j]))
    decreases |adest| - idest
  {
    if idest < |adest| {
      if Matches(adest[idest], a[j]) {
        if Merge(pk, adest[idest], a[j]).Done? {
          var adest' := adest[idest := Merge(pk, adest[idest], a[j]).value];
          MatchHit(pk, adest, a, j, idest, flag);
          MatchNamedFlag(pk, adest', a, j, idest + 1, true);
        }
      } else {
        MatchMiss(pk, adest, a, j, idest, flag);
        MatchNamedFlag(pk, adest, a, j, idest + 1, flag);
        assert (exists i :: idest <= i < |adest| && Matches(adest[i], a[j]))
           ==> (exists i :: idest + 1 <= i < |adest| && Matches(adest[i], a[j]));
      }
    }
  }

  /** A map element every base element with its name merges into; the flag is set when any did. */
  lemma MatchedMapElement(pk: seq<string>, adest: seq<Value>, a: seq<Value>, j: nat, flag: bool)
    requires j < |a| && a[j].Map?
    requires exists i :: 0 <= i < |adest| && Matches(adest[i], a[j])
    ensures MergeItem(pk, adest, a, j, flag).Done? ==>
              var r := MergeItem(pk, adest, a, j, flag).value;
              r.1 && |r.0| == |adest|
              && (forall i :: 0 <= i < |adest| && Matches(adest[i], a[j]) ==> Merge(pk, adest[i], a[j]) == Done(r.0[i]))
              && (forall i :: 0 <= i < |adest| && !Matches(adest[i], a[j]) ==> r.0[i] == adest[i])
  {
    MatchNamedReplaces(pk, adest, a, j, 0, flag);
    MatchNamedFlag(pk, adest, a, j, 0, flag);
  }

  lemma {:induction false} NoMatchKeeps(pk: seq<string>, adest: seq<Value>, a: seq<Value>, j: nat, idest: nat, flag: bool)
    requires j < |a| && idest <= |adest|
    requires forall i :: idest <= i < |adest| ==> !Matches(adest[i], a[j])
    ensures MatchNamed(pk, adest, a, j, idest, flag) == Done((adest, flag))
    decreases |adest| - idest
  {
    if idest < |adest| {
      NoMatchKeeps(pk, adest, a, j, idest + 1, flag);
    }
  }

  /**
   * A map element no base element has the name of: appended while the flag
   * is still false, dropped once it is set; either way the flag ends set.
   */
  lemma UnmatchedMapElement(pk: seq<string>, adest: seq<Value>, a: seq<Value>, j: nat, flag: bool)
    requires j < |a| && a[j].Map?
    requires forall i :: 0 <= i < |adest| ==> !Matches(adest[i], a[j])
    ensures MergeItem(pk, adest, a, j, flag) == if flag then Done((adest, true)) else Done((adest + [a[j]], true))
  {
    NoMatchKeeps(pk, adest, a, j, 0, flag);
  }

  function Named(n: string): Value
  {
    Map(map["name" := Str(n)])
  }

  /**
   * The flag is never reset: once the first override element has been
   * appended, a second one with a different name is dropped.
   */
  lemma SecondUnmatchedDropped()
    ensures Merge(["name"], Seq([]), Seq([Named("a"), Named("b")])) == Done(Seq([Named("a")]))
  {
    var a := [Named("a"), Named("b")];
    assert ElementName(Named("a")) == Some("a");
    assert ElementName(Named("b")) == Some("b");
    assert MatchNamed(["name"], [], a, 0, 0, false) == Done(([], false));
    assert a[0].Map? && [] + [a[0]] == [Named("a")];
    assert MergeItem(["name"], [], a, 0, false) == Done(([Named("a")], true));
    assert !Matches(Named("a"), Named("b"));
    assert MatchNamed(["name"], [Named("a")], a, 1, 1, true) == Done(([Named("a")], true));
    assert MatchNamed(["name"], [Named("a")], a, 1, 0, true) == Done(([Named("a")], true));
    assert MergeItem(["name"], [Named("a")], a, 1, true) == Done(([Named("a")], true));
    assert MergeItems(["name"], [Named("a")], a, 1, true) == Done(Seq([Named("a")]));
  }

  /** An unmatched map element is appended while nothing has been merged or appended yet. */
  lemma FirstUnmatchedAppended()
    ensures Merge(["name"], Seq([Named("a")]), Seq([Named("b")])) == Done(Seq([Named("a"), Named("b")]))
  {
    var a := [Named("b")];
    assert ElementName(Named("a")) == Some("a");
    assert ElementName(Named("b")) == Some("b");
    assert !Matches(Named("a"), Named("b"));
    assert MatchNamed(["name"], [Named("a")], a, 0, 1, false) == Done(([Named("a")], false));
    assert MatchNamed(["name"], [Named("a")], a, 0, 0, false) == Done(([Named("a")], false));
    assert a[0].Map? && [Named("a")] + [a[0]] == [Named("a"), Named("b")];
    assert MergeItem(["name"], [Named("a")], a, 0, false) == Done(([Named("a"), Named("b")], true));
    assert MergeItems(["name"], [Named("a")], a, 0, false) == Done(Seq([Named("a"), Named("b")]));
  }
}
