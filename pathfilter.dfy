/**
 * Paths of the emitted document and the skip / select filters on them.
 * A map child extends its parent's path with ".key", a sequence element
 * with "[i]" or, for a map element with a string name, "[name=value]".
 * The filters compare paths as plain strings: skip by exact match, select
 * by a string-prefix test in either direction.
 */
module PathFilter {
  import opened Decimal

  // ---------------------------------------------------------------------
  // Building paths

  /** calcPathMap: the path of a map child. */
  function CalcPathMap(path: string, key: string): string
  {
    if |path| == 0 then key else path + "." + key
  }

  /** calcPathSlice: the path of a sequence element by its index. */
  function CalcPathSlice(path: string, index: int): string
  {
    if |path| == 0 then "[" + IntToDecimal(index) + "]"
    else path + "[" + IntToDecimal(index) + "]"
  }

  /** calcPathSliceMap: the path of a sequence element by one of its fields. */
  function CalcPathSliceMap(path: string, key: string, value: string): string
  {
    if |path| == 0 then "[" + key + "=" + value + "]"
    else path + "[" + key + "=" + value + "]"
  }

  /** Every child path starts with its parent's path. */
  lemma ChildExtendsParent(path: string, key: string, index: int, value: string)
    ensures path <= CalcPathMap(path, key)
    ensures path <= CalcPathSlice(path, index)
    ensures path <= CalcPathSliceMap(path, key, value)
  {
    var m := CalcPathMap(path, key);
    if path != [] {
      assert m[..|path|] == path;
    }
    assert CalcPathSlice(path, index)[..|path|] == path;
    assert CalcPathSliceMap(path, key, value)[..|path|] == path;
  }

  /** Distinct keys under the same parent get distinct paths. */
  lemma MapPathInjective(path: string, k1: string, k2: string)
    requires CalcPathMap(path, k1) == CalcPathMap(path, k2)
    ensures k1 == k2
  {
    if path != [] {
      var n := |path| + 1;
      assert k1 == CalcPathMap(path, k1)[n..];
      assert k2 == CalcPathMap(path, k2)[n..];
    }
  }

  /** Distinct indices under the same parent get distinct paths. */
  lemma SlicePathInjective(path: string, i: int, j: int)
    requires CalcPathSlice(path, i) == CalcPathSlice(path, j)
    ensures i == j
  {
    var a, b := CalcPathSlice(path, i), CalcPathSlice(path, j);
    var n := |path| + 1;
    assert IntToDecimal(i) == a[n..|a| - 1];
    assert IntToDecimal(j) == b[n..|b| - 1];
    IntToDecimalInjective(i, j);
  }

  /** Distinct field values under the same parent get distinct paths. */
  lemma SliceMapPathInjective(path: string, key: string, v1: string, v2: string)
    requires CalcPathSliceMap(path, key, v1) == CalcPathSliceMap(path, key, v2)
    ensures v1 == v2
  {
    var a, b := CalcPathSliceMap(path, key, v1), CalcPathSliceMap(path, key, v2);
    var n := |path| + |key| + 2;
    assert v1 == a[n..|a| - 1];
    assert v2 == b[n..|b| - 1];
  }

  /** An element path by index never equals an element path by name: after the "[" comes a digit or a sign, not "n". */
  lemma SliceNotNamed(path: string, index: int, value: string)
    ensures CalcPathSlice(path, index) != CalcPathSliceMap(path, "name", value)
  {
    var a, b := CalcPathSlice(path, index), CalcPathSliceMap(path, "name", value);
    IntToDecimalChars(index);
    assert a[|path| + 1] == IntToDecimal(index)[0];
    assert b[|path| + 1] == 'n';
  }

  // ---------------------------------------------------------------------
  // Filters

  /** checkSkipKey: the scan over the skip list, ignoring empty entries. */
  function CheckSkipKey(skipKeys: seq<string>, path: string): bool
  {
    if skipKeys == [] then false
    else if |skipKeys[0]| > 0 && skipKeys[0] == path then true
    else CheckSkipKey(skipKeys[1..], path)
  }

  /** A path is skipped exactly when some non-empty skip entry equals it. */
  lemma {:induction false} SkipKeyMeaning(skipKeys: seq<string>, path: string)
    ensures CheckSkipKey(skipKeys, path)
            <==> exists i :: 0 <= i < |skipKeys| && skipKeys[i] != [] && skipKeys[i] == path
  {
    if skipKeys != [] {
      SkipKeyMeaning(skipKeys[1..], path);
      assert forall i :: 1 <= i < |skipKeys| ==> skipKeys[i] == skipKeys[1..][i - 1];
      if exists i :: 0 <= i < |skipKeys| && skipKeys[i] != [] && skipKeys[i] == path {
        var i :| 0 <= i < |skipKeys| && skipKeys[i] != [] && skipKeys[i] == path;
        if i > 0 {
          assert 0 <= i - 1 < |skipKeys[1..]| && skipKeys[1..][i - 1] != [] && skipKeys[1..][i - 1] == path;
        }
      }
    }
  }

  /** The loop of checkSelectKey: some non-empty select entry lies on the path or below it. */
  function MatchesSelect(selectKeys: seq<string>, path: string): bool
  {
    if selectKeys == [] then false
    else if |selectKeys[0]| > 0 && (path <= selectKeys[0] || selectKeys[0] <= path) then true
    else MatchesSelect(selectKeys[1..], path)
  }

  /** The select scan succeeds exactly when some non-empty entry is a prefix of the path or has it as a prefix. */
  lemma {:induction false} SelectMeaning(selectKeys: seq<string>, path: string)
    ensures MatchesSelect(selectKeys, path)
            <==> exists i :: 0 <= i < |selectKeys| && selectKeys[i] != []
                             && (path <= selectKeys[i] || selectKeys[i] <= path)
  {
    if selectKeys != [] {
      SelectMeaning(selectKeys[1..], path);
      assert forall i :: 1 <= i < |selectKeys| ==> selectKeys[i] == selectKeys[1..][i - 1];
      if exists i :: 0 <= i < |selectKeys| && selectKeys[i] != [] && (path <= selectKeys[i] || selectKeys[i] <= path) {
        var i :| 0 <= i < |selectKeys| && selectKeys[i] != [] && (path <= selectKeys[i] || selectKeys[i] <= path);
        if i > 0 {
          var t := selectKeys[1..];
          assert 0 <= i - 1 < |t| && t[i - 1] != [] && (path <= t[i - 1] || t[i - 1] <= path);
        }
      }
    }
  }

  /**
   * checkSelectKey: with no select entries everything is selected;
   * otherwise a path is selected when it leads to a selected entry or
   * lies below one.
   */
  function CheckSelectKey(selectKeys: seq<string>, path: string): (r: bool)
    ensures |selectKeys| == 0 ==> r
    ensures |selectKeys| > 0 ==> (r <==> MatchesSelect(selectKeys, path))
  {
    if |selectKeys| == 0 then true else MatchesSelect(selectKeys, path)
  }

  /** The select test passes when the list is empty, and otherwise exactly when some non-empty entry is a prefix of the path or has it as a prefix. */
  lemma SelectKeyMeaning(selectKeys: seq<string>, path: string)
    ensures CheckSelectKey(selectKeys, path)
            <==> |selectKeys| == 0
                 || exists i :: 0 <= i < |selectKeys| && selectKeys[i] != []
                                && (path <= selectKeys[i] || selectKeys[i] <= path)
  {
    if |selectKeys| > 0 {
      SelectMeaning(selectKeys, path);
    }
  }

  /** The skip test is membership of the path among the non-empty entries. */
  lemma SkipIsMembership(skipKeys: seq<string>, path: string)
    ensures CheckSkipKey(skipKeys, path) <==> path != [] && path in skipKeys
  {
    SkipKeyMeaning(skipKeys, path);
    if path != [] && path in skipKeys {
      var i :| 0 <= i < |skipKeys| && skipKeys[i] == path;
    }
  }

  /**
   * Once a path lies below a selected entry, every path under it is
   * selected too, so a selected subtree is emitted whole.
   */
  lemma SelectedSubtree(selectKeys: seq<string>, s: string, path: string, child: string)
    requires s in selectKeys && s != [] && s <= path && path <= child
    ensures CheckSelectKey(selectKeys, path)
    ensures CheckSelectKey(selectKeys, child)
  {
    var i :| 0 <= i < |selectKeys| && selectKeys[i] == s;
    SelectMeaning(selectKeys, path);
    SelectMeaning(selectKeys, child);
    assert s <= child;
  }

  /**
   * Every ancestor of a selected entry is selected, so the walk can reach
   * the entry from the root.
   */
  lemma AncestorsSelected(selectKeys: seq<string>, s: string, path: string)
    requires s in selectKeys && s != [] && path <= s
    ensures CheckSelectKey(selectKeys, path)
  {
    var i :| 0 <= i < |selectKeys| && selectKeys[i] == s;
    SelectMeaning(selectKeys, path);
  }

  /** Skipping spec.replicas hides exactly that path. */
  lemma SkipExample()
    ensures CheckSkipKey(["spec.replicas"], "spec.replicas")
    ensures !CheckSkipKey(["spec.replicas"], "spec")
    ensures !CheckSkipKey([""], "")
  {
  }

  /**
   * Selecting spec.template keeps spec (on the way) and everything under
   * spec.template, drops spec.replicas and metadata, and, since the test
   * is a plain string prefix, also keeps spec.templateX.
   */
  lemma SelectExample()
    ensures CheckSelectKey(["spec.template"], "spec")
    ensures CheckSelectKey(["spec.template"], "spec.template")
    ensures CheckSelectKey(["spec.template"], "spec.template.metadata")
    ensures !CheckSelectKey(["spec.template"], "spec.replicas")
    ensures !CheckSelectKey(["spec.template"], "metadata")
    ensures CheckSelectKey(["spec.template"], "spec.templateX")
    ensures CheckSelectKey([], "metadata")
  {
    assert "spec" <= "spec.template";
    assert "spec.template" <= "spec.template.metadata";
    assert "spec.template" <= "spec.templateX";
    assert "spec.replicas"[5] != "spec.template"[5];
    assert "metadata"[0] != "spec.template"[0];
  }
}
