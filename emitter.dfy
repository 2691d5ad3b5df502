/**
 * myMarshal / myMershalRecursive: the YAML emitter. A map is written one
 * key per line in compairString order, a sequence one "- " item per
 * element, a scalar as its text; an unknown kind stops the walk with an
 * error, leaving what was already written in the buffer.
 */
module Emitter {
  import opened Wrappers
  import opened Decimal
  import opened Document
  import opened KeyOrder
  import opened Escape
  import opened PathFilter

  // ---------------------------------------------------------------------
  // Indentation

  /** `n` spaces; none when n is not positive. */
  function Spaces(n: int): (r: string)
    ensures |r| == if n > 0 then n else 0
    ensures forall i :: 0 <= i < |r| ==> r[i] == ' '
    decreases n
  {
    if n <= 0 then "" else Spaces(n - 1) + " "
  }

  /** indentstr: grows the indentation one space at a time. */
  method Indentstr(level: int) returns (result: string)
    ensures result == Spaces(level)
  {
    result := "";
    var i := 0;
    while i < level
      invariant 0 <= i <= (if level > 0 then level else 0)
      invariant result == Spaces(i)
    {
      result := result + " ";
      i := i + 1;
    }
    assert level <= 0 ==> Spaces(level) == [];
  }

  // ---------------------------------------------------------------------
  // What the walk writes

  /** The text written to the buffer, and the error that stopped the walk, if any. */
  datatype Emitted = Emitted(text: string, err: Option<string>)

  /** Text written before a (possibly failing) rest of the walk. */
  function Prefix(t: string, e: Emitted): Emitted
  {
    Emitted(t + e.text, e.err)
  }

  /** Two steps of the walk in order: the second runs only when the first succeeded. */
  function Then(a: Emitted, b: Emitted): Emitted
  {
    if a.err.Some? then a else Prefix(a.text, b)
  }

  /** The indentation of the i-th key of a map: none for the first key of a sequence element. */
  function KeyIndent(level: int, slide: bool, i: nat): string
  {
    if slide && i == 0 then "" else Spaces(level)
  }

  /** The path of a sequence element: by its name when it is a map with a string name, else by index. */
  function ItemPath(path: string, v: Value, i: nat): string
  {
    match ElementName(v)
    case Some(n) => CalcPathSliceMap(path, "name", n)
    case None => CalcPathSlice(path, i)
  }

  /** A path the skip and select filters let through. */
  predicate Emits(o: Options, childPath: string)
  {
    !CheckSkipKey(o.skipKeys, childPath) && CheckSelectKey(o.selectKeys, childPath)
  }

  /** The level offset of sequence elements. */
  function ItemOffset(o: Options): int
  {
    if o.arrayIndentPlus2 then 2 else 0
  }

  /** myMershalRecursive, as the text and error it produces. */
  function Marshal(o: Options, level: int, path: string, slide: bool, v: Value): Emitted
    decreases v, 2
  {
    match v
    case Null => Emitted("null\n", None)
    case Map(m) =>
      if |m| == 0 then Emitted(Spaces(level) + "{}\n", None)
      else MarshalEntries(o, level, path, slide, m, SortedKeys(o.priorKeys, m), 0)
    case Seq(a) =>
      if |a| == 0 then Emitted(Spaces(level) + "[]\n", None)
      else MarshalItems(o, level, path, a, 0)
    case Macro(t) => Emitted(t + "\n", None)
    case Str(s) => Emitted(EscapeString(o.quoteString, s) + "\n", None)
    case Int(i) => Emitted(IntToDecimal(i) + "\n", None)
    case Float(t) => Emitted(t + "\n", None)
    case Bool(b) => Emitted((if b then "true" else "false") + "\n", None)
    case Other(t) => Emitted("", Some(t))
  }

  /** The key loop from position i on. */
  function MarshalEntries(o: Options, level: int, path: string, slide: bool,
                          m: map<string, Value>, keys: seq<string>, i: nat): Emitted
    requires i <= |keys| && forall j :: 0 <= j < |keys| ==> keys[j] in m
    decreases Map(m), 1, |keys| - i
  {
    if i == |keys| then Emitted("", None)
    else Then(MarshalEntry(o, level, path, slide, m, keys, i),
              MarshalEntries(o, level, path, slide, m, keys, i + 1))
  }

  /** One pass of the key loop: nothing for a filtered key, else the key and its value. */
  function MarshalEntry(o: Options, level: int, path: string, slide: bool,
                        m: map<string, Value>, keys: seq<string>, i: nat): Emitted
    requires i < |keys| && forall j :: 0 <= j < |keys| ==> keys[j] in m
    decreases Map(m), 0
  {
    var childPath := CalcPathMap(path, keys[i]);
    if !Emits(o, childPath) then Emitted("", None)
    else Prefix(KeyHead(level, slide, i, keys[i], m[keys[i]]),
                Marshal(o, level + 2, childPath, false, m[keys[i]]))
  }

  /** The text before a key's value: "k:" and a line break for a map or sequence, "k: " otherwise. */
  function KeyHead(level: int, slide: bool, i: nat, k: string, v: Value): string
  {
    KeyIndent(level, slide, i) + k + (if IsCollection(v) then ":\n" else ": ")
  }

  /** The element loop from position i on. */
  function MarshalItems(o: Options, level: int, path: string, a: seq<Value>, i: nat): Emitted
    requires i <= |a|
    decreases Seq(a), 1, |a| - i
  {
    if i == |a| then Emitted("", None)
    else Then(MarshalItem(o, level, path, a, i), MarshalItems(o, level, path, a, i + 1))
  }

  /** One pass of the element loop: nothing for a filtered element, else "- " and the element. */
  function MarshalItem(o: Options, level: int, path: string, a: seq<Value>, i: nat): Emitted
    requires i < |a|
    decreases Seq(a), 0
  {
    var childPath := ItemPath(path, a[i], i);
    if !Emits(o, childPath) then Emitted("", None)
    else
      Prefix(Spaces(level - 2 + ItemOffset(o)) + "- ",
             Marshal(o, level + ItemOffset(o), childPath, true, a[i]))
  }

  // ---------------------------------------------------------------------
  // The imperative walk

  /** The bytes.Buffer the walk writes to. */
  class Buffer {
    var contents: string

    constructor ()
      ensures contents == []
    {
      contents := [];
    }

    method Write(s: string)
      modifies this
      ensures contents == old(contents) + s
    {
      contents := contents + s;
    }
  }

  /**
   * myMershalRecursive: appends the emitted text to the buffer; on an
   * unknown kind it stops and returns the error, keeping what was written.
   */
  method MarshalRecursive(o: Options, w: Buffer, level: int, path: string, slide: bool, data: Value)
    returns (err: Option<string>)
    modifies w
    ensures w.contents == old(w.contents) + Marshal(o, level, path, slide, data).text
    ensures err == Marshal(o, level, path, slide, data).err
    decreases data, 2
  {
    match data {
      case Null =>
        w.Write("null\n");
        err := None;
      case Map(m) =>
        if |m| == 0 {
          var indent := Indentstr(level);
          w.Write(indent + "{}\n");
          return None;
        }
        var keylist := SortedKeys(o.priorKeys, m);
        err := MarshalKeys(o, w, level, path, slide, m, keylist);
      case Seq(a) =>
        if |a| == 0 {
          var indent := Indentstr(level);
          w.Write(indent + "[]\n");
          return None;
        }
        err := MarshalElements(o, w, level, path, a);
      case Macro(t) =>
        w.Write(t + "\n");
        err := None;
      case Str(s) =>
        w.Write(EscapeString(o.quoteString, s) + "\n");
        err := None;
      case Int(i) =>
        w.Write(IntToDecimal(i) + "\n");
        err := None;
      case Float(t) =>
        w.Write(t + "\n");
        err := None;
      case Bool(b) =>
        w.Write((if b then "true" else "false") + "\n");
        err := None;
      case Other(t) =>
        err := Some(t);
    }
  }

  /** The key loop of myMershalRecursive over the sorted key list. */
  method MarshalKeys(o: Options, w: Buffer, level: int, path: string, slide: bool,
                     m: map<string, Value>, keylist: seq<string>)
    returns (err: Option<string>)
    requires forall j :: 0 <= j < |keylist| ==> keylist[j] in m
    modifies w
    ensures w.contents == old(w.contents) + MarshalEntries(o, level, path, slide, m, keylist, 0).text
    ensures err == MarshalEntries(o, level, path, slide, m, keylist, 0).err
    decreases Map(m), 1
  {
    ghost var done := "";
    for i := 0 to |keylist|
      invariant w.contents == old(w.contents) + done
      invariant MarshalEntries(o, level, path, slide, m, keylist, 0)
             == Prefix(done, MarshalEntries(o, level, path, slide, m, keylist, i))
    {
      var e := MarshalKey(o, w, level, path, slide, m, keylist, i);
      ghost var step := MarshalEntry(o, level, path, slide, m, keylist, i);
      ThenStep(done, step, MarshalEntries(o, level, path, slide, m, keylist, i + 1));
      WrittenSoFar(w.contents, old(w.contents), done, step.text);
      if e.Some? {
        return e;
      }
      done := done + step.text;
    }
    err := None;
  }

  /** One pass of the key loop: the key, unless filtered, and its value. */
  method MarshalKey(o: Options, w: Buffer, level: int, path: string, slide: bool,
                    m: map<string, Value>, keylist: seq<string>, i: nat)
    returns (err: Option<string>)
    requires i < |keylist| && forall j :: 0 <= j < |keylist| ==> keylist[j] in m
    modifies w
    ensures w.contents == old(w.contents) + MarshalEntry(o, level, path, slide, m, keylist, i).text
    ensures err == MarshalEntry(o, level, path, slide, m, keylist, i).err
    decreases Map(m), 0
  {
    var k := keylist[i];
    var v := m[k];
    var indent := Indentstr(level);
    // when the parent is a sequence element, its first key follows the "- " directly
    if slide && i == 0 {
      indent := "";
    }
    var childPath := CalcPathMap(path, k);
    if CheckSkipKey(o.skipKeys, childPath) {
      assert old(w.contents) + "" == w.contents;
      return None;
    }
    if !CheckSelectKey(o.selectKeys, childPath) {
      assert old(w.contents) + "" == w.contents;
      return None;
    }
    var head: string;
    if v.Null? {
      head := indent + k + ": ";
    } else if v.Map? {
      head := indent + k + ":\n";
    } else if v.Seq? {
      head := indent + k + ":\n";
    } else {
      head := indent + k + ": ";
    }
    assert head == KeyHead(level, slide, i, k, v);
    w.Write(head);
    err := MarshalRecursive(o, w, level + 2, childPath, false, v);
    WrittenSoFar(w.contents, old(w.contents), head, Marshal(o, level + 2, childPath, false, v).text);
  }

  /** The element loop of myMershalRecursive. */
  method MarshalElements(o: Options, w: Buffer, level: int, path: string, a: seq<Value>)
    returns (err: Option<string>)
    modifies w
    ensures w.contents == old(w.contents) + MarshalItems(o, level, path, a, 0).text
    ensures err == MarshalItems(o, level, path, a, 0).err
    decreases Seq(a), 1
  {
    ghost var done := "";
    for i := 0 to |a|
      invariant w.contents == old(w.contents) + done
      invariant MarshalItems(o, level, path, a, 0) == Prefix(done, MarshalItems(o, level, path, a, i))
    {
      var e := MarshalElement(o, w, level, path, a, i);
      ghost var step := MarshalItem(o, level, path, a, i);
      ThenStep(done, step, MarshalItems(o, level, path, a, i + 1));
      WrittenSoFar(w.contents, old(w.contents), done, step.text);
      if e.Some? {
        return e;
      }
      done := done + step.text;
    }
    err := None;
  }

  /** One pass of the element loop: "- " and the element, unless filtered. */
  method MarshalElement(o: Options, w: Buffer, level: int, path: string, a: seq<Value>, i: nat)
    returns (err: Option<string>)
    requires i < |a|
    modifies w
    ensures w.contents == old(w.contents) + MarshalItem(o, level, path, a, i).text
    ensures err == MarshalItem(o, level, path, a, i).err
    decreases Seq(a), 0
  {
    var v := a[i];
    var levelOffset := 0;
    if o.arrayIndentPlus2 {
      levelOffset := 2;
    }
    var childPath := CalcPathSlice(path, i);
    // a map element with a string name is addressed by that name
    if v.Map? && "name" in v.entries && v.entries["name"].Str? {
      childPath := CalcPathSliceMap(path, "name", v.entries["name"].s);
    }
    assert childPath == ItemPath(path, v, i);
    if CheckSkipKey(o.skipKeys, childPath) {
      assert old(w.contents) + "" == w.contents;
      return None;
    }
    if !CheckSelectKey(o.selectKeys, childPath) {
      assert old(w.contents) + "" == w.contents;
      return None;
    }
    var indent := Indentstr(level - 2 + levelOffset);
    var head := indent + "- ";
    w.Write(head);
    err := MarshalRecursive(o, w, level + levelOffset, childPath, true, v);
    WrittenSoFar(w.contents, old(w.contents), head, Marshal(o, level + levelOffset, childPath, true, v).text);
  }

  /** A loop pass, then the rest: the pass's text, and the rest only when the pass succeeded. */
  lemma ThenStep(done: string, step: Emitted, rest: Emitted)
    ensures Prefix(done, Then(step, rest))
         == if step.err.Some? then Emitted(done + step.text, step.err)
            else Prefix(done + step.text, rest)
  {
    assert done + (step.text + rest.text) == done + step.text + rest.text;
  }

  lemma WrittenSoFar(contents: string, start: string, done: string, text: string)
    requires contents == start + done + text
    ensures contents == start + (done + text)
  {
  }

  /** myMarshal: a fresh buffer, the walk from level 0 at the root path. */
  method MyMarshal(o: Options, data: Value) returns (bytes: string, err: Option<string>)
    ensures bytes == Marshal(o, 0, "", false, data).text
    ensures err == Marshal(o, 0, "", false, data).err
  {
    var w := new Buffer();
    err := MarshalRecursive(o, w, 0, "", false, data);
    bytes := w.contents;
  }

  // ---------------------------------------------------------------------
  // Properties of the walk

  /** No skip and no select entries: every path is emitted. */
  predicate NoFilters(o: Options)
  {
    o.skipKeys == [] && o.selectKeys == []
  }

  /**
   * An error comes only from a value of unknown kind; with no filters,
   * every such value stops the walk with an error.
   */
  lemma {:induction false} ErrorMeansUnknown(o: Options, level: int, path: string, slide: bool, v: Value)
    ensures Marshal(o, level, path, slide, v).err.Some? ==> HasUnknown(v)
    ensures NoFilters(o) && HasUnknown(v) ==> Marshal(o, level, path, slide, v).err.Some?
    decreases v, 3
  {
    if v.Map? {
      MapErrorUnknown(o, level, path, slide, v);
    } else if v.Seq? {
      SeqErrorUnknown(o, level, path, slide, v);
    }
  }

  lemma {:induction false} MapErrorUnknown(o: Options, level: int, path: string, slide: bool, v: Value)
    requires v.Map?
    ensures Marshal(o, level, path, slide, v).err.Some? ==> HasUnknown(v)
    ensures NoFilters(o) && HasUnknown(v) ==> Marshal(o, level, path, slide, v).err.Some?
    decreases v, 2
  {
    var m := v.entries;
    if |m| == 0 {
      assert m.Keys == {};
    } else {
      var keys := SortedKeys(o.priorKeys, m);
      SortedKeysPermutation(o.priorKeys, m);
      MapText(o, level, path, slide, m);
      EntriesErrorUnknown(o, level, path, slide, m, keys, 0);
      SomeKeyUnknown(m, keys);
      if NoFilters(o) && HasUnknown(v) {
        var j :| 0 <= j < |keys| && HasUnknown(m[keys[j]]);
        EntriesUnknownError(o, level, path, slide, m, keys, 0, j);
      }
    }
  }

  /** An unknown value lies under some key of the map exactly when it lies under some listed key. */
  lemma SomeKeyUnknown(m: map<string, Value>, keys: seq<string>)
    requires forall j :: 0 <= j < |keys| ==> keys[j] in m
    requires forall k :: k in m ==> k in keys
    ensures HasUnknown(Map(m)) <==> exists j :: 0 <= j < |keys| && HasUnknown(m[keys[j]])
  {
    if exists j :: 0 <= j < |keys| && HasUnknown(m[keys[j]]) {
      var j :| 0 <= j < |keys| && HasUnknown(m[keys[j]]);
      assert keys[j] in m && HasUnknown(m[keys[j]]);
    }
    if HasUnknown(Map(m)) {
      var k :| k in m && HasUnknown(m[k]);
      var j :| 0 <= j < |keys| && keys[j] == k;
      assert 0 <= j < |keys| && HasUnknown(m[keys[j]]);
    }
  }

  lemma {:induction false} SeqErrorUnknown(o: Options, level: int, path: string, slide: bool, v: Value)
    requires v.Seq?
    ensures Marshal(o, level, path, slide, v).err.Some? ==> HasUnknown(v)
    ensures NoFilters(o) && HasUnknown(v) ==> Marshal(o, level, path, slide, v).err.Some?
    decreases v, 2
  {
    var a := v.items;
    if |a| > 0 {
      ItemsErrorUnknown(o, level, path, a, 0);
      if Marshal(o, level, path, slide, v).err.Some? {
        var j :| 0 <= j < |a| && HasUnknown(a[j]);
        assert HasUnknown(a[j]);
      }
    }
    if NoFilters(o) && HasUnknown(v) {
      var j :| 0 <= j < |a| && HasUnknown(a[j]);
      ItemsUnknownError(o, level, path, a, 0, j);
    }
  }

  /** The key loop fails at position i exactly when key i fails or, key i succeeding, a later key fails. */
  lemma EntriesErr(o: Options, level: int, path: string, slide: bool,
                   m: map<string, Value>, keys: seq<string>, i: nat)
    requires i < |keys| && forall j :: 0 <= j < |keys| ==> keys[j] in m
    ensures MarshalEntries(o, level, path, slide, m, keys, i).err
         == if MarshalEntry(o, level, path, slide, m, keys, i).err.Some?
            then MarshalEntry(o, level, path, slide, m, keys, i).err
            else MarshalEntries(o, level, path, slide, m, keys, i + 1).err
  {
  }

  /** The element loop fails at position i exactly when element i fails or, it succeeding, a later one fails. */
  lemma ItemsErr(o: Options, level: int, path: string, a: seq<Value>, i: nat)
    requires i < |a|
    ensures MarshalItems(o, level, path, a, i).err
         == if MarshalItem(o, level, path, a, i).err.Some?
            then MarshalItem(o, level, path, a, i).err
            else MarshalItems(o, level, path, a, i + 1).err
  {
  }

  lemma {:induction false} EntriesErrorUnknown(o: Options, level: int, path: string, slide: bool,
                                               m: map<string, Value>, keys: seq<string>, i: nat)
    requires i <= |keys| && forall j :: 0 <= j < |keys| ==> keys[j] in m
    ensures MarshalEntries(o, level, path, slide, m, keys, i).err.Some?
            ==> exists j :: i <= j < |keys| && HasUnknown(m[keys[j]])
    decreases Map(m), 1, |keys| - i
  {
    if i < |keys| {
      EntriesErr(o, level, path, slide, m, keys, i);
      if MarshalEntry(o, level, path, slide, m, keys, i).err.Some? {
        assert HasUnknown(m[keys[i]]) by {
          EntryUnknown(o, level, path, slide, m, keys, i);
        }
      } else if MarshalEntries(o, level, path, slide, m, keys, i + 1).err.Some? {
        var j :| i + 1 <= j < |keys| && HasUnknown(m[keys[j]]) by {
          EntriesErrorUnknown(o, level, path, slide, m, keys, i + 1);
        }
        assert i <= j < |keys| && HasUnknown(m[keys[j]]);
      }
    }
  }

  lemma {:induction false} EntriesUnknownError(o: Options, level: int, path: string, slide: bool,
                                               m: map<string, Value>, keys: seq<string>, i: nat, j: nat)
    requires i <= j < |keys| && forall l :: 0 <= l < |keys| ==> keys[l] in m
    requires NoFilters(o) && HasUnknown(m[keys[j]])
    ensures MarshalEntries(o, level, path, slide, m, keys, i).err.Some?
    decreases Map(m), 1, |keys| - i
  {
    if j == i {
      assert MarshalEntry(o, level, path, slide, m, keys, i).err.Some? by {
        EntryUnknown(o, level, path, slide, m, keys, i);
      }
    } else {
      assert MarshalEntries(o, level, path, slide, m, keys, i + 1).err.Some? by {
        EntriesUnknownError(o, level, path, slide, m, keys, i + 1, j);
      }
    }
    EntriesErr(o, level, path, slide, m, keys, i);
  }

  lemma {:induction false} EntryUnknown(o: Options, level: int, path: string, slide: bool,
                                        m: map<string, Value>, keys: seq<string>, i: nat)
    requires i < |keys| && forall j :: 0 <= j < |keys| ==> keys[j] in m
    ensures MarshalEntry(o, level, path, slide, m, keys, i).err.Some? ==> HasUnknown(m[keys[i]])
    ensures NoFilters(o) && HasUnknown(m[keys[i]]) ==> MarshalEntry(o, level, path, slide, m, keys, i).err.Some?
    decreases Map(m), 0
  {
    var p := CalcPathMap(path, keys[i]);
    var e := Marshal(o, level + 2, p, false, m[keys[i]]);
    ErrorMeansUnknown(o, level + 2, p, false, m[keys[i]]);
    assert MarshalEntry(o, level, path, slide, m, keys, i).err == if Emits(o, p) then e.err else None;
  }

  lemma {:induction false} ItemsErrorUnknown(o: Options, level: int, path: string, a: seq<Value>, i: nat)
    requires i <= |a|
    ensures MarshalItems(o, level, path, a, i).err.Some? ==> exists j :: i <= j < |a| && HasUnknown(a[j])
    decreases Seq(a), 1, |a| - i
  {
    if i < |a| {
      ItemsErr(o, level, path, a, i);
      if MarshalItem(o, level, path, a, i).err.Some? {
        assert HasUnknown(a[i]) by {
          ItemUnknown(o, level, path, a, i);
        }
      } else if MarshalItems(o, level, path, a, i + 1).err.Some? {
        var j :| i + 1 <= j < |a| && HasUnknown(a[j]) by {
          ItemsErrorUnknown(o, level, path, a, i + 1);
        }
        assert i <= j < |a| && HasUnknown(a[j]);
      }
    }
  }

  lemma {:induction false} ItemsUnknownError(o: Options, level: int, path: string, a: seq<Value>, i: nat, j: nat)
    requires i <= j < |a|
    requires NoFilters(o) && HasUnknown(a[j])
    ensures MarshalItems(o, level, path, a, i).err.Some?
    decreases Seq(a), 1, |a| - i
  {
    if j == i {
      assert MarshalItem(o, level, path, a, i).err.Some? by {
        ItemUnknown(o, level, path, a, i);
      }
    } else {
      assert MarshalItems(o, level, path, a, i + 1).err.Some? by {
        ItemsUnknownError(o, level, path, a, i + 1, j);
      }
    }
    ItemsErr(o, level, path, a, i);
  }

  lemma {:induction false} ItemUnknown(o: Options, level: int, path: string, a: seq<Value>, i: nat)
    requires i < |a|
    ensures MarshalItem(o, level, path, a, i).err.Some? ==> HasUnknown(a[i])
    ensures NoFilters(o) && HasUnknown(a[i]) ==> MarshalItem(o, level, path, a, i).err.Some?
    decreases Seq(a), 0
  {
    var p := ItemPath(path, a[i], i);
    var e := Marshal(o, level + ItemOffset(o), p, true, a[i]);
    ErrorMeansUnknown(o, level + ItemOffset(o), p, true, a[i]);
    assert MarshalItem(o, level, path, a, i).err == if Emits(o, p) then e.err else None;
  }

  /** myMarshal fails only on a document holding an unknown kind, and without filters always on one. */
  lemma MarshalErrorIffUnknown(o: Options, data: Value)
    ensures Marshal(o, 0, "", false, data).err.Some? ==> HasUnknown(data)
    ensures NoFilters(o) ==> (Marshal(o, 0, "", false, data).err.Some? <==> HasUnknown(data))
  {
    ErrorMeansUnknown(o, 0, "", false, data);
  }

  /** The value under a skipped or unselected key has no effect on the output. */
  lemma FilteredValueIrrelevant(o: Options, level: int, path: string, slide: bool,
                                m: map<string, Value>, k: string, w: Value)
    requires k in m && !Emits(o, CalcPathMap(path, k))
    ensures Marshal(o, level, path, slide, Map(m[k := w])) == Marshal(o, level, path, slide, Map(m))
  {
    var m' := m[k := w];
    assert m'.Keys == m.Keys;
    var keys := SortedKeys(o.priorKeys, m);
    assert SortedKeys(o.priorKeys, m') == keys;
    FilteredEntries(o, level, path, slide, m, k, w, keys, 0);
  }

  lemma {:induction false} FilteredEntries(o: Options, level: int, path: string, slide: bool,
                                           m: map<string, Value>, k: string, w: Value, keys: seq<string>, i: nat)
    requires k in m && !Emits(o, CalcPathMap(path, k))
    requires i <= |keys| && forall j :: 0 <= j < |keys| ==> keys[j] in m
    ensures MarshalEntries(o, level, path, slide, m[k := w], keys, i) == MarshalEntries(o, level, path, slide, m, keys, i)
    decreases |keys| - i
  {
    if i < |keys| {
      FilteredEntries(o, level, path, slide, m, k, w, keys, i + 1);
    }
  }

  /** A string, int, bool or null under an emitted key is written on one line after "k: ". */
  lemma ScalarEntryLine(o: Options, level: int, path: string, slide: bool,
                        m: map<string, Value>, keys: seq<string>, i: nat)
    requires i < |keys| && forall j :: 0 <= j < |keys| ==> keys[j] in m
    requires Emits(o, CalcPathMap(path, keys[i]))
    requires m[keys[i]].Str? || m[keys[i]].Int? || m[keys[i]].Bool? || m[keys[i]].Null?
    ensures exists line :: '\n' !in line
              && MarshalEntry(o, level, path, slide, m, keys, i)
                 == Emitted(KeyIndent(level, slide, i) + keys[i] + ": " + line + "\n", None)
  {
    var k := keys[i];
    var v := m[k];
    var line := ScalarLine(o, v);
    var head := KeyIndent(level, slide, i) + k + ": ";
    assert KeyHead(level, slide, i, k, v) == head;
    assert Marshal(o, level + 2, CalcPathMap(path, k), false, v) == Emitted(line + "\n", None);
    assert MarshalEntry(o, level, path, slide, m, keys, i) == Prefix(head, Emitted(line + "\n", None));
    assert head + (line + "\n") == head + line + "\n";
  }

  /** The one-line text of a string, int, bool or null, without line breaks. */
  function ScalarLine(o: Options, v: Value): (line: string)
    requires v.Str? || v.Int? || v.Bool? || v.Null?
    ensures '\n' !in line
    ensures Marshal(o, 0, "", false, v).text == line + "\n"
  {
    match v
    case Str(s) => EscapeOneLine(o.quoteString, s); EscapeString(o.quoteString, s)
    case Int(n) => IntToDecimalChars(n); IntToDecimal(n)
    case Bool(b) => if b then "true" else "false"
    case Null => "null"
  }

  /**
   * The priority list run hands to the emitter: the keys given, or "name"
   * when none are. Its first key, when a map has it, is that map's first entry.
   */
  lemma EffectivePriorHeadFirst(given: seq<string>, m: map<string, Value>)
    requires EffectivePriorKeys(given)[0] in m
    ensures SortedKeys(EffectivePriorKeys(given), m)[0] == EffectivePriorKeys(given)[0]
    ensures given == [] ==> SortedKeys(EffectivePriorKeys(given), m)[0] == "name"
  {
    PriorHeadFirst(EffectivePriorKeys(given), m);
  }

  /** No filters, the default layout. */
  function PlainOptions(arrayIndentPlus2: bool): Options
  {
    Options(["name"], [], [], false, arrayIndentPlus2)
  }

  /** The one-item list [80] under the key "ports", written at the key's level. */
  lemma PortsItems(plus2: bool)
    ensures MarshalItems(PlainOptions(plus2), 2, "ports", [Int(80)], 0)
         == Emitted(Spaces(ItemOffset(PlainOptions(plus2))) + "- 80\n", None)
  {
    var o := PlainOptions(plus2);
    var p := ItemPath("ports", Int(80), 0);
    assert Emits(o, p);
    assert IntToDecimal(80) == "80";
    var item := Marshal(o, 2 + ItemOffset(o), p, true, Int(80));
    assert item == Emitted("80\n", None);
    var dash := Spaces(ItemOffset(o));
    PortsText(dash);
    var e := MarshalItem(o, 2, "ports", [Int(80)], 0);
    assert e == Prefix(dash + "- ", item);
    assert MarshalItems(o, 2, "ports", [Int(80)], 1) == Emitted("", None);
    assert MarshalItems(o, 2, "ports", [Int(80)], 0) == Then(e, Emitted("", None));
  }

  lemma PortsText(dash: string)
    ensures dash + "- " + "80\n" == dash + "- 80\n"
    ensures dash + "- 80\n" + "" == dash + "- 80\n"
    ensures "ports" + ":\n" == "ports:\n"
    ensures "" + "ports:\n" + (dash + "- 80\n") == "ports:\n" + dash + "- 80\n"
    ensures "ports:\n" + dash + "- 80\n" + "" == "ports:\n" + dash + "- 80\n"
    ensures "ports:\n" + "  " + "- 80\n" == "ports:\n  - 80\n"
    ensures "ports:\n" + "" + "- 80\n" == "ports:\n- 80\n"
  {
  }

  /** The key "ports" and, under it, the list [80]. */
  lemma PortsEntries(plus2: bool)
    ensures MarshalEntries(PlainOptions(plus2), 0, "", false, map["ports" := Seq([Int(80)])], ["ports"], 0)
         == Emitted("ports:\n" + Spaces(ItemOffset(PlainOptions(plus2))) + "- 80\n", None)
  {
    var o := PlainOptions(plus2);
    var m := map["ports" := Seq([Int(80)])];
    var dash := Spaces(ItemOffset(o));
    assert Emits(o, "ports");
    PortsItems(plus2);
    PortsText(dash);
    var body := Marshal(o, 2, "ports", false, Seq([Int(80)]));
    assert body == Emitted(dash + "- 80\n", None);
    assert KeyHead(0, false, 0, "ports", Seq([Int(80)])) == "" + "ports:\n";
    var e := MarshalEntry(o, 0, "", false, m, ["ports"], 0);
    assert e == Prefix("" + "ports:\n", body);
    assert MarshalEntries(o, 0, "", false, m, ["ports"], 1) == Emitted("", None);
    assert MarshalEntries(o, 0, "", false, m, ["ports"], 0) == Then(e, Emitted("", None));
  }

  /** A sequence under a key starts at the key's column, or two columns in with the array-indent flag. */
  lemma SequenceIndentExample(plus2: bool)
    ensures Marshal(PlainOptions(plus2), 0, "", false, Map(map["ports" := Seq([Int(80)])])).text
         == if plus2 then "ports:\n  - 80\n" else "ports:\n- 80\n"
  {
    var o := PlainOptions(plus2);
    assert SortedKeys(o.priorKeys, map["ports" := Seq([Int(80)])]) == ["ports"];
    PortsEntries(plus2);
    var dash := Spaces(ItemOffset(o));
    assert dash == if plus2 then "  " else "";
    PortsText(dash);
  }

  /** A key head, as text: the key and a colon come first. */
  lemma HeadPrefix(k: string, hd: string, v: string, t: string)
    requires hd == ":\n" || hd == ": "
    ensures k + ":" <= "" + k + hd + v + t
  {
    var whole := "" + k + hd + v + t;
    assert whole[..|k| + 1] == k + ":";
  }

  lemma DashPrefix(d: string, k: string, y: string)
    requires k + ":" <= y
    ensures d + k + ":" <= d + y
  {
    assert (d + y)[..|d| + |k| + 1] == d + k + ":";
  }

  /** The first key of a map written with slide set opens the text, with no indentation. */
  lemma FirstEntryHead(o: Options, level: int, path: string, m: map<string, Value>, keys: seq<string>)
    requires |keys| > 0 && forall j :: 0 <= j < |keys| ==> keys[j] in m
    requires Emits(o, CalcPathMap(path, keys[0]))
    ensures keys[0] + ":" <= MarshalEntries(o, level, path, true, m, keys, 0).text
  {
    var k := keys[0];
    var e := MarshalEntry(o, level, path, true, m, keys, 0);
    var rest := MarshalEntries(o, level, path, true, m, keys, 1);
    var value := Marshal(o, level + 2, CalcPathMap(path, k), false, m[k]);
    var hd := if IsCollection(m[k]) then ":\n" else ": ";
    var tail := if e.err.None? then rest.text else "";
    var head := KeyHead(level, true, 0, k, m[k]);
    assert head == "" + k + hd;
    assert e.text == head + value.text;
    assert MarshalEntries(o, level, path, true, m, keys, 0).text == e.text + tail;
    HeadPrefix(k, hd, value.text, tail);
  }

  /**
   * The first key of a map element follows its dash on the same line
   * (slide): no indentation between "- " and the key.
   */
  lemma FirstKeyFollowsDash(o: Options, level: int, path: string, a: seq<Value>, i: nat)
    requires i < |a| && a[i].Map? && |a[i].entries| > 0
    requires Emits(o, ItemPath(path, a[i], i))
    requires Emits(o, CalcPathMap(ItemPath(path, a[i], i), SortedKeys(o.priorKeys, a[i].entries)[0]))
    ensures Spaces(level - 2 + ItemOffset(o)) + "- " + SortedKeys(o.priorKeys, a[i].entries)[0] + ":"
            <= MarshalItem(o, level, path, a, i).text
  {
    var p := ItemPath(path, a[i], i);
    var m := a[i].entries;
    var keys := SortedKeys(o.priorKeys, m);
    var inner := level + ItemOffset(o);
    var dash := Spaces(level - 2 + ItemOffset(o)) + "- ";
    var whole := MarshalEntries(o, inner, p, true, m, keys, 0);
    FirstEntryHead(o, inner, p, m, keys);
    ItemText(o, level, path, a, i);
    MapText(o, inner, p, true, m);
    DashPrefix(dash, keys[0], whole.text);
  }

  /**
   * The indentation follows the key's place in the key list, not the first
   * key written: when the first key of a map with slide set is filtered out,
   * the next key still gets the map's full indentation.
   */
  lemma SkippedFirstEntryIndented(o: Options, level: int, path: string, m: map<string, Value>, keys: seq<string>)
    requires |keys| > 1 && forall j :: 0 <= j < |keys| ==> keys[j] in m
    requires !Emits(o, CalcPathMap(path, keys[0])) && Emits(o, CalcPathMap(path, keys[1]))
    ensures Spaces(level) + keys[1] + ":" <= MarshalEntries(o, level, path, true, m, keys, 0).text
  {
    var k := keys[1];
    var e := MarshalEntry(o, level, path, true, m, keys, 1);
    var rest := MarshalEntries(o, level, path, true, m, keys, 2);
    var value := Marshal(o, level + 2, CalcPathMap(path, k), false, m[k]);
    var hd := if IsCollection(m[k]) then ":\n" else ": ";
    var tail := if e.err.None? then rest.text else "";
    assert MarshalEntry(o, level, path, true, m, keys, 0) == Emitted("", None);
    assert MarshalEntries(o, level, path, true, m, keys, 0).text
        == MarshalEntries(o, level, path, true, m, keys, 1).text;
    assert KeyHead(level, true, 1, k, m[k]) == Spaces(level) + k + hd;
    assert e.text == Spaces(level) + k + hd + value.text;
    assert MarshalEntries(o, level, path, true, m, keys, 1).text == e.text + tail;
    IndentedHeadPrefix(Spaces(level), k, hd, value.text, tail);
  }

  /**
   * A map element whose first sorted key is filtered out: the second key
   * follows the dash after the element's full indentation, so it sits
   * further right than the keys below it.
   */
  lemma SkippedFirstKeyAfterDash(o: Options, level: int, path: string, a: seq<Value>, i: nat)
    requires i < |a| && a[i].Map? && |a[i].entries| > 1
    requires Emits(o, ItemPath(path, a[i], i))
    requires !Emits(o, CalcPathMap(ItemPath(path, a[i], i), SortedKeys(o.priorKeys, a[i].entries)[0]))
    requires Emits(o, CalcPathMap(ItemPath(path, a[i], i), SortedKeys(o.priorKeys, a[i].entries)[1]))
    ensures Spaces(level - 2 + ItemOffset(o)) + "- " + Spaces(level + ItemOffset(o)) + SortedKeys(o.priorKeys, a[i].entries)[1] + ":"
            <= MarshalItem(o, level, path, a, i).text
  {
    var p := ItemPath(path, a[i], i);
    var m := a[i].entries;
    var keys := SortedKeys(o.priorKeys, m);
    var inner := level + ItemOffset(o);
    var dash := Spaces(level - 2 + ItemOffset(o)) + "- ";
    var whole := MarshalEntries(o, inner, p, true, m, keys, 0);
    SkippedFirstEntryIndented(o, inner, p, m, keys);
    ItemText(o, level, path, a, i);
    MapText(o, inner, p, true, m);
    DashPrefix(dash, Spaces(inner) + keys[1], whole.text);
    Regroup4(dash, Spaces(inner), keys[1]);
  }

  /** An indented key head, as text: the indentation, the key and a colon come first. */
  lemma IndentedHeadPrefix(s: string, k: string, hd: string, v: string, t: string)
    requires hd == ":\n" || hd == ": "
    ensures s + k + ":" <= s + k + hd + v + t
  {
    var whole := s + k + hd + v + t;
    assert whole[..|s| + |k| + 1] == s + k + ":";
  }

  /** The first key of a map written without slide opens the text at the map's own indentation. */
  lemma FirstEntryIndented(o: Options, level: int, path: string, m: map<string, Value>, keys: seq<string>)
    requires |keys| > 0 && forall j :: 0 <= j < |keys| ==> keys[j] in m
    requires Emits(o, CalcPathMap(path, keys[0]))
    ensures Spaces(level) + keys[0] + ":" <= MarshalEntries(o, level, path, false, m, keys, 0).text
  {
    var k := keys[0];
    var e := MarshalEntry(o, level, path, false, m, keys, 0);
    var rest := MarshalEntries(o, level, path, false, m, keys, 1);
    var value := Marshal(o, level + 2, CalcPathMap(path, k), false, m[k]);
    var hd := if IsCollection(m[k]) then ":\n" else ": ";
    var tail := if e.err.None? then rest.text else "";
    assert KeyHead(level, false, 0, k, m[k]) == Spaces(level) + k + hd;
    assert e.text == Spaces(level) + k + hd + value.text;
    assert MarshalEntries(o, level, path, false, m, keys, 0).text == e.text + tail;
    IndentedHeadPrefix(Spaces(level), k, hd, value.text, tail);
  }

  /** An emitted key: its head, then the value's own text two columns further in. */
  lemma EntryText(o: Options, level: int, path: string, slide: bool,
                  m: map<string, Value>, keys: seq<string>, i: nat)
    requires i < |keys| && forall j :: 0 <= j < |keys| ==> keys[j] in m
    requires Emits(o, CalcPathMap(path, keys[i]))
    ensures MarshalEntry(o, level, path, slide, m, keys, i).text
         == KeyHead(level, slide, i, keys[i], m[keys[i]])
            + Marshal(o, level + 2, CalcPathMap(path, keys[i]), false, m[keys[i]]).text
  {
  }

  lemma Regroup4(d: string, s: string, c: string)
    ensures d + (s + c) + ":" == d + s + c + ":"
  {
  }

  /**
   * A map under a key: "k:" ends its line, and the map's first key opens
   * the next line, indented two columns further than the map's own key.
   */
  lemma NestedMapIndented(o: Options, level: int, path: string, slide: bool,
                          m: map<string, Value>, keys: seq<string>, i: nat)
    requires i < |keys| && forall j :: 0 <= j < |keys| ==> keys[j] in m
    requires Emits(o, CalcPathMap(path, keys[i]))
    requires m[keys[i]].Map? && |m[keys[i]].entries| > 0
    requires Emits(o, CalcPathMap(CalcPathMap(path, keys[i]), SortedKeys(o.priorKeys, m[keys[i]].entries)[0]))
    ensures KeyIndent(level, slide, i) + keys[i] + ":\n" + Spaces(level + 2) + SortedKeys(o.priorKeys, m[keys[i]].entries)[0] + ":"
            <= MarshalEntry(o, level, path, slide, m, keys, i).text
  {
    var k := keys[i];
    var p := CalcPathMap(path, k);
    var c := m[k].entries;
    var ck := SortedKeys(o.priorKeys, c);
    var child := MarshalEntries(o, level + 2, p, false, c, ck, 0);
    var head := KeyIndent(level, slide, i) + k + ":\n";
    FirstEntryIndented(o, level + 2, p, c, ck);
    MapText(o, level + 2, p, false, c);
    EntryText(o, level, path, slide, m, keys, i);
    assert KeyHead(level, slide, i, k, m[k]) == head;
    DashPrefix(head, Spaces(level + 2) + ck[0], child.text);
    Regroup4(head, Spaces(level + 2), ck[0]);
  }

  /** An emitted element: its dash, then the element's own text. */
  lemma ItemText(o: Options, level: int, path: string, a: seq<Value>, i: nat)
    requires i < |a| && Emits(o, ItemPath(path, a[i], i))
    ensures MarshalItem(o, level, path, a, i).text
         == Spaces(level - 2 + ItemOffset(o)) + "- " + Marshal(o, level + ItemOffset(o), ItemPath(path, a[i], i), true, a[i]).text
  {
    var e := Marshal(o, level + ItemOffset(o), ItemPath(path, a[i], i), true, a[i]);
    assert MarshalItem(o, level, path, a, i) == Prefix(Spaces(level - 2 + ItemOffset(o)) + "- ", e);
  }

  /** A skip entry "[name=n]" under the sequence's path suppresses exactly the elements whose string name is n; every other element still writes its dash. */
  lemma NamedElementSkipped(o: Options, level: int, path: string, a: seq<Value>, i: nat, n: string)
    requires i < |a|
    requires o.skipKeys == [CalcPathSliceMap(path, "name", n)] && o.selectKeys == []
    ensures MarshalItem(o, level, path, a, i).text == ""
            <==> a[i].Map? && "name" in a[i].entries && a[i].entries["name"] == Str(n)
    ensures !(a[i].Map? && "name" in a[i].entries && a[i].entries["name"] == Str(n))
            ==> Spaces(level - 2 + ItemOffset(o)) + "- " <= MarshalItem(o, level, path, a, i).text
  {
    var p := ItemPath(path, a[i], i);
    var entry := CalcPathSliceMap(path, "name", n);
    SkipIsMembership(o.skipKeys, p);
    if a[i].Map? && "name" in a[i].entries && a[i].entries["name"] == Str(n) {
      assert p == entry;
      assert !Emits(o, p);
    } else {
      if ElementName(a[i]).Some? {
        if p == entry {
          SliceMapPathInjective(path, "name", ElementName(a[i]).value, n);
        }
      } else {
        SliceNotNamed(path, i, n);
      }
      assert Emits(o, p);
      ItemText(o, level, path, a, i);
      var dash := Spaces(level - 2 + ItemOffset(o)) + "- ";
      assert MarshalItem(o, level, path, a, i).text[..|dash|] == dash;
    }
  }

  /** A non-empty map: its entries in key order. */
  lemma MapText(o: Options, level: int, path: string, slide: bool, m: map<string, Value>)
    requires |m| > 0
    ensures Marshal(o, level, path, slide, Map(m)) == MarshalEntries(o, level, path, slide, m, SortedKeys(o.priorKeys, m), 0)
  {
  }

  /** The map {a: 1} as the first element of a sequence: "a: 1" with no indentation. */
  lemma InlineMapEntries()
    ensures MarshalEntries(PlainOptions(false), 0, "[0]", true, map["a" := Int(1)], ["a"], 0) == Emitted("a: 1\n", None)
  {
    var o := PlainOptions(false);
    var m := map["a" := Int(1)];
    assert Emits(o, "[0].a");
    assert IntToDecimal(1) == "1";
    var value := Marshal(o, 2, "[0].a", false, Int(1));
    assert value == Emitted("1\n", None);
    var e := MarshalEntry(o, 0, "[0]", true, m, ["a"], 0);
    assert e == Prefix("a: ", value);
    assert MarshalEntries(o, 0, "[0]", true, m, ["a"], 0) == Then(e, Emitted("", None));
  }

  /** The entries of {a: 1, b: 2, c: 3} in the order a, b, c, with the skip entry "items[0].a". */
  lemma SkippedEntriesExample()
    ensures MarshalEntries(Options(["name"], ["items[0].a"], [], false, false), 2, "items[0]", true,
                           map["a" := Int(1), "b" := Int(2), "c" := Int(3)], ["a", "b", "c"], 0)
            == Emitted("  b: 2\n  c: 3\n", None)
  {
    var o := Options(["name"], ["items[0].a"], [], false, false);
    var m := map["a" := Int(1), "b" := Int(2), "c" := Int(3)];
    var keys := ["a", "b", "c"];
    SkipIsMembership(o.skipKeys, "items[0].a");
    SkipIsMembership(o.skipKeys, "items[0].b");
    SkipIsMembership(o.skipKeys, "items[0].c");
    assert !Emits(o, "items[0].a");
    assert Emits(o, "items[0].b") && Emits(o, "items[0].c");
    assert IntToDecimal(2) == "2" && IntToDecimal(3) == "3";
    SkippedExampleText();
    var b := Marshal(o, 4, "items[0].b", false, Int(2));
    var c := Marshal(o, 4, "items[0].c", false, Int(3));
    assert b == Emitted("2\n", None) && c == Emitted("3\n", None);
    assert MarshalEntry(o, 2, "items[0]", true, m, keys, 2) == Prefix("  c: ", c);
    assert MarshalEntries(o, 2, "items[0]", true, m, keys, 2) == Emitted("  c: 3\n", None);
    assert MarshalEntry(o, 2, "items[0]", true, m, keys, 1) == Prefix("  b: ", b);
    assert MarshalEntries(o, 2, "items[0]", true, m, keys, 1) == Emitted("  b: 2\n  c: 3\n", None);
    assert MarshalEntry(o, 2, "items[0]", true, m, keys, 0) == Emitted("", None);
  }

  /**
   * The element {a: 1, b: 2, c: 3} of the list under "items", with the skip
   * entry "items[0].a": after the dash, "b" is indented to column 4 and "c"
   * to column 2.
   */
  lemma SkippedFirstKeyExample()
    ensures MarshalItem(Options(["name"], ["items[0].a"], [], false, false), 2, "items",
                        [Map(map["a" := Int(1), "b" := Int(2), "c" := Int(3)])], 0).text
            == "-   b: 2\n  c: 3\n"
  {
    var o := Options(["name"], ["items[0].a"], [], false, false);
    var m := map["a" := Int(1), "b" := Int(2), "c" := Int(3)];
    var a := [Map(m)];
    var entries := MarshalEntries(o, 2, "items[0]", true, m, ["a", "b", "c"], 0);
    SkippedExampleText();
    assert ElementName(Map(m)).None? by {
      assert "name"[0] != "a"[0] && "name"[0] != "b"[0] && "name"[0] != "c"[0];
    }
    assert ItemPath("items", Map(m), 0) == "items[0]" by {
      assert IntToDecimal(0) == "0";
    }
    assert Emits(o, "items[0]") by {
      SkipIsMembership(o.skipKeys, "items[0]");
      assert "items[0]" != "items[0].a";
    }
    assert Marshal(o, 2, "items[0]", true, Map(m)) == entries by {
      LetterKeysExample(m);
      MapText(o, 2, "items[0]", true, m);
    }
    SkippedEntriesExample();
    ItemText(o, 2, "items", a, 0);
  }

  lemma SkippedExampleText()
    ensures Spaces(2) + "b" + ": " == "  b: " && Spaces(2) + "c" + ": " == "  c: "
    ensures "  c: " + "3\n" + "" == "  c: 3\n"
    ensures "  b: " + "2\n" + "  c: 3\n" == "  b: 2\n  c: 3\n"
    ensures CalcPathMap("items[0]", "a") == "items[0].a"
    ensures CalcPathMap("items[0]", "b") == "items[0].b"
    ensures CalcPathMap("items[0]", "c") == "items[0].c"
    ensures "items" + "[" + "0" + "]" == "items[0]"
    ensures Spaces(0) + "- " + "  b: 2\n  c: 3\n" == "-   b: 2\n  c: 3\n"
  {
    assert Spaces(2) == "  ";
  }

  lemma InlineMapText()
    ensures Marshal(PlainOptions(false), 0, "[0]", true, Map(map["a" := Int(1)])) == Emitted("a: 1\n", None)
  {
    assert SortedKeys(PlainOptions(false).priorKeys, map["a" := Int(1)]) == ["a"];
    InlineMapEntries();
  }

  lemma DashLine()
    ensures "" + "- " + "a: 1\n" == "- a: 1\n"
    ensures "- a: 1\n" + "" == "- a: 1\n"
  {
  }

  /** The element {a: 1} at index 0, filters off. */
  lemma InlineMapItems()
    ensures MarshalItems(PlainOptions(false), 0, "", [Map(map["a" := Int(1)])], 0) == Emitted("- a: 1\n", None)
  {
    var o := PlainOptions(false);
    var v := Map(map["a" := Int(1)]);
    assert ItemPath("", v, 0) == "[0]";
    assert Emits(o, "[0]");
    InlineMapText();
    assert Spaces(0 - 2 + ItemOffset(o)) == "";
    var e := MarshalItem(o, 0, "", [v], 0);
    assert e == Prefix("" + "- ", Marshal(o, 0, "[0]", true, v));
    DashLine();
    assert e == Emitted("- a: 1\n", None);
    assert MarshalItems(o, 0, "", [v], 1) == Emitted("", None);
  }

  /** The first key of a map inside a sequence follows the dash on the same line. */
  lemma FirstKeyInlineExample()
    ensures Marshal(PlainOptions(false), 0, "", false, Seq([Map(map["a" := Int(1)])])).text == "- a: 1\n"
  {
    InlineMapItems();
  }
}
