/**
 * The decoded document tree and the run configuration the core reads.
 *
 * The emitter and the merger switch on the dynamic type of an interface{}
 * value; here that switch is a match over the Value sum type.
 */
module Document {
  import opened Wrappers

  datatype Value =
    | Null                                // nil
    | Str(s: string)                      // string
    | Int(i: int)                         // int
    | Float(text: string)                 // float64, carried as the text fmt prints for it
    | Bool(b: bool)                       // bool
    | Macro(text: string)                 // stringMacro: a helm macro emitted verbatim
    | Map(entries: map<string, Value>)    // map[string]interface{}
    | Seq(items: seq<Value>)              // []interface{}
    | Other(typeName: string)             // any other dynamic type (the "unknown type" paths)

  /** A map or a sequence: a value written under its key on the following lines. */
  predicate IsCollection(v: Value)
  {
    v.Map? || v.Seq?
  }

  /** The kinds the sequence merge appends without matching: string, int, float64, bool. */
  predicate IsPlainScalar(v: Value)
  {
    v.Str? || v.Int? || v.Float? || v.Bool?
  }

  /** The `name` of a sequence element: present when the element is a map whose "name" entry is a string. */
  function ElementName(v: Value): (r: Option<string>)
    ensures r.Some? <==> v.Map? && "name" in v.entries && v.entries["name"].Str?
    ensures r.Some? ==> v.entries["name"] == Str(r.value)
  {
    if v.Map? && "name" in v.entries && v.entries["name"].Str? then Some(v.entries["name"].s) else None
  }

  /** Whether a value of a type neither the emitter nor the merger knows occurs anywhere in the tree. */
  ghost predicate HasUnknown(v: Value)
  {
    match v
    case Other(_) => true
    case Map(m) => exists k :: k in m && HasUnknown(m[k])
    case Seq(items) => exists i :: 0 <= i < |items| && HasUnknown(items[i])
    case _ => false
  }

  /**
   * The fields of the command object the core reads: the priority keys (the
   * global the comparator reads), the skip and select paths, and the two
   * output flags.
   */
  datatype Options = Options(
    priorKeys: seq<string>,
    skipKeys: seq<string>,
    selectKeys: seq<string>,
    quoteString: bool,
    arrayIndentPlus2: bool)

  /** The priority list the comparator uses: the keys given, or ["name"] when none are. */
  function EffectivePriorKeys(given: seq<string>): (r: seq<string>)
    ensures |r| >= 1
    ensures given != [] ==> r == given
    ensures given == [] ==> r == ["name"]
  {
    if |given| == 0 then ["name"] else given
  }
}
