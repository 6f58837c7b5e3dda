/**
 * The in-memory structured value that Python's `json` and `plistlib`
 * codecs produce and consume: dictionaries with string keys, lists,
 * strings, integers and booleans.  Floats, None, bytes and dates are not
 * part of this model.
 */
module Values {
  import opened Wrappers

  newtype Byte = x: int | 0 <= x < 256

  type Bytes = seq<Byte>

  datatype Value =
    | Int(i: int)
    | Str(s: string)
    | Bool(b: bool)
    | List(items: seq<Value>)
    | Dict(entries: map<string, Value>)

  /** One step of a subscript chain such as `v["PayloadContent"][0]`. */
  datatype Step = Key(key: string) | Index(index: nat)

  /**
   * The value reached from `v` by a chain of subscripts, or None where Python
   * would raise a KeyError, IndexError or TypeError.
   */
  function At(v: Value, path: seq<Step>): (r: Option<Value>)
    ensures path == [] ==> r == Some(v)
    decreases |path|
  {
    if path == [] then Some(v)
    else match path[0]
      case Key(k) =>
        if v.Dict? && k in v.entries then At(v.entries[k], path[1..]) else None
      case Index(i) =>
        if v.List? && i < |v.items| then At(v.items[i], path[1..]) else None
  }

  /** Subscripting along `p + q` is subscripting along `p`, then along `q`. */
  lemma {:induction false} AtAppend(v: Value, p: seq<Step>, q: seq<Step>)
    ensures At(v, p + q) == if At(v, p).Some? then At(At(v, p).value, q) else None
    decreases |p|
  {
    if p != [] {
      assert (p + q)[0] == p[0];
      assert (p + q)[1..] == p[1..] + q;
      match p[0]
      case Key(k) =>
        if v.Dict? && k in v.entries { AtAppend(v.entries[k], p[1..], q); }
      case Index(i) =>
        if v.List? && i < |v.items| { AtAppend(v.items[i], p[1..], q); }
    } else {
      assert p + q == q;
    }
  }
}
