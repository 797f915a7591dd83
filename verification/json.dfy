/**
 * A JSON document as `json.loads` returns it (None, bool, int, str, list, dict), and the few
 * Python operations the extractors apply to it: `dict.get`, truthiness, `[0]` and iteration.
 * Every operation that Python would reject on the value's type yields the exception it
 * raises instead.
 */
module Json {

  import opened Wrappers

  datatype Json =
    | Null
    | Bool(b: bool)
    | Num(n: int)
    | Str(s: string)
    | Arr(items: seq<Json>)
      /** A dict, its fields in insertion order. A dict that `json.loads` returns has each key
          once (`UniqueKeys`); on such a dict `Lookup` reads the one field with that key. */
    | Obj(fields: seq<(string, Json)>)

  /** The exceptions the extractors' expressions can raise. */
  datatype PyExc = AttributeError | KeyError | IndexError | TypeError

  /** No key occurs twice: the fields stand for a Python dict. */
  predicate UniqueKeys(fields: seq<(string, Json)>)
  {
    forall i, j :: 0 <= i < j < |fields| ==> fields[i].0 != fields[j].0
  }

  /** The value stored under key: the first field with that name. */
  function Lookup(fields: seq<(string, Json)>, key: string): (r: Option<Json>)
    ensures r.None? <==> forall i :: 0 <= i < |fields| ==> fields[i].0 != key
    ensures r.Some? ==> exists i :: 0 <= i < |fields| && fields[i] == (key, r.value)
  {
    if fields == [] then None
    else if fields[0].0 == key then Some(fields[0].1)
    else Lookup(fields[1..], key)
  }

  /** In a dict without repeated keys, every field is the one `Lookup` finds for its key: the
      first match is also the last, which is the one a Python dict keeps. */
  lemma {:induction false} LookupUnique(fields: seq<(string, Json)>, i: int)
    requires UniqueKeys(fields)
    requires 0 <= i < |fields|
    ensures Lookup(fields, fields[i].0) == Some(fields[i].1)
  {
    if i > 0 {
      assert fields[0].0 != fields[i].0;
      assert fields[1..][i - 1] == fields[i];
      LookupUnique(fields[1..], i - 1);
    }
  }

  /** `v.get(key, default)`: only a dict has `get`. */
  function GetOr(v: Json, key: string, default: Json): (r: Result<Json, PyExc>)
    ensures r.Err? <==> !v.Obj?
    ensures r.Err? ==> r.error == AttributeError
    ensures v.Obj? ==> r == Ok(if Lookup(v.fields, key).Some? then Lookup(v.fields, key).value else default)
  {
    if !v.Obj? then Err(AttributeError)
    else
      match Lookup(v.fields, key)
      case Some(x) => Ok(x)
      case None => Ok(default)
  }

  /** `v.get(key)`: a missing key gives None. */
  function Get(v: Json, key: string): Result<Json, PyExc>
  {
    GetOr(v, key, Null)
  }

  /** `bool(v)`: None, False, 0 and empty strings, lists and dicts are false. */
  predicate Truthy(v: Json)
  {
    match v
    case Null => false
    case Bool(b) => b
    case Num(n) => n != 0
    case Str(s) => s != []
    case Arr(items) => items != []
    case Obj(fields) => fields != []
  }

  /** `a or b`. */
  function Or(a: Json, b: Json): (r: Json)
    ensures Truthy(a) ==> r == a
    ensures !Truthy(a) ==> r == b
  {
    if Truthy(a) then a else b
  }

  /** `v[0]`: the first item of a list, the first character of a string; a dict has no key
      0 (JSON keys are strings); other values cannot be indexed. */
  function First(v: Json): (r: Result<Json, PyExc>)
    ensures v.Arr? && v.items != [] ==> r == Ok(v.items[0])
    ensures r.Ok? <==> (v.Arr? || v.Str?) && Truthy(v)
  {
    match v
    case Arr(items) => if items == [] then Err(IndexError) else Ok(items[0])
    case Str(s) => if s == [] then Err(IndexError) else Ok(Str([s[0]]))
    case Obj(_) => Err(KeyError)
    case _ => Err(TypeError)
  }

  /** The keys of a dict, as strings. */
  function Keys(fields: seq<(string, Json)>): (r: seq<Json>)
    ensures |r| == |fields|
    ensures forall i :: 0 <= i < |fields| ==> r[i] == Str(fields[i].0)
  {
    if fields == [] then [] else [Str(fields[0].0)] + Keys(fields[1..])
  }

  /** The one-character strings of a string. */
  function Chars(s: string): (r: seq<Json>)
    ensures |r| == |s|
    ensures forall i :: 0 <= i < |s| ==> r[i] == Str([s[i]])
  {
    if s == [] then [] else [Str([s[0]])] + Chars(s[1..])
  }

  /** What `for x in v` visits: list items, dict keys or string characters. */
  function Iterate(v: Json): (r: Result<seq<Json>, PyExc>)
    ensures v.Arr? ==> r == Ok(v.items)
    ensures r.Err? <==> v.Null? || v.Bool? || v.Num?
  {
    match v
    case Arr(items) => Ok(items)
    case Obj(fields) => Ok(Keys(fields))
    case Str(s) => Ok(Chars(s))
    case _ => Err(TypeError)
  }
}
