/**
 * `Variables` (tools/variables.py): a JSON document addressed by dotted keys, a layer
 * of system overrides, and the set of keys modified since the last `sync`.
 *
 * A key `"a.b.c"` is split at `.` into a path. `plain_get` follows the path and yields
 * `None` as soon as a part is absent (JSON `null` counts as absent, as with Python's
 * `dict.get`); following a part through a value that is not an object raises. `plain_set`
 * follows the path, creating an empty object for each absent part, and stores the value
 * under the last part; it raises when an existing part on the way is not an object:
 * `TypeError` when that part is the last container (item assignment on it), otherwise
 * `AttributeError` (`.get` on it).
 */
module Variables {
  import opened Wrappers
  import opened Strings

  /** A JSON value (numbers are integers here). `Null` is also Python's `None`. */
  datatype Json = Object(fields: map<string, Json>) | Array(items: seq<Json>) | Str(s: string) | Int(i: int) | Bool(b: bool) | Null

  /** `p.get(part)`. */
  function Member(fields: map<string, Json>, part: string): Json {
    if part in fields then fields[part] else Null
  }

  /** `plain_get` over a split key: `Ok(Null)` for Python's `None`, `Err` where
      `.get` is called on something that is not a dict. */
  function GetPath(p: Json, keys: seq<string>): (r: Result<Json>)
    decreases |keys|
  {
    if |keys| == 0 then Ok(p)
    else if !p.Object? then Err("AttributeError")
    else
      var next := Member(p.fields, keys[0]);
      if next.Null? then Ok(Null) else GetPath(next, keys[1..])
  }

  /** `plain_set` over a split key (never empty: `split` yields at least one part). */
  function SetPath(fields: map<string, Json>, keys: seq<string>, value: Json): (r: Result<map<string, Json>>)
    requires |keys| >= 1
    decreases |keys|
  {
    if |keys| == 1 then Ok(fields[keys[0] := value])
    else
      var next := Member(fields, keys[0]);
      if !(next.Null? || next.Object?) then
        // the next step is `p[part] = value` on the last container, or `.get` on it
        Err(if |keys| == 2 then "TypeError" else "AttributeError")
      else
        var child := if next.Object? then next.fields else map[];
        match SetPath(child, keys[1..], value)
        case Err(e) => Err(e)
        case Ok(c) => Ok(fields[keys[0] := Object(c)])
  }

  function PlainGet(data: map<string, Json>, key: string): Result<Json> {
    GetPath(Object(data), Split(key, '.'))
  }

  function PlainSet(data: map<string, Json>, key: string, value: Json): Result<map<string, Json>> {
    SetPath(data, Split(key, '.'), value)
  }

  /** Every part before the last that is present is an object. */
  predicate PathClear(fields: map<string, Json>, keys: seq<string>)
    requires |keys| >= 1
    decreases |keys|
  {
    |keys| == 1 ||
    (var next := Member(fields, keys[0]);
     next.Null? || (next.Object? && PathClear(next.fields, keys[1..])))
  }

  /** `plain_set` fails exactly when a present part on the way is not an object. */
  lemma {:induction false} SetPathSucceeds(fields: map<string, Json>, keys: seq<string>, value: Json)
    requires |keys| >= 1
    ensures SetPath(fields, keys, value).Ok? <==> PathClear(fields, keys)
    decreases |keys|
  {
    if |keys| > 1 {
      var next := Member(fields, keys[0]);
      if next.Object? {
        SetPathSucceeds(next.fields, keys[1..], value);
      } else if next.Null? {
        SetPathSucceeds(map[], keys[1..], value);
        EmptyPathClear(keys[1..]);
      }
    }
  }

  /** A non-object right before the key fails the item assignment; one further up fails
      the next `.get`. */
  lemma SetThroughNonObject(v: Json)
    ensures SetPath(map["a" := Str("x")], ["a", "b"], v) == Err("TypeError")
    ensures SetPath(map["a" := Str("x")], ["a", "b", "c"], v) == Err("AttributeError")
  {
  }

  lemma {:induction false} EmptyPathClear(keys: seq<string>)
    requires |keys| >= 1
    ensures PathClear(map[], keys)
  {
  }

  /** `plain_get(plain_set(d, k, v), k) == v`. */
  lemma {:induction false} GetAfterSet(fields: map<string, Json>, keys: seq<string>, value: Json)
    requires |keys| >= 1 && SetPath(fields, keys, value).Ok?
    ensures GetPath(Object(SetPath(fields, keys, value).value), keys) == Ok(value)
    decreases |keys|
  {
    if |keys| > 1 {
      var next := Member(fields, keys[0]);
      var child := if next.Object? then next.fields else map[];
      GetAfterSet(child, keys[1..], value);
    } else {
      assert keys[1..] == [];
    }
  }

  /** Two paths that part ways before either ends. */
  predicate Diverge(a: seq<string>, b: seq<string>)
    decreases |a|
  {
    |a| > 0 && |b| > 0 && (a[0] != b[0] || Diverge(a[1..], b[1..]))
  }

  /** `plain_set` touches only the addressed entry: every path that parts ways with it
      reads the same afterwards. */
  lemma {:induction false} SetKeepsOthers(fields: map<string, Json>, keys: seq<string>, value: Json, other: seq<string>)
    requires |keys| >= 1 && SetPath(fields, keys, value).Ok? && Diverge(keys, other)
    ensures GetPath(Object(SetPath(fields, keys, value).value), other) == GetPath(Object(fields), other)
    decreases |keys|
  {
    var r := SetPath(fields, keys, value).value;
    if keys[0] != other[0] {
      assert Member(r, other[0]) == Member(fields, other[0]);
    } else {
      var next := Member(fields, keys[0]);
      var child := if next.Object? then next.fields else map[];
      SetKeepsOthers(child, keys[1..], value, other[1..]);
      assert Member(r, other[0]) == Object(SetPath(child, keys[1..], value).value);
      if next.Null? {
        assert GetPath(Object(map[]), other[1..]) == Ok(Null);
      }
    }
  }

  /** The merge loop of `sync`: each key of `order` gets its value from `src` written
      into `base`; an exception stops the loop (`ok` false) with what was merged so far. */
  function Merge(base: map<string, Json>, src: map<string, Json>, order: seq<string>): (r: (map<string, Json>, bool))
    decreases |order|
  {
    if |order| == 0 then (base, true)
    else
      match PlainGet(src, order[0])
      case Err(_) => (base, false)
      case Ok(v) =>
        match PlainSet(base, order[0], v)
        case Err(_) => (base, false)
        case Ok(b) => Merge(b, src, order[1..])
  }

  /** Keys whose paths pairwise part ways. */
  predicate Independent(order: seq<string>) {
    forall i, j :: 0 <= i < |order| && 0 <= j < |order| && i != j ==> Diverge(Split(order[i], '.'), Split(order[j], '.'))
  }

  /** A successful merge of keys whose paths pairwise part ways carries each key's
      value over from `src`. */
  lemma {:induction false} MergeCarries(base: map<string, Json>, src: map<string, Json>, order: seq<string>)
    requires Merge(base, src, order).1 && Independent(order)
    ensures forall i :: 0 <= i < |order| ==> PlainGet(Merge(base, src, order).0, order[i]) == PlainGet(src, order[i])
    decreases |order|
  {
    if |order| > 0 {
      var v := PlainGet(src, order[0]).value;
      var b := PlainSet(base, order[0], v).value;
      var rest := order[1..];
      assert Independent(rest) by {
        forall i, j | 0 <= i < |rest| && 0 <= j < |rest| && i != j
          ensures Diverge(Split(rest[i], '.'), Split(rest[j], '.'))
        {
          assert rest[i] == order[i + 1] && rest[j] == order[j + 1];
        }
      }
      MergeCarries(b, src, rest);
      GetAfterSet(base, Split(order[0], '.'), v);
      MergeKeeps(b, src, rest, Split(order[0], '.'));
      forall i | 0 <= i < |order|
        ensures PlainGet(Merge(base, src, order).0, order[i]) == PlainGet(src, order[i])
      {
        if i > 0 {
          assert rest[i - 1] == order[i];
        }
      }
    }
  }

  /** A path that parts ways with every merged key reads the same after the merge. */
  lemma {:induction false} MergeKeeps(base: map<string, Json>, src: map<string, Json>, order: seq<string>, path: seq<string>)
    requires Merge(base, src, order).1
    requires forall i :: 0 <= i < |order| ==> Diverge(Split(order[i], '.'), path)
    ensures GetPath(Object(Merge(base, src, order).0), path) == GetPath(Object(base), path)
    decreases |order|
  {
    if |order| > 0 {
      var v := PlainGet(src, order[0]).value;
      var b := PlainSet(base, order[0], v).value;
      MergeKeeps(b, src, order[1..], path);
      SetKeepsOthers(base, Split(order[0], '.'), v, path);
    }
  }

  class VariableStore {
    var sys: map<string, Json>
    var data: map<string, Json>
    var modified: set<string>

    constructor (sys: map<string, Json>)
      ensures this.sys == sys && data == map[] && modified == {}
    {
      this.sys := sys;
      data := map[];
      modified := {};
    }

    /** `__getitem__`: a system override wins, else the dotted lookup in `data`. */
    method GetItem(key: string) returns (r: Result<Json>)
      ensures key in sys ==> r == Ok(sys[key])
      ensures key !in sys ==> r == PlainGet(data, key)
    {
      if key in sys {
        return Ok(sys[key]);
      }
      r := PlainGet(data, key);
    }

    /** `__setitem__`: a system key updates `sys` only; any other key is set in `data`
        and recorded as modified, unless `plain_set` raises, which changes nothing. */
    method SetItem(key: string, value: Json) returns (ok: bool)
      modifies this
      ensures old(key in sys) ==> ok && sys == old(sys)[key := value] && data == old(data) && modified == old(modified)
      ensures !old(key in sys) ==> (sys == old(sys) &&
        ok == PlainSet(old(data), key, value).Ok? &&
        (ok ==> data == PlainSet(old(data), key, value).value && modified == old(modified) + {key}) &&
        (!ok ==> data == old(data) && modified == old(modified)))
    {
      if key in sys {
        sys := sys[key := value];
        return true;
      }
      match PlainSet(data, key, value)
      case Err(_) =>
        ok := false;
      case Ok(d) =>
        data := d;
        modified := modified + {key};
        ok := true;
    }

    /** `sync` without the file I/O: `loaded` is the file's content (or `{}` when there
        is none) and `order` the iteration order of `modified`. Each modified key's
        current value is written into `loaded`. When that merge raises (`ok` false) the
        exception leaves `sync` before its `try`/`finally`, so nothing changes; otherwise
        the merged document is adopted and `modified` emptied, whether or not writing
        the file succeeds. */
    method Sync(loaded: map<string, Json>, order: seq<string>) returns (ok: bool)
      requires forall k :: k in order <==> k in modified
      modifies this
      ensures ok == Merge(loaded, old(data), order).1 && sys == old(sys)
      ensures ok ==> data == Merge(loaded, old(data), order).0 && modified == {}
      ensures !ok ==> data == old(data) && modified == old(modified)
    {
      var merged := loaded;
      var i := 0;
      ok := true;
      while i < |order|
        invariant 0 <= i <= |order|
        invariant Merge(loaded, data, order) == Merge(merged, data, order[i..])
        invariant ok
      {
        assert order[i..][1..] == order[i + 1..];
        var newValue := PlainGet(data, order[i]);
        if newValue.Err? {
          ok := false;
          break;
        }
        var next := PlainSet(merged, order[i], newValue.value);
        if next.Err? {
          ok := false;
          break;
        }
        merged := next.value;
        i := i + 1;
      }
      if ok {
        modified := {};
        data := merged;
      }
    }
  }
}
