/** JavaScript values as the node sees them after `JSON.parse` or from its parameters:
    JSON values plus `undefined` and the non-finite numbers. An object lists its own
    properties in the engine's key-enumeration order (the order `Object.keys` reports);
    a JavaScript object never repeats a key, and lookups take the first binding. */
module JsValues {
  import opened Wrappers
  import opened JsNumbers

  datatype Value =
    | Undefined
    | Null
    | Bool(b: bool)
    | Number(n: Num)
    | Str(s: string)
    | Arr(items: seq<Value>)
    | Obj(fields: seq<(string, Value)>)

  /** `JSON.parse`, abstracted: `None` when it throws. */
  type JsonParser = string -> Option<Value>

  /** JavaScript truthiness: `undefined`, `null`, `false`, `0`, `NaN` and `""` are falsy. */
  predicate Truthy(v: Value) {
    match v
    case Undefined => false
    case Null => false
    case Bool(b) => b
    case Number(n) => n != NaN && n != Fin(0.0)
    case Str(s) => s != ""
    case Arr(_) => true
    case Obj(_) => true
  }

  /** `a || b`. */
  function Or(a: Value, b: Value): Value {
    if Truthy(a) then a else b
  }

  /** The keys of an object, in enumeration order. */
  function Keys(fields: seq<(string, Value)>): (ks: seq<string>)
    ensures |ks| == |fields|
  {
    if |fields| == 0 then [] else [fields[0].0] + Keys(fields[1..])
  }

  /** The value bound to `key` among `fields`, or `undefined`. */
  function Lookup(fields: seq<(string, Value)>, key: string): (v: Value)
    ensures key !in Keys(fields) ==> v == Undefined
  {
    if |fields| == 0 then Undefined
    else if fields[0].0 == key then fields[0].1
    else Lookup(fields[1..], key)
  }

  /** A bound value is one of the object's own fields. */
  lemma {:induction false} LookupFound(fields: seq<(string, Value)>, key: string)
    requires key in Keys(fields)
    ensures (key, Lookup(fields, key)) in fields
  {
    if fields[0].0 != key {
      LookupFound(fields[1..], key);
    }
  }

  /** `key in fields`. */
  predicate HasKey(fields: seq<(string, Value)>, key: string) {
    key in Keys(fields)
  }

  /** Property access `v[key]`: `undefined` for anything but an object carrying the key.
      (Arrays and strings have no property under the resource names and keys used here.) */
  function Get(v: Value, key: string): Value {
    if v.Obj? then Lookup(v.fields, key) else Undefined
  }

  /** `key in v` for a value whose `typeof` is `'object'`. */
  predicate Has(v: Value, key: string) {
    v.Obj? && HasKey(v.fields, key)
  }

  /** Assignment `o[key] = val` on a fresh object built by spreading: an existing key keeps
      its place and takes the new value; a new key goes last. */
  function SetField(fields: seq<(string, Value)>, key: string, val: Value): seq<(string, Value)> {
    if |fields| == 0 then [(key, val)]
    else if fields[0].0 == key then [(key, val)] + fields[1..]
    else [fields[0]] + SetField(fields[1..], key, val)
  }

  /** After the assignment the key reads back the assigned value; an existing key keeps its
      place, so the key order is unchanged; a new key is appended after all the others. */
  lemma {:induction false} SetFieldBinds(fields: seq<(string, Value)>, key: string, val: Value)
    ensures Lookup(SetField(fields, key, val), key) == val
    ensures HasKey(fields, key) ==> Keys(SetField(fields, key, val)) == Keys(fields)
    ensures !HasKey(fields, key) ==> SetField(fields, key, val) == fields + [(key, val)]
  {
    if |fields| > 0 && fields[0].0 != key {
      var rest := SetField(fields[1..], key, val);
      var r := [fields[0]] + rest;
      assert r[1..] == rest;
      SetFieldBinds(fields[1..], key, val);
      assert Keys(r) == [fields[0].0] + Keys(rest);
      assert Keys(fields) == [fields[0].0] + Keys(fields[1..]);
      assert !HasKey(fields, key) ==> fields == [fields[0]] + fields[1..];
    } else if |fields| > 0 {
      var r := SetField(fields, key, val);
      assert r[1..] == fields[1..];
      assert Keys(r) == [key] + Keys(fields[1..]);
    }
  }

  /** Assigning one key leaves every other key's value as it was. */
  lemma {:induction false} SetFieldOthers(fields: seq<(string, Value)>, key: string, val: Value, k: string)
    requires k != key
    ensures Lookup(SetField(fields, key, val), k) == Lookup(fields, k)
  {
    if |fields| > 0 && fields[0].0 != key {
      var r := SetField(fields, key, val);
      assert r[1..] == SetField(fields[1..], key, val);
      SetFieldOthers(fields[1..], key, val, k);
    } else if |fields| > 0 {
      assert SetField(fields, key, val)[1..] == fields[1..];
    }
  }

  /** `Number(v)`: `ToNumber` after `ToPrimitive`. An array converts through its
      comma-joined string, so only arrays of at most one element can give a number;
      a plain object converts through `"[object Object]"` and gives NaN. */
  function ToNumber(v: Value): Num
    decreases v, 0
  {
    match v
    case Undefined => NaN
    case Null => Fin(0.0)
    case Bool(b) => if b then Fin(1.0) else Fin(0.0)
    case Number(n) => n
    case Str(s) => StringToNumber(s)
    case Arr(xs) =>
      if |xs| == 0 then Fin(0.0)
      else if |xs| > 1 then NaN
      else SoleElementToNumber(xs[0])
    case Obj(_) => NaN
  }

  /** `Number(String(x))` for the only element `x` of an array: `null` and `undefined`
      print as the empty string, booleans as words, numbers as themselves. */
  function SoleElementToNumber(x: Value): Num
    decreases x, 1
  {
    match x
    case Undefined => Fin(0.0)
    case Null => Fin(0.0)
    case Bool(_) => NaN
    case Number(n) => n
    case Str(s) => StringToNumber(s)
    case Arr(_) => ToNumber(x)
    case Obj(_) => NaN
  }
}
