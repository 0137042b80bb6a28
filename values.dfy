/** Values the revision log stores and compares, and the PHP associative
    array they live in (string keys, insertion order kept). */
module Values {

  datatype Option<T> = None | Some(value: T)

  /** A PHP value as it appears in an entity, a snapshot or a diff.
      Objects carry the text their own `__toString` produces; a date/time
      object also carries its `Y-m-d'T'H:i:s` rendering, the form the diff
      compares stored dates against. */
  datatype Value =
    | Null
    | Bool(b: bool)
    | Int(i: int)
    | Str(s: string)
    | Arr(items: seq<Value>)
    | DateTime(iso: string, text: string)
    | Ent(source: string, props: map<string, Value>, text: string)

  /** PHP's `empty()`: null, false, 0, "", "0" and the empty array. */
  predicate IsEmpty(v: Value)
  {
    match v
    case Null => true
    case Bool(b) => !b
    case Int(i) => i == 0
    case Str(s) => s == "" || s == "0"
    case Arr(items) => items == []
    case DateTime(_, _) => false
    case Ent(_, _, _) => false
  }

  function Digits(n: nat): string
    decreases n
  {
    var d := [(48 + n % 10) as char];
    if n < 10 then d else Digits(n / 10) + d
  }

  /** PHP's conversion of a value to string, as `trim` and `implode` apply it. */
  function ToText(v: Value): string
  {
    match v
    case Null => ""
    case Bool(b) => if b then "1" else ""
    case Int(i) => if i < 0 then "-" + Digits(-i) else Digits(i)
    case Str(s) => s
    case Arr(_) => "Array"
    case DateTime(_, text) => text
    case Ent(_, _, text) => text
  }

  // ---------------------------------------------------------------------------
  // Ordered dictionaries: a PHP array with string keys.

  datatype RawDict<V> = RawDict(keys: seq<string>, m: map<string, V>)

  predicate Distinct(s: seq<string>)
  {
    forall i, j | 0 <= i < j < |s| :: s[i] != s[j]
  }

  predicate DictInv<V>(d: RawDict<V>)
  {
    && Distinct(d.keys)
    && (forall k | k in d.m :: k in d.keys)
    && (forall k | k in d.keys :: k in d.m)
  }

  /** `keys` lists the keys of `m` once each, in insertion order. */
  type Dict<V> = d: RawDict<V> | DictInv(d) witness RawDict([], map[])

  function EmptyDict<V>(): (r: Dict<V>)
    ensures r.keys == [] && r.m == map[]
  {
    RawDict([], map[])
  }

  /** PHP's `$a[$k] = $v`: an existing key keeps its position, a new key goes last. */
  function Put<V>(d: Dict<V>, k: string, v: V): (r: Dict<V>)
    ensures r.m == d.m[k := v]
    ensures r.keys == if k in d.m then d.keys else d.keys + [k]
  {
    if k in d.m then RawDict(d.keys, d.m[k := v])
    else RawDict(d.keys + [k], d.m[k := v])
  }

  /** A dictionary with no entries has no keys: PHP's `empty($a)`. */
  lemma NoEntriesNoKeys<V>(d: Dict<V>)
    ensures d.m == map[] <==> d.keys == []
  {
    if d.keys != [] {
      assert d.keys[0] in d.m;
    }
  }

  /** Reading `$a[$k]`: null when the key is missing. */
  function Lookup(d: Dict<Value>, k: string): Value
  {
    if k in d.m then d.m[k] else Null
  }

  /** PHP's `isset($a[$k])`: present and not null. */
  predicate IsSet(d: Dict<Value>, k: string)
  {
    k in d.m && d.m[k] != Null
  }

  // ---------------------------------------------------------------------------
  // Building a dictionary by walking a list of names, the shape of every
  // `foreach (... as $name) { if (...) { $out[$name] = ...; } }` in the source.

  function Collect<V>(names: seq<string>, pick: string -> Option<V>): (r: Dict<V>)
    ensures forall k :: k in r.m <==> k in names && pick(k).Some?
    ensures forall k :: k in r.m ==> r.m[k] == pick(k).value
    decreases |names|
  {
    if names == [] then EmptyDict()
    else
      var d := Collect(names[..|names| - 1], pick);
      var k := names[|names| - 1];
      match pick(k)
      case None => d
      case Some(v) => Put(d, k, v)
  }

  /** The names `pick` accepts, in the order of `names`. */
  function Filter<V>(names: seq<string>, pick: string -> Option<V>): (r: seq<string>)
    ensures forall k :: k in r <==> k in names && pick(k).Some?
    decreases |names|
  {
    if names == [] then []
    else
      var rest := Filter(names[..|names| - 1], pick);
      var k := names[|names| - 1];
      if pick(k).Some? then rest + [k] else rest
  }

  /** Over distinct names, the dictionary's keys are exactly the accepted
      names in their original order. */
  lemma {:induction false} CollectKeys<V>(names: seq<string>, pick: string -> Option<V>)
    requires Distinct(names)
    ensures Collect(names, pick).keys == Filter(names, pick)
    decreases |names|
  {
    if names != [] {
      var init := names[..|names| - 1];
      var k := names[|names| - 1];
      assert Distinct(init);
      CollectKeys(init, pick);
      assert k !in init;
    }
  }

  /** One step of a loop that builds `Collect` over a growing prefix. */
  lemma CollectStep<V>(names: seq<string>, i: nat, pick: string -> Option<V>)
    requires i < |names|
    ensures Collect(names[..i + 1], pick) ==
              match pick(names[i])
              case None => Collect(names[..i], pick)
              case Some(v) => Put(Collect(names[..i], pick), names[i], v)
  {
    assert names[..i + 1][..i] == names[..i];
  }
}
