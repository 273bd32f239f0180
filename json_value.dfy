/**
 * The decoded JSON attribute tree (a PHP associative array after
 * `json_decode(..., true)`). JSON `null` is modelled as an absent key:
 * `isset` treats the two alike, and so does every operation of the core.
 */
module Json {
  import opened Wrappers
  import opened PhpStrings

  datatype Value =
    | Str(s: string)
    | Int(n: int)
    | Bool(b: bool)
    | List(items: seq<Value>)
    | Obj(fields: seq<Field>)

  /** One `key => value` entry of an object, in document order. */
  datatype Field = Field(key: string, value: Value)

  /** Is the value a PHP array (a JSON object or list)? */
  predicate IsArray(v: Value) {
    v.Obj? || v.List?
  }

  /**
   * The entries PHP sees when it iterates or indexes a value: an object's
   * fields in order, a list's items under the keys "0", "1", ..., and
   * nothing for a scalar.
   */
  function Entries(v: Value): (es: seq<Field>)
    ensures v.Obj? ==> es == v.fields
    ensures v.List? ==> |es| == |v.items|
    ensures v.List? ==> forall i :: 0 <= i < |es| ==> es[i] == Field(NatToString(i), v.items[i])
    ensures !IsArray(v) ==> es == []
  {
    match v
    case Obj(fs) => fs
    case List(xs) => seq(|xs|, i requires 0 <= i < |xs| => Field(NatToString(i), xs[i]))
    case _ => []
  }

  /** The values a PHP `foreach` over the value visits, in order. */
  function Elements(v: Value): (xs: seq<Value>)
    ensures |xs| == |Entries(v)|
    ensures forall i :: 0 <= i < |xs| ==> xs[i] == Entries(v)[i].value
  {
    var es := Entries(v);
    seq(|es|, i requires 0 <= i < |es| => es[i].value)
  }

  /** The position of the first entry with the given key. */
  function FindKey(es: seq<Field>, key: string): (r: Option<nat>)
    ensures r.Some? ==> r.value < |es| && es[r.value].key == key
    ensures r.Some? ==> forall j :: 0 <= j < r.value ==> es[j].key != key
    ensures r.None? ==> forall j :: 0 <= j < |es| ==> es[j].key != key
  {
    if es == [] then None
    else if es[0].key == key then Some(0)
    else match FindKey(es[1..], key)
      case None => None
      case Some(j) => Some(j + 1)
  }

  /** `isset($v[$key]) ? $v[$key] : null`: the attribute stored under `key`. */
  function Lookup(v: Value, key: string): (r: Option<Value>)
    ensures r.Some? ==> Size(r.value) < Size(v)
    ensures !IsArray(v) ==> r.None?
  {
    var es := Entries(v);
    match FindKey(es, key)
    case None => None
    case Some(i) =>
      EntrySmaller(v, i);
      Some(es[i].value)
  }

  /** `isset($v[$key])` holds exactly when some entry of the value has that key. */
  lemma LookupFound(v: Value, key: string)
    ensures Lookup(v, key).Some? <==> exists i :: 0 <= i < |Entries(v)| && Entries(v)[i].key == key
  {
  }

  /**
   * `$v[$key] = $x` for a key the value already holds: that entry's value
   * is replaced in place, and every other key keeps its value.
   */
  function SetEntry(v: Value, key: string, x: Value): (r: Value)
    requires Lookup(v, key).Some?
    ensures Lookup(r, key) == Some(x)
    ensures forall k :: k != key ==> Lookup(r, k) == Lookup(v, k)
  {
    var i := FindKey(Entries(v), key).value;
    match v
    case Obj(fs) =>
      var r := Obj(fs[i := Field(key, x)]);
      SetEntryKeys(v, r, i, key, x);
      r
    case List(xs) =>
      var r := List(xs[i := x]);
      SetEntryKeys(v, r, i, key, x);
      r
  }

  /** Replacing one entry's value leaves every key where it was. */
  lemma SetEntryKeys(v: Value, r: Value, i: nat, key: string, x: Value)
    requires FindKey(Entries(v), key) == Some(i)
    requires |Entries(r)| == |Entries(v)|
    requires forall j :: 0 <= j < |Entries(v)| ==> Entries(r)[j].key == Entries(v)[j].key
    requires Entries(r)[i].value == x
    requires forall j :: 0 <= j < |Entries(v)| && j != i ==> Entries(r)[j].value == Entries(v)[j].value
    ensures Lookup(r, key) == Some(x)
    ensures forall k :: k != key ==> Lookup(r, k) == Lookup(v, k)
  {
    forall k
      ensures FindKey(Entries(r), k) == FindKey(Entries(v), k)
    {
      FindKeySameKeys(Entries(v), Entries(r), k);
    }
  }

  /** Where a key is found depends only on the keys. */
  lemma {:induction false} FindKeySameKeys(es: seq<Field>, es': seq<Field>, key: string)
    requires |es| == |es'|
    requires forall j :: 0 <= j < |es| ==> es'[j].key == es[j].key
    ensures FindKey(es', key) == FindKey(es, key)
  {
    if es != [] && es[0].key != key {
      FindKeySameKeys(es[1..], es'[1..], key);
    }
  }

  /** PHP's loose `$v == true`. */
  predicate Truthy(v: Value) {
    match v
    case Str(s) => s != "" && s != "0"
    case Int(n) => n != 0
    case Bool(b) => b
    case List(xs) => |xs| > 0
    case Obj(fs) => |fs| > 0
  }

  /** The text PHP produces when the value is converted to a string (by `implode` or interpolation). */
  function PhpString(v: Value): string {
    match v
    case Str(s) => s
    case Int(n) => IntToString(n)
    case Bool(b) => if b then "1" else ""
    case _ => "Array"
  }

  /** A size measure: every entry's value is smaller than the value holding it. */
  function Size(v: Value): nat {
    match v
    case List(xs) => 1 + SizeList(xs)
    case Obj(fs) => 1 + SizeFields(fs)
    case _ => 1
  }

  function SizeList(xs: seq<Value>): nat {
    if xs == [] then 0 else SizeList(xs[..|xs| - 1]) + Size(xs[|xs| - 1])
  }

  function SizeFields(fs: seq<Field>): nat {
    if fs == [] then 0 else SizeFields(fs[..|fs| - 1]) + Size(fs[|fs| - 1].value)
  }

  lemma {:induction false} ItemSmaller(xs: seq<Value>, i: nat)
    requires i < |xs|
    ensures Size(xs[i]) <= SizeList(xs)
  {
    if i < |xs| - 1 {
      ItemSmaller(xs[..|xs| - 1], i);
    }
  }

  lemma {:induction false} FieldSmaller(fs: seq<Field>, i: nat)
    requires i < |fs|
    ensures Size(fs[i].value) <= SizeFields(fs)
  {
    if i < |fs| - 1 {
      FieldSmaller(fs[..|fs| - 1], i);
    }
  }

  /** Every entry of a value is strictly smaller than the value. */
  lemma EntrySmaller(v: Value, i: nat)
    requires i < |Entries(v)|
    ensures Size(Entries(v)[i].value) < Size(v)
  {
    match v
    case List(xs) => ItemSmaller(xs, i);
    case Obj(fs) => FieldSmaller(fs, i);
  }

  lemma ElementSmaller(v: Value, i: nat)
    requires i < |Elements(v)|
    ensures Size(Elements(v)[i]) < Size(v)
  {
    EntrySmaller(v, i);
  }
}
