/** JSON documents as `serde_json::Value` holds them, and paths into them. */
module Json {
  import opened Common

  datatype Value =
    | Null
    | Bool(b: bool)
    | Number(text: string)
    | String(s: string)
    | Array(items: seq<Value>)
    | Object(fields: seq<Field>)

  datatype Field = Field(key: string, value: Value)

  datatype Step = Key(name: string) | Index(i: nat)

  type Path = seq<Step>

  /** Object lookup; a document that is not an object has no keys. */
  function Get(v: Value, key: string): Option<Value> {
    if v.Object? then Lookup(v.fields, key) else None
  }

  function Lookup(fields: seq<Field>, key: string): Option<Value> {
    if fields == [] then None
    else if fields[|fields| - 1].key == key then Some(fields[|fields| - 1].value)
    else Lookup(fields[..|fields| - 1], key)
  }

  function Child(v: Value, step: Step): Option<Value> {
    match step
    case Key(k) => Get(v, k)
    case Index(i) => if v.Array? && i < |v.items| then Some(v.items[i]) else None
  }

  function At(v: Option<Value>, path: Path): Option<Value>
    decreases |path|
  {
    if path == [] || v.None? then v else At(Child(v.value, path[0]), path[1..])
  }

  predicate DistinctKeys(fields: seq<Field>) {
    forall i, j :: 0 <= i < j < |fields| ==> fields[i].key != fields[j].key
  }

  /** No object repeats a key, at any depth: what a JSON map guarantees. */
  predicate WellFormed(v: Value) {
    match v
    case Object(fields) =>
      DistinctKeys(fields) && forall i :: 0 <= i < |fields| ==> WellFormed(fields[i].value)
    case Array(items) => forall i :: 0 <= i < |items| ==> WellFormed(items[i])
    case _ => true
  }

  lemma {:induction false} LookupFindsField(fields: seq<Field>, i: nat)
    requires i < |fields| && DistinctKeys(fields)
    ensures Lookup(fields, fields[i].key) == Some(fields[i].value)
  {
    if i < |fields| - 1 {
      assert fields[..|fields| - 1][i] == fields[i];
      LookupFindsField(fields[..|fields| - 1], i);
    }
  }

  lemma {:induction false} LookupIsAField(fields: seq<Field>, key: string) returns (i: nat)
    requires Lookup(fields, key).Some?
    ensures i < |fields| && fields[i] == Field(key, Lookup(fields, key).value)
  {
    if fields[|fields| - 1].key == key {
      i := |fields| - 1;
    } else {
      i := LookupIsAField(fields[..|fields| - 1], key);
    }
  }

  lemma {:induction false} LookupNeedsKey(fields: seq<Field>, key: string)
    ensures Lookup(fields, key).None? <==> forall i :: 0 <= i < |fields| ==> fields[i].key != key
  {
    if fields != [] {
      LookupNeedsKey(fields[..|fields| - 1], key);
      assert forall i :: 0 <= i < |fields| - 1 ==> fields[..|fields| - 1][i] == fields[i];
    }
  }
}
