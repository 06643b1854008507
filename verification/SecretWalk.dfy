/** The walks over a configuration document, as the loops that overwrite it field by field
    and item by item. An exclusively borrowed document is a value that goes in and comes
    out; on failure the caller drops it. Encrypt, decrypt and redact are one loop that
    differs only in what it does under a secret key; each walk is proved against its
    specification in Secrets.
  */
module SecretWalk {
  import opened Common
  import opened Json
  import opened Secrets

  /** A failure on a prefix is the failure of the whole. */
  lemma {:induction false} FieldsFailEarly(fields: seq<Field>, n: nat, path: Path, f: OnSecret)
    requires n <= |fields| && MapFields(fields[..n], path, f).Err?
    ensures MapFields(fields, path, f) == MapFields(fields[..n], path, f)
    decreases |fields|
  {
    if n < |fields| {
      assert fields[..|fields| - 1][..n] == fields[..n];
      FieldsFailEarly(fields[..|fields| - 1], n, path, f);
    } else {
      assert fields[..n] == fields;
    }
  }

  lemma {:induction false} ItemsFailEarly(items: seq<Value>, n: nat, path: Path, f: OnSecret)
    requires n <= |items| && MapItems(items[..n], path, f).Err?
    ensures MapItems(items, path, f) == MapItems(items[..n], path, f)
    decreases |items|
  {
    if n < |items| {
      assert items[..|items| - 1][..n] == items[..n];
      ItemsFailEarly(items[..|items| - 1], n, path, f);
    } else {
      assert items[..n] == items;
    }
  }

  lemma {:induction false} PreserveFieldsFailEarly(fields: seq<Field>, n: nat, existing: Option<Value>)
    requires n <= |fields| && PreserveFields(fields[..n], existing).Err?
    ensures PreserveFields(fields, existing) == PreserveFields(fields[..n], existing)
    decreases |fields|
  {
    if n < |fields| {
      assert fields[..|fields| - 1][..n] == fields[..n];
      PreserveFieldsFailEarly(fields[..|fields| - 1], n, existing);
    } else {
      assert fields[..n] == fields;
    }
  }

  lemma {:induction false} PreserveItemsFailEarly(items: seq<Value>, n: nat, existing: Option<Value>)
    requires n <= |items| && PreserveItems(items[..n], existing).Err?
    ensures PreserveItems(items, existing) == PreserveItems(items[..n], existing)
    decreases |items|
  {
    if n < |items| {
      assert items[..|items| - 1][..n] == items[..n];
      PreserveItemsFailEarly(items[..|items| - 1], n, existing);
    } else {
      assert items[..n] == items;
    }
  }

  /** One turn of the loop over an object. */
  method WalkField(field: Field, path: Path, onSecret: OnSecret) returns (r: Result<Value, string>)
    ensures r == MapField(field, path, onSecret)
    decreases field
  {
    var here := path + [Key(field.key)];
    if IsSecretKey(field.key) {
      r := onSecret(field.value, here);
    } else {
      r := WalkSecrets(field.value, here, onSecret);
    }
  }

  method WalkFields(given: seq<Field>, path: Path, onSecret: OnSecret) returns (r: Result<seq<Field>, string>)
    ensures r == MapFields(given, path, onSecret)
    decreases given
  {
    var fields := given;
    var i := 0;
    while i < |fields|
      invariant 0 <= i <= |fields| == |given|
      invariant fields[i..] == given[i..]
      invariant MapFields(given[..i], path, onSecret) == Ok(fields[..i])
    {
      var field := fields[i];
      assert field == given[i] && given[..i + 1][..i] == given[..i];
      var entry := WalkField(field, path, onSecret);
      if entry.Err? {
        FieldsFailEarly(given, i + 1, path, onSecret);
        return Err(entry.error);
      }
      ghost var before := fields;
      fields := fields[i := Field(field.key, entry.value)];
      assert fields[..i + 1] == before[..i] + [Field(field.key, entry.value)];
      assert fields[i + 1..] == before[i..][1..] == given[i + 1..];
      i := i + 1;
    }
    assert given[..i] == given && fields[..i] == fields;
    return Ok(fields);
  }

  method WalkItems(given: seq<Value>, path: Path, onSecret: OnSecret) returns (r: Result<seq<Value>, string>)
    ensures r == MapItems(given, path, onSecret)
    decreases given
  {
    var items := given;
    var i := 0;
    while i < |items|
      invariant 0 <= i <= |items| == |given|
      invariant items[i..] == given[i..]
      invariant MapItems(given[..i], path, onSecret) == Ok(items[..i])
    {
      assert items[i] == given[i] && given[..i + 1][..i] == given[..i];
      var item := WalkSecrets(items[i], path + [Index(i)], onSecret);
      if item.Err? {
        ItemsFailEarly(given, i + 1, path, onSecret);
        return Err(item.error);
      }
      ghost var before := items;
      items := items[i := item.value];
      assert items[..i + 1] == before[..i] + [item.value];
      assert items[i + 1..] == before[i..][1..] == given[i + 1..];
      i := i + 1;
    }
    assert given[..i] == given && items[..i] == items;
    return Ok(items);
  }

  /** The walk shared by encrypt_json_secrets, decrypt_json_secrets and
      redact_json_secrets, with `onSecret` at the values under secret keys. */
  method WalkSecrets(value: Value, path: Path, onSecret: OnSecret) returns (r: Result<Value, string>)
    ensures r == MapSecrets(value, path, onSecret)
    decreases value
  {
    match value {
      case Object(given) =>
        var fields := WalkFields(given, path, onSecret);
        return if fields.Ok? then Ok(Object(fields.value)) else Err(fields.error);
      case Array(given) =>
        var items := WalkItems(given, path, onSecret);
        return if items.Ok? then Ok(Array(items.value)) else Err(items.error);
      case _ =>
        return Ok(value);
    }
  }

  /** One turn of the loop over an object: a placeholder is replaced by what is stored. */
  method PreserveRedactedField(field: Field, existing: Option<Value>) returns (r: Result<Value, string>)
    ensures r == PreserveField(field, existing)
    decreases field
  {
    var stored := if existing.Some? then Get(existing.value, field.key) else None;
    if IsSecretKey(field.key) {
      if field.value == String(REDACTED_SECRET) {
        return if stored.Some? then Ok(stored.value) else Err(field.key);
      }
      return Ok(field.value);
    }
    r := PreserveRedactedJsonSecrets(field.value, stored);
  }

  /** The loop over an object. */
  method PreserveRedactedFields(given: seq<Field>, existing: Option<Value>) returns (r: Result<seq<Field>, string>)
    ensures r == PreserveFields(given, existing)
    decreases given
  {
    var fields := given;
    var i := 0;
    while i < |fields|
      invariant 0 <= i <= |fields| == |given|
      invariant fields[i..] == given[i..]
      invariant PreserveFields(given[..i], existing) == Ok(fields[..i])
    {
      var field := fields[i];
      assert field == given[i] && given[..i + 1][..i] == given[..i];
      var entry := PreserveRedactedField(field, existing);
      if entry.Err? {
        PreserveFieldsFailEarly(given, i + 1, existing);
        return Err(entry.error);
      }
      ghost var before := fields;
      fields := fields[i := Field(field.key, entry.value)];
      assert fields[..i + 1] == before[..i] + [Field(field.key, entry.value)];
      assert fields[i + 1..] == before[i..][1..] == given[i + 1..];
      i := i + 1;
    }
    assert given[..i] == given && fields[..i] == fields;
    return Ok(fields);
  }

  /** The loop over an array; the stored item is the one at the same index. */
  method PreserveRedactedItems(given: seq<Value>, existing: Option<Value>) returns (r: Result<seq<Value>, string>)
    ensures r == PreserveItems(given, existing)
    decreases given
  {
    var items := given;
    var i := 0;
    while i < |items|
      invariant 0 <= i <= |items| == |given|
      invariant items[i..] == given[i..]
      invariant PreserveItems(given[..i], existing) == Ok(items[..i])
    {
      assert items[i] == given[i] && given[..i + 1][..i] == given[..i];
      var stored := if existing.Some? && existing.value.Array? && i < |existing.value.items|
                    then Some(existing.value.items[i]) else None;
      var item := PreserveRedactedJsonSecrets(items[i], stored);
      if item.Err? {
        PreserveItemsFailEarly(given, i + 1, existing);
        return Err(item.error);
      }
      ghost var before := items;
      items := items[i := item.value];
      assert items[..i + 1] == before[..i] + [item.value];
      assert items[i + 1..] == before[i..][1..] == given[i + 1..];
      i := i + 1;
    }
    assert given[..i] == given && items[..i] == items;
    return Ok(items);
  }

  method PreserveRedactedJsonSecrets(value: Value, existing: Option<Value>) returns (r: Result<Value, string>)
    ensures r == Preserve(value, existing)
    decreases value
  {
    match value {
      case Object(given) =>
        var fields := PreserveRedactedFields(given, existing);
        return if fields.Ok? then Ok(Object(fields.value)) else Err(fields.error);
      case Array(given) =>
        var items := PreserveRedactedItems(given, existing);
        return if items.Ok? then Ok(Array(items.value)) else Err(items.error);
      case _ =>
        return Ok(value);
    }
  }
}
