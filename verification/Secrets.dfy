/** Secrets inside connector configurations: encrypt, decrypt, redact, and restoring what
    was redacted.

    The cipher is abstract. Sealing may fail and draws a fresh nonce; since every sealed
    string sits at its own path, letting `seal` depend on the path covers every choice of
    nonces.
  */
module Secrets {
  import opened Common
  import opened Json

  const ENCRYPTED_PREFIX := "enc:v1:"
  const REDACTED_SECRET := "***redacted***"

  const SECRET_KEYS: set<string> :=
    {"personal_access_token", "pat", "token", "password", "secret", "client_secret", "api_key",
     "x-api-key", "bearer_token", "access_token", "refresh_token", "authorization"}

  function AsciiLower(c: char): char {
    if 'A' <= c <= 'Z' then c - 'A' + 'a' else c
  }

  function AsciiLowercase(s: string): string {
    seq(|s|, i requires 0 <= i < |s| => AsciiLower(s[i]))
  }

  predicate IsSecretKey(key: string) {
    AsciiLowercase(key) in SECRET_KEYS
  }

  datatype Cipher = Cipher(
    seal: (string, Path) -> Result<string, string>,
    open: string -> Result<string, string>)

  /** Sealing marks its output and can be undone. */
  ghost predicate Lawful(c: Cipher) {
    forall s, p :: c.seal(s, p).Ok? ==>
      ENCRYPTED_PREFIX <= c.seal(s, p).value && c.open(c.seal(s, p).value) == Ok(s)
  }

  // ---------------------------------------------------------------- one traversal

  /** What a transform does to the value under a secret key. */
  type OnSecret = (Value, Path) -> Result<Value, string>

  /** Replaces every value under a secret key, left to right, and stops at the first
      failure; below a secret key nothing else is looked at. */
  function MapSecrets(v: Value, path: Path, f: OnSecret): Result<Value, string>
    decreases v
  {
    match v
    case Object(fields) =>
      (match MapFields(fields, path, f) case Ok(fs) => Ok(Object(fs)) case Err(e) => Err(e))
    case Array(items) =>
      (match MapItems(items, path, f) case Ok(vs) => Ok(Array(vs)) case Err(e) => Err(e))
    case _ => Ok(v)
  }

  function MapField(field: Field, path: Path, f: OnSecret): Result<Value, string>
    decreases field
  {
    if IsSecretKey(field.key) then f(field.value, path + [Key(field.key)])
    else MapSecrets(field.value, path + [Key(field.key)], f)
  }

  function MapFields(fields: seq<Field>, path: Path, f: OnSecret): Result<seq<Field>, string>
    decreases fields
  {
    if fields == [] then Ok([])
    else
      var last := fields[|fields| - 1];
      match MapFields(fields[..|fields| - 1], path, f)
      case Err(e) => Err(e)
      case Ok(done) =>
        match MapField(last, path, f)
        case Err(e) => Err(e)
        case Ok(v) => Ok(done + [Field(last.key, v)])
  }

  function MapItems(items: seq<Value>, path: Path, f: OnSecret): Result<seq<Value>, string>
    decreases items
  {
    if items == [] then Ok([])
    else
      var n := |items| - 1;
      match MapItems(items[..n], path, f)
      case Err(e) => Err(e)
      case Ok(done) =>
        match MapSecrets(items[n], path + [Index(n)], f)
        case Err(e) => Err(e)
        case Ok(v) => Ok(done + [v])
  }

  function SealLeaf(c: Cipher): OnSecret {
    (v: Value, p: Path) =>
      if v.String? && !(ENCRYPTED_PREFIX <= v.s) && v.s != "" then
        match c.seal(v.s, p) case Ok(t) => Ok(String(t)) case Err(e) => Err(e)
      else Ok(v)
  }

  function OpenLeaf(c: Cipher): OnSecret {
    (v: Value, p: Path) =>
      if v.String? && ENCRYPTED_PREFIX <= v.s then
        match c.open(v.s) case Ok(t) => Ok(String(t)) case Err(e) => Err(e)
      else Ok(v)
  }

  function RedactLeaf(): OnSecret {
    (v: Value, p: Path) => Ok(String(REDACTED_SECRET))
  }

  function Encrypt(c: Cipher, v: Value): Result<Value, string> {
    MapSecrets(v, [], SealLeaf(c))
  }

  function Decrypt(c: Cipher, v: Value): Result<Value, string> {
    MapSecrets(v, [], OpenLeaf(c))
  }

  function Redact(v: Value): Result<Value, string> {
    MapSecrets(v, [], RedactLeaf())
  }

  // ---------------------------------------------------------------- laws of the traversal

  /** Doing `f` at a secret and then `g` is doing `h`. */
  ghost predicate Fuses(f: OnSecret, g: OnSecret, h: OnSecret) {
    forall v, p :: f(v, p).Ok? ==> g(f(v, p).value, p) == h(v, p)
  }

  lemma {:induction false} FuseTree(v: Value, path: Path, f: OnSecret, g: OnSecret, h: OnSecret)
    requires Fuses(f, g, h) && MapSecrets(v, path, f).Ok?
    ensures MapSecrets(MapSecrets(v, path, f).value, path, g) == MapSecrets(v, path, h)
    decreases v
  {
    match v
    case Object(fields) => FuseFields(fields, path, f, g, h);
    case Array(items) => FuseItems(items, path, f, g, h);
    case _ =>
  }

  lemma {:induction false} FuseFields(fields: seq<Field>, path: Path, f: OnSecret, g: OnSecret, h: OnSecret)
    requires Fuses(f, g, h) && MapFields(fields, path, f).Ok?
    ensures MapFields(MapFields(fields, path, f).value, path, g) == MapFields(fields, path, h)
    decreases fields
  {
    if fields != [] {
      var n := |fields| - 1;
      FuseFields(fields[..n], path, f, g, h);
      var out := MapFields(fields, path, f).value;
      assert out[..|out| - 1] == MapFields(fields[..n], path, f).value;
      if !IsSecretKey(fields[n].key) {
        FuseTree(fields[n].value, path + [Key(fields[n].key)], f, g, h);
      }
    }
  }

  lemma {:induction false} FuseItems(items: seq<Value>, path: Path, f: OnSecret, g: OnSecret, h: OnSecret)
    requires Fuses(f, g, h) && MapItems(items, path, f).Ok?
    ensures MapItems(MapItems(items, path, f).value, path, g) == MapItems(items, path, h)
    ensures |MapItems(items, path, f).value| == |items|
    decreases items
  {
    if items != [] {
      var n := |items| - 1;
      FuseItems(items[..n], path, f, g, h);
      var out := MapItems(items, path, f).value;
      assert out[..|out| - 1] == MapItems(items[..n], path, f).value;
      FuseTree(items[n], path + [Index(n)], f, g, h);
    }
  }

  /** Decrypting an encrypted document is decrypting the document itself: plain secrets
      come back, already encrypted ones are opened once, and the same ones fail. */
  lemma DecryptAfterEncrypt(c: Cipher, v: Value)
    requires Lawful(c) && Encrypt(c, v).Ok?
    ensures Decrypt(c, Encrypt(c, v).value) == Decrypt(c, v)
  {
    FuseTree(v, [], SealLeaf(c), OpenLeaf(c), OpenLeaf(c));
  }

  /** Encrypting again, whatever nonces the second pass draws, changes nothing. */
  lemma EncryptTwice(c: Cipher, again: Cipher, v: Value)
    requires Lawful(c) && Encrypt(c, v).Ok?
    ensures Encrypt(again, Encrypt(c, v).value) == Encrypt(c, v)
  {
    FuseTree(v, [], SealLeaf(c), SealLeaf(again), SealLeaf(c));
  }

  /** Nothing under a secret key shows in the redacted document: any rewriting of the
      secrets, encryption included, leaves it the same. */
  lemma RedactHidesSecrets(v: Value, f: OnSecret)
    requires MapSecrets(v, [], f).Ok?
    ensures Redact(MapSecrets(v, [], f).value) == Redact(v)
  {
    FuseTree(v, [], f, RedactLeaf(), RedactLeaf());
  }

  lemma RedactAfterEncrypt(c: Cipher, v: Value)
    requires Encrypt(c, v).Ok?
    ensures Redact(Encrypt(c, v).value) == Redact(v)
  {
    RedactHidesSecrets(v, SealLeaf(c));
  }

  lemma RedactTwice(v: Value)
    ensures Redact(v).Ok? && Redact(Redact(v).value) == Redact(v)
  {
    RedactSucceeds(v, []);
    RedactHidesSecrets(v, RedactLeaf());
  }

  lemma {:induction false} RedactSucceeds(v: Value, path: Path)
    ensures MapSecrets(v, path, RedactLeaf()).Ok?
    decreases v
  {
    match v
    case Object(fields) => RedactFieldsSucceeds(fields, path);
    case Array(items) => RedactItemsSucceeds(items, path);
    case _ =>
  }

  lemma {:induction false} RedactFieldsSucceeds(fields: seq<Field>, path: Path)
    ensures MapFields(fields, path, RedactLeaf()).Ok?
    decreases fields
  {
    if fields != [] {
      RedactFieldsSucceeds(fields[..|fields| - 1], path);
      RedactSucceeds(fields[|fields| - 1].value, path + [Key(fields[|fields| - 1].key)]);
    }
  }

  lemma {:induction false} RedactItemsSucceeds(items: seq<Value>, path: Path)
    ensures MapItems(items, path, RedactLeaf()).Ok?
    decreases items
  {
    if items != [] {
      RedactItemsSucceeds(items[..|items| - 1], path);
      RedactSucceeds(items[|items| - 1], path + [Index(|items| - 1)]);
    }
  }

  // ---------------------------------------------------------------- restoring redacted secrets

  function ChildOf(existing: Option<Value>, step: Step): Option<Value> {
    if existing.None? then None else Child(existing.value, step)
  }

  /** The incoming document with its placeholders replaced by what is stored at the same
      place; an error names the key of the first placeholder with nothing stored. */
  function Preserve(v: Value, existing: Option<Value>): Result<Value, string>
    decreases v
  {
    match v
    case Object(fields) =>
      (match PreserveFields(fields, existing) case Ok(fs) => Ok(Object(fs)) case Err(e) => Err(e))
    case Array(items) =>
      (match PreserveItems(items, existing) case Ok(vs) => Ok(Array(vs)) case Err(e) => Err(e))
    case _ => Ok(v)
  }

  function PreserveField(field: Field, existing: Option<Value>): Result<Value, string>
    decreases field
  {
    var stored := ChildOf(existing, Key(field.key));
    if IsSecretKey(field.key) then
      if field.value != String(REDACTED_SECRET) then Ok(field.value)
      else if stored.Some? then Ok(stored.value)
      else Err(field.key)
    else Preserve(field.value, stored)
  }

  function PreserveFields(fields: seq<Field>, existing: Option<Value>): Result<seq<Field>, string>
    decreases fields
  {
    if fields == [] then Ok([])
    else
      var last := fields[|fields| - 1];
      match PreserveFields(fields[..|fields| - 1], existing)
      case Err(e) => Err(e)
      case Ok(done) =>
        match PreserveField(last, existing)
        case Err(e) => Err(e)
        case Ok(v) => Ok(done + [Field(last.key, v)])
  }

  function PreserveItems(items: seq<Value>, existing: Option<Value>): Result<seq<Value>, string>
    decreases items
  {
    if items == [] then Ok([])
    else
      var n := |items| - 1;
      match PreserveItems(items[..n], existing)
      case Err(e) => Err(e)
      case Ok(done) =>
        match Preserve(items[n], ChildOf(existing, Index(n)))
        case Err(e) => Err(e)
        case Ok(v) => Ok(done + [v])
  }

  /** Field by field reading of PreserveFields. */
  lemma {:induction false} PreservedFields(fields: seq<Field>, existing: Option<Value>)
    ensures var r := PreserveFields(fields, existing);
            && (r.Ok? <==> forall i :: 0 <= i < |fields| ==> PreserveField(fields[i], existing).Ok?)
            && (r.Ok? ==>
                  && |r.value| == |fields|
                  && forall i :: 0 <= i < |fields| ==>
                       r.value[i].key == fields[i].key && PreserveField(fields[i], existing) == Ok(r.value[i].value))
  {
    if fields != [] {
      var n := |fields| - 1;
      PreservedFields(fields[..n], existing);
      assert forall i :: 0 <= i < n ==> fields[..n][i] == fields[i];
    }
  }

  lemma {:induction false} PreservedItems(items: seq<Value>, existing: Option<Value>)
    ensures var r := PreserveItems(items, existing);
            && (r.Ok? <==> forall i :: 0 <= i < |items| ==> Preserve(items[i], ChildOf(existing, Index(i))).Ok?)
            && (r.Ok? ==>
                  && |r.value| == |items|
                  && forall i :: 0 <= i < |items| ==>
                       Preserve(items[i], ChildOf(existing, Index(i))) == Ok(r.value[i]))
  {
    if items != [] {
      var n := |items| - 1;
      PreservedItems(items[..n], existing);
      assert forall i :: 0 <= i < n ==> items[..n][i] == items[i];
    }
  }

  /** `path` leads, through non-secret keys and array positions only, to a placeholder
      under a secret key. */
  predicate PlaceholderAt(v: Value, path: Path)
    decreases |path|
  {
    && path != []
    && var child := Child(v, path[0]);
       && child.Some?
       && if path[0].Key? && IsSecretKey(path[0].name)
          then |path| == 1 && child.value == String(REDACTED_SECRET)
          else PlaceholderAt(child.value, path[1..])
  }

  /** A document's own layer: the scalar itself, or the keys, or the length. */
  datatype Shape = Scalar(v: Value) | ObjectWith(keys: seq<string>) | ArrayOf(length: nat)

  function ShapeOf(v: Value): Shape {
    match v
    case Object(fields) => ObjectWith(seq(|fields|, i requires 0 <= i < |fields| => fields[i].key))
    case Array(items) => ArrayOf(|items|)
    case _ => Scalar(v)
  }

  function ShapeAt(v: Value, path: Path): Option<Shape> {
    match At(Some(v), path) case Some(x) => Some(ShapeOf(x)) case None => None
  }

  predicate UnderPlaceholder(v: Value, path: Path) {
    exists k :: 0 <= k <= |path| && PlaceholderAt(v, path[..k])
  }

  /** What restoring `v` to `r` does to the child at one step. */
  ghost predicate ChildKept(v: Value, existing: Option<Value>, step: Step, r: Value) {
    match Child(v, step)
    case None => Child(r, step).None?
    case Some(child) =>
      var stored := ChildOf(existing, step);
      && Child(r, step).Some?
      && if step.Key? && IsSecretKey(step.name) then
           if child == String(REDACTED_SECRET) then stored.Some? && Child(r, step) == stored
           else Child(r, step).value == child
         else Preserve(child, stored) == Ok(Child(r, step).value)
  }

  lemma PreservedKey(fields: seq<Field>, existing: Option<Value>, name: string)
    requires DistinctKeys(fields) && PreserveFields(fields, existing).Ok?
    ensures ChildKept(Object(fields), existing, Key(name), Object(PreserveFields(fields, existing).value))
  {
    PreservedFields(fields, existing);
    var kept := PreserveFields(fields, existing).value;
    LookupNeedsKey(fields, name);
    LookupNeedsKey(kept, name);
    if Lookup(fields, name).Some? {
      var i := LookupIsAField(fields, name);
      LookupFindsField(kept, i);
    }
  }

  lemma PreservedIndex(items: seq<Value>, existing: Option<Value>, i: nat)
    requires PreserveItems(items, existing).Ok?
    ensures ChildKept(Array(items), existing, Index(i), Array(PreserveItems(items, existing).value))
  {
    PreservedItems(items, existing);
  }

  lemma PreservedShape(v: Value, existing: Option<Value>)
    requires Preserve(v, existing).Ok?
    ensures ShapeOf(Preserve(v, existing).value) == ShapeOf(v)
  {
    match v
    case Object(fields) => PreservedFields(fields, existing);
    case Array(items) => PreservedItems(items, existing);
    case _ =>
  }

  lemma ChildWellFormed(v: Value, step: Step)
    requires WellFormed(v) && Child(v, step).Some?
    ensures WellFormed(Child(v, step).value)
  {
    if step.Key? {
      var i := LookupIsAField(v.fields, step.name);
      assert WellFormed(v.fields[i].value);
    }
  }

  /** The child of a preserved document at one step. */
  lemma PreservedChild(v: Value, existing: Option<Value>, step: Step)
    requires WellFormed(v) && Preserve(v, existing).Ok?
    ensures ChildKept(v, existing, step, Preserve(v, existing).value)
  {
    match v
    case Object(fields) => if step.Key? { PreservedKey(fields, existing, step.name); }
    case Array(items) => if step.Index? { PreservedIndex(items, existing, step.i); }
    case _ =>
  }

  /** At a placeholder the preserved document holds exactly what is stored there, which
      exists; at a path that meets no placeholder it looks like the incoming document. */
  lemma {:induction false} PreserveAtPath(v: Value, existing: Option<Value>, path: Path)
    requires WellFormed(v) && Preserve(v, existing).Ok?
    ensures var r := Preserve(v, existing).value;
            && (PlaceholderAt(v, path) ==>
                  At(existing, path).Some? && At(Some(r), path) == At(existing, path))
            && (!UnderPlaceholder(v, path) ==> ShapeAt(r, path) == ShapeAt(v, path))
    decreases |path|
  {
    var r := Preserve(v, existing).value;
    if path == [] {
      PreservedShape(v, existing);
    } else {
      var step := path[0];
      PreservedChild(v, existing, step);
      var child := Child(v, step);
      if child.Some? {
        ChildWellFormed(v, step);
        if step.Key? && IsSecretKey(step.name) {
          assert path[..1][1..] == [];
          assert |path| == 1 ==> path[1..] == [];
          if child.value == String(REDACTED_SECRET) {
            assert PlaceholderAt(v, path[..1]);
          }
        } else {
          PreserveAtPath(child.value, ChildOf(existing, step), path[1..]);
          if UnderPlaceholder(child.value, path[1..]) {
            var k :| 0 <= k <= |path[1..]| && PlaceholderAt(child.value, path[1..][..k]);
            assert path[..k + 1][1..] == path[1..][..k];
            assert PlaceholderAt(v, path[..k + 1]);
          }
        }
      }
    }
  }

  /** When restoring fails, some placeholder has nothing stored at its path. */
  lemma {:induction false} PreserveFailureWitness(v: Value, existing: Option<Value>) returns (path: Path)
    requires WellFormed(v) && Preserve(v, existing).Err?
    ensures PlaceholderAt(v, path) && At(existing, path).None?
    decreases v
  {
    match v
    case Object(fields) =>
      PreservedFields(fields, existing);
      var i :| 0 <= i < |fields| && PreserveField(fields[i], existing).Err?;
      var step := Key(fields[i].key);
      LookupFindsField(fields, i);
      if IsSecretKey(fields[i].key) {
        path := [step];
        assert path[1..] == [];
      } else {
        var rest := PreserveFailureWitness(fields[i].value, ChildOf(existing, step));
        path := [step] + rest;
        assert path[1..] == rest;
      }
    case Array(items) =>
      PreservedItems(items, existing);
      var i :| 0 <= i < |items| && Preserve(items[i], ChildOf(existing, Index(i))).Err?;
      var rest := PreserveFailureWitness(items[i], ChildOf(existing, Index(i)));
      path := [Index(i)] + rest;
      assert path[1..] == rest;
  }

  /** Restoring succeeds exactly when every placeholder path exists in the stored tree;
      then it takes the stored value at exactly those paths and keeps every other one. */
  lemma PreserveExactly(v: Value, existing: Option<Value>)
    requires WellFormed(v)
    ensures Preserve(v, existing).Ok? <==>
              forall path :: PlaceholderAt(v, path) ==> At(existing, path).Some?
    ensures Preserve(v, existing).Ok? ==>
              var r := Preserve(v, existing).value;
              && (forall path :: PlaceholderAt(v, path) ==> At(Some(r), path) == At(existing, path))
              && (forall path :: !UnderPlaceholder(v, path) ==> ShapeAt(r, path) == ShapeAt(v, path))
  {
    if Preserve(v, existing).Ok? {
      forall path: Path
        ensures PlaceholderAt(v, path) ==> At(existing, path).Some?
        ensures PlaceholderAt(v, path) ==> At(Some(Preserve(v, existing).value), path) == At(existing, path)
        ensures !UnderPlaceholder(v, path) ==> ShapeAt(Preserve(v, existing).value, path) == ShapeAt(v, path)
      {
        PreserveAtPath(v, existing, path);
      }
    } else {
      var path := PreserveFailureWitness(v, existing);
    }
  }

  // ---------------------------------------------------------------- saving back what was shown

  lemma {:induction false} RestoreTree(v: Value, path: Path)
    requires WellFormed(v)
    ensures MapSecrets(v, path, RedactLeaf()).Ok?
    ensures Preserve(MapSecrets(v, path, RedactLeaf()).value, Some(v)) == Ok(v)
    decreases v
  {
    match v
    case Object(fields) => RestoreFields(v, |fields|, path); assert fields[..|fields|] == fields;
    case Array(items) => RestoreItems(v, |items|, path); assert items[..|items|] == items;
    case _ =>
  }

  /** The first `n` fields, shown and restored, are what they were. */
  ghost predicate FieldsRestored(v: Value, n: nat, path: Path)
    requires v.Object? && n <= |v.fields|
  {
    var shown := MapFields(v.fields[..n], path, RedactLeaf());
    shown.Ok? && PreserveFields(shown.value, Some(v)) == Ok(v.fields[..n])
  }

  lemma RestoreField(v: Value, n: nat, path: Path)
    requires v.Object? && n < |v.fields| && WellFormed(v)
    requires var shown := MapSecrets(v.fields[n].value, path + [Key(v.fields[n].key)], RedactLeaf());
             shown.Ok? && Preserve(shown.value, Some(v.fields[n].value)) == Ok(v.fields[n].value)
    ensures var shown := MapField(v.fields[n], path, RedactLeaf());
            shown.Ok? && PreserveField(Field(v.fields[n].key, shown.value), Some(v)) == Ok(v.fields[n].value)
  {
    LookupFindsField(v.fields, n);
  }

  lemma RestoreNextField(v: Value, n: nat, path: Path)
    requires v.Object? && n < |v.fields| && FieldsRestored(v, n, path)
    requires var shown := MapField(v.fields[n], path, RedactLeaf());
             shown.Ok? && PreserveField(Field(v.fields[n].key, shown.value), Some(v)) == Ok(v.fields[n].value)
    ensures FieldsRestored(v, n + 1, path)
  {
    var field := v.fields[n];
    assert v.fields[..n + 1] == v.fields[..n] + [field] && v.fields[..n + 1][..n] == v.fields[..n];
    var done := MapFields(v.fields[..n], path, RedactLeaf()).value;
    var next := Field(field.key, MapField(field, path, RedactLeaf()).value);
    assert MapFields(v.fields[..n + 1], path, RedactLeaf()) == Ok(done + [next]);
    assert (done + [next])[..|done|] == done;
  }

  lemma {:induction false} RestoreFields(v: Value, n: nat, path: Path)
    requires v.Object? && n <= |v.fields| && WellFormed(v)
    ensures FieldsRestored(v, n, path)
    decreases v, n
  {
    if n > 0 {
      var field := v.fields[n - 1];
      RestoreFields(v, n - 1, path);
      RestoreTree(field.value, path + [Key(field.key)]);
      RestoreField(v, n - 1, path);
      RestoreNextField(v, n - 1, path);
    }
  }

  /** The first `n` items, shown and restored, are what they were. */
  ghost predicate ItemsRestored(v: Value, n: nat, path: Path)
    requires v.Array? && n <= |v.items|
  {
    var shown := MapItems(v.items[..n], path, RedactLeaf());
    shown.Ok? && |shown.value| == n && PreserveItems(shown.value, Some(v)) == Ok(v.items[..n])
  }

  lemma RestoreNextItem(v: Value, n: nat, path: Path)
    requires v.Array? && n < |v.items| && ItemsRestored(v, n, path)
    requires var shown := MapSecrets(v.items[n], path + [Index(n)], RedactLeaf());
             shown.Ok? && Preserve(shown.value, Some(v.items[n])) == Ok(v.items[n])
    ensures ItemsRestored(v, n + 1, path)
  {
    assert v.items[..n + 1] == v.items[..n] + [v.items[n]] && v.items[..n + 1][..n] == v.items[..n];
    var done := MapItems(v.items[..n], path, RedactLeaf()).value;
    var next := MapSecrets(v.items[n], path + [Index(n)], RedactLeaf()).value;
    assert MapItems(v.items[..n + 1], path, RedactLeaf()) == Ok(done + [next]);
    assert (done + [next])[..n] == done;
  }

  lemma {:induction false} RestoreItems(v: Value, n: nat, path: Path)
    requires v.Array? && n <= |v.items| && WellFormed(v)
    ensures ItemsRestored(v, n, path)
    decreases v, n
  {
    if n > 0 {
      RestoreItems(v, n - 1, path);
      RestoreTree(v.items[n - 1], path + [Index(n - 1)]);
      RestoreNextItem(v, n - 1, path);
    }
  }

  /** Saving back what was shown stores what was stored: for every tree encryption ever
      produced, and whatever nonces the save draws. */
  lemma SavingWhatWasShownChangesNothing(c: Cipher, again: Cipher, v: Value, stored: Value)
    requires Lawful(c) && Encrypt(c, v) == Ok(stored) && WellFormed(stored)
    ensures Redact(stored).Ok?
    ensures Preserve(Redact(stored).value, Some(stored)) == Ok(stored)
    ensures Encrypt(again, Preserve(Redact(stored).value, Some(stored)).value) == Ok(stored)
  {
    RestoreTree(stored, []);
    EncryptTwice(c, again, v);
  }
}
