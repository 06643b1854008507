/** What encrypting, decrypting and redacting do to a document, path by path.

    A secret sits at a path that leads through array positions and keys that are not secret
    to a key that is. The laws here speak of the value at such a path and of the shape of
    the document everywhere else, not of how the document is walked.
  */
module SecretPaths {
  import opened Common
  import opened Json
  import opened Secrets

  /** `path` ends at the first secret key on its way. */
  predicate SecretAt(v: Value, path: Path)
    decreases |path|
  {
    && path != []
    && Child(v, path[0]).Some?
    && if path[0].Key? && IsSecretKey(path[0].name) then |path| == 1
       else SecretAt(Child(v, path[0]).value, path[1..])
  }

  /** `path` meets a secret key, at its end or before. */
  ghost predicate MeetsSecret(v: Value, path: Path) {
    exists k :: 0 <= k <= |path| && SecretAt(v, path[..k])
  }

  // ---------------------------------------------------------------- which keys

  predicate SameLetter(a: char, b: char) {
    || a == b
    || ('A' <= a <= 'Z' && b as int == a as int + 32)
    || ('A' <= b <= 'Z' && a as int == b as int + 32)
  }

  /** Equal but for the case of ASCII letters. */
  predicate SameIgnoringCase(a: string, b: string) {
    |a| == |b| && forall i :: 0 <= i < |a| ==> SameLetter(a[i], b[i])
  }

  lemma LowercaseMatches(key: string, name: string)
    requires forall i :: 0 <= i < |name| ==> !('A' <= name[i] <= 'Z')
    ensures AsciiLowercase(key) == name <==> SameIgnoringCase(key, name)
  {
    forall i | 0 <= i < |key| && i < |name| ensures AsciiLower(key[i]) == name[i] <==> SameLetter(key[i], name[i]) {
    }
    if SameIgnoringCase(key, name) {
      assert forall i :: 0 <= i < |key| ==> AsciiLowercase(key)[i] == name[i];
    }
  }

  /** The secret keys are these twelve, in any mix of cases. */
  lemma SecretKeysExactly(key: string)
    ensures IsSecretKey(key) <==>
              || SameIgnoringCase(key, "personal_access_token") || SameIgnoringCase(key, "pat")
              || SameIgnoringCase(key, "token") || SameIgnoringCase(key, "password")
              || SameIgnoringCase(key, "secret") || SameIgnoringCase(key, "client_secret")
              || SameIgnoringCase(key, "api_key") || SameIgnoringCase(key, "x-api-key")
              || SameIgnoringCase(key, "bearer_token") || SameIgnoringCase(key, "access_token")
              || SameIgnoringCase(key, "refresh_token") || SameIgnoringCase(key, "authorization")
  {
    LowercaseMatches(key, "personal_access_token");
    LowercaseMatches(key, "pat");
    LowercaseMatches(key, "token");
    LowercaseMatches(key, "password");
    LowercaseMatches(key, "secret");
    LowercaseMatches(key, "client_secret");
    LowercaseMatches(key, "api_key");
    LowercaseMatches(key, "x-api-key");
    LowercaseMatches(key, "bearer_token");
    LowercaseMatches(key, "access_token");
    LowercaseMatches(key, "refresh_token");
    LowercaseMatches(key, "authorization");
  }

  // ---------------------------------------------------------------- one step

  lemma {:induction false} MappedFields(fields: seq<Field>, base: Path, f: OnSecret)
    ensures var r := MapFields(fields, base, f);
            && (r.Ok? <==> forall i :: 0 <= i < |fields| ==> MapField(fields[i], base, f).Ok?)
            && (r.Ok? ==>
                  && |r.value| == |fields|
                  && forall i :: 0 <= i < |fields| ==>
                       r.value[i].key == fields[i].key && MapField(fields[i], base, f) == Ok(r.value[i].value))
  {
    if fields != [] {
      var n := |fields| - 1;
      MappedFields(fields[..n], base, f);
      assert forall i :: 0 <= i < n ==> fields[..n][i] == fields[i];
    }
  }

  lemma {:induction false} MappedItems(items: seq<Value>, base: Path, f: OnSecret)
    ensures var r := MapItems(items, base, f);
            && (r.Ok? <==> forall i :: 0 <= i < |items| ==> MapSecrets(items[i], base + [Index(i)], f).Ok?)
            && (r.Ok? ==>
                  && |r.value| == |items|
                  && forall i :: 0 <= i < |items| ==> MapSecrets(items[i], base + [Index(i)], f) == Ok(r.value[i]))
  {
    if items != [] {
      var n := |items| - 1;
      MappedItems(items[..n], base, f);
      assert forall i :: 0 <= i < n ==> items[..n][i] == items[i];
    }
  }

  /** What the walk makes of the child at one step. */
  ghost predicate ChildMapped(v: Value, base: Path, f: OnSecret, step: Step, r: Value) {
    match Child(v, step)
    case None => Child(r, step).None?
    case Some(child) =>
      && Child(r, step).Some?
      && (if step.Key? && IsSecretKey(step.name) then f(child, base + [step]) else MapSecrets(child, base + [step], f))
         == Ok(Child(r, step).value)
  }

  lemma MappedKey(fields: seq<Field>, base: Path, f: OnSecret, name: string)
    requires DistinctKeys(fields) && MapFields(fields, base, f).Ok?
    ensures ChildMapped(Object(fields), base, f, Key(name), Object(MapFields(fields, base, f).value))
  {
    MappedFields(fields, base, f);
    var r := MapFields(fields, base, f).value;
    LookupNeedsKey(fields, name);
    LookupNeedsKey(r, name);
    if Lookup(fields, name).Some? {
      var i := LookupIsAField(fields, name);
      LookupFindsField(r, i);
    }
  }

  lemma MappedChild(v: Value, base: Path, f: OnSecret, step: Step)
    requires WellFormed(v) && MapSecrets(v, base, f).Ok?
    ensures ChildMapped(v, base, f, step, MapSecrets(v, base, f).value)
  {
    match v
    case Object(fields) => if step.Key? { MappedKey(fields, base, f, step.name); }
    case Array(items) => MappedItems(items, base, f);
    case _ =>
  }

  lemma MappedShape(v: Value, base: Path, f: OnSecret)
    requires MapSecrets(v, base, f).Ok?
    ensures ShapeOf(MapSecrets(v, base, f).value) == ShapeOf(v)
  {
    match v
    case Object(fields) => MappedFields(fields, base, f);
    case Array(items) => MappedItems(items, base, f);
    case _ =>
  }

  // ---------------------------------------------------------------- every path

  /** At the end of a secret path the walk has replaced the value by what `f` makes of it. */
  lemma {:induction false} MappedSecret(v: Value, base: Path, f: OnSecret, path: Path)
    requires WellFormed(v) && MapSecrets(v, base, f).Ok? && SecretAt(v, path)
    ensures var r := MapSecrets(v, base, f).value;
            && At(Some(v), path).Some? && SecretAt(r, path)
            && At(Some(r), path).Some? && f(At(Some(v), path).value, base + path) == Ok(At(Some(r), path).value)
    decreases |path|
  {
    var step, rest := path[0], path[1..];
    MappedChild(v, base, f, step);
    if step.Key? && IsSecretKey(step.name) {
      assert rest == [] && path == [step];
    } else {
      ChildWellFormed(v, step);
      assert base + path == base + [step] + rest;
      MappedSecret(Child(v, step).value, base + [step], f, rest);
    }
  }

  /** Away from secrets the walk keeps the shape, and it adds no secret. */
  lemma {:induction false} MappedElsewhere(v: Value, base: Path, f: OnSecret, path: Path)
    requires WellFormed(v) && MapSecrets(v, base, f).Ok?
    ensures var r := MapSecrets(v, base, f).value;
            && (SecretAt(r, path) ==> SecretAt(v, path))
            && (!MeetsSecret(v, path) ==> ShapeAt(r, path) == ShapeAt(v, path))
    decreases |path|
  {
    var r := MapSecrets(v, base, f).value;
    if path == [] {
      MappedShape(v, base, f);
    } else {
      var step, rest := path[0], path[1..];
      MappedChild(v, base, f, step);
      if Child(v, step).Some? {
        if step.Key? && IsSecretKey(step.name) {
          assert path[..1][1..] == [] && SecretAt(v, path[..1]);
        } else {
          ChildWellFormed(v, step);
          MappedElsewhere(Child(v, step).value, base + [step], f, rest);
          MeetsLater(v, path);
        }
      }
    }
  }

  lemma MeetsLater(v: Value, path: Path)
    requires path != [] && Child(v, path[0]).Some? && !(path[0].Key? && IsSecretKey(path[0].name))
    ensures MeetsSecret(Child(v, path[0]).value, path[1..]) ==> MeetsSecret(v, path)
  {
    if MeetsSecret(Child(v, path[0]).value, path[1..]) {
      var k :| 0 <= k <= |path[1..]| && SecretAt(Child(v, path[0]).value, path[1..][..k]);
      assert path[..k + 1][1..] == path[1..][..k];
      assert SecretAt(v, path[..k + 1]);
    }
  }

  /** When the walk fails, `f` fails on some secret. */
  lemma {:induction false} FailingSecret(v: Value, base: Path, f: OnSecret) returns (path: Path)
    requires WellFormed(v) && MapSecrets(v, base, f).Err?
    ensures SecretAt(v, path) && At(Some(v), path).Some? && f(At(Some(v), path).value, base + path).Err?
    decreases v
  {
    match v
    case Object(fields) =>
      MappedFields(fields, base, f);
      var i :| 0 <= i < |fields| && MapField(fields[i], base, f).Err?;
      var step := Key(fields[i].key);
      LookupFindsField(fields, i);
      if IsSecretKey(fields[i].key) {
        path := [step];
        assert path[1..] == [];
      } else {
        var rest := FailingSecret(fields[i].value, base + [step], f);
        path := [step] + rest;
        assert path[1..] == rest && base + path == base + [step] + rest;
      }
    case Array(items) =>
      MappedItems(items, base, f);
      var i :| 0 <= i < |items| && MapSecrets(items[i], base + [Index(i)], f).Err?;
      var rest := FailingSecret(items[i], base + [Index(i)], f);
      path := [Index(i)] + rest;
      assert path[1..] == rest && base + path == base + [Index(i)] + rest;
  }

  // ---------------------------------------------------------------- encryption

  /** A string that has to be sealed. */
  predicate Plain(v: Value) {
    v.String? && v.s != "" && !(ENCRYPTED_PREFIX <= v.s)
  }

  /** After encryption every plain secret is sealed, by a string that opens to it; any other
      value under a secret key, and the shape of everything else, is as before. */
  lemma EncryptedAt(c: Cipher, v: Value, path: Path)
    requires Lawful(c) && WellFormed(v) && Encrypt(c, v).Ok?
    ensures var e := Encrypt(c, v).value;
            && (SecretAt(v, path) ==>
                  && At(Some(v), path).Some? && At(Some(e), path).Some?
                  && var was, now := At(Some(v), path).value, At(Some(e), path).value;
                     if Plain(was) then now.String? && ENCRYPTED_PREFIX <= now.s && c.open(now.s) == Ok(was.s)
                     else now == was)
            && (!MeetsSecret(v, path) ==> ShapeAt(e, path) == ShapeAt(v, path))
  {
    MappedElsewhere(v, [], SealLeaf(c), path);
    if SecretAt(v, path) {
      MappedSecret(v, [], SealLeaf(c), path);
    }
  }

  /** No encrypted document holds a plain secret. */
  lemma NothingPlainIsStored(c: Cipher, v: Value, path: Path)
    requires Lawful(c) && WellFormed(v) && Encrypt(c, v).Ok?
    ensures var e := Encrypt(c, v).value;
            SecretAt(e, path) ==> At(Some(e), path).Some? && !Plain(At(Some(e), path).value)
  {
    MappedElsewhere(v, [], SealLeaf(c), path);
    EncryptedAt(c, v, path);
  }

  /** Encryption fails exactly when the cipher fails on some plain secret. */
  lemma EncryptFailsExactly(c: Cipher, v: Value)
    requires WellFormed(v)
    ensures Encrypt(c, v).Err? <==>
              exists path :: SecretAt(v, path) && At(Some(v), path).Some? && Plain(At(Some(v), path).value)
                             && c.seal(At(Some(v), path).value.s, path).Err?
  {
    if Encrypt(c, v).Err? {
      var path := FailingSecret(v, [], SealLeaf(c));
      assert [] + path == path;
    } else {
      forall path | SecretAt(v, path)
        ensures At(Some(v), path).Some?
        ensures !(Plain(At(Some(v), path).value) && c.seal(At(Some(v), path).value.s, path).Err?)
      {
        MappedSecret(v, [], SealLeaf(c), path);
        assert [] + path == path;
      }
    }
  }

  // ---------------------------------------------------------------- decryption and redaction

  predicate Sealed(v: Value) {
    v.String? && ENCRYPTED_PREFIX <= v.s
  }

  /** After decryption every sealed secret is what it opens to; the rest is as before. */
  lemma DecryptedAt(c: Cipher, v: Value, path: Path)
    requires WellFormed(v) && Decrypt(c, v).Ok?
    ensures var d := Decrypt(c, v).value;
            && (SecretAt(v, path) ==>
                  && At(Some(v), path).Some? && At(Some(d), path).Some?
                  && var was, now := At(Some(v), path).value, At(Some(d), path).value;
                     if Sealed(was) then now.String? && c.open(was.s) == Ok(now.s) else now == was)
            && (!MeetsSecret(v, path) ==> ShapeAt(d, path) == ShapeAt(v, path))
  {
    MappedElsewhere(v, [], OpenLeaf(c), path);
    if SecretAt(v, path) {
      MappedSecret(v, [], OpenLeaf(c), path);
    }
  }

  /** Decryption fails exactly when some sealed secret does not open. */
  lemma DecryptFailsExactly(c: Cipher, v: Value)
    requires WellFormed(v)
    ensures Decrypt(c, v).Err? <==>
              exists path :: SecretAt(v, path) && At(Some(v), path).Some? && Sealed(At(Some(v), path).value)
                             && c.open(At(Some(v), path).value.s).Err?
  {
    if Decrypt(c, v).Err? {
      var path := FailingSecret(v, [], OpenLeaf(c));
    } else {
      forall path | SecretAt(v, path)
        ensures At(Some(v), path).Some?
        ensures !(Sealed(At(Some(v), path).value) && c.open(At(Some(v), path).value.s).Err?)
      {
        MappedSecret(v, [], OpenLeaf(c), path);
      }
    }
  }

  /** After redaction every secret, of whatever kind, is the placeholder; the rest is as
      before. */
  lemma RedactedAt(v: Value, path: Path)
    requires WellFormed(v)
    ensures Redact(v).Ok?
    ensures var r := Redact(v).value;
            && (SecretAt(v, path) ==> At(Some(r), path) == Some(String("***redacted***")))
            && (!MeetsSecret(v, path) ==> ShapeAt(r, path) == ShapeAt(v, path))
  {
    RedactSucceeds(v, []);
    MappedElsewhere(v, [], RedactLeaf(), path);
    if SecretAt(v, path) {
      MappedSecret(v, [], RedactLeaf(), path);
    }
  }

  // ---------------------------------------------------------------- the round trip

  /** `f` would change no secret of the document. */
  ghost predicate LeavesSecrets(v: Value, base: Path, f: OnSecret) {
    forall path :: SecretAt(v, path) ==> At(Some(v), path).Some? && f(At(Some(v), path).value, base + path) == Ok(At(Some(v), path).value)
  }

  lemma LeavesChild(v: Value, base: Path, f: OnSecret, step: Step)
    requires LeavesSecrets(v, base, f) && Child(v, step).Some? && !(step.Key? && IsSecretKey(step.name))
    ensures LeavesSecrets(Child(v, step).value, base + [step], f)
  {
    var child := Child(v, step).value;
    forall path | SecretAt(child, path)
      ensures At(Some(child), path).Some? && f(At(Some(child), path).value, base + [step] + path) == Ok(At(Some(child), path).value)
    {
      var whole := [step] + path;
      assert whole[1..] == path && SecretAt(v, whole);
      assert base + whole == base + [step] + path;
    }
  }

  lemma LeavesSecretChild(v: Value, base: Path, f: OnSecret, step: Step)
    requires LeavesSecrets(v, base, f) && Child(v, step).Some? && step.Key? && IsSecretKey(step.name)
    ensures f(Child(v, step).value, base + [step]) == Ok(Child(v, step).value)
  {
    var whole := [step];
    assert whole[1..] == [] && SecretAt(v, whole);
    assert At(Some(v), whole) == At(Child(v, step), []) == Child(v, step);
  }

  lemma {:induction false} WalkLeaves(v: Value, base: Path, f: OnSecret)
    requires WellFormed(v) && LeavesSecrets(v, base, f)
    ensures MapSecrets(v, base, f) == Ok(v)
    decreases v
  {
    match v
    case Object(fields) =>
      forall i | 0 <= i < |fields| ensures MapField(fields[i], base, f) == Ok(fields[i].value) {
        var step := Key(fields[i].key);
        LookupFindsField(fields, i);
        if IsSecretKey(fields[i].key) {
          LeavesSecretChild(v, base, f, step);
        } else {
          LeavesChild(v, base, f, step);
          WalkLeaves(fields[i].value, base + [step], f);
        }
      }
      MappedFields(fields, base, f);
      assert MapFields(fields, base, f).value == fields;
    case Array(items) =>
      forall i | 0 <= i < |items| ensures MapSecrets(items[i], base + [Index(i)], f) == Ok(items[i]) {
        LeavesChild(v, base, f, Index(i));
        WalkLeaves(items[i], base + [Index(i)], f);
      }
      MappedItems(items, base, f);
      assert MapItems(items, base, f).value == items;
    case _ =>
  }

  /** Decrypting what was encrypted gives back every document that held no sealed secret. */
  lemma RoundTrip(c: Cipher, v: Value)
    requires Lawful(c) && WellFormed(v) && Encrypt(c, v).Ok?
    requires forall path :: SecretAt(v, path) ==> At(Some(v), path).Some? && !Sealed(At(Some(v), path).value)
    ensures Decrypt(c, Encrypt(c, v).value) == Ok(v)
  {
    DecryptAfterEncrypt(c, v);
    WalkLeaves(v, [], OpenLeaf(c));
  }
}
