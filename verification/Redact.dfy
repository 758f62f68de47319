/** The JSON redaction of src/cli/redact.rs. `redact` stands for `redact_secrets`. An object is the
    sequence of its entries in iteration order, with distinct keys. */
module Redact {
  datatype Json =
    | Null
    | Bool(b: bool)
    | Number(n: real)
    | String(text: string)
    | Array(items: seq<Json>)
    | Object(fields: seq<Field>)

  datatype Field = Field(key: string, value: Json)

  const MARKER := "[REDACTED]"

  const SECRET_KEYS: set<string> := {
    "api_key", "apikey", "x_api_key", "authorization", "access_token", "refresh_token", "password", "secret", "client_secret" }

  function NormaliseChar(c: char): char {
    if c == '-' then '_' else if 'A' <= c <= 'Z' then c + 32 as char else c
  }

  /** `to_ascii_lowercase().replace('-', "_")` */
  function NormaliseKey(key: string): string { seq(|key|, i requires 0 <= i < |key| => NormaliseChar(key[i])) }

  predicate IsSecretKey(key: string) { NormaliseKey(key) in SECRET_KEYS }

  // ---- unique keys

  function Digits(n: nat): (d: string)
    ensures |d| >= 1 && (|d| == 1 <==> n < 10)
  {
    if n < 10 then ['0' + n as char] else Digits(n / 10) + ['0' + (n % 10) as char]
  }

  lemma {:induction false} DigitsInjective(m: nat, n: nat)
    requires Digits(m) == Digits(n)
    ensures m == n
    decreases m
  {
    var d, e := Digits(m), Digits(n);
    assert d[|d| - 1] == e[|e| - 1];
    if m >= 10 {
      assert Digits(m / 10) == d[..|d| - 1] && Digits(n / 10) == e[..|e| - 1];
      DigitsInjective(m / 10, n / 10);
    }
  }

  /** The key that is tried for a suffix; 1 stands for none. */
  function Candidate(key: string, suffix: nat): string {
    if suffix < 2 then key else key + " (" + Digits(suffix) + ")"
  }

  /** Distinct suffixes give distinct keys. */
  lemma CandidatesDiffer(key: string, m: nat, n: nat)
    requires 1 <= m < n
    ensures Candidate(key, m) != Candidate(key, n)
  {
    var c := Candidate(key, n);
    assert |c| > |key|;
    if m >= 2 {
      var a, b := Candidate(key, m), Candidate(key, n);
      if a == b {
        assert a[|key| + 2..|a| - 1] == Digits(m) && b[|key| + 2..|b| - 1] == Digits(n);
        DigitsInjective(m, n);
      }
    }
  }

  predicate IsTaken(fields: seq<Field>, key: string) { exists i | 0 <= i < |fields| :: fields[i].key == key }

  /** The key is the first candidate that none of the fields has. */
  ghost predicate IsFirstFree(fields: seq<Field>, base: string, key: string) {
    exists s: nat :: IsFirstFreeAt(fields, base, key, s)
  }

  ghost predicate IsFirstFreeAt(fields: seq<Field>, base: string, key: string, s: nat) {
    && 1 <= s && key == Candidate(base, s) && !IsTaken(fields, key)
    && forall t | 1 <= t < s :: IsTaken(fields, Candidate(base, t))
  }

  lemma {:induction false} IndexSetBound(hit: set<nat>, n: nat)
    requires forall i | i in hit :: i < n
    ensures |hit| <= n
  {
    if n == 0 {
      assert hit == {};
    } else {
      IndexSetBound(hit - {n - 1}, n - 1);
      if n - 1 in hit { assert hit == hit - {n - 1} + {n - 1}; } else { assert hit == hit - {n - 1}; }
    }
  }

  /** The fields at these positions have one of the first `n` candidates as their key. */
  ghost predicate AreHits(fields: seq<Field>, base: string, hit: set<nat>, n: nat) {
    forall i | i in hit :: i < |fields| && exists t :: 1 <= t <= n && fields[i].key == Candidate(base, t)
  }

  ghost predicate AllTaken(fields: seq<Field>, base: string, n: nat) {
    forall t | 1 <= t <= n :: IsTaken(fields, Candidate(base, t))
  }

  lemma NewHit(fields: seq<Field>, base: string, hit: set<nat>, n: nat) returns (i: nat)
    requires AreHits(fields, base, hit, n) && IsTaken(fields, Candidate(base, n + 1))
    ensures i !in hit && AreHits(fields, base, hit + {i}, n + 1) && |hit + {i}| == |hit| + 1 <= |fields|
  {
    i :| 0 <= i < |fields| && fields[i].key == Candidate(base, n + 1);
    forall t | 1 <= t <= n ensures Candidate(base, t) != fields[i].key { CandidatesDiffer(base, t, n + 1); }
    IndexSetBound(hit + {i}, |fields|);
  }

  /** The search for a free key ends because each key it finds taken is a different field's. */
  method UniqueKey(fields: seq<Field>, base: string) returns (key: string)
    ensures IsFirstFree(fields, base, key)
  {
    key := base;
    var suffix := 2;
    ghost var hit: set<nat> := {};
    while IsTaken(fields, key)
      invariant suffix >= 2 && key == Candidate(base, suffix - 1)
      invariant AllTaken(fields, base, suffix - 2)
      invariant AreHits(fields, base, hit, suffix - 2) && |hit| <= |fields|
      decreases |fields| - |hit|
    {
      ghost var i := NewHit(fields, base, hit, suffix - 2);
      hit := hit + {i};
      key := base + " (" + Digits(suffix) + ")";
      suffix := suffix + 1;
    }
    assert IsFirstFreeAt(fields, base, key, suffix - 1);
  }

  // ---- what redaction does

  /** Strings are redacted, the values of secret fields are the marker, every array keeps its length
      and every object its number of entries, however many keys the redaction makes collide. */
  ghost predicate Redacted(redact: string -> string, v: Json, v': Json)
    decreases v
  {
    match v
    case String(text) => v' == String(redact(text))
    case Array(items) =>
      v'.Array? && |v'.items| == |items| && forall i | 0 <= i < |items| :: Redacted(redact, items[i], v'.items[i])
    case Object(fields) =>
      v'.Object? && |v'.fields| == |fields| && forall i | 0 <= i < |fields| :: FieldRedacted(redact, fields[i], v'.fields, i)
    case _ => v' == v
  }

  ghost predicate FieldRedacted(redact: string -> string, f: Field, fields': seq<Field>, i: nat)
    requires i < |fields'|
    decreases f
  {
    && IsFirstFree(fields'[..i], redact(f.key), fields'[i].key)
    && if IsSecretKey(f.key) then fields'[i].value == String(MARKER) else Redacted(redact, f.value, fields'[i].value)
  }

  method RedactJson(v: Json, redact: string -> string) returns (v': Json)
    ensures Redacted(redact, v, v')
    decreases v
  {
    match v {
      case String(text) => v' := String(redact(text));
      case Array(items) =>
        var items': seq<Json> := [];
        for i := 0 to |items|
          invariant |items'| == i && forall j | 0 <= j < i :: Redacted(redact, items[j], items'[j])
        {
          var item := RedactJson(items[i], redact);
          items' := items' + [item];
        }
        v' := Array(items');
      case Object(fields) =>
        var fields': seq<Field> := [];
        for i := 0 to |fields|
          invariant |fields'| == i && forall j | 0 <= j < i :: FieldRedacted(redact, fields[j], fields', j)
        {
          var value := String(MARKER);
          if !IsSecretKey(fields[i].key) {
            value := RedactJson(fields[i].value, redact);
          }
          var key := UniqueKey(fields', redact(fields[i].key));
          ghost var before := fields';
          fields' := fields' + [Field(key, value)];
          assert fields'[..i] == before;
          forall j | 0 <= j < i ensures FieldRedacted(redact, fields[j], fields', j) {
            assert FieldRedacted(redact, fields[j], before, j) && fields'[..j] == before[..j];
          }
        }
        v' := Object(fields');
      case _ => v' := v;
    }
  }

  /** Redaction is a function of the document. */
  lemma {:induction false} RedactedIsUnique(redact: string -> string, v: Json, a: Json, b: Json)
    requires Redacted(redact, v, a) && Redacted(redact, v, b)
    ensures a == b
    decreases v
  {
    match v {
      case Array(items) =>
        forall i | 0 <= i < |items| ensures a.items[i] == b.items[i] {
          RedactedIsUnique(redact, items[i], a.items[i], b.items[i]);
        }
        assert a.items == b.items;
      case Object(fields) =>
        FieldsUnique(redact, fields, a.fields, b.fields, |fields|);
        assert a.fields[..|fields|] == a.fields && b.fields[..|fields|] == b.fields;
      case _ =>
    }
  }

  lemma {:induction false} FieldsUnique(redact: string -> string, fields: seq<Field>, a: seq<Field>, b: seq<Field>, n: nat)
    requires |a| == |b| == |fields| && n <= |fields|
    requires forall i | 0 <= i < |fields| :: FieldRedacted(redact, fields[i], a, i) && FieldRedacted(redact, fields[i], b, i)
    ensures a[..n] == b[..n]
    decreases fields, n
  {
    if n > 0 {
      var i := n - 1;
      FieldsUnique(redact, fields, a, b, i);
      assert FieldRedacted(redact, fields[i], a, i) && FieldRedacted(redact, fields[i], b, i);
      if !IsSecretKey(fields[i].key) {
        RedactedIsUnique(redact, fields[i].value, a[i].value, b[i].value);
      }
      assert a[i] == b[i] && a[..n] == a[..i] + [a[i]] && b[..n] == b[..i] + [b[i]];
    }
  }

  /** Every string value in the document is a redaction result or the marker, and every key is a
      redaction result with at most a suffix; keys stay distinct in every object. */
  ghost predicate IsSafe(redact: string -> string, v: Json)
    decreases v
  {
    match v
    case String(text) => text == MARKER || exists x :: text == redact(x)
    case Array(items) => forall i | 0 <= i < |items| :: IsSafe(redact, items[i])
    case Object(fields) =>
      && (forall i, j | 0 <= i < j < |fields| :: fields[i].key != fields[j].key)
      && (forall i | 0 <= i < |fields| :: IsSafeKey(redact, fields[i].key) && IsSafe(redact, fields[i].value))
    case _ => true
  }

  ghost predicate IsSafeKey(redact: string -> string, key: string) {
    exists x: string, s: nat :: key == Candidate(redact(x), s)
  }

  lemma {:induction false} RedactedIsSafe(redact: string -> string, v: Json, v': Json)
    requires Redacted(redact, v, v')
    ensures IsSafe(redact, v')
    decreases v
  {
    match v {
      case String(text) => assert v'.text == redact(text);
      case Array(items) =>
        forall i | 0 <= i < |items| ensures IsSafe(redact, v'.items[i]) { RedactedIsSafe(redact, items[i], v'.items[i]); }
      case Object(fields) =>
        forall i | 0 <= i < |fields| ensures IsSafeKey(redact, v'.fields[i].key) && IsSafe(redact, v'.fields[i].value) {
          FieldIsSafe(redact, fields[i], v'.fields, i);
        }
        forall i, j | 0 <= i < j < |fields| ensures v'.fields[i].key != v'.fields[j].key {
          assert FieldRedacted(redact, fields[j], v'.fields, j);
          assert v'.fields[..j][i] == v'.fields[i];
        }
      case _ =>
    }
  }

  lemma {:induction false} FieldIsSafe(redact: string -> string, f: Field, fields': seq<Field>, i: nat)
    requires i < |fields'| && FieldRedacted(redact, f, fields', i)
    ensures IsSafeKey(redact, fields'[i].key) && IsSafe(redact, fields'[i].value)
    decreases f
  {
    var s: nat :| IsFirstFreeAt(fields'[..i], redact(f.key), fields'[i].key, s);
    assert fields'[i].key == Candidate(redact(f.key), s);
    if !IsSecretKey(f.key) { RedactedIsSafe(redact, f.value, fields'[i].value); }
  }

  // ---- which fields are secret

  /** The same character up to ASCII case, or a hyphen where the name has an underscore. */
  predicate SpellsChar(c: char, d: char) {
    c == d || (c == '-' && d == '_') || ('A' <= c <= 'Z' && 'a' <= d <= 'z' && c - 'A' == d - 'a')
  }

  predicate Spells(key: string, name: string) {
    |key| == |name| && forall i | 0 <= i < |name| :: SpellsChar(key[i], name[i])
  }

  predicate IsPlainName(name: string) { forall i | 0 <= i < |name| :: 'a' <= name[i] <= 'z' || name[i] == '_' }

  lemma SpellsIff(key: string, name: string)
    requires IsPlainName(name)
    ensures NormaliseKey(key) == name <==> Spells(key, name)
  {
    if Spells(key, name) { assert NormaliseKey(key) == name; }
    if NormaliseKey(key) == name {
      forall i | 0 <= i < |name| ensures SpellsChar(key[i], name[i]) { assert NormaliseKey(key)[i] == name[i]; }
    }
  }

  lemma SecretNamesArePlain()
    ensures forall name | name in SECRET_KEYS :: IsPlainName(name)
  {
  }

  lemma SecretIff(key: string)
    ensures IsSecretKey(key) <==> exists name :: name in SECRET_KEYS && Spells(key, name)
  {
    SecretNamesArePlain();
    if IsSecretKey(key) { SpellsIff(key, NormaliseKey(key)); }
    if exists name :: name in SECRET_KEYS && Spells(key, name) {
      var name :| name in SECRET_KEYS && Spells(key, name);
      SpellsIff(key, name);
    }
  }

  /** In every object, a field whose key spells one of the listed names holds the marker, whatever it
      held before; any other field holds its value redacted. */
  lemma SecretsAreMarked(redact: string -> string, fields: seq<Field>, v': Json, i: nat)
    requires Redacted(redact, Object(fields), v') && i < |fields|
    ensures v'.Object? && |v'.fields| == |fields|
    ensures if exists name :: && Spells(fields[i].key, name)
                              && name in {"api_key", "apikey", "x_api_key", "authorization", "access_token",
                                          "refresh_token", "password", "secret", "client_secret"}
            then v'.fields[i].value == String("[REDACTED]")
            else Redacted(redact, fields[i].value, v'.fields[i].value)
  {
    SecretIff(fields[i].key);
    assert FieldRedacted(redact, fields[i], v'.fields, i);
  }

  // ---- the object as a map

  /** The entries as they are looked up, whatever order the map keeps its keys in. */
  function AsMap(fields: seq<Field>): map<string, Json> {
    if fields == [] then map[] else AsMap(fields[..|fields| - 1])[fields[|fields| - 1].key := fields[|fields| - 1].value]
  }

  ghost predicate HoldsExactly(m: map<string, Json>, fields: seq<Field>) {
    && |m| == |fields|
    && (forall i | 0 <= i < |fields| :: fields[i].key in m && m[fields[i].key] == fields[i].value)
    && (forall k | k in m :: IsTaken(fields, k))
  }

  lemma HoldsPush(m: map<string, Json>, fields: seq<Field>, f: Field)
    requires HoldsExactly(m, fields) && forall i | 0 <= i < |fields| :: fields[i].key != f.key
    ensures HoldsExactly(m[f.key := f.value], fields + [f])
  {
    var all := fields + [f];
    assert f.key !in m;
    forall k | k in m[f.key := f.value] ensures IsTaken(all, k) {
      if k == f.key {
        assert all[|fields|].key == k;
      } else {
        var i :| 0 <= i < |fields| && fields[i].key == k;
        assert all[i].key == k;
      }
    }
  }

  lemma {:induction false} MapHoldsFields(fields: seq<Field>)
    requires forall i, j | 0 <= i < j < |fields| :: fields[i].key != fields[j].key
    ensures HoldsExactly(AsMap(fields), fields)
  {
    if fields != [] {
      var n := |fields| - 1;
      MapHoldsFields(fields[..n]);
      HoldsPush(AsMap(fields[..n]), fields[..n], fields[n]);
      assert fields == fields[..n] + [fields[n]];
    }
  }

  /** However many keys the redaction makes collide, the object keeps its number of entries as a map,
      and each redacted value is found under its key. */
  lemma ObjectKeepsEntries(redact: string -> string, fields: seq<Field>, fields': seq<Field>)
    requires Redacted(redact, Object(fields), Object(fields'))
    ensures |AsMap(fields')| == |fields|
    ensures forall i | 0 <= i < |fields| :: fields'[i].key in AsMap(fields') && AsMap(fields')[fields'[i].key] == fields'[i].value
  {
    RedactedIsSafe(redact, Object(fields), Object(fields'));
    MapHoldsFields(fields');
  }
}
