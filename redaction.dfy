/**
  The credential redactor of the OpenTelemetry extension: it turns the
  request's variables into JSON for the `graphql.variables` span attribute,
  replacing the value of every credential-like key by `"<secret>"` and every
  binary value by its length.
*/
module Redaction {
  import opened Wrappers
  import opened Graphql
  import Decimal

  /** The ten keywords that make a key credential-like. */
  const CredentialKeys: seq<string> := [
    "token",
    "password",
    "secret",
    "key",
    "apiKey",
    "authToken",
    "accessToken",
    "refreshToken",
    "credential",
    "credentials"
  ]

  const SecretPlaceholder: string := "<secret>"
  const SerializeFailure: string := "failed to serialize variables"

  /** `str::contains`: `needle` starts at some position of `haystack` (case-sensitive). */
  predicate Contains(haystack: string, needle: string)
    decreases |haystack|
  {
    needle <= haystack || (|haystack| > 0 && Contains(haystack[1..], needle))
  }

  /** `needle` occurs in `haystack` starting at index `i`. */
  ghost predicate OccursAt(needle: string, haystack: string, i: int) {
    0 <= i && i + |needle| <= |haystack| && haystack[i..i + |needle|] == needle
  }

  /** Reference definition of a substring, by position. */
  ghost predicate IsSubstring(needle: string, haystack: string) {
    exists i :: OccursAt(needle, haystack, i)
  }

  /** `keys.iter().any(|k| *k == key || key.contains(k))`. */
  predicate AnyMatches(keys: seq<string>, key: string) {
    |keys| > 0 && (keys[0] == key || Contains(key, keys[0]) || AnyMatches(keys[1..], key))
  }

  /** `is_credential`. */
  predicate IsCredential(key: string) {
    AnyMatches(CredentialKeys, key)
  }

  lemma {:induction false} ContainsIsSubstring(haystack: string, needle: string)
    ensures Contains(haystack, needle) <==> IsSubstring(needle, haystack)
    decreases |haystack|
  {
    if needle <= haystack {
      assert OccursAt(needle, haystack, 0);
    } else if |haystack| > 0 {
      var tail := haystack[1..];
      ContainsIsSubstring(tail, needle);
      if IsSubstring(needle, tail) {
        var i :| OccursAt(needle, tail, i);
        var shifted, inTail := haystack[i + 1..i + 1 + |needle|], tail[i..i + |needle|];
        assert forall m :: 0 <= m < |shifted| ==> shifted[m] == inTail[m];
        assert shifted == inTail;
        assert OccursAt(needle, haystack, i + 1);
      }
      if IsSubstring(needle, haystack) {
        var j :| OccursAt(needle, haystack, j);
        assert j != 0;
        var inTail, here := tail[j - 1..j - 1 + |needle|], haystack[j..j + |needle|];
        assert forall m :: 0 <= m < |here| ==> inTail[m] == here[m];
        assert inTail == here;
        assert OccursAt(needle, tail, j - 1);
      }
    }
  }

  /** The `==` disjunct of `any` adds nothing: an equal key also contains the keyword. */
  lemma {:induction false} AnyMatchesIsContains(keys: seq<string>, key: string)
    ensures AnyMatches(keys, key) <==> exists i :: 0 <= i < |keys| && Contains(key, keys[i])
    decreases |keys|
  {
    if |keys| > 0 {
      assert keys[0] <= key ==> Contains(key, keys[0]);
      AnyMatchesIsContains(keys[1..], key);
      if exists i :: 0 <= i < |keys| && Contains(key, keys[i]) {
        var i :| 0 <= i < |keys| && Contains(key, keys[i]);
        if i > 0 {
          assert keys[1..][i - 1] == keys[i];
        }
      }
    }
  }

  /** A key is credential-like exactly when one of the ten keywords is a substring of it. */
  lemma IsCredentialIff(key: string)
    ensures IsCredential(key) <==> exists i :: 0 <= i < |CredentialKeys| && IsSubstring(CredentialKeys[i], key)
  {
    AnyMatchesIsContains(CredentialKeys, key);
    forall i | 0 <= i < |CredentialKeys|
      ensures Contains(key, CredentialKeys[i]) <==> IsSubstring(CredentialKeys[i], key)
    {
      ContainsIsSubstring(key, CredentialKeys[i]);
    }
  }

  /** The JSON values the redactor produces (`serde_json::Value`, with integer numbers). */
  datatype Json =
    | JNull
    | JBool(flag: bool)
    | JNumber(number: int)
    | JString(text: string)
    | JArray(items: seq<Json>)
    | JObject(fields: map<string, Json>)

  /** `format!("<binary len={}>", len)`. */
  function BinaryPlaceholder(len: nat): string {
    "<binary len=" + Decimal.NatToString(len) + ">"
  }

  /** `serialize_const_value`. */
  function SerializeConstValue(value: ConstValue): Json {
    match value
    case Binary(bytes) => JString(BinaryPlaceholder(|bytes|))
    case Null => JNull
    case Boolean(flag) => JBool(flag)
    case String(text) => JString(text)
    case Number(number) => JNumber(number)
    case Enum(name) => JString(name)
    case Object(fields) =>
      JObject(map k | k in fields ::
        if IsCredential(k) then JString(SecretPlaceholder) else SerializeConstValue(fields[k]))
    case List(items) =>
      JArray(seq(|items|, i requires 0 <= i < |items| => SerializeConstValue(items[i])))
  }

  /** The top-level map `serialize_variables` collects before printing it. */
  function RedactVariables(variables: Variables): map<string, Json> {
    map k | k in variables ::
      if IsCredential(k) then JString(SecretPlaceholder) else SerializeConstValue(variables[k])
  }

  /**
    `serialize_variables`; `toJsonString` stands for `serde_json::to_string`,
    which may fail. The result is the printed JSON or the failure text, never an error.
  */
  function SerializeVariables(variables: Variables, toJsonString: map<string, Json> -> Option<string>): (text: string)
    ensures toJsonString(RedactVariables(variables)).Some? ==> text == toJsonString(RedactVariables(variables)).value
    ensures toJsonString(RedactVariables(variables)).None? ==> text == SerializeFailure
  {
    match toJsonString(RedactVariables(variables))
    case Some(data) => data
    case None => SerializeFailure
  }

  // ----- leaf and shape rules -----

  lemma LeafRules(value: ConstValue)
    ensures value.Null? ==> SerializeConstValue(value) == JNull
    ensures value.Boolean? ==> SerializeConstValue(value) == JBool(value.flag)
    ensures value.String? ==> SerializeConstValue(value) == JString(value.text)
    ensures value.Number? ==> SerializeConstValue(value) == JNumber(value.number)
    ensures value.Enum? ==> SerializeConstValue(value) == JString(value.name)
  {
  }

  /** A binary value becomes its placeholder, so its bytes never reach the output: only the length does. */
  lemma BinaryShowsOnlyLength(bytes: seq<bv8>, other: seq<bv8>)
    ensures SerializeConstValue(Binary(bytes)) == JString(BinaryPlaceholder(|bytes|))
    ensures |other| == |bytes| ==> SerializeConstValue(Binary(other)) == SerializeConstValue(Binary(bytes))
  {
  }

  /** The placeholder is `<binary len=` then the length in decimal then `>`, and the length reads back. */
  lemma BinaryPlaceholderStatesLength(len: nat)
    ensures
      var p := BinaryPlaceholder(len);
      && |p| >= 14
      && p[..12] == "<binary len="
      && p[|p| - 1] == '>'
      && Decimal.AllDigits(p[12..|p| - 1])
      && Decimal.ParseDigits(p[12..|p| - 1]) == len
  {
    var p := BinaryPlaceholder(len);
    var digits := Decimal.NatToString(len);
    assert |"<binary len="| == 12;
    assert p[12..|p| - 1] == digits;
    assert p[..12] == "<binary len=";
    Decimal.ParseNatToString(len);
  }

  lemma ObjectShape(fields: map<string, ConstValue>)
    ensures SerializeConstValue(Object(fields)).JObject?
    ensures SerializeConstValue(Object(fields)).fields.Keys == fields.Keys
    ensures forall k :: k in fields && IsCredential(k) ==>
      SerializeConstValue(Object(fields)).fields[k] == JString(SecretPlaceholder)
    ensures forall k :: k in fields && !IsCredential(k) ==>
      SerializeConstValue(Object(fields)).fields[k] == SerializeConstValue(fields[k])
  {
  }

  lemma ListShape(items: seq<ConstValue>)
    ensures SerializeConstValue(List(items)).JArray?
    ensures |SerializeConstValue(List(items)).items| == |items|
    ensures forall i :: 0 <= i < |items| ==>
      SerializeConstValue(List(items)).items[i] == SerializeConstValue(items[i])
  {
  }

  /** Top level: same variable names; a credential-like name hides its value whatever its type. */
  lemma VariablesRedacted(variables: Variables)
    ensures RedactVariables(variables).Keys == variables.Keys
    ensures forall k :: k in variables && IsCredential(k) ==>
      RedactVariables(variables)[k] == JString(SecretPlaceholder)
    ensures forall k :: k in variables && !IsCredential(k) ==>
      RedactVariables(variables)[k] == SerializeConstValue(variables[k])
  {
  }

  // ----- redaction at any depth -----

  /** One step into a value: an object key or a list position. */
  datatype Step = Key(name: string) | Position(index: nat)

  function ValueAt(value: ConstValue, path: seq<Step>): Option<ConstValue>
    decreases |path|
  {
    if path == [] then Some(value)
    else match path[0]
      case Key(k) =>
        if value.Object? && k in value.fields then ValueAt(value.fields[k], path[1..]) else None
      case Position(i) =>
        if value.List? && i < |value.items| then ValueAt(value.items[i], path[1..]) else None
  }

  function JsonAt(json: Json, path: seq<Step>): Option<Json>
    decreases |path|
  {
    if path == [] then Some(json)
    else match path[0]
      case Key(k) =>
        if json.JObject? && k in json.fields then JsonAt(json.fields[k], path[1..]) else None
      case Position(i) =>
        if json.JArray? && i < |json.items| then JsonAt(json.items[i], path[1..]) else None
  }

  /** No key on the path is credential-like (a credential key's value is a string, so it has no inside). */
  predicate AvoidsCredentials(path: seq<Step>) {
    forall i :: 0 <= i < |path| && path[i].Key? ==> !IsCredential(path[i].name)
  }

  /** Following a path through the output is following it through the input and redacting there. */
  lemma {:induction false} SerializeAt(value: ConstValue, path: seq<Step>)
    requires AvoidsCredentials(path)
    requires ValueAt(value, path).Some?
    ensures JsonAt(SerializeConstValue(value), path) == Some(SerializeConstValue(ValueAt(value, path).value))
    decreases |path|
  {
    if path != [] {
      assert AvoidsCredentials(path[1..]) by {
        forall i | 0 <= i < |path[1..]| && path[1..][i].Key?
          ensures !IsCredential(path[1..][i].name)
        {
          assert path[1..][i] == path[i + 1];
        }
      }
      match path[0]
      case Key(k) =>
        assert !IsCredential(path[0].name);
        SerializeAt(value.fields[k], path[1..]);
      case Position(i) =>
        SerializeAt(value.items[i], path[1..]);
    }
  }

  lemma {:induction false} JsonAtAppend(json: Json, path: seq<Step>, step: Step)
    ensures JsonAt(json, path + [step]) ==
      match JsonAt(json, path)
      case None => None
      case Some(inner) => JsonAt(inner, [step])
    decreases |path|
  {
    if path != [] {
      assert (path + [step])[1..] == path[1..] + [step];
      match path[0]
      case Key(k) =>
        if json.JObject? && k in json.fields {
          JsonAtAppend(json.fields[k], path[1..], step);
        }
      case Position(i) =>
        if json.JArray? && i < |json.items| {
          JsonAtAppend(json.items[i], path[1..], step);
        }
    } else {
      assert path + [step] == [step];
    }
  }

  /** Inside an object at any depth, a credential-like key maps to `"<secret>"`. */
  lemma SecretAtAnyDepth(value: ConstValue, path: seq<Step>, k: string)
    requires AvoidsCredentials(path)
    requires ValueAt(value, path).Some? && ValueAt(value, path).value.Object?
    requires k in ValueAt(value, path).value.fields && IsCredential(k)
    ensures JsonAt(SerializeConstValue(value), path + [Key(k)]) == Some(JString(SecretPlaceholder))
  {
    SerializeAt(value, path);
    JsonAtAppend(SerializeConstValue(value), path, Key(k));
  }

  // ----- what the output depends on -----

  /**
    Two values agree outside secrets when they have the same shape and the same
    scalars, except under credential-like keys (any value) and inside binary
    values (any bytes of the same length).
  */
  predicate AgreeOutsideSecrets(a: ConstValue, b: ConstValue) {
    match a
    case Binary(bytes) => b.Binary? && |b.bytes| == |bytes|
    case List(items) =>
      b.List? && |b.items| == |items| &&
      forall i :: 0 <= i < |items| ==> AgreeOutsideSecrets(items[i], b.items[i])
    case Object(fields) =>
      b.Object? && b.fields.Keys == fields.Keys &&
      forall k :: k in fields && !IsCredential(k) ==> AgreeOutsideSecrets(fields[k], b.fields[k])
    case _ => a == b
  }

  /** Neither a credential's value nor a binary's bytes can influence the output. */
  lemma {:induction false} SecretsDoNotInfluence(a: ConstValue, b: ConstValue)
    requires AgreeOutsideSecrets(a, b)
    ensures SerializeConstValue(a) == SerializeConstValue(b)
    decreases a
  {
    match a
    case List(items) =>
      forall i | 0 <= i < |items|
        ensures SerializeConstValue(items[i]) == SerializeConstValue(b.items[i])
      {
        SecretsDoNotInfluence(items[i], b.items[i]);
      }
      assert SerializeConstValue(a).items == SerializeConstValue(b).items;
    case Object(fields) =>
      forall k | k in fields && !IsCredential(k)
        ensures SerializeConstValue(fields[k]) == SerializeConstValue(b.fields[k])
      {
        SecretsDoNotInfluence(fields[k], b.fields[k]);
      }
      assert SerializeConstValue(a).fields == SerializeConstValue(b).fields;
    case _ =>
  }

  /** The same holds for the printed variables, whatever `serde_json::to_string` does. */
  lemma VariableSecretsDoNotInfluence(v: Variables, w: Variables, toJsonString: map<string, Json> -> Option<string>)
    requires v.Keys == w.Keys
    requires forall k :: k in v && !IsCredential(k) ==> AgreeOutsideSecrets(v[k], w[k])
    ensures SerializeVariables(v, toJsonString) == SerializeVariables(w, toJsonString)
  {
    forall k | k in v && !IsCredential(k)
      ensures SerializeConstValue(v[k]) == SerializeConstValue(w[k])
    {
      SecretsDoNotInfluence(v[k], w[k]);
    }
    assert RedactVariables(v) == RedactVariables(w);
  }

  // ----- identity on values with nothing to hide -----

  /** The JSON a value would print as with no redaction: bytes as numbers, an enum as its name. */
  function Embed(value: ConstValue): Json {
    match value
    case Null => JNull
    case Boolean(flag) => JBool(flag)
    case String(text) => JString(text)
    case Number(number) => JNumber(number)
    case Enum(name) => JString(name)
    case Binary(bytes) => JArray(seq(|bytes|, i requires 0 <= i < |bytes| => JNumber(bytes[i] as int)))
    case Object(fields) => JObject(map k | k in fields :: Embed(fields[k]))
    case List(items) => JArray(seq(|items|, i requires 0 <= i < |items| => Embed(items[i])))
  }

  /** No credential-like key at any depth and no binary value. */
  predicate NothingToHide(value: ConstValue) {
    match value
    case Binary(_) => false
    case List(items) => forall i :: 0 <= i < |items| ==> NothingToHide(items[i])
    case Object(fields) => forall k :: k in fields ==> !IsCredential(k) && NothingToHide(fields[k])
    case _ => true
  }

  /** With nothing to hide, redaction is the identity on the value's JSON embedding. */
  lemma {:induction false} RedactionIsIdentityWhenNothingToHide(value: ConstValue)
    requires NothingToHide(value)
    ensures SerializeConstValue(value) == Embed(value)
    decreases value
  {
    match value
    case List(items) =>
      forall i | 0 <= i < |items|
        ensures SerializeConstValue(items[i]) == Embed(items[i])
      {
        RedactionIsIdentityWhenNothingToHide(items[i]);
      }
      assert SerializeConstValue(value).items == Embed(value).items;
    case Object(fields) =>
      forall k | k in fields
        ensures SerializeConstValue(fields[k]) == Embed(fields[k])
      {
        RedactionIsIdentityWhenNothingToHide(fields[k]);
      }
      assert SerializeConstValue(value).fields == Embed(value).fields;
    case _ =>
  }

  // ----- examples -----

  /** Matching is by substring: a keyword anywhere in the key is enough. */
  lemma CredentialExamples()
    ensures IsCredential("password")
    ensures IsCredential("userpassword")
    ensures IsCredential("apiKey")
  {
    assert Contains("userpassword", "password") by {
      assert Contains("rpassword", "password");
      assert Contains("erpassword", "password");
      assert Contains("serpassword", "password");
    }
  }

  /** A key in which no keyword occurs is shown. */
  lemma NonCredentialExample()
    ensures !IsCredential("name")
  {
    IsCredentialIff("name");
    forall i | 0 <= i < |CredentialKeys|
      ensures !IsSubstring(CredentialKeys[i], "name")
    {
      if i == 3 {
        assert "name"[0..3][0] != 'k' && "name"[1..4][0] != 'k';
      }
    }
  }
}
