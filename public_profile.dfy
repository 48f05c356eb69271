/**
 * src/api/public_profile.rs: reading a public profile. The JSON reader is
 * outside the model: `visit_map` receives the object's entries as
 * (key, value) pairs in document order, each value already classified by
 * the type `next_value` would read it as, and the base64 + JSON decoding of
 * the textures property is a function parameter.
 */
module PublicProfile {
  import opened Text
  import opened ApiModel

  /** `Model::from_str`: "slim" or "normal" in any ASCII case; any other string is an error naming it. */
  function ModelFromStr(s: string): (r: Result<Model, string>)
    ensures r.Ok? <==> AsciiLower(s) == "slim" || AsciiLower(s) == "normal"
    ensures r.Ok? ==> r.value == ModelFrom(s)
    ensures r.Err? ==> r.error == "Unknown model: " + s
  {
    var lowered := AsciiLower(s);
    if lowered == "slim" then Ok(Slim)
    else if lowered == "normal" then Ok(Normal)
    else Err("Unknown model: " + s)
  }

  /** Where `from_str` succeeds it agrees with the total `Model::from`, and it fails only on words `from` maps to `Normal`. */
  lemma ModelFromStrAgrees(s: string)
    ensures ModelFromStr(s).Ok? ==> ModelFromStr(s).value == ModelFrom(s)
    ensures ModelFromStr(s).Err? ==> ModelFrom(s) == Normal
  {
  }

  /** The skin texture: its URL and, when present, the `metadata.model` string. */
  datatype SkinTexture = SkinTexture(url: string, metadata: Option<string>)

  /** The decoded `textures` object: `SKIN` and the optional `CAPE` URL. */
  datatype Textures = Textures(skin: SkinTexture, cape: Option<string>)

  datatype Skin = Skin(url: Url, model: Model, cape: Option<Url>)

  datatype Profile = Profile(id: Uuid, name: string, skin: Skin)

  /**
   * The model fallback: no metadata, or a model string `from_str` rejects,
   * gives `Normal`.
   */
  function ResolveModel(metadata: Option<string>): (m: Model)
    ensures m == Slim <==> metadata.Some? && AsciiLower(metadata.value) == "slim"
  {
    match metadata
    case None => Normal
    case Some(model) =>
      match ModelFromStr(model)
      case Ok(parsed) => parsed
      case Err(_) => Normal
  }

  /** With metadata present, the fallback gives the same model as `Model::from`. */
  lemma ResolveModelIsModelFrom(model: string)
    ensures ResolveModel(Some(model)) == ModelFrom(model)
    ensures ModelFromStr(model).Err? ==> ResolveModel(Some(model)) == Normal
  {
  }

  /** The public skin built from the decoded textures. */
  function SkinFrom(t: Textures): (s: Skin)
    ensures s.url == Url(t.skin.url)
    ensures s.model == Slim <==> t.skin.metadata.Some? && AsciiLower(t.skin.metadata.value) == "slim"
    ensures s.cape.Some? <==> t.cape.Some?
    ensures s.cape.Some? ==> s.cape.value == Url(t.cape.value)
  {
    Skin(Url(t.skin.url), ResolveModel(t.skin.metadata), if t.cape.Some? then Some(Url(t.cape.value)) else None)
  }

  /** The errors `visit_map` reports, as produced by serde's `de::Error` constructors. */
  datatype DeError =
    | DuplicateField(field: string)
    | UnknownField(field: string, expected: seq<string>)
    | MissingField(field: string)
    | InvalidValue(field: string)
    | Custom(message: string)

  /** `FIELDS`: the keys a profile object may contain. */
  const Fields: seq<string> := ["id", "name", "properties"]

  /**
   * A value as `next_value` would find it: a UUID, a string, a list of
   * string maps, or anything else (which no field accepts).
   */
  datatype Value =
    | UuidValue(id: Uuid)
    | StringValue(s: string)
    | ListValue(maps: seq<map<string, string>>)
    | OtherValue

  type Entry = (string, Value)

  /** Why decoding the textures property failed. */
  datatype DecodeError = Base64Error(detail: string) | JsonError(detail: string)

  /** `next_value` for a known key reads the type that key's slot holds. */
  predicate Accepts(key: string, v: Value) {
    (key == "id" ==> v.UuidValue?) &&
    (key == "name" ==> v.StringValue?) &&
    (key == "properties" ==> v.ListValue?)
  }

  /** `key` occurs among the first `n` entries. */
  predicate Seen(entries: seq<Entry>, n: nat, key: string)
    requires n <= |entries|
  {
    exists k :: 0 <= k < n && entries[k].0 == key
  }

  /** The error the loop raises at entry `j`, given the entries before it. */
  function EntryError(entries: seq<Entry>, j: nat): (e: Option<DeError>)
    requires j < |entries|
    ensures entries[j].0 !in Fields ==> e == Some(UnknownField(entries[j].0, Fields))
    ensures entries[j].0 in Fields && Seen(entries, j, entries[j].0) ==> e == Some(DuplicateField(entries[j].0))
    ensures e.None? <==> entries[j].0 in Fields && !Seen(entries, j, entries[j].0) && Accepts(entries[j].0, entries[j].1)
  {
    var (key, v) := entries[j];
    if key !in Fields then Some(UnknownField(key, Fields))
    else if Seen(entries, j, key) then Some(DuplicateField(key))
    else if !Accepts(key, v) then Some(InvalidValue(key))
    else None
  }

  /** No entry among the first `n` raises an error. */
  predicate Clean(entries: seq<Entry>, n: nat)
    requires n <= |entries|
  {
    forall j :: 0 <= j < n ==> EntryError(entries, j).None?
  }

  /** The first entry at or after `from` that raises an error, or `|entries|`. */
  function FirstError(entries: seq<Entry>, from: nat): (j: nat)
    requires from <= |entries|
    ensures from <= j <= |entries|
    ensures j < |entries| ==> EntryError(entries, j).Some?
    ensures forall k :: from <= k < j ==> EntryError(entries, k).None?
    decreases |entries| - from
  {
    if from == |entries| then from
    else if EntryError(entries, from).Some? then from
    else FirstError(entries, from + 1)
  }

  /** The value of the last entry with key `key`. */
  function Lookup(es: seq<Entry>, key: string): (r: Option<Value>)
    ensures r.Some? <==> exists k :: 0 <= k < |es| && es[k].0 == key
    ensures r.Some? ==> exists k :: 0 <= k < |es| && es[k] == (key, r.value)
    decreases |es|
  {
    if es == [] then None
    else if es[|es| - 1].0 == key then Some(es[|es| - 1].1)
    else
      var r := Lookup(es[..|es| - 1], key);
      assert forall k :: 0 <= k < |es| - 1 ==> es[..|es| - 1][k] == es[k];
      r
  }

  function IdOf(v: Option<Value>): Option<Uuid> {
    if v.Some? && v.value.UuidValue? then Some(v.value.id) else None
  }

  function NameOf(v: Option<Value>): Option<string> {
    if v.Some? && v.value.StringValue? then Some(v.value.s) else None
  }

  function PropertiesOf(v: Option<Value>): Option<seq<map<string, string>>> {
    if v.Some? && v.value.ListValue? then Some(v.value.maps) else None
  }

  /**
   * What follows the loop: the properties checks and the textures decoding
   * come first, the `id` and `name` checks last.
   */
  function Finish(id: Option<Uuid>, name: Option<string>, properties: Option<seq<map<string, string>>>,
                  decodeTextures: string -> Result<Textures, DecodeError>): (r: Result<Profile, DeError>)
    ensures properties.None? || properties.value == [] ==> r == Err(MissingField("properties"))
    ensures properties.Some? && properties.value != [] && "value" !in properties.value[0] ==>
              r == Err(MissingField("properties[0].value"))
    ensures r.Ok? <==> id.Some? && name.Some? && properties.Some? && properties.value != [] &&
                       "value" in properties.value[0] && decodeTextures(properties.value[0]["value"]).Ok?
    ensures r.Ok? ==> r.value == Profile(id.value, name.value,
                                         SkinFrom(decodeTextures(properties.value[0]["value"]).value))
    ensures properties.Some? && properties.value != [] && "value" in properties.value[0] ==>
              var decoded := decodeTextures(properties.value[0]["value"]);
              (decoded.Err? && decoded.error.Base64Error? ==>
                 r == Err(Custom("Error decoding base64 string: " + decoded.error.detail))) &&
              (decoded.Err? && decoded.error.JsonError? ==>
                 r == Err(Custom("Error deserializing skin: " + decoded.error.detail))) &&
              (decoded.Ok? && id.None? ==> r == Err(MissingField("id"))) &&
              (decoded.Ok? && id.Some? && name.None? ==> r == Err(MissingField("name")))
  {
    if properties.None? || properties.value == [] then Err(MissingField("properties"))
    else if "value" !in properties.value[0] then Err(MissingField("properties[0].value"))
    else
      match decodeTextures(properties.value[0]["value"])
      case Err(Base64Error(detail)) => Err(Custom("Error decoding base64 string: " + detail))
      case Err(JsonError(detail)) => Err(Custom("Error deserializing skin: " + detail))
      case Ok(textures) =>
        if id.None? then Err(MissingField("id"))
        else if name.None? then Err(MissingField("name"))
        else Ok(Profile(id.value, name.value, SkinFrom(textures)))
  }

  /**
   * The outcome of `visit_map`: the error of the first offending entry, or
   * else the checks after the loop on the collected fields.
   */
  function VisitMapOutcome(entries: seq<Entry>, decodeTextures: string -> Result<Textures, DecodeError>): Result<Profile, DeError>
  {
    var j := FirstError(entries, 0);
    if j < |entries| then Err(EntryError(entries, j).value)
    else Finish(IdOf(Lookup(entries, "id")), NameOf(Lookup(entries, "name")),
                PropertiesOf(Lookup(entries, "properties")), decodeTextures)
  }

  /** The first erroring entry is `i` when the entries before it are clean. */
  lemma FirstErrorIs(entries: seq<Entry>, i: nat)
    requires i < |entries| && Clean(entries, i) && EntryError(entries, i).Some?
    ensures FirstError(entries, 0) == i
  {
  }

  lemma LookupSnoc(entries: seq<Entry>, i: nat, key: string)
    requires i < |entries|
    ensures Lookup(entries[..i + 1], key) ==
      if entries[i].0 == key then Some(entries[i].1) else Lookup(entries[..i], key)
  {
    assert entries[..i + 1][..i] == entries[..i];
  }

  /**
   * The loop's slots after `n` clean entries: each holds the value of its
   * key's entry, and is filled exactly when that key has been seen.
   */
  ghost predicate Collected(entries: seq<Entry>, n: nat, id: Option<Uuid>, name: Option<string>,
                            properties: Option<seq<map<string, string>>>)
    requires n <= |entries|
  {
    id == IdOf(Lookup(entries[..n], "id")) && (id.Some? <==> Seen(entries, n, "id")) &&
    name == NameOf(Lookup(entries[..n], "name")) && (name.Some? <==> Seen(entries, n, "name")) &&
    properties == PropertiesOf(Lookup(entries[..n], "properties")) &&
    (properties.Some? <==> Seen(entries, n, "properties"))
  }

  lemma CollectedStart(entries: seq<Entry>)
    ensures Collected(entries, 0, None, None, None)
  {
    assert entries[..0] == [];
  }

  /** One clean entry fills the slot of its key and leaves the other two alone. */
  lemma CollectedStep(entries: seq<Entry>, i: nat, id: Option<Uuid>, name: Option<string>,
                      properties: Option<seq<map<string, string>>>)
    requires i < |entries| && EntryError(entries, i).None?
    requires Collected(entries, i, id, name, properties)
    ensures var (key, v) := entries[i];
            Collected(entries, i + 1,
                      if key == "id" then Some(v.id) else id,
                      if key == "name" then Some(v.s) else name,
                      if key == "properties" then Some(v.maps) else properties)
  {
    KeyStep(entries, i, "id");
    KeyStep(entries, i, "name");
    KeyStep(entries, i, "properties");
  }

  /** How one more entry changes the lookup and the seen-ness of one key. */
  lemma KeyStep(entries: seq<Entry>, i: nat, key: string)
    requires i < |entries|
    ensures Lookup(entries[..i + 1], key) ==
      if entries[i].0 == key then Some(entries[i].1) else Lookup(entries[..i], key)
    ensures Seen(entries, i + 1, key) <==> Seen(entries, i, key) || entries[i].0 == key
  {
    LookupSnoc(entries, i, key);
    assert Seen(entries, i, key) ==> Seen(entries, i + 1, key);
    assert entries[i].0 == key ==> Seen(entries, i + 1, key);
  }

  /** Once all entries are clean, `Finish` on the slots is the outcome. */
  lemma CollectedDone(entries: seq<Entry>, id: Option<Uuid>, name: Option<string>,
                      properties: Option<seq<map<string, string>>>,
                      decodeTextures: string -> Result<Textures, DecodeError>)
    requires Clean(entries, |entries|)
    requires Collected(entries, |entries|, id, name, properties)
    ensures Finish(id, name, properties, decodeTextures) == VisitMapOutcome(entries, decodeTextures)
  {
    assert entries[..|entries|] == entries;
    assert FirstError(entries, 0) == |entries|;
  }

  /** `visit_map`: the key loop fills the three slots, then `Finish` builds the profile. */
  method VisitMap(entries: seq<Entry>, decodeTextures: string -> Result<Textures, DecodeError>)
    returns (r: Result<Profile, DeError>)
    ensures r == VisitMapOutcome(entries, decodeTextures)
  {
    var id: Option<Uuid> := None;
    var name: Option<string> := None;
    var properties: Option<seq<map<string, string>>> := None;
    CollectedStart(entries);
    var i := 0;
    while i < |entries|
      invariant 0 <= i <= |entries|
      invariant Clean(entries, i)
      invariant Collected(entries, i, id, name, properties)
    {
      var (key, value) := entries[i];
      ghost var before := (id, name, properties);
      if key == "id" {
        if id.Some? {
          FirstErrorIs(entries, i);
          return Err(DuplicateField("id"));
        }
        if !value.UuidValue? {
          FirstErrorIs(entries, i);
          return Err(InvalidValue("id"));
        }
        id := Some(value.id);
      } else if key == "name" {
        if name.Some? {
          FirstErrorIs(entries, i);
          return Err(DuplicateField("name"));
        }
        if !value.StringValue? {
          FirstErrorIs(entries, i);
          return Err(InvalidValue("name"));
        }
        name := Some(value.s);
      } else if key == "properties" {
        if properties.Some? {
          FirstErrorIs(entries, i);
          return Err(DuplicateField("properties"));
        }
        if !value.ListValue? {
          FirstErrorIs(entries, i);
          return Err(InvalidValue("properties"));
        }
        properties := Some(value.maps);
      } else {
        FirstErrorIs(entries, i);
        return Err(UnknownField(key, Fields));
      }
      CollectedStep(entries, i, before.0, before.1, before.2);
      i := i + 1;
    }
    CollectedDone(entries, id, name, properties, decodeTextures);
    r := Finish(id, name, properties, decodeTextures);
  }

  /** A key that occurs twice always makes `visit_map` fail. */
  lemma RepeatedKeyRejected(entries: seq<Entry>, i: nat, j: nat, decodeTextures: string -> Result<Textures, DecodeError>)
    requires i < j < |entries| && entries[i].0 == entries[j].0
    ensures VisitMapOutcome(entries, decodeTextures).Err?
  {
    assert Seen(entries, j, entries[j].0);
    assert EntryError(entries, j).Some?;
  }

  /** The second occurrence of a field, with nothing wrong before it, is reported as that duplicate field. */
  lemma DuplicateFieldReported(entries: seq<Entry>, i: nat, j: nat, decodeTextures: string -> Result<Textures, DecodeError>)
    requires i < j < |entries| && entries[i].0 == entries[j].0 && entries[j].0 in Fields
    requires Clean(entries, j)
    ensures VisitMapOutcome(entries, decodeTextures) == Err(DuplicateField(entries[j].0))
  {
    assert Seen(entries, j, entries[j].0);
    FirstErrorIs(entries, j);
  }

  /** A key outside `FIELDS` always makes `visit_map` fail. */
  lemma UnknownKeyRejected(entries: seq<Entry>, j: nat, decodeTextures: string -> Result<Textures, DecodeError>)
    requires j < |entries| && entries[j].0 !in Fields
    ensures VisitMapOutcome(entries, decodeTextures).Err?
  {
    assert EntryError(entries, j).Some?;
  }

  /** The first unknown key, with nothing wrong before it, is reported by name with the expected fields. */
  lemma UnknownFieldReported(entries: seq<Entry>, j: nat, decodeTextures: string -> Result<Textures, DecodeError>)
    requires j < |entries| && entries[j].0 !in Fields && Clean(entries, j)
    ensures VisitMapOutcome(entries, decodeTextures) == Err(UnknownField(entries[j].0, Fields))
  {
    FirstErrorIs(entries, j);
  }

  /** After a clean key loop every key is known and occurs once. */
  lemma CleanKeys(entries: seq<Entry>)
    requires Clean(entries, |entries|)
    ensures forall j :: 0 <= j < |entries| ==> entries[j].0 in Fields
    ensures forall i, j :: 0 <= i < j < |entries| ==> entries[i].0 != entries[j].0
  {
    forall j | 0 <= j < |entries|
      ensures entries[j].0 in Fields
    {
      assert EntryError(entries, j).None?;
    }
    forall i, j | 0 <= i < j < |entries|
      ensures entries[i].0 != entries[j].0
    {
      assert EntryError(entries, j).None?;
      assert !Seen(entries, j, entries[j].0);
    }
  }

  /**
   * After a clean key loop every field present holds a value of its type,
   * and the outcome is decided by `Finish`.
   */
  lemma CleanLoop(entries: seq<Entry>, decodeTextures: string -> Result<Textures, DecodeError>)
    requires Clean(entries, |entries|)
    ensures Lookup(entries, "id").Some? ==> Lookup(entries, "id").value.UuidValue?
    ensures Lookup(entries, "name").Some? ==> Lookup(entries, "name").value.StringValue?
    ensures Lookup(entries, "properties").Some? ==> Lookup(entries, "properties").value.ListValue?
    ensures VisitMapOutcome(entries, decodeTextures) ==
      Finish(IdOf(Lookup(entries, "id")), NameOf(Lookup(entries, "name")),
             PropertiesOf(Lookup(entries, "properties")), decodeTextures)
  {
    assert FirstError(entries, 0) == |entries|;
    LookupAccepted(entries, "id");
    LookupAccepted(entries, "name");
    LookupAccepted(entries, "properties");
  }

  lemma LookupAccepted(entries: seq<Entry>, key: string)
    requires Clean(entries, |entries|)
    ensures Lookup(entries, key).Some? ==> Accepts(key, Lookup(entries, key).value)
  {
    if Lookup(entries, key).Some? {
      var k :| 0 <= k < |entries| && entries[k] == (key, Lookup(entries, key).value);
      assert EntryError(entries, k).None?;
    }
  }

  /** A profile is produced only when nothing goes wrong in the key loop. */
  lemma ProfileNeedsCleanLoop(entries: seq<Entry>, decodeTextures: string -> Result<Textures, DecodeError>)
    requires VisitMapOutcome(entries, decodeTextures).Ok?
    ensures Clean(entries, |entries|)
  {
    assert FirstError(entries, 0) == |entries|;
  }

  /**
   * A profile is produced only when every key is known and occurs once, all
   * three fields are present with values of their types, the first property
   * has a `value` and it decodes; the profile carries exactly those values.
   */
  lemma ProfileRequiresAllFields(entries: seq<Entry>, decodeTextures: string -> Result<Textures, DecodeError>)
    requires VisitMapOutcome(entries, decodeTextures).Ok?
    ensures forall j :: 0 <= j < |entries| ==> entries[j].0 in Fields
    ensures forall i, j :: 0 <= i < j < |entries| ==> entries[i].0 != entries[j].0
    ensures Lookup(entries, "id").Some? && Lookup(entries, "id").value.UuidValue?
    ensures Lookup(entries, "name").Some? && Lookup(entries, "name").value.StringValue?
    ensures var props := Lookup(entries, "properties");
            props.Some? && props.value.ListValue? && props.value.maps != [] &&
            "value" in props.value.maps[0] && decodeTextures(props.value.maps[0]["value"]).Ok? &&
            VisitMapOutcome(entries, decodeTextures).value ==
              Profile(Lookup(entries, "id").value.id, Lookup(entries, "name").value.s,
                      SkinFrom(decodeTextures(props.value.maps[0]["value"]).value))
  {
    ProfileNeedsCleanLoop(entries, decodeTextures);
    CleanKeys(entries);
    CleanLoop(entries, decodeTextures);
  }

  /**
   * After a clean key loop the properties are checked before `id` and
   * `name`: missing or empty properties, a first property without `value`,
   * then a missing `id`, then a missing `name`.
   */
  lemma MissingFieldReported(entries: seq<Entry>, decodeTextures: string -> Result<Textures, DecodeError>)
    requires Clean(entries, |entries|)
    ensures var props := PropertiesOf(Lookup(entries, "properties"));
            var r := VisitMapOutcome(entries, decodeTextures);
            (props.None? || props.value == [] ==> r == Err(MissingField("properties"))) &&
            (props.Some? && props.value != [] && "value" !in props.value[0] ==>
               r == Err(MissingField("properties[0].value"))) &&
            (props.Some? && props.value != [] && "value" in props.value[0] &&
             decodeTextures(props.value[0]["value"]).Ok? ==>
               (Lookup(entries, "id").None? ==> r == Err(MissingField("id"))) &&
               (Lookup(entries, "id").Some? && Lookup(entries, "name").None? ==> r == Err(MissingField("name"))))
  {
    CleanLoop(entries, decodeTextures);
  }

  /** A textures value that does not decode is reported as a custom error carrying the decoder's message. */
  lemma DecodeFailureReported(entries: seq<Entry>, decodeTextures: string -> Result<Textures, DecodeError>)
    requires Clean(entries, |entries|)
    requires var props := PropertiesOf(Lookup(entries, "properties"));
             props.Some? && props.value != [] && "value" in props.value[0] &&
             decodeTextures(props.value[0]["value"]).Err?
    ensures var e := decodeTextures(PropertiesOf(Lookup(entries, "properties")).value[0]["value"]).error;
            VisitMapOutcome(entries, decodeTextures) ==
              Err(Custom(if e.Base64Error? then "Error decoding base64 string: " + e.detail
                         else "Error deserializing skin: " + e.detail))
  {
    CleanLoop(entries, decodeTextures);
  }

  /** The profile's cape is present exactly when the decoded textures have one, with its URL. */
  lemma ProfileCape(entries: seq<Entry>, decodeTextures: string -> Result<Textures, DecodeError>)
    requires VisitMapOutcome(entries, decodeTextures).Ok?
    ensures var p := VisitMapOutcome(entries, decodeTextures).value;
            var t := decodeTextures(Lookup(entries, "properties").value.maps[0]["value"]).value;
            (p.skin.cape.Some? <==> t.cape.Some?) &&
            (p.skin.cape.Some? ==> p.skin.cape.value == Url(t.cape.value)) &&
            (p.skin.model == Slim <==> t.skin.metadata.Some? && AsciiLower(t.skin.metadata.value) == "slim")
  {
    ProfileRequiresAllFields(entries, decodeTextures);
  }
}
