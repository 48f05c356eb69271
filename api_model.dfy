/**
 * src/api/mod.rs: the value types shared by the `api` modules and the
 * total conversion `Model::from`.
 */
module ApiModel {
  import opened Text

  /** Skin model type: the original player model or the slim one. */
  datatype Model = Normal | Slim

  /** `struct Url(String)`: a URL is kept as the text it was given. */
  datatype Url = Url(s: string)

  /** A UUID is a 128-bit value; its text form and parsing are outside the model. */
  newtype Uuid = x: int | 0 <= x < 0x1_0000_0000_0000_0000_0000_0000_0000_0000

  /** `impl From<String> for Model`: "slim" in any ASCII case is `Slim`, everything else `Normal`. */
  function ModelFrom(value: string): (m: Model)
    ensures m == Slim <==> AsciiLower(value) == "slim"
  {
    if AsciiLower(value) == "slim" then Slim else Normal
  }

  /**
   * Character by character: exactly the four-letter strings whose letters
   * fold to 's', 'l', 'i', 'm' give `Slim`.
   */
  lemma ModelFromSlimSpellings(value: string)
    ensures ModelFrom(value) == Slim <==>
      |value| == 4 && LowerChar(value[0]) == 's' && LowerChar(value[1]) == 'l' &&
      LowerChar(value[2]) == 'i' && LowerChar(value[3]) == 'm'
  {
    var l := AsciiLower(value);
    if |value| == 4 && LowerChar(value[0]) == 's' && LowerChar(value[1]) == 'l' &&
       LowerChar(value[2]) == 'i' && LowerChar(value[3]) == 'm' {
      assert l == "slim";
    }
  }

  /** The conversion only sees the ASCII-lower-case form of its input. */
  lemma ModelFromIgnoresCase(value: string)
    ensures ModelFrom(AsciiLower(value)) == ModelFrom(value)
  {
    LowerIdempotent(value);
  }

  /** "normal", the empty string and any other word give `Normal`; "SLIM" and "Slim" give `Slim`. */
  lemma ModelFromExamples()
    ensures ModelFrom("normal") == Normal && ModelFrom("") == Normal && ModelFrom("thin") == Normal
    ensures ModelFrom("SLIM") == Slim && ModelFrom("Slim") == Slim
  {
    ModelFromSlimSpellings("normal");
    ModelFromSlimSpellings("thin");
    ModelFromSlimSpellings("SLIM");
    ModelFromSlimSpellings("Slim");
  }
}
