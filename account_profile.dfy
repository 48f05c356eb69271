/**
 * src/api/profile.rs: the profile of the logged-in account. The request and
 * the JSON reading are outside the model: `ProfileInformation` receives the
 * response record, and UUID parsing is a function parameter.
 */
module AccountProfile {
  import opened Text
  import opened ApiModel

  /** Whether a skin is the one in use. */
  datatype SkinState = Active | Disabled

  /** `impl From<String> for SkinState`: exactly "ACTIVE" is `Active`, compared case-sensitively. */
  function SkinStateFrom(value: string): (st: SkinState)
    ensures st == Active <==> value == "ACTIVE"
  {
    if value == "ACTIVE" then Active else Disabled
  }

  /** The comparison does not fold case: "active" and "Active" are `Disabled`. */
  lemma SkinStateCaseSensitive()
    ensures SkinStateFrom("ACTIVE") == Active
    ensures SkinStateFrom("active") == Disabled && SkinStateFrom("Active") == Disabled
    ensures SkinStateFrom("") == Disabled && SkinStateFrom("DISABLED") == Disabled
  {
    assert "active"[0] != "ACTIVE"[0];
    assert "Active"[1] != "ACTIVE"[1];
  }

  /** One element of the response's `skins` array. */
  datatype ResponseSkin = ResponseSkin(id: string, state: string, url: string, variant: string)

  /** The response record of the profile request. */
  datatype Response = Response(id: string, name: string, skins: seq<ResponseSkin>, capes: seq<string>)

  datatype Skin = Skin(id: string, state: SkinState, url: Url, variant: Model)

  datatype Profile = Profile(id: Uuid, name: string, skins: seq<Skin>, capes: seq<Url>)

  /** Why building the profile failed: the response's `id` is not a UUID. */
  datatype ProfileError = InvalidId(text: string)

  /** The closure of the `skins` map: id and URL copied, state and variant converted. */
  function ConvertSkin(x: ResponseSkin): (s: Skin)
    ensures s.id == x.id && s.url == Url(x.url)
    ensures s.state == Active <==> x.state == "ACTIVE"
    ensures s.variant == ModelFrom(x.variant)
  {
    Skin(x.id, SkinStateFrom(x.state), Url(x.url), ModelFrom(x.variant))
  }

  /** `skins.into_iter().map(..).collect()`. */
  function ConvertSkins(xs: seq<ResponseSkin>): (r: seq<Skin>)
    ensures |r| == |xs|
    decreases |xs|
  {
    if xs == [] then [] else [ConvertSkin(xs[0])] + ConvertSkins(xs[1..])
  }

  /** The i-th skin of the profile is the conversion of the i-th skin of the response. */
  lemma {:induction false} ConvertSkinsAt(xs: seq<ResponseSkin>, i: nat)
    requires i < |xs|
    ensures ConvertSkins(xs)[i] == ConvertSkin(xs[i])
    decreases i
  {
    if i > 0 {
      ConvertSkinsAt(xs[1..], i - 1);
    }
  }

  /** Converting a concatenation converts each part in turn: order is kept. */
  lemma {:induction false} ConvertSkinsAppend(xs: seq<ResponseSkin>, ys: seq<ResponseSkin>)
    ensures ConvertSkins(xs + ys) == ConvertSkins(xs) + ConvertSkins(ys)
    decreases |xs|
  {
    if xs == [] {
      assert xs + ys == ys;
    } else {
      assert (xs + ys)[1..] == xs[1..] + ys;
      ConvertSkinsAppend(xs[1..], ys);
    }
  }

  /** `capes.into_iter().map(Url).collect()`. */
  function ConvertCapes(cs: seq<string>): (r: seq<Url>)
    ensures |r| == |cs|
    decreases |cs|
  {
    if cs == [] then [] else [Url(cs[0])] + ConvertCapes(cs[1..])
  }

  /** Each cape URL is copied unchanged, in place. */
  lemma {:induction false} ConvertCapesAt(cs: seq<string>, i: nat)
    requires i < |cs|
    ensures ConvertCapes(cs)[i] == Url(cs[i])
    decreases i
  {
    if i > 0 {
      ConvertCapesAt(cs[1..], i - 1);
    }
  }

  /** The cape URLs are the response's strings, in order. */
  lemma ConvertCapesUrls(cs: seq<string>)
    ensures forall i :: 0 <= i < |cs| ==> ConvertCapes(cs)[i].s == cs[i]
  {
    forall i | 0 <= i < |cs|
      ensures ConvertCapes(cs)[i].s == cs[i]
    {
      ConvertCapesAt(cs, i);
    }
  }

  /** `profile_information` once the response has been read. */
  function ProfileInformation(resp: Response, parseUuid: string -> Option<Uuid>): (r: Result<Profile, ProfileError>)
    ensures r.Err? <==> parseUuid(resp.id).None?
    ensures r.Err? ==> r.error == InvalidId(resp.id)
    ensures r.Ok? ==> r.value.id == parseUuid(resp.id).value && r.value.name == resp.name
    ensures r.Ok? ==> |r.value.skins| == |resp.skins| && |r.value.capes| == |resp.capes|
  {
    match parseUuid(resp.id)
    case None => Err(InvalidId(resp.id))
    case Some(id) => Ok(Profile(id, resp.name, ConvertSkins(resp.skins), ConvertCapes(resp.capes)))
  }

  /**
   * Every skin of the profile mirrors the response's skin at the same
   * position: id and URL unchanged, `Active` exactly for "ACTIVE", the
   * variant as `Model::from` reads it; every cape likewise.
   */
  lemma ProfileMirrorsResponse(resp: Response, parseUuid: string -> Option<Uuid>, i: nat)
    requires ProfileInformation(resp, parseUuid).Ok?
    ensures var p := ProfileInformation(resp, parseUuid).value;
            i < |resp.skins| ==>
              p.skins[i].id == resp.skins[i].id && p.skins[i].url == Url(resp.skins[i].url) &&
              (p.skins[i].state == Active <==> resp.skins[i].state == "ACTIVE") &&
              p.skins[i].variant == ModelFrom(resp.skins[i].variant)
    ensures var p := ProfileInformation(resp, parseUuid).value;
            i < |resp.capes| ==> p.capes[i] == Url(resp.capes[i])
  {
    if i < |resp.skins| {
      ConvertSkinsAt(resp.skins, i);
    }
    if i < |resp.capes| {
      ConvertCapesAt(resp.capes, i);
    }
  }
}
