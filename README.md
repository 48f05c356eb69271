# mojang-rs in Dafny

A model of the logic at the heart of the `mojang` Rust crate, a client for
Mojang's web services, with proofs of what that logic promises.

**The server blocklist matcher.** Mojang publishes the SHA-1 digests of
blocked server patterns, one lowercase hex digest per line. To decide
whether an address is blocked, `blocked` does four things:

1. It lowercases the address and splits it on `.`.
2. It classifies the address as IPv4 when there are exactly four parts and
   each part parses as a Rust `u8`.
3. It builds the candidate patterns, most specific first:
   - for an IPv4 address: `a.b.c.d`, `a.b.c.*`, `a.b.*`, `a.*`;
   - for a hostname: the full name, then `*.` followed by each proper
     suffix.
4. It hashes the candidates in order until one matches, looking each
   digest up in the stored list.

The crate carries this matcher twice, with the same logic:

- `src/api/blocked_servers.rs` is the `api` module.
- `src/server_block.rs` is what the crate root exports.

Both copies share one specification, `BlocklistSpec`. They also share the
loops `IsV4Ip`, `BlockedIpv4` and `BlockedHostname`: the source code of
these is identical in the two files.

**The smaller pure pieces:**

- the `MetricKeys` names and the `get_keys_json` request body (`src/stats.rs`);
- `Model::from` (`src/api/mod.rs`);
- from the public-profile reader (`src/api/public_profile.rs`): `Model::from_str`, the skin-model fallback, the cape mapping and the `visit_map` field-collection loop;
- `SkinState::from` and the skin/cape mapping of `profile_information` (`src/api/profile.rs`).

## Layout

| file | module | models |
|---|---|---|
| `text.dfy` | `Text` | the Rust standard-library string operations used: ASCII folding, `split`, `join`, `lines`, `u8::from_str` |
| `blocklist_spec.dfy` | `BlocklistSpec` | candidate patterns, the `IsBlocked` answer, and the trace of the short-circuiting `\|\|` |
| `api_blocked_servers.dfy` | `ApiBlockedServers` | `src/api/blocked_servers.rs`, as methods with loops |
| `server_block.dfy` | `ServerBlock` | `src/server_block.rs` |
| `blocklist_scenarios.dfy` | `BlocklistScenarios` | subnet, domain and exact-entry consequences, and the library tests' intent |
| `stats.dfy` | `Stats` | `src/stats.rs` |
| `api_model.dfy` | `ApiModel` | `src/api/mod.rs` |
| `public_profile.dfy` | `PublicProfile` | `src/api/public_profile.rs` |
| `account_profile.dfy` | `AccountProfile` | `src/api/profile.rs` |

SHA-1 together with its lowercase-hex rendering is the function parameter
`hexSha1: string -> string`. Nothing is assumed about it. The lemmas that
say an address is *not* blocked take one hypothesis, `DistinctDigests`: none
of that address's candidates shares its digest with a different listed
pattern. This is a condition on finitely many strings, which SHA-1 can meet.
Injectivity on all strings would be false for any fixed-width digest.

`blocked` is imperative in the source: an accumulator updated in two `for`
loops. So it is a method with a loop invariant, and its ghost out-parameter
`hashed` lists the candidates actually hashed. Its contract states two things:

- the result equals the specification `IsBlocked`;
- `StopsAtFirstMatch` holds: the hashed candidates are a prefix of the
  candidate list, and only the last of them matches.

## Model

| member | source | states |
|---|---|---|
| Text.AsciiLower | src/api/blocked_servers.rs:31 | same length, no uppercase ASCII left, each character folded on its own (A-Z to a-z, all else kept) |
| Text.LowerIdempotent | src/api/blocked_servers.rs:31 | lowercasing twice is lowercasing once |
| Text.Split | src/api/blocked_servers.rs:32 | splitting on `.` always gives at least one part, and no part contains the separator |
| Text.JoinSplit | src/api/blocked_servers.rs:32 | re-joining the parts of a split with the same separator gives the input back |
| Text.SplitJoin | src/api/blocked_servers.rs:37 | joining separator-free parts and splitting again gives exactly those parts |
| Text.Join | src/api/blocked_servers.rs:37 | `[&str]::join`: no pieces give "", one piece gives itself, and the first piece always starts the result |
| Text.JoinLower | src/api/blocked_servers.rs:31-32 | a join of lowercase pieces with a lowercase separator is lowercase |
| Text.Lines | src/api/blocked_servers.rs:18 | `str::lines`: no line contains '\n'; the input is empty exactly when there are no lines |
| Text.LinesJoin | src/api/blocked_servers.rs:17-19 | lines without '\n' or a trailing '\r', written one per line with the last non-empty, are read back exactly and in order |
| Text.TerminatedLines | src/api/blocked_servers.rs:17-19 | lines without '\n' or a trailing '\r', each followed by its own line feed, are read back exactly and in order; no empty entry appears after the final line feed |
| Text.JoinLines | src/api/blocked_servers.rs:18 | text without '\r' and without a final line feed equals the re-join of its lines |
| Text.ParseU8 | src/api/blocked_servers.rs:71 | `u8::from_str` succeeds exactly for an optional '+' followed by one or more digits of value at most 255, and returns the decimal value of those digits |
| Text.ParsedU8Shape | src/api/blocked_servers.rs:71 | an accepted octet is non-empty, ends in a digit, and contains no '.', '*' or uppercase letter |
| Text.ParseU8AcceptsSignAndZeros | src/api/blocked_servers.rs:71 | "+7" and "007" parse as 7 |
| Text.ParseU8Rejects | src/api/blocked_servers.rs:71 | "256", "", "+" and "-1" are rejected |
| BlocklistSpec.Candidates | src/api/blocked_servers.rs:36-51 | one candidate per part, and the first is the re-joined address |
| BlocklistSpec.V4CandidateAt | src/api/blocked_servers.rs:38-41 | the IPv4 loop at index i checks the first i octets followed by ".*", as candidate number \|parts\|-i |
| BlocklistSpec.HostnameCandidateAt | src/api/blocked_servers.rs:47-50 | the hostname loop at index i checks "*." followed by the labels from i on, as candidate number i |
| BlocklistSpec.AddressParts | src/api/blocked_servers.rs:31-32 | the lowercased address has at least one part |
| BlocklistSpec.EmptyListBlocksNothing | src/api/blocked_servers.rs:30-52 | with no stored lines no address is blocked |
| BlocklistSpec.FirstCandidateIsAddress | src/api/blocked_servers.rs:32-37 | the first candidate is the lowercased address itself |
| BlocklistSpec.ExactMatchBlocks | src/server_block.rs:49 | an address whose lowercased form has its digest stored is blocked |
| BlocklistSpec.CaseInsensitive | src/server_block.rs:31 | the answer for an address equals the answer for its lowercase form |
| BlocklistSpec.V4NeedsFourParts | src/api/blocked_servers.rs:65-67 | a part count other than four is never IPv4 |
| BlocklistSpec.V4Candidates | src/api/blocked_servers.rs:36-42 | for IPv4 the candidates are exactly a.b.c.d, a.b.c.\*, a.b.\*, a.\*, in that order |
| BlocklistSpec.V4CandidatesNoStarDot | src/api/blocked_servers.rs:36-42 | no IPv4 candidate starts with "\*." |
| BlocklistSpec.HostnameCandidates | src/api/blocked_servers.rs:46-51 | for a hostname: \|parts\| candidates, the full name then "\*." + each proper suffix; a single label yields only itself; no generalisation is a bare "\*" |
| BlocklistSpec.BlockedIffPatternListed | src/api/blocked_servers.rs:55-61 | an address is blocked whenever one of its candidates is a listed pattern; when no candidate shares a digest with a different listed pattern, only then |
| BlocklistSpec.CheckedStep | src/server_block.rs:39-43 | one step of the `\|\|` chain keeps the running OR, and hashes the candidate only while nothing has matched |
| ApiBlockedServers.GetBlockedServers | src/api/blocked_servers.rs:12-19 | entries are the body's lines; none contains '\n'; an empty body gives an empty list |
| ApiBlockedServers.GetBlockedServersKeepsLines | src/api/blocked_servers.rs:17-19 | a body of digests written one per line, the last non-empty and without a final line feed, is stored as exactly those digests, in order |
| ApiBlockedServers.GetBlockedServersKeepsTerminatedLines | src/api/blocked_servers.rs:17-19 | a body in which every digest is followed by a line feed is stored as exactly those digests, in order, an empty last line included |
| ApiBlockedServers.CheckIfBlocked | src/api/blocked_servers.rs:55-61 | true exactly when some stored line equals the candidate's digest |
| ApiBlockedServers.IsV4Ip | src/api/blocked_servers.rs:63-77 | true exactly for four parts that all parse as `u8` |
| ApiBlockedServers.Blocked | src/api/blocked_servers.rs:30-52 | result is `IsBlocked`; the candidates hashed stop at the first match |
| ApiBlockedServers.BlockedIpv4 | src/api/blocked_servers.rs:36-42 | the IPv4 branch returns the OR over the IPv4 candidates, hashing none after a match |
| ApiBlockedServers.BlockedHostname | src/api/blocked_servers.rs:45-51 | the hostname branch returns the OR over the hostname candidates, hashing none after a match |
| ServerBlock.New | src/server_block.rs:12-24 | `hashes` are the body's lines; none contains '\n'; an empty body gives an empty list |
| ServerBlock.NewKeepsLines | src/server_block.rs:22-24 | a body of digests written one per line, the last non-empty and without a final line feed, is stored as exactly those digests, in order |
| ServerBlock.NewKeepsTerminatedLines | src/server_block.rs:22-24 | a body in which every digest is followed by a line feed is stored as exactly those digests, in order, an empty last line included |
| ServerBlock.NewRejoins | src/server_block.rs:22-24 | a '\r'-free body without a final line feed equals its stored lines re-joined |
| ServerBlock.Blocked | src/server_block.rs:27-55 | result is `IsBlocked`, through the same IPv4 and hostname branches; the candidates hashed stop at the first match |
| BlocklistScenarios.NameRoundTrip | src/api/blocked_servers.rs:31-32 | a dotted name of lowercase labels splits back into those labels |
| BlocklistScenarios.OctetsRoundTrip | src/api/blocked_servers.rs:31-32 | a dotted quad of valid octets splits back into its four octets |
| BlocklistScenarios.SubnetWildcardBlocks | src/api/blocked_servers.rs:38-41 | a stored "a.b.c.\*" blocks every a.b.c.d |
| BlocklistScenarios.WildcardPrefixesDiffer | src/api/blocked_servers.rs:40 | two ".\*" patterns are equal only when their octet prefixes are |
| BlocklistScenarios.SubnetPatternNotCandidate | src/api/blocked_servers.rs:36-42 | "a.b.c.\*" is none of the candidates of a.b.x.d when x and c differ |
| BlocklistScenarios.SubnetWildcardOnlyThatSubnet | src/api/blocked_servers.rs:36-42 | a stored "a.b.c.\*" does not block a.b.x.d when x and c differ, unless a candidate of a.b.x.d has the same digest as the pattern |
| BlocklistScenarios.HostnameWildcardsStartWithStar | src/api/blocked_servers.rs:47-50 | every hostname candidate after the first starts with '\*' |
| BlocklistScenarios.ExactPatternMatchesOnlyItself | src/api/blocked_servers.rs:46-51 | a stored pattern not starting with '\*' blocks the hostname it spells in any case; when no candidate collides with it, it blocks no other hostname |
| BlocklistScenarios.LabelsRoundTrip | src/api/blocked_servers.rs:63-77 | four lowercase dot-free labels, the first not a `u8`, split back into those labels and are not IPv4 |
| BlocklistScenarios.DomainWildcardBlocksExactlySubdomains | src/api/blocked_servers.rs:46-51 | a stored "\*.suffix" blocks every hostname whose labels end in the suffix's labels as a proper suffix; when no candidate collides with the pattern, it blocks no other hostname |
| BlocklistScenarios.SubdomainBlocked | src/api/blocked_servers.rs:47-50 | with any digest, a stored "\*." followed by the labels from index i >= 1 on blocks the hostname |
| BlocklistScenarios.ExactHostnameExample | tests/test.rs:12-18 | a stored digest of "mc.playmc.mx" blocks "mc.playmc.mx" and "MC.PLAYMC.MX" |
| BlocklistScenarios.ExactHostnameExcludesSubdomain | src/server_block.rs:49-53 | that entry does not block "sub.mc.playmc.mx", unless a candidate of that name has the same digest as "mc.playmc.mx" |
| BlocklistScenarios.DomainWildcardExample | src/server_block.rs:50-53 | with any digest, a stored "\*.domain.tld" blocks "sub.domain.tld" |
| BlocklistScenarios.DomainWildcardExcludesOther | src/server_block.rs:50-53 | a stored "\*.domain.tld" does not block "other.tld", unless a candidate of "other.tld" has the same digest |
| BlocklistScenarios.OutOfRangeOctetIsHostname | src/server_block.rs:73-77 | "999.1.1.1" is not IPv4 |
| BlocklistScenarios.WrongPartCountIsHostname | src/server_block.rs:68-70 | "1.2.3.4.5" and "1.2.3" have 5 and 3 parts and are not IPv4 |
| BlocklistScenarios.SignedOctetsAreIpv4 | src/server_block.rs:73-77 | "+1.02.3.255" is IPv4: `u8` parsing takes a sign and leading zeros |
| Stats.Name | src/stats.rs:26-33 | every display name is non-empty |
| Stats.NameSnakeCase | src/stats.rs:26-33 | every name uses only a-z and '\_', so it holds no comma, quote or backslash and needs no JSON escaping |
| Stats.NameInjective | src/stats.rs:26-33 | different keys have different names |
| Stats.FromNameName | src/stats.rs:26-33 | each name reads back as its own key |
| Stats.NameFromName | src/stats.rs:26-33 | a string reads back as a key only when it is exactly that key's name |
| Stats.Jsonify | src/stats.rs:19-21 | the name between two double quotes, with no comma anywhere |
| Stats.ParseJsonify | src/stats.rs:19-21 | the quoted name reads back as its key |
| Stats.JsonifyAll | src/stats.rs:97-100 | one JSON literal per key, in input order |
| Stats.GetKeysJson | src/stats.rs:96-104 | the body starts with `{"metricKeys":[` and ends with `]}` |
| Stats.ParseGetKeysJson | src/stats.rs:96-104 | the body determines the key list, order included: the reader recovers it exactly |
| Stats.GetKeysJsonInjective | src/stats.rs:96-104 | different key lists give different bodies |
| Stats.EmptyKeysJson | src/stats.rs:97-103 | no keys give `{"metricKeys":[]}` |
| Stats.CountJoin | src/stats.rs:101 | joining n comma-free pieces with "," inserts n-1 commas |
| Stats.KeysJsonCommas | src/stats.rs:97-103 | n >= 1 keys give a body with exactly n-1 commas |
| Stats.DefaultRequestBody | src/stats.rs:48-53 | `Stats::new` asks for item\_sold\_minecraft then prepaid\_card\_redeemed\_minecraft, and nothing else |
| ApiModel.ModelFrom | src/api/mod.rs:22-30 | `Slim` exactly when the ASCII-lowercase input is "slim"; total |
| ApiModel.ModelFromSlimSpellings | src/api/mod.rs:24 | `Slim` exactly for the four-character strings whose letters fold to s, l, i, m |
| ApiModel.ModelFromIgnoresCase | src/api/mod.rs:24 | the result depends only on the lowercased input |
| ApiModel.ModelFromExamples | src/api/mod.rs:24-28 | "normal", "" and "thin" give `Normal`; "SLIM" and "Slim" give `Slim` |
| PublicProfile.ModelFromStr | src/api/public_profile.rs:179-185 | `Ok` exactly for "slim"/"normal" in any ASCII case, agreeing with `Model::from`; otherwise the error "Unknown model: " + input |
| PublicProfile.ModelFromStrAgrees | src/api/public_profile.rs:180-183 | success agrees with `Model::from`; every rejected string is one `Model::from` maps to `Normal` |
| PublicProfile.ResolveModel | src/api/public_profile.rs:154-157 | `Slim` exactly when metadata is present and its model lowercases to "slim"; `Normal` otherwise |
| PublicProfile.ResolveModelIsModelFrom | src/api/public_profile.rs:154-157 | with metadata present the fallback equals `Model::from`; an unparsable model gives `Normal` |
| PublicProfile.SkinFrom | src/api/public_profile.rs:162-166 | skin URL copied; cape present exactly when the textures hold one, with its URL |
| PublicProfile.EntryError | src/api/public_profile.rs:103-126 | at an entry: an unknown key is reported as unknown, a repeated known key as duplicate; otherwise no error exactly when the value has the field's type |
| PublicProfile.FirstError | src/api/public_profile.rs:102-127 | the first entry that raises an error, with every earlier entry clean |
| PublicProfile.Lookup | src/api/public_profile.rs:109-123 | a value is found exactly when some entry has the key, and it is that entry's value |
| PublicProfile.Finish | src/api/public_profile.rs:129-167 | properties are checked before `id` and `name`; a profile exactly when all fields are present, the first property has `value`, and it decodes |
| PublicProfile.VisitMap | src/api/public_profile.rs:98-167 | the loop's result is the error of the first offending entry, or else `Finish` on the collected fields |
| PublicProfile.FirstErrorIs | src/api/public_profile.rs:102-127 | an error at entry i with all earlier entries clean is the first error |
| PublicProfile.RepeatedKeyRejected | src/api/public_profile.rs:104-124 | any key that occurs twice makes the read fail |
| PublicProfile.DuplicateFieldReported | src/api/public_profile.rs:104-124 | a second id/name/properties with nothing wrong before it is reported as that duplicate field |
| PublicProfile.UnknownKeyRejected | src/api/public_profile.rs:125 | any key outside the three fields makes the read fail |
| PublicProfile.UnknownFieldReported | src/api/public_profile.rs:125 | the first unknown key, with nothing wrong before it, is reported by name with the expected field list |
| PublicProfile.CleanKeys | src/api/public_profile.rs:102-127 | after a clean loop, every key is known and none repeats |
| PublicProfile.CleanLoop | src/api/public_profile.rs:102-127 | after a clean loop each present field has its type, and the outcome is `Finish` |
| PublicProfile.ProfileNeedsCleanLoop | src/api/public_profile.rs:102-127 | a profile is produced only when no entry raised an error |
| PublicProfile.ProfileRequiresAllFields | src/api/public_profile.rs:129-167 | a profile requires distinct known keys, all three fields present with their types, non-empty properties with a `value` that decodes, and carries those values |
| PublicProfile.MissingFieldReported | src/api/public_profile.rs:129-136 | missing or empty properties, a missing `value`, a missing `id` and a missing `name` are each reported as that missing field, in that order |
| PublicProfile.DecodeFailureReported | src/api/public_profile.rs:137-152 | a textures value that does not decode is a custom error with the base64 or skin message |
| PublicProfile.ProfileCape | src/api/public_profile.rs:154-165 | the profile's cape is present exactly when the textures hold one, with its URL; the model is `Slim` exactly for "slim" metadata |
| AccountProfile.SkinStateFrom | src/api/profile.rs:81-89 | `Active` exactly for "ACTIVE" |
| AccountProfile.SkinStateCaseSensitive | src/api/profile.rs:83-87 | "ACTIVE" is `Active`; "active", "Active", "" and "DISABLED" are `Disabled` |
| AccountProfile.ConvertSkin | src/api/profile.rs:70-75 | id and URL copied; `Active` exactly for "ACTIVE"; variant is `Model::from` of the variant string |
| AccountProfile.ConvertSkins | src/api/profile.rs:67-76 | as many skins as in the response |
| AccountProfile.ConvertSkinsAt | src/api/profile.rs:67-76 | skin i is the conversion of the response's skin i |
| AccountProfile.ConvertSkinsAppend | src/api/profile.rs:67-76 | mapping a concatenation maps each part in turn, so order is kept |
| AccountProfile.ConvertCapes | src/api/profile.rs:77 | as many capes as in the response |
| AccountProfile.ConvertCapesAt | src/api/profile.rs:77 | cape i is the response's string i as a URL |
| AccountProfile.ConvertCapesUrls | src/api/profile.rs:77 | every cape URL is the response's string at the same position |
| AccountProfile.ProfileInformation | src/api/profile.rs:64-78 | fails exactly when the id is not a UUID; otherwise id, name, and skin and cape counts come from the response |
| AccountProfile.ProfileMirrorsResponse | src/api/profile.rs:64-78 | each skin and cape in the profile mirrors the response entry at the same position |

## Left out

- HTTP: every `ureq` request, agent and timeout, and every transport or I/O error passed upward with `?`. The operations receive the response body or the decoded response instead.
- SHA-1 and its hex rendering (`format!("{:#02X}")` then lowercase) are the parameter `hexSha1`. The exact digest values are not modelled.
- Unicode case mapping. `to_lowercase` in `blocked` is modelled as ASCII A-Z folding only. Non-ASCII letters, whose lowercase form can differ in length, are not captured.
- JSON, base64 and UUID parsing (serde, serde_json, tinyjson, base64, uuid):
  - `visit_map` receives the map's entries with each value already typed;
  - an error from `next_key` (malformed JSON) is not modelled;
  - decoding the textures property is the parameter `decodeTextures`, which includes the lossy UTF-8 conversion;
  - `profile_information` takes UUID parsing as the parameter `parseUuid`.
- The `println!` of the decoded textures in `visit_map` (src/api/public_profile.rs:146).
- `Stats::new_metrics` beyond its request body: the POST, and the `total`, `last24h` and `sale_per_sec` fields. These involve `f32` and float-to-`u32` casts, so floating point is out. src/stats.rs is also not in the crate's module tree.
- The panic of `into_string().unwrap()` in `BlockedServers::new` (src/server_block.rs:18) when the body cannot be read as a string.
- `profile_information`'s `resp.id.parse()?` is modelled as the error `InvalidId`. src/error.rs has no conversion from a UUID parse error into `MojangError`.
- src/common.rs, src/player.rs, src/api/username.rs, src/error.rs, src/mojang_error.rs and src/lib.rs are not part of this model. They are request plumbing, enum declarations and module wiring.
- The stored list is a `seq`, not a set, because the source keeps a `Vec` of lines, in order and with duplicates. Membership is list containment.
- `str::lines` removes one '\r' before each '\n'. A final line ending in a bare '\r' keeps it, as current Rust does. A general specification would say "split on newline"; the model follows the code.
- The `||` chains in `blocked` stop hashing at the first match, as the Rust code does. A description that has every candidate evaluated gives the same boolean, and the model records the early stop (`StopsAtFirstMatch`).
- Stats.DefaultRequestBody: states the body as the framing around the two keys' JSON literals, not as one spelled-out string literal.
