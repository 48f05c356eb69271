/**
 * src/stats.rs: the metric key names and the JSON request body that
 * `Stats::new_metrics` posts. The POST itself and the numeric fields of the
 * response are outside the model.
 */
module Stats {
  import opened Text

  /** `enum MetricKeys`. */
  datatype MetricKeys =
    | ItemSoldMinecraft
    | PrepaidCardRedeemedMinecraft
    | ItemSoldCobalt
    | ItemSoldScrolls
    | PrepaidCardRedeemedCobalt
    | ItemSoldDungeons

  /** Lower-case ASCII letters and underscores only: nothing a JSON string would escape. */
  predicate SnakeCase(s: string) {
    forall i :: 0 <= i < |s| ==> 'a' <= s[i] <= 'z' || s[i] == '_'
  }

  /** The `Display` name of a key. */
  function Name(k: MetricKeys): (r: string)
    ensures r != []
  {
    match k
    case ItemSoldMinecraft => "item_sold_minecraft"
    case PrepaidCardRedeemedMinecraft => "prepaid_card_redeemed_minecraft"
    case ItemSoldCobalt => "item_sold_cobalt"
    case ItemSoldScrolls => "item_sold_scrolls"
    case PrepaidCardRedeemedCobalt => "prepaid_card_redeemed_cobalt"
    case ItemSoldDungeons => "item_sold_dungeons"
  }

  // One lemma per name: each literal is checked on its own, since a single
  // proof over all six string literals is costly for the solver.

  lemma ItemSoldMinecraftSnakeCase()
    ensures SnakeCase(Name(ItemSoldMinecraft))
  {
  }

  lemma PrepaidCardRedeemedMinecraftSnakeCase()
    ensures SnakeCase(Name(PrepaidCardRedeemedMinecraft))
  {
  }

  lemma ItemSoldCobaltSnakeCase()
    ensures SnakeCase(Name(ItemSoldCobalt))
  {
  }

  lemma ItemSoldScrollsSnakeCase()
    ensures SnakeCase(Name(ItemSoldScrolls))
  {
  }

  lemma PrepaidCardRedeemedCobaltSnakeCase()
    ensures SnakeCase(Name(PrepaidCardRedeemedCobalt))
  {
  }

  lemma ItemSoldDungeonsSnakeCase()
    ensures SnakeCase(Name(ItemSoldDungeons))
  {
  }

  /** A snake_case string has no comma, double quote or backslash. */
  lemma SnakeCaseIsPlain(s: string)
    requires SnakeCase(s)
    ensures ',' !in s && '"' !in s && '\\' !in s
  {
  }

  /** Every name is snake_case, so `jsonify` never needs to escape anything. */
  lemma NameSnakeCase(k: MetricKeys)
    ensures SnakeCase(Name(k)) && ',' !in Name(k) && '"' !in Name(k) && '\\' !in Name(k)
  {
    match k {
      case ItemSoldMinecraft => ItemSoldMinecraftSnakeCase();
      case PrepaidCardRedeemedMinecraft => PrepaidCardRedeemedMinecraftSnakeCase();
      case ItemSoldCobalt => ItemSoldCobaltSnakeCase();
      case ItemSoldScrolls => ItemSoldScrollsSnakeCase();
      case PrepaidCardRedeemedCobalt => PrepaidCardRedeemedCobaltSnakeCase();
      case ItemSoldDungeons => ItemSoldDungeonsSnakeCase();
    }
    SnakeCaseIsPlain(Name(k));
  }

  /** The key a display name belongs to, if any. */
  function FromName(s: string): (r: Option<MetricKeys>)
    ensures r.Some? ==> Name(r.value) == s
  {
    if s == "item_sold_minecraft" then Some(ItemSoldMinecraft)
    else if s == "prepaid_card_redeemed_minecraft" then Some(PrepaidCardRedeemedMinecraft)
    else if s == "item_sold_cobalt" then Some(ItemSoldCobalt)
    else if s == "item_sold_scrolls" then Some(ItemSoldScrolls)
    else if s == "prepaid_card_redeemed_cobalt" then Some(PrepaidCardRedeemedCobalt)
    else if s == "item_sold_dungeons" then Some(ItemSoldDungeons)
    else None
  }

  /** The six names have six different lengths, so no two keys share a name. */
  lemma NameInjective(j: MetricKeys, k: MetricKeys)
    requires Name(j) == Name(k)
    ensures j == k
  {
    assert |Name(j)| == |Name(k)|;
  }

  /** Every name is read back as its own key. */
  lemma FromNameName(k: MetricKeys)
    ensures FromName(Name(k)) == Some(k)
  {
  }

  /** A string is read back as a key only when it is exactly that key's name. */
  lemma NameFromName(s: string, k: MetricKeys)
    requires FromName(s) == Some(k)
    ensures Name(k) == s
  {
  }

  /** `jsonify`: the name as a JSON string literal. */
  function Jsonify(k: MetricKeys): (r: string)
    ensures |r| == |Name(k)| + 2 && r[0] == '"' && r[|r| - 1] == '"'
    ensures r[1..|r| - 1] == Name(k)
    ensures ',' !in r
  {
    NameSnakeCase(k);
    "\"" + Name(k) + "\""
  }

  /** The inside of a double-quoted string. */
  function Unquote(s: string): (r: Option<string>)
    ensures r.Some? ==> |r.value| + 2 == |s|
  {
    if |s| >= 2 && s[0] == '"' && s[|s| - 1] == '"' then Some(s[1..|s| - 1]) else None
  }

  /** Reading a key back from its JSON string literal. */
  function ParseKey(s: string): (r: Option<MetricKeys>)
    ensures r.Some? ==> Unquote(s).Some?
  {
    match Unquote(s)
    case None => None
    case Some(name) => FromName(name)
  }

  lemma ParseJsonify(k: MetricKeys)
    ensures ParseKey(Jsonify(k)) == Some(k)
  {
    FromNameName(k);
  }

  /** The JSON literals of the keys, in input order. */
  function JsonifyAll(ks: seq<MetricKeys>): (r: seq<string>)
    ensures |r| == |ks|
    ensures forall i :: 0 <= i < |ks| ==> r[i] == Jsonify(ks[i])
  {
    seq(|ks|, i requires 0 <= i < |ks| => Jsonify(ks[i]))
  }

  const Prefix: string := "{\"metricKeys\":["
  const Suffix: string := "]}"

  /** `get_keys_json`: the keys' JSON literals, comma-separated, inside `{"metricKeys":[...]}`. */
  function GetKeysJson(ks: seq<MetricKeys>): (r: string)
    ensures |r| >= |Prefix| + |Suffix|
    ensures r[..|Prefix|] == Prefix && r[|r| - |Suffix|..] == Suffix
  {
    Prefix + Join(JsonifyAll(ks), ",") + Suffix
  }

  /** Reads the keys back from a list of JSON literals. */
  function ParseKeys(parts: seq<string>): (r: Option<seq<MetricKeys>>)
    ensures r.Some? ==> |r.value| == |parts|
    decreases |parts|
  {
    if parts == [] then Some([])
    else
      match (ParseKey(parts[0]), ParseKeys(parts[1..]))
      case (Some(k), Some(ks)) => Some([k] + ks)
      case _ => None
  }

  /** The inverse of `get_keys_json`: recovers the key list from a request body. */
  function ParseKeysJson(s: string): (r: Option<seq<MetricKeys>>)
  {
    if |s| >= |Prefix| + |Suffix| && s[..|Prefix|] == Prefix && s[|s| - |Suffix|..] == Suffix then
      var inner := s[|Prefix|..|s| - |Suffix|];
      if inner == [] then Some([]) else ParseKeys(Split(inner, ','))
    else None
  }

  lemma {:induction false} ParseKeysJsonifyAll(ks: seq<MetricKeys>)
    ensures ParseKeys(JsonifyAll(ks)) == Some(ks)
    decreases |ks|
  {
    if ks != [] {
      var parts := JsonifyAll(ks);
      assert parts[1..] == JsonifyAll(ks[1..]);
      ParseJsonify(ks[0]);
      ParseKeysJsonifyAll(ks[1..]);
      assert ks == [ks[0]] + ks[1..];
    }
  }

  /** The request body determines the key list: `get_keys_json` loses nothing, order included. */
  lemma ParseGetKeysJson(ks: seq<MetricKeys>)
    ensures ParseKeysJson(GetKeysJson(ks)) == Some(ks)
  {
    var parts := JsonifyAll(ks);
    var inner := Join(parts, ",");
    var s := GetKeysJson(ks);
    assert s[|Prefix|..|s| - |Suffix|] == inner;
    if ks == [] {
      assert inner == [];
    } else {
      assert inner != [];
      SplitJoin(parts, ',');
      ParseKeysJsonifyAll(ks);
    }
  }

  /** Two key lists give the same request body only when they are equal. */
  lemma GetKeysJsonInjective(js: seq<MetricKeys>, ks: seq<MetricKeys>)
    requires GetKeysJson(js) == GetKeysJson(ks)
    ensures js == ks
  {
    ParseGetKeysJson(js);
    ParseGetKeysJson(ks);
  }

  /** An empty key list gives `{"metricKeys":[]}`. */
  lemma EmptyKeysJson()
    ensures GetKeysJson([]) == "{\"metricKeys\":[]}"
  {
    assert JsonifyAll([]) == [];
  }

  /** Number of occurrences of `c` in `s`. */
  function Count(s: string, c: char): nat
    decreases |s|
  {
    if s == [] then 0 else (if s[0] == c then 1 else 0) + Count(s[1..], c)
  }

  lemma {:induction false} CountConcat(x: string, y: string, c: char)
    ensures Count(x + y, c) == Count(x, c) + Count(y, c)
    decreases |x|
  {
    if x == [] {
      assert x + y == y;
    } else {
      assert (x + y)[1..] == x[1..] + y;
      CountConcat(x[1..], y, c);
    }
  }

  lemma {:induction false} CountAbsent(s: string, c: char)
    requires c !in s
    ensures Count(s, c) == 0
    decreases |s|
  {
    if s != [] {
      CountAbsent(s[1..], c);
    }
  }

  /** Joining n comma-free pieces with "," puts n - 1 commas in. */
  lemma {:induction false} CountJoin(parts: seq<string>)
    requires |parts| >= 1
    requires forall k :: 0 <= k < |parts| ==> ',' !in parts[k]
    ensures Count(Join(parts, ","), ',') == |parts| - 1
    decreases |parts|
  {
    if |parts| == 1 {
      CountAbsent(parts[0], ',');
    } else {
      CountJoin(parts[1..]);
      CountAbsent(parts[0], ',');
      CountConcat(parts[0], ",", ',');
      CountConcat(parts[0] + ",", Join(parts[1..], ","), ',');
      assert Count(",", ',') == 1;
    }
  }

  lemma FramingHasNoComma()
    ensures ',' !in Prefix && ',' !in Suffix
  {
  }

  /** The body of n >= 1 keys holds exactly n - 1 commas, one between each pair of keys. */
  lemma KeysJsonCommas(ks: seq<MetricKeys>)
    requires |ks| >= 1
    ensures Count(GetKeysJson(ks), ',') == |ks| - 1
  {
    var inner := Join(JsonifyAll(ks), ",");
    CountJoin(JsonifyAll(ks));
    FramingHasNoComma();
    CountAbsent(Prefix, ',');
    CountAbsent(Suffix, ',');
    CountConcat(Prefix, inner, ',');
    CountConcat(Prefix + inner, Suffix, ',');
  }

  /** The keys `Stats::new` asks for. */
  const DefaultMetrics: seq<MetricKeys> := [ItemSoldMinecraft, PrepaidCardRedeemedMinecraft]

  /** `Stats::new` posts the two Minecraft keys, in this order, and nothing else. */
  lemma DefaultRequestBody()
    ensures GetKeysJson(DefaultMetrics) ==
      Prefix + Jsonify(ItemSoldMinecraft) + "," + Jsonify(PrepaidCardRedeemedMinecraft) + Suffix
  {
    var parts := JsonifyAll(DefaultMetrics);
    assert parts == [Jsonify(ItemSoldMinecraft), Jsonify(PrepaidCardRedeemedMinecraft)];
    assert parts[1..] == [Jsonify(PrepaidCardRedeemedMinecraft)];
  }
}
