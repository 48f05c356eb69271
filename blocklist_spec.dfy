/**
 * What the server-blocklist matcher computes, stated once for both copies
 * of it (src/api/blocked_servers.rs and src/server_block.rs).
 *
 * An address is lower-cased and split on '.'. It is an IPv4 literal when it
 * has exactly four parts that each parse as `u8`. Its candidate patterns,
 * most specific first, are the address itself and then either the shorter
 * octet prefixes followed by ".*" (IPv4) or "*." followed by each proper
 * label suffix (hostname). The address is blocked when the SHA-1 hex digest
 * of some candidate is one of the stored lines.
 *
 * SHA-1 and its lower-case hex rendering are a foreign crate; they appear
 * here as the function parameter `hexSha1`, about which nothing is assumed
 * unless a lemma says so.
 */
module BlocklistSpec {
  import opened Text

  /** The condition `is_v4_ip` tests: four parts, each accepted by `u8::from_str`. */
  predicate IsV4Address(parts: seq<string>) {
    |parts| == 4 && forall k :: 0 <= k < |parts| ==> ParseU8(parts[k]).Some?
  }

  /** IPv4 generalisation: the first `n` octets followed by ".*". */
  function PrefixWildcard(parts: seq<string>, n: nat): string
    requires n <= |parts|
  {
    Join(parts[..n], ".") + ".*"
  }

  /** Hostname generalisation: "*." followed by the labels from index `i` on. */
  function SuffixWildcard(parts: seq<string>, i: nat): string
    requires i <= |parts|
  {
    "*." + Join(parts[i..], ".")
  }

  /** The IPv4 generalisations for `n`, `n - 1`, ..., 1 leading octets, in that order. */
  function PrefixWildcards(parts: seq<string>, n: nat): (ws: seq<string>)
    requires n <= |parts|
    ensures |ws| == n
    decreases n
  {
    if n == 0 then [] else [PrefixWildcard(parts, n)] + PrefixWildcards(parts, n - 1)
  }

  /** The hostname generalisations for the suffixes from index `i` to `|parts| - 1`, in that order. */
  function SuffixWildcards(parts: seq<string>, i: nat): (ws: seq<string>)
    requires i <= |parts|
    ensures |ws| == |parts| - i
    decreases |parts| - i
  {
    if i == |parts| then [] else [SuffixWildcard(parts, i)] + SuffixWildcards(parts, i + 1)
  }

  lemma {:induction false} PrefixWildcardsAt(parts: seq<string>, n: nat, j: nat)
    requires n <= |parts| && j < n
    ensures PrefixWildcards(parts, n)[j] == PrefixWildcard(parts, n - j)
    decreases n
  {
    if j > 0 {
      PrefixWildcardsAt(parts, n - 1, j - 1);
    }
  }

  lemma {:induction false} SuffixWildcardsAt(parts: seq<string>, i: nat, j: nat)
    requires i <= j < |parts|
    ensures SuffixWildcards(parts, i)[j - i] == SuffixWildcard(parts, j)
    decreases j - i
  {
    if j > i {
      SuffixWildcardsAt(parts, i + 1, j);
    }
  }

  /**
   * The candidate patterns of an address already split into parts, in the
   * order in which they are checked.
   */
  function Candidates(parts: seq<string>): (cs: seq<string>)
    requires |parts| >= 1
    ensures |cs| == |parts|
    ensures cs[0] == Join(parts, ".")
  {
    [Join(parts, ".")] +
    (if IsV4Address(parts) then PrefixWildcards(parts, |parts| - 1) else SuffixWildcards(parts, 1))
  }

  /** The IPv4 candidate for the first `i` octets stands at position `|parts| - i`. */
  lemma V4CandidateAt(parts: seq<string>, i: nat)
    requires IsV4Address(parts) && 1 <= i < |parts|
    ensures Candidates(parts)[|parts| - i] == PrefixWildcard(parts, i)
  {
    PrefixWildcardsAt(parts, |parts| - 1, |parts| - i - 1);
  }

  /** The hostname candidate for the labels from `i` on stands at position `i`. */
  lemma HostnameCandidateAt(parts: seq<string>, i: nat)
    requires |parts| >= 1 && !IsV4Address(parts) && 1 <= i < |parts|
    ensures Candidates(parts)[i] == SuffixWildcard(parts, i)
  {
    SuffixWildcardsAt(parts, 1, i);
  }

  /** A prefix one longer is the prefix followed by the next element. */
  lemma PrefixSnoc(cs: seq<string>, k: nat)
    requires k < |cs|
    ensures cs[..k + 1] == cs[..k] + [cs[k]]
  {
  }

  /** The parts of a server address after lower-casing. */
  function AddressParts(server: string): (parts: seq<string>)
    ensures |parts| >= 1
  {
    Split(AsciiLower(server), '.')
  }

  function AddressCandidates(server: string): seq<string> {
    Candidates(AddressParts(server))
  }

  /** Some pattern of `cs` has its digest among the stored lines. */
  predicate AnyMatch(hashes: seq<string>, cs: seq<string>, hexSha1: string -> string) {
    exists k :: 0 <= k < |cs| && hexSha1(cs[k]) in hashes
  }

  /** The boolean `blocked` returns. */
  predicate IsBlocked(hashes: seq<string>, server: string, hexSha1: string -> string) {
    AnyMatch(hashes, AddressCandidates(server), hexSha1)
  }

  /**
   * `hashed` lists the candidates that a left-to-right `||` chain over `cs`
   * hashes: a prefix of `cs` in which only the last entry may match, and
   * which stops short of the end of `cs` only at a match.
   */
  ghost predicate StopsAtFirstMatch(hashes: seq<string>, cs: seq<string>,
                                    hexSha1: string -> string, hashed: seq<string>) {
    hashed <= cs &&
    (forall k :: 0 <= k < |hashed| - 1 ==> hexSha1(hashed[k]) !in hashes) &&
    (|hashed| < |cs| ==> hashed != [] && hexSha1(hashed[|hashed| - 1]) in hashes) &&
    (AnyMatch(hashes, cs, hexSha1) <==> hashed != [] && hexSha1(hashed[|hashed| - 1]) in hashes)
  }

  /** One more step of the `||` chain. */
  lemma AnyMatchSnoc(hashes: seq<string>, cs: seq<string>, c: string, hexSha1: string -> string)
    ensures AnyMatch(hashes, cs + [c], hexSha1) == (AnyMatch(hashes, cs, hexSha1) || hexSha1(c) in hashes)
  {
    var cs' := cs + [c];
    assert cs'[|cs|] == c;
    assert forall k :: 0 <= k < |cs| ==> cs'[k] == cs[k];
  }

  /**
   * Extending the checked prefix by one candidate keeps the trace of an
   * `||` chain: the candidate is hashed exactly when nothing matched yet.
   */
  lemma StopsAtFirstMatchStep(hashes: seq<string>, cs: seq<string>, c: string,
                              hexSha1: string -> string, hashed: seq<string>)
    requires StopsAtFirstMatch(hashes, cs, hexSha1, hashed)
    ensures var hashed' := if AnyMatch(hashes, cs, hexSha1) then hashed else hashed + [c];
            StopsAtFirstMatch(hashes, cs + [c], hexSha1, hashed')
  {
    AnyMatchSnoc(hashes, cs, c, hexSha1);
    if !AnyMatch(hashes, cs, hexSha1) {
      assert |hashed| == |cs| && hashed == cs;
      var hashed' := hashed + [c];
      assert hashed'[|hashed|] == c;
      forall k | 0 <= k < |hashed'| - 1 ensures hexSha1(hashed'[k]) !in hashes {
        assert hashed'[k] == cs[k];
      }
    }
  }

  /**
   * The state of the `||` chain after the first `k` candidates of `cs`:
   * `blocked` is their OR and `hashed` the ones hashed so far.
   */
  ghost predicate Checked(hashes: seq<string>, cs: seq<string>, k: nat, hexSha1: string -> string,
                          blocked: bool, hashed: seq<string>) {
    k <= |cs| &&
    blocked == AnyMatch(hashes, cs[..k], hexSha1) &&
    StopsAtFirstMatch(hashes, cs[..k], hexSha1, hashed)
  }

  lemma CheckedStart(hashes: seq<string>, cs: seq<string>, hexSha1: string -> string)
    ensures Checked(hashes, cs, 0, hexSha1, false, [])
  {
  }

  /** Checking candidate `k`, skipping its hash when a match was already found. */
  lemma CheckedStep(hashes: seq<string>, cs: seq<string>, k: nat, hexSha1: string -> string,
                    blocked: bool, hashed: seq<string>, candidate: string)
    requires Checked(hashes, cs, k, hexSha1, blocked, hashed)
    requires k < |cs| && candidate == cs[k]
    ensures Checked(hashes, cs, k + 1, hexSha1, blocked || hexSha1(candidate) in hashes,
                    if blocked then hashed else hashed + [candidate])
  {
    PrefixSnoc(cs, k);
    AnyMatchSnoc(hashes, cs[..k], candidate, hexSha1);
    StopsAtFirstMatchStep(hashes, cs[..k], candidate, hexSha1, hashed);
  }

  lemma CheckedAll(hashes: seq<string>, cs: seq<string>, hexSha1: string -> string,
                   blocked: bool, hashed: seq<string>)
    requires Checked(hashes, cs, |cs|, hexSha1, blocked, hashed)
    ensures blocked == AnyMatch(hashes, cs, hexSha1)
    ensures StopsAtFirstMatch(hashes, cs, hexSha1, hashed)
  {
    assert cs[..|cs|] == cs;
  }

  // ---------------------------------------------------------------------
  // Properties of the matcher
  // ---------------------------------------------------------------------

  /** With no stored lines nothing is blocked. */
  lemma EmptyListBlocksNothing(server: string, hexSha1: string -> string)
    ensures !IsBlocked([], server, hexSha1)
  {
  }

  /** Splitting yields at least one part, and the first candidate is the lower-cased address itself. */
  lemma FirstCandidateIsAddress(server: string)
    ensures |AddressParts(server)| >= 1
    ensures AddressCandidates(server)[0] == AsciiLower(server)
  {
    JoinSplit(AsciiLower(server), '.');
  }

  /** An address whose lower-cased form has its digest stored is blocked. */
  lemma ExactMatchBlocks(hashes: seq<string>, server: string, hexSha1: string -> string)
    requires hexSha1(AsciiLower(server)) in hashes
    ensures IsBlocked(hashes, server, hexSha1)
  {
    FirstCandidateIsAddress(server);
  }

  /** The result depends only on the lower-cased address. */
  lemma CaseInsensitive(hashes: seq<string>, server: string, hexSha1: string -> string)
    ensures IsBlocked(hashes, server, hexSha1) == IsBlocked(hashes, AsciiLower(server), hexSha1)
  {
    LowerIdempotent(server);
  }

  /** `is_v4_ip` rejects the wrong number of parts. */
  lemma V4NeedsFourParts(parts: seq<string>)
    requires |parts| != 4
    ensures !IsV4Address(parts)
  {
  }

  /** A part that starts with a digit or '+' never starts a "*." pattern. */
  lemma NotStarDotPrefix(p: string, rest: string)
    requires p != [] && p[0] != '*'
    ensures !("*." <= p + rest)
  {
    assert (p + rest)[0] == p[0];
  }

  /** Joining up to four octets with '.'. */
  lemma JoinOctets(a: string, b: string, c: string, d: string)
    ensures Join([a], ".") == a
    ensures Join([a, b], ".") == a + "." + b
    ensures Join([a, b, c], ".") == a + "." + b + "." + c
    ensures Join([a, b, c, d], ".") == a + "." + b + "." + c + "." + d
  {
    assert [a, b][1..] == [b];
    assert [a, b, c][1..] == [b, c] && [b, c][1..] == [c];
    assert [a, b, c, d][1..] == [b, c, d] && [b, c, d][1..] == [c, d] && [c, d][1..] == [d];
    assert Join([b, c], ".") == b + "." + c;
    assert Join([c, d], ".") == c + "." + d;
    assert Join([b, c, d], ".") == b + "." + (c + "." + d);
  }

  /** A part accepted by `u8::from_str` does not start with '*'. */
  lemma OctetNotStar(a: string)
    requires ParseU8(a).Some?
    ensures a != [] && a[0] != '*'
  {
    ParsedU8Shape(a);
    if a[0] != '+' { assert AllDigits(a); }
  }

  /**
   * For an IPv4 literal a.b.c.d the candidates are exactly a.b.c.d,
   * a.b.c.*, a.b.* and a.*.
   */
  lemma {:induction false} V4Candidates(parts: seq<string>)
    requires IsV4Address(parts)
    ensures var a, b, c, d := parts[0], parts[1], parts[2], parts[3];
            Candidates(parts) == [a + "." + b + "." + c + "." + d, a + "." + b + "." + c + ".*",
                                  a + "." + b + ".*", a + ".*"]
  {
    var a, b, c, d := parts[0], parts[1], parts[2], parts[3];
    assert parts == [a, b, c, d];
    assert parts[..1] == [a] && parts[..2] == [a, b] && parts[..3] == [a, b, c];
    JoinOctets(a, b, c, d);
    V4CandidateAt(parts, 3);
    V4CandidateAt(parts, 2);
    V4CandidateAt(parts, 1);
  }

  /** No IPv4 candidate starts with "*.": each starts with the first octet. */
  lemma V4CandidatesNoStarDot(parts: seq<string>)
    requires IsV4Address(parts)
    ensures forall k :: 0 <= k < |Candidates(parts)| ==> !("*." <= Candidates(parts)[k])
  {
    V4Candidates(parts);
    var a, b, c, d := parts[0], parts[1], parts[2], parts[3];
    OctetNotStar(a);
    NotStarDotPrefix(a, "." + b + "." + c + "." + d);
    NotStarDotPrefix(a, "." + b + "." + c + ".*");
    NotStarDotPrefix(a, "." + b + ".*");
    NotStarDotPrefix(a, ".*");
  }

  /**
   * For a hostname the candidates are the full name and then "*." followed
   * by each proper suffix, longest first: one per label. A single label
   * yields only itself, and no generalisation is a bare "*".
   */
  lemma HostnameCandidates(parts: seq<string>)
    requires |parts| >= 1 && !IsV4Address(parts)
    ensures var cs := Candidates(parts);
            |cs| == |parts| && cs[0] == Join(parts, ".") &&
            (forall i :: 1 <= i < |parts| ==> cs[i] == "*." + Join(parts[i..], ".")) &&
            (|parts| == 1 ==> cs == [parts[0]]) &&
            (forall i :: 1 <= i < |parts| ==> cs[i] != "*" && "*." <= cs[i])
  {
    forall i | 1 <= i < |parts|
      ensures Candidates(parts)[i] == "*." + Join(parts[i..], ".")
    {
      HostnameCandidateAt(parts, i);
    }
  }

  // ---------------------------------------------------------------------
  // Behaviour against a list of digests of known patterns
  // ---------------------------------------------------------------------

  /** The stored lines for a list of plain-text patterns. */
  function DigestsOf(patterns: seq<string>, hexSha1: string -> string): (hs: seq<string>)
    ensures |hs| == |patterns|
    ensures forall k :: 0 <= k < |patterns| ==> hs[k] == hexSha1(patterns[k])
  {
    seq(|patterns|, k requires 0 <= k < |patterns| => hexSha1(patterns[k]))
  }

  /**
   * No candidate in `cs` shares its digest with a listed pattern other than
   * itself. This is what the negative results below need of the digest: a
   * statement about finitely many strings, which SHA-1 can meet, rather
   * than injectivity on all strings, which no fixed-width digest has.
   */
  predicate DistinctDigests(hexSha1: string -> string, cs: seq<string>, patterns: seq<string>) {
    forall i, j :: 0 <= i < |cs| && 0 <= j < |patterns| && hexSha1(cs[i]) == hexSha1(patterns[j]) ==>
      cs[i] == patterns[j]
  }

  /**
   * An address is blocked whenever one of its candidate patterns is listed.
   * When no candidate collides with a listed pattern, it is blocked only then.
   */
  lemma BlockedIffPatternListed(patterns: seq<string>, server: string, hexSha1: string -> string)
    ensures (exists k :: 0 <= k < |AddressCandidates(server)| && AddressCandidates(server)[k] in patterns) ==>
            IsBlocked(DigestsOf(patterns, hexSha1), server, hexSha1)
    ensures DistinctDigests(hexSha1, AddressCandidates(server), patterns) ==>
            (IsBlocked(DigestsOf(patterns, hexSha1), server, hexSha1) <==>
             exists k :: 0 <= k < |AddressCandidates(server)| && AddressCandidates(server)[k] in patterns)
  {
    var cs := AddressCandidates(server);
    var hs := DigestsOf(patterns, hexSha1);
    if IsBlocked(hs, server, hexSha1) && DistinctDigests(hexSha1, cs, patterns) {
      var k :| 0 <= k < |cs| && hexSha1(cs[k]) in hs;
      var j :| 0 <= j < |hs| && hs[j] == hexSha1(cs[k]);
      assert patterns[j] == cs[k];
    }
    if exists k :: 0 <= k < |cs| && cs[k] in patterns {
      var k :| 0 <= k < |cs| && cs[k] in patterns;
      var j :| 0 <= j < |patterns| && patterns[j] == cs[k];
      assert hs[j] == hexSha1(cs[k]);
    }
  }
}
