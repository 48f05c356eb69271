/**
 * src/api/blocked_servers.rs: the blocklist container of the `api` module
 * and its matcher. The HTTP request of `get_blocked_servers` is outside the
 * model: it receives the response body.
 */
module ApiBlockedServers {
  import opened Text
  import opened BlocklistSpec

  /** `BlockedServers(Vec<String>)`; the field is what `into_inner` returns. */
  datatype BlockedServers = BlockedServers(hashes: seq<string>)

  /**
   * `get_blocked_servers` once the body has been read: every line of the
   * body becomes one entry, in order, without any validation.
   */
  function GetBlockedServers(body: string): (r: BlockedServers)
    ensures forall k :: 0 <= k < |r.hashes| ==> '\n' !in r.hashes[k]
    ensures body == [] <==> r.hashes == []
  {
    BlockedServers(Lines(body))
  }

  /**
   * A body written one digest per line, without a line feed after the last
   * one, is stored as exactly those digests, in order.
   */
  lemma GetBlockedServersKeepsLines(digests: seq<string>)
    requires forall k :: 0 <= k < |digests| ==> PlainLine(digests[k])
    requires digests != [] ==> digests[|digests| - 1] != []
    ensures GetBlockedServers(Join(digests, "\n")).hashes == digests
  {
    LinesJoin(digests);
  }

  /**
   * A body in which every digest is followed by a line feed, the last one
   * included, is stored as exactly those digests, in order; an empty last
   * line is kept too.
   */
  lemma GetBlockedServersKeepsTerminatedLines(digests: seq<string>)
    requires forall k :: 0 <= k < |digests| ==> PlainLine(digests[k])
    ensures GetBlockedServers(Terminated(digests)).hashes == digests
  {
    TerminatedLines(digests);
  }

  /** `check_if_blocked`: exact membership of the candidate's digest among the stored lines. */
  function CheckIfBlocked(hashes: seq<string>, toCheck: string, hexSha1: string -> string): (r: bool)
    ensures r <==> exists j :: 0 <= j < |hashes| && hashes[j] == hexSha1(toCheck)
  {
    hexSha1(toCheck) in hashes
  }

  /** `is_v4_ip`: exactly four parts, each accepted by `u8::from_str`. */
  method IsV4Ip(ip: seq<string>) returns (r: bool)
    ensures r == IsV4Address(ip)
    ensures r ==> |ip| == 4 && forall k :: 0 <= k < 4 ==> ParseU8(ip[k]).Some?
  {
    if |ip| != 4 {
      return false;
    }
    for k := 0 to |ip|
      invariant forall j :: 0 <= j < k ==> ParseU8(ip[j]).Some?
    {
      if ParseU8(ip[k]).None? {
        return false;
      }
    }
    return true;
  }

  /**
   * `BlockedServers::blocked`. `hashed` records the candidates whose digest
   * is computed: the `||` stops hashing at the first match.
   */
  method Blocked(servers: BlockedServers, server: string, hexSha1: string -> string)
    returns (blocked: bool, ghost hashed: seq<string>)
    ensures blocked == IsBlocked(servers.hashes, server, hexSha1)
    ensures StopsAtFirstMatch(servers.hashes, AddressCandidates(server), hexSha1, hashed)
  {
    var lowered := AsciiLower(server);
    var serverParts := Split(lowered, '.');
    var isV4 := IsV4Ip(serverParts);
    if isV4 {
      blocked, hashed := BlockedIpv4(servers.hashes, serverParts, hexSha1);
      return;
    }
    blocked, hashed := BlockedHostname(servers.hashes, serverParts, hexSha1);
  }

  /**
   * The IPv4 branch of `blocked`: the full address, then the 3-, 2- and
   * 1-octet prefixes with ".*". Both copies of the matcher run this branch.
   */
  method BlockedIpv4(hashes: seq<string>, serverParts: seq<string>, hexSha1: string -> string)
    returns (blocked: bool, ghost hashed: seq<string>)
    requires IsV4Address(serverParts)
    ensures blocked == AnyMatch(hashes, Candidates(serverParts), hexSha1)
    ensures StopsAtFirstMatch(hashes, Candidates(serverParts), hexSha1, hashed)
  {
    ghost var cs := Candidates(serverParts);
    var n := |serverParts|;
    blocked := false;
    hashed := [];
    CheckedStart(hashes, cs, hexSha1);
    var full := Join(serverParts, ".");
    CheckedStep(hashes, cs, 0, hexSha1, blocked, hashed, full);
    if !blocked { hashed := hashed + [full]; }
    blocked := blocked || CheckIfBlocked(hashes, full, hexSha1);
    for i := n downto 1
      invariant Checked(hashes, cs, n - i + 1, hexSha1, blocked, hashed)
    {
      var candidate := Join(serverParts[0..i], ".") + ".*";
      V4CandidateAt(serverParts, i);
      CheckedStep(hashes, cs, n - i, hexSha1, blocked, hashed, candidate);
      if !blocked { hashed := hashed + [candidate]; }
      blocked := blocked || CheckIfBlocked(hashes, candidate, hexSha1);
    }
    CheckedAll(hashes, cs, hexSha1, blocked, hashed);
  }

  /**
   * The hostname branch of `blocked`: the full name, then "*." and each
   * proper suffix. Both copies of the matcher run this branch.
   */
  method BlockedHostname(hashes: seq<string>, serverParts: seq<string>, hexSha1: string -> string)
    returns (blocked: bool, ghost hashed: seq<string>)
    requires |serverParts| >= 1 && !IsV4Address(serverParts)
    ensures blocked == AnyMatch(hashes, Candidates(serverParts), hexSha1)
    ensures StopsAtFirstMatch(hashes, Candidates(serverParts), hexSha1, hashed)
  {
    ghost var cs := Candidates(serverParts);
    var n := |serverParts|;
    blocked := false;
    hashed := [];
    CheckedStart(hashes, cs, hexSha1);
    var full := Join(serverParts, ".");
    CheckedStep(hashes, cs, 0, hexSha1, blocked, hashed, full);
    if !blocked { hashed := hashed + [full]; }
    blocked := blocked || CheckIfBlocked(hashes, full, hexSha1);
    for i := 1 to n
      invariant Checked(hashes, cs, i, hexSha1, blocked, hashed)
    {
      var candidate := "*." + Join(serverParts[i..], ".");
      HostnameCandidateAt(serverParts, i);
      CheckedStep(hashes, cs, i, hexSha1, blocked, hashed, candidate);
      if !blocked { hashed := hashed + [candidate]; }
      blocked := blocked || CheckIfBlocked(hashes, candidate, hexSha1);
    }
    CheckedAll(hashes, cs, hexSha1, blocked, hashed);
  }
}
