/**
 * src/server_block.rs: the blocklist matcher as the crate root exports it.
 * Its `blocked`, `check_if_blocked` and `is_v4_ip` are the same code as in
 * src/api/blocked_servers.rs, so this module reuses `CheckIfBlocked`,
 * `IsV4Ip` and the two branch loops from there; what differs is the record
 * with its named `hashes` field and the constructor `new`, which receives
 * the response body instead of fetching it.
 */
module ServerBlock {
  import opened Text
  import opened BlocklistSpec
  import ApiBlockedServers

  /** `pub struct BlockedServers { pub hashes: Vec<String> }`. */
  datatype BlockedServers = BlockedServers(hashes: seq<string>)

  /** `BlockedServers::new` once the body has been read: one entry per line, in order. */
  function New(body: string): (r: BlockedServers)
    ensures forall k :: 0 <= k < |r.hashes| ==> '\n' !in r.hashes[k]
    ensures body == [] <==> r.hashes == []
  {
    BlockedServers(Lines(body))
  }

  /**
   * A body written one digest per line, without a line feed after the last
   * one, is stored as exactly those digests, in order.
   */
  lemma NewKeepsLines(digests: seq<string>)
    requires forall k :: 0 <= k < |digests| ==> PlainLine(digests[k])
    requires digests != [] ==> digests[|digests| - 1] != []
    ensures New(Join(digests, "\n")).hashes == digests
  {
    LinesJoin(digests);
  }

  /**
   * A body in which every digest is followed by a line feed, the last one
   * included, is stored as exactly those digests, in order; an empty last
   * line is kept too.
   */
  lemma NewKeepsTerminatedLines(digests: seq<string>)
    requires forall k :: 0 <= k < |digests| ==> PlainLine(digests[k])
    ensures New(Terminated(digests)).hashes == digests
  {
    TerminatedLines(digests);
  }

  /** A body of carriage-return-free lines is read back and re-joined unchanged. */
  lemma NewRejoins(body: string)
    requires '\r' !in body
    requires body != [] ==> body[|body| - 1] != '\n'
    ensures Join(New(body).hashes, "\n") == body
  {
    JoinLines(body);
  }

  /**
   * `BlockedServers::blocked`: the IPv4 branch returns on its own, the
   * hostname branch runs only for non-IPv4 input; `hashed` records the
   * candidates whose digest is computed.
   */
  method Blocked(servers: BlockedServers, server: string, hexSha1: string -> string)
    returns (blocked: bool, ghost hashed: seq<string>)
    ensures blocked == IsBlocked(servers.hashes, server, hexSha1)
    ensures StopsAtFirstMatch(servers.hashes, AddressCandidates(server), hexSha1, hashed)
  {
    var lowered := AsciiLower(server);
    var serverParts := Split(lowered, '.');
    var isV4 := ApiBlockedServers.IsV4Ip(serverParts);
    if isV4 {
      blocked, hashed := ApiBlockedServers.BlockedIpv4(servers.hashes, serverParts, hexSha1);
      return;
    }
    blocked, hashed := ApiBlockedServers.BlockedHostname(servers.hashes, serverParts, hexSha1);
  }
}
