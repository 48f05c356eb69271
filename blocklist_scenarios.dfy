/**
 * Consequences of the matcher's definition for the situations its callers
 * care about: a subnet wildcard, a domain wildcard, an exact entry, and the
 * IPv4 classification boundary.
 */
module BlocklistScenarios {
  import opened Text
  import opened BlocklistSpec

  /** A dotted name of lower-case labels splits back into those labels. */
  lemma NameRoundTrip(parts: seq<string>)
    requires |parts| >= 1
    requires forall k :: 0 <= k < |parts| ==> IsLower(parts[k]) && '.' !in parts[k]
    ensures AddressParts(Join(parts, ".")) == parts
  {
    JoinLower(parts, ".");
    LowerOfLower(Join(parts, "."));
    SplitJoin(parts, '.');
  }

  /** The dotted form of four octets splits back into those octets. */
  lemma OctetsRoundTrip(a: string, b: string, c: string, d: string)
    requires ParseU8(a).Some? && ParseU8(b).Some? && ParseU8(c).Some? && ParseU8(d).Some?
    ensures AddressParts(a + "." + b + "." + c + "." + d) == [a, b, c, d]
  {
    ParsedU8Shape(a);
    ParsedU8Shape(b);
    ParsedU8Shape(c);
    ParsedU8Shape(d);
    JoinOctets(a, b, c, d);
    NameRoundTrip([a, b, c, d]);
  }

  /**
   * A stored digest of "a.b.c.*" blocks every address a.b.c.d, whatever
   * its last octet.
   */
  lemma SubnetWildcardBlocks(a: string, b: string, c: string, d: string, hexSha1: string -> string)
    requires ParseU8(a).Some? && ParseU8(b).Some? && ParseU8(c).Some? && ParseU8(d).Some?
    ensures IsBlocked([hexSha1(a + "." + b + "." + c + ".*")], a + "." + b + "." + c + "." + d, hexSha1)
  {
    var server := a + "." + b + "." + c + "." + d;
    OctetsRoundTrip(a, b, c, d);
    V4Candidates([a, b, c, d]);
    assert AddressCandidates(server)[1] == a + "." + b + "." + c + ".*";
  }

  /** Two ".*" patterns are equal only when their octet prefixes are. */
  lemma WildcardPrefixesDiffer(p: seq<string>, q: seq<string>)
    requires |p| >= 1 && |q| >= 1 && p != q
    requires forall k :: 0 <= k < |p| ==> '.' !in p[k]
    requires forall k :: 0 <= k < |q| ==> '.' !in q[k]
    ensures Join(p, ".") + ".*" != Join(q, ".") + ".*"
  {
    var x, y := Join(p, "."), Join(q, ".");
    if x + ".*" == y + ".*" {
      assert x == (x + ".*")[..|x|] == (y + ".*")[..|y|] == y;
      SplitJoin(p, '.');
      SplitJoin(q, '.');
      assert false;
    }
  }

  /** A dotted address ending in a digit is never a ".*" pattern. */
  lemma EndsInDigitNotWildcard(prefix: string, d: string, target: string)
    requires d != [] && IsDigit(d[|d| - 1])
    requires target != [] && target[|target| - 1] == '*'
    ensures prefix + d != target
  {
    var s := prefix + d;
    assert s[|s| - 1] == d[|d| - 1];
  }

  /** None of the four candidates of a.b.x.d is "a.b.c.*" when x and c differ. */
  lemma SubnetCandidatesDiffer(a: string, b: string, c: string, x: string, d: string)
    requires ParseU8(a).Some? && ParseU8(b).Some? && ParseU8(c).Some?
    requires ParseU8(x).Some? && ParseU8(d).Some?
    requires x != c
    ensures var target := a + "." + b + "." + c + ".*";
            a + "." + b + "." + x + "." + d != target &&
            a + "." + b + "." + x + ".*" != target &&
            a + "." + b + ".*" != target &&
            a + ".*" != target
  {
    ParsedU8Shape(a);
    ParsedU8Shape(b);
    ParsedU8Shape(c);
    ParsedU8Shape(x);
    ParsedU8Shape(d);
    EndsInDigitNotWildcard(a + "." + b + "." + x + ".", d, a + "." + b + "." + c + ".*");
    JoinOctets(a, b, c, d);
    JoinOctets(a, b, x, d);
    WildcardPrefixesDiffer([a, b, x], [a, b, c]);
    WildcardPrefixesDiffer([a, b], [a, b, c]);
    WildcardPrefixesDiffer([a], [a, b, c]);
  }

  /** "a.b.c.*" is none of the candidates of a.b.x.d when x and c differ. */
  lemma SubnetPatternNotCandidate(a: string, b: string, c: string, x: string, d: string)
    requires ParseU8(a).Some? && ParseU8(b).Some? && ParseU8(c).Some?
    requires ParseU8(x).Some? && ParseU8(d).Some?
    requires x != c
    ensures var cs := AddressCandidates(a + "." + b + "." + x + "." + d);
            forall k :: 0 <= k < |cs| ==> cs[k] != a + "." + b + "." + c + ".*"
  {
    var parts := [a, b, x, d];
    OctetsRoundTrip(a, b, x, d);
    assert AddressParts(a + "." + b + "." + x + "." + d) == parts;
    V4Candidates(parts);
    SubnetCandidatesDiffer(a, b, c, x, d);
  }

  /**
   * A stored "a.b.c.*" does not block an address a.b.x.d whose third octet
   * differs, as long as no candidate of a.b.x.d has the same digest.
   */
  lemma SubnetWildcardOnlyThatSubnet(a: string, b: string, c: string, x: string, d: string,
                                     hexSha1: string -> string)
    requires ParseU8(a).Some? && ParseU8(b).Some? && ParseU8(c).Some?
    requires ParseU8(x).Some? && ParseU8(d).Some?
    requires x != c
    requires DistinctDigests(hexSha1, AddressCandidates(a + "." + b + "." + x + "." + d),
                             [a + "." + b + "." + c + ".*"])
    ensures !IsBlocked([hexSha1(a + "." + b + "." + c + ".*")], a + "." + b + "." + x + "." + d, hexSha1)
  {
    var target := a + "." + b + "." + c + ".*";
    var server := a + "." + b + "." + x + "." + d;
    SubnetPatternNotCandidate(a, b, c, x, d);
    BlockedIffPatternListed([target], server, hexSha1);
    assert DigestsOf([target], hexSha1) == [hexSha1(target)];
  }

  /** Every generalisation of a hostname starts with '*'. */
  lemma HostnameWildcardsStartWithStar(parts: seq<string>, k: nat)
    requires |parts| >= 1 && !IsV4Address(parts) && 1 <= k < |parts|
    ensures Candidates(parts)[k] != [] && Candidates(parts)[k][0] == '*'
  {
    HostnameCandidateAt(parts, k);
  }

  /**
   * A stored exact hostname pattern (one not starting with '*') blocks the
   * hostname it spells in any case; when no candidate collides with it, it
   * blocks only that hostname: no sub-domain inherits it.
   */
  lemma ExactPatternMatchesOnlyItself(p: string, server: string, hexSha1: string -> string)
    requires p == [] || p[0] != '*'
    requires !IsV4Address(AddressParts(server))
    ensures AsciiLower(server) == p ==> IsBlocked([hexSha1(p)], server, hexSha1)
    ensures DistinctDigests(hexSha1, AddressCandidates(server), [p]) ==>
            (IsBlocked([hexSha1(p)], server, hexSha1) <==> AsciiLower(server) == p)
  {
    var parts := AddressParts(server);
    var cs := AddressCandidates(server);
    FirstCandidateIsAddress(server);
    forall k | 1 <= k < |cs| ensures cs[k] != p {
      HostnameWildcardsStartWithStar(parts, k);
    }
    if IsBlocked([hexSha1(p)], server, hexSha1) && DistinctDigests(hexSha1, cs, [p]) {
      var k :| 0 <= k < |cs| && hexSha1(cs[k]) in [hexSha1(p)];
      assert hexSha1(cs[k]) == hexSha1([p][0]);
      assert cs[k] == p;
    }
  }

  /** Four labels none of which is a number are a hostname. */
  lemma LabelsRoundTrip(a: string, b: string, c: string, d: string)
    requires a != [] && IsLower(a) && '.' !in a && ParseU8(a).None?
    requires IsLower(b) && '.' !in b && IsLower(c) && '.' !in c && IsLower(d) && '.' !in d
    ensures AddressParts(a + "." + b + "." + c + "." + d) == [a, b, c, d]
    ensures !IsV4Address([a, b, c, d])
  {
    JoinOctets(a, b, c, d);
    NameRoundTrip([a, b, c, d]);
  }

  lemma UpperExampleFolds()
    ensures AsciiLower("MC.PLAYMC.MX") == "mc.playmc.mx"
  {
    var m, p, x := AsciiLower("MC"), AsciiLower("PLAYMC"), AsciiLower("MX");
    assert m == "mc";
    assert p == "playmc";
    assert x == "mx";
    assert AsciiLower(".") == ".";
    LowerAppend("MC", ".");
    LowerAppend("MC.", "PLAYMC");
    LowerAppend("MC.PLAYMC", ".");
    LowerAppend("MC.PLAYMC.", "MX");
    assert "MC.PLAYMC.MX" == "MC" + "." + "PLAYMC" + "." + "MX";
  }

  /**
   * The intent of the library's own tests: a list holding the digest of
   * "mc.playmc.mx" blocks that name in any case ...
   */
  lemma ExactHostnameExample(hexSha1: string -> string)
    ensures IsBlocked([hexSha1("mc.playmc.mx")], "mc.playmc.mx", hexSha1)
    ensures IsBlocked([hexSha1("mc.playmc.mx")], "MC.PLAYMC.MX", hexSha1)
  {
    LowerOfLower("mc.playmc.mx");
    ExactMatchBlocks([hexSha1("mc.playmc.mx")], "mc.playmc.mx", hexSha1);
    UpperExampleFolds();
    ExactMatchBlocks([hexSha1("mc.playmc.mx")], "MC.PLAYMC.MX", hexSha1);
  }

  /**
   * ... and not its sub-domain "sub.mc.playmc.mx", as long as none of that
   * name's candidates has the same digest as "mc.playmc.mx".
   */
  lemma ExactHostnameExcludesSubdomain(hexSha1: string -> string)
    requires DistinctDigests(hexSha1, AddressCandidates("sub.mc.playmc.mx"), ["mc.playmc.mx"])
    ensures !IsBlocked([hexSha1("mc.playmc.mx")], "sub.mc.playmc.mx", hexSha1)
  {
    SubdomainIsHostname();
    ExactPatternMatchesOnlyItself("mc.playmc.mx", "sub.mc.playmc.mx", hexSha1);
  }

  /** "sub.mc.playmc.mx" is a hostname and not its parent domain. */
  lemma SubdomainIsHostname()
    ensures !IsV4Address(AddressParts("sub.mc.playmc.mx"))
    ensures AsciiLower("sub.mc.playmc.mx") != "mc.playmc.mx"
  {
    assert "sub" + "." + "mc" + "." + "playmc" + "." + "mx" == "sub.mc.playmc.mx";
    assert ParseU8("sub").None? by { assert !IsDigit('s'); }
    LabelsRoundTrip("sub", "mc", "playmc", "mx");
  }

  /** The first label does not start with '*', so neither does the whole name. */
  lemma NameNotWildcard(parts: seq<string>, rest: string)
    requires |parts| >= 1 && parts[0] != [] && parts[0][0] != '*'
    ensures Join(parts, ".") != "*." + rest
  {
    assert Join(parts, ".")[0] == parts[0][0];
  }

  /**
   * A stored "*.<suffix>" blocks every hostname of which the suffix's labels
   * are a proper suffix; when no candidate collides with the pattern, it
   * blocks only those: never the bare suffix itself.
   */
  lemma DomainWildcardBlocksExactlySubdomains(parts: seq<string>, suffix: seq<string>,
                                              hexSha1: string -> string)
    requires |parts| >= 1 && |suffix| >= 1 && !IsV4Address(parts)
    requires forall k :: 0 <= k < |parts| ==> IsLower(parts[k]) && '.' !in parts[k]
    requires forall k :: 0 <= k < |suffix| ==> '.' !in suffix[k]
    requires parts[0] != [] && parts[0][0] != '*'
    ensures (exists i :: 1 <= i < |parts| && parts[i..] == suffix) ==>
            IsBlocked([hexSha1("*." + Join(suffix, "."))], Join(parts, "."), hexSha1)
    ensures DistinctDigests(hexSha1, Candidates(parts), ["*." + Join(suffix, ".")]) ==>
            (IsBlocked([hexSha1("*." + Join(suffix, "."))], Join(parts, "."), hexSha1) <==>
             exists i :: 1 <= i < |parts| && parts[i..] == suffix)
  {
    var pattern := "*." + Join(suffix, ".");
    NameRoundTrip(parts);
    var cs := Candidates(parts);
    if IsBlocked([hexSha1(pattern)], Join(parts, "."), hexSha1) && DistinctDigests(hexSha1, cs, [pattern]) {
      var k :| 0 <= k < |cs| && hexSha1(cs[k]) in [hexSha1(pattern)];
      assert hexSha1(cs[k]) == hexSha1([pattern][0]);
      assert cs[k] == pattern;
      if k == 0 {
        NameNotWildcard(parts, Join(suffix, "."));
      } else {
        HostnameCandidateAt(parts, k);
        var tail := Join(parts[k..], ".");
        assert tail == cs[k][2..] == pattern[2..] == Join(suffix, ".");
        SplitJoin(parts[k..], '.');
        SplitJoin(suffix, '.');
        assert parts[k..] == suffix;
      }
    }
    if exists i :: 1 <= i < |parts| && parts[i..] == suffix {
      var i :| 1 <= i < |parts| && parts[i..] == suffix;
      HostnameCandidateAt(parts, i);
      assert cs[i] == pattern;
    }
  }

  /**
   * A stored "*." followed by the labels from index `i` on blocks the
   * hostname, whatever the digest.
   */
  lemma SubdomainBlocked(parts: seq<string>, i: nat, hexSha1: string -> string)
    requires |parts| >= 1 && !IsV4Address(parts) && 1 <= i < |parts|
    requires forall k :: 0 <= k < |parts| ==> IsLower(parts[k]) && '.' !in parts[k]
    ensures IsBlocked([hexSha1("*." + Join(parts[i..], "."))], Join(parts, "."), hexSha1)
  {
    NameRoundTrip(parts);
    HostnameCandidateAt(parts, i);
  }

  lemma ExampleLabelsLower()
    ensures IsLower("sub") && IsLower("domain") && IsLower("tld") && IsLower("other")
    ensures '.' !in "sub" && '.' !in "domain" && '.' !in "tld" && '.' !in "other"
  {
  }

  /** A stored "*.domain.tld" blocks "sub.domain.tld" ... */
  lemma DomainWildcardExample(hexSha1: string -> string)
    ensures IsBlocked([hexSha1("*.domain.tld")], "sub.domain.tld", hexSha1)
  {
    ExampleLabelsLower();
    JoinOctets("sub", "domain", "tld", "");
    JoinOctets("domain", "tld", "", "");
    var sub := ["sub", "domain", "tld"];
    assert sub[1..] == ["domain", "tld"];
    assert Join(sub, ".") == "sub.domain.tld" by {
      assert "sub" + "." + "domain" + "." + "tld" == "sub.domain.tld";
    }
    assert "*." + Join(["domain", "tld"], ".") == "*.domain.tld" by {
      assert "*." + ("domain" + "." + "tld") == "*.domain.tld";
    }
    SubdomainBlocked(sub, 1, hexSha1);
  }

  /** ... and not "other.tld", unless one of its candidates has the same digest. */
  lemma DomainWildcardExcludesOther(hexSha1: string -> string)
    requires DistinctDigests(hexSha1, AddressCandidates("other.tld"), ["*.domain.tld"])
    ensures !IsBlocked([hexSha1("*.domain.tld")], "other.tld", hexSha1)
  {
    OtherTldFacts();
    DomainWildcardBlocksExactlySubdomains(["other", "tld"], ["domain", "tld"], hexSha1);
  }

  /** "other.tld" is the two labels "other" and "tld", and "domain.tld" is not a suffix of them. */
  lemma OtherTldFacts()
    ensures AddressCandidates("other.tld") == Candidates(["other", "tld"])
    ensures Join(["other", "tld"], ".") == "other.tld"
    ensures "*." + Join(["domain", "tld"], ".") == "*.domain.tld"
    ensures forall i :: 1 <= i < 2 ==> ["other", "tld"][i..] != ["domain", "tld"]
    ensures forall k :: 0 <= k < 2 ==> IsLower(["other", "tld"][k]) && '.' !in ["other", "tld"][k]
    ensures forall k :: 0 <= k < 2 ==> '.' !in ["domain", "tld"][k]
  {
    ExampleLabelsLower();
    JoinOctets("other", "tld", "", "");
    JoinOctets("domain", "tld", "", "");
    var other := ["other", "tld"];
    assert other[1..] == ["tld"] != ["domain", "tld"];
    assert Join(other, ".") == "other.tld" by {
      assert "other" + "." + "tld" == "other.tld";
    }
    assert "*." + Join(["domain", "tld"], ".") == "*.domain.tld" by {
      assert "*." + ("domain" + "." + "tld") == "*.domain.tld";
    }
    NameRoundTrip(other);
  }

  /** The parts of a string of digits, '+' and '.' are lower-case and free of '.'. */
  lemma NumericPartsLower(parts: seq<string>)
    requires forall k, i :: 0 <= k < |parts| && 0 <= i < |parts[k]| ==> parts[k][i] == '+' || IsDigit(parts[k][i])
    ensures forall k :: 0 <= k < |parts| ==> IsLower(parts[k]) && '.' !in parts[k]
  {
  }

  /** "999.1.1.1" splits into its four dot-separated parts. */
  lemma OutOfRangeParts()
    ensures AddressParts("999.1.1.1") == ["999", "1", "1", "1"]
  {
    var parts := ["999", "1", "1", "1"];
    JoinOctets("999", "1", "1", "1");
    assert "999" + "." + "1" + "." + "1" + "." + "1" == "999.1.1.1";
    NumericPartsLower(parts);
    NameRoundTrip(parts);
  }

  /** "999.1.1.1" has an octet out of range: it is a hostname. */
  lemma OutOfRangeOctetIsHostname()
    ensures !IsV4Address(AddressParts("999.1.1.1"))
  {
    var parts := AddressParts("999.1.1.1");
    OutOfRangeParts();
    OutOfRangeOctetRejected();
    assert parts[0] == "999";
    assert ParseU8(parts[0]).None?;
  }

  /** `u8::from_str` rejects "999". */
  lemma OutOfRangeOctetRejected()
    ensures ParseU8("999") == None
  {
    assert "999"[..2] == "99" && "99"[..1] == "9" && "9"[..0] == "";
    assert DecimalValue("999") == 999;
  }

  /** "1.2.3.4.5" and "1.2.3" have the wrong number of parts: they are hostnames. */
  lemma WrongPartCountIsHostname()
    ensures |AddressParts("1.2.3.4.5")| == 5 && !IsV4Address(AddressParts("1.2.3.4.5"))
    ensures |AddressParts("1.2.3")| == 3 && !IsV4Address(AddressParts("1.2.3"))
  {
    var five := ["1", "2", "3", "4", "5"];
    assert five[1..] == ["2", "3", "4", "5"];
    JoinOctets("2", "3", "4", "5");
    assert "1" + "." + ("2" + "." + "3" + "." + "4" + "." + "5") == "1.2.3.4.5";
    assert Join(five, ".") == "1.2.3.4.5";
    NumericPartsLower(five);
    NameRoundTrip(five);
    JoinOctets("1", "2", "3", "");
    assert "1" + "." + "2" + "." + "3" == "1.2.3";
    NumericPartsLower(["1", "2", "3"]);
    NameRoundTrip(["1", "2", "3"]);
  }

  /** "+1.02.3.255" is an IPv4 literal: a '+' sign and leading zeros are accepted. */
  lemma SignedOctetsParts()
    ensures AddressParts("+1.02.3.255") == ["+1", "02", "3", "255"]
  {
    var parts := ["+1", "02", "3", "255"];
    JoinOctets("+1", "02", "3", "255");
    assert "+1" + "." + "02" + "." + "3" + "." + "255" == "+1.02.3.255";
    NumericPartsLower(parts);
    NameRoundTrip(parts);
  }

  /** Each of "+1", "02", "3" and "255" is accepted by `u8::from_str`. */
  lemma SignedOctetsParse()
    ensures IsV4Address(["+1", "02", "3", "255"])
  {
    var parts := ["+1", "02", "3", "255"];
    assert "+1"[1..] == "1" && "1"[..0] == "";
    assert ParseU8("+1") == Some(1);
    assert "02"[..1] == "0" && "0"[..0] == "";
    assert ParseU8("02") == Some(2);
    assert "3"[..0] == "";
    assert ParseU8("3") == Some(3);
    assert "255"[..2] == "25" && "25"[..1] == "2" && "2"[..0] == "";
    assert ParseU8("255") == Some(255);
    assert forall k :: 0 <= k < 4 ==> ParseU8(parts[k]).Some?;
  }

  /** "+1.02.3.255" is an IPv4 address: signs and leading zeros are accepted. */
  lemma SignedOctetsAreIpv4()
    ensures IsV4Address(AddressParts("+1.02.3.255"))
  {
    SignedOctetsParts();
    SignedOctetsParse();
  }
}
