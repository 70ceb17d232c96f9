/**
 * The proxy's SSRF guard `is_private_ip`: the host name is resolved and the
 * textual form of the address is matched against fixed prefixes. Name
 * resolution is a parameter: `resolve(host)` is the address
 * `gethostbyname` returns, or `None` when it raises.
 */
module AddressClassifier {
  import opened Wrappers
  import opened Text

  /** The prefixes that alone make an address private. */
  predicate HasPrivatePrefix(ip: string) {
    StartsWith(ip, "127.") || StartsWith(ip, "10.") || StartsWith(ip, "169.254.") || StartsWith(ip, "192.168.")
  }

  /**
   * `int(ip.split(".")[1])` inside its `try`: `None` when the field is
   * missing or is not a numeral (the `except Exception: pass` path).
   */
  function SecondField(ip: string): Option<int> {
    var fields := Split(ip, '.');
    if |fields| >= 2 then ParseInt(fields[1]) else None
  }

  /** The 172.16.0.0 – 172.31.255.255 rule applied to an address starting with "172.". */
  predicate SecondFieldIn172Block(ip: string) {
    match SecondField(ip)
    case Some(octet) => 16 <= octet <= 31
    case None => false
  }

  /** The checks `is_private_ip` applies to the resolved address, in order. */
  predicate IsPrivateAddress(ip: string) {
    if HasPrivatePrefix(ip) then true
    else if StartsWith(ip, "172.") && SecondFieldIn172Block(ip) then true
    else ip == "::1"
  }

  /** `is_private_ip(hostname)`: a name that does not resolve counts as public. */
  predicate IsPrivateIp(hostname: string, resolve: string -> Option<string>) {
    match resolve(hostname)
    case None => false
    case Some(ip) => IsPrivateAddress(ip)
  }

  /** Resolution failure is fail-open: the host is treated as not private. */
  lemma UnresolvableIsNotPrivate(hostname: string, resolve: string -> Option<string>)
    requires resolve(hostname) == None
    ensures !IsPrivateIp(hostname, resolve)
  {
  }

  /** Each listed prefix, and the IPv6 loopback, is private whatever follows. */
  lemma ListedAddressesArePrivate(ip: string)
    ensures HasPrivatePrefix(ip) ==> IsPrivateAddress(ip)
    ensures ip == "::1" ==> IsPrivateAddress(ip)
  {
  }

  /**
   * An address starting with "172." is private exactly when its second field
   * is a numeral between 16 and 31; an unreadable field means not private.
   */
  lemma Rule172(ip: string)
    requires StartsWith(ip, "172.")
    ensures IsPrivateAddress(ip) <==> SecondFieldIn172Block(ip)
    ensures SecondField(ip) == None ==> !IsPrivateAddress(ip)
  {
    assert ip[..4] == "172.";
    assert ip[0] == '1' && ip[1] == '7' && ip[2] == '2';
  }

  // ---------------------------------------------------------------------
  // Agreement with the address ranges the guard is meant to block.
  // ---------------------------------------------------------------------

  /** The dotted-quad text `gethostbyname` returns for the IPv4 address a.b.c.d. */
  function DottedQuad(a: nat, b: nat, c: nat, d: nat): string {
    ShowDecimal(a) + "." + (ShowDecimal(b) + "." + (ShowDecimal(c) + "." + ShowDecimal(d)))
  }

  /**
   * 127.0.0.0/8, 10.0.0.0/8, 169.254.0.0/16, 192.168.0.0/16 and
   * 172.16.0.0/12, written on the four octets.
   */
  predicate InBlockedRange(a: nat, b: nat, c: nat, d: nat) {
    a == 127 || a == 10 || (a == 169 && b == 254) || (a == 192 && b == 168)
    || (a == 172 && 16 <= b <= 31)
  }

  /** Equal printed numbers are equal numbers. */
  lemma ShowDecimalInjective(a: nat, k: nat)
    requires ShowDecimal(a) == ShowDecimal(k)
    ensures a == k
  {
    ShowDecimalValue(a);
    ShowDecimalValue(k);
  }

  /** An octet is printed in at most three digits. */
  lemma OctetDigits(b: nat)
    requires b < 256
    ensures |ShowDecimal(b)| <= 3
  {
    ShowDecimalLength(b, 3);
  }

  /**
   * A prefix test on a leading dotted field compares the numbers: the text
   * `a.R` starts with `k.Z` exactly when `a == k` and `R` starts with `Z`.
   */
  lemma {:induction false} LeadingFieldPrefix(a: nat, k: nat, r: string, z: string)
    ensures StartsWith(ShowDecimal(a) + "." + r, ShowDecimal(k) + "." + z)
        <==> a == k && StartsWith(r, z)
  {
    var x, y := ShowDecimal(a), ShowDecimal(k);
    var s, p := x + "." + r, y + "." + z;
    if |x| == |y| {
      if StartsWith(s, p) {
        assert x == s[..|x|] == p[..|y|] == y;
        ShowDecimalInjective(a, k);
        assert r[..|z|] == s[|x| + 1..|p|] == p[|y| + 1..] == z;
      }
      if a == k && StartsWith(r, z) {
        assert s[..|p|] == x + "." + r[..|z|];
      }
    } else if |x| < |y| {
      assert s[|x|] == '.';
      assert p[|x|] == y[|x|] && IsDigit(y[|x|]);
      assert |p| <= |s| ==> s[..|p|][|x|] != p[|x|];
    } else {
      assert p[|y|] == '.';
      assert s[|y|] == x[|y|] && IsDigit(x[|y|]);
      assert |p| <= |s| ==> s[..|p|][|y|] != p[|y|];
    }
  }

  /** The dotted quad splits into its four printed octets. */
  lemma DottedQuadFields(a: nat, b: nat, c: nat, d: nat)
    ensures Split(DottedQuad(a, b, c, d), '.')
         == [ShowDecimal(a), ShowDecimal(b), ShowDecimal(c), ShowDecimal(d)]
  {
    var sa, sb, sc, sd := ShowDecimal(a), ShowDecimal(b), ShowDecimal(c), ShowDecimal(d);
    var t2 := sc + "." + sd;
    var t1 := sb + "." + t2;
    SplitSingleField(sd, '.');
    SplitLeadingField(sc, '.', sd);
    SplitLeadingField(sb, '.', t2);
    SplitLeadingField(sa, '.', t1);
  }

  /** A two-digit number prints as its two digits. */
  lemma ShowTwoDigits(n: nat)
    requires 10 <= n < 100
    ensures ShowDecimal(n) == [DigitChar(n / 10), DigitChar(n % 10)]
  {
  }

  /** A three-digit number prints as its three digits. */
  lemma ShowThreeDigits(n: nat)
    requires 100 <= n < 1000
    ensures ShowDecimal(n) == [DigitChar(n / 100), DigitChar(n / 10 % 10), DigitChar(n % 10)]
  {
    ShowTwoDigits(n / 10);
    assert n / 10 / 10 == n / 100;
  }

  /** The octets named in the literal prefixes, as printed. */
  lemma LiteralOctets()
    ensures ShowDecimal(10) == "10"
    ensures ShowDecimal(127) == "127" && ShowDecimal(172) == "172"
    ensures ShowDecimal(169) == "169" && ShowDecimal(254) == "254"
    ensures ShowDecimal(192) == "192" && ShowDecimal(168) == "168"
  {
    ShowTwoDigits(10);
    ShowThreeDigits(127);
    ShowThreeDigits(172);
    ShowThreeDigits(169);
    ShowThreeDigits(192);
    ShowThreeDigits(254);
    ShowThreeDigits(168);
  }

  /** The prefix rules, read on the octets of a dotted quad. */
  lemma QuadPrefixes(a: nat, b: nat, c: nat, d: nat)
    ensures HasPrivatePrefix(DottedQuad(a, b, c, d))
        <==> a == 127 || a == 10 || (a == 169 && b == 254) || (a == 192 && b == 168)
    ensures StartsWith(DottedQuad(a, b, c, d), "172.") <==> a == 172
  {
    var tail := ShowDecimal(c) + "." + ShowDecimal(d);
    var rest := ShowDecimal(b) + "." + tail;
    LiteralOctets();
    assert "127." == "127" + "." + "" && "10." == "10" + "." + "" && "172." == "172" + "." + "";
    assert "169.254." == "169" + "." + "254." && "254." == "254" + "." + "";
    assert "192.168." == "192" + "." + "168." && "168." == "168" + "." + "";
    LeadingFieldPrefix(a, 127, rest, "");
    LeadingFieldPrefix(a, 10, rest, "");
    LeadingFieldPrefix(a, 172, rest, "");
    LeadingFieldPrefix(a, 169, rest, "254.");
    LeadingFieldPrefix(b, 254, tail, "");
    LeadingFieldPrefix(a, 192, rest, "168.");
    LeadingFieldPrefix(b, 168, tail, "");
  }

  /**
   * On every IPv4 address the prefix rules of `is_private_ip` block exactly
   * the loopback, private and link-local ranges.
   */
  lemma {:induction false} ClassifierMatchesRanges(a: nat, b: nat, c: nat, d: nat)
    requires a < 256 && b < 256 && c < 256 && d < 256
    ensures IsPrivateAddress(DottedQuad(a, b, c, d)) <==> InBlockedRange(a, b, c, d)
  {
    var ip := DottedQuad(a, b, c, d);
    QuadPrefixes(a, b, c, d);
    DottedQuadFields(a, b, c, d);
    OctetDigits(b);
    ParseShowDecimal(b);
    assert SecondField(ip) == Some(b as int);
    assert ip[0] == ShowDecimal(a)[0];
    assert ip != "::1";
  }

  /** Worked cases, among them the addresses the unused 172 prefix would have caught. */
  lemma Examples()
    ensures !IsPrivateAddress(DottedQuad(11, 0, 0, 1))
    ensures !IsPrivateAddress(DottedQuad(192, 169, 0, 1))
    ensures !IsPrivateAddress(DottedQuad(172, 15, 0, 1))
    ensures !IsPrivateAddress(DottedQuad(93, 184, 216, 34))
    ensures IsPrivateAddress(DottedQuad(172, 16, 0, 1))
    ensures IsPrivateAddress(DottedQuad(172, 31, 255, 255))
    ensures IsPrivateAddress(DottedQuad(169, 254, 1, 1))
  {
    ClassifierMatchesRanges(11, 0, 0, 1);
    ClassifierMatchesRanges(192, 169, 0, 1);
    ClassifierMatchesRanges(172, 15, 0, 1);
    ClassifierMatchesRanges(93, 184, 216, 34);
    ClassifierMatchesRanges(172, 16, 0, 1);
    ClassifierMatchesRanges(172, 31, 255, 255);
    ClassifierMatchesRanges(169, 254, 1, 1);
  }
}
