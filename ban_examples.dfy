/**
 * Worked examples of the ban matcher: the pattern `192.168.*.5` and the IPv6
 * pattern `2001:db8::*`, each proved from the general theorems of
 * `PatternMatcher` and lifted to a one-entry ban list.
 */
module BanExamples {
  import opened Common
  import opened PatternMatcher
  import opened BanList

  lemma IPv4PatternFacts(p: string)
    requires p == "192.168.*.5"
    ensures Supported(p) && ':' !in p && p == "192.168." + "*" + ".5" && CountChar('*', p) == 1
  {
    IPv4PatternShape(p);
    OneWildcard("192.168.", ".5");
  }

  lemma IPv4PatternShape(p: string)
    requires p == "192.168.*.5"
    ensures Supported(p) && ':' !in p && p == "192.168." + "*" + ".5"
  {
  }

  lemma IPv6PatternFacts(p: string)
    requires p == "2001:db8::*"
    ensures Supported(p) && ':' in p && '.' !in p && p == "2001:db8::" + "*" + "" && CountChar('*', p) == 1
  {
    IPv6PatternShape(p);
    OneWildcard("2001:db8::", "");
  }

  lemma IPv6PatternShape(p: string)
    requires p == "2001:db8::*"
    ensures Supported(p) && ':' in p && '.' !in p && p == "2001:db8::" + "*" + ""
  {
  }

  lemma OctetInstanceMatches(p: string, addr: string, fills: seq<string>)
    requires Supported(p) && ':' !in p && OctetFills(p, fills) && addr == Substitute(p, fills)
    ensures WildcardMatches(p, addr)
  {
    IPv4WildcardMatch(p, addr);
  }

  lemma HexInstanceMatches(p: string, addr: string, fills: seq<string>)
    requires Supported(p) && ':' in p && '.' !in p && HexFills(p, fills) && FoldEq(Substitute(p, fills), addr)
    ensures WildcardMatches(p, addr)
  {
    IPv6WildcardMatch(p, addr);
  }

  lemma IPv4ExampleFills(p: string, addr: string)
    requires CountChar('*', p) == 1 && addr == "192.168.77.5"
    ensures OctetFills(p, ["77"]) && addr == "192.168." + "77" + ".5"
  {
    assert IsOctet("77") by { assert "77"[..1] == "7"; assert "7"[..0] == []; }
  }

  lemma IPv6ExampleFills(p: string, addr: string)
    requires CountChar('*', p) == 1 && (addr == "2001:DB8::1a2b" || addr == "2001:db8::1a2b")
    ensures HexFills(p, ["1a2b"]) && FoldEq("2001:db8::" + "1a2b" + "", addr)
  {
    assert HexGroup("1a2b");
  }

  lemma IPv4ExampleBanned(p: string, addr: string)
    requires p == "192.168.*.5" && addr == "192.168.77.5"
    ensures SupportedList([p]) && IsBanned(addr, [p])
  {
    IPv4PatternFacts(p);
    SubstituteOneWildcard("192.168.", "77", ".5");
    IPv4ExampleFills(p, addr);
    OctetInstanceMatches(p, addr, ["77"]);
    WildcardEntryBans(p, addr);
  }

  lemma IPv4ExampleOtherHost(p: string, addr: string)
    requires p == "192.168.*.5" && addr == "192.168.77.6"
    ensures SupportedList([p]) && !IsBanned(addr, [p])
  {
    IPv4PatternFacts(p);
    forall fills | OctetFills(p, fills)
      ensures addr != Substitute(p, fills)
    {
      var f := fills[0];
      assert fills == [f];
      SubstituteOneWildcard("192.168.", f, ".5");
      var s := Substitute(p, fills);
      assert s[|s| - 1] == '5';
    }
    IPv4WildcardMatch(p, addr);
    WildcardEntryBans(p, addr);
  }

  lemma NotOctet256Instance(f: string, addr: string)
    requires IsOctet(f) && addr == "192.168.256.5"
    ensures "192.168." + f + ".5" != addr
  {
    var s := "192.168." + f + ".5";
    if |f| == 3 {
      assert f != "256" by {
        assert DecimalValue("256") == 256 by {
          assert "256"[..2] == "25"; assert "25"[..1] == "2"; assert "2"[..0] == [];
        }
      }
      assert s[8..11] == f;
      assert addr[8..11] == "256";
    } else {
      assert |s| != |addr|;
    }
  }

  lemma IPv4ExampleOctetTooLarge(p: string, addr: string)
    requires p == "192.168.*.5" && addr == "192.168.256.5"
    ensures SupportedList([p]) && !IsBanned(addr, [p])
  {
    IPv4PatternFacts(p);
    forall fills | OctetFills(p, fills)
      ensures addr != Substitute(p, fills)
    {
      var f := fills[0];
      assert fills == [f];
      SubstituteOneWildcard("192.168.", f, ".5");
      NotOctet256Instance(f, addr);
    }
    IPv4WildcardMatch(p, addr);
    WildcardEntryBans(p, addr);
  }

  lemma IPv6ExampleBanned(p: string, addr: string)
    requires p == "2001:db8::*" && (addr == "2001:DB8::1a2b" || addr == "2001:db8::1a2b")
    ensures SupportedList([p]) && IsBanned(addr, [p])
  {
    IPv6PatternFacts(p);
    SubstituteOneWildcard("2001:db8::", "1a2b", "");
    IPv6ExampleFills(p, addr);
    HexInstanceMatches(p, addr, ["1a2b"]);
    WildcardEntryBans(p, addr);
  }

  lemma IPv6ExampleExpandedNotBanned(p: string, addr: string)
    requires p == "2001:db8::*" && addr == "2001:db8:0:0:0:0:0:1a2b"
    ensures SupportedList([p]) && !IsBanned(addr, [p])
  {
    IPv6PatternFacts(p);
    forall fills | HexFills(p, fills)
      ensures !FoldEq(Substitute(p, fills), addr)
    {
      var f := fills[0];
      assert fills == [f];
      SubstituteOneWildcard("2001:db8::", f, "");
      assert |Substitute(p, fills)| <= 14;
    }
    IPv6WildcardMatch(p, addr);
    WildcardEntryBans(p, addr);
  }
}
