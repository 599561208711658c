/**
 * The wildcard-address matcher of the `/` route. A ban entry that contains `*`
 * is turned into an anchored regular expression and tested against the client
 * address. Dafny has no regular expressions, so the compiled expression is a
 * sequence of tokens and `Matches` decides membership in its language.
 *
 *  - IPv4 (no `:` in the pattern): every `.` is escaped, so it is a literal;
 *    every `*` becomes the group `(25[0-5]|2[0-4][0-9]|[01]?[0-9][0-9]?)`.
 *  - IPv6 (a `:` in the pattern): every `:` is escaped, so it is a literal;
 *    every `*` becomes `[0-9a-fA-F]{1,4}`; the expression carries the `i` flag.
 *    A `.` is NOT escaped on this path and stays the regex "any character".
 *    The substitution of `::` that follows the other two replacements never
 *    fires, because every `:` already has a backslash before it: `::` is
 *    matched literally, and no zero-compression is expanded.
 */
module PatternMatcher {
  import opened Common

  /** The address family a pattern is compiled for. */
  datatype Family = IPv4 | IPv6

  /** One token of a compiled pattern. */
  datatype Token =
    | Lit(c: char)   // a character that must be present (escaped or plain)
    | Wild           // a `*`: one IPv4 octet or one IPv6 group of hex digits
    | AnyChar        // an unescaped `.` in an IPv6 pattern

  predicate IsHexDigit(c: char) { IsDigit(c) || 'a' <= c <= 'f' || 'A' <= c <= 'F' }

  /** ASCII upper-casing: the form in which the `i` flag compares ASCII characters. */
  function Upper(c: char): char {
    if 'a' <= c <= 'z' then (c as int - 32) as char else c
  }

  /** The characters a regex `.` does not match. */
  predicate IsLineTerminator(c: char) {
    c == '\n' || c == '\r' || c as int == 0x2028 || c as int == 0x2029
  }

  /** Characters that would still be regex syntax after the two escapes. */
  predicate IsUnhandledMeta(c: char) {
    c == '\\' || c == '^' || c == '$' || c == '|' || c == '?' || c == '+' ||
    c == '(' || c == ')' || c == '[' || c == ']' || c == '{' || c == '}'
  }

  /**
   * The wildcard patterns whose compiled expression this model describes:
   * ASCII text whose only regex syntax is `*`, `.` and `:`.
   */
  predicate Supported(p: string) {
    forall i :: 0 <= i < |p| ==> p[i] as int < 128 && !IsUnhandledMeta(p[i])
  }

  /** IPv6 iff the pattern contains a colon. */
  function FamilyOf(p: string): Family {
    if ':' in p then IPv6 else IPv4
  }

  function TokenOf(fam: Family, c: char): Token {
    if c == '*' then Wild
    else if c == '.' && fam == IPv6 then AnyChar
    else Lit(c)
  }

  /** The replacement chain that builds the regular expression, character by character. */
  function Compile(fam: Family, p: string): (toks: seq<Token>)
    ensures |toks| == |p|
    ensures forall i :: 0 <= i < |p| ==> toks[i] == TokenOf(fam, p[i])
  {
    if p == [] then [] else [TokenOf(fam, p[0])] + Compile(fam, p[1..])
  }

  /** The IPv4 replacement group, one disjunct per alternative of the regex. */
  predicate OctetAlt(s: string) {
    || (|s| == 3 && s[0] == '2' && s[1] == '5' && '0' <= s[2] <= '5')                     // 25[0-5]
    || (|s| == 3 && s[0] == '2' && '0' <= s[1] <= '4' && IsDigit(s[2]))                   // 2[0-4][0-9]
    || (|s| == 1 && IsDigit(s[0]))                                                        // [0-9]
    || (|s| == 2 && IsDigit(s[0]) && IsDigit(s[1]))                                       // [01]?[0-9][0-9]? on two characters
    || (|s| == 3 && (s[0] == '0' || s[0] == '1') && IsDigit(s[1]) && IsDigit(s[2]))       // [01][0-9][0-9]
  }

  /** The IPv6 replacement `[0-9a-fA-F]{1,4}`. */
  predicate HexGroup(s: string) {
    1 <= |s| <= 4 && forall i :: 0 <= i < |s| ==> IsHexDigit(s[i])
  }

  /** What one `*` may stand for in the given family. */
  predicate Component(fam: Family, s: string) {
    if fam == IPv4 then OctetAlt(s) else HexGroup(s)
  }

  function MaxWidth(fam: Family): nat {
    if fam == IPv4 then 3 else 4
  }

  /** Comparison of an address character with a literal of the pattern. */
  predicate CharEq(fam: Family, a: char, c: char) {
    if fam == IPv6 then Upper(a) == Upper(c) else a == c
  }

  /** The anchored expression `^…$` accepts the whole of `addr`. */
  predicate Matches(fam: Family, toks: seq<Token>, addr: string)
    decreases |toks|
  {
    if toks == [] then addr == []
    else match toks[0]
      case Lit(c) => |addr| > 0 && CharEq(fam, addr[0], c) && Matches(fam, toks[1..], addr[1..])
      case AnyChar => |addr| > 0 && !IsLineTerminator(addr[0]) && Matches(fam, toks[1..], addr[1..])
      case Wild =>
        exists k :: 1 <= k <= |addr| && k <= MaxWidth(fam) && Component(fam, addr[..k]) && Matches(fam, toks[1..], addr[k..])
  }

  /** `new RegExp(…).test(addr)` for the expression compiled from the wildcard pattern `p`. */
  predicate WildcardMatches(p: string, addr: string)
    requires Supported(p)
  {
    Matches(FamilyOf(p), Compile(FamilyOf(p), p), addr)
  }

  // ---------------------------------------------------------------------------
  // A reference meaning: the address is the pattern with every `*` filled in.
  // ---------------------------------------------------------------------------

  /** Decimal digits of value at most 255, written with one to three digits. */
  predicate IsOctet(s: string) {
    1 <= |s| <= 3 && AllDigits(s) && DecimalValue(s) <= 255
  }

  function WildCount(toks: seq<Token>): nat {
    if toks == [] then 0 else (if toks[0] == Wild then 1 else 0) + WildCount(toks[1..])
  }

  function LitsOf(s: string): (ts: seq<Token>)
    ensures |ts| == |s| && forall i :: 0 <= i < |s| ==> ts[i] == Lit(s[i])
  {
    seq(|s|, i requires 0 <= i < |s| => Lit(s[i]))
  }

  /** `toks` with its wildcards replaced, in order, by the literal texts `fills`. */
  function Expand(toks: seq<Token>, fills: seq<string>): seq<Token>
    decreases |toks|
  {
    if toks == [] then []
    else if toks[0] == Wild then
      if fills == [] then Expand(toks[1..], []) else LitsOf(fills[0]) + Expand(toks[1..], fills[1..])
    else [toks[0]] + Expand(toks[1..], fills)
  }

  /** One address character against one wildcard-free token. */
  predicate Accepts(fam: Family, t: Token, a: char) {
    match t
    case Lit(c) => CharEq(fam, a, c)
    case AnyChar => !IsLineTerminator(a)
    case Wild => false
  }

  /** The address is accepted position by position. */
  predicate CharsMatch(fam: Family, ts: seq<Token>, addr: string) {
    |ts| == |addr| && forall i :: 0 <= i < |ts| ==> Accepts(fam, ts[i], addr[i])
  }

  /** One admissible text per wildcard. */
  predicate ValidFills(fam: Family, toks: seq<Token>, fills: seq<string>) {
    |fills| == WildCount(toks) && forall i :: 0 <= i < |fills| ==> Component(fam, fills[i])
  }

  lemma CharsMatchJoin(fam: Family, t1: seq<Token>, t2: seq<Token>, a1: string, a2: string)
    requires CharsMatch(fam, t1, a1) && CharsMatch(fam, t2, a2)
    ensures CharsMatch(fam, t1 + t2, a1 + a2)
  {
    forall i | 0 <= i < |t1 + t2|
      ensures Accepts(fam, (t1 + t2)[i], (a1 + a2)[i])
    {
      if i >= |t1| {
        assert (t1 + t2)[i] == t2[i - |t1|] && (a1 + a2)[i] == a2[i - |a1|];
      }
    }
  }

  lemma CharsMatchSplit(fam: Family, t1: seq<Token>, t2: seq<Token>, addr: string)
    requires CharsMatch(fam, t1 + t2, addr)
    ensures |t1| <= |addr|
    ensures CharsMatch(fam, t1, addr[..|t1|]) && CharsMatch(fam, t2, addr[|t1|..])
  {
    forall i | 0 <= i < |t1|
      ensures Accepts(fam, t1[i], addr[..|t1|][i])
    {
      assert (t1 + t2)[i] == t1[i];
    }
    forall i | 0 <= i < |t2|
      ensures Accepts(fam, t2[i], addr[|t1|..][i])
    {
      assert (t1 + t2)[|t1| + i] == t2[i];
    }
  }

  /** A filled-in text that is admissible stays admissible under the family's character comparison. */
  lemma ComponentTransfer(fam: Family, f: string, s: string)
    requires Component(fam, f) && CharsMatch(fam, LitsOf(f), s)
    ensures Component(fam, s)
  {
    if fam == IPv4 {
      assert forall i :: 0 <= i < |s| ==> s[i] == LitsOf(f)[i].c == f[i];
      assert s == f;
    } else {
      forall i | 0 <= i < |s|
        ensures IsHexDigit(s[i])
      {
        assert Upper(s[i]) == Upper(f[i]) && IsHexDigit(f[i]);
      }
    }
  }

  /** Every accepted address is the pattern with each wildcard filled in. */
  lemma {:induction false} MatchesToInstance(fam: Family, toks: seq<Token>, addr: string) returns (fills: seq<string>)
    requires Matches(fam, toks, addr)
    ensures ValidFills(fam, toks, fills) && CharsMatch(fam, Expand(toks, fills), addr)
    decreases |toks|
  {
    if toks == [] {
      fills := [];
    } else if toks[0] == Wild {
      var k :| 1 <= k <= |addr| && k <= MaxWidth(fam) && Component(fam, addr[..k]) && Matches(fam, toks[1..], addr[k..]);
      var fs := MatchesToInstance(fam, toks[1..], addr[k..]);
      fills := WildStep(fam, toks, addr, k, fs);
    } else {
      var fs := MatchesToInstance(fam, toks[1..], addr[1..]);
      fills := fs;
      LiteralStep(fam, toks, addr, fs);
    }
  }

  lemma WildStep(fam: Family, toks: seq<Token>, addr: string, k: nat, fs: seq<string>) returns (fills: seq<string>)
    requires toks != [] && toks[0] == Wild && 1 <= k <= |addr| && Component(fam, addr[..k])
    requires ValidFills(fam, toks[1..], fs) && CharsMatch(fam, Expand(toks[1..], fs), addr[k..])
    ensures ValidFills(fam, toks, fills) && CharsMatch(fam, Expand(toks, fills), addr)
  {
    fills := [addr[..k]] + fs;
    assert fills[1..] == fs;
    assert Expand(toks, fills) == LitsOf(addr[..k]) + Expand(toks[1..], fs);
    assert CharsMatch(fam, LitsOf(addr[..k]), addr[..k]);
    CharsMatchJoin(fam, LitsOf(addr[..k]), Expand(toks[1..], fs), addr[..k], addr[k..]);
    assert addr[..k] + addr[k..] == addr;
  }

  lemma LiteralStep(fam: Family, toks: seq<Token>, addr: string, fs: seq<string>)
    requires toks != [] && toks[0] != Wild && Matches(fam, toks, addr)
    requires ValidFills(fam, toks[1..], fs) && CharsMatch(fam, Expand(toks[1..], fs), addr[1..])
    ensures ValidFills(fam, toks, fs) && CharsMatch(fam, Expand(toks, fs), addr)
  {
    assert Expand(toks, fs) == [toks[0]] + Expand(toks[1..], fs);
    assert CharsMatch(fam, [toks[0]], addr[..1]);
    CharsMatchJoin(fam, [toks[0]], Expand(toks[1..], fs), addr[..1], addr[1..]);
    assert addr[..1] + addr[1..] == addr;
  }

  /** Every instance of the pattern is accepted. */
  lemma {:induction false} InstanceToMatches(fam: Family, toks: seq<Token>, fills: seq<string>, addr: string)
    requires ValidFills(fam, toks, fills) && CharsMatch(fam, Expand(toks, fills), addr)
    ensures Matches(fam, toks, addr)
    decreases |toks|
  {
    if toks != [] {
      var rest := toks[1..];
      if toks[0] == Wild {
        var f, fs := fills[0], fills[1..];
        assert ValidFills(fam, rest, fs) by {
          forall i | 0 <= i < |fs| ensures Component(fam, fs[i]) {
            assert fs[i] == fills[i + 1];
          }
        }
        CharsMatchSplit(fam, LitsOf(f), Expand(rest, fs), addr);
        ComponentTransfer(fam, f, addr[..|f|]);
        InstanceToMatches(fam, rest, fs, addr[|f|..]);
      } else {
        CharsMatchSplit(fam, [toks[0]], Expand(rest, fills), addr);
        InstanceToMatches(fam, rest, fills, addr[1..]);
      }
    }
  }

  /** The compiled expression accepts exactly the instances of the pattern. */
  lemma MatchesIffInstance(fam: Family, toks: seq<Token>, addr: string)
    ensures Matches(fam, toks, addr) <==>
            exists fills :: ValidFills(fam, toks, fills) && CharsMatch(fam, Expand(toks, fills), addr)
  {
    if Matches(fam, toks, addr) {
      var fills := MatchesToInstance(fam, toks, addr);
    }
    if exists fills :: ValidFills(fam, toks, fills) && CharsMatch(fam, Expand(toks, fills), addr) {
      var fills :| ValidFills(fam, toks, fills) && CharsMatch(fam, Expand(toks, fills), addr);
      InstanceToMatches(fam, toks, fills, addr);
    }
  }

  // ---------------------------------------------------------------------------
  // The same meaning stated on the pattern text.
  // ---------------------------------------------------------------------------

  /** The regex group of the IPv4 path accepts exactly the decimal octets 0-255 of one to three digits. */
  lemma OctetAltIsOctet(s: string)
    ensures OctetAlt(s) <==> IsOctet(s)
  {
    if 1 <= |s| <= 3 && AllDigits(s) {
      assert DecimalValue(s[..1]) == DigitValue(s[0]) by {
        assert s[..1][..0] == [];
      }
      if |s| >= 2 {
        assert s[..2][..1] == s[..1];
        assert DecimalValue(s[..2]) == DigitValue(s[0]) * 10 + DigitValue(s[1]);
      }
      if |s| == 3 {
        assert DecimalValue(s) == DecimalValue(s[..2]) * 10 + DigitValue(s[2]);
      } else if |s| == 2 {
        assert s[..2] == s;
      } else {
        assert s[..1] == s;
      }
    }
  }

  /** `p` with its `*` characters replaced, in order, by `fills`. */
  function Substitute(p: string, fills: seq<string>): string {
    if p == [] then []
    else if p[0] == '*' then
      if fills == [] then Substitute(p[1..], []) else fills[0] + Substitute(p[1..], fills[1..])
    else [p[0]] + Substitute(p[1..], fills)
  }

  /** The two spellings agree up to ASCII case. */
  predicate FoldEq(s: string, t: string) {
    |s| == |t| && forall i :: 0 <= i < |s| ==> Upper(s[i]) == Upper(t[i])
  }

  /** One octet for every `*`. */
  predicate OctetFills(p: string, fills: seq<string>) {
    |fills| == CountChar('*', p) && forall i :: 0 <= i < |fills| ==> IsOctet(fills[i])
  }

  /** One group of one to four hex digits for every `*`. */
  predicate HexFills(p: string, fills: seq<string>) {
    |fills| == CountChar('*', p) && forall i :: 0 <= i < |fills| ==> HexGroup(fills[i])
  }

  lemma {:induction false} WildCountCompile(fam: Family, p: string)
    ensures WildCount(Compile(fam, p)) == CountChar('*', p)
  {
    if p != [] {
      assert Compile(fam, p)[1..] == Compile(fam, p[1..]);
      WildCountCompile(fam, p[1..]);
    }
  }

  lemma {:induction false} ExpandCompile(fam: Family, p: string, fills: seq<string>)
    requires fam == IPv4 || '.' !in p
    ensures Expand(Compile(fam, p), fills) == LitsOf(Substitute(p, fills))
  {
    if p != [] {
      var toks := Compile(fam, p);
      assert toks[0] == TokenOf(fam, p[0]) && toks[1..] == Compile(fam, p[1..]);
      assert fam == IPv4 || '.' !in p[1..];
      if p[0] == '*' {
        var fs := if fills == [] then [] else fills[1..];
        ExpandCompile(fam, p[1..], fs);
        if fills != [] {
          assert LitsOf(fills[0] + Substitute(p[1..], fs)) == LitsOf(fills[0]) + LitsOf(Substitute(p[1..], fs));
        }
      } else {
        ExpandCompile(fam, p[1..], fills);
        assert LitsOf([p[0]] + Substitute(p[1..], fills)) == [Lit(p[0])] + LitsOf(Substitute(p[1..], fills));
      }
    }
  }

  lemma CharsMatchLitsIPv4(s: string, addr: string)
    ensures CharsMatch(IPv4, LitsOf(s), addr) <==> addr == s
  {
    if CharsMatch(IPv4, LitsOf(s), addr) {
      assert forall i :: 0 <= i < |s| ==> addr[i] == LitsOf(s)[i].c == s[i];
    }
  }

  lemma CharsMatchLitsIPv6(s: string, addr: string)
    ensures CharsMatch(IPv6, LitsOf(s), addr) <==> FoldEq(s, addr)
  {
    if CharsMatch(IPv6, LitsOf(s), addr) {
      assert forall i :: 0 <= i < |s| ==> Accepts(IPv6, LitsOf(s)[i], addr[i]);
    }
  }

  /**
   * IPv4: the address is banned by the pattern iff it equals the pattern with
   * every `*` replaced by a decimal octet of one to three digits and value at most 255.
   */
  lemma IPv4WildcardMatch(p: string, addr: string)
    requires Supported(p) && ':' !in p
    ensures WildcardMatches(p, addr) <==> exists fills :: OctetFills(p, fills) && addr == Substitute(p, fills)
  {
    var toks := Compile(IPv4, p);
    MatchesIffInstance(IPv4, toks, addr);
    WildCountCompile(IPv4, p);
    if WildcardMatches(p, addr) {
      var fills :| ValidFills(IPv4, toks, fills) && CharsMatch(IPv4, Expand(toks, fills), addr);
      ExpandCompile(IPv4, p, fills);
      CharsMatchLitsIPv4(Substitute(p, fills), addr);
      forall i | 0 <= i < |fills| ensures IsOctet(fills[i]) {
        OctetAltIsOctet(fills[i]);
      }
      assert OctetFills(p, fills);
    }
    if exists fills :: OctetFills(p, fills) && addr == Substitute(p, fills) {
      var fills :| OctetFills(p, fills) && addr == Substitute(p, fills);
      ExpandCompile(IPv4, p, fills);
      CharsMatchLitsIPv4(Substitute(p, fills), addr);
      forall i | 0 <= i < |fills| ensures Component(IPv4, fills[i]) {
        OctetAltIsOctet(fills[i]);
      }
      assert ValidFills(IPv4, toks, fills);
    }
  }

  /**
   * IPv6 (a pattern without `.`): the address is banned iff it equals, up to
   * ASCII case, the pattern with every `*` replaced by one to four hex digits.
   */
  lemma IPv6WildcardMatch(p: string, addr: string)
    requires Supported(p) && ':' in p && '.' !in p
    ensures WildcardMatches(p, addr) <==> exists fills :: HexFills(p, fills) && FoldEq(Substitute(p, fills), addr)
  {
    var toks := Compile(IPv6, p);
    MatchesIffInstance(IPv6, toks, addr);
    WildCountCompile(IPv6, p);
    if WildcardMatches(p, addr) {
      var fills :| ValidFills(IPv6, toks, fills) && CharsMatch(IPv6, Expand(toks, fills), addr);
      ExpandCompile(IPv6, p, fills);
      CharsMatchLitsIPv6(Substitute(p, fills), addr);
      assert HexFills(p, fills);
    }
    if exists fills :: HexFills(p, fills) && FoldEq(Substitute(p, fills), addr) {
      var fills :| HexFills(p, fills) && FoldEq(Substitute(p, fills), addr);
      ExpandCompile(IPv6, p, fills);
      CharsMatchLitsIPv6(Substitute(p, fills), addr);
      assert ValidFills(IPv6, toks, fills);
    }
  }

  /** Number of literal `:` tokens. */
  function ColonCount(toks: seq<Token>): nat {
    if toks == [] then 0 else (if toks[0] == Lit(':') then 1 else 0) + ColonCount(toks[1..])
  }

  lemma {:induction false} CompileColons(p: string)
    requires '.' !in p
    ensures ColonCount(Compile(IPv6, p)) == CountChar(':', p)
    ensures AnyChar !in Compile(IPv6, p)
  {
    if p != [] {
      var toks := Compile(IPv6, p);
      assert toks[1..] == Compile(IPv6, p[1..]);
      assert '.' !in p[1..];
      CompileColons(p[1..]);
    }
  }

  lemma {:induction false} MatchKeepsColons(toks: seq<Token>, addr: string)
    requires AnyChar !in toks && Matches(IPv6, toks, addr)
    ensures CountChar(':', addr) == ColonCount(toks)
    decreases |toks|
  {
    if toks != [] {
      assert AnyChar !in toks[1..];
      if toks[0] == Wild {
        var k :| 1 <= k <= |addr| && k <= MaxWidth(IPv6) && Component(IPv6, addr[..k]) && Matches(IPv6, toks[1..], addr[k..]);
        MatchKeepsColons(toks[1..], addr[k..]);
        HexGroupHasNoColon(addr[..k]);
        CountCharConcat(':', addr[..k], addr[k..]);
        assert addr[..k] + addr[k..] == addr;
      } else {
        MatchKeepsColons(toks[1..], addr[1..]);
        assert (addr[0] == ':') == (toks[0] == Lit(':'));
        assert addr == [addr[0]] + addr[1..];
      }
    }
  }

  lemma HexGroupHasNoColon(s: string)
    requires HexGroup(s)
    ensures CountChar(':', s) == 0
  {
  }

  /**
   * `::` is matched literally: an IPv6 pattern without `.` bans only addresses
   * with exactly as many colons as the pattern, so a zero-compressed group is
   * never matched by its expanded spelling.
   */
  lemma IPv6KeepsColons(p: string, addr: string)
    requires Supported(p) && ':' in p && '.' !in p && WildcardMatches(p, addr)
    ensures CountChar(':', addr) == CountChar(':', p)
  {
    CompileColons(p);
    MatchKeepsColons(Compile(IPv6, p), addr);
  }

  // ---------------------------------------------------------------------------
  // Patterns with a single wildcard.
  // ---------------------------------------------------------------------------

  lemma {:induction false} SubstituteLiteralPrefix(a: string, rest: string, fills: seq<string>)
    requires '*' !in a
    ensures Substitute(a + rest, fills) == a + Substitute(rest, fills)
  {
    if a != [] {
      assert (a + rest)[0] == a[0] && (a + rest)[1..] == a[1..] + rest;
      assert a[0] != '*';
      SubstituteLiteralPrefix(a[1..], rest, fills);
      calc {
        Substitute(a + rest, fills);
        [a[0]] + Substitute(a[1..] + rest, fills);
        [a[0]] + (a[1..] + Substitute(rest, fills));
        ([a[0]] + a[1..]) + Substitute(rest, fills);
        { assert [a[0]] + a[1..] == a; }
        a + Substitute(rest, fills);
      }
    } else {
      assert a + rest == rest;
    }
  }

  lemma SubstituteOneWildcard(a: string, f: string, b: string)
    requires '*' !in a && '*' !in b
    ensures Substitute(a + "*" + b, [f]) == a + f + b
  {
    var tail := "*" + b;
    assert a + "*" + b == a + tail;
    SubstituteLiteralPrefix(a, tail, [f]);
    assert tail[0] == '*' && tail[1..] == b;
    assert [f][1..] == [];
    assert Substitute(tail, [f]) == f + Substitute(b, []);
    SubstituteLiteralPrefix(b, [], []);
    assert b + [] == b;
    assert a + (f + b) == a + f + b;
  }

  lemma OneWildcard(a: string, b: string)
    requires '*' !in a && '*' !in b
    ensures CountChar('*', a + "*" + b) == 1
  {
    assert a + "*" + b == a + ("*" + b);
    CountCharConcat('*', a, "*" + b);
    CountCharConcat('*', "*", b);
  }
}
