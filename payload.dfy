/**
 * The record that `/log_fmlist` posts to the FMLIST logging service, and the
 * three string transforms it applies while building it: the quote escape of
 * `ps` and `tunerName`, the whitespace collapse of `ps` in the log message,
 * and the defaulting of `address` and `omid`.
 *
 * Values that the handler copies unchanged (frequency, PI code, flags, the
 * alternative-frequency list, the signal level) are carried as the text they
 * are rendered to; the model does not interpret them.
 */
module RelayPayload {
  import opened Common

  // ---------------------------------------------------------------------------
  // `.replace(/'/g, "\\'")`
  // ---------------------------------------------------------------------------

  /** Every `'` becomes the two characters `\'`; every other character is kept. */
  function EscapeQuotes(s: string): (r: string)
    ensures |r| == |s| + CountChar('\'', s)
    ensures forall i :: 0 <= i < |r| && r[i] == '\'' ==> 0 < i && r[i - 1] == '\\'
  {
    if s == [] then []
    else (if s[0] == '\'' then "\\'" else [s[0]]) + EscapeQuotes(s[1..])
  }

  /** The reading a consumer applies: each `\'` stands for one `'`. */
  function UnescapeQuotes(r: string): string {
    if r == [] then []
    else if |r| >= 2 && r[0] == '\\' && r[1] == '\'' then "'" + UnescapeQuotes(r[2..])
    else [r[0]] + UnescapeQuotes(r[1..])
  }

  /** The escape loses nothing: the original text can be read back. */
  lemma {:induction false} EscapeQuotesRoundTrip(s: string)
    ensures UnescapeQuotes(EscapeQuotes(s)) == s
  {
    if s != [] {
      var r := EscapeQuotes(s);
      var tail := EscapeQuotes(s[1..]);
      EscapeQuotesRoundTrip(s[1..]);
      if s[0] == '\'' {
        assert r == "\\'" + tail;
        assert r[2..] == tail;
      } else {
        assert r == [s[0]] + tail;
        assert r[1..] == tail;
        assert |r| >= 2 ==> r[1] != '\'';
      }
    }
  }

  /** The escape works character by character: it distributes over concatenation. */
  lemma {:induction false} EscapeQuotesConcat(a: string, b: string)
    ensures EscapeQuotes(a + b) == EscapeQuotes(a) + EscapeQuotes(b)
  {
    if a == [] {
      assert a + b == b;
    } else {
      assert (a + b)[0] == a[0] && (a + b)[1..] == a[1..] + b;
      EscapeQuotesConcat(a[1..], b);
    }
  }

  /** On one character: a quote gains a backslash, any other character is kept. */
  lemma EscapeQuotesChar(c: char)
    ensures EscapeQuotes([c]) == if c == '\'' then "\\'" else [c]
  {
    assert [c][1..] == [];
  }

  /** Text without quotes is left as it is. */
  lemma {:induction false} NoQuotesUnchanged(s: string)
    requires '\'' !in s
    ensures EscapeQuotes(s) == s
  {
    if s != [] {
      NoQuotesUnchanged(s[1..]);
    }
  }

  // ---------------------------------------------------------------------------
  // `.replace(/\s+/g, '_')`
  // ---------------------------------------------------------------------------

  /** The characters of the regular-expression class `\s` in JavaScript. */
  predicate IsJsWhitespace(c: char) {
    var n := c as int;
    (9 <= n <= 13) || n == 32 || n == 0xA0 || n == 0x1680 || (0x2000 <= n <= 0x200A) ||
    n == 0x2028 || n == 0x2029 || n == 0x202F || n == 0x205F || n == 0x3000 || n == 0xFEFF
  }

  predicate NoWhitespace(s: string) {
    forall i :: 0 <= i < |s| ==> !IsJsWhitespace(s[i])
  }

  /** Length of the whitespace run at the start of `s`. */
  function LeadingWhitespace(s: string): (k: nat)
    ensures k <= |s|
    ensures forall i :: 0 <= i < k ==> IsJsWhitespace(s[i])
    ensures k < |s| ==> !IsJsWhitespace(s[k])
  {
    if s == [] || !IsJsWhitespace(s[0]) then 0 else 1 + LeadingWhitespace(s[1..])
  }

  /** Each maximal run of whitespace becomes one `_`; other characters are kept. */
  function CollapseWhitespace(s: string): (r: string)
    ensures NoWhitespace(r)
    ensures |r| <= |s|
    decreases |s|
  {
    if s == [] then []
    else if IsJsWhitespace(s[0]) then
      var k := LeadingWhitespace(s);
      "_" + CollapseWhitespace(s[k..])
    else [s[0]] + CollapseWhitespace(s[1..])
  }

  /** Text without whitespace is left as it is. */
  lemma {:induction false} CollapseKeepsWord(w: string)
    requires NoWhitespace(w)
    ensures CollapseWhitespace(w) == w
  {
    if w != [] {
      CollapseKeepsWord(w[1..]);
    }
  }

  /** A non-empty run made only of whitespace becomes a single `_`. */
  lemma CollapseRun(run: string)
    requires |run| > 0 && forall i :: 0 <= i < |run| ==> IsJsWhitespace(run[i])
    ensures CollapseWhitespace(run) == "_"
  {
    LeadingAllWhitespace(run, []);
    assert run + [] == run;
    assert run[|run|..] == [];
  }

  /** A run that ends the text, or is followed by a non-whitespace character, is measured whole. */
  lemma {:induction false} LeadingAllWhitespace(a: string, b: string)
    requires forall i :: 0 <= i < |a| ==> IsJsWhitespace(a[i])
    requires b == [] || !IsJsWhitespace(b[0])
    ensures LeadingWhitespace(a + b) == |a|
  {
    if a == [] {
      assert a + b == b;
    } else {
      assert (a + b)[1..] == a[1..] + b;
      LeadingAllWhitespace(a[1..], b);
    }
  }

  /** A run that stops inside `a` is not lengthened by what follows `a`. */
  lemma {:induction false} LeadingStopsInside(a: string, b: string)
    requires LeadingWhitespace(a) < |a|
    ensures LeadingWhitespace(a + b) == LeadingWhitespace(a)
  {
    if IsJsWhitespace(a[0]) {
      assert (a + b)[1..] == a[1..] + b;
      LeadingStopsInside(a[1..], b);
    }
  }

  /**
   * Cutting the text where no whitespace run is split apart commutes with the
   * collapse: each side is collapsed on its own.
   */
  lemma {:induction false} CollapseConcat(a: string, b: string)
    requires a == [] || b == [] || !IsJsWhitespace(a[|a| - 1]) || !IsJsWhitespace(b[0])
    ensures CollapseWhitespace(a + b) == CollapseWhitespace(a) + CollapseWhitespace(b)
    decreases |a|
  {
    if a == [] {
      assert a + b == b;
    } else if b == [] {
      assert a + b == a;
    } else if !IsJsWhitespace(a[0]) {
      CollapseConcatChar(a, b);
    } else if LeadingWhitespace(a) < |a| {
      CollapseConcatRun(a, b);
    } else {
      CollapseConcatWholeRun(a, b);
    }
  }

  /** `CollapseConcat` when `a` starts with a kept character. */
  lemma {:induction false} CollapseConcatChar(a: string, b: string)
    requires a != [] && b != [] && !IsJsWhitespace(a[0])
    requires !IsJsWhitespace(a[|a| - 1]) || !IsJsWhitespace(b[0])
    ensures CollapseWhitespace(a + b) == CollapseWhitespace(a) + CollapseWhitespace(b)
    decreases |a|, 0
  {
    var ab := a + b;
    assert ab[0] == a[0] && ab[1..] == a[1..] + b;
    assert a[1..] == [] || a[1..][|a[1..]| - 1] == a[|a| - 1];
    CollapseConcat(a[1..], b);
    calc {
      CollapseWhitespace(ab);
      [a[0]] + CollapseWhitespace(a[1..] + b);
      [a[0]] + (CollapseWhitespace(a[1..]) + CollapseWhitespace(b));
      ([a[0]] + CollapseWhitespace(a[1..])) + CollapseWhitespace(b);
    }
  }

  /** `CollapseConcat` when `a` starts with a whitespace run that ends inside `a`. */
  lemma {:induction false} CollapseConcatRun(a: string, b: string)
    requires a != [] && b != [] && IsJsWhitespace(a[0]) && LeadingWhitespace(a) < |a|
    requires !IsJsWhitespace(a[|a| - 1]) || !IsJsWhitespace(b[0])
    ensures CollapseWhitespace(a + b) == CollapseWhitespace(a) + CollapseWhitespace(b)
    decreases |a|, 0
  {
    var ab := a + b;
    var k := LeadingWhitespace(a);
    LeadingStopsInside(a, b);
    assert ab[0] == a[0] && ab[k..] == a[k..] + b;
    assert a[k..][|a[k..]| - 1] == a[|a| - 1];
    CollapseConcat(a[k..], b);
    calc {
      CollapseWhitespace(ab);
      "_" + CollapseWhitespace(a[k..] + b);
      "_" + (CollapseWhitespace(a[k..]) + CollapseWhitespace(b));
      ("_" + CollapseWhitespace(a[k..])) + CollapseWhitespace(b);
    }
  }

  /** `CollapseConcat` when all of `a` is one whitespace run, so `b` starts with a kept character. */
  lemma CollapseConcatWholeRun(a: string, b: string)
    requires a != [] && b != [] && IsJsWhitespace(a[0]) && LeadingWhitespace(a) == |a|
    requires !IsJsWhitespace(b[0])
    ensures CollapseWhitespace(a + b) == CollapseWhitespace(a) + CollapseWhitespace(b)
  {
    var ab := a + b;
    LeadingAllWhitespace(a, b);
    assert ab[0] == a[0] && ab[|a|..] == b;
    assert a[|a|..] == [];
  }

  /** Collapsing twice is collapsing once. */
  lemma CollapseIdempotent(s: string)
    ensures CollapseWhitespace(CollapseWhitespace(s)) == CollapseWhitespace(s)
  {
    CollapseKeepsWord(CollapseWhitespace(s));
  }

  // ---------------------------------------------------------------------------
  // The posted record
  // ---------------------------------------------------------------------------

  /** The fields of `dataHandler.dataToSend` that the handler reads. */
  datatype Telemetry = Telemetry(
    freq: string, pi: string, ps: string,
    sig: string,          // the signal level as it is posted
    sigRounded: string,   // `sig.toFixed(0)`, taken as given
    tp: string, ta: string, af: seq<string>,
    txId: string,         // `txInfo.id`
    txCount: nat)         // `txInfo.tx.length`

  /** The settings the handler reads from `serverConfig`. */
  datatype Config = Config(
    token: string, lat: string, lon: string,
    proxyIp: string, tunerName: string,
    port: nat,                          // `webserver.port`
    fmlistIntegration: Option<bool>,    // `extras?.fmlistIntegration`
    fmlistOmid: Option<string>)         // `extras?.fmlistOmid`

  datatype Station = Station(
    freq: string, pi: string, id: string, rdsPs: string,
    signal: string, tp: string, ta: string, afList: seq<string>)

  datatype Server = Server(
    uuid: string, latitude: string, longitude: string,
    address: string, webserverName: string, omid: string)

  datatype Payload = Payload(station: Station, server: Server, requestIp: string, logMsg: string)

  const AddressFallbackPrefix := "Matches request IP with port "

  /** `r` is the fallback note followed by the decimal text of `port`, without leading zeros. */
  predicate NamesPort(r: string, port: nat) {
    var n := |AddressFallbackPrefix|;
    |r| > n && r[..n] == AddressFallbackPrefix && AllDigits(r[n..]) && DecimalValue(r[n..]) == port &&
    (|r| == n + 1 || r[n] != '0')
  }

  /**
   * `address`: the configured proxy address when it is longer than one
   * character, otherwise a note naming the web server port.
   */
  function Address(proxyIp: string, port: nat): (r: string)
    ensures |r| > 1
    ensures |proxyIp| > 1 ==> r == proxyIp
    ensures |proxyIp| <= 1 ==> NamesPort(r, port)
  {
    if |proxyIp| > 1 then proxyIp
    else
      var digits := DecimalString(port);
      var r := AddressFallbackPrefix + digits;
      assert r[|AddressFallbackPrefix|..] == digits;
      DecimalStringValue(port);
      r
  }

  /** The fallback note is fixed by the port: it is `AddressFallbackPrefix + DecimalString(port)`. */
  lemma FallbackIsDecimalString(r: string, port: nat)
    requires NamesPort(r, port)
    ensures r == AddressFallbackPrefix + DecimalString(port)
  {
    var n := |AddressFallbackPrefix|;
    DecimalStringValue(port);
    CanonicalUnique(r[n..], DecimalString(port));
    assert r == r[..n] + r[n..];
  }

  /** `extras?.fmlistOmid || ''`: the configured identifier, or empty when there is none. */
  function Omid(configured: Option<string>): string {
    match configured
    case Some(s) => s
    case None => ""
  }

  const LogPrefix := "Logged PS: "

  /** `log_msg`: the station name with its whitespace collapsed, the PI code and the rounded signal. */
  function LogMessage(ps: string, pi: string, sigRounded: string): string {
    LogPrefix + CollapseWhitespace(ps) + ", PI: " + pi + ", Signal: " + sigRounded + " dBf"
  }

  /** The station name as it appears in the log message contains no whitespace. */
  lemma LogMessageName(ps: string, pi: string, sigRounded: string)
    ensures var m := LogMessage(ps, pi, sigRounded);
            var name := CollapseWhitespace(ps);
            |m| > |LogPrefix| + |name| &&
            m[..|LogPrefix|] == LogPrefix &&
            m[|LogPrefix|..|LogPrefix| + |name|] == name && NoWhitespace(name)
  {
  }

  /** The object handed to `JSON.stringify`. */
  function BuildPayload(data: Telemetry, config: Config, clientIp: string): (p: Payload)
    // the two escaped names, which read back to the raw texts
    ensures p.station.rdsPs == EscapeQuotes(data.ps) && UnescapeQuotes(p.station.rdsPs) == data.ps
    ensures p.server.webserverName == EscapeQuotes(config.tunerName)
    ensures UnescapeQuotes(p.server.webserverName) == config.tunerName
    // the defaulted fields
    ensures p.server.address == Address(config.proxyIp, config.port) && |p.server.address| > 1
    ensures p.server.omid == (if config.fmlistOmid.Some? then config.fmlistOmid.value else "")
    // the fields copied unchanged
    ensures p.station.freq == data.freq && p.station.pi == data.pi && p.station.id == data.txId
    ensures p.station.signal == data.sig && p.station.tp == data.tp && p.station.ta == data.ta
    ensures p.station.afList == data.af
    ensures p.server.uuid == config.token && p.server.latitude == config.lat
    ensures p.server.longitude == config.lon && p.requestIp == clientIp
    // the log line, from the unescaped name
    ensures p.logMsg == LogMessage(data.ps, data.pi, data.sigRounded)
  {
    EscapeQuotesRoundTrip(data.ps);
    EscapeQuotesRoundTrip(config.tunerName);
    Payload(
      Station(data.freq, data.pi, data.txId, EscapeQuotes(data.ps),
              data.sig, data.tp, data.ta, data.af),
      Server(config.token, config.lat, config.lon,
             Address(config.proxyIp, config.port),
             EscapeQuotes(config.tunerName), Omid(config.fmlistOmid)),
      clientIp,
      LogMessage(data.ps, data.pi, data.sigRounded))
  }
}
