# FM-DX web server endpoints: a Dafny model

This project models four pieces of the web server's HTTP endpoint file,
`endpoints.js`, and proves properties about them.

- **The wildcard ban list of the `/` route.** Each entry of
  `webserver.banlist` is checked against the client address. An entry without
  `*` must equal the address exactly. An entry with `*` becomes an anchored
  regular expression:
  - on the IPv6 path (the entry contains `:`), each `*` stands for one to four
    hex digits, compared without regard to ASCII case;
  - on the IPv4 path, each `*` stands for a decimal octet from 0 to 255,
    written with one to three digits.

  Dafny has no regular expressions. So the compiled expression is a token
  sequence (`PatternMatcher.Compile`), and `PatternMatcher.Matches` decides
  whether it accepts an address. The main theorems describe the accepted
  addresses as exactly the entry with every `*` filled in
  (`IPv4WildcardMatch`, `IPv6WildcardMatch`).
- **The `authenticate` middleware of `POST /login`.** The password is
  compared with the administrator secret first, then with the tune secret.
  The session's two flags are set accordingly (`SessionAuth.Session`).
- **The `canLog` cooldown.** It keeps one timestamp per transmitter id in
  `logHistory` (`RelayLimiter.LogHistory`).
- **The `GET /log_fmlist` handler**:
  - its three guards, in order;
  - the record it posts to the FMLIST logging service, built with escaped
    quotes, collapsed whitespace, and defaulted `address` and `omid`
    (`RelayPayload`);
  - the relay of the service's answer (`LogFmlist`).

The model takes these as parameters:
- the clock reading `Date.now()`;
- the client address;
- the telemetry snapshot `dataHandler.dataToSend` (`RelayPayload.Telemetry`);
- the server configuration `serverConfig` (`RelayPayload.Config`, `SessionAuth.Credentials`, the ban list);
- the outcome of the outbound HTTPS request (`LogFmlist.Transport`).

Modules:
- `Common`: options, responses, character counts, decimal text.
- `PatternMatcher`
- `BanList`
- `BanExamples`: worked ban entries.
- `SessionAuth`
- `RelayLimiter`
- `RelayPayload`
- `LogFmlist`

## Two behaviours of the code worth noting

- **`::` in an IPv6 ban entry is matched literally.** The comment at
  `endpoints.js:32` ("Handle `::` for zero compression") gives the intent:
  a compressed entry should also match the expanded spelling of an address.
  But line 30 has already rewritten every `:` to `\:`. So the
  `.replace('::', …)` at line 32 never finds `::` and never fires.
  - `PatternMatcher.IPv6KeepsColons` proves that, for entries without `.`, a
    matched address has exactly as many colons as the entry.
  - `BanExamples.IPv6ExampleExpandedNotBanned` shows that `2001:db8::*` does
    not ban `2001:db8:0:0:0:0:0:1a2b`.
- **A record made at clock time 0 never denies.** The guard
  `logHistory[id] && …` at `endpoints.js:311` treats a stored 0 as falsy, so
  it ignores that record.
  - `RelayLimiter.ZeroStartScenario` proves that a call at time 0 and another
    thirty minutes later are both admitted.
  - `RelayLimiter.CooldownScenario` proves that the thirty-minute repeat is
    denied for any non-zero start time.

## Model

| member | source | states |
|---|---|---|
| PatternMatcher.FamilyOf | endpoints.js:27 | no contract of its own: an entry takes the IPv6 path iff it contains `:` |
| PatternMatcher.Compile | endpoints.js:29-41 | the compiled expression has one token per entry character: `*` becomes a wildcard, `.` on the IPv6 path becomes "any character", every other character a literal (escaped `:` or `.` included) |
| PatternMatcher.Matches | endpoints.js:33-35 | no contract of its own: the anchored expression accepts the whole address; its meaning is stated by `MatchesIffInstance` |
| PatternMatcher.WildcardMatches | endpoints.js:29-43 | no contract of its own: `regex.test(requestIp)` for the expression compiled from the entry; its meaning is stated by `IPv4WildcardMatch` and `IPv6WildcardMatch` |
| PatternMatcher.MatchesIffInstance | endpoints.js:29-43 | the compiled token expression accepts an address iff the address is one of its instances: every `*` filled with an admissible text (octet or hex group), compared character by character as the family's expression compares |
| PatternMatcher.MatchesToInstance | endpoints.js:29-43 | every accepted address yields admissible fills whose instance it matches |
| PatternMatcher.InstanceToMatches | endpoints.js:29-43 | every instance with admissible fills is accepted |
| PatternMatcher.OctetAltIsOctet | endpoints.js:40 | the three-alternative octet group of the IPv4 replacement accepts exactly the strings of one to three decimal digits whose value is at most 255 |
| PatternMatcher.WildCountCompile | endpoints.js:29-41 | compiling yields one wildcard token per `*` of the entry |
| PatternMatcher.ExpandCompile | endpoints.js:29-41 | filling the compiled wildcards is the same as substituting the fills into the entry text (IPv4, or IPv6 without `.`) |
| PatternMatcher.CharsMatchLitsIPv4 | endpoints.js:42 | without the `i` flag, literal characters match only themselves |
| PatternMatcher.CharsMatchLitsIPv6 | endpoints.js:34 | with the `i` flag, literal characters match up to ASCII case |
| PatternMatcher.IPv4WildcardMatch | endpoints.js:36-43 | an IPv4 entry matches an address iff the address is the entry with each `*` replaced by an octet 0-255 of one to three digits |
| PatternMatcher.IPv6WildcardMatch | endpoints.js:27-35 | an IPv6 entry without `.` matches an address iff the address equals, up to ASCII case, the entry with each `*` replaced by one to four hex digits |
| PatternMatcher.IPv6KeepsColons | endpoints.js:30-32 | for IPv6 entries without `.`, a matched address has exactly as many `:` as the entry, so `::` is never expanded |
| BanList.EntryMatches | endpoints.js:25-46 | no contract of its own: the `.some` callback, the compiled expression for an entry with `*` and `===` otherwise; stated by `LiteralEntryIsExact` and `WildcardEntryBans` |
| BanList.IsBanned | endpoints.js:24-47 | the address is banned iff some entry of the list matches it |
| BanList.EmptyListBansNothing | endpoints.js:24 | an empty ban list bans no address |
| BanList.LiteralEntryIsExact | endpoints.js:46 | an entry without `*` bans exactly the identical address string |
| BanList.WildcardEntryBans | endpoints.js:25-45 | an entry with `*` bans exactly the addresses its compiled expression matches |
| BanList.JoinedListsAreOr | endpoints.js:24 | joining two lists bans what either bans, and the order of the entries does not matter |
| BanExamples.IPv4ExampleBanned | endpoints.js:37-43 | `192.168.*.5` bans `192.168.77.5` |
| BanExamples.IPv4ExampleOtherHost | endpoints.js:37-43 | `192.168.*.5` does not ban `192.168.77.6` |
| BanExamples.IPv4ExampleOctetTooLarge | endpoints.js:40 | `192.168.*.5` does not ban `192.168.256.5` |
| BanExamples.IPv6ExampleBanned | endpoints.js:27-35 | `2001:db8::*` bans `2001:db8::1a2b` and `2001:DB8::1a2b` |
| BanExamples.IPv6ExampleExpandedNotBanned | endpoints.js:32 | `2001:db8::*` does not ban the expanded spelling `2001:db8:0:0:0:0:0:1a2b` |
| SessionAuth.Decide | endpoints.js:185-197 | no contract of its own: the `if … else if … else` chain on the password; its branches are stated by the four lemmas below |
| SessionAuth.LoginResponse | endpoints.js:196-203 | no contract of its own: 403 with the failure text on denial, 200 with the success text otherwise; stated by `DenialRevealsNothing` and `Session.Login` |
| SessionAuth.Session.constructor | endpoints.js:181-198 | a new session has neither flag set and satisfies "admin implies tune" |
| SessionAuth.AdminPassGrantsAdmin | endpoints.js:185-189 | the administrator secret always takes the administrator branch |
| SessionAuth.TunePassGrantsTune | endpoints.js:190-194 | the tune secret takes the tune branch whenever it differs from the administrator secret |
| SessionAuth.EqualSecretsGrantAdmin | endpoints.js:185-190 | when both secrets are equal, the administrator branch wins |
| SessionAuth.OtherPasswordsDenied | endpoints.js:195-197 | a password is denied iff it equals neither secret |
| SessionAuth.DenialRevealsNothing | endpoints.js:196 | every denial gives the same 403 answer, whichever secret was missed |
| SessionAuth.Session.Login | endpoints.js:181-204 | admin password sets both flags; tune password sets tune only and clears admin; any other leaves both flags; 200 and the success text on success, 403 and the failure text otherwise; "admin implies tune" is kept |
| SessionAuth.TuneLoginScenario | endpoints.js:190-194 | a tune login on a fresh session yields tune-only access and status 200 |
| SessionAuth.FailedLoginKeepsTier | endpoints.js:195-197 | a failed login after an administrator login keeps both flags and answers 403 |
| RelayLimiter.LogHistory.constructor | endpoints.js:305 | the history starts empty |
| RelayLimiter.LogHistory.CanLog | endpoints.js:308-316 | admits iff there is no truthy record younger than sixty minutes; an admission records `now` for the id, a denial changes nothing |
| RelayLimiter.FirstCallAdmitted | endpoints.js:311-315 | an id with no record is admitted |
| RelayLimiter.CooldownWindow | endpoints.js:310-311 | after a record at non-zero time `t`, a call at any clock reading is denied iff the reading is before `t` plus sixty minutes |
| RelayLimiter.OtherIdsUnaffected | endpoints.js:314 | recording one id never changes the verdict for another |
| RelayLimiter.ZeroTimestampNeverDenies | endpoints.js:311 | a record of 0 is falsy and never denies |
| RelayLimiter.EarlierClockDenies | endpoints.js:311 | a clock reading at or before a truthy record denies |
| RelayLimiter.CooldownScenario | endpoints.js:308-316 | admitted at `t`, denied within the window, admitted again exactly sixty minutes later |
| RelayLimiter.DistinctIdsScenario | endpoints.js:308-316 | two different ids are both admitted at the same instant |
| RelayLimiter.ZeroStartScenario | endpoints.js:309-314 | a first call at time 0 and a second thirty minutes later are both admitted |
| RelayPayload.EscapeQuotes | endpoints.js:343 | the escaped text is longer by the number of quotes, and every quote in it is preceded by a backslash |
| RelayPayload.EscapeQuotesRoundTrip | endpoints.js:343 | reading `\'` back as `'` recovers the original text |
| RelayPayload.EscapeQuotesConcat | endpoints.js:343 | the escape works character by character: escaping a concatenation is concatenating the escapes |
| RelayPayload.EscapeQuotesChar | endpoints.js:343 | a single quote becomes backslash-quote, and every other character is kept as it is |
| RelayPayload.NoQuotesUnchanged | endpoints.js:354 | text without quotes is left unchanged |
| RelayPayload.CollapseWhitespace | endpoints.js:360 | the result has no JavaScript `\s` character and is no longer than the input |
| RelayPayload.CollapseKeepsWord | endpoints.js:360 | text without whitespace is left unchanged |
| RelayPayload.CollapseRun | endpoints.js:360 | a non-empty run of whitespace only becomes a single `_` |
| RelayPayload.CollapseConcat | endpoints.js:360 | cutting the text outside any whitespace run commutes with the collapse |
| RelayPayload.CollapseIdempotent | endpoints.js:360 | collapsing twice is the same as collapsing once |
| RelayPayload.Address | endpoints.js:353 | the address always has more than one character; it is the proxy address when that has more than one character, and otherwise the fallback note followed by the port's decimal digits, value equal to the port and no leading zero |
| RelayPayload.FallbackIsDecimalString | endpoints.js:353 | the fallback address is fixed by the port: it is exactly the note followed by `DecimalString(port)` |
| RelayPayload.Omid | endpoints.js:355 | no contract of its own: the configured identifier, or `""` when none is set; stated by `BuildPayload` |
| RelayPayload.LogMessage | endpoints.js:360 | no contract of its own: `Logged PS: ` + collapsed name + `, PI: ` + PI + `, Signal: ` + rounded signal + ` dBf`; stated by `LogMessageName` |
| RelayPayload.LogMessageName | endpoints.js:360 | the log message starts with `Logged PS: ` followed by the collapsed station name, which has no whitespace |
| RelayPayload.BuildPayload | endpoints.js:338-361 | `rds_ps` and `webserver_name` are the quote-escaped texts and read back to the raw ones; `address` is the defaulted address (more than one character); `omid` is the configured identifier or `""` when none is set; `freq`, `pi`, `id`, `signal`, `tp`, `ta`, `af_list`, `uuid`, `latitude`, `longitude` and `request_ip` are copied unchanged; `log_msg` is built from the unescaped, collapsed name |
| Common.DecimalString | endpoints.js:353 | the port is written as one or more digits, with no leading zero (just `0` for zero), as JavaScript writes integers below 10^21 |
| Common.DecimalStringValue | endpoints.js:353 | the port's decimal text reads back as the port |
| Common.CanonicalUnique | endpoints.js:353 | two digit texts without leading zeros and with the same value are the same text |
| LogFmlist.Relayed | endpoints.js:382-391 | no contract of its own: a delivered answer is relayed as 200 with its body, a failed request as 500 with the error message; stated by `HandleLogFmlist` |
| LogFmlist.IntegrationOff | endpoints.js:324 | no contract of its own: only an explicit `false` switches the integration off, an absent setting does not |
| LogFmlist.RateLimited | endpoints.js:334 | no contract of its own: the 429 text naming the id |
| LogFmlist.HandleLogFmlist | endpoints.js:318-396 | no transmitter gives 500; integration explicitly off gives 500; a recent logging gives 429 naming the id; none of these changes the history or posts anything; otherwise the id is recorded before the post, the built record is posted, a delivered response is relayed as 200 with its body and a failed request answers 500 with the error message |
| LogFmlist.ExpectedStatus | endpoints.js:319-336 | the status is 200 iff every guard passes and the request is delivered; it is 429 iff the first two guards pass and the id was logged recently; every other outcome is 500 |
| LogFmlist.RetryAfterFailure | endpoints.js:333-391 | a post that fails on the way out still starts the cooldown: the retry is answered 429 and nothing is posted |
| LogFmlist.NoTransmitterFirst | endpoints.js:319-327 | with no transmitter, the first guard answers even when the integration is off, and no history record is made |

## Left out

- PatternMatcher.WildcardMatches: defined only for entries that are ASCII and contain no regex syntax other than `*`, `.` and `:`. An entry with `\ ^ $ | ? + ( ) [ ] { }` would compile to a different expression or fail to compile; that case is not modelled.
- BanList.IsBanned: requires every wildcard entry of the list to meet the same restriction (`SupportedList`).
- BanList.EntryMatches: same restriction, for one entry.
- PatternMatcher.IPv6WildcardMatch: not stated for IPv6 entries that contain `.`. There the unescaped `.` matches any character except a line terminator. `PatternMatcher.Matches` gives these entries their meaning, and `MatchesIffInstance` covers them at the token level.
- The `/` route after the ban check (rendering the 403 page or the main page, the `logInfo` line) is not modelled. The client address (`x-forwarded-for` or the socket address) is a parameter.
- The session store: `SessionAuth.Session` is the session object of one client. Its persistence and cookies belong to express-session, which is not part of this model. The `logInfo` lines of `authenticate` are left out.
- The JSON wrapping `{ message: … }` of the login answers: the model keeps the message text as the response body.
- `Date.now()` is a parameter of `CanLog` and `HandleLogFmlist`.
- The HTTPS request to the logging service (options, `Content-Length`, `JSON.stringify`, chunk collection) is replaced by the `Transport` parameter. The record that would be serialised is the `sent` result.
- RelayPayload.Telemetry: frequency, PI code, `tp`, `ta`, the alternative frequencies and the signal level are carried as the text they are rendered to. `sig.toFixed(0)` is a given string, because floating-point rounding is not modelled.
- RelayPayload.BuildPayload: `txInfo.id` is modelled as a string. JavaScript also turns a numeric id into its string form when it uses the id as a `logHistory` key.
- RelayLimiter.LogHistory.CanLog: does not model keys that name properties of `Object.prototype`. `logHistory` is a plain `{}`, so for the id `__proto__` the read at `endpoints.js:311` yields a truthy object and `now - {}` is NaN, and the write at line 314 is swallowed by the prototype setter; the source admits that id on every call, while the model applies the cooldown to it like any other id.
- RelayPayload.Address: strings are sequences of Unicode scalar values, not of UTF-16 code units. `.length` at `endpoints.js:353` counts code units, so a one-character `proxyIp` outside the Basic Multilingual Plane takes the proxy branch in the source and the fallback branch in the model.
- PatternMatcher.Matches: for the same reason, the regex `.` of an IPv6 entry consumes one scalar value in the model, where a non-Unicode JavaScript expression consumes one UTF-16 code unit.
- Concurrency: the model merges a `/log_fmlist` request and the relay of its answer into one step. In the source the answer arrives in a later callback (`endpoints.js:373-391`), so other requests can run before it is relayed. Nothing is lost by merging them: the callback writes no shared state, and `logHistory` is written synchronously at `endpoints.js:314`, through the check at line 333, before the request is sent.
- All other routes of the file, the configuration loading, and the plugin and serial-port handling are not part of this model.
