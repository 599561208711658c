/**
 * The `GET /log_fmlist` handler: three guards in a fixed order (a transmitter
 * is identified, the integration is not switched off, the cooldown admits the
 * id), then the payload is posted and the logging service's answer relayed.
 *
 * The outbound HTTPS request is a parameter: `transport` is what the request
 * would end in, either the collected response body or an error message.
 */
module LogFmlist {
  import opened Common
  import opened RelayLimiter
  import opened RelayPayload

  /** How the outbound request ends. */
  datatype Transport = Delivered(body: string) | Failed(message: string)

  const NoTransmitter := "No suitable transmitter to log."
  const IntegrationDisabled := "FMLIST Integration is not enabled on this server."

  function RateLimited(id: string): string {
    "ID " + id + " was already logged recently. Please wait before logging again."
  }

  /** Only an explicit `false` switches the integration off; an absent setting does not. */
  predicate IntegrationOff(config: Config) {
    config.fmlistIntegration == Some(false)
  }

  /** The answer relayed to the client once the request has been sent. */
  function Relayed(transport: Transport): Response {
    match transport
    case Delivered(body) => Response(200, body)
    case Failed(message) => Response(500, message)
  }

  /**
   * The handler. `sent` is the payload posted, if any. The history is updated
   * by the cooldown check before the request is made, so a failed request
   * still counts as a logging.
   */
  method HandleLogFmlist(history: LogHistory, data: Telemetry, config: Config, clientIp: string,
                         now: int, transport: Transport)
    returns (resp: Response, sent: Option<Payload>)
    modifies history
    ensures resp.status == ExpectedStatus(old(history.entries), data, config, now, transport)
    ensures data.txCount == 0 ==>
              resp == Response(500, NoTransmitter) && sent == None &&
              history.entries == old(history.entries)
    ensures data.txCount > 0 && IntegrationOff(config) ==>
              resp == Response(500, IntegrationDisabled) && sent == None &&
              history.entries == old(history.entries)
    ensures data.txCount > 0 && !IntegrationOff(config) &&
            RecentlyLogged(old(history.entries), data.txId, now) ==>
              resp == Response(429, RateLimited(data.txId)) && sent == None &&
              history.entries == old(history.entries)
    ensures data.txCount > 0 && !IntegrationOff(config) &&
            !RecentlyLogged(old(history.entries), data.txId, now) ==>
              (transport.Delivered? ==> resp == Response(200, transport.body)) &&
              (transport.Failed? ==> resp == Response(500, transport.message)) &&
              sent == Some(BuildPayload(data, config, clientIp)) &&
              history.entries == old(history.entries)[data.txId := now]
  {
    if data.txCount == 0 {
      return Response(500, NoTransmitter), None;
    }
    if config.fmlistIntegration == Some(false) {
      return Response(500, IntegrationDisabled), None;
    }
    var ok := history.CanLog(data.txId, now);
    if !ok {
      return Response(429, RateLimited(data.txId)), None;
    }
    var payload := BuildPayload(data, config, clientIp);
    sent := Some(payload);
    resp := Relayed(transport);
  }

  /**
   * The status of a request, as a function of the state before it: the guard
   * outcomes in order, then the relayed answer.
   */
  function ExpectedStatus(entries: map<string, int>, data: Telemetry, config: Config, now: int,
                          transport: Transport): (status: nat)
    ensures status == 200 <==>
              data.txCount > 0 && !IntegrationOff(config) &&
              !RecentlyLogged(entries, data.txId, now) && transport.Delivered?
    ensures status == 429 <==>
              data.txCount > 0 && !IntegrationOff(config) && RecentlyLogged(entries, data.txId, now)
    ensures status == 500 <==> !(status == 200 || status == 429)
  {
    if data.txCount == 0 || IntegrationOff(config) then 500
    else if RecentlyLogged(entries, data.txId, now) then 429
    else Relayed(transport).status
  }

  /** A request that fails on the way out still starts the cooldown: a retry is refused. */
  method RetryAfterFailure(data: Telemetry, config: Config, clientIp: string, t: int, message: string)
    returns (first: Response, second: Response, secondSent: Option<Payload>)
    requires data.txCount > 0 && !IntegrationOff(config) && t != 0
    ensures first == Response(500, message)
    ensures second == Response(429, RateLimited(data.txId)) && secondSent == None
  {
    var log := new LogHistory();
    var firstSent;
    first, firstSent := HandleLogFmlist(log, data, config, clientIp, t, Failed(message));
    second, secondSent := HandleLogFmlist(log, data, config, clientIp, t + 1, Delivered("OK"));
  }

  /** With no transmitter the first guard answers, whatever the other settings say. */
  method NoTransmitterFirst(data: Telemetry, config: Config, clientIp: string, t: int, transport: Transport)
    returns (resp: Response, recorded: bool)
    requires data.txCount == 0 && IntegrationOff(config)
    ensures resp == Response(500, NoTransmitter) && !recorded
  {
    var log := new LogHistory();
    var sent;
    resp, sent := HandleLogFmlist(log, data, config, clientIp, t, transport);
    recorded := data.txId in log.entries;
  }
}
