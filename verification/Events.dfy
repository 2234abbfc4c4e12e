/** The record every component exchanges: one accepted access-log line. */
module Events {
  import opened Options

  /**
   * Timestamps are integer microseconds since the Unix epoch, UTC.  `reply`
   * and `received` are the byte counts sent to and received from the client.
   */
  datatype ParsedEvent = ParsedEvent(
    timestamp: int,
    durationMs: int,
    clientIp: string,
    action: string,
    statusCode: int,
    reply: int,
    verb: string,
    url: string,
    domain: Option<string>,
    user: Option<string>,
    hierarchy: Option<string>,
    peer: Option<string>,
    contentType: Option<string>,
    blocked: bool,
    branch: string,
    received: Option<int>,
    proxy: Option<string>)

  /** A ring-buffer entry: the event and the id it was given on arrival. */
  datatype StoredEvent = StoredEvent(id: nat, event: ParsedEvent)
}
