/**
 * The media-stream frame protocol both socket handlers consume
 * (`TwilioStreamData`). A message either fails to parse as JSON or yields a
 * record whose `event` string selects the handler's branch; each payload
 * member is optional.
 */
module Frames {
  import opened Wrappers

  datatype MediaFormat = MediaFormat(encoding: string, sampleRate: int, channels: int)

  datatype StartInfo = StartInfo(
    streamSid: string,
    accountSid: string,
    callSid: string,
    tracks: seq<string>,
    mediaFormat: MediaFormat)

  datatype MediaInfo = MediaInfo(timestamp: string, chunk: string, payload: string)

  datatype StopInfo = StopInfo(streamSid: string, accountSid: string, callSid: string)

  /** The parsed JSON record, member for member. */
  datatype StreamData = StreamData(
    event: string,
    sequenceNumber: Option<string>,
    media: Option<MediaInfo>,
    start: Option<StartInfo>,
    stop: Option<StopInfo>)

  /**
   * One socket message, as the listener's `try` block sees it. A parse
   * failure, and a `null` result (reading `data.event` then throws inside
   * the same `try`), are `Unparseable`. A record is `Json`. A scalar result
   * has an undefined tag and takes the `default` branch, as a record with an
   * unknown `event` does.
   */
  datatype Inbound = Unparseable | Json(data: StreamData)

  /** A message as the handlers' `switch` sees it. */
  datatype Frame =
    | Connected
    | Start(start: Option<StartInfo>)
    | Media(media: Option<MediaInfo>)
    | Stop(stop: Option<StopInfo>)
    | Unknown(tag: string)
    | Malformed

  const KnownEvents: set<string> := {"connected", "start", "media", "stop"}

  /**
   * The dispatch on `data.event`: each known tag selects its branch with
   * the matching payload member; any other tag falls to `default`.
   */
  function Classify(m: Inbound): (f: Frame)
    ensures f.Malformed? <==> m.Unparseable?
    ensures f.Unknown? <==> m.Json? && m.data.event !in KnownEvents
    ensures f.Unknown? ==> f.tag == m.data.event
    ensures m.Json? && m.data.event == "connected" ==> f.Connected?
    ensures m.Json? && m.data.event == "start" ==> f == Start(m.data.start)
    ensures m.Json? && m.data.event == "media" ==> f == Media(m.data.media)
    ensures m.Json? && m.data.event == "stop" ==> f == Stop(m.data.stop)
  {
    match m
    case Unparseable => Malformed
    case Json(d) =>
      if d.event == "connected" then Connected
      else if d.event == "start" then Start(d.start)
      else if d.event == "media" then Media(d.media)
      else if d.event == "stop" then Stop(d.stop)
      else Unknown(d.event)
  }
}
