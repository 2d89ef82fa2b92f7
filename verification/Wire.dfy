/** Frames of the chat gateway: what the server writes and what the client answers. */
module Wire {
  import opened Prelude

  /** The `t`/`d` part of a DISPATCH frame. */
  datatype Body =
    | Ready(sessionId: nat)
    | Resumed
    | Published(payload: Bytes)

  datatype GatewayEvent =
    | Hello
    | Dispatch(s: Option<nat>, body: Body)
    | HeartbeatAck
    | InvalidSession(resumable: bool)
    | Reconnect

  /** Serialized JSON, seen as the event it encodes and its length in bytes. */
  datatype Json = Json(event: GatewayEvent, length: nat)

  /** The two commands that open a session on a fresh connection. */
  datatype Command =
    | Identify
    | Resume(sessionId: nat, seqNo: nat)
}
