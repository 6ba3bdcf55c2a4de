/**
 * The presence protocol's data transfer objects: users, rooms, system events,
 * connection states and the decoded message envelope.
 */
module WebSocketTypes {
  import opened Wrappers

  /** The six message kinds of the protocol. */
  datatype MessageType = Join | Leave | Ping | System | RoomPresence | OnlineUsers

  datatype UserStatus = Online | Away | Offline

  /** A user as the presence protocol reports it; `roomId` is `None` for a user in no room. */
  datatype User = User(id: string, username: string, status: UserStatus, roomId: Option<string>, lastSeen: string)

  /** A room and the users the client believes are in it. */
  datatype Room = Room(id: string, name: string, userCount: int, users: seq<User>)

  datatype EventType = JoinEvent | LeaveEvent | SystemNotice

  /** An entry of the client's activity feed. */
  datatype SystemEvent = SystemEvent(id: string, message: string, timestamp: string, eventType: EventType, roomId: Option<string>)

  datatype ConnectionState = Connecting | Connected | Disconnected | Error

  /**
   * A message payload, tagged by its kind: the envelope's `type` field and the
   * shape of its `payload` are fused, so a decoded message always carries the
   * payload its type announces.
   */
  datatype Payload =
    | JoinPayload(username: string, roomId: string)
    | LeavePayload(username: string, roomId: string)
    | PingPayload(username: string)
    | SystemEventPayload(message: string, scope: Option<string>, eventType: EventType)
    | RoomPresencePayload(roomId: string, users: seq<User>)
    | OnlineUsersPayload(users: seq<User>, totalCount: int)
  {
    function Kind(): MessageType
    {
      match this
      case JoinPayload(_, _) => Join
      case LeavePayload(_, _) => Leave
      case PingPayload(_) => Ping
      case SystemEventPayload(_, _, _) => System
      case RoomPresencePayload(_, _) => RoomPresence
      case OnlineUsersPayload(_, _) => OnlineUsers
    }
  }

  /** The envelope `{type, payload, timestamp}`. */
  datatype WebSocketMessage = WebSocketMessage(payload: Payload, timestamp: string)

  /**
   * An inbound frame after JSON decoding: text that does not parse, an envelope
   * whose `type` is none of the known kinds, or a well-formed message.
   */
  datatype Frame =
    | Unparseable
    | UnknownType(typeName: string, timestamp: string)
    | Parsed(message: WebSocketMessage)
}
