/**
 * The session registry (`WebSocketConnectionManager`): which upload
 * sessions may open a socket, which have done so, and the socket each
 * active session is bound to. A socket is an abstract handle; what the
 * manager does to a socket (accept it, close it with a code and reason,
 * send it a text frame) is recorded, in order, in `events`.
 */
module Registry {

  type Handle = nat

  /** Close code for a policy violation (RFC 6455, section 7.4.1). */
  const POLICY_VIOLATION: int := 1008
  const UPLOAD_FIRST: string := "Upload documents first"

  datatype TransportEvent =
    | Accepted(handle: Handle)
    | Closed(handle: Handle, code: int, reason: string)
    | SentText(handle: Handle, text: string)

  class ConnectionManager {
    var activeConnections: map<string, Handle>
    var authorizedSessions: set<string>
    var establishedSessions: set<string>
    var events: seq<TransportEvent>

    /**
     * Only an authorized session can have connected, and only a session
     * that connected can hold a socket.
     */
    ghost predicate Valid()
      reads this
    {
      establishedSessions <= authorizedSessions && activeConnections.Keys <= establishedSessions
    }

    constructor ()
      ensures Valid()
      ensures activeConnections == map[] && authorizedSessions == {} && establishedSessions == {}
      ensures events == []
    {
      activeConnections := map[];
      authorizedSessions := {};
      establishedSessions := {};
      events := [];
    }

    /**
     * `connect_websocket`: an unauthorized session's socket is closed
     * with 1008 and nothing else changes; an authorized session's socket
     * is accepted and bound to the session (replacing any socket already
     * bound to it) and the session counts as established.
     */
    method Connect(websocket: Handle, sessionId: string) returns (connected: bool)
      requires Valid()
      modifies this
      ensures Valid()
      ensures connected <==> sessionId in old(authorizedSessions)
      ensures authorizedSessions == old(authorizedSessions)
      ensures connected ==>
        && activeConnections == old(activeConnections)[sessionId := websocket]
        && establishedSessions == old(establishedSessions) + {sessionId}
        && events == old(events) + [Accepted(websocket)]
      ensures !connected ==>
        && activeConnections == old(activeConnections)
        && establishedSessions == old(establishedSessions)
        && events == old(events) + [Closed(websocket, POLICY_VIOLATION, UPLOAD_FIRST)]
    {
      if sessionId !in authorizedSessions {
        events := events + [Closed(websocket, POLICY_VIOLATION, UPLOAD_FIRST)];
        return false;
      }
      events := events + [Accepted(websocket)];
      activeConnections := activeConnections[sessionId := websocket];
      establishedSessions := establishedSessions + {sessionId};
      return true;
    }

    /** `disconnect_websocket`: unbind the session's socket, if any. */
    method Disconnect(sessionId: string)
      requires Valid()
      modifies this
      ensures Valid()
      ensures activeConnections == old(activeConnections) - {sessionId}
      ensures authorizedSessions == old(authorizedSessions)
      ensures establishedSessions == old(establishedSessions)
      ensures events == old(events)
    {
      if sessionId in activeConnections {
        activeConnections := activeConnections - {sessionId};
      }
    }

    /** `send_websocket_message`: one text frame to the session's socket, if it has one. */
    method Send(message: string, sessionId: string)
      requires Valid()
      modifies this`events
      ensures sessionId in activeConnections ==>
        events == old(events) + [SentText(activeConnections[sessionId], message)]
      ensures sessionId !in activeConnections ==> events == old(events)
    {
      if sessionId in activeConnections {
        events := events + [SentText(activeConnections[sessionId], message)];
      }
    }

    /** `authorize_upload_session`: the session may now connect. */
    method Authorize(sessionId: string)
      requires Valid()
      modifies this
      ensures Valid()
      ensures authorizedSessions == old(authorizedSessions) + {sessionId}
      ensures activeConnections == old(activeConnections)
      ensures establishedSessions == old(establishedSessions)
      ensures events == old(events)
    {
      authorizedSessions := authorizedSessions + {sessionId};
    }
  }
}
