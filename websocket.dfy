/** The transport collaborator (a gorilla/websocket connection), seen from the
    broker: a connection is an opaque identity, and the only effect the registry
    has on it is Close(). Every close is recorded, in order, in a ghost log so
    that "closed exactly once" and "nothing else was closed" can be stated. */
module Websocket {

  /** Identity of one live *websocket.Conn. */
  type ConnId = nat

  /** All connections of the process, as far as closing them is concerned. */
  class Transport {
    /** Every Close() performed so far, oldest first. */
    ghost var closed: seq<ConnId>

    constructor ()
      ensures closed == []
    {
      closed := [];
    }

    /** conn.Close() */
    method Close(c: ConnId)
      modifies this
      ensures closed == old(closed) + [c]
    {
      closed := closed + [c];
    }
  }
}
