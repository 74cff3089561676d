/** The transport side of a connection: a websocket as the server sees it. */
module Transport {
  import opened Wire

  /** The websocket ready states; only `Open` sockets are broadcast targets. */
  datatype ReadyState = Connecting | Open | Closing | Closed

  /** The state a socket is in after `close()` is called on it. */
  function AfterClose(st: ReadyState): (r: ReadyState)
    ensures r != Open && r != Connecting
    ensures st == Closed ==> r == Closed
  {
    if st == Closed then Closed else Closing
  }

  /** A websocket. `sent` is every frame handed to `send`, in order: the
      socket's outbox. Transitions the transport makes on its own (the peer
      going away) are outside this model; `Close` is the one the server makes. */
  class Socket {
    var readyState: ReadyState
    var sent: seq<Frame>

    /** A socket whose upgrade has just completed. */
    constructor ()
      ensures readyState == Open && sent == []
    {
      readyState := Open;
      sent := [];
    }

    method Send(f: Frame)
      modifies this
      ensures sent == old(sent) + [f]
      ensures readyState == old(readyState)
    {
      sent := sent + [f];
    }

    /** Starts the closing handshake. */
    method Close()
      modifies this
      ensures sent == old(sent)
      ensures readyState == AfterClose(old(readyState))
    {
      readyState := AfterClose(readyState);
    }
  }
}
