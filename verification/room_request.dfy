/** InternetRequest: one HTTP exchange of the meeting-room client with the
    server. Sending and receiving are socket I/O and are not part of this
    model; what is modelled is the request's state: the socket (open or
    not), the text reply, the request text and the size of the binary reply,
    and the questions the room asks of that state. */
module RoomRequest {

  /** A socket handle, or none (INVALID_SOCKET). */
  datatype Socket = NoSocket | Open(handle: int)

  class InternetRequest {
    var socket: Socket
    var buffer: string
    var request: string
    var binIndex: int

    /** A new request: no socket, no reply, nothing to send. */
    constructor ()
      ensures !Working() && !IsReady()
      ensures buffer == [] && request == [] && binIndex == 0
    {
      socket := NoSocket;
      buffer := [];
      request := [];
      binIndex := 0;
    }

    /** Working: a socket is open, so an exchange is under way. */
    predicate Working()
      reads this
    {
      socket.Open?
    }

    /** IsReady: the exchange is over and left a text or a binary reply. */
    predicate IsReady(): (ready: bool)
      reads this
      ensures ready ==> !Working()
      ensures ready ==> binIndex != 0 || |buffer| > 0
    {
      (binIndex != 0 || buffer != []) && !Working()
    }

    /** Close: closes the socket if one is open. */
    method Close()
      modifies this
      ensures !Working()
      ensures buffer == old(buffer) && request == old(request) && binIndex == old(binIndex)
    {
      if socket.Open? {
        socket := NoSocket;
      }
    }

    /** Clear: closes the socket and forgets the reply and the request. */
    method Clear()
      modifies this
      ensures !Working() && !IsReady()
      ensures buffer == [] && request == [] && binIndex == 0
    {
      Close();
      buffer := [];
      request := [];
      binIndex := 0;
    }
  }
}
