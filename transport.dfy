/**
 * The server-side handle of one connected client (ClientSocket.java), seen
 * only through what the chat server uses of it: a login slot, the lines the
 * peer will send, a one-line send that reports failure, and close.
 */
module Transport {

  import opened Wrappers

  class ClientSocket {
    /** The login; None until the session has read its first line. */
    var login: Option<string>
    /**
     * What successive readLine calls will return. None stands for a null
     * line (end of stream) or an IOException, which getMessage turns into null.
     */
    var incoming: seq<Option<string>>
    /** The socket and both of its streams have been closed. */
    var closed: bool
    /** The peer's stream refuses writes; set by the environment, never cleared. */
    var broken: bool

    constructor (lines: seq<Option<string>>)
      ensures login == None && incoming == lines
      ensures !closed && !broken
    {
      login := None;
      incoming := lines;
      closed := false;
      broken := false;
    }

    /**
     * A write succeeds exactly when the socket is open and the stream is
     * healthy: println on a closed PrintWriter sets its error flag.
     */
    predicate CanWrite()
      reads this`closed, this`broken
    {
      !closed && !broken
    }

    /**
     * sendMsg: println followed by checkError. The line itself leaves on
     * the socket; the caller records what was sent to whom.
     */
    method SendMsg(msg: string) returns (ok: bool)
      ensures ok == CanWrite()
    {
      ok := !closed && !broken;
    }

    /**
     * The lines getMessage would still return: none once the socket is
     * closed, since readLine on the closed reader throws and getMessage
     * turns that into null.
     */
    function Pending(): seq<Option<string>>
      reads this`closed, this`incoming
    {
      if closed then [] else incoming
    }

    /**
     * getMessage: the next line, or None once the stream has ended, failed
     * or been closed.
     */
    method GetMessage() returns (line: Option<string>)
      modifies this`incoming
      ensures old(closed) ==> line == None && incoming == old(incoming)
      ensures !old(closed) && old(incoming) == [] ==> line == None && incoming == []
      ensures !old(closed) && old(incoming) != [] ==> line == old(incoming)[0] && incoming == old(incoming)[1..]
    {
      if closed || incoming == [] {
        line := None;
      } else {
        line := incoming[0];
        incoming := incoming[1..];
      }
    }

    method SetLogin(name: string)
      modifies this`login
      ensures login == Some(name)
    {
      login := Some(name);
    }

    /** close: releases the socket; closing again changes nothing. */
    method Close()
      modifies this`closed
      ensures closed
    {
      closed := true;
    }

    /** The environment: the peer's connection breaks, so later writes fail. */
    method Break()
      modifies this`broken
      ensures broken
    {
      broken := true;
    }
  }
}
