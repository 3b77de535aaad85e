/**
 * The chat server (ChatServer.java): the shared client list, the broadcast
 * that evicts recipients whose send failed, the per-connection session and
 * the admission step of the accept loop. Each broadcast and each admission
 * is one sequential step; the threads that run them are not modelled.
 */
module Server {

  import opened Wrappers
  import opened Transport
  import opened Protocol
  import opened Registry

  /** One call of sendMsgToAll: who sent what. */
  datatype Post = Post(sender: ClientSocket, text: string)

  /** What one attempt of serverSocket.accept and the thread start came to. */
  datatype AcceptEvent =
    | AcceptFailed                                                // SocketException: skipped
    | ListenerFailed                                              // any other IOException: the loop ends
    | Accepted(lines: seq<Option<string>>, threadStarted: bool)   // a new client and what it will send

  /** The events the accept loop handles: everything before the first ListenerFailed. */
  function Handled(events: seq<AcceptEvent>): (r: seq<AcceptEvent>)
    ensures |r| <= |events| && r == events[..|r|]
    ensures ListenerFailed !in r
    ensures ListenerFailed in events ==> events[|r|] == ListenerFailed
    ensures ListenerFailed !in events ==> r == events
  {
    if events == [] || events[0] == ListenerFailed then []
    else [events[0]] + Handled(events[1..])
  }

  /** The lines of the clients that got a handler thread, in the order they were accepted. */
  function Admissions(events: seq<AcceptEvent>): seq<seq<Option<string>>> {
    if events == [] then []
    else
      var e := events[|events| - 1];
      Admissions(events[..|events| - 1]) + (if e.Accepted? && e.threadStarted then [e.lines] else [])
  }

  /** How many accepted clients had no thread and were closed. */
  function Rejections(events: seq<AcceptEvent>): nat {
    if events == [] then 0
    else
      var e := events[|events| - 1];
      Rejections(events[..|events| - 1]) + (if e.Accepted? && !e.threadStarted then 1 else 0)
  }

  /**
   * The accept loop after handling the first k events: none of them was
   * ListenerFailed, adm holds the lines of the clients admitted so far and
   * rejected counts the clients closed for want of a thread.
   */
  predicate Accepting(events: seq<AcceptEvent>, k: nat, adm: seq<seq<Option<string>>>, rejected: nat) {
    && k <= |events| && ListenerFailed !in events[..k]
    && adm == Admissions(events[..k])
    && rejected == Rejections(events[..k])
  }

  /** A failed accept is skipped: nothing is admitted or rejected. */
  lemma AcceptSkip(events: seq<AcceptEvent>, k: nat, adm: seq<seq<Option<string>>>, rejected: nat)
    requires Accepting(events, k, adm, rejected) && k < |events| && events[k] == AcceptFailed
    ensures Accepting(events, k + 1, adm, rejected)
  {
    assert events[..k + 1] == events[..k] + [events[k]];
  }

  /** An accepted client whose thread started is admitted with its lines. */
  lemma AcceptAdmit(events: seq<AcceptEvent>, k: nat, adm: seq<seq<Option<string>>>, rejected: nat)
    requires Accepting(events, k, adm, rejected) && k < |events| && events[k].Accepted? && events[k].threadStarted
    ensures Accepting(events, k + 1, adm + [events[k].lines], rejected)
  {
    assert events[..k + 1] == events[..k] + [events[k]];
  }

  /** An accepted client that got no thread is rejected, and nothing is admitted. */
  lemma AcceptReject(events: seq<AcceptEvent>, k: nat, adm: seq<seq<Option<string>>>, rejected: nat)
    requires Accepting(events, k, adm, rejected) && k < |events| && events[k].Accepted? && !events[k].threadStarted
    ensures Accepting(events, k + 1, adm, rejected + 1)
  {
    assert events[..k + 1] == events[..k] + [events[k]];
  }

  /** The accept loop stops at the end of the events or at the first ListenerFailed: what it handled is Handled. */
  lemma AcceptDone(events: seq<AcceptEvent>, k: nat, adm: seq<seq<Option<string>>>, rejected: nat)
    requires Accepting(events, k, adm, rejected)
    requires k == |events| || events[k] == ListenerFailed
    ensures Handled(events) == events[..k]
    ensures adm == Admissions(Handled(events)) && rejected == Rejections(Handled(events))
    ensures k < |events| <==> ListenerFailed in events
  {
    var r := Handled(events);
    if k < |events| {
      forall i | 0 <= i < k
        ensures events[i] != ListenerFailed
      {
        assert events[i] == events[..k][i];
      }
      forall i | 0 <= i < |r|
        ensures events[i] != ListenerFailed
      {
        assert events[i] == r[i];
      }
    } else {
      assert events[..k] == events;
    }
  }

  /** The broadcasts of one session, in order, all from sender. */
  function PostsBy(sender: ClientSocket, msgs: seq<string>): (r: seq<Post>)
    ensures |r| == |msgs|
    ensures forall i :: 0 <= i < |r| ==> r[i] == Post(sender, msgs[i])
  {
    if msgs == [] then [] else PostsBy(sender, msgs[..|msgs| - 1]) + [Post(sender, msgs[|msgs| - 1])]
  }

  /**
   * The sends of one session's broadcasts: the first goes over the list as
   * it was, every later one over what the first left of it.
   */
  function SessionSends(cs: seq<ClientSocket>, sender: ClientSocket, writable: set<ClientSocket>, msgs: seq<string>): seq<Send>
  {
    if msgs == [] then []
    else
      var n := |msgs| - 1;
      SessionSends(cs, sender, writable, msgs[..n])
        + Attempts(if n == 0 then cs else Survivors(cs, sender, writable), sender, writable, msgs[n])
  }

  /**
   * Where a session stands after broadcasting out and reading j of its lines:
   * r is the whole session, cs and writable the list and who could be written
   * to when it started, posted0 and sends0 the logs before it; list, login,
   * incoming, posted and sends are what it has made of them so far.
   */
  ghost predicate Progress(r: Run, cs: seq<ClientSocket>, writable: set<ClientSocket>, sender: ClientSocket,
                           lines: seq<Option<string>>, out: seq<string>, j: nat,
                           list: seq<ClientSocket>, login: Option<string>, incoming: seq<Option<string>>,
                           posted0: seq<Post>, sends0: seq<Send>, posted: seq<Post>, sends: seq<Send>)
  {
    && j <= |lines| && incoming == lines[j..]
    && Resumes(r, out, j, login, incoming)
    && posted == posted0 + PostsBy(sender, out)
    && list == (if out == [] then cs else Survivors(cs, sender, writable))
    && sends == sends0 + SessionSends(cs, sender, writable, out)
  }

  /** A session starts with nothing read and nothing broadcast. */
  lemma ProgressStart(cs: seq<ClientSocket>, writable: set<ClientSocket>, sender: ClientSocket,
                      login: Option<string>, lines: seq<Option<string>>, posted0: seq<Post>, sends0: seq<Send>)
    ensures Progress(Session(login, lines), cs, writable, sender, lines, [], 0, cs, login, lines,
                     posted0, sends0, posted0, sends0)
  {
    assert lines[0..] == lines;
    assert posted0 + [] == posted0 && sends0 + [] == sends0;
  }

  /**
   * Relaying a line that does not stop the session: it is announced, the
   * broadcast leaves the survivors of the session's first broadcast, and
   * its sends and post extend the session's.
   */
  lemma ProgressRelay(r: Run, cs: seq<ClientSocket>, writable: set<ClientSocket>, sender: ClientSocket,
                      lines: seq<Option<string>>, out: seq<string>, j: nat,
                      list: seq<ClientSocket>, login: Option<string>, incoming: seq<Option<string>>,
                      posted0: seq<Post>, sends0: seq<Send>, posted: seq<Post>, sends: seq<Send>, now: set<ClientSocket>)
    requires Progress(r, cs, writable, sender, lines, out, j, list, login, incoming, posted0, sends0, posted, sends)
    requires incoming != [] && !Stops(incoming[0])
    requires forall c :: c in list ==> (c in now <==> c in writable)
    ensures var m := Announcement(login, incoming[0].value);
      Progress(r, cs, writable, sender, lines, out + [m], j + 1, Survivors(list, sender, now),
               NextLogin(login, incoming[0].value), incoming[1..], posted0, sends0, posted + [Post(sender, m)],
               sends + Attempts(list, sender, now, m))
  {
    var msg := incoming[0].value;
    var m := Announcement(login, msg);
    ResumeStep(r, out, j, login, incoming);
    assert lines[j + 1..] == incoming[1..];
    assert (out + [m])[..|out|] == out;
    assert posted + [Post(sender, m)] == posted0 + (PostsBy(sender, out) + [Post(sender, m)]);
    RelaySurvivors(cs, writable, sender, out, m, list, now);
    RelaySends(cs, writable, sender, out, m, list, now, sends0, sends);
  }

  /** One more broadcast of a session removes nothing its first broadcast did not. */
  lemma RelaySurvivors(cs: seq<ClientSocket>, writable: set<ClientSocket>, sender: ClientSocket, out: seq<string>, m: string,
                       list: seq<ClientSocket>, now: set<ClientSocket>)
    requires list == (if out == [] then cs else Survivors(cs, sender, writable))
    requires forall c :: c in list ==> (c in now <==> c in writable)
    ensures Survivors(list, sender, now) == Survivors(cs, sender, writable)
  {
    SurvivorsAgree(list, sender, now, writable, m);
    if out != [] {
      SurvivorsIdempotent(cs, sender, writable);
    }
  }

  /** One more broadcast of a session, over the list the earlier ones left, extends the session's sends. */
  lemma RelaySends(cs: seq<ClientSocket>, writable: set<ClientSocket>, sender: ClientSocket, out: seq<string>, m: string,
                   list: seq<ClientSocket>, now: set<ClientSocket>, sends0: seq<Send>, sends: seq<Send>)
    requires list == (if out == [] then cs else Survivors(cs, sender, writable))
    requires sends == sends0 + SessionSends(cs, sender, writable, out)
    requires forall c :: c in list ==> (c in now <==> c in writable)
    ensures sends + Attempts(list, sender, now, m) == sends0 + SessionSends(cs, sender, writable, out + [m])
  {
    SurvivorsAgree(list, sender, now, writable, m);
    var step, before := Attempts(list, sender, writable, m), SessionSends(cs, sender, writable, out);
    assert SessionSends(cs, sender, writable, out + [m]) == before + step by {
      assert (out + [m])[..|out|] == out;
    }
    assert sends + step == sends0 + (before + step);
  }

  /** Every client the session has left listed was listed when it started. */
  lemma ProgressListed(r: Run, cs: seq<ClientSocket>, writable: set<ClientSocket>, sender: ClientSocket,
                       lines: seq<Option<string>>, out: seq<string>, j: nat,
                       list: seq<ClientSocket>, login: Option<string>, incoming: seq<Option<string>>,
                       posted0: seq<Post>, sends0: seq<Send>, posted: seq<Post>, sends: seq<Send>)
    requires Progress(r, cs, writable, sender, lines, out, j, list, login, incoming, posted0, sends0, posted, sends)
    ensures forall c :: c in list ==> c in cs
  {
    forall c | c in list
      ensures c in cs
    {
      if out != [] {
        SurvivorsMembership(cs, sender, writable, c);
      }
    }
  }

  /**
   * The end of the stream or the quit command ends the session where it
   * stands: the session's broadcasts are out, and the stop line, if there
   * was one, is consumed.
   */
  lemma ProgressStop(r: Run, cs: seq<ClientSocket>, writable: set<ClientSocket>, sender: ClientSocket,
                     lines: seq<Option<string>>, out: seq<string>, j: nat,
                     list: seq<ClientSocket>, login: Option<string>, incoming: seq<Option<string>>,
                     posted0: seq<Post>, sends0: seq<Send>, posted: seq<Post>, sends: seq<Send>)
    requires Progress(r, cs, writable, sender, lines, out, j, list, login, incoming, posted0, sends0, posted, sends)
    requires incoming == [] || Stops(incoming[0])
    ensures r.login == login && r.messages == out
    ensures (if incoming == [] then [] else incoming[1..]) == lines[r.consumed..]
    ensures posted == posted0 + PostsBy(sender, r.messages)
    ensures list == (if r.messages == [] then cs else Survivors(cs, sender, writable))
    ensures sends == sends0 + SessionSends(cs, sender, writable, r.messages)
  {
    ResumeStop(r, out, j, login, incoming);
    if incoming != [] {
      assert lines[j + 1..] == incoming[1..];
    }
  }

  /**
   * No broadcast of a session goes back to its own client: the login notice
   * and the chat lines reach only the other listed clients.
   */
  lemma {:induction false} SessionNoEcho(cs: seq<ClientSocket>, sender: ClientSocket, writable: set<ClientSocket>, msgs: seq<string>)
    ensures forall i :: 0 <= i < |SessionSends(cs, sender, writable, msgs)| ==>
      SessionSends(cs, sender, writable, msgs)[i].to in cs && SessionSends(cs, sender, writable, msgs)[i].to != sender
  {
    if msgs != [] {
      var n := |msgs| - 1;
      var list := if n == 0 then cs else Survivors(cs, sender, writable);
      var head, tail := SessionSends(cs, sender, writable, msgs[..n]), Attempts(list, sender, writable, msgs[n]);
      SessionNoEcho(cs, sender, writable, msgs[..n]);
      AttemptsSkipSender(list, sender, writable, msgs[n]);
      forall c | c in list
        ensures c in cs
      {
        SurvivorsMembership(cs, sender, writable, c);
      }
      assert SessionSends(cs, sender, writable, msgs) == head + tail;
    }
  }

  class ChatServer {
    /** clientSocketList */
    var clients: seq<ClientSocket>
    /** The listening socket is open. */
    var listening: bool
    /** Every broadcast so far, in order. */
    ghost var posted: seq<Post>
    /** Every sendMsg call so far, in order, with its outcome. */
    ghost var sends: seq<Send>

    /** Every admitted client is a new object, so none is listed twice. */
    ghost predicate Valid()
      reads this
    {
      Distinct(clients)
    }

    /** The server as start leaves it once the listening socket is bound. */
    constructor ()
      ensures Valid() && clients == [] && listening && posted == [] && sends == []
    {
      clients := [];
      listening := true;
      posted := [];
      sends := [];
    }

    /**
     * clientConnectionLoop: accepts connections until the listening socket
     * fails. A failed accept is skipped; a client whose handler thread
     * started is added to the list, one whose thread could not be created is
     * closed; when the listener fails the server socket is closed.
     */
    method ClientConnectionLoop(events: seq<AcceptEvent>) returns (admitted: seq<ClientSocket>, rejected: seq<ClientSocket>)
      requires Valid()
      modifies this`clients, this`listening
      ensures Valid()
      ensures clients == old(clients) + admitted
      ensures |admitted| == |Admissions(Handled(events))|
      ensures forall i :: 0 <= i < |admitted| ==>
        && fresh(admitted[i])
        && admitted[i].incoming == Admissions(Handled(events))[i]
        && admitted[i].login == None && admitted[i].CanWrite()
      ensures |rejected| == Rejections(Handled(events))
      ensures forall c :: c in rejected ==> fresh(c) && c.closed
      ensures listening == (old(listening) && ListenerFailed !in events)
    {
      admitted, rejected := [], [];
      ghost var adm: seq<seq<Option<string>>> := [];
      var k := 0;
      while k < |events| && events[k] != ListenerFailed
        invariant Accepting(events, k, adm, |rejected|)
        invariant Valid() && clients == old(clients) + admitted && listening == old(listening)
        invariant |admitted| == |adm|
        invariant forall i :: 0 <= i < |admitted| ==>
          && fresh(admitted[i])
          && admitted[i].incoming == adm[i]
          && admitted[i].login == None && admitted[i].CanWrite()
        invariant forall c :: c in rejected ==> fresh(c) && c.closed
      {
        match events[k] {
          case AcceptFailed =>
            AcceptSkip(events, k, adm, |rejected|);
          case Accepted(lines, threadStarted) =>
            var client := Admit(lines, threadStarted);
            if threadStarted {
              AcceptAdmit(events, k, adm, |rejected|);
              admitted, adm := admitted + [client], adm + [lines];
            } else {
              AcceptReject(events, k, adm, |rejected|);
              rejected := rejected + [client];
            }
        }
        k := k + 1;
      }
      AcceptDone(events, k, adm, |rejected|);
      if k < |events| {
        listening := false;
      }
    }

    /**
     * One accepted connection in clientConnectionLoop: its socket is wrapped
     * in a new ClientSocket; if the handler thread starts, the client is
     * added to the list, otherwise its socket is closed.
     */
    method Admit(lines: seq<Option<string>>, threadStarted: bool) returns (client: ClientSocket)
      requires Valid()
      modifies this`clients
      ensures Valid() && fresh(client)
      ensures client.incoming == lines && client.login == None
      ensures threadStarted ==> clients == old(clients) + [client] && client.CanWrite()
      ensures !threadStarted ==> clients == old(clients) && client.closed
    {
      client := new ClientSocket(lines);
      if threadStarted {
        DistinctAppend(clients, client);
        clients := clients + [client];
      } else {
        client.Close();
      }
    }

    /**
     * clientMessageLoop: runs the session loop and then, in its finally
     * block, closes the client's socket, so the socket is closed whichever
     * way the loop ended; the client's own session never removes it from
     * the list.
     */
    method ClientMessageLoop(client: ClientSocket)
      requires Valid()
      modifies this`clients, this`posted, this`sends, client`incoming, client`login, client`closed
      ensures Valid()
      ensures var r := Session(old(client.login), old(client.Pending()));
        && client.login == r.login
        && client.incoming == (if old(client.closed) then old(client.incoming) else old(client.incoming)[r.consumed..])
        && client.closed
        && posted == old(posted) + PostsBy(client, r.messages)
        && clients == (if r.messages == [] then old(clients) else Survivors(old(clients), client, old(Writable(clients))))
        && sends == old(sends) + SessionSends(old(clients), client, old(Writable(clients)), r.messages)
      ensures client in old(clients) ==> client in clients
    {
      ghost var cs, writable := clients, Writable(clients);
      ReceiveLoop(client);
      client.Close();
      SurvivorsMembership(cs, client, writable, client);
    }

    /**
     * The loop of clientMessageLoop: reads the client's lines until the
     * stream ends or the client sends the quit command; the first other line
     * becomes the login and is announced, each later one is broadcast tagged
     * with it. What it reads, broadcasts and leaves of the list is Session's.
     */
    method ReceiveLoop(client: ClientSocket)
      requires Valid()
      modifies this`clients, this`posted, this`sends, client`incoming, client`login
      ensures Valid()
      ensures var r := Session(old(client.login), old(client.Pending()));
        && client.login == r.login
        && client.Pending() == old(client.Pending())[r.consumed..]
        && (old(client.closed) ==> client.incoming == old(client.incoming))
        && posted == old(posted) + PostsBy(client, r.messages)
        && clients == (if r.messages == [] then old(clients) else Survivors(old(clients), client, old(Writable(clients))))
        && sends == old(sends) + SessionSends(old(clients), client, old(Writable(clients)), r.messages)
    {
      ghost var cs, writable, lines := clients, Writable(clients), client.Pending();
      ghost var r := Session(client.login, lines);
      ghost var out: seq<string>, j: nat := [], 0;
      ProgressStart(cs, writable, client, client.login, lines, posted, sends);
      ghost var pending := client.Pending();
      var line := client.GetMessage();
      while line.Some? && !IsQuit(line.value)
        modifies this`clients, this`posted, this`sends, client`incoming, client`login
        invariant Valid()
        invariant Progress(r, cs, writable, client, lines, out, j, clients, client.login, pending,
                           old(posted), old(sends), posted, sends)
        invariant line == (if pending == [] then None else pending[0])
        invariant client.closed == old(client.closed)
        invariant client.closed ==> pending == [] && client.incoming == old(client.incoming)
        invariant !client.closed ==> client.incoming == if pending == [] then [] else pending[1..]
        decreases |pending|
      {
        ProgressListed(r, cs, writable, client, lines, out, j, clients, client.login, pending,
                       old(posted), old(sends), posted, sends);
        assert Agrees(cs, writable);
        AgreesWithin(cs, writable, clients);
        ghost var now := Writable(clients);
        ProgressRelay(r, cs, writable, client, lines, out, j, clients, client.login, pending,
                      old(posted), old(sends), posted, sends, now);
        var msg := Relay(client, line.value);
        out, j := out + [msg], j + 1;
        pending := client.incoming;
        line := client.GetMessage();
      }
      ProgressStop(r, cs, writable, client, lines, out, j, clients, client.login, pending,
                   old(posted), old(sends), posted, sends);
    }

    /**
     * The body of the loop of clientMessageLoop for a line that does not end
     * the session: the first such line becomes the login and is announced,
     * later ones are tagged with the login; then the result is broadcast.
     */
    method Relay(client: ClientSocket, line: string) returns (msg: string)
      requires Valid()
      modifies this`clients, this`posted, this`sends, client`login
      ensures Valid()
      ensures msg == Announcement(old(client.login), line)
      ensures client.login == NextLogin(old(client.login), line)
      ensures clients == Survivors(old(clients), client, old(Writable(clients)))
      ensures sends == old(sends) + Attempts(old(clients), client, old(Writable(clients)), msg)
      ensures posted == old(posted) + [Post(client, msg)]
    {
      if client.login == None {
        client.SetLogin(line);
        msg := LoginNotice(client.login.value);
      } else {
        msg := ChatLine(client.login.value, line);
      }
      var count := SendMsgToAll(client, msg);
    }

    /**
     * sendMsgToAll: every listed client other than the sender is sent msg
     * once, in list order; those whose send fails are removed in place, and
     * count is the number of successful sends.
     */
    method SendMsgToAll(sender: ClientSocket, msg: string) returns (count: nat)
      requires Valid()
      modifies this`clients, this`posted, this`sends
      ensures Valid()
      ensures clients == Survivors(old(clients), sender, old(Writable(clients)))
      ensures count == Delivered(old(clients), sender, old(Writable(clients)))
      ensures sends == old(sends) + Attempts(old(clients), sender, old(Writable(clients)), msg)
      ensures posted == old(posted) + [Post(sender, msg)]
    {
      ghost var all, writable := clients, Writable(clients);
      ghost var log: seq<Send> := [];
      var i := 0;
      ghost var k := 0;
      count := 0;
      while i < |clients|
        modifies this`clients
        invariant Scanned(all, sender, writable, msg, k, clients, i, count, log)
        decreases |all| - k
      {
        ScanNext(all, sender, writable, msg, k, clients, i, count, log);
        WritableAt(all, k);
        var c := clients[i];
        if c != sender {
          var ok := c.SendMsg(msg);
          if ok {
            ScanKeep(all, sender, writable, msg, k, clients, i, count, log);
            count, i := count + 1, i + 1;
          } else {
            ScanEvict(all, sender, writable, msg, k, clients, i, count, log);
            clients := clients[..i] + clients[i + 1..];
          }
          log := log + [Send(c, msg, ok)];
        } else {
          ScanSkip(all, sender, writable, msg, k, clients, i, count, log);
          i := i + 1;
        }
        k := k + 1;
      }
      ScanDone(all, sender, writable, msg, k, clients, i, count, log);
      sends := sends + log;
      posted := posted + [Post(sender, msg)];
    }
  }

  /** alice broadcasting to [alice, bob, carol] while bob cannot be written to. */
  lemma BroadcastPastBroken(alice: ClientSocket, bob: ClientSocket, carol: ClientSocket, w: set<ClientSocket>, msg: string)
    requires alice != bob && alice != carol && bob != carol
    requires bob !in w && carol in w
    ensures Survivors([alice, bob, carol], alice, w) == [alice, carol]
    ensures Delivered([alice, bob, carol], alice, w) == 1
    ensures Attempts([alice, bob, carol], alice, w, msg) == [Send(bob, msg, false), Send(carol, msg, true)]
  {
    var cs := [alice, bob, carol];
    assert cs[..2] == [alice, bob] && [alice, bob][..1] == [alice] && [alice][..0] == [];
    assert Survivors([alice], alice, w) == [alice];
    assert Survivors([alice, bob], alice, w) == [alice];
    assert Delivered([alice], alice, w) == 0;
    assert Delivered([alice, bob], alice, w) == 0;
    assert Attempts([alice], alice, w, msg) == [];
    assert Attempts([alice, bob], alice, w, msg) == [Send(bob, msg, false)];
  }

  /** alice broadcasting to [alice, carol] while carol can be written to. */
  lemma BroadcastToOne(alice: ClientSocket, carol: ClientSocket, w: set<ClientSocket>, msg: string)
    requires alice != carol && carol in w
    ensures Survivors([alice, carol], alice, w) == [alice, carol]
    ensures Delivered([alice, carol], alice, w) == 1
    ensures Attempts([alice, carol], alice, w, msg) == [Send(carol, msg, true)]
  {
    var cs := [alice, carol];
    assert cs[..1] == [alice] && [alice][..0] == [];
    assert Survivors([alice], alice, w) == [alice];
    assert Delivered([alice], alice, w) == 0;
    assert Attempts([alice], alice, w, msg) == [];
  }

  /**
   * A broken peer is dropped by the next broadcast: alice, bob and carol are
   * listed, bob's connection breaks, and alice speaks twice. The first
   * broadcast reaches carol only, logs one failed send to bob and removes
   * him; the second one no longer tries bob at all.
   */
  method BrokenPeerEvicted() returns (server: ChatServer, alice: ClientSocket, bob: ClientSocket, carol: ClientSocket,
                                      first: nat, second: nat)
    ensures first == 1 && second == 1
    ensures server.clients == [alice, carol] && bob !in server.clients
    ensures server.sends == [Send(bob, "oi", false), Send(carol, "oi", true), Send(carol, "tchau", true)]
  {
    server, alice, bob, carol := ThreeListed();
    bob.Break();
    BroadcastPastBroken(alice, bob, carol, Writable(server.clients), "oi");
    first := server.SendMsgToAll(alice, "oi");
    ghost var log := server.sends;
    assert log == [Send(bob, "oi", false), Send(carol, "oi", true)];
    BroadcastToOne(alice, carol, Writable(server.clients), "tchau");
    second := server.SendMsgToAll(alice, "tchau");
    assert server.sends == log + [Send(carol, "tchau", true)];
  }

  /** A new server to which alice, bob and carol connect in turn. */
  method ThreeListed() returns (server: ChatServer, alice: ClientSocket, bob: ClientSocket, carol: ClientSocket)
    ensures server.Valid() && server.clients == [alice, bob, carol] && server.sends == []
    ensures alice != bob && alice != carol && bob != carol
    ensures alice.CanWrite() && bob.CanWrite() && carol.CanWrite()
    ensures fresh(server) && fresh(alice) && fresh(bob) && fresh(carol)
  {
    server := new ChatServer();
    alice := server.Admit([], true);
    bob := server.Admit([], true);
    carol := server.Admit([], true);
  }
}
