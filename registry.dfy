/**
 * What one pass of sendMsgToAll (ChatServer.java) does to the client list,
 * as functions of the list and of the set of clients a send would reach
 * (those whose CanWrite holds when the broadcast starts).
 */
module Registry {

  import opened Transport

  /** No client appears twice in the list. */
  predicate Distinct(cs: seq<ClientSocket>) {
    cs == [] || (cs[|cs| - 1] !in cs[..|cs| - 1] && Distinct(cs[..|cs| - 1]))
  }

  /** A client that is not yet listed can be appended without creating a duplicate. */
  lemma DistinctAppend(cs: seq<ClientSocket>, c: ClientSocket)
    requires Distinct(cs) && c !in cs
    ensures Distinct(cs + [c])
  {
    assert (cs + [c])[..|cs|] == cs;
  }

  /** In a list with no duplicates, the entry at k occurs neither before nor after k. */
  lemma {:induction false} DistinctSplit(cs: seq<ClientSocket>, k: nat)
    requires Distinct(cs) && k < |cs|
    ensures cs[k] !in cs[..k] && cs[k] !in cs[k + 1..]
  {
    var n := |cs| - 1;
    var init := cs[..n];
    if k < n {
      DistinctSplit(init, k);
      assert init[..k] == cs[..k] && init[k] == cs[k];
      assert cs[k + 1..] == init[k + 1..] + [cs[n]];
    }
  }

  /** In a list with no duplicates, different positions hold different clients. */
  lemma DistinctAt(cs: seq<ClientSocket>, i: nat, j: nat)
    requires Distinct(cs) && i < j < |cs|
    ensures cs[i] != cs[j]
  {
    DistinctSplit(cs, i);
    assert cs[j] == cs[i + 1..][j - i - 1];
  }

  /** The listed clients a send would reach. */
  function Writable(cs: seq<ClientSocket>): set<ClientSocket>
    reads cs`closed, cs`broken
  {
    set c | c in cs && c.CanWrite()
  }

  /** A snapshot of who could be written to that still describes every client of cs. */
  ghost predicate Agrees(cs: seq<ClientSocket>, writable: set<ClientSocket>)
    reads cs`closed, cs`broken
  {
    forall c :: c in cs ==> (c in writable <==> c.CanWrite())
  }

  /** While the snapshot agrees, the clients left of cs are writable exactly as the snapshot says. */
  lemma AgreesWithin(cs: seq<ClientSocket>, writable: set<ClientSocket>, part: seq<ClientSocket>)
    requires Agrees(cs, writable) && forall c :: c in part ==> c in cs
    ensures forall c :: c in part ==> (c in Writable(part) <==> c in writable)
  {
  }

  /** A listed client is in Writable exactly when a send to it would succeed. */
  lemma WritableAt(cs: seq<ClientSocket>, k: nat)
    requires k < |cs|
    ensures cs[k] in Writable(cs) <==> cs[k].CanWrite()
  {
  }

  /** A broadcast from sender leaves c in the list: c is the sender, or the send to c succeeds. */
  predicate Keeps(c: ClientSocket, sender: ClientSocket, writable: set<ClientSocket>) {
    c == sender || c in writable
  }

  /** The list after the broadcast. */
  function Survivors(cs: seq<ClientSocket>, sender: ClientSocket, writable: set<ClientSocket>): seq<ClientSocket>
  {
    if cs == [] then []
    else
      var c := cs[|cs| - 1];
      Survivors(cs[..|cs| - 1], sender, writable) + (if Keeps(c, sender, writable) then [c] else [])
  }

  /** The entries the broadcast removes: recipients whose send failed. */
  function Evicted(cs: seq<ClientSocket>, sender: ClientSocket, writable: set<ClientSocket>): seq<ClientSocket>
  {
    if cs == [] then []
    else
      var c := cs[|cs| - 1];
      Evicted(cs[..|cs| - 1], sender, writable) + (if Keeps(c, sender, writable) then [] else [c])
  }

  /** The count of sendMsgToAll: how many recipients the message reached. */
  function Delivered(cs: seq<ClientSocket>, sender: ClientSocket, writable: set<ClientSocket>): nat
  {
    if cs == [] then 0
    else
      var c := cs[|cs| - 1];
      Delivered(cs[..|cs| - 1], sender, writable) + (if c != sender && c in writable then 1 else 0)
  }

  /** One call of sendMsg during a broadcast: to whom, what, and whether it succeeded. */
  datatype Send = Send(to: ClientSocket, text: string, ok: bool)

  /** The recipients of a broadcast: every entry but the sender, in list order. */
  function Recipients(cs: seq<ClientSocket>, sender: ClientSocket): seq<ClientSocket> {
    if cs == [] then []
    else
      var c := cs[|cs| - 1];
      Recipients(cs[..|cs| - 1], sender) + (if c != sender then [c] else [])
  }

  /** The sends of a broadcast of msg, in the order the list is walked. */
  function Attempts(cs: seq<ClientSocket>, sender: ClientSocket, writable: set<ClientSocket>, msg: string): seq<Send> {
    if cs == [] then []
    else
      var c := cs[|cs| - 1];
      Attempts(cs[..|cs| - 1], sender, writable, msg) + (if c != sender then [Send(c, msg, c in writable)] else [])
  }

  /** The client each send of a log went to, in order. */
  function Targets(log: seq<Send>): (r: seq<ClientSocket>)
    ensures |r| == |log| && forall i :: 0 <= i < |log| ==> r[i] == log[i].to
  {
    seq(|log|, i requires 0 <= i < |log| => log[i].to)
  }

  /** How many sends of a log succeeded. */
  function Successes(log: seq<Send>): nat {
    if log == [] then 0
    else Successes(log[..|log| - 1]) + (if log[|log| - 1].ok then 1 else 0)
  }

  /**
   * One iteration of the broadcast loop: the list is the survivors of the
   * first k entries followed by the rest; the entry at k is then kept or
   * removed in place.
   */
  lemma Advance(cs: seq<ClientSocket>, k: nat, sender: ClientSocket, writable: set<ClientSocket>, msg: string)
    requires k < |cs|
    ensures var done, c := Survivors(cs[..k], sender, writable), cs[k];
      && Survivors(cs[..k + 1], sender, writable) == done + (if Keeps(c, sender, writable) then [c] else [])
      && Delivered(cs[..k + 1], sender, writable) == Delivered(cs[..k], sender, writable) + (if c != sender && c in writable then 1 else 0)
      && (Attempts(cs[..k + 1], sender, writable, msg)
            == Attempts(cs[..k], sender, writable, msg) + (if c != sender then [Send(c, msg, c in writable)] else []))
      && done + cs[k..] == (done + [c]) + cs[k + 1..]
      && (done + cs[k..])[..|done|] + (done + cs[k..])[|done| + 1..] == done + cs[k + 1..]
  {
    assert cs[..k + 1][..k] == cs[..k];
    assert cs[..k + 1] == cs[..k] + [cs[k]];
    assert cs[k..] == [cs[k]] + cs[k + 1..];
  }

  /**
   * The state of sendMsgToAll after it has visited the first k entries of
   * the list all: list is the list so far, i the iterator's position in it,
   * count the successful sends and log the sends made.
   */
  predicate Scanned(all: seq<ClientSocket>, sender: ClientSocket, writable: set<ClientSocket>, msg: string,
                    k: nat, list: seq<ClientSocket>, i: nat, count: nat, log: seq<Send>)
  {
    && k <= |all|
    && list == Survivors(all[..k], sender, writable) + all[k..]
    && i == |Survivors(all[..k], sender, writable)|
    && count == Delivered(all[..k], sender, writable)
    && log == Attempts(all[..k], sender, writable, msg)
  }

  /** The iterator has a next entry exactly while entries are left to visit, and that entry is all[k]. */
  lemma ScanNext(all: seq<ClientSocket>, sender: ClientSocket, writable: set<ClientSocket>, msg: string,
                 k: nat, list: seq<ClientSocket>, i: nat, count: nat, log: seq<Send>)
    requires Scanned(all, sender, writable, msg, k, list, i, count, log)
    ensures i < |list| <==> k < |all|
    ensures k < |all| ==> list[i] == all[k]
  {
  }

  /** Visiting the sender: it is skipped, neither sent to nor removed. */
  lemma ScanSkip(all: seq<ClientSocket>, sender: ClientSocket, writable: set<ClientSocket>, msg: string,
                 k: nat, list: seq<ClientSocket>, i: nat, count: nat, log: seq<Send>)
    requires Scanned(all, sender, writable, msg, k, list, i, count, log) && k < |all| && all[k] == sender
    ensures Scanned(all, sender, writable, msg, k + 1, list, i + 1, count, log)
  {
    Advance(all, k, sender, writable, msg);
  }

  /** Visiting a recipient the message reached: it stays listed and is counted. */
  lemma ScanKeep(all: seq<ClientSocket>, sender: ClientSocket, writable: set<ClientSocket>, msg: string,
                 k: nat, list: seq<ClientSocket>, i: nat, count: nat, log: seq<Send>)
    requires Scanned(all, sender, writable, msg, k, list, i, count, log) && k < |all|
    requires all[k] != sender && all[k] in writable
    ensures Scanned(all, sender, writable, msg, k + 1, list, i + 1, count + 1, log + [Send(all[k], msg, true)])
  {
    Advance(all, k, sender, writable, msg);
  }

  /** Visiting a recipient whose send failed: it is removed in place and the iterator stays put. */
  lemma ScanEvict(all: seq<ClientSocket>, sender: ClientSocket, writable: set<ClientSocket>, msg: string,
                  k: nat, list: seq<ClientSocket>, i: nat, count: nat, log: seq<Send>)
    requires Scanned(all, sender, writable, msg, k, list, i, count, log) && k < |all|
    requires all[k] != sender && all[k] !in writable
    ensures i < |list|
    ensures Scanned(all, sender, writable, msg, k + 1, list[..i] + list[i + 1..], i, count, log + [Send(all[k], msg, false)])
  {
    Advance(all, k, sender, writable, msg);
  }

  /** Once the iterator is exhausted, the state is the outcome of the whole broadcast, and the list is still free of duplicates. */
  lemma ScanDone(all: seq<ClientSocket>, sender: ClientSocket, writable: set<ClientSocket>, msg: string,
                 k: nat, list: seq<ClientSocket>, i: nat, count: nat, log: seq<Send>)
    requires Scanned(all, sender, writable, msg, k, list, i, count, log) && i >= |list|
    ensures list == Survivors(all, sender, writable)
    ensures count == Delivered(all, sender, writable)
    ensures log == Attempts(all, sender, writable, msg)
    ensures Distinct(all) ==> Distinct(list)
  {
    ScanNext(all, sender, writable, msg, k, list, i, count, log);
    assert all[..k] == all;
    if Distinct(all) {
      SurvivorsDistinct(all, sender, writable);
    }
  }

  /**
   * The survivors are exactly the kept entries of the list, in their
   * original order: idx gives, for each survivor, its strictly increasing
   * position in the old list, and every kept position is among them.
   */
  lemma {:induction false} SurvivorsEmbedding(cs: seq<ClientSocket>, sender: ClientSocket, writable: set<ClientSocket>)
    returns (idx: seq<nat>)
    ensures |idx| == |Survivors(cs, sender, writable)|
    ensures forall i :: 0 <= i < |idx| ==> idx[i] < |cs| && cs[idx[i]] == Survivors(cs, sender, writable)[i]
    ensures forall i, j :: 0 <= i < j < |idx| ==> idx[i] < idx[j]
    ensures forall p :: 0 <= p < |cs| ==> (p in idx <==> Keeps(cs[p], sender, writable))
  {
    if cs == [] {
      idx := [];
    } else {
      var n := |cs| - 1;
      var init := cs[..n];
      var head := SurvivorsEmbedding(init, sender, writable);
      ghost var r := Survivors(cs, sender, writable);
      if Keeps(cs[n], sender, writable) {
        assert r == Survivors(init, sender, writable) + [cs[n]];
        idx := head + [n];
      } else {
        assert r == Survivors(init, sender, writable);
        idx := head;
      }
      assert forall i :: 0 <= i < |head| ==> idx[i] == head[i] && init[head[i]] == cs[head[i]];
      forall p | 0 <= p < n
        ensures p in idx <==> Keeps(cs[p], sender, writable)
      {
        assert init[p] == cs[p];
        assert p in idx <==> p in head;
      }
    }
  }

  /** A client survives exactly when it was listed and is kept; in particular the sender is never removed. */
  lemma {:induction false} SurvivorsMembership(cs: seq<ClientSocket>, sender: ClientSocket, writable: set<ClientSocket>, c: ClientSocket)
    ensures c in Survivors(cs, sender, writable) <==> c in cs && Keeps(c, sender, writable)
    ensures sender in cs ==> sender in Survivors(cs, sender, writable)
  {
    if cs != [] {
      var n := |cs| - 1;
      SurvivorsMembership(cs[..n], sender, writable, c);
      SurvivorsMembership(cs[..n], sender, writable, sender);
      assert cs == cs[..n] + [cs[n]];
    }
  }

  /** A client is evicted exactly when it was listed and its send failed. */
  lemma {:induction false} EvictedMembership(cs: seq<ClientSocket>, sender: ClientSocket, writable: set<ClientSocket>, c: ClientSocket)
    ensures c in Evicted(cs, sender, writable) <==> c in cs && c != sender && c !in writable
  {
    if cs != [] {
      var n := |cs| - 1;
      EvictedMembership(cs[..n], sender, writable, c);
      assert cs == cs[..n] + [cs[n]];
    }
  }

  /** The survivors and the evicted entries together are the old list, as a multiset. */
  lemma {:induction false} SplitMultiset(cs: seq<ClientSocket>, sender: ClientSocket, writable: set<ClientSocket>)
    ensures multiset(Survivors(cs, sender, writable)) + multiset(Evicted(cs, sender, writable)) == multiset(cs)
  {
    if cs != [] {
      var n := |cs| - 1;
      var init, c := cs[..n], cs[n];
      SplitMultiset(init, sender, writable);
      assert cs == init + [c];
      var head, gone := Survivors(init, sender, writable), Evicted(init, sender, writable);
      if Keeps(c, sender, writable) {
        assert Survivors(cs, sender, writable) == head + [c];
        assert Evicted(cs, sender, writable) == gone;
      } else {
        assert Survivors(cs, sender, writable) == head;
        assert Evicted(cs, sender, writable) == gone + [c];
      }
    }
  }

  /** The survivors are the listed copies of the sender plus the recipients reached. */
  lemma {:induction false} SurvivorsCount(cs: seq<ClientSocket>, sender: ClientSocket, writable: set<ClientSocket>)
    ensures |Survivors(cs, sender, writable)| == Delivered(cs, sender, writable) + multiset(cs)[sender]
  {
    if cs != [] {
      var n := |cs| - 1;
      var init, c := cs[..n], cs[n];
      SurvivorsCount(init, sender, writable);
      assert cs == init + [c];
      assert multiset(cs) == multiset(init) + multiset{c};
    }
  }

  /**
   * The broadcast splits the list into survivors and evicted entries; the
   * count, the evicted entries and the listed copies of the sender add up
   * to the length of the list, so the count never exceeds it.
   */
  lemma Partition(cs: seq<ClientSocket>, sender: ClientSocket, writable: set<ClientSocket>)
    ensures Delivered(cs, sender, writable) + |Evicted(cs, sender, writable)| + multiset(cs)[sender] == |cs|
  {
    SplitMultiset(cs, sender, writable);
    SurvivorsCount(cs, sender, writable);
    var s, e := Survivors(cs, sender, writable), Evicted(cs, sender, writable);
    assert |multiset(s) + multiset(e)| == |s| + |e|;
  }

  /** The survivors of a list with no duplicates have no duplicates. */
  lemma {:induction false} SurvivorsDistinct(cs: seq<ClientSocket>, sender: ClientSocket, writable: set<ClientSocket>)
    requires Distinct(cs)
    ensures Distinct(Survivors(cs, sender, writable))
  {
    if cs != [] {
      var n := |cs| - 1;
      var init, c := cs[..n], cs[n];
      SurvivorsDistinct(init, sender, writable);
      assert cs == init + [c];
      if Keeps(c, sender, writable) {
        assert Survivors(cs, sender, writable) == Survivors(init, sender, writable) + [c];
        SurvivorsMembership(init, sender, writable, c);
        DistinctAppend(Survivors(init, sender, writable), c);
      } else {
        assert Survivors(cs, sender, writable) == Survivors(init, sender, writable);
      }
    }
  }

  /** A second broadcast from the same sender, before any client changes, removes nothing more. */
  lemma {:induction false} SurvivorsIdempotent(cs: seq<ClientSocket>, sender: ClientSocket, writable: set<ClientSocket>)
    ensures Survivors(Survivors(cs, sender, writable), sender, writable) == Survivors(cs, sender, writable)
  {
    if cs != [] {
      var n := |cs| - 1;
      var head := Survivors(cs[..n], sender, writable);
      SurvivorsIdempotent(cs[..n], sender, writable);
      assert Survivors(head, sender, writable) == head;
      if Keeps(cs[n], sender, writable) {
        var s := head + [cs[n]];
        assert Survivors(cs, sender, writable) == s;
        assert s[..|s| - 1] == head;
        assert Survivors(s, sender, writable) == Survivors(head, sender, writable) + [cs[n]];
      } else {
        assert Survivors(cs, sender, writable) == head;
      }
    }
  }

  /** In a list with no duplicates, a client occurs once if it is listed and not at all otherwise. */
  lemma {:induction false} DistinctCount(cs: seq<ClientSocket>, c: ClientSocket)
    requires Distinct(cs)
    ensures multiset(cs)[c] == if c in cs then 1 else 0
  {
    if cs != [] {
      var n := |cs| - 1;
      DistinctCount(cs[..n], c);
      assert cs == cs[..n] + [cs[n]];
      assert multiset(cs) == multiset(cs[..n]) + multiset{cs[n]};
    }
  }

  /** The recipients are the listed clients other than the sender. */
  lemma {:induction false} RecipientsMembership(cs: seq<ClientSocket>, sender: ClientSocket, c: ClientSocket)
    ensures c in Recipients(cs, sender) <==> c in cs && c != sender
  {
    if cs != [] {
      var n := |cs| - 1;
      RecipientsMembership(cs[..n], sender, c);
      assert cs == cs[..n] + [cs[n]];
    }
  }

  /** The recipients of a list with no duplicates have no duplicates. */
  lemma {:induction false} RecipientsDistinct(cs: seq<ClientSocket>, sender: ClientSocket)
    requires Distinct(cs)
    ensures Distinct(Recipients(cs, sender))
  {
    if cs != [] {
      var n := |cs| - 1;
      var init, c := cs[..n], cs[n];
      RecipientsDistinct(init, sender);
      if c != sender {
        assert Recipients(cs, sender) == Recipients(init, sender) + [c];
        RecipientsMembership(init, sender, c);
        DistinctAppend(Recipients(init, sender), c);
      } else {
        assert Recipients(cs, sender) == Recipients(init, sender);
      }
    }
  }

  /** The i-th send of a broadcast goes to the i-th recipient and succeeds exactly when that recipient can be written to. */
  lemma {:induction false} AttemptsFollowRecipients(cs: seq<ClientSocket>, sender: ClientSocket, writable: set<ClientSocket>, msg: string)
    ensures var log, rs := Attempts(cs, sender, writable, msg), Recipients(cs, sender);
      && |log| == |rs|
      && forall i :: 0 <= i < |log| ==> log[i] == Send(rs[i], msg, rs[i] in writable)
  {
    if cs != [] {
      var n := |cs| - 1;
      AttemptsFollowRecipients(cs[..n], sender, writable, msg);
    }
  }

  /** Every send of a broadcast goes to a listed client, and never to the sender. */
  lemma AttemptsSkipSender(cs: seq<ClientSocket>, sender: ClientSocket, writable: set<ClientSocket>, msg: string)
    ensures forall i :: 0 <= i < |Attempts(cs, sender, writable, msg)| ==>
      Attempts(cs, sender, writable, msg)[i].to in cs && Attempts(cs, sender, writable, msg)[i].to != sender
  {
    var log, rs := Attempts(cs, sender, writable, msg), Recipients(cs, sender);
    AttemptsFollowRecipients(cs, sender, writable, msg);
    forall i | 0 <= i < |log|
      ensures log[i].to in cs && log[i].to != sender
    {
      RecipientsMembership(cs, sender, rs[i]);
    }
  }

  /**
   * Each listed client other than the sender is sent the message exactly
   * once, and the sender is sent nothing.
   */
  lemma SentExactlyOnce(cs: seq<ClientSocket>, sender: ClientSocket, writable: set<ClientSocket>, msg: string, c: ClientSocket)
    requires Distinct(cs)
    ensures multiset(Targets(Attempts(cs, sender, writable, msg)))[c] == if c in cs && c != sender then 1 else 0
  {
    AttemptsFollowRecipients(cs, sender, writable, msg);
    assert Targets(Attempts(cs, sender, writable, msg)) == Recipients(cs, sender);
    RecipientsDistinct(cs, sender);
    RecipientsMembership(cs, sender, c);
    DistinctCount(Recipients(cs, sender), c);
  }

  /** The count of a broadcast is the number of its sends that succeeded. */
  lemma {:induction false} DeliveredCountsSuccesses(cs: seq<ClientSocket>, sender: ClientSocket, writable: set<ClientSocket>, msg: string)
    ensures Delivered(cs, sender, writable) == Successes(Attempts(cs, sender, writable, msg))
  {
    if cs != [] {
      var n := |cs| - 1;
      var c, head := cs[n], Attempts(cs[..n], sender, writable, msg);
      DeliveredCountsSuccesses(cs[..n], sender, writable, msg);
      if c != sender {
        var log := head + [Send(c, msg, c in writable)];
        assert Attempts(cs, sender, writable, msg) == log;
        assert log[..|log| - 1] == head;
      } else {
        assert Attempts(cs, sender, writable, msg) == head;
      }
    }
  }

  /** What a broadcast does depends on the writable set only through the listed clients. */
  lemma {:induction false} SurvivorsAgree(cs: seq<ClientSocket>, sender: ClientSocket, w1: set<ClientSocket>, w2: set<ClientSocket>, msg: string)
    requires forall c :: c in cs ==> (c in w1 <==> c in w2)
    ensures Survivors(cs, sender, w1) == Survivors(cs, sender, w2)
    ensures Attempts(cs, sender, w1, msg) == Attempts(cs, sender, w2, msg)
  {
    if cs != [] {
      var n := |cs| - 1;
      assert forall c :: c in cs[..n] ==> c in cs;
      SurvivorsAgree(cs[..n], sender, w1, w2, msg);
    }
  }

  /**
   * Once a broadcast has removed the clients it could not reach, a second
   * one from the same sender reaches every recipient left.
   */
  lemma {:induction false} LaterBroadcastReachesAll(cs: seq<ClientSocket>, sender: ClientSocket, writable: set<ClientSocket>, msg: string)
    ensures forall i :: 0 <= i < |Attempts(Survivors(cs, sender, writable), sender, writable, msg)| ==>
      Attempts(Survivors(cs, sender, writable), sender, writable, msg)[i].ok
  {
    var s := Survivors(cs, sender, writable);
    var log, rs := Attempts(s, sender, writable, msg), Recipients(s, sender);
    AttemptsFollowRecipients(s, sender, writable, msg);
    forall i | 0 <= i < |log|
      ensures log[i].ok
    {
      RecipientsMembership(s, sender, rs[i]);
      SurvivorsMembership(cs, sender, writable, rs[i]);
    }
  }
}
