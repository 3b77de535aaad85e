/**
 * What clientMessageLoop (ChatServer.java) does with the lines one client
 * sends, as pure functions: the quit command, the two notices the server
 * broadcasts, and the whole session as one value.
 */
module Protocol {

  import opened Wrappers

  /** The command that ends a session. */
  const QUIT := "sair"

  /**
   * One character of String.equalsIgnoreCase: c matches the lower-case
   * letter t when their upper-case forms agree, or the lower-case forms of
   * those do. Written out for the letters of QUIT only; besides the ASCII
   * capitals this admits LONG S (U+017F, upper case 'S'), DOTLESS I (U+0131,
   * upper case 'I') and CAPITAL I WITH DOT ABOVE (U+0130, lower case 'i').
   */
  predicate SameLetterIgnoringCase(c: char, t: char) {
    || c == t
    || (t == 's' && (c == 'S' || c == '\U{017F}'))
    || (t == 'a' && c == 'A')
    || (t == 'i' && (c == 'I' || c == '\U{0131}' || c == '\U{0130}'))
    || (t == 'r' && c == 'R')
  }

  /** "sair".equalsIgnoreCase(line) */
  predicate IsQuit(line: string) {
    |line| == |QUIT| && forall i :: 0 <= i < |line| ==> SameLetterIgnoringCase(line[i], QUIT[i])
  }

  /** The broadcast that announces a login. */
  function LoginNotice(name: string): string {
    "Cliente " + name + " logado."
  }

  /** The broadcast that carries a chat line of a logged-in client. */
  function ChatLine(name: string, msg: string): string {
    name + " diz: " + msg
  }

  /** A received line that ends the session: end of stream, or the quit command. */
  predicate Stops(line: Option<string>) {
    line.None? || IsQuit(line.value)
  }

  /** The login after reading msg: the first line read becomes the login, later ones leave it alone. */
  function NextLogin(login: Option<string>, msg: string): (r: Option<string>)
    ensures r.Some?
    ensures login.Some? ==> r == login
  {
    if login == None then Some(msg) else login
  }

  /** What the server broadcasts for msg: the login notice before login, the tagged line after. */
  function Announcement(login: Option<string>, msg: string): string {
    if login == None then LoginNotice(msg) else ChatLine(login.value, msg)
  }

  /** What one session does: its final login, what it broadcast, how many lines it read. */
  datatype Run = Run(login: Option<string>, messages: seq<string>, consumed: nat)

  /**
   * The session that starts with the given login and then reads the given
   * lines; running out of lines is the end of the stream.
   */
  function Session(login: Option<string>, lines: seq<Option<string>>): (r: Run)
    ensures r.consumed <= |lines|
    decreases |lines|
  {
    if lines == [] then Run(login, [], 0)
    else if Stops(lines[0]) then Run(login, [], 1)
    else
      var msg := lines[0].value;
      var rest := Session(NextLogin(login, msg), lines[1..]);
      Run(rest.login, [Announcement(login, msg)] + rest.messages, rest.consumed + 1)
  }

  /**
   * A session part-way through: it has broadcast out and read j lines, and
   * what is left of r is the session that continues from login and the
   * remaining lines.
   */
  predicate Resumes(r: Run, out: seq<string>, j: nat, login: Option<string>, lines: seq<Option<string>>) {
    var rest := Session(login, lines);
    r.login == rest.login && r.messages == out + rest.messages && r.consumed == j + rest.consumed
  }

  /** Reading a line that does not stop the session: it logs in, or it is broadcast tagged with the login. */
  lemma ResumeStep(r: Run, out: seq<string>, j: nat, login: Option<string>, lines: seq<Option<string>>)
    requires Resumes(r, out, j, login, lines) && lines != [] && !Stops(lines[0])
    ensures var msg := lines[0].value;
      Resumes(r, out + [Announcement(login, msg)], j + 1, NextLogin(login, msg), lines[1..])
  {
    var msg := lines[0].value;
    var rest := Session(NextLogin(login, msg), lines[1..]);
    assert out + ([Announcement(login, msg)] + rest.messages) == (out + [Announcement(login, msg)]) + rest.messages;
  }

  /** The end of the stream or the quit command: nothing is left of the session, and the quit line is consumed. */
  lemma ResumeStop(r: Run, out: seq<string>, j: nat, login: Option<string>, lines: seq<Option<string>>)
    requires Resumes(r, out, j, login, lines) && (lines == [] || Stops(lines[0]))
    ensures r.login == login && r.messages == out && r.consumed == j + (if lines == [] then 0 else 1)
  {
    assert out + [] == out;
  }

  /** The index of the first line that ends a session, or |lines| if there is none. */
  function FirstStop(lines: seq<Option<string>>): (k: nat)
    ensures k <= |lines|
    ensures forall i :: 0 <= i < k ==> !Stops(lines[i])
    ensures k < |lines| ==> Stops(lines[k])
  {
    if lines == [] || Stops(lines[0]) then 0 else 1 + FirstStop(lines[1..])
  }

  /** Once logged in, every line up to the first stop is broadcast as a chat line of that login. */
  lemma {:induction false} LoggedInSession(name: string, lines: seq<Option<string>>)
    ensures var k, r := FirstStop(lines), Session(Some(name), lines);
      && r.login == Some(name)
      && r.consumed == (if k < |lines| then k + 1 else k)
      && |r.messages| == k
      && forall i :: 0 <= i < k ==> r.messages[i] == ChatLine(name, lines[i].value)
  {
    if lines != [] && !Stops(lines[0]) {
      LoggedInSession(name, lines[1..]);
      var k, r := FirstStop(lines), Session(Some(name), lines);
      var r' := Session(Some(name), lines[1..]);
      assert r.messages == [ChatLine(name, lines[0].value)] + r'.messages;
      forall i | 1 <= i < k
        ensures r.messages[i] == ChatLine(name, lines[i].value)
      {
        assert lines[1..][i - 1] == lines[i];
      }
    }
  }

  /**
   * A session from scratch: the first line that does not stop it becomes the
   * login and is announced, each later line up to the first stop is broadcast
   * tagged with that login, and the stop line itself is read but not broadcast.
   */
  lemma {:induction false} FreshSession(lines: seq<Option<string>>)
    ensures var k, r := FirstStop(lines), Session(None, lines);
      && r.consumed == (if k < |lines| then k + 1 else k)
      && |r.messages| == k
      && (k == 0 ==> r.login == None)
      && (k > 0 ==>
            && r.login == Some(lines[0].value)
            && r.messages[0] == LoginNotice(lines[0].value)
            && forall i :: 1 <= i < k ==> r.messages[i] == ChatLine(lines[0].value, lines[i].value))
  {
    if lines != [] && !Stops(lines[0]) {
      var name := lines[0].value;
      LoggedInSession(name, lines[1..]);
      var k, r := FirstStop(lines), Session(None, lines);
      var r' := Session(Some(name), lines[1..]);
      assert r.messages == [LoginNotice(name)] + r'.messages;
      forall i | 1 <= i < k
        ensures r.messages[i] == ChatLine(name, lines[i].value)
      {
        assert lines[1..][i - 1] == lines[i];
      }
    }
  }

  /** A session that already has a login keeps it, whatever it reads. */
  lemma LoginIsFinal(name: string, lines: seq<Option<string>>)
    ensures Session(Some(name), lines).login == Some(name)
  {
    LoggedInSession(name, lines);
  }

  /** The quit command and the end of the stream end the session at once, before login as after. */
  lemma StopEndsSession(login: Option<string>, lines: seq<Option<string>>)
    requires lines != [] && Stops(lines[0])
    ensures Session(login, lines) == Run(login, [], 1)
  {
  }

  /** The login line itself is never broadcast: only its notice is. */
  lemma RawLoginNeverBroadcast(lines: seq<Option<string>>)
    requires lines != [] && !Stops(lines[0])
    ensures lines[0].value !in Session(None, lines).messages
  {
    FreshSession(lines);
    var name, r := lines[0].value, Session(None, lines);
    forall i | 0 <= i < |r.messages|
      ensures r.messages[i] != name
    {
      assert |r.messages[i]| > |name|;
    }
  }

  /** Two logins with the same notice are the same login. */
  lemma LoginNoticeInjective(a: string, b: string)
    requires LoginNotice(a) == LoginNotice(b)
    ensures a == b
  {
    var na, nb := LoginNotice(a), LoginNotice(b);
    assert |a| == |b|;
    assert a == na[8..8 + |a|];
    assert b == nb[8..8 + |b|];
  }

  /** Two chat lines of one login that read the same carry the same message. */
  lemma ChatLineInjective(name: string, m1: string, m2: string)
    requires ChatLine(name, m1) == ChatLine(name, m2)
    ensures m1 == m2
  {
    var c1, c2 := ChatLine(name, m1), ChatLine(name, m2);
    assert m1 == c1[|name| + 6..];
    assert m2 == c2[|name| + 6..];
  }

  /**
   * A client logs in as "alice", says "hello" and quits: the server
   * broadcasts the login notice and the tagged line, and reads nothing after
   * the quit command.
   */
  lemma AliceSession()
    ensures Session(None, [Some("alice"), Some("hello"), Some("Sair"), Some("late")])
      == Run(Some("alice"), ["Cliente alice logado.", "alice diz: hello"], 3)
  {
    var lines := [Some("alice"), Some("hello"), Some("Sair"), Some("late")];
    assert IsQuit("Sair");
    assert lines[1..] == [Some("hello"), Some("Sair"), Some("late")];
    assert lines[1..][1..] == [Some("Sair"), Some("late")];
    assert Session(Some("alice"), lines[1..][1..]) == Run(Some("alice"), [], 1);
    assert !IsQuit("hello") && !IsQuit("alice");
    assert ChatLine("alice", "hello") == "alice diz: hello";
    assert Session(Some("alice"), lines[1..]) == Run(Some("alice"), ["alice diz: hello"], 2);
    assert LoginNotice("alice") == "Cliente alice logado.";
  }

  /** The quit command in some of the spellings equalsIgnoreCase admits, and near misses it rejects. */
  lemma QuitSpellings()
    ensures IsQuit("sair") && IsQuit("SAIR") && IsQuit("Sair") && IsQuit("sAiR")
    ensures IsQuit("\U{017F}air") && IsQuit("sa\U{0131}r") && IsQuit("SA\U{0130}R")
    ensures !IsQuit("sai") && !IsQuit("sair ") && !IsQuit("quit") && !IsQuit("")
  {
    assert "quit"[0] == 'q' && QUIT[0] == 's';
  }
}
