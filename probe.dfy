/** The probe submission that `sendMessage` hands to the SMTP relay. */
module Probe {
  import opened Wrappers
  import opened Config

  /** `host + ":" + port`, the dial address of both the SMTP relay and the IMAP server. */
  function HostPort(host: string, port: string): string {
    host + ":" + port
  }

  /** The probe text: three header lines, the token verbatim as the subject, no body. */
  function ProbeMessage(sender: string, token: string, recipient: string): string {
    "From: " + sender + "\n" + "Subject: " + token + "\n" + "To: " + recipient
  }

  /** The credentials of PLAIN authentication: empty identity, login, password, server host. */
  datatype PlainAuth = PlainAuth(identity: string, username: string, password: string, host: string)

  /** What is handed to the mail library's send call. */
  datatype Submission = Submission(
    address: string,
    auth: PlainAuth,
    from: string,
    to: seq<string>,
    message: string)

  /** The submission for one test, as `sendMessage` builds it. */
  function SendMessage(c: TestConfig, token: string): Submission {
    Submission(
      HostPort(c.smtpServer, c.smtpPort),
      PlainAuth("", c.senderLogin, c.senderPassword, c.smtpServer),
      c.sender,
      [c.recipient],
      ProbeMessage(c.sender, token, c.recipient))
  }

  // Reading a submission back: the inverse views a relay or a mail reader takes of it.

  /** Splits an address at its last colon into host and port. */
  function SplitHostPort(address: string): Option<(string, string)>
    decreases |address|
  {
    if address == [] then None
    else if address[|address| - 1] == ':' then Some((address[..|address| - 1], ""))
    else
      match SplitHostPort(address[..|address| - 1])
      case None => None
      case Some((host, port)) => Some((host, port + [address[|address| - 1]]))
  }

  /** The lines of a text, split at every newline. */
  function Lines(s: string): (lines: seq<string>)
    ensures |lines| >= 1
    decreases |s|
  {
    if s == [] then [""]
    else
      var rest := Lines(s[1..]);
      if s[0] == '\n' then [""] + rest else [[s[0]] + rest[0]] + rest[1..]
  }

  /** The value of the first header line `name: value`. */
  function Header(lines: seq<string>, name: string): Option<string> {
    if lines == [] then None
    else if name + ": " <= lines[0] then Some(lines[0][|name| + 2..])
    else Header(lines[1..], name)
  }

  lemma {:induction false} SplitHostPortOfHostPort(host: string, port: string)
    requires ':' !in port
    ensures SplitHostPort(HostPort(host, port)) == Some((host, port))
    decreases |port|
  {
    var a := HostPort(host, port);
    if port == [] {
      assert a[..|a| - 1] == host;
    } else {
      var p := port[..|port| - 1];
      assert a[..|a| - 1] == HostPort(host, p);
      assert p + [port[|port| - 1]] == port;
      SplitHostPortOfHostPort(host, p);
    }
  }

  /** A line without a newline is one line, and it ends at the first newline. */
  lemma {:induction false} LinesOfLine(a: string, b: string)
    requires '\n' !in a
    ensures Lines(a) == [a]
    ensures Lines(a + "\n" + b) == [a] + Lines(b)
    decreases |a|
  {
    if a == [] {
      assert a + "\n" + b == ['\n'] + b;
      assert (['\n'] + b)[1..] == b;
    } else {
      LinesOfLine(a[1..], b);
      assert (a + "\n" + b)[1..] == a[1..] + "\n" + b;
      assert [a[0]] + a[1..] == a;
    }
  }

  /**
    * The probe text has exactly three lines, From, Subject and To, as long as none of the
    * three values contains a newline.
    */
  lemma ProbeMessageLines(sender: string, token: string, recipient: string)
    requires '\n' !in sender && '\n' !in token && '\n' !in recipient
    ensures Lines(ProbeMessage(sender, token, recipient))
      == ["From: " + sender, "Subject: " + token, "To: " + recipient]
  {
    var l1, l2, l3 := "From: " + sender, "Subject: " + token, "To: " + recipient;
    assert ProbeMessage(sender, token, recipient) == l1 + "\n" + (l2 + "\n" + l3);
    LinesOfLine(l1, l2 + "\n" + l3);
    LinesOfLine(l2, l3);
    LinesOfLine(l3, "");
  }

  /**
    * The submission goes to `SMTPServer:SMTPPort` from the sender to the single recipient, and a
    * reader of the message finds the sender, the token and the recipient in its three headers.
    */
  lemma SendMessageRoundTrip(c: TestConfig, token: string)
    requires ':' !in c.smtpPort
    requires '\n' !in c.sender && '\n' !in token && '\n' !in c.recipient
    ensures var s := SendMessage(c, token);
      && SplitHostPort(s.address) == Some((c.smtpServer, c.smtpPort))
      && s.from == c.sender && s.to == [c.recipient]
      && s.auth == PlainAuth("", c.senderLogin, c.senderPassword, c.smtpServer)
      && Header(Lines(s.message), "From") == Some(c.sender)
      && Header(Lines(s.message), "Subject") == Some(token)
      && Header(Lines(s.message), "To") == Some(c.recipient)
  {
    SplitHostPortOfHostPort(c.smtpServer, c.smtpPort);
    ProbeMessageLines(c.sender, token, c.recipient);
    var lines := ["From: " + c.sender, "Subject: " + token, "To: " + c.recipient];
    assert !("Subject: " <= lines[0]) by { assert lines[0][0] == 'F'; }
    assert !("To: " <= lines[0]) by { assert lines[0][0] == 'F'; }
    assert !("To: " <= lines[1]) by { assert lines[1][0] == 'S'; }
    assert lines[1..] == ["Subject: " + token, "To: " + c.recipient];
    assert lines[1..][1..] == ["To: " + c.recipient];
    assert "To: " <= lines[2] && lines[2][|"To"| + 2..] == c.recipient;
    assert Header(lines[1..][1..], "To") == Some(c.recipient);
    assert Header(lines[1..], "To") == Some(c.recipient);
  }
}
