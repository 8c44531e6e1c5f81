/** Optional values, used for Go's `error`-or-nil returns. */
module Wrappers {
  datatype Option<+T> = None | Some(value: T)
}

/** One configured probe (`TestConfig` in mchk.go) and its validation, `checkTestConfig`. */
module Config {
  import opened Wrappers

  /** A test as loaded from the configuration file; every field is read as written there. */
  datatype TestConfig = TestConfig(
    name: string,
    shouldSend: bool,
    smtpServer: string,
    smtpPort: string,
    sender: string,
    recipient: string,
    senderLogin: string,
    senderPassword: string,
    waitFor: int,
    shouldReceive: bool,
    imapServer: string,
    imapPort: string,
    imapLogin: string,
    imapPassword: string,
    leaveMessage: bool)

  /** The fields whose absence is a configuration error; each error names one of them. */
  datatype Field = SmtpServer | Sender | Recipient | SenderLogin | ImapServer

  const DefaultSmtpPort: string := "25"
  const DefaultImapPort: string := "993"

  /** The number of required fields. */
  const RequiredCount: nat := 5

  /** The `k`-th required field in the order in which they are checked. */
  function RequiredField(k: nat): (f: Field)
    requires k < RequiredCount
    ensures Rank(f) == k
  {
    if k == 0 then SmtpServer
    else if k == 1 then Sender
    else if k == 2 then Recipient
    else if k == 3 then SenderLogin
    else ImapServer
  }

  function Value(c: TestConfig, f: Field): string {
    match f
    case SmtpServer => c.smtpServer
    case Sender => c.sender
    case Recipient => c.recipient
    case SenderLogin => c.senderLogin
    case ImapServer => c.imapServer
  }

  /** Position of a field in the checking order. */
  function Rank(f: Field): nat {
    match f
    case SmtpServer => 0
    case Sender => 1
    case Recipient => 2
    case SenderLogin => 3
    case ImapServer => 4
  }

  /** The errors reported for the first `k` required fields, in checking order. */
  function MissingAmong(c: TestConfig, k: nat): seq<Field>
    requires k <= RequiredCount
  {
    if k == 0 then []
    else
      var f := RequiredField(k - 1);
      MissingAmong(c, k - 1) + (if Value(c, f) == "" then [f] else [])
  }

  /** The fields a configuration error is reported for, one error each. */
  function Missing(c: TestConfig): seq<Field> {
    MissingAmong(c, RequiredCount)
  }

  function DefaultIfEmpty(s: string, default: string): string {
    if s == "" then default else s
  }

  /** The configuration after validation: default ports and prompted passwords filled in. */
  function Defaulted(c: TestConfig, smtpPrompt: string, imapPrompt: string): TestConfig {
    c.(smtpPort := DefaultIfEmpty(c.smtpPort, DefaultSmtpPort),
       imapPort := DefaultIfEmpty(c.imapPort, DefaultImapPort),
       senderPassword := DefaultIfEmpty(c.senderPassword, smtpPrompt),
       imapPassword := DefaultIfEmpty(c.imapPassword, imapPrompt))
  }

  lemma {:induction false} MissingAmongSpec(c: TestConfig, k: nat)
    requires k <= RequiredCount
    ensures forall f :: f in MissingAmong(c, k) <==> Rank(f) < k && Value(c, f) == ""
    ensures forall i, j :: 0 <= i < j < |MissingAmong(c, k)| ==>
      Rank(MissingAmong(c, k)[i]) < Rank(MissingAmong(c, k)[j])
  {
    if k > 0 {
      MissingAmongSpec(c, k - 1);
      var f := RequiredField(k - 1);
      forall g | Rank(g) == k - 1 ensures g == f { }
    }
  }

  /**
    * An error is reported for a field exactly when that field is empty; the errors come in
    * the fixed order SMTP server, sender, recipient, sender login, IMAP server, at most one each.
    */
  lemma MissingSpec(c: TestConfig)
    ensures forall f :: f in Missing(c) <==> Value(c, f) == ""
    ensures Missing(c) == [] <==>
      c.smtpServer != "" && c.sender != "" && c.recipient != "" && c.senderLogin != "" && c.imapServer != ""
    ensures forall i, j :: 0 <= i < j < |Missing(c)| ==> Rank(Missing(c)[i]) < Rank(Missing(c)[j])
  {
    MissingAmongSpec(c, RequiredCount);
    var m := Missing(c);
    if m != [] {
      assert Value(c, m[0]) == "";
    } else {
      assert SmtpServer !in m && Sender !in m && Recipient !in m && SenderLogin !in m && ImapServer !in m;
    }
  }

  /**
    * Only the two ports and the two passwords can change; an empty port takes its default,
    * an empty password the prompted value, and everything else, IMAP login included, is kept.
    */
  lemma DefaultedSpec(c: TestConfig, smtpPrompt: string, imapPrompt: string)
    ensures var d := Defaulted(c, smtpPrompt, imapPrompt);
      && d.smtpPort == (if c.smtpPort == "" then "25" else c.smtpPort)
      && d.imapPort == (if c.imapPort == "" then "993" else c.imapPort)
      && d.senderPassword == (if c.senderPassword == "" then smtpPrompt else c.senderPassword)
      && d.imapPassword == (if c.imapPassword == "" then imapPrompt else c.imapPassword)
      && d.(smtpPort := c.smtpPort, imapPort := c.imapPort,
            senderPassword := c.senderPassword, imapPassword := c.imapPassword) == c
      && Missing(d) == Missing(c)
  {
    var d := Defaulted(c, smtpPrompt, imapPrompt);
    assert forall f :: Value(d, f) == Value(c, f);
    SameValuesSameMissing(c, d, RequiredCount);
  }

  lemma {:induction false} SameValuesSameMissing(c: TestConfig, d: TestConfig, k: nat)
    requires k <= RequiredCount
    requires forall f :: Value(c, f) == Value(d, f)
    ensures MissingAmong(c, k) == MissingAmong(d, k)
  {
    if k > 0 {
      SameValuesSameMissing(c, d, k - 1);
    }
  }

  /** Validating an already validated configuration changes nothing and prompts for nothing. */
  lemma DefaultedIdempotent(c: TestConfig, p1: string, p2: string, q1: string, q2: string)
    requires p1 != "" && p2 != ""
    ensures Defaulted(Defaulted(c, p1, p2), q1, q2) == Defaulted(c, p1, p2)
  {
  }

  /**
    * `checkTestConfig`: fills in the defaults on the caller's copy (even when it reports errors)
    * and returns one error per missing required field, all of them joined, or none.
    * The caller's copy is the test loop's private variable, so the update through the pointer
    * is returned as `checked`; the four fields it assigns are held in locals and written back
    * once at the end, since no check reads them in between.
    */
  method CheckTestConfig(c: TestConfig, smtpPrompt: string, imapPrompt: string)
    returns (checked: TestConfig, err: Option<seq<Field>>)
    ensures checked == Defaulted(c, smtpPrompt, imapPrompt)
    ensures err.None? <==> Missing(c) == []
    ensures err.Some? ==> err.value == Missing(c)
  {
    var configErrors: seq<Field> := [];
    var haveError := false;
    var smtpPort, imapPort, senderPassword, imapPassword := c.smtpPort, c.imapPort, c.senderPassword, c.imapPassword;

    if c.smtpServer == "" {
      haveError := true;
      configErrors := configErrors + [SmtpServer];
    }
    assert configErrors == MissingAmong(c, 1) && (haveError <==> configErrors != []);
    if smtpPort == "" {
      smtpPort := DefaultSmtpPort;
    }
    if c.sender == "" {
      haveError := true;
      configErrors := configErrors + [Sender];
    }
    assert configErrors == MissingAmong(c, 2) && (haveError <==> configErrors != []);
    if c.recipient == "" {
      haveError := true;
      configErrors := configErrors + [Recipient];
    }
    assert configErrors == MissingAmong(c, 3) && (haveError <==> configErrors != []);
    if c.senderLogin == "" {
      haveError := true;
      configErrors := configErrors + [SenderLogin];
    }
    assert configErrors == MissingAmong(c, 4) && (haveError <==> configErrors != []);
    if c.imapServer == "" {
      haveError := true;
      configErrors := configErrors + [ImapServer];
    }
    assert configErrors == MissingAmong(c, 5) && (haveError <==> configErrors != []);
    if imapPort == "" {
      imapPort := DefaultImapPort;
    }
    if senderPassword == "" {
      senderPassword := smtpPrompt;
    }
    if imapPassword == "" {
      imapPassword := imapPrompt;
    }
    checked := c.(smtpPort := smtpPort, imapPort := imapPort,
                  senderPassword := senderPassword, imapPassword := imapPassword);
    if haveError {
      err := Some(configErrors);
    } else {
      err := None;
    }
  }
}
