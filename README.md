# mail-check (`mchk`) in Dafny

`mchk` checks mail delivery end to end. Each configured test goes through the same steps:

1. Fill in the defaults and check the required fields of the test.
2. Send a probe message through an SMTP relay. The probe's Subject is a random token.
3. Wait the configured number of seconds.
4. Look the token up in the recipient's INBOX over IMAP.
5. Optionally flag the probe `\Deleted` and expunge it.

Each outcome is compared with what the test expects (`should_send`, `should_receive`). The
test loop either moves on to the next test or ends the process, as `continue_on_errors` says.

The model has these modules:

- `Config`: the `TestConfig` record and `checkTestConfig`. It covers the default ports (25 and
  993), the prompted passwords and one error per missing required field.
- `Probe`: the submission that `sendMessage` builds. That is the dial address, the PLAIN
  credentials, the envelope and the three-line message text. The module also has the inverse
  views a reader takes of it: the address split at its last colon, and the message's lines and
  header values.
- `Mailbox`: the INBOX as a class over a sequence of messages. Each message has a Subject and
  a `\Deleted` flag, and messages are numbered from 1.
  - SEARCH HEADER Subject is a case-insensitive substring match (section 6.4.4 of RFC 3501).
  - STORE +FLAGS (\Deleted) follows section 6.4.6 of RFC 3501.
  - EXPUNGE follows section 6.4.3 of RFC 3501.
- `Verifier`: `getMessageByIMAP` as a method on a `Mailbox`. It is proved against the function
  `Verification`, which gives both the outcome and the mailbox left behind. Whether each IMAP
  command succeeds is an input (`ImapOutcomes`).
- `Run`: the test loop of `main`, as a method. It is proved against the function `RunAll`, which
  gives the trace of events (validate, send, wait, verify, failed as expected, mismatch) and
  how the process ends. Everything a test learns from outside is an input (`Oracle`): the
  prompted passwords, the token, whether the relay accepted the probe and what the verifier
  returned.

Behaviours of `mchk.go` that the model keeps and that are easy to misread:

- The IMAP search matches the token as a case-insensitive substring of the Subject, not as
  an exact subject. Two messages whose subjects contain the token are "more than one".
- The sender address is a required field, like the SMTP server, recipient, sender login and
  IMAP server.
- A successful send or a successful verification is never reported as a mismatch, even when
  the test expected failure (`should_send: false` or `should_receive: false`).
- With `should_receive: false`, every error the verifier returns counts as "not found as
  expected". That includes a failed connection, a failed login, a failed search and an
  ambiguous match.
- A failing SELECT of INBOX ends the process at once, whatever `should_receive` and
  `continue_on_errors` say.
- Tests are validated one at a time. A test with a missing field ends the process only when
  the loop reaches it, after every earlier test has already run.

## Model

| member | source | states |
|---|---|---|
| Config.CheckTestConfig | mchk.go:84-135 | The result is the record with default ports and prompted passwords filled in, even when errors are reported. It reports an error exactly when some required field is missing, and the errors are exactly the missing fields, in checking order. |
| Config.MissingSpec | mchk.go:88-110 | A field is reported exactly when it is empty. No error is reported iff all five required fields are set. The errors come in the fixed checking order, each field at most once. |
| Config.MissingAmongSpec | mchk.go:88-110 | After the first k checks, the errors collected are exactly the empty fields among the first k, in checking order. |
| Config.DefaultedSpec | mchk.go:92-129 | An empty SMTP port becomes "25" and an empty IMAP port "993". An empty password becomes the prompted value. Every other field is unchanged, and defaulting never changes which fields are reported missing. |
| Config.SameValuesSameMissing | mchk.go:88-110 | Two configurations with the same required-field values get the same errors. |
| Config.DefaultedIdempotent | mchk.go:92-129 | Validating an already validated configuration changes nothing: when the prompted passwords are non-empty, no port is defaulted again and no password is prompted again. |
| Probe.SplitHostPortOfHostPort | mchk.go:148 | Splitting the dial address at its last colon gives back the server and the port, when the port has no colon. |
| Probe.LinesOfLine | mchk.go:151-153 | A text without a newline is one line, and a newline ends the first line. |
| Probe.ProbeMessageLines | mchk.go:151-153 | The probe text is exactly three lines: From, Subject and To, when the three values have no newline. |
| Probe.SendMessageRoundTrip | mchk.go:147-157 | The submission goes to SMTPServer:SMTPPort with PLAIN auth (empty identity, sender login and password, SMTP host), from the sender to the single recipient. Its From, Subject and To headers read back as the sender, the token and the recipient. |
| Mailbox.MatchIdsSpec | mchk.go:186-191 | A search answers with every matching message and only those. The ids are in range and strictly ascending. |
| Mailbox.NoMatchNoIds | mchk.go:186-191 | When no message matches, the search returns no ids. |
| Mailbox.Mailbox.Search | mchk.go:186-191 | The loop returns the ids of the messages whose Subject contains the key (case-insensitively), in range, and a number is returned iff its message matches. |
| Mailbox.Mailbox.StoreDeleted | mchk.go:202-210 | Only the flags change: the given messages become `\Deleted`, and the others and every subject stay as they were. |
| Mailbox.Mailbox.Expunge | mchk.go:211-214 | The mailbox becomes exactly its unflagged messages, in their order. |
| Mailbox.UndeletedConcat | mchk.go:211-214 | Expunging a list keeps the survivors of each part, in order. |
| Mailbox.UndeletedMembers | mchk.go:211-214 | A message survives expunge exactly when it was present and unflagged. The mailbox never grows. |
| Mailbox.UndeletedNoneFlagged | mchk.go:211-214 | With nothing flagged, expunge removes nothing. |
| Mailbox.ExpungeIdempotent | mchk.go:211-214 | A second expunge removes nothing more. |
| Mailbox.FlagThenExpunge | mchk.go:202-214 | Flagging message n and expunging removes message n and every message flagged before, and keeps the rest in order. |
| Verifier.GetMessageByImap | mchk.go:165-217 | The outcome and the new mailbox are those of `Verification`. Dial and login failures return early, and a SELECT failure is fatal. The result follows the match count (none, one, several), with STORE and EXPUNGE only when the message is not to be left. |
| Verifier.VerificationSucceedsIff | mchk.go:168-216 | Verification succeeds iff dial, login, select and search succeed, exactly one message matches, and either the message is left or both STORE and EXPUNGE succeed. Zero matches is "not found" and several is "more than one". |
| Verifier.VerificationLeavesMailbox | mchk.go:193-215 | The mailbox is unchanged when the message is left, and on every outcome other than success and a failed EXPUNGE. |
| Verifier.CleanupRemovesProbeAndFlagged | mchk.go:193-215 | After a successful verification with cleanup, exactly one message matched. That message and the messages already flagged are gone, the rest keep their order, and a new search for the token finds nothing. |
| Verifier.ExpungeFailureLeavesProbeFlagged | mchk.go:202-214 | After a failed EXPUNGE, exactly one message had matched. It stays in the mailbox flagged `\Deleted`, and nothing is removed. |
| Verifier.SoleMatchGone | mchk.go:202-215 | Flagging and expunging the only match leaves nothing matching the token. |
| Verifier.CleanupRemovesOne | mchk.go:202-215 | When nothing was flagged before, a successful cleanup removes exactly one message. |
| Verifier.DeliveredProbeIsFound | mchk.go:186-216 | A delivered probe whose subject is the token is found when nothing else matches. With cleanup, the probe and any messages already flagged `\Deleted` go, and the rest stay. |
| Verifier.ProbeIsSoleMatch | mchk.go:186-191 | A probe appended to a mailbox with no other match is the sole search result. |
| Verifier.SubstringMatchIsAmbiguous | mchk.go:186-195 | Two messages that merely contain the token in their subjects make the verification fail with "more than one", flagged or not. |
| Verifier.ContainsSuffix | mchk.go:187 | A subject ending in the key contains the key. |
| Run.RunTest | mchk.go:361-402 | One loop iteration has the events and continue-or-exit decision of `TestOutcome`: validation, send and its classification, wait, verify and its classification. |
| Run.RunTests | mchk.go:360-403 | The loop's trace and exit are those of `Run`: tests in order until the first one that ends the process. |
| Run.InvalidConfigEndsRun | mchk.go:361-366 | A test with a missing required field is announced and ends the process with those fields as the error, before any send. |
| Run.UnexpectedSendFailure | mchk.go:369-377 | A send failure with `should_send` is a mismatch. With `continue_on_errors` the loop moves on without waiting or verifying; otherwise the process ends. |
| Run.SendThenWaitAndVerify | mchk.go:369-388 | A successful send, or a failure expected by the test, is never a mismatch. The test then waits its configured time and verifies at IMAPServer:IMAPPort, with the default port filled in. |
| Run.VerifyClassification | mchk.go:180-402 | Success passes whatever was expected. A SELECT failure ends the process. Any returned error passes as "not found as expected" without `should_receive`, and is a mismatch with it, continuing or ending as `continue_on_errors` says. |
| Run.DeliveredProbePasses | mchk.go:360-402 | A valid test whose probe is accepted, delivered, uniquely found and cleaned up passes and lets the loop go on. |
| Run.ChainAfterFatal | mchk.go:360-403 | Steps after one that ends the process never happen. |
| Run.ChainInSequence | mchk.go:360-403 | After steps that all continue, the following steps run as they would on their own. |
| Run.ChainCompletedIff | mchk.go:360-403 | The steps run to the end iff every one of them continues. |
| Run.StepsConcat | mchk.go:360 | Each test's outcome depends only on that test and its inputs. |
| Run.NothingAfterFatal | mchk.go:360-403 | Once a test ends the process, later tests are never validated, sent or verified. |
| Run.RunInSequence | mchk.go:360-403 | When a prefix of the tests completes, the remaining tests run as if on their own, after it. |
| Run.CompletedIff | mchk.go:360-403 | The process ends normally, with status 0, exactly when every test lets the loop continue. |
| Run.StopsAtFirstFatal | mchk.go:360-403 | The run stops at the first test that ends the process. Every earlier test has run to its end, and the trace ends with that test's events. |
| Run.ContinueOnErrorsRunsAll | mchk.go:370-397 | With `continue_on_errors`, valid tests whose SELECTs succeed all run, and the process ends normally, whatever the sends and verifications return. |

## Left out

- Probe token: `getSubjectHash` (the MD5 of the SMTP host and 32 random bytes, hex-encoded) is not modelled. The token is an input to each test.
- SMTP and IMAP transports: TLS dialling, authentication and the wire protocol are not modelled. Their success or failure is an input (`Oracle.sendOk`, `ImapOutcomes`). Only the mailbox state the probe sees is modelled.
- Connecting SMTP and IMAP: the model does not connect what the relay accepts to what later appears in the mailbox. `Run.DeliveredProbePasses` assumes the delivery as a precondition.
- `waitFor`: its terminal spinner, timing and goroutine are not modelled. The wait appears only as a `Wait` event carrying the configured seconds.
- Startup of `main`: finding the configuration file, creating an example file, reading the file and parsing YAML are not modelled (mchk.go:219-275, 314-358). The model starts from the parsed tests and the `continue_on_errors` flag.
- Output: colour codes and every printed line and error text are not modelled. Errors are represented by the fields they name (`Field`) or by a `VerifyResult` variant.
- Password prompt: reading the terminal is not modelled, and the prompted values are inputs. A failing terminal read, which ends the process, is not modelled. The IMAP prompt's text says "SMTP" (mchk.go:123); this affects printed text only.
- `Logout`: `getMessageByIMAP` defers `Logout` right after a successful dial (mchk.go:174), so it runs on every return after that point. A dial failure returns before it is registered. A failing SELECT exits through `log.Fatal` without running it. `Logout` has no effect on the mailbox and is not modelled.
- Mailbox.Matches: case folding covers ASCII letters only. Non-ASCII folding and MIME-encoded subjects are not modelled. A message without a Subject header is modelled as one with an empty subject.
- Config.CheckTestConfig: the Go function updates the test through a pointer. The model returns the updated record instead, because the record is the loop's own copy and nothing else refers to it.
- Verifier.GetMessageByImap: it models the message sequence numbers the server returns, not the server's UIDs.
