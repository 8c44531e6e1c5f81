/**
  * The test loop of `main`: for each configured test in order, validate it, send the probe,
  * wait, verify, and classify the outcomes against `should_send` and `should_receive`,
  * stopping the process or moving on as `continue_on_errors` says.
  */
module Run {
  import opened Wrappers
  import opened Config
  import opened Probe
  import opened Mailbox
  import opened Verifier

  datatype Stage = Sending | Verifying

  /** What a test run does and reports, in order. */
  datatype Event =
    | Validate(name: string)
    | Send(submission: Submission)
    | Wait(seconds: int)
    | Verify(address: string, token: string)
    | FailedAsExpected(stage: Stage)
    | Mismatch(stage: Stage)

  /** Why the process exits early. */
  datatype Cause =
    | InvalidConfig(missing: seq<Field>)
    | SendFailed
    | SelectFatal
    | ReceiveFailed(result: VerifyResult)

  /** How the process ends: normally after the last test (status 0) or early (status 1). */
  datatype Exit = Completed | Fatal(cause: Cause)

  function ExitCode(e: Exit): int {
    if e.Completed? then 0 else 1
  }

  /**
    * Everything a test run learns from outside: the two prompted passwords, the probe token,
    * whether the relay accepted the probe, and what the mailbox verifier returned.
    */
  datatype Oracle = Oracle(
    smtpPrompt: string,
    imapPrompt: string,
    token: string,
    sendOk: bool,
    verify: VerifyResult)

  /** After one test: go on with the next one, or end the process. */
  datatype Flow = Next | Stop(cause: Cause)

  /**
    * No step of a test disagreed with what it expected. This is not the same as reaching the
    * next test: a failing SELECT has no mismatch and still ends the process.
    */
  predicate NoMismatch(events: seq<Event>) {
    Mismatch(Sending) !in events && Mismatch(Verifying) !in events
  }

  /** What one iteration of the test loop reports, and whether the loop goes on. */
  function TestOutcome(t: TestConfig, continueOnErrors: bool, o: Oracle): (seq<Event>, Flow) {
    var c := Defaulted(t, o.smtpPrompt, o.imapPrompt);
    var validated := [Validate(t.name)];
    if Missing(t) != [] then (validated, Stop(InvalidConfig(Missing(t))))
    else
      var sent := validated + [Send(SendMessage(c, o.token))];
      if !o.sendOk && c.shouldSend then
        (sent + [Mismatch(Sending)], if continueOnErrors then Next else Stop(SendFailed))
      else
        var sendReported := if o.sendOk then sent else sent + [FailedAsExpected(Sending)];
        var verified := sendReported + [Wait(c.waitFor)] + [Verify(HostPort(c.imapServer, c.imapPort), o.token)];
        if o.verify == Received then (verified, Next)
        else if o.verify == SelectFailed then (verified, Stop(SelectFatal))
        else if c.shouldReceive then
          (verified + [Mismatch(Verifying)],
           if continueOnErrors then Next else Stop(ReceiveFailed(o.verify)))
        else (verified + [FailedAsExpected(Verifying)], Next)
  }

  /** Runs steps in order: their events, up to and including the first that ends the process. */
  function Chain(steps: seq<(seq<Event>, Flow)>): (seq<Event>, Exit)
    decreases |steps|
  {
    if steps == [] then ([], Completed)
    else if steps[0].1.Stop? then (steps[0].0, Fatal(steps[0].1.cause))
    else
      var rest := Chain(steps[1..]);
      (steps[0].0 + rest.0, rest.1)
  }

  /** What each test would do if the loop reached it. */
  function Steps(tests: seq<TestConfig>, continueOnErrors: bool, oracles: seq<Oracle>): seq<(seq<Event>, Flow)>
    requires |oracles| == |tests|
  {
    seq(|tests|, i requires 0 <= i < |tests| => TestOutcome(tests[i], continueOnErrors, oracles[i]))
  }

  /** The whole loop: the tests in order until one ends the process. */
  function RunAll(tests: seq<TestConfig>, continueOnErrors: bool, oracles: seq<Oracle>): (seq<Event>, Exit)
    requires |oracles| == |tests|
  {
    Chain(Steps(tests, continueOnErrors, oracles))
  }

  /** The loop of `main` over the configured tests. */
  method RunTests(tests: seq<TestConfig>, continueOnErrors: bool, oracles: seq<Oracle>)
    returns (trace: seq<Event>, exit: Exit)
    requires |oracles| == |tests|
    ensures (trace, exit) == RunAll(tests, continueOnErrors, oracles)
  {
    trace := [];
    var i := 0;
    ghost var steps := Steps(tests, continueOnErrors, oracles);
    assert steps[i..] == steps;
    assert trace + Chain(steps).0 == Chain(steps).0;
    while i < |tests|
      invariant 0 <= i <= |tests|
      invariant RunAll(tests, continueOnErrors, oracles) == (trace + Chain(steps[i..]).0, Chain(steps[i..]).1)
    {
      var test, o := tests[i], oracles[i];
      ghost var step := TestOutcome(test, continueOnErrors, o);
      assert steps[i..][0] == step && steps[i..][1..] == steps[i + 1..];
      ghost var rest := Chain(steps[i + 1..]);
      assert Chain(steps[i..])
        == if step.1.Stop? then (step.0, Fatal(step.1.cause)) else (step.0 + rest.0, rest.1);
      var events, flow := RunTest(test, continueOnErrors, o);
      if flow.Stop? {
        return trace + events, Fatal(flow.cause);
      }
      assert (trace + events) + rest.0 == trace + (events + rest.0);
      trace := trace + events;
      i := i + 1;
    }
    assert steps[i..] == [];
    assert trace + [] == trace;
    exit := Completed;
  }

  /**
    * The body of the test loop for one test: its events, and `Next` where the source continues
    * with the next test or reaches the end of the body, `Stop` where it ends the process.
    */
  method RunTest(test: TestConfig, continueOnErrors: bool, o: Oracle) returns (events: seq<Event>, flow: Flow)
    ensures (events, flow) == TestOutcome(test, continueOnErrors, o)
  {
    events := [Validate(test.name)];
    var checked, err := CheckTestConfig(test, o.smtpPrompt, o.imapPrompt);
    if err.Some? {
      return events, Stop(InvalidConfig(err.value));
    }
    events := events + [Send(SendMessage(checked, o.token))];
    if !o.sendOk {
      if checked.shouldSend {
        events := events + [Mismatch(Sending)];
        if continueOnErrors {
          return events, Next;
        } else {
          return events, Stop(SendFailed);
        }
      } else {
        events := events + [FailedAsExpected(Sending)];
      }
    }
    events := events + [Wait(checked.waitFor)];
    events := events + [Verify(HostPort(checked.imapServer, checked.imapPort), o.token)];
    if o.verify == SelectFailed {
      return events, Stop(SelectFatal);
    }
    if o.verify != Received {
      if checked.shouldReceive {
        events := events + [Mismatch(Verifying)];
        if continueOnErrors {
          return events, Next;
        } else {
          return events, Stop(ReceiveFailed(o.verify));
        }
      } else {
        events := events + [FailedAsExpected(Verifying)];
      }
    }
    return events, Next;
  }

  // Properties of one test.

  /** A test with a missing required field is validated and nothing else: no send, no verify. */
  lemma InvalidConfigEndsRun(t: TestConfig, continueOnErrors: bool, o: Oracle)
    requires t.smtpServer == "" || t.sender == "" || t.recipient == "" || t.senderLogin == ""
             || t.imapServer == ""
    ensures TestOutcome(t, continueOnErrors, o) == ([Validate(t.name)], Stop(InvalidConfig(Missing(t))))
    ensures Missing(t) != []
  {
    MissingSpec(t);
  }

  /**
    * A failed send that was expected to succeed is a mismatch; with `continue_on_errors` the
    * loop goes straight to the next test, with neither wait nor verify, and without it the
    * process ends.
    */
  lemma UnexpectedSendFailure(t: TestConfig, continueOnErrors: bool, o: Oracle)
    requires Missing(t) == [] && t.shouldSend && !o.sendOk
    ensures var c := Defaulted(t, o.smtpPrompt, o.imapPrompt);
      TestOutcome(t, continueOnErrors, o)
        == ([Validate(t.name), Send(SendMessage(c, o.token)), Mismatch(Sending)],
            if continueOnErrors then Next else Stop(SendFailed))
  {
    var c := Defaulted(t, o.smtpPrompt, o.imapPrompt);
    assert c.shouldSend;
    assert [Validate(t.name)] + [Send(SendMessage(c, o.token))] + [Mismatch(Sending)]
      == [Validate(t.name), Send(SendMessage(c, o.token)), Mismatch(Sending)];
  }

  /**
    * A send that succeeded, or failed when failure was expected, is never a mismatch: the test
    * goes on to wait its configured time and then to verify, with the default IMAP port.
    */
  lemma SendThenWaitAndVerify(t: TestConfig, continueOnErrors: bool, o: Oracle)
    requires Missing(t) == [] && (o.sendOk || !t.shouldSend)
    ensures var c := Defaulted(t, o.smtpPrompt, o.imapPrompt);
      var events := TestOutcome(t, continueOnErrors, o).0;
      && Mismatch(Sending) !in events
      && (FailedAsExpected(Sending) in events <==> !o.sendOk)
      && events[..4 + (if o.sendOk then 0 else 1)]
         == [Validate(t.name), Send(SendMessage(c, o.token))]
            + (if o.sendOk then [] else [FailedAsExpected(Sending)])
            + [Wait(t.waitFor), Verify(HostPort(t.imapServer, c.imapPort), o.token)]
  {
  }

  /**
    * Once the verify step is reached: a verification that succeeded passes whatever was
    * expected; a failing SELECT ends the process whatever was expected; any returned error,
    * be it a connection, login or search failure or an ambiguous match, passes as "not found
    * as expected" when the message was not expected, and is a mismatch when it was.
    */
  lemma VerifyClassification(t: TestConfig, continueOnErrors: bool, o: Oracle)
    requires Missing(t) == [] && (o.sendOk || !t.shouldSend)
    ensures var r := TestOutcome(t, continueOnErrors, o);
      && (o.verify == Received ==> NoMismatch(r.0) && r.1 == Next)
      && (o.verify == SelectFailed ==> NoMismatch(r.0) && r.1 == Stop(SelectFatal))
      && (IsReturnedError(o.verify) && !t.shouldReceive ==>
            NoMismatch(r.0) && FailedAsExpected(Verifying) in r.0 && r.1 == Next)
      && (IsReturnedError(o.verify) && t.shouldReceive ==>
            !NoMismatch(r.0)
            && r.1 == (if continueOnErrors then Next else Stop(ReceiveFailed(o.verify))))
  {
  }

  /**
    * End to end for one test that expects delivery: the relay accepts the probe, the probe
    * arrives with the token as its subject in a mailbox holding nothing else that matches,
    * and every IMAP command succeeds; then the verifier reports it received, the test has no mismatch and the loop goes on.
    */
  lemma DeliveredProbePasses(t: TestConfig, continueOnErrors: bool, o: Oracle,
                             ms: seq<Message>, net: ImapOutcomes)
    requires Missing(t) == [] && o.sendOk && AllOk(net)
    requires forall m :: m in ms ==> !Matches(m, o.token)
    requires o.verify
      == Verification(Defaulted(t, o.smtpPrompt, o.imapPrompt), o.token,
                      ms + [Message(o.token, false)], net).0
    ensures NoMismatch(TestOutcome(t, continueOnErrors, o).0)
    ensures TestOutcome(t, continueOnErrors, o).1 == Next
  {
    DeliveredProbeIsFound(Defaulted(t, o.smtpPrompt, o.imapPrompt), o.token, ms, net);
  }

  // Properties of the whole run.

  /** Once a step ends the process, the steps after it never happen. */
  lemma {:induction false} ChainAfterFatal(s: seq<(seq<Event>, Flow)>, t: seq<(seq<Event>, Flow)>)
    requires Chain(s).1.Fatal?
    ensures Chain(s + t) == Chain(s)
    decreases |s|
  {
    assert (s + t)[0] == s[0];
    if s[0].1.Next? {
      assert (s + t)[1..] == s[1..] + t;
      ChainAfterFatal(s[1..], t);
    }
  }

  /** After steps that all let the loop go on, the next steps run as if on their own. */
  lemma {:induction false} ChainInSequence(s: seq<(seq<Event>, Flow)>, t: seq<(seq<Event>, Flow)>)
    requires Chain(s).1 == Completed
    ensures Chain(s + t) == (Chain(s).0 + Chain(t).0, Chain(t).1)
    decreases |s|
  {
    if s == [] {
      assert s + t == t;
      assert [] + Chain(t).0 == Chain(t).0;
    } else {
      assert (s + t)[0] == s[0] && (s + t)[1..] == s[1..] + t;
      ChainInSequence(s[1..], t);
      var a, b := Chain(s[1..]).0, Chain(t).0;
      assert s[0].0 + (a + b) == (s[0].0 + a) + b;
    }
  }

  /** Steps run to the end exactly when none of them ends the process. */
  lemma {:induction false} ChainCompletedIff(s: seq<(seq<Event>, Flow)>)
    ensures Chain(s).1 == Completed <==> forall i :: 0 <= i < |s| ==> s[i].1 == Next
    decreases |s|
  {
    if s != [] {
      ChainCompletedIff(s[1..]);
      assert forall i :: 1 <= i < |s| ==> s[1..][i - 1] == s[i];
    }
  }

  lemma StepsConcat(a: seq<TestConfig>, oa: seq<Oracle>, b: seq<TestConfig>, ob: seq<Oracle>, continueOnErrors: bool)
    requires |oa| == |a| && |ob| == |b|
    ensures Steps(a + b, continueOnErrors, oa + ob)
      == Steps(a, continueOnErrors, oa) + Steps(b, continueOnErrors, ob)
  {
  }

  /** Once a test ends the process, tests after it are never validated, sent or verified. */
  lemma NothingAfterFatal(a: seq<TestConfig>, oa: seq<Oracle>,
                          b: seq<TestConfig>, ob: seq<Oracle>, continueOnErrors: bool)
    requires |oa| == |a| && |ob| == |b|
    requires RunAll(a, continueOnErrors, oa).1.Fatal?
    ensures RunAll(a + b, continueOnErrors, oa + ob) == RunAll(a, continueOnErrors, oa)
  {
    StepsConcat(a, oa, b, ob, continueOnErrors);
    ChainAfterFatal(Steps(a, continueOnErrors, oa), Steps(b, continueOnErrors, ob));
  }

  /** Tests run in order: after a part of the run that completes, the rest runs unchanged. */
  lemma RunInSequence(a: seq<TestConfig>, oa: seq<Oracle>,
                      b: seq<TestConfig>, ob: seq<Oracle>, continueOnErrors: bool)
    requires |oa| == |a| && |ob| == |b|
    requires RunAll(a, continueOnErrors, oa).1 == Completed
    ensures RunAll(a + b, continueOnErrors, oa + ob)
      == (RunAll(a, continueOnErrors, oa).0 + RunAll(b, continueOnErrors, ob).0, RunAll(b, continueOnErrors, ob).1)
  {
    StepsConcat(a, oa, b, ob, continueOnErrors);
    ChainInSequence(Steps(a, continueOnErrors, oa), Steps(b, continueOnErrors, ob));
  }

  /** The run ends normally, with status 0, exactly when every test lets the loop go on. */
  lemma CompletedIff(tests: seq<TestConfig>, continueOnErrors: bool, oracles: seq<Oracle>)
    requires |oracles| == |tests|
    ensures RunAll(tests, continueOnErrors, oracles).1 == Completed
      <==> forall i :: 0 <= i < |tests| ==> TestOutcome(tests[i], continueOnErrors, oracles[i]).1 == Next
    ensures ExitCode(RunAll(tests, continueOnErrors, oracles).1) == 0
      <==> RunAll(tests, continueOnErrors, oracles).1 == Completed
  {
    var s := Steps(tests, continueOnErrors, oracles);
    ChainCompletedIff(s);
    assert forall i :: 0 <= i < |tests| ==> s[i] == TestOutcome(tests[i], continueOnErrors, oracles[i]);
  }

  /**
    * The run stops at the first test that ends the process: every earlier test has already run
    * to its end, and the trace ends with that test's events.
    */
  lemma StopsAtFirstFatal(tests: seq<TestConfig>, continueOnErrors: bool, oracles: seq<Oracle>, k: nat)
    requires |oracles| == |tests| && k < |tests|
    requires forall i :: 0 <= i < k ==> TestOutcome(tests[i], continueOnErrors, oracles[i]).1 == Next
    requires TestOutcome(tests[k], continueOnErrors, oracles[k]).1.Stop?
    ensures RunAll(tests, continueOnErrors, oracles)
      == (RunAll(tests[..k], continueOnErrors, oracles[..k]).0 + TestOutcome(tests[k], continueOnErrors, oracles[k]).0,
          Fatal(TestOutcome(tests[k], continueOnErrors, oracles[k]).1.cause))
  {
    var s := Steps(tests, continueOnErrors, oracles);
    var step := TestOutcome(tests[k], continueOnErrors, oracles[k]);
    assert s == s[..k] + [step] + s[k + 1..];
    assert s[..k] == Steps(tests[..k], continueOnErrors, oracles[..k]);
    ChainCompletedIff(s[..k]);
    assert Chain([step]) == (step.0, Fatal(step.1.cause));
    ChainInSequence(s[..k], [step]);
    ChainAfterFatal(s[..k] + [step], s[k + 1..]);
  }

  /**
    * With `continue_on_errors`, a run whose tests are all valid and whose SELECTs all succeed
    * goes through every test and ends normally, whatever the sends and verifications return.
    */
  lemma ContinueOnErrorsRunsAll(tests: seq<TestConfig>, oracles: seq<Oracle>)
    requires |oracles| == |tests|
    requires forall i :: 0 <= i < |tests| ==> Missing(tests[i]) == [] && oracles[i].verify != SelectFailed
    ensures RunAll(tests, true, oracles).1 == Completed
  {
    CompletedIff(tests, true, oracles);
  }
}
