/**
  * `getMessageByIMAP`: connect, log in, select INBOX, search the probe token in the Subject,
  * classify the match count, and on success optionally flag the message and expunge.
  */
module Verifier {
  import opened Config
  import opened Mailbox

  /**
    * Whether each IMAP command the verifier issues succeeds on the server. The transport
    * itself is not modelled; these stand for its answers.
    */
  datatype ImapOutcomes = ImapOutcomes(
    dialOk: bool,
    loginOk: bool,
    selectOk: bool,
    searchOk: bool,
    storeOk: bool,
    expungeOk: bool)

  /**
    * The verifier's outcome. `Received` is the nil error. `SelectFailed` is not returned by the
    * source: a failing SELECT ends the process on the spot; it is kept apart from the errors.
    */
  datatype VerifyResult =
    | Received
    | DialFailed
    | LoginFailed
    | SelectFailed
    | SearchFailed
    | NotFound
    | MoreThanOne
    | StoreFailed
    | ExpungeFailed

  /** An error the verifier returns to its caller. */
  predicate IsReturnedError(r: VerifyResult) {
    r != Received && r != SelectFailed
  }

  /** The outcome of a verification and the mailbox it leaves behind. */
  function Verification(cfg: TestConfig, token: string, ms: seq<Message>, net: ImapOutcomes)
    : (VerifyResult, seq<Message>)
  {
    if !net.dialOk then (DialFailed, ms)
    else if !net.loginOk then (LoginFailed, ms)
    else if !net.selectOk then (SelectFailed, ms)
    else if !net.searchOk then (SearchFailed, ms)
    else
      var ids := MatchIds(ms, token);
      if |ids| > 1 then (MoreThanOne, ms)
      else if |ids| == 0 then (NotFound, ms)
      else if cfg.leaveMessage then (Received, ms)
      else if !net.storeOk then (StoreFailed, ms)
      else
        MatchIdsSpec(ms, token);
        var flagged := FlagDeleted(ms, ids[0]);
        if !net.expungeOk then (ExpungeFailed, flagged) else (Received, Undeleted(flagged))
  }

  predicate AllOk(net: ImapOutcomes) {
    net.dialOk && net.loginOk && net.selectOk && net.searchOk && net.storeOk && net.expungeOk
  }

  /** `getMessageByIMAP` against the mailbox `box`. */
  method GetMessageByImap(cfg: TestConfig, token: string, box: Mailbox, net: ImapOutcomes)
    returns (r: VerifyResult)
    modifies box
    ensures (r, box.messages) == Verification(cfg, token, old(box.messages), net)
  {
    if !net.dialOk {
      return DialFailed;
    }
    if !net.loginOk {
      return LoginFailed;
    }
    if !net.selectOk {
      return SelectFailed;
    }
    if !net.searchOk {
      return SearchFailed;
    }
    var ids := box.Search(token);
    if |ids| > 1 {
      return MoreThanOne;
    }
    if |ids| == 0 {
      return NotFound;
    }
    if !cfg.leaveMessage {
      if !net.storeOk {
        return StoreFailed;
      }
      box.StoreDeleted(ids);
      assert box.messages == FlagDeleted(old(box.messages), ids[0]);
      if !net.expungeOk {
        return ExpungeFailed;
      }
      box.Expunge();
    }
    return Received;
  }

  /**
    * Verification succeeds exactly when every command needed succeeds and the search returns
    * exactly one id; zero ids and several ids are two different errors.
    */
  lemma VerificationSucceedsIff(cfg: TestConfig, token: string, ms: seq<Message>, net: ImapOutcomes)
    ensures var r := Verification(cfg, token, ms, net).0;
      && (r == Received <==>
            net.dialOk && net.loginOk && net.selectOk && net.searchOk && |MatchIds(ms, token)| == 1
            && (cfg.leaveMessage || (net.storeOk && net.expungeOk)))
      && (net.dialOk && net.loginOk && net.selectOk && net.searchOk ==>
            (|MatchIds(ms, token)| == 0 <==> r == NotFound)
            && (|MatchIds(ms, token)| > 1 <==> r == MoreThanOne))
  {
  }

  /**
    * The mailbox is left as it was when the message is to be left, and on every error but a
    * failed EXPUNGE (after which the probe stays flagged).
    */
  lemma VerificationLeavesMailbox(cfg: TestConfig, token: string, ms: seq<Message>, net: ImapOutcomes)
    requires cfg.leaveMessage || Verification(cfg, token, ms, net).0 !in {Received, ExpungeFailed}
    ensures Verification(cfg, token, ms, net).1 == ms
  {
  }

  /**
    * After a successful verification with cleanup, exactly the matched message and the messages
    * already flagged `\Deleted` are gone, the rest keep their order, and a repeated search for
    * the token finds nothing.
    */
  lemma CleanupRemovesProbeAndFlagged(cfg: TestConfig, token: string, ms: seq<Message>, net: ImapOutcomes)
    requires !cfg.leaveMessage
    requires Verification(cfg, token, ms, net).0 == Received
    ensures var after := Verification(cfg, token, ms, net).1;
      && |MatchIds(ms, token)| == 1
      && var n := MatchIds(ms, token)[0];
      && 1 <= n <= |ms| && Matches(ms[n - 1], token)
      && after == Undeleted(ms[..n - 1]) + Undeleted(ms[n..])
      && MatchIds(after, token) == []
  {
    MatchIdsSpec(ms, token);
    var n := MatchIds(ms, token)[0];
    assert MatchIds(ms, token) == [n];
    assert Verification(cfg, token, ms, net).1 == Undeleted(FlagDeleted(ms, n));
    FlagThenExpunge(ms, n);
    SoleMatchGone(ms, token, n);
  }

  /**
    * After a failed EXPUNGE exactly one message had matched; it stays in the mailbox, now
    * flagged `\Deleted`, and nothing is removed.
    */
  lemma ExpungeFailureLeavesProbeFlagged(cfg: TestConfig, token: string, ms: seq<Message>, net: ImapOutcomes)
    requires Verification(cfg, token, ms, net).0 == ExpungeFailed
    ensures |MatchIds(ms, token)| == 1
    ensures var n := MatchIds(ms, token)[0];
      && 1 <= n <= |ms|
      && Verification(cfg, token, ms, net).1 == FlagDeleted(ms, n)
      && |Verification(cfg, token, ms, net).1| == |ms|
      && Verification(cfg, token, ms, net).1[n - 1].deleted
  {
    MatchIdsSpec(ms, token);
  }

  /** When `n` is the only match, flagging it and expunging leaves nothing that matches. */
  lemma SoleMatchGone(ms: seq<Message>, token: string, n: nat)
    requires 1 <= n <= |ms|
    requires MatchIds(ms, token) == [n]
    ensures MatchIds(Undeleted(FlagDeleted(ms, n)), token) == []
  {
    MatchIdsSpec(ms, token);
    var flagged := FlagDeleted(ms, n);
    var after := Undeleted(flagged);
    UndeletedMembers(flagged);
    forall m | m in after ensures !Matches(m, token) {
      var i :| 0 <= i < |flagged| && flagged[i] == m;
      if i != n - 1 {
        assert i + 1 !in MatchIds(ms, token);
      }
    }
    NoMatchNoIds(after, token);
  }

  /** When nothing was flagged before, cleanup removes exactly one message. */
  lemma CleanupRemovesOne(cfg: TestConfig, token: string, ms: seq<Message>, net: ImapOutcomes)
    requires !cfg.leaveMessage
    requires forall i :: 0 <= i < |ms| ==> !ms[i].deleted
    requires Verification(cfg, token, ms, net).0 == Received
    ensures |Verification(cfg, token, ms, net).1| == |ms| - 1
  {
    CleanupRemovesProbeAndFlagged(cfg, token, ms, net);
    var n := MatchIds(ms, token)[0];
    UndeletedNoneFlagged(ms[..n - 1]);
    UndeletedNoneFlagged(ms[n..]);
  }

  /**
    * A delivered probe whose subject is the token is found when no other message matches it,
    * and with cleanup the probe goes together with every message already flagged `\Deleted`.
    */
  lemma DeliveredProbeIsFound(cfg: TestConfig, token: string, ms: seq<Message>, net: ImapOutcomes)
    requires AllOk(net)
    requires forall m :: m in ms ==> !Matches(m, token)
    ensures Verification(cfg, token, ms + [Message(token, false)], net)
      == (Received, if cfg.leaveMessage then ms + [Message(token, false)] else Undeleted(ms))
  {
    var all := ms + [Message(token, false)];
    ProbeIsSoleMatch(ms, token);
    if !cfg.leaveMessage {
      FlagThenExpunge(all, |all|);
      assert all[..|all| - 1] == ms && all[|all|..] == [];
      assert Undeleted([]) == [];
      assert Undeleted(FlagDeleted(all, |all|)) == Undeleted(ms);
      assert Verification(cfg, token, all, net).1 == Undeleted(FlagDeleted(all, |all|));
    }
  }

  lemma ProbeIsSoleMatch(ms: seq<Message>, token: string)
    requires forall m :: m in ms ==> !Matches(m, token)
    ensures MatchIds(ms + [Message(token, false)], token) == [|ms| + 1]
  {
    var all := ms + [Message(token, false)];
    assert all[..|all| - 1] == ms;
    NoMatchNoIds(ms, token);
    assert Matches(Message(token, false), token);
  }

  /**
    * Searching for a token is ambiguous as soon as two messages contain it in their subject,
    * even when neither subject equals it: the search matches substrings.
    */
  lemma SubstringMatchIsAmbiguous(cfg: TestConfig, token: string, a: string, b: string, net: ImapOutcomes)
    requires AllOk(net)
    ensures Verification(cfg, token, [Message(a + token, false), Message(token + b, true)], net).0
      == MoreThanOne
  {
    var ms := [Message(a + token, false), Message(token + b, true)];
    ContainsSuffix(Fold(a), Fold(token));
    assert Fold(a + token) == Fold(a) + Fold(token);
    assert Fold(token + b) == Fold(token) + Fold(b);
    assert Matches(ms[1], token);
    MatchIdsSpec(ms, token);
    assert 1 in MatchIds(ms, token) && 2 in MatchIds(ms, token);
  }

  lemma {:induction false} ContainsSuffix(a: string, t: string)
    ensures Contains(a + t, t)
    decreases |a|
  {
    if a != [] {
      ContainsSuffix(a[1..], t);
      assert (a + t)[1..] == a[1..] + t;
    }
  }
}
