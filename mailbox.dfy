/**
  * The IMAP mailbox that `getMessageByIMAP` talks to, reduced to the state the probe sees:
  * an ordered list of messages, each with a Subject header and a `\Deleted` flag. Messages are
  * addressed by IMAP message sequence numbers, which start at 1.
  */
module Mailbox {

  datatype Message = Message(subject: string, deleted: bool)

  /** ASCII case folding, as IMAP string matching ignores case. */
  function Lower(ch: char): char {
    if 'A' <= ch <= 'Z' then (ch as int + 32) as char else ch
  }

  function Fold(s: string): string {
    seq(|s|, i requires 0 <= i < |s| => Lower(s[i]))
  }

  /** `needle` occurs somewhere in `hay`. */
  predicate Contains(hay: string, needle: string)
    decreases |hay|
  {
    needle <= hay || (hay != [] && Contains(hay[1..], needle))
  }

  /**
    * `HEADER Subject key` (section 6.4.4 of RFC 3501): the key is a case-insensitive substring
    * of the Subject. Flagged messages match as well; SEARCH does not skip them.
    */
  predicate Matches(m: Message, key: string) {
    Contains(Fold(m.subject), Fold(key))
  }

  /** The sequence numbers of the messages matching `key`, in ascending order. */
  function MatchIds(ms: seq<Message>, key: string): seq<nat>
    decreases |ms|
  {
    if ms == [] then []
    else MatchIds(ms[..|ms| - 1], key) + (if Matches(ms[|ms| - 1], key) then [|ms|] else [])
  }

  /** The messages that survive EXPUNGE, in their order (section 6.4.3 of RFC 3501). */
  function Undeleted(ms: seq<Message>): seq<Message>
    decreases |ms|
  {
    if ms == [] then []
    else Undeleted(ms[..|ms| - 1]) + (if ms[|ms| - 1].deleted then [] else [ms[|ms| - 1]])
  }

  /** `ms` with the message numbered `n` flagged `\Deleted`. */
  function FlagDeleted(ms: seq<Message>, n: nat): seq<Message>
    requires 1 <= n <= |ms|
  {
    ms[n - 1 := ms[n - 1].(deleted := true)]
  }

  /**
    * A search answers with every matching message and only those, each once, in ascending
    * order of sequence number.
    */
  lemma {:induction false} MatchIdsSpec(ms: seq<Message>, key: string)
    ensures forall k :: 0 <= k < |MatchIds(ms, key)| ==> 1 <= MatchIds(ms, key)[k] <= |ms|
    ensures forall j, k :: 0 <= j < k < |MatchIds(ms, key)| ==> MatchIds(ms, key)[j] < MatchIds(ms, key)[k]
    ensures forall n :: 1 <= n <= |ms| ==> (n in MatchIds(ms, key) <==> Matches(ms[n - 1], key))
    decreases |ms|
  {
    if ms != [] {
      var init := ms[..|ms| - 1];
      MatchIdsSpec(init, key);
      forall i | 0 <= i < |init| ensures ms[i] == init[i] { }
    }
  }

  /** A mailbox in which nothing matches answers the search with no ids at all. */
  lemma NoMatchNoIds(ms: seq<Message>, key: string)
    requires forall m :: m in ms ==> !Matches(m, key)
    ensures MatchIds(ms, key) == []
  {
    MatchIdsSpec(ms, key);
  }

  /** EXPUNGE works message by message: the survivors of a split list are the survivors of its parts. */
  lemma {:induction false} UndeletedConcat(a: seq<Message>, b: seq<Message>)
    ensures Undeleted(a + b) == Undeleted(a) + Undeleted(b)
    decreases |b|
  {
    if b != [] {
      var b' := b[..|b| - 1];
      assert (a + b)[..|a + b| - 1] == a + b';
      UndeletedConcat(a, b');
    } else {
      assert a + b == a;
    }
  }

  /** A message survives EXPUNGE exactly when it was in the mailbox without the `\Deleted` flag. */
  lemma {:induction false} UndeletedMembers(ms: seq<Message>)
    ensures forall m :: m in Undeleted(ms) <==> m in ms && !m.deleted
    ensures |Undeleted(ms)| <= |ms|
    decreases |ms|
  {
    if ms != [] {
      var init := ms[..|ms| - 1];
      UndeletedMembers(init);
      assert ms == init + [ms[|ms| - 1]];
    }
  }

  /** With nothing flagged, EXPUNGE removes nothing. */
  lemma {:induction false} UndeletedNoneFlagged(ms: seq<Message>)
    requires forall i :: 0 <= i < |ms| ==> !ms[i].deleted
    ensures Undeleted(ms) == ms
    decreases |ms|
  {
    if ms != [] {
      UndeletedNoneFlagged(ms[..|ms| - 1]);
      assert ms == ms[..|ms| - 1] + [ms[|ms| - 1]];
    }
  }

  /** A second EXPUNGE finds nothing left to remove. */
  lemma ExpungeIdempotent(ms: seq<Message>)
    ensures Undeleted(Undeleted(ms)) == Undeleted(ms)
  {
    UndeletedMembers(ms);
    var u := Undeleted(ms);
    forall i | 0 <= i < |u| ensures !u[i].deleted {
      assert u[i] in u;
    }
    UndeletedNoneFlagged(u);
  }

  /**
    * Flagging message `n` and expunging removes that message and every message flagged before,
    * and keeps all others in their order.
    */
  lemma FlagThenExpunge(ms: seq<Message>, n: nat)
    requires 1 <= n <= |ms|
    ensures Undeleted(FlagDeleted(ms, n)) == Undeleted(ms[..n - 1]) + Undeleted(ms[n..])
  {
    var f := ms[n - 1].(deleted := true);
    assert FlagDeleted(ms, n) == ms[..n - 1] + [f] + ms[n..];
    UndeletedConcat(ms[..n - 1] + [f], ms[n..]);
    UndeletedConcat(ms[..n - 1], [f]);
    assert Undeleted([f]) == Undeleted([]) + [];
  }

  class Mailbox {
    var messages: seq<Message>

    constructor (ms: seq<Message>)
      ensures messages == ms
    {
      messages := ms;
    }

    /** SEARCH HEADER Subject `key`: the sequence numbers of the matching messages. */
    method Search(key: string) returns (ids: seq<nat>)
      ensures ids == MatchIds(messages, key)
      ensures forall k :: 0 <= k < |ids| ==> 1 <= ids[k] <= |messages|
      ensures forall n :: 1 <= n <= |messages| ==> (n in ids <==> Matches(messages[n - 1], key))
    {
      ids := [];
      var n := 0;
      while n < |messages|
        invariant 0 <= n <= |messages|
        invariant ids == MatchIds(messages[..n], key)
      {
        n := n + 1;
        assert messages[..n][..n - 1] == messages[..n - 1];
        if Matches(messages[n - 1], key) {
          ids := ids + [n];
        }
      }
      assert messages[..n] == messages;
      MatchIdsSpec(messages, key);
    }

    /** STORE `ids` +FLAGS (\Deleted) (section 6.4.6 of RFC 3501): only the flags of those messages change. */
    method StoreDeleted(ids: seq<nat>)
      requires forall k :: 0 <= k < |ids| ==> 1 <= ids[k] <= |messages|
      modifies this
      ensures |messages| == |old(messages)|
      ensures forall i :: 0 <= i < |messages| ==>
        messages[i] == old(messages[i]).(deleted := old(messages[i]).deleted || i + 1 in ids)
    {
      var k := 0;
      while k < |ids|
        invariant 0 <= k <= |ids|
        invariant |messages| == |old(messages)|
        invariant forall i :: 0 <= i < |messages| ==>
          messages[i] == old(messages[i]).(deleted := old(messages[i]).deleted || i + 1 in ids[..k])
      {
        messages := FlagDeleted(messages, ids[k]);
        assert ids[..k + 1] == ids[..k] + [ids[k]];
        k := k + 1;
      }
      assert ids[..k] == ids;
    }

    /** EXPUNGE: every message flagged `\Deleted` is removed; the others keep their order. */
    method Expunge()
      modifies this
      ensures messages == Undeleted(old(messages))
    {
      var kept: seq<Message> := [];
      var i := 0;
      while i < |messages|
        invariant 0 <= i <= |messages|
        invariant kept == Undeleted(messages[..i])
      {
        i := i + 1;
        assert messages[..i][..i - 1] == messages[..i - 1];
        if !messages[i - 1].deleted {
          kept := kept + [messages[i - 1]];
        }
      }
      assert messages[..i] == messages;
      messages := kept;
    }
  }
}
