/**
 * A messaging channel as the bot sees it: every send is attempted once, in order,
 * and either goes through or fails. Whether a send fails is decided by an oracle
 * that the model leaves open: it may depend on the position of the attempt in
 * the channel's lifetime, on the recipient and on the text.
 */
module Channel {
  import opened Progress

  /** One send attempt and whether it went through. */
  datatype Attempt<Id> = Attempt(to: Id, text: string, delivered: bool)

  /** fails(n, to, text): whether the n-th send over the channel's lifetime fails. */
  type Oracle<!Id> = (nat, Id, string) -> bool

  /** How a loop that lets a send failure propagate ends: after the last message, or at the failing one. */
  datatype Run = Finished | Raised(at: nat)

  /** The same text to each id, in order. */
  function ToEach<Id>(ids: seq<Id>, text: string): (msgs: seq<(Id, string)>)
    ensures |msgs| == |ids| && forall i :: 0 <= i < |ids| ==> msgs[i] == (ids[i], text)
  {
    seq(|ids|, i requires 0 <= i < |ids| => (ids[i], text))
  }

  /**
   * What the channel logs when msgs are attempted one after another from log
   * position base on: one attempt per message, whatever became of the earlier ones.
   */
  function Attempts<Id>(fails: Oracle<Id>, base: nat, msgs: seq<(Id, string)>): (r: seq<Attempt<Id>>)
    ensures |r| == |msgs|
    decreases |msgs|
  {
    if msgs == [] then []
    else
      var n := |msgs| - 1;
      Attempts(fails, base, msgs[..n]) + [Attempt(msgs[n].0, msgs[n].1, !fails(base + n, msgs[n].0, msgs[n].1))]
  }

  /** The i-th logged attempt is the send of the i-th message, delivered exactly when the oracle lets it through. */
  lemma {:induction false} AttemptsAt<Id>(fails: Oracle<Id>, base: nat, msgs: seq<(Id, string)>, i: nat)
    requires i < |msgs|
    ensures Attempts(fails, base, msgs)[i] == Attempt(msgs[i].0, msgs[i].1, !fails(base + i, msgs[i].0, msgs[i].1))
    decreases |msgs|
  {
    var n := |msgs| - 1;
    if i < n {
      AttemptsAt(fails, base, msgs[..n], i);
    }
  }

  /** The index of the first message whose send fails, or Finished when none does. */
  function FirstFailure<Id>(fails: Oracle<Id>, base: nat, msgs: seq<(Id, string)>): (r: Run)
    ensures r.Raised? ==> r.at < |msgs| && fails(base + r.at, msgs[r.at].0, msgs[r.at].1)
    ensures forall i :: 0 <= i < |msgs| && (r.Finished? || i < r.at) ==> !fails(base + i, msgs[i].0, msgs[i].1)
    decreases |msgs|
  {
    if msgs == [] then Finished
    else if fails(base, msgs[0].0, msgs[0].1) then Raised(0)
    else
      match FirstFailure(fails, base + 1, msgs[1..])
      case Finished => Finished
      case Raised(k) => Raised(k + 1)
  }

  /** Attempting one more message adds its attempt at the end of the log. */
  lemma AttemptsSnoc<Id>(fails: Oracle<Id>, base: nat, msgs: seq<(Id, string)>, i: nat)
    requires i < |msgs|
    ensures Attempts(fails, base, msgs[..i + 1])
      == Attempts(fails, base, msgs[..i]) + [Attempt(msgs[i].0, msgs[i].1, !fails(base + i, msgs[i].0, msgs[i].1))]
  {
    assert msgs[..i + 1][..i] == msgs[..i];
  }

  /**
   * One more attempt after a prefix of msgs that all went through: it extends
   * the log by one entry, and when it fails it is the first failure of msgs.
   */
  lemma NextAttempt<Id>(fails: Oracle<Id>, base: nat, msgs: seq<(Id, string)>, i: nat)
    requires i < |msgs|
    requires FirstFailure(fails, base, msgs[..i]) == Finished
    ensures Attempts(fails, base, msgs[..i + 1])
      == Attempts(fails, base, msgs[..i]) + [Attempt(msgs[i].0, msgs[i].1, !fails(base + i, msgs[i].0, msgs[i].1))]
    ensures fails(base + i, msgs[i].0, msgs[i].1) ==> FirstFailure(fails, base, msgs) == Raised(i)
    ensures !fails(base + i, msgs[i].0, msgs[i].1) ==> FirstFailure(fails, base, msgs[..i + 1]) == Finished
  {
    AttemptsSnoc(fails, base, msgs, i);
    forall j | 0 <= j < i ensures !fails(base + j, msgs[j].0, msgs[j].1) {
      assert msgs[..i][j] == msgs[j];
    }
    if fails(base + i, msgs[i].0, msgs[i].1) {
      FirstFailureAt(fails, base, msgs, i);
    } else {
      var done := msgs[..i + 1];
      forall j | 0 <= j < |done| ensures !fails(base + j, done[j].0, done[j].1) {
        assert done[j] == msgs[j];
      }
      FirstFailureNone(fails, base, done);
    }
  }

  /** A loop in which no send fails finishes. */
  lemma FirstFailureNone<Id>(fails: Oracle<Id>, base: nat, msgs: seq<(Id, string)>)
    requires forall j :: 0 <= j < |msgs| ==> !fails(base + j, msgs[j].0, msgs[j].1)
    ensures FirstFailure(fails, base, msgs) == Finished
  {
  }

  /** A loop stops at the failing send that no failing send precedes. */
  lemma FirstFailureAt<Id>(fails: Oracle<Id>, base: nat, msgs: seq<(Id, string)>, i: nat)
    requires i < |msgs| && fails(base + i, msgs[i].0, msgs[i].1)
    requires forall j :: 0 <= j < i ==> !fails(base + j, msgs[j].0, msgs[j].1)
    ensures FirstFailure(fails, base, msgs) == Raised(i)
  {
  }

  /** How many of total messages a loop ending with run has attempted. */
  function Tried(run: Run, total: nat): nat {
    if run.Raised? then run.at + 1 else total
  }

  /** The number of attempts in log that went through. */
  function DeliveredCount<Id>(log: seq<Attempt<Id>>): nat
    decreases |log|
  {
    if log == [] then 0
    else DeliveredCount(log[..|log| - 1]) + (if log[|log| - 1].delivered then 1 else 0)
  }

  /**
   * Failure isolation: when every send to one recipient k fails and every other
   * send succeeds, a fan-out over distinct recipients that carries on after a
   * failure delivers to all of them but k.
   */
  lemma {:induction false} OneUnreachableRecipient<Id>(fails: Oracle<Id>, base: nat, msgs: seq<(Id, string)>, k: Id)
    requires Distinct(Firsts(msgs))
    requires forall i :: 0 <= i < |msgs| ==> (fails(base + i, msgs[i].0, msgs[i].1) <==> msgs[i].0 == k)
    ensures DeliveredCount(Attempts(fails, base, msgs)) == |msgs| - (if k in Firsts(msgs) then 1 else 0)
    decreases |msgs|
  {
    if msgs != [] {
      var n := |msgs| - 1;
      var init := msgs[..n];
      FirstsSnoc(msgs, k);
      assert forall i :: 0 <= i < |init| ==> init[i] == msgs[i];
      OneUnreachableRecipient(fails, base, init, k);
      var last := Attempt(msgs[n].0, msgs[n].1, !fails(base + n, msgs[n].0, msgs[n].1));
      assert last.delivered <==> msgs[n].0 != k;
      assert Attempts(fails, base, msgs) == Attempts(fails, base, init) + [last];
      DeliveredSnoc(Attempts(fails, base, init), last);
    }
  }

  /** Dropping the last of msgs drops its recipient, which occurs nowhere earlier. */
  lemma FirstsSnoc<Id>(msgs: seq<(Id, string)>, k: Id)
    requires msgs != [] && Distinct(Firsts(msgs))
    ensures Firsts(msgs[..|msgs| - 1]) == Firsts(msgs)[..|msgs| - 1]
    ensures Distinct(Firsts(msgs[..|msgs| - 1]))
    ensures k in Firsts(msgs) <==> k in Firsts(msgs[..|msgs| - 1]) || msgs[|msgs| - 1].0 == k
    ensures msgs[|msgs| - 1].0 !in Firsts(msgs[..|msgs| - 1])
  {
    var n := |msgs| - 1;
    var ids := Firsts(msgs);
    assert Firsts(msgs[..n]) == ids[..n];
    assert ids == ids[..n] + [msgs[n].0];
    forall j | 0 <= j < n ensures ids[..n][j] != msgs[n].0 {
      assert ids[j] != ids[n];
    }
  }

  /** Counting over one more attempt adds one exactly when it went through. */
  lemma DeliveredSnoc<Id>(log: seq<Attempt<Id>>, a: Attempt<Id>)
    ensures DeliveredCount(log + [a]) == DeliveredCount(log) + (if a.delivered then 1 else 0)
  {
    assert (log + [a])[..|log|] == log;
  }

  /** The outgoing side of a channel: the oracle it answers with and the log of every send attempted. */
  class Outbox<Id> {
    const fails: Oracle<Id>
    var log: seq<Attempt<Id>>

    constructor (fails: Oracle<Id>)
      ensures this.fails == fails && log == []
    {
      this.fails := fails;
      log := [];
    }

    /** Attempt one send; the outcome is the oracle's answer for this position in the log. */
    method Send(to: Id, text: string) returns (ok: bool)
      modifies this
      ensures ok == !fails(|old(log)|, to, text)
      ensures log == old(log) + [Attempt(to, text, ok)]
    {
      ok := !fails(|log|, to, text);
      log := log + [Attempt(to, text, ok)];
    }

    /** Send msgs in order, letting the first failing send end the loop. */
    method SendUntilFailure(msgs: seq<(Id, string)>) returns (run: Run)
      modifies this
      ensures run == FirstFailure(fails, |old(log)|, msgs)
      ensures log == old(log) + Attempts(fails, |old(log)|, msgs[..Tried(run, |msgs|)])
    {
      ghost var log0 := log;
      var i := 0;
      while i < |msgs|
        invariant i <= |msgs|
        invariant log == log0 + Attempts(fails, |log0|, msgs[..i])
        invariant FirstFailure(fails, |log0|, msgs[..i]) == Finished
      {
        ghost var before := log;
        var ok := Send(msgs[i].0, msgs[i].1);
        NextAttempt(fails, |log0|, msgs, i);
        assert log == log0 + Attempts(fails, |log0|, msgs[..i + 1]) by {
          assert log == before + [log[|log| - 1]];
        }
        if !ok {
          assert Tried(Raised(i), |msgs|) == i + 1;
          return Raised(i);
        }
        i := i + 1;
      }
      assert msgs[..|msgs|] == msgs;
      run := Finished;
    }

    /** Send msgs in order, carrying on after a failing send. */
    method SendEach(msgs: seq<(Id, string)>)
      modifies this
      ensures log == old(log) + Attempts(fails, |old(log)|, msgs)
    {
      ghost var log0 := log;
      var i := 0;
      while i < |msgs|
        invariant 0 <= i <= |msgs|
        invariant log == log0 + Attempts(fails, |log0|, msgs[..i])
      {
        var _ := Send(msgs[i].0, msgs[i].1);
        AttemptsSnoc(fails, |log0|, msgs, i);
        i := i + 1;
      }
      assert msgs[..|msgs|] == msgs;
    }
  }
}
