/**
 * A daily push: a fan-out in which every recipient, in turn, first has its
 * progression step committed to the table and is then sent its message. The
 * lemmas here carry one turn of such a loop, whatever the messages say, for a
 * loop that stops at the first failing send and for one that carries on.
 */
module Push {
  import opened Catalog
  import opened Progress
  import opened Channel

  /** The first i turns of a push over msgs were taken, and every send among them went through. */
  ghost predicate Pushed<Id(!new)>(rows0: map<Id, nat>, verses: Catalog, fails: Oracle<Id>, log0: seq<Attempt<Id>>,
                                   msgs: seq<(Id, string)>, i: nat, rows: map<Id, nat>, log: seq<Attempt<Id>>)
  {
    && i <= |msgs|
    && FirstFailure(fails, |log0|, msgs[..i]) == Finished
    && PushedEach(rows0, verses, fails, log0, msgs, i, rows, log)
  }

  /** The first i turns of a push over msgs were taken, whatever became of their sends. */
  ghost predicate PushedEach<Id(!new)>(rows0: map<Id, nat>, verses: Catalog, fails: Oracle<Id>, log0: seq<Attempt<Id>>,
                                       msgs: seq<(Id, string)>, i: nat, rows: map<Id, nat>, log: seq<Attempt<Id>>)
  {
    && i <= |msgs|
    && log == log0 + Attempts(fails, |log0|, msgs[..i])
    && rows == AdvanceAll(rows0, Firsts(msgs)[..i], verses)
  }

  /**
   * A push over msgs that stops at the first failing send ended with run: run
   * names that send, if any; the log holds the attempts up to and including
   * it; and exactly the recipients reached, the failing one included, have
   * taken their step.
   */
  ghost predicate PushOutcome<Id(!new)>(rows0: map<Id, nat>, verses: Catalog, fails: Oracle<Id>, log0: seq<Attempt<Id>>,
                                        msgs: seq<(Id, string)>, run: Run, rows: map<Id, nat>, log: seq<Attempt<Id>>)
  {
    && run == FirstFailure(fails, |log0|, msgs)
    && PushedEach(rows0, verses, fails, log0, msgs, Tried(run, |msgs|), rows, log)
  }

  /**
   * Turn i of a push over distinct recipients: the recipient still has its
   * starting day, and the turn adds one step and one attempt.
   */
  lemma PushEachStep<Id(!new)>(rows0: map<Id, nat>, verses: Catalog, fails: Oracle<Id>, log0: seq<Attempt<Id>>,
                               msgs: seq<(Id, string)>, i: nat, rows: map<Id, nat>, log: seq<Attempt<Id>>)
    requires Distinct(Firsts(msgs)) && i < |msgs|
    requires PushedEach(rows0, verses, fails, log0, msgs, i, rows, log)
    ensures Lookup(rows, msgs[i].0) == Lookup(rows0, msgs[i].0)
    ensures |log| == |log0| + i
    ensures PushedEach(rows0, verses, fails, log0, msgs, i + 1, Advance(rows, msgs[i].0, verses),
                       log + [Attempt(msgs[i].0, msgs[i].1, !fails(|log|, msgs[i].0, msgs[i].1))])
  {
    AdvanceAllSnoc(rows0, Firsts(msgs), verses, i);
    AttemptsSnoc(fails, |log0|, msgs, i);
  }

  /**
   * Turn i of a push that stops at the first failing send: a send that goes
   * through leaves the loop running, and one that fails ends it with that failure.
   */
  lemma PushStep<Id(!new)>(rows0: map<Id, nat>, verses: Catalog, fails: Oracle<Id>, log0: seq<Attempt<Id>>,
                           msgs: seq<(Id, string)>, i: nat, rows: map<Id, nat>, log: seq<Attempt<Id>>)
    requires Distinct(Firsts(msgs)) && i < |msgs|
    requires Pushed(rows0, verses, fails, log0, msgs, i, rows, log)
    ensures Lookup(rows, msgs[i].0) == Lookup(rows0, msgs[i].0)
    ensures var ok := !fails(|log|, msgs[i].0, msgs[i].1);
      var rows' := Advance(rows, msgs[i].0, verses);
      var log' := log + [Attempt(msgs[i].0, msgs[i].1, ok)];
      && (ok ==> Pushed(rows0, verses, fails, log0, msgs, i + 1, rows', log'))
      && (!ok ==> PushOutcome(rows0, verses, fails, log0, msgs, Raised(i), rows', log'))
  {
    PushEachStep(rows0, verses, fails, log0, msgs, i, rows, log);
    NextAttempt(fails, |log0|, msgs, i);
  }

  /**
   * Turn i of a push that stops at the first failing send, with the turn written
   * out as the loop performs it: the recipient id, at the day it had when the
   * push began, has its next day stored when the catalog has it, and is then
   * sent its text.
   */
  lemma PushTurn<Id(!new)>(rows0: map<Id, nat>, verses: Catalog, fails: Oracle<Id>, log0: seq<Attempt<Id>>,
                           msgs: seq<(Id, string)>, i: nat, rows: map<Id, nat>, log: seq<Attempt<Id>>,
                           id: Id, day: nat, text: string, ok: bool)
    requires Distinct(Firsts(msgs)) && i < |msgs| && msgs[i] == (id, text) && Lookup(rows0, id) == day
    requires Pushed(rows0, verses, fails, log0, msgs, i, rows, log)
    requires ok == !fails(|log|, id, text)
    ensures var rows' := if HasDay(verses, day + 1) then rows[id := day + 1] else rows;
      && (ok ==> Pushed(rows0, verses, fails, log0, msgs, i + 1, rows', log + [Attempt(id, text, ok)]))
      && (!ok ==> PushOutcome(rows0, verses, fails, log0, msgs, Raised(i), rows', log + [Attempt(id, text, ok)]))
  {
    PushStep(rows0, verses, fails, log0, msgs, i, rows, log);
  }

  /** Turn i of a push that carries on after a failing send, with the turn written out as in PushTurn. */
  lemma PushEachTurn<Id(!new)>(rows0: map<Id, nat>, verses: Catalog, fails: Oracle<Id>, log0: seq<Attempt<Id>>,
                               msgs: seq<(Id, string)>, i: nat, rows: map<Id, nat>, log: seq<Attempt<Id>>,
                               id: Id, day: nat, text: string, ok: bool)
    requires Distinct(Firsts(msgs)) && i < |msgs| && msgs[i] == (id, text) && Lookup(rows0, id) == day
    requires PushedEach(rows0, verses, fails, log0, msgs, i, rows, log)
    requires ok == !fails(|log|, id, text)
    ensures var rows' := if HasDay(verses, day + 1) then rows[id := day + 1] else rows;
      PushedEach(rows0, verses, fails, log0, msgs, i + 1, rows', log + [Attempt(id, text, ok)])
  {
    PushEachStep(rows0, verses, fails, log0, msgs, i, rows, log);
  }

  /**
   * The j-th attempt a push that stops at the first failing send logged: the
   * j-th message, delivered exactly when it came before the failing one.
   */
  lemma PushOutcomeAt<Id(!new)>(rows0: map<Id, nat>, verses: Catalog, fails: Oracle<Id>, log0: seq<Attempt<Id>>,
                                msgs: seq<(Id, string)>, run: Run, rows: map<Id, nat>, log: seq<Attempt<Id>>, j: nat)
    requires PushOutcome(rows0, verses, fails, log0, msgs, run, rows, log)
    requires j < Tried(run, |msgs|)
    ensures |log| == |log0| + Tried(run, |msgs|)
    ensures log[|log0| + j] == Attempt(msgs[j].0, msgs[j].1, run.Finished? || j < run.at)
  {
    var n := Tried(run, |msgs|);
    AttemptsAt(fails, |log0|, msgs[..n], j);
    assert msgs[..n][j] == msgs[j];
    assert log[|log0| + j] == Attempts(fails, |log0|, msgs[..n])[j];
  }

  /** A push whose every turn was taken has finished. */
  lemma PushDone<Id(!new)>(rows0: map<Id, nat>, verses: Catalog, fails: Oracle<Id>, log0: seq<Attempt<Id>>,
                           msgs: seq<(Id, string)>, rows: map<Id, nat>, log: seq<Attempt<Id>>)
    requires Pushed(rows0, verses, fails, log0, msgs, |msgs|, rows, log)
    ensures PushOutcome(rows0, verses, fails, log0, msgs, Finished, rows, log)
  {
    assert msgs[..|msgs|] == msgs;
  }

  /**
   * A push that stops at the first failing send and whose very first send fails
   * has taken that one recipient's step and logged that one failed attempt, and
   * nothing more.
   */
  lemma PushStopsAtHead<Id(!new)>(rows0: map<Id, nat>, verses: Catalog, fails: Oracle<Id>, log0: seq<Attempt<Id>>,
                                  msgs: seq<(Id, string)>, run: Run, rows: map<Id, nat>, log: seq<Attempt<Id>>)
    requires msgs != [] && fails(|log0|, msgs[0].0, msgs[0].1)
    requires PushOutcome(rows0, verses, fails, log0, msgs, run, rows, log)
    ensures run == Raised(0)
    ensures rows == Advance(rows0, msgs[0].0, verses)
    ensures log == log0 + [Attempt(msgs[0].0, msgs[0].1, false)]
  {
    assert Firsts(msgs)[..1] == [msgs[0].0];
    assert [msgs[0].0][..0] == [];
    assert AdvanceAll(rows0, [msgs[0].0], verses) == Advance(rows0, msgs[0].0, verses);
  }

  /**
   * A push that carries on after a failing send, over distinct recipients, when
   * every send to one recipient k fails and every other succeeds: every
   * recipient has taken its step and all but k were delivered to.
   */
  lemma PushEachIsolates<Id(!new)>(rows0: map<Id, nat>, verses: Catalog, fails: Oracle<Id>, log0: seq<Attempt<Id>>,
                                   msgs: seq<(Id, string)>, rows: map<Id, nat>, log: seq<Attempt<Id>>, k: Id)
    requires Distinct(Firsts(msgs))
    requires forall i :: 0 <= i < |msgs| ==> (fails(|log0| + i, msgs[i].0, msgs[i].1) <==> msgs[i].0 == k)
    requires PushedEach(rows0, verses, fails, log0, msgs, |msgs|, rows, log)
    ensures rows == AdvanceAll(rows0, Firsts(msgs), verses)
    ensures DeliveredCount(log[|log0|..]) == |msgs| - (if k in Firsts(msgs) then 1 else 0)
  {
    assert msgs[..|msgs|] == msgs;
    assert Firsts(msgs)[..|msgs|] == Firsts(msgs);
    assert log[|log0|..] == Attempts(fails, |log0|, msgs);
    OneUnreachableRecipient(fails, |log0|, msgs, k);
  }
}
