/**
 * The progress table: one row per recipient holding the number of the last day
 * committed, which comes before its send and stands whether or not the send
 * went through; and the progression rule that moves a recipient on by one day
 * when the catalog has the next verse. Both channels share this logic; a recipient id
 * is a phone string on WhatsApp and a chat id on Telegram.
 */
module Progress {
  import opened Catalog

  /** No id occurs twice: the table's primary key. */
  predicate Distinct<T(==)>(s: seq<T>) {
    forall i, j :: 0 <= i < j < |s| ==> s[i] != s[j]
  }

  /** The day stored for id; an id with no row reads as day 0, exactly like a row holding 0. */
  function Lookup<Id(==,!new)>(rows: map<Id, nat>, id: Id): nat {
    if id in rows then rows[id] else 0
  }

  /** The day a recipient at day d reaches through one progression step. */
  function AdvancedDay(verses: Catalog, d: nat): nat {
    if HasDay(verses, d + 1) then d + 1 else d
  }

  /**
   * The table after one progression step for id: the next day is committed when
   * the catalog has it, and nothing is written otherwise.
   */
  function Advance<Id(==,!new)>(rows: map<Id, nat>, id: Id, verses: Catalog): (r: map<Id, nat>)
    ensures Lookup(r, id) == AdvancedDay(verses, Lookup(rows, id))
    ensures Lookup(rows, id) <= Lookup(r, id) <= Lookup(rows, id) + 1
    ensures r == rows <==> !HasDay(verses, Lookup(rows, id) + 1)
    ensures id in r <==> id in rows || HasDay(verses, Lookup(rows, id) + 1)
    ensures forall x :: x != id ==> (x in r <==> x in rows) && Lookup(r, x) == Lookup(rows, x)
  {
    var next := Lookup(rows, id) + 1;
    if HasDay(verses, next) then rows[id := next] else rows
  }

  /** The table after one progression step for each of ids, in order. */
  function AdvanceAll<Id(==,!new)>(rows: map<Id, nat>, ids: seq<Id>, verses: Catalog): map<Id, nat>
    decreases |ids|
  {
    if ids == [] then rows
    else Advance(AdvanceAll(rows, ids[..|ids| - 1], verses), ids[|ids| - 1], verses)
  }

  /** The table after every recipient in it has taken exactly one progression step. */
  function DailyAdvance<Id(==,!new)>(rows: map<Id, nat>, verses: Catalog): map<Id, nat> {
    map x | x in rows :: AdvancedDay(verses, rows[x])
  }

  /**
   * Stepping through distinct ids moves each of them exactly one step from where it
   * started, keeps every stored id stored, and leaves every other id as it was.
   */
  lemma {:induction false} AdvanceAllEffect<Id(!new)>(rows: map<Id, nat>, ids: seq<Id>, verses: Catalog)
    requires Distinct(ids)
    ensures forall x :: x in ids ==> Lookup(AdvanceAll(rows, ids, verses), x) == AdvancedDay(verses, Lookup(rows, x))
    ensures forall x :: x in rows ==> x in AdvanceAll(rows, ids, verses)
    ensures forall x :: x !in ids ==>
      (x in AdvanceAll(rows, ids, verses) <==> x in rows) && Lookup(AdvanceAll(rows, ids, verses), x) == Lookup(rows, x)
    decreases |ids|
  {
    if ids != [] {
      var init, last := ids[..|ids| - 1], ids[|ids| - 1];
      assert Distinct(init);
      assert last !in init by {
        forall j | 0 <= j < |init| ensures init[j] != last {
          assert init[j] == ids[j];
        }
      }
      AdvanceAllEffect(rows, init, verses);
      forall x | x in ids
        ensures Lookup(AdvanceAll(rows, ids, verses), x) == AdvancedDay(verses, Lookup(rows, x))
      {
        if x != last {
          var j :| 0 <= j < |ids| && ids[j] == x;
          assert init[j] == x;
        }
      }
    }
  }

  /** The next id of a fan-out over distinct ids still has its starting day when its turn comes. */
  lemma AdvanceAllSnoc<Id(!new)>(rows: map<Id, nat>, ids: seq<Id>, verses: Catalog, i: nat)
    requires Distinct(ids) && i < |ids|
    ensures Lookup(AdvanceAll(rows, ids[..i], verses), ids[i]) == Lookup(rows, ids[i])
    ensures AdvanceAll(rows, ids[..i + 1], verses) == Advance(AdvanceAll(rows, ids[..i], verses), ids[i], verses)
  {
    assert ids[..i + 1][..i] == ids[..i];
    assert Distinct(ids[..i]);
    assert ids[i] !in ids[..i] by {
      forall j | 0 <= j < i ensures ids[..i][j] != ids[i] {
        assert ids[..i][j] == ids[j];
      }
    }
    AdvanceAllEffect(rows, ids[..i], verses);
  }

  /**
   * A fan-out over distinct stored ids that stops after the first n of them:
   * those n have moved one step on, the rest keep their day, and no row is
   * added or lost.
   */
  lemma AdvancePrefix<Id(!new)>(rows: map<Id, nat>, ids: seq<Id>, verses: Catalog, n: nat)
    requires Distinct(ids) && (forall x :: x in ids <==> x in rows) && n <= |ids|
    ensures AdvanceAll(rows, ids[..n], verses).Keys == rows.Keys
    ensures forall j :: 0 <= j < |ids| ==>
      AdvanceAll(rows, ids[..n], verses)[ids[j]] == if j < n then AdvancedDay(verses, rows[ids[j]]) else rows[ids[j]]
  {
    var done := ids[..n];
    var r := AdvanceAll(rows, done, verses);
    assert Distinct(done);
    AdvanceAllEffect(rows, done, verses);
    assert r.Keys == rows.Keys;
    forall j | 0 <= j < |ids|
      ensures r[ids[j]] == if j < n then AdvancedDay(verses, rows[ids[j]]) else rows[ids[j]]
    {
      if j < n {
        assert done[j] == ids[j];
      } else {
        assert ids[j] !in done by {
          forall k | 0 <= k < n ensures done[k] != ids[j] {
            assert done[k] == ids[k];
          }
        }
      }
      assert Lookup(r, ids[j]) == r[ids[j]];
    }
  }

  /** A fan-out over every stored id, each once, in any order, is the daily advance. */
  lemma AdvanceAllIsDaily<Id(!new)>(rows: map<Id, nat>, ids: seq<Id>, verses: Catalog)
    requires Distinct(ids)
    requires forall x :: x in ids <==> x in rows
    ensures AdvanceAll(rows, ids, verses) == DailyAdvance(rows, verses)
  {
    AdvanceAllEffect(rows, ids, verses);
    var r := AdvanceAll(rows, ids, verses);
    assert r.Keys == rows.Keys;
    forall x | x in rows ensures r[x] == DailyAdvance(rows, verses)[x] {
      assert Lookup(r, x) == r[x];
    }
  }

  /** The table after k back-to-back progression steps for one id. */
  function AdvanceTimes<Id(==,!new)>(rows: map<Id, nat>, id: Id, verses: Catalog, k: nat): map<Id, nat>
    decreases k
  {
    if k == 0 then rows else Advance(AdvanceTimes(rows, id, verses, k - 1), id, verses)
  }

  /** However often the step is repeated, the day never falls and rises by at most one per step. */
  lemma {:induction false} RepeatedAdvanceBounded<Id(!new)>(rows: map<Id, nat>, id: Id, verses: Catalog, k: nat)
    ensures Lookup(rows, id) <= Lookup(AdvanceTimes(rows, id, verses, k), id) <= Lookup(rows, id) + k
    decreases k
  {
    if k > 0 {
      RepeatedAdvanceBounded(rows, id, verses, k - 1);
    }
  }

  /** When the catalog holds the next k days, k steps move the recipient exactly k days on. */
  lemma {:induction false} RepeatedAdvanceContiguous<Id(!new)>(rows: map<Id, nat>, id: Id, verses: Catalog, k: nat)
    requires forall day :: Lookup(rows, id) < day <= Lookup(rows, id) + k ==> HasDay(verses, day)
    ensures Lookup(AdvanceTimes(rows, id, verses, k), id) == Lookup(rows, id) + k
    decreases k
  {
    if k > 0 {
      RepeatedAdvanceContiguous(rows, id, verses, k - 1);
      assert HasDay(verses, Lookup(rows, id) + k);
    }
  }

  /** Once the catalog has no next day, any number of further steps leaves the table as it is. */
  lemma {:induction false} ExhaustedStaysPut<Id(!new)>(rows: map<Id, nat>, id: Id, verses: Catalog, k: nat)
    requires !HasDay(verses, Lookup(rows, id) + 1)
    ensures AdvanceTimes(rows, id, verses, k) == rows
    decreases k
  {
    if k > 0 {
      ExhaustedStaysPut(rows, id, verses, k - 1);
    }
  }

  /** The first components of pairs, in order: the ids of a snapshot of rows, or the recipients of messages. */
  function Firsts<Id, T>(pairs: seq<(Id, T)>): (ids: seq<Id>)
    ensures |ids| == |pairs| && forall i :: 0 <= i < |pairs| ==> ids[i] == pairs[i].0
  {
    seq(|pairs|, i requires 0 <= i < |pairs| => pairs[i].0)
  }

  /** users lists every row of rows exactly once, each with its stored day. */
  ghost predicate IsSnapshot<Id(!new)>(users: seq<(Id, nat)>, rows: map<Id, nat>) {
    && Distinct(Firsts(users))
    && (forall x :: x in Firsts(users) <==> x in rows)
    && forall i :: 0 <= i < |users| ==> users[i].0 in rows && users[i].1 == rows[users[i].0]
  }

  /** The progress table: recipient id to the number of the last day committed, whether or not its send went through. */
  class ProgressStore<Id(==,!new)> {
    var rows: map<Id, nat>

    /** An empty table. */
    constructor ()
      ensures rows == map[]
    {
      rows := map[];
    }

    /** The stored day of id, or 0 when id has no row. */
    method Get(id: Id) returns (day: nat)
      ensures day == Lookup(rows, id)
      ensures id in rows ==> day == rows[id]
      ensures id !in rows ==> day == 0
    {
      day := if id in rows then rows[id] else 0;
    }

    /** Create-or-replace the row of id; no other row changes. */
    method Save(id: Id, day: nat)
      modifies this
      ensures rows == old(rows)[id := day]
    {
      rows := rows[id := day];
    }

    /** Every stored id exactly once, in an order the table does not promise. */
    method Ids() returns (ids: seq<Id>)
      ensures Distinct(ids)
      ensures forall x :: x in ids <==> x in rows
    {
      var left := rows.Keys;
      ids := [];
      while left != {}
        invariant left <= rows.Keys
        invariant Distinct(ids)
        invariant forall x :: x in ids ==> x in rows && x !in left
        invariant forall x :: x in rows && x !in left ==> x in ids
        decreases left
      {
        var x :| x in left;
        ids := ids + [x];
        left := left - {x};
      }
    }

    /** Every stored (id, day) row exactly once, in an order the table does not promise. */
    method Rows() returns (users: seq<(Id, nat)>)
      ensures IsSnapshot(users, rows)
    {
      var ids := Ids();
      users := seq(|ids|, i requires 0 <= i < |ids| && ids[i] in rows reads this => (ids[i], rows[ids[i]]));
      assert Firsts(users) == ids;
    }
  }
}
