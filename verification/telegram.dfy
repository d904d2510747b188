/**
 * The Telegram variant of the bot (hanumanji_telegram.py): the same progression
 * on a table keyed by chat id, a /start command that registers the chat, an
 * admin-only /broadcast, and a daily push. Sends in both fan-outs are wrapped so
 * that a failing send is reported and the loop carries on with the next chat.
 */
module Telegram {
  import opened Wrappers
  import opened Catalog
  import opened Progress
  import opened Channel
  import opened Push

  // Written as its first character plus the rest, the same text, so that proofs can see how it starts.
  const Completion := "🎉" + " You’ve completed all days of Hanuman Chalisa learning! Jai Hanuman 🙏"
  const Welcome := "🙏 Welcome! You will now start receiving daily verses."
  const NotAuthorized := "❌ You are not authorized."
  const Usage := "Usage: /broadcast <message>"
  const BroadcastSent := "✅ Broadcast sent."
  const BroadcastTag := "[Broadcast] "

  // ---------------------------------------------------------- progression

  /** The reply get_next_message gives a chat at day d. */
  function StepReply(verses: Catalog, d: nat): string {
    if HasDay(verses, d + 1) then Render(d + 1, verses[DayKey(d + 1)]) else Completion
  }

  /**
   * A reply is the completion text exactly when the catalog has no next day,
   * and otherwise announces that next day.
   */
  lemma StepReplyCompletion(verses: Catalog, d: nat)
    ensures StepReply(verses, d) == Completion <==> !HasDay(verses, d + 1)
    ensures HasDay(verses, d + 1) ==> NamedDay(StepReply(verses, d)) == Some(d + 1)
  {
    if HasDay(verses, d + 1) {
      RenderNamesDay(d + 1, verses[DayKey(d + 1)]);
      assert Completion[0] != DayHeader[0];
    }
  }

  /** Once the catalog is exhausted for a chat, every later step replies with the same completion text. */
  lemma CompletionIsIdempotent(rows: map<int, nat>, chat: int, verses: Catalog, k: nat)
    requires !HasDay(verses, Lookup(rows, chat) + 1)
    ensures AdvanceTimes(rows, chat, verses, k) == rows
    ensures StepReply(verses, Lookup(AdvanceTimes(rows, chat, verses, k), chat)) == Completion
  {
    ExhaustedStaysPut(rows, chat, verses, k);
  }

  /**
   * Read the chat's day, and when the catalog has the next day commit it and
   * reply with that verse; otherwise reply with the completion text and write nothing.
   */
  method GetNextMessage(store: ProgressStore<int>, chat: int, verses: Catalog) returns (reply: string)
    modifies store
    ensures store.rows == Advance(old(store.rows), chat, verses)
    ensures reply == StepReply(verses, Lookup(old(store.rows), chat))
  {
    var currentDay := store.Get(chat);
    var nextDay := currentDay + 1;
    if DayKey(nextDay) in verses {
      var v := verses[DayKey(nextDay)];
      store.Save(chat, nextDay);
      reply := Render(nextDay, v);
    } else {
      reply := Completion;
    }
  }

  // ---------------------------------------------------------------- /start

  /** The table after writing back a chat's own day: the chat is stored, at 0 when it was new. */
  function Register(rows: map<int, nat>, chat: int): (r: map<int, nat>)
    ensures r.Keys == rows.Keys + {chat}
    ensures forall x :: x in rows ==> r[x] == rows[x]
    ensures chat !in rows ==> r[chat] == 0
  {
    rows[chat := Lookup(rows, chat)]
  }

  /**
   * /start: make sure the chat has a row, then welcome it and give it the next
   * verse. The two texts are the replies, in the order they are sent.
   */
  method Start(store: ProgressStore<int>, chat: int, verses: Catalog) returns (welcome: string, reply: string)
    modifies store
    ensures store.rows == Advance(Register(old(store.rows), chat), chat, verses)
    ensures welcome == Welcome
    ensures reply == StepReply(verses, Lookup(old(store.rows), chat))
  {
    var day := store.Get(chat);
    store.Save(chat, day);
    welcome := Welcome;
    reply := GetNextMessage(store, chat, verses);
  }

  /**
   * After /start the chat is stored and has taken exactly one progression step
   * from the day it had (0 for a new chat), and every other chat is as it was.
   */
  lemma StartRegisters(rows: map<int, nat>, chat: int, verses: Catalog)
    ensures var r := Advance(Register(rows, chat), chat, verses);
      && chat in r
      && r.Keys == rows.Keys + {chat}
      && Lookup(r, chat) == AdvancedDay(verses, Lookup(rows, chat))
      && forall x :: x in rows && x != chat ==> r[x] == rows[x]
  {
    var r := Advance(Register(rows, chat), chat, verses);
    forall x | x in rows && x != chat ensures r[x] == rows[x] {
      assert Lookup(r, x) == Lookup(Register(rows, chat), x);
    }
  }

  // ------------------------------------------------------------ /broadcast

  /** The words of a command joined by single spaces, as " ".join does. */
  function Join(args: seq<string>): string
    decreases |args|
  {
    if args == [] then ""
    else if |args| == 1 then args[0]
    else args[0] + " " + Join(args[1..])
  }

  /** The pieces between single spaces, as str.split(" ") does. */
  function Split(s: string): (parts: seq<string>)
    ensures parts != []
    decreases |s|
  {
    if ' ' !in s then [s]
    else
      var k := FirstSpace(s);
      [s[..k]] + Split(s[k + 1..])
  }

  /** The index of the first blank in s. */
  function FirstSpace(s: string): (k: nat)
    requires ' ' in s
    ensures k < |s| && s[k] == ' ' && ' ' !in s[..k]
  {
    if s[0] == ' ' then 0
    else
      assert ' ' in s[1..] by {
        var j :| 0 <= j < |s| && s[j] == ' ';
        assert s[1..][j - 1] == ' ';
      }
      var k := FirstSpace(s[1..]) + 1;
      assert s[..k] == [s[0]] + s[1..][..k - 1];
      k
  }

  /**
   * Round trip: words without blanks, joined by single spaces, split back into
   * the same words. So the payload carries every word of the command, in order.
   */
  lemma {:induction false} SplitJoin(args: seq<string>)
    requires args != []
    requires forall i :: 0 <= i < |args| ==> ' ' !in args[i]
    ensures Split(Join(args)) == args
    decreases |args|
  {
    if |args| > 1 {
      var s := Join(args);
      var a := args[0];
      assert s == a + " " + Join(args[1..]);
      assert ' ' in s by {
        assert s[|a|] == ' ';
      }
      var k := FirstSpace(s);
      assert k == |a| by {
        assert s[..|a|] == a;
      }
      assert s[..k] == a;
      assert s[k + 1..] == Join(args[1..]);
      SplitJoin(args[1..]);
      assert args == [a] + args[1..];
    }
  }

  /** What /broadcast makes of a command: a refusal with its reply, or the payload to send. */
  datatype Command = Refused(reply: string) | Send(payload: string)

  /**
   * The gate of /broadcast: only the admin chat may send, and only with some
   * words after the command; the payload is those words joined by single spaces.
   */
  function BroadcastCommand(adminId: int, chat: int, args: seq<string>): (c: Command)
    ensures c.Send? <==> chat == adminId && args != []
    ensures chat != adminId ==> c == Refused(NotAuthorized)
    ensures chat == adminId && args == [] ==> c == Refused(Usage)
  {
    if chat != adminId then Refused(NotAuthorized)
    else if args == [] then Refused(Usage)
    else Send(Join(args))
  }

  /**
   * The payload of an accepted broadcast splits back at its single spaces into
   * the command's words, as the chat client delivers them (none holds a blank).
   */
  lemma BroadcastPayloadWords(adminId: int, chat: int, args: seq<string>)
    requires forall i :: 0 <= i < |args| ==> ' ' !in args[i]
    ensures BroadcastCommand(adminId, chat, args).Send? ==> Split(BroadcastCommand(adminId, chat, args).payload) == args
  {
    if BroadcastCommand(adminId, chat, args).Send? {
      SplitJoin(args);
    }
  }

  /**
   * /broadcast: a refused command is answered and sends nothing; otherwise every
   * stored chat is sent the tagged payload once, in turn, a failing send does
   * not stop the others, and the confirmation follows. The table is not written.
   */
  method Broadcast(store: ProgressStore<int>, outbox: Outbox<int>, adminId: int, chat: int, args: seq<string>)
    returns (reply: string, users: seq<int>)
    modifies outbox
    ensures BroadcastCommand(adminId, chat, args).Refused? ==>
      && reply == BroadcastCommand(adminId, chat, args).reply
      && users == []
      && outbox.log == old(outbox.log)
    ensures BroadcastCommand(adminId, chat, args).Send? ==>
      && reply == BroadcastSent
      && Distinct(users) && (forall x :: x in users <==> x in store.rows)
      && outbox.log == old(outbox.log)
         + Attempts(outbox.fails, |old(outbox.log)|, ToEach(users, BroadcastTag + BroadcastCommand(adminId, chat, args).payload))
  {
    if chat != adminId {
      return NotAuthorized, [];
    }
    if args == [] {
      return Usage, [];
    }
    var msg := Join(args);
    users := store.Ids();
    outbox.SendEach(ToEach(users, BroadcastTag + msg));
    reply := BroadcastSent;
  }

  /**
   * Failure isolation in a broadcast: when every send to one chat k fails and
   * every other send succeeds, every stored chat but k receives the broadcast.
   */
  lemma BroadcastReachesOthers(fails: Oracle<int>, base: nat, users: seq<int>, text: string, k: int)
    requires Distinct(users)
    requires forall i :: 0 <= i < |users| ==> (fails(base + i, users[i], text) <==> users[i] == k)
    ensures DeliveredCount(Attempts(fails, base, ToEach(users, text))) == |users| - (if k in users then 1 else 0)
  {
    var msgs := ToEach(users, text);
    assert Firsts(msgs) == users;
    OneUnreachableRecipient(fails, base, msgs, k);
  }

  // ----------------------------------------------------------- daily push

  /** The daily messages for users, each for the day that chat had when the push began. */
  function DailyMessages(rows: map<int, nat>, users: seq<int>, verses: Catalog): (msgs: seq<(int, string)>)
    ensures |msgs| == |users|
  {
    seq(|users|, i requires 0 <= i < |users| => (users[i], StepReply(verses, Lookup(rows, users[i]))))
  }

  /**
   * The daily push: for every stored chat in turn, one progression step and then
   * one send of its reply. A failing send is reported and the loop carries on;
   * the step already committed stays committed.
   */
  method SendDaily(store: ProgressStore<int>, outbox: Outbox<int>, verses: Catalog) returns (users: seq<int>)
    modifies store, outbox
    ensures Distinct(users) && forall x :: x in users <==> x in old(store.rows)
    ensures PushedEach(old(store.rows), verses, outbox.fails, old(outbox.log),
                       DailyMessages(old(store.rows), users, verses), |users|, store.rows, outbox.log)
  {
    ghost var rows0, log0 := store.rows, outbox.log;
    users := store.Ids();
    ghost var msgs := DailyMessages(rows0, users, verses);
    DailyRecipients(rows0, users, verses);
    var i := 0;
    while i < |users|
      invariant i <= |users| == |msgs|
      invariant PushedEach(rows0, verses, outbox.fails, log0, msgs, i, store.rows, outbox.log)
    {
      var user := users[i];
      ghost var rows := store.rows;
      DailyMessageAt(rows0, users, verses, i);
      PushEachStep(rows0, verses, outbox.fails, log0, msgs, i, rows, outbox.log);
      var msg := GetNextMessage(store, user, verses);
      var _ := outbox.Send(user, msg);
      i := i + 1;
    }
  }

  /** The daily message of the i-th chat: its reply for the day it had when the push began. */
  lemma DailyMessageAt(rows: map<int, nat>, users: seq<int>, verses: Catalog, i: nat)
    requires i < |users|
    ensures DailyMessages(rows, users, verses)[i] == (users[i], StepReply(verses, Lookup(rows, users[i])))
  {
  }

  /** The daily messages go to the chats they were built for, in that order. */
  lemma DailyRecipients(rows: map<int, nat>, users: seq<int>, verses: Catalog)
    ensures Firsts(DailyMessages(rows, users, verses)) == users
  {
  }

  /**
   * What the daily push leaves behind: every stored chat has taken exactly one
   * progression step, whether or not its send went through, no row is added or
   * lost, and the log holds one attempt per chat, in order, carrying the reply
   * for the day that chat had when the push began.
   */
  lemma SendDailyOutcome(rows0: map<int, nat>, verses: Catalog, fails: Oracle<int>, log0: seq<Attempt<int>>,
                         users: seq<int>, rows: map<int, nat>, log: seq<Attempt<int>>)
    requires Distinct(users) && (forall x :: x in users <==> x in rows0)
    requires PushedEach(rows0, verses, fails, log0, DailyMessages(rows0, users, verses), |users|, rows, log)
    ensures rows == DailyAdvance(rows0, verses)
    ensures |log| == |log0| + |users|
    ensures forall j :: 0 <= j < |users| ==>
      var text := StepReply(verses, Lookup(rows0, users[j]));
      log[|log0| + j] == Attempt(users[j], text, !fails(|log0| + j, users[j], text))
  {
    var msgs := DailyMessages(rows0, users, verses);
    DailyRecipients(rows0, users, verses);
    assert users[..|users|] == users;
    AdvanceAllIsDaily(rows0, users, verses);
    assert msgs[..|msgs|] == msgs;
    var sent := Attempts(fails, |log0|, msgs);
    assert log == log0 + sent;
    forall j | 0 <= j < |users|
      ensures log[|log0| + j]
        == Attempt(users[j], StepReply(verses, Lookup(rows0, users[j])), !fails(|log0| + j, users[j], StepReply(verses, Lookup(rows0, users[j]))))
    {
      DailyMessageAt(rows0, users, verses, j);
      AttemptsAt(fails, |log0|, msgs, j);
      assert log[|log0| + j] == sent[j];
    }
  }

  /**
   * Failure isolation in the daily push: when every send to one chat k fails and
   * every other send succeeds, every stored chat but k receives its message.
   */
  lemma SendDailyReachesOthers(rows0: map<int, nat>, verses: Catalog, fails: Oracle<int>, base: nat,
                               users: seq<int>, k: int)
    requires Distinct(users)
    requires forall i :: 0 <= i < |users| ==>
      (fails(base + i, users[i], StepReply(verses, Lookup(rows0, users[i]))) <==> users[i] == k)
    ensures DeliveredCount(Attempts(fails, base, DailyMessages(rows0, users, verses))) == |users| - (if k in users then 1 else 0)
  {
    var msgs := DailyMessages(rows0, users, verses);
    DailyRecipients(rows0, users, verses);
    OneUnreachableRecipient(fails, base, msgs, k);
  }
}
