/**
 * The WhatsApp variant of the bot (hanumanji_whatsapp.py): progression on a table
 * keyed by phone number, an admin command parsed from free text, and a daily
 * push. Sends go through the messaging client, whose failures are not caught, so
 * a failing send ends whichever loop it happens in.
 */
module WhatsApp {
  import opened Wrappers
  import opened Catalog
  import opened Progress
  import opened Channel
  import opened Push

  // Written as its first character plus the rest, the same text, so that proofs can see how it starts.
  const Completion := "🎉" + " You’ve completed all 7 days of learning! Jai Hanuman 🙏"
  const GoodMorning := "☀️ Good Morning!\n"
  const CommandPrefix := "broadcast "
  const BroadcastTag := "[Broadcast] "
  const BroadcastSent := "✅ Broadcast sent!"
  const NotRecognized := "❌ Admin command not recognized."

  // ---------------------------------------------------------------- text

  /** The characters Python's str.strip() removes when called without arguments. */
  predicate IsSpace(c: char) {
    c == ' ' || '\t' <= c <= '\r' || '\U{1C}' <= c <= '\U{1F}' || c == '\U{85}' || c == '\U{A0}'
    || c == '\U{1680}' || '\U{2000}' <= c <= '\U{200A}' || c == '\U{2028}' || c == '\U{2029}'
    || c == '\U{202F}' || c == '\U{205F}' || c == '\U{3000}'
  }

  predicate AllSpace(s: string) {
    forall i :: 0 <= i < |s| ==> IsSpace(s[i])
  }

  /** Neither begins nor ends with whitespace. */
  predicate Stripped(s: string) {
    s == [] || (!IsSpace(s[0]) && !IsSpace(s[|s| - 1]))
  }

  /** The end of the run of whitespace that starts at index k of s: str.strip's scan from the left. */
  function SpaceRunFrom(s: string, k: nat): (n: nat)
    requires k <= |s|
    ensures k <= n <= |s|
    ensures forall i :: k <= i < n ==> IsSpace(s[i])
    ensures n == |s| || !IsSpace(s[n])
    decreases |s| - k
  {
    if k < |s| && IsSpace(s[k]) then SpaceRunFrom(s, k + 1) else k
  }

  /**
   * The start of the run of whitespace that ends at index k of s, going no
   * further left than lo: str.strip's scan from the right, which stops where
   * the scan from the left stopped.
   */
  function SpaceRunBack(s: string, lo: nat, k: nat): (n: nat)
    requires lo <= k <= |s|
    ensures lo <= n <= k
    ensures forall i :: n <= i < k ==> IsSpace(s[i])
    ensures n == lo || !IsSpace(s[n - 1])
    decreases k
  {
    if k > lo && IsSpace(s[k - 1]) then SpaceRunBack(s, lo, k - 1) else k
  }

  /** s without leading and trailing whitespace; empty only when s is all whitespace. */
  function Strip(s: string): (r: string)
    ensures Stripped(r)
    ensures r == [] ==> AllSpace(s)
  {
    var a := SpaceRunFrom(s, 0);
    var b := SpaceRunBack(s, a, |s|);
    s[a..b]
  }

  /** The scan from the left stops at the first non-whitespace character after k, and only there. */
  lemma SpaceRunFromIs(s: string, k: nat, n: nat)
    requires k <= n <= |s|
    requires forall i :: k <= i < n ==> IsSpace(s[i])
    requires n == |s| || !IsSpace(s[n])
    ensures SpaceRunFrom(s, k) == n
  {
  }

  /** The scan from the right stops just after the last non-whitespace character at or after lo, and only there. */
  lemma SpaceRunBackIs(s: string, lo: nat, k: nat, n: nat)
    requires lo <= n <= k <= |s|
    requires forall i :: n <= i < k ==> IsSpace(s[i])
    requires n == lo || !IsSpace(s[n - 1])
    ensures SpaceRunBack(s, lo, k) == n
  {
  }

  /** Strip removes exactly the surrounding whitespace and nothing else. */
  lemma StripExact(w1: string, t: string, w2: string)
    requires AllSpace(w1) && AllSpace(w2) && Stripped(t)
    ensures Strip(w1 + t + w2) == t
  {
    var s := w1 + t + w2;
    if t == [] {
      SpaceRunFromIs(s, 0, |s|);
      SpaceRunBackIs(s, |s|, |s|, |s|);
    } else {
      var a, b := |w1|, |w1| + |t|;
      assert s[a] == t[0] && s[b - 1] == t[|t| - 1];
      SpaceRunFromIs(s, 0, a);
      SpaceRunBackIs(s, a, |s|, b);
      assert s[a..b] == t;
    }
  }

  /** ASCII lower case; other characters are kept. */
  function LowerChar(c: char): char {
    if 'A' <= c <= 'Z' then (c as int + 32) as char else c
  }

  /** str.lower restricted to ASCII: each character lowered on its own, so the length is kept. */
  function Lower(s: string): (r: string)
    ensures |r| == |s| && forall i :: 0 <= i < |s| ==> r[i] == LowerChar(s[i])
  {
    seq(|s|, i requires 0 <= i < |s| => LowerChar(s[i]))
  }

  /** Whether s starts with "broadcast ", ignoring case: its first characters lower to the prefix one by one. */
  predicate IsCommand(s: string)
    ensures IsCommand(s) <==>
      |s| >= |CommandPrefix| && forall i :: 0 <= i < |CommandPrefix| ==> LowerChar(s[i]) == CommandPrefix[i]
  {
    |s| >= |CommandPrefix| && Lower(s)[..|CommandPrefix|] == CommandPrefix
  }

  /**
   * The payload of an admin message: after trimming, a case-insensitive
   * "broadcast " prefix followed by the text to send, itself trimmed.
   */
  function ParseBroadcast(incoming: string): (r: Option<string>)
    ensures r.Some? <==> IsCommand(Strip(incoming))
    ensures r.Some? ==> Stripped(r.value) && |r.value| < |incoming|
  {
    var msg := Strip(incoming);
    if IsCommand(msg) then Some(Strip(msg[|CommandPrefix|..])) else None
  }

  /**
   * A recognised command always carries a non-empty, trimmed payload: the
   * prefix's own trailing blank is trimmed away from a bare "broadcast ".
   */
  lemma ParsedPayloadNonEmpty(incoming: string)
    ensures ParseBroadcast(incoming).Some? ==>
      ParseBroadcast(incoming).value != [] && Stripped(ParseBroadcast(incoming).value)
  {
    var msg := Strip(incoming);
    if IsCommand(msg) {
      CommandLeavesPayload(msg);
    }
  }

  /** A trimmed command text goes on past its prefix, and not with whitespace alone. */
  lemma CommandLeavesPayload(msg: string)
    requires Stripped(msg) && IsCommand(msg)
    ensures |msg| > |CommandPrefix| && !AllSpace(msg[|CommandPrefix|..])
  {
    var n := |CommandPrefix|;
    assert IsSpace(msg[n - 1]) by {
      assert Lower(msg)[..n][n - 1] == CommandPrefix[n - 1] == ' ';
      assert LowerChar(msg[n - 1]) == ' ';
    }
    var rest := msg[n..];
    assert !IsSpace(rest[|rest| - 1]);
  }

  /**
   * Round trip: any spelling of "broadcast " in upper or lower case, followed by
   * any whitespace and a non-empty trimmed payload, and surrounded by any
   * whitespace, parses back to exactly that payload.
   */
  lemma ParseBroadcastOf(w1: string, prefix: string, w3: string, payload: string, w2: string)
    requires AllSpace(w1) && AllSpace(w2) && AllSpace(w3)
    requires |prefix| == |CommandPrefix| && Lower(prefix) == CommandPrefix
    requires payload != [] && Stripped(payload)
    ensures ParseBroadcast(w1 + prefix + w3 + payload + w2) == Some(payload)
  {
    var rest := w3 + payload;
    var t := prefix + rest;
    assert Stripped(t) by {
      assert LowerChar(prefix[0]) == 'b';
      assert t[0] == prefix[0] && t[|t| - 1] == payload[|payload| - 1];
    }
    assert w1 + prefix + w3 + payload + w2 == w1 + t + w2;
    StripExact(w1, t, w2);
    PrefixMakesCommand(prefix, rest);
    assert rest == w3 + payload + [];
    StripExact(w3, payload, []);
  }

  /** Any case spelling of the prefix, followed by anything, is a command whose rest is what followed. */
  lemma PrefixMakesCommand(prefix: string, payload: string)
    requires |prefix| == |CommandPrefix| && Lower(prefix) == CommandPrefix
    ensures IsCommand(prefix + payload) && (prefix + payload)[|CommandPrefix|..] == payload
  {
    var t := prefix + payload;
    assert Lower(t)[..|CommandPrefix|] == Lower(prefix);
  }

  /** Text without surrounding whitespace is left as it is, so stripping twice is stripping once. */
  lemma StripIdempotent(t: string)
    requires Stripped(t)
    ensures Strip(t) == t
  {
    if t == [] {
      SpaceRunFromIs(t, 0, 0);
    } else {
      SpaceRunFromIs(t, 0, 0);
      SpaceRunBackIs(t, 0, |t|, |t|);
      assert t[0..|t|] == t;
    }
  }

  // ---------------------------------------------------------- progression

  /** The reply get_next_message gives a phone at day d. */
  function StepReply(verses: Catalog, d: nat): string {
    if HasDay(verses, d + 1) then Render(d + 1, verses[DayKey(d + 1)]) else Completion
  }

  /**
   * The morning message send_daily_verse sends a phone at day d: the reply
   * get_next_message would give, under a greeting when it is a verse.
   */
  function DailyText(verses: Catalog, d: nat): (text: string)
    ensures HasDay(verses, d + 1) ==> text == GoodMorning + StepReply(verses, d)
    ensures !HasDay(verses, d + 1) ==> text == StepReply(verses, d) == Completion
  {
    if HasDay(verses, d + 1) then GoodMorning + Render(d + 1, verses[DayKey(d + 1)]) else Completion
  }

  /**
   * A reply is the completion text exactly when the catalog has no next day,
   * and otherwise announces that next day.
   */
  lemma StepReplyCompletion(verses: Catalog, d: nat)
    ensures StepReply(verses, d) == Completion <==> !HasDay(verses, d + 1)
    ensures DailyText(verses, d) == Completion <==> !HasDay(verses, d + 1)
    ensures HasDay(verses, d + 1) ==> NamedDay(StepReply(verses, d)) == Some(d + 1)
    ensures HasDay(verses, d + 1) ==> NamedDay(DailyText(verses, d)[|GoodMorning|..]) == Some(d + 1)
  {
    if HasDay(verses, d + 1) {
      var r := Render(d + 1, verses[DayKey(d + 1)]);
      RenderNamesDay(d + 1, verses[DayKey(d + 1)]);
      assert (GoodMorning + r)[|GoodMorning|..] == r;
      assert Completion[0] != DayHeader[0];
      assert (GoodMorning + r)[0] != Completion[0];
    }
  }

  /** Once the catalog is exhausted for a phone, every later step replies with the same completion text. */
  lemma CompletionIsIdempotent(rows: map<string, nat>, phone: string, verses: Catalog, k: nat)
    requires !HasDay(verses, Lookup(rows, phone) + 1)
    ensures AdvanceTimes(rows, phone, verses, k) == rows
    ensures StepReply(verses, Lookup(AdvanceTimes(rows, phone, verses, k), phone)) == Completion
  {
    ExhaustedStaysPut(rows, phone, verses, k);
  }

  /** The daily messages for phones, each for the day that phone had when the push began. */
  function DailyMessages(rows: map<string, nat>, phones: seq<string>, verses: Catalog): (msgs: seq<(string, string)>)
    ensures |msgs| == |phones|
  {
    seq(|phones|, i requires 0 <= i < |phones| => (phones[i], DailyText(verses, Lookup(rows, phones[i]))))
  }

  /**
   * Read the phone's day, and when the catalog has the next day commit it and
   * reply with that verse; otherwise reply with the completion text and write nothing.
   */
  method GetNextMessage(store: ProgressStore<string>, phone: string, verses: Catalog) returns (reply: string)
    modifies store
    ensures store.rows == Advance(old(store.rows), phone, verses)
    ensures reply == StepReply(verses, Lookup(old(store.rows), phone))
  {
    var currentDay := store.Get(phone);
    var nextDay := currentDay + 1;
    if DayKey(nextDay) in verses {
      var verse := verses[DayKey(nextDay)];
      store.Save(phone, nextDay);
      reply := Render(nextDay, verse);
    } else {
      reply := Completion;
    }
  }

  // ------------------------------------------------------------- fan-outs

  /**
   * The admin handler. Text that is not a broadcast command is answered with
   * "not recognized" and sends nothing. A broadcast reads every phone and sends
   * each the tagged payload in turn; the first failing send ends the loop with
   * the failure. The table is not written either way.
   */
  method HandleAdminMessage(store: ProgressStore<string>, outbox: Outbox<string>, incoming: string)
    returns (run: Run, reply: Option<string>, phones: seq<string>)
    modifies outbox
    ensures ParseBroadcast(incoming).None? ==>
      run == Finished && reply == Some(NotRecognized) && phones == [] && outbox.log == old(outbox.log)
    ensures ParseBroadcast(incoming).Some? ==>
      BroadcastOutcome(store.rows, ParseBroadcast(incoming).value, outbox.fails, old(outbox.log), run, reply, phones, outbox.log)
  {
    var parsed := ParseBroadcast(incoming);
    if parsed.None? {
      return Finished, Some(NotRecognized), [];
    }
    run, reply, phones := BroadcastToAll(store, outbox, parsed.value);
  }

  /**
   * The broadcast branch of the admin handler: every stored phone is read and
   * sent the tagged payload in turn, and the first failing send ends the loop.
   */
  method BroadcastToAll(store: ProgressStore<string>, outbox: Outbox<string>, broadcastMsg: string)
    returns (run: Run, reply: Option<string>, phones: seq<string>)
    modifies outbox
    ensures BroadcastOutcome(store.rows, broadcastMsg, outbox.fails, old(outbox.log), run, reply, phones, outbox.log)
  {
    phones := store.Ids();
    var msgs := ToEach(phones, BroadcastTag + broadcastMsg);
    run := outbox.SendUntilFailure(msgs);
    reply := if run.Finished? then Some(BroadcastSent) else None;
  }

  /**
   * A broadcast of payload over the phones in rows: phones lists each of them
   * once, each is sent the tagged payload in that order until the first send
   * that fails, and the confirmation comes back only when none failed.
   */
  ghost predicate BroadcastOutcome(rows: map<string, nat>, payload: string, fails: Oracle<string>, log0: seq<Attempt<string>>,
                                   run: Run, reply: Option<string>, phones: seq<string>, log: seq<Attempt<string>>)
  {
    && Distinct(phones)
    && (forall x :: x in phones <==> x in rows)
    && var msgs := ToEach(phones, BroadcastTag + payload);
       && run == FirstFailure(fails, |log0|, msgs)
       && log == log0 + Attempts(fails, |log0|, msgs[..Tried(run, |msgs|)])
       && reply == (if run.Finished? then Some(BroadcastSent) else None)
  }

  /**
   * What a broadcast leaves in the log: one attempt per phone reached, in order,
   * each carrying the tagged payload; all went through but the failing one, and
   * the confirmation comes back exactly when every stored phone was sent it.
   */
  lemma AdminBroadcastSends(rows: map<string, nat>, payload: string, fails: Oracle<string>, log0: seq<Attempt<string>>,
                            run: Run, reply: Option<string>, phones: seq<string>, log: seq<Attempt<string>>)
    requires BroadcastOutcome(rows, payload, fails, log0, run, reply, phones, log)
    ensures |log| == |log0| + Tried(run, |phones|)
    ensures forall j :: 0 <= j < Tried(run, |phones|) ==>
      log[|log0| + j] == Attempt(phones[j], BroadcastTag + payload, run.Finished? || j < run.at)
    ensures reply == Some(BroadcastSent) <==> run.Finished?
    ensures run.Finished? ==> forall x :: x in rows ==> Attempt(x, BroadcastTag + payload, true) in log[|log0|..]
  {
    var msgs := ToEach(phones, BroadcastTag + payload);
    var n := Tried(run, |phones|);
    forall j | 0 <= j < n
      ensures log[|log0| + j] == Attempt(phones[j], BroadcastTag + payload, run.Finished? || j < run.at)
    {
      AttemptsAt(fails, |log0|, msgs[..n], j);
      assert log[|log0| + j] == Attempts(fails, |log0|, msgs[..n])[j];
      assert msgs[..n][j] == msgs[j];
    }
    if run.Finished? {
      forall x | x in rows ensures Attempt(x, BroadcastTag + payload, true) in log[|log0|..] {
        var j :| 0 <= j < |phones| && phones[j] == x;
        assert log[|log0|..][j] == log[|log0| + j];
      }
    }
  }

  /**
   * The daily push. It reads every (phone, day) row once, then for each in turn
   * commits the next day when the catalog has it and sends the morning message.
   * The commit precedes the send, and the first failing send ends the loop.
   */
  method SendDailyVerse(store: ProgressStore<string>, outbox: Outbox<string>, verses: Catalog)
    returns (run: Run, phones: seq<string>)
    modifies store, outbox
    ensures Distinct(phones) && forall x :: x in phones <==> x in old(store.rows)
    ensures PushOutcome(old(store.rows), verses, outbox.fails, old(outbox.log),
                        DailyMessages(old(store.rows), phones, verses), run, store.rows, outbox.log)
  {
    var users := store.Rows();
    phones := Firsts(users);
    run := PushDaily(store, outbox, verses, users);
  }

  /**
   * The loop of the daily push over a snapshot of the table: each phone in turn,
   * at the day the snapshot holds for it, until the first send that fails.
   */
  method PushDaily(store: ProgressStore<string>, outbox: Outbox<string>, verses: Catalog, users: seq<(string, nat)>)
    returns (run: Run)
    requires IsSnapshot(users, store.rows)
    modifies store, outbox
    ensures PushOutcome(old(store.rows), verses, outbox.fails, old(outbox.log),
                        DailyMessages(old(store.rows), Firsts(users), verses), run, store.rows, outbox.log)
  {
    ghost var rows0, log0 := store.rows, outbox.log;
    ghost var msgs := DailyMessages(rows0, Firsts(users), verses);
    DailyRecipients(rows0, Firsts(users), verses);
    var i := 0;
    while i < |users|
      invariant i <= |users| == |msgs|
      invariant Pushed(rows0, verses, outbox.fails, log0, msgs, i, store.rows, outbox.log)
    {
      var phone, day := users[i].0, users[i].1;
      ghost var rows, log := store.rows, outbox.log;
      DailyMessageAt(rows0, users, verses, i);
      var ok := DailyTurn(store, outbox, verses, phone, day);
      PushTurn(rows0, verses, outbox.fails, log0, msgs, i, rows, log, phone, day, DailyText(verses, day), ok);
      if !ok {
        return Raised(i);
      }
      i := i + 1;
    }
    PushDone(rows0, verses, outbox.fails, log0, msgs, store.rows, outbox.log);
    run := Finished;
  }

  /**
   * One turn of the daily loop for a phone read at day: when the catalog has the
   * next day, that day is committed for the phone; then the morning message is sent.
   */
  method DailyTurn(store: ProgressStore<string>, outbox: Outbox<string>, verses: Catalog, phone: string, day: nat)
    returns (ok: bool)
    modifies store, outbox
    ensures store.rows == if HasDay(verses, day + 1) then old(store.rows)[phone := day + 1] else old(store.rows)
    ensures ok == !outbox.fails(|old(outbox.log)|, phone, DailyText(verses, day))
    ensures outbox.log == old(outbox.log) + [Attempt(phone, DailyText(verses, day), ok)]
  {
    var nextDay := day + 1;
    var msg;
    if DayKey(nextDay) in verses {
      var verse := verses[DayKey(nextDay)];
      store.Save(phone, nextDay);
      msg := GoodMorning + Render(nextDay, verse);
    } else {
      msg := Completion;
    }
    ok := outbox.Send(phone, msg);
  }

  /** The i-th daily message of a snapshot: the phone of its i-th row, with the text for that row's day. */
  lemma DailyMessageAt(rows0: map<string, nat>, users: seq<(string, nat)>, verses: Catalog, i: nat)
    requires i < |users| && IsSnapshot(users, rows0)
    ensures DailyMessages(rows0, Firsts(users), verses)[i] == (users[i].0, DailyText(verses, users[i].1))
    ensures Lookup(rows0, users[i].0) == users[i].1
  {
  }

  /** The daily messages go to the phones they were built for, in that order. */
  lemma DailyRecipients(rows: map<string, nat>, phones: seq<string>, verses: Catalog)
    ensures Firsts(DailyMessages(rows, phones, verses)) == phones
  {
  }

  /**
   * What the daily push leaves in the table: the phones it reached, the failing
   * one included, have moved one step on, the others keep their day, no row is
   * added or lost, and a push that finishes advances every phone exactly once.
   */
  lemma DailyVerseProgress(rows0: map<string, nat>, verses: Catalog, fails: Oracle<string>, log0: seq<Attempt<string>>,
                           phones: seq<string>, run: Run, rows: map<string, nat>, log: seq<Attempt<string>>)
    requires Distinct(phones) && (forall x :: x in phones <==> x in rows0)
    requires PushOutcome(rows0, verses, fails, log0, DailyMessages(rows0, phones, verses), run, rows, log)
    ensures rows.Keys == rows0.Keys
    ensures forall j :: 0 <= j < |phones| ==>
      rows[phones[j]] == if j < Tried(run, |phones|) then AdvancedDay(verses, rows0[phones[j]]) else rows0[phones[j]]
    ensures run.Finished? ==> rows == DailyAdvance(rows0, verses)
  {
    DailyRecipients(rows0, phones, verses);
    AdvancePrefix(rows0, phones, verses, Tried(run, |phones|));
    if run.Finished? {
      assert phones[..|phones|] == phones;
      AdvanceAllIsDaily(rows0, phones, verses);
    }
  }

  /**
   * What the daily push leaves in the log: one attempt per phone reached, in
   * order, carrying the morning message for the day that phone had when the
   * push began; every one of them went through except the failing one.
   */
  lemma DailyVerseSends(rows0: map<string, nat>, verses: Catalog, fails: Oracle<string>, log0: seq<Attempt<string>>,
                        phones: seq<string>, run: Run, rows: map<string, nat>, log: seq<Attempt<string>>)
    requires PushOutcome(rows0, verses, fails, log0, DailyMessages(rows0, phones, verses), run, rows, log)
    ensures |log| == |log0| + Tried(run, |phones|)
    ensures forall j :: 0 <= j < Tried(run, |phones|) ==>
      log[|log0| + j] == Attempt(phones[j], DailyText(verses, Lookup(rows0, phones[j])), run.Finished? || j < run.at)
  {
    var msgs := DailyMessages(rows0, phones, verses);
    if 0 < Tried(run, |phones|) {
      PushOutcomeAt(rows0, verses, fails, log0, msgs, run, rows, log, 0);
    }
    forall j | 0 <= j < Tried(run, |phones|)
      ensures log[|log0| + j] == Attempt(phones[j], DailyText(verses, Lookup(rows0, phones[j])), run.Finished? || j < run.at)
    {
      PushOutcomeAt(rows0, verses, fails, log0, msgs, run, rows, log, j);
    }
  }

  /**
   * The daily push as written lets one unreachable phone at the head of the
   * snapshot deny every other phone its verse: the loop ends at once, nothing
   * is delivered, and no later phone moves on, whatever their sends would have done.
   */
  lemma UnguardedDailyStops(rows0: map<string, nat>, verses: Catalog, fails: Oracle<string>, log0: seq<Attempt<string>>,
                            phones: seq<string>, run: Run, rows: map<string, nat>, log: seq<Attempt<string>>)
    requires phones != [] && fails(|log0|, phones[0], DailyText(verses, Lookup(rows0, phones[0])))
    requires PushOutcome(rows0, verses, fails, log0, DailyMessages(rows0, phones, verses), run, rows, log)
    ensures run == Raised(0)
    ensures log == log0 + [Attempt(phones[0], DailyText(verses, Lookup(rows0, phones[0])), false)]
    ensures rows == Advance(rows0, phones[0], verses)
  {
    var msgs := DailyMessages(rows0, phones, verses);
    assert msgs[0] == (phones[0], DailyText(verses, Lookup(rows0, phones[0])));
    PushStopsAtHead(rows0, verses, fails, log0, msgs, run, rows, log);
  }

  /**
   * The daily push with each send's failure contained, as the Telegram variant
   * does it: every phone takes its step and is sent its message, whatever became
   * of the sends before it.
   */
  method SendDailyVerseIsolated(store: ProgressStore<string>, outbox: Outbox<string>, verses: Catalog)
    returns (phones: seq<string>)
    modifies store, outbox
    ensures Distinct(phones) && forall x :: x in phones <==> x in old(store.rows)
    ensures PushedEach(old(store.rows), verses, outbox.fails, old(outbox.log),
                       DailyMessages(old(store.rows), phones, verses), |phones|, store.rows, outbox.log)
  {
    ghost var rows0, log0 := store.rows, outbox.log;
    var users := store.Rows();
    phones := Firsts(users);
    ghost var msgs := DailyMessages(rows0, phones, verses);
    DailyRecipients(rows0, phones, verses);
    var i := 0;
    while i < |users|
      invariant i <= |users| == |msgs|
      invariant PushedEach(rows0, verses, outbox.fails, log0, msgs, i, store.rows, outbox.log)
    {
      var phone, day := users[i].0, users[i].1;
      ghost var rows, log := store.rows, outbox.log;
      DailyMessageAt(rows0, users, verses, i);
      var ok := DailyTurn(store, outbox, verses, phone, day);
      PushEachTurn(rows0, verses, outbox.fails, log0, msgs, i, rows, log, phone, day, DailyText(verses, day), ok);
      i := i + 1;
    }
  }

  /**
   * With failures contained, one unreachable phone k costs only its own
   * message: every other phone is delivered to, and every phone moves on once.
   */
  lemma IsolatedDailyReachesOthers(rows0: map<string, nat>, verses: Catalog, fails: Oracle<string>, log0: seq<Attempt<string>>,
                                   phones: seq<string>, rows: map<string, nat>, log: seq<Attempt<string>>, k: string)
    requires Distinct(phones) && (forall x :: x in phones <==> x in rows0)
    requires forall i :: 0 <= i < |phones| ==>
      (fails(|log0| + i, phones[i], DailyText(verses, Lookup(rows0, phones[i]))) <==> phones[i] == k)
    requires PushedEach(rows0, verses, fails, log0, DailyMessages(rows0, phones, verses), |phones|, rows, log)
    ensures rows == DailyAdvance(rows0, verses)
    ensures DeliveredCount(log[|log0|..]) == |phones| - (if k in rows0 then 1 else 0)
  {
    var msgs := DailyMessages(rows0, phones, verses);
    DailyRecipients(rows0, phones, verses);
    forall i | 0 <= i < |msgs| ensures (fails(|log0| + i, msgs[i].0, msgs[i].1) <==> msgs[i].0 == k) {
      assert msgs[i] == (phones[i], DailyText(verses, Lookup(rows0, phones[i])));
    }
    PushEachIsolates(rows0, verses, fails, log0, msgs, rows, log, k);
    AdvanceAllIsDaily(rows0, phones, verses);
  }
}
