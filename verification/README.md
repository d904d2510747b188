# Daily-verse bot: recipient progression and delivery

The bot teaches a fixed sequence of verses, one "day" at a time, to everyone who
has contacted it. It comes in two variants, one for WhatsApp (`hanumanji_whatsapp.py`)
and one for Telegram (`hanumanji_telegram.py`). Both share one core:

- **Progress table.** There is one row per recipient, a phone number or a chat id.
  Each row holds the number of the last day committed. The commit comes before the send, so a day whose send failed still counts as committed. A recipient with no row
  reads as day 0.
- **Progression step.** The step reads the recipient's day `d` and looks for
  `day{d+1}` in the verse catalog.
  - If the catalog has it, the step commits `d+1` and replies with the rendered verse.
  - Otherwise it writes nothing and replies with a fixed completion text.
- **Fan-outs.** An admin broadcast sends one tagged text to every stored
  recipient. The daily push gives every stored recipient one progression step
  and sends it the result.
  - In the WhatsApp variant, a send that fails is not caught, so it ends the loop.
  - In the Telegram variant, each send is wrapped, and the loop carries on.

The model has these modules:

- `Catalog` (`catalog.dfy`): the catalog as a dictionary keyed by `"day" + decimal(n)`.
  It also holds the reply template, with a proof that each reply names its day.
- `Progress` (`progress.dfy`): the progression rule as functions (`Advance`,
  `AdvanceAll`, `DailyAdvance`), with their laws. It also holds the table as a
  class `ProgressStore` whose `rows` map the methods update in place.
- `Channel` (`channel.dfy`): the outgoing side of a channel as a class `Outbox`.
  It appends every send attempt to a log. An oracle `fails(n, to, text)` decides
  whether the `n`-th send of the channel's lifetime fails.
  - `Attempts` is the reference definition of what a loop over messages logs.
  - `FirstFailure` is the reference definition of where a loop that lets a failure propagate stops.
- `Push` (`push.dfy`): the invariant of a daily-push loop ("the first `i` turns
  were taken"), and the lemmas that carry one turn of it.
  - There is one form for a loop that stops at the first failure, and one for a
    loop that carries on.
  - Both are stated over any recipients and messages.
- `WhatsApp` (`whatsapp.dfy`) and `Telegram` (`telegram.dfy`): each variant's
  operations as methods on the store and the outbox. They are proved against the
  functions above, together with the pure text handling:
  - `str.strip`, `lower().startswith`, the `" ".join` of command words and the replies.

A method's "raises" is modelled as a `Run` result: `Finished`, or `Raised(at)`
for the index of the send that failed. A reply the handler never gets to return
is `None`.

## Model

| member | source | states |
|---|---|---|
| Catalog.DecimalRoundTrip | hanumanji_whatsapp.py:48 | reading back the decimal digits that `f"day{n}"` writes gives `n` |
| Catalog.DayKey | hanumanji_whatsapp.py:48 | the key `f"day{n}"`: `"day"` followed by the decimal digits of `n`; its meaning is carried by `DecimalRoundTrip` and `DayKeyInjective` |
| Catalog.HasDay | hanumanji_whatsapp.py:48 | the test `f"day{n}" in verses`, on which every progression step turns |
| Catalog.DayKeyInjective | hanumanji_whatsapp.py:48-49 | different days have different catalog keys, so each day reads its own entry |
| Catalog.Render | hanumanji_whatsapp.py:51-57 | the verse template: header with the day number, the verse, both translations and the meaning; what it announces is proved in `RenderNamesDay` |
| Catalog.RenderNamesDay | hanumanji_whatsapp.py:51-57 | the reply rendered for day `n` announces exactly day `n` in its header, whatever the verse |
| Catalog.RenderDistinguishesDays | hanumanji_telegram.py:52-58 | replies for different days are different texts |
| Progress.Advance | hanumanji_whatsapp.py:45-50 | one step moves the day to `d+1` exactly when `day{d+1}` is in the catalog; otherwise the table is unchanged; no other id is touched |
| Progress.Lookup | hanumanji_whatsapp.py:34 | `row[0] if row else 0`: a stored id reads its day and an absent id reads 0; `Advance` and `ProgressStore.Get` are stated through it |
| Progress.AdvanceAll | hanumanji_telegram.py:85-86 | reference definition of a fan-out: one `Advance` per id, in order; the push loops are proved against it and its laws are `AdvanceAllEffect`, `AdvancePrefix` and `AdvanceAllIsDaily` |
| Progress.DailyAdvance | hanumanji_telegram.py:84-86 | independent reference definition of a finished daily push: every stored id moved one step from its own day, no row added; `AdvanceAllIsDaily` equates the fan-out with it |
| Progress.AdvanceAllEffect | hanumanji_telegram.py:85-86 | a step for each of several distinct ids moves each of them once from its starting day, keeps every row, and leaves every other id as it was |
| Progress.AdvanceAllSnoc | hanumanji_telegram.py:85-86 | in a fan-out over distinct ids, the next id still has its starting day when its turn comes |
| Progress.AdvancePrefix | hanumanji_whatsapp.py:113-117 | a fan-out that stops after the first `n` ids has moved exactly those `n` one step, kept the rest, and kept the row set |
| Progress.AdvanceAllIsDaily | hanumanji_telegram.py:84-86 | one step for every stored id, each once, in any order, is the daily advance of the whole table |
| Progress.RepeatedAdvanceBounded | hanumanji_whatsapp.py:44-50 | back-to-back steps never lower a day and raise it by at most one per step |
| Progress.RepeatedAdvanceContiguous | hanumanji_whatsapp.py:44-50 | when the catalog holds the next `k` days, `k` steps move the recipient exactly `k` days on |
| Progress.ExhaustedStaysPut | hanumanji_whatsapp.py:48-59 | once the catalog has no next day, any number of further steps leaves the table as it is |
| Progress.ProgressStore.constructor | hanumanji_whatsapp.py:20-26 | on a fresh database file, `init_db` creates a table with no rows (a restart on an existing file keeps its rows; see "Left out") |
| Progress.ProgressStore.Get | hanumanji_whatsapp.py:28-34 | a stored id reads its stored day; an id with no row reads 0 |
| Progress.ProgressStore.Save | hanumanji_whatsapp.py:36-41 | create-or-replace: the id maps to the new day and no other row changes |
| Progress.ProgressStore.Ids | hanumanji_telegram.py:37-43 | every stored id exactly once, and nothing else |
| Progress.ProgressStore.Rows | hanumanji_whatsapp.py:107-111 | every stored row exactly once, each with its stored day |
| Channel.Attempts | hanumanji_telegram.py:76-80 | reference definition of the log of a loop over messages: one attempt per message, in order; its length is the number of messages, and `AttemptsAt` gives each entry |
| Channel.AttemptsAt | hanumanji_telegram.py:76-80 | a loop that carries on after failures logs, as its i-th attempt, the send of the i-th message, delivered exactly when the oracle lets it through |
| Channel.FirstFailure | hanumanji_whatsapp.py:76-81 | names the first send that fails, and every send before it went through |
| Channel.NextAttempt | hanumanji_whatsapp.py:76-81 | one more send after a run of successes extends the log by one, and if it fails it is the first failure |
| Channel.OneUnreachableRecipient | hanumanji_telegram.py:76-80 | when only sends to one recipient `k` fail, a loop over distinct recipients that carries on delivers to all of them but `k` |
| Channel.Outbox.Send | hanumanji_whatsapp.py:128-132 | one send: its outcome is the oracle's answer for this position, and it is appended to the log |
| Channel.Outbox.SendUntilFailure | hanumanji_whatsapp.py:76-81 | sends in order and stops at the first failing send; the result and the log agree with `FirstFailure` and `Attempts` |
| Channel.Outbox.SendEach | hanumanji_telegram.py:76-80 | sends every message in order whatever fails; the log agrees with `Attempts` |
| Push.PushEachStep | hanumanji_telegram.py:85-88 | one turn of a daily push over distinct recipients adds exactly one step and one attempt, and the recipient still had its starting day |
| Push.PushStep | hanumanji_whatsapp.py:113-132 | one turn of a push that stops at the first failure either keeps the loop going or ends it with exactly that failure, its step already taken |
| Push.PushTurn | hanumanji_whatsapp.py:114-132 | the same turn, written as the loop performs it: commit `day+1` if the catalog has it, then send |
| Push.PushEachTurn | hanumanji_telegram.py:85-88 | the same turn for a push that carries on after a failure |
| Push.PushDone | hanumanji_whatsapp.py:113 | a push whose every turn went through has finished |
| Push.PushOutcomeAt | hanumanji_whatsapp.py:113-132 | a push that stops at the first failing send logged one attempt per recipient reached, the j-th being the j-th message, delivered exactly when it came before the failing one |
| Push.PushStopsAtHead | hanumanji_whatsapp.py:113-132 | if the very first send fails, exactly that recipient has stepped, one failed attempt is logged, and nothing else happened |
| Push.PushEachIsolates | hanumanji_telegram.py:84-90 | with only recipient `k` unreachable, a push that carries on steps every recipient and delivers to all but `k` |
| WhatsApp.SpaceRunFrom | hanumanji_whatsapp.py:63 | the scan from the left passes only whitespace and stops at the first non-whitespace character or the end |
| WhatsApp.SpaceRunBack | hanumanji_whatsapp.py:63 | the scan from the right passes only whitespace and stops after the last non-whitespace character, or where the left scan stopped |
| WhatsApp.SpaceRunFromIs | hanumanji_whatsapp.py:63 | the left scan's stopping point is unique: any index with only whitespace before it and none at it is where the scan stops |
| WhatsApp.SpaceRunBackIs | hanumanji_whatsapp.py:63 | the right scan's stopping point is unique in the same way |
| WhatsApp.Strip | hanumanji_whatsapp.py:63 | the result neither starts nor ends with whitespace, and it is empty only for an all-whitespace input |
| WhatsApp.StripIdempotent | hanumanji_whatsapp.py:63 | text with no surrounding whitespace is left unchanged by stripping, so stripping is idempotent |
| WhatsApp.StripExact | hanumanji_whatsapp.py:63 | stripping whitespace-surrounded trimmed text gives back exactly that text |
| WhatsApp.Lower | hanumanji_whatsapp.py:65 | `lower()` character by character: same length, each ASCII capital lowered, every other character kept |
| WhatsApp.IsCommand | hanumanji_whatsapp.py:65 | `lower().startswith("broadcast ")`: the text is at least as long as the prefix and its first characters lower to the prefix one by one |
| WhatsApp.ParseBroadcast | hanumanji_whatsapp.py:63-66 | a payload comes back exactly when the stripped message is a command; the payload is itself stripped and shorter than the message |
| WhatsApp.ParsedPayloadNonEmpty | hanumanji_whatsapp.py:63-66 | a recognised command always has a non-empty, trimmed payload |
| WhatsApp.CommandLeavesPayload | hanumanji_whatsapp.py:65-66 | a trimmed text that starts with the prefix goes on past it, and not with whitespace only |
| WhatsApp.PrefixMakesCommand | hanumanji_whatsapp.py:65-66 | any case spelling of `"broadcast "` followed by anything is recognised as the command, and what remains after the prefix is exactly what followed |
| WhatsApp.ParseBroadcastOf | hanumanji_whatsapp.py:63-66 | round trip: any case spelling of `"broadcast "`, then any whitespace, then a non-empty trimmed payload, all surrounded by any whitespace, parses back to exactly that payload |
| WhatsApp.StepReply | hanumanji_whatsapp.py:48-59 | the reply of `get_next_message` for a phone at day `d`; its meaning is stated in `StepReplyCompletion` |
| WhatsApp.DailyText | hanumanji_whatsapp.py:115-126 | the morning message is the greeting followed by `get_next_message`'s reply when `day{d+1}` exists, and exactly the completion text otherwise |
| WhatsApp.StepReplyCompletion | hanumanji_whatsapp.py:48-59 | the reply and the morning message (`hanumanji_whatsapp.py:115-126`) are the completion text exactly when `day{d+1}` is missing; otherwise the reply announces day `d+1`, and so does the morning message after its greeting |
| WhatsApp.CompletionIsIdempotent | hanumanji_whatsapp.py:58-59 | once exhausted, repeated steps leave the table unchanged and keep replying with the completion text |
| WhatsApp.GetNextMessage | hanumanji_whatsapp.py:44-59 | the table takes one progression step, and the reply is the verse of the next day or the completion text |
| WhatsApp.HandleAdminMessage | hanumanji_whatsapp.py:62-84 | text that is not a broadcast command is answered "not recognized" and sends nothing; a command broadcasts its payload; the table is never written |
| WhatsApp.BroadcastToAll | hanumanji_whatsapp.py:68-82 | every stored phone is listed once and sent the tagged payload in turn until the first failing send; the confirmation comes back only when none failed |
| WhatsApp.AdminBroadcastSends | hanumanji_whatsapp.py:75-82 | the log holds one tagged attempt per phone reached, in order; the confirmation comes back exactly when every stored phone was delivered the text |
| WhatsApp.SendDailyVerse | hanumanji_whatsapp.py:106-132 | reads every row once, then pushes the morning messages until the first failing send; the table and log are exactly those the push specification gives |
| WhatsApp.PushDaily | hanumanji_whatsapp.py:113-132 | the loop over the snapshot meets the push specification for the snapshot's messages |
| WhatsApp.DailyTurn | hanumanji_whatsapp.py:114-132 | one turn: the next day is committed when the catalog has it, before the send, and then the morning message is sent |
| WhatsApp.DailyVerseProgress | hanumanji_whatsapp.py:113-117 | phones reached, the failing one included, moved one step; later phones kept their day; no row was added or lost; a finished push is the daily advance |
| WhatsApp.DailyVerseSends | hanumanji_whatsapp.py:118-132 | one attempt per phone reached, in order, carrying the morning message for the day it had when the push began; all went through but the failing one |
| WhatsApp.UnguardedDailyStops | hanumanji_whatsapp.py:128-132 | if the first phone's send fails, the push ends there: no other phone is sent anything or moves on |
| WhatsApp.SendDailyVerseIsolated | hanumanji_whatsapp.py:113-132 | the daily push with each send's failure contained: every phone takes its step and is sent its message |
| WhatsApp.IsolatedDailyReachesOthers | hanumanji_whatsapp.py:113-132 | with failures contained, one unreachable phone loses only its own message, and every phone moves on once |
| Telegram.StepReply | hanumanji_telegram.py:49-60 | the reply of `get_next_message` for a chat at day `d`; its meaning is stated in `StepReplyCompletion` |
| Telegram.StepReplyCompletion | hanumanji_telegram.py:49-60 | the reply is the completion text exactly when `day{d+1}` is missing, and otherwise announces day `d+1` |
| Telegram.CompletionIsIdempotent | hanumanji_telegram.py:59-60 | once exhausted, repeated steps leave the table unchanged and keep replying with the completion text |
| Telegram.GetNextMessage | hanumanji_telegram.py:46-60 | the table takes one progression step, and the reply is the verse of the next day or the completion text |
| Telegram.Register | hanumanji_telegram.py:64 | writing back a chat's own day stores the chat, at 0 if it was new, and changes no existing day |
| Telegram.Start | hanumanji_telegram.py:62-66 | registers the chat, then takes one progression step; the replies are the welcome text and then the step's reply |
| Telegram.StartRegisters | hanumanji_telegram.py:62-66 | after /start the chat is stored and has moved one step from its day (0 if new), and every other chat is as it was |
| Telegram.Join | hanumanji_telegram.py:75 | `" ".join(args)`: the words with one space between each pair; `SplitJoin` proves it loses no word |
| Telegram.SplitJoin | hanumanji_telegram.py:75 | round trip: blank-free words joined by single spaces split back into the same words |
| Telegram.BroadcastCommand | hanumanji_telegram.py:69-75 | only the admin chat with at least one word gets through; a non-admin gets "not authorized", and an admin without words gets the usage text |
| Telegram.BroadcastPayloadWords | hanumanji_telegram.py:72-75 | an accepted payload carries every word of the command, in order |
| Telegram.Broadcast | hanumanji_telegram.py:68-81 | a refused command replies and sends nothing; otherwise every stored chat is sent the tagged payload once, failures do not stop the loop, and the reply is the confirmation; the table is never written |
| Telegram.BroadcastReachesOthers | hanumanji_telegram.py:76-80 | with only chat `k` unreachable, every other stored chat receives the broadcast |
| Telegram.SendDaily | hanumanji_telegram.py:84-90 | every stored chat takes one progression step and is then sent its reply, whatever became of earlier sends |
| Telegram.SendDailyOutcome | hanumanji_telegram.py:84-90 | after the push, every chat has moved exactly one step, no row is added or lost, and the log holds one attempt per chat, in order, with that chat's reply |
| Telegram.SendDailyReachesOthers | hanumanji_telegram.py:84-90 | with only chat `k` unreachable, every other stored chat receives its daily message |

## Left out

- The Flask webhook and its verify-token handshake (`hanumanji_whatsapp.py:87-102`) are HTTP plumbing, and the POST handler parses nothing.
- The Twilio client and the Telegram bot are foreign network clients. Each is an `Outbox` whose failures an open oracle decides. Error kinds (transient or permanent) and timeouts are not distinguished, because the code treats every exception alike.
- SQLite and the open/close of each connection are not modelled. The table is a map with one row per id.
- Store reads and writes are assumed never to fail. In the code a `sqlite3` exception from `get_progress` or `save_progress` propagates. In Telegram's `send_daily` the call `get_next_message(user)` (`hanumanji_telegram.py:86`) is outside the `try`, so a store fault would end that loop. The failure isolation proved for Telegram covers send failures only.
- `init_db` is modelled only for a fresh database file, where it creates an empty table (`ProgressStore.constructor`). `CREATE TABLE IF NOT EXISTS` keeps an existing file's rows across a restart, and the model starts from whatever table it is given. The NULL and negative days that the schema would allow are not modelled, because the code only ever writes days it computed from 0.
- The scheduler, its cron time and time zone, `run_polling` and `app.run` are runtime glue.
- `async`/`await` is left out, and so is any interleaving of the daily tick with inbound commands. Every operation is atomic and sequential.
- Environment configuration is not modelled. The admin chat id is the parameter `adminId` of `Telegram.Broadcast`, so the `int()` parse of `ADMIN_ID` is left out. `ADMIN_NUMBER` is read but never compared, and the WhatsApp admin handler has no sender gate in the code, so none is modelled.
- The Telegram replies sent with `reply_text` are returned as strings. They do not go through an outbox, so their failures are not modelled. The `print` of a caught send failure is not modelled either.
- The contents of `verses.py` are not part of this model. The catalog is any map from keys to verses.
- WhatsApp.Lower: covers ASCII letters only, where Python's `lower()` covers all of Unicode. For the one use, a test against the ASCII prefix `"broadcast "`, this is exact. The only non-ASCII letters that Python lowers to ASCII are the Kelvin sign (to `k`) and the dotted capital I (to `i` plus a combining dot). Neither `k` nor `i` occurs in the prefix.
- WhatsApp.DailyMessages: its own contract only gives the length. What each message is is stated where it is used, in `WhatsApp.DailyVerseSends`.
- Telegram.DailyMessages: the same, stated in `Telegram.SendDailyOutcome`.
- The system's design description asks for several things the code does not do. The model follows the code in each case:
  - It keeps "no row" apart from "day 0"; the code reads both as day 0, and so does `Progress.Lookup`.
  - It normalises an admin identity before comparing; the code compares the chat id as is and has no WhatsApp gate.
  - It asks for summary counts of deliveries and failures; the code reports none.
  - It asks the daily push to contain each failure; the WhatsApp code does not (see Findings).

## Findings

| source | as written | input that shows it | evidently intended | confidence | as-written member | corrected member |
|---|---|---|---|---|---|---|
| hanumanji_whatsapp.py:128-132 | the daily push calls the client outside any `try`, so the first failing send ends the loop | two stored phones, and the send to the first one in the snapshot fails: the second phone is never sent its verse and does not move on | each phone's failure contained, as `send_daily` in hanumanji_telegram.py:87-90 does it | medium, not executed | WhatsApp.UnguardedDailyStops | WhatsApp.IsolatedDailyReachesOthers |
