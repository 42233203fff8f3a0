# g0wm verification

A Dafny model of the self-contained parts of the g0wm compositor that hold a
state machine, a parser, a byte-level codec or arithmetic with a law to keep,
and proofs of those laws. `dafny verify dfyconfig.toml` checks all of it.

| area | files |
|---|---|
| notification server | Notifications (transition system), NotificationBalance, NotificationInvariant, NotificationDrain, NotificationClock, NotificationHistory (laws over all runs), NotificationEffects (what each operation does to screen, queue, history and bus), NotificationServer (the object with its arrays, timer and counters) |
| notification text | Sanitizer, Markup (definitions and round trips), SanitizerLaws, MarkupLaws (what is no valid text or markup), MarkupWriter |
| UTF-8 | Utf8 (encoder), Utf8Decoder (the table-driven decoder), TextDrawing (the loop that draws and measures), DrawingLaws (damaged text and widths) |
| command prompt | LineEditor (lines of codepoints), LineEditorLaws (laws between keys), Prompt (the byte buffer) |
| calculator | Calculator (parser as functions), CalculatorGrammar (expression trees), CalculatorValue (what numbers and operators are worth), CalculatorParser (the moving cursor) |
| runner candidates | Match (the scan and the ranking), MatchScore (what a score is worth) |
| status bar | StatusStream, StatusLines, StatusReader (reading lines), StatusMarkup, StatusEscapes, StatusWalk (escapes, drawing and clicking) |
| windows | LinkRing, ClientOrder, ClientOrderLaws (the client list), TileLayout, TileLaws, Tiling (geometry and tabs), Division |
| blur | Pixels, Blur (definition), BlurLaws (wallpapers of rows and of columns), BlurBuffers (sliding sums and swapped buffers) |
| input method | InputMethod (transition system), InputMethodService (who is served and told what), TextInput (the bridge), KeyRouting (presses and releases) |

Code that changes state in place is modelled by classes and loops over arrays;
each such method is proved to take the state where a function says, and the
laws are lemmas about those functions and their runs. What an operation answers
is said apart from how it is computed: a score by the places of the letters, a
quotient by its product with the divisor, a key by the other keys, an escape by
the text it is written as. The event loop's answers
to the notification server, the clock, the glyph widths, the rounded width of
the master column and the order of events are parameters, so everything holds
for all of them.

## What the proofs found

Places where the code does not keep what it or its comments promise. The code
is modelled as it is; for each there is a run or an input that shows it, and
the exact condition under which the promise is kept is proved.

- Dismissing all notifications does not end a hold
  (src/desktop/notify/queue.c:212-229). Called during a hold it leaves the
  server held with an empty screen, and no later event ever shows anything
  again (`HeldAndDismissedSticks`, `StuckForever`). The server is in order all
  along a run exactly when no dismissal of all comes while a hold is on
  (`SettledExactlyWhenConsiderate`). Nothing in the
  program sees to it: while the action picker holds a notification, a key
  binding of notifydismissall is swallowed (src/input/keyboard.c:212-218), but
  a gesture (src/input/gesture.c:60-65), a tablet pad button
  (src/input/tablet.c:209-216) or a pointer button
  (src/input/pointer.c:223-231) bound to it runs it all the same
  (src/desktop/bar/notification.c:602-609), so the state can be reached.
- A client may pick any id with replaces_id, and the counter does not know of
  it (src/desktop/notify/message.c:427-441). A later sender that asks for a new
  id can then overwrite that client's notification, which is not told
  (`FreshIdTakesOver`, `FreshIdOverwrites`). Its Notify brings a new live id
  exactly when the counter's next value is not live (`FreshIdIsNew`).
- A history entry for the same id or stack tag is to be replaced
  (src/desktop/notify/queue.c:46-48), but only the first that matches is, and
  one entry may match by its id and another by its tag
  (`TwoEntriesForOneId`). A push keeps the history at one entry a slot exactly
  when that is not so (`PushKeepsSlotsApart`).
- A hold that begins after the deadline gives back the lateness and 1 ms
  (src/desktop/notify/queue.c:283-286), so a notification can stay longer than
  its timeout plus 1 ms a late hold (`FiveMillisecondsLate`). It does not
  exactly when no hold begins after its deadline (`UnheldTimeIsTheTimeout`).
- A release is to go where its press went, so that neither side is left with a
  key that stays down (src/input/textinput.c:450-451). For the client that
  holds (`TakenAndLeftInTurn`). On the other side a key goes to the grab that
  is there now (src/input/textinput.c:454, 472-474), and nothing forgets the
  presses a grab got when it goes (src/input/textinput.c:382-391). A release
  that finds no grab, as when the screen is locked while the key is held
  (src/input/textinput.c:438, 468-470), is sent to nobody: the key stays down
  for the input method, which is next sent another press
  (`GrabLostLeavesKeyDown`). A release that finds the grab of another input
  method is sent to that one, which never had the press
  (`OtherGrabGetsRelease`). Every grab sees a key in turn and up at the end
  exactly when each press that found a grab has its release find the same one
  (`GrabsSeeKeyInTurn`, `NoKeyStaysDown`).
- A press of a key that is already down can send its release the other way
  (`SecondPressMisroutes`); it does exactly when the first press was taken and
  the second found no grab (`ReleaseFollowsPress`). With no such press it never
  does (`EveryReleaseFollowsItsPress`).
- Moving the last client up when nothing before it is visible inserts it after
  itself: it drops out of the client list as a ring of its own
  (src/window/layout.c:124-137; `OnlyVisibleIsLost`). A move up keeps every
  client in all other cases and only there (`MoveUpKeepsAll`).
- The calculator's depth limit can be reached within the prompt, against the
  comment at src/desktop/runner/calc.c:32-34: 64 parentheses around a digit
  take 129 bytes (`LimitIsReachable`). Expressions are answered exactly when
  they nest at most 64 deep (`AnswersExpressions`).
- The digits of a colour are to be hex digits, but setting bit 0x20
  (src/desktop/bar/status.c:88-92) makes digits of ten control bytes too: six
  bytes 0x10 are taken for 000000 (`ControlBytesColour`). The bytes taken are
  the hex digits and 0x10 to 0x19 exactly (`DigitsAndTheirShadows`).

One thing more to know of the layout: with no masters the stack starts at the
left edge of the area without a gap (src/window/layout.c:331-335, 362), and
`ExactTiling` says so.

Bytes are integers from 0 to 255, C strings sequences without a NUL, shifts and
masks divisions and remainders. The UTF-8 encoder and decoder follow sections 3
and 4 of RFC 3629, the server's signals the D-BUS Protocol section of the
Desktop Notifications Specification 1.2.

## Model

| member | source | states |
|---|---|---|
| `NotificationInvariant.EveryRunSound` | src/desktop/notify/queue.c:49-317 | whatever clients, user, clock and event loop do, after every run: queue and history hold at most 32, every entry has a non-zero id and is critical exactly when it never expires, the shown one is marked seen, live ids differ, and every id and icon that came in was closed or destroyed as often as it came in, less once for each owner it has now |
| `NotificationInvariant.StartSound` | src/desktop/notify/notify.c:32-67 | the server starts with those facts true, running or not, so every run from a start has them |
| `NotificationInvariant.LiveIdsDiffer` | src/desktop/notify/message.c:427-476 | no two live notifications, queued or on screen, share an id, though clients may pick ids themselves |
| `NotificationInvariant.ConsiderateRunSettled` | src/desktop/notify/queue.c:138-173 | a run with no dismiss-all during a hold ends with something on screen if there is a hold or anything queued |
| `NotificationInvariant.SettledExactlyWhenConsiderate` | src/desktop/notify/queue.c:138-229 | all along a run a hold means something is on screen and an empty screen an empty queue, exactly when no dismiss-all comes during a hold |
| `NotificationInvariant.AlwaysSettledIsEveryPrefix` | src/desktop/notify/queue.c:138-229 | all along a run is at the start and after each of its events |
| `NotificationInvariant.HeldAndDismissedSticks` | src/desktop/notify/queue.c:212-290 | a run from the start, a notification shown, held and all dismissed, that ends with the hold on and nothing on screen |
| `NotificationInvariant.DismissAllTidy` | src/desktop/notify/queue.c:212-229 | dismissing everything empties screen and queue, and leaves a settled server settled exactly when no hold was on |
| `NotificationInvariant.DismissAllWhileHeldSticks` | src/desktop/notify/queue.c:212-229 | dismissing everything during a hold leaves the hold on with nothing on screen |
| `NotificationInvariant.StuckForever` | src/desktop/notify/queue.c:276-281 | from then on no run of events ever puts anything on screen again |
| `NotificationInvariant.StopSettlesAll` | src/desktop/notify/notify.c:69-93 | after a stop nothing is owned: every id that ever became live was closed and every icon created was destroyed, each exactly as often |
| `NotificationInvariant.StopEmpties` | src/desktop/notify/notify.c:69-93 | after a stop nothing is shown, queued or kept |
| `NotificationInvariant.ReceiveBalances` | src/desktop/notify/message.c:427-477 | a Notify adds one arrival only for an id that was not live, its icon always counts, and what it replaces or covers is settled or kept |
| `NotificationInvariant.UpdateIsSilent` | src/desktop/notify/message.c:446-456 | an update in place sends no signal, except when it is for the notification on screen and showing it again fails |
| `NotificationInvariant.FreshIdIsNew` | src/desktop/notify/message.c:437-477 | a Notify that asks for a new id brings a new live id exactly when the counter's next value is not the id of a live notification |
| `NotificationInvariant.FreshIdOverwrites` | src/desktop/notify/message.c:437-456 | when that value is live, the new sender's notification stands in the place of the one that had it, on screen when showing works or in the queue; no signal is sent and the history is not touched, so its client is not told |
| `NotificationInvariant.FreshIdTakesOver` | src/desktop/notify/message.c:437-453 | a run in which a client picked id 1 and the next sender, asking for a new id, has its own content on screen under id 1, the first one neither queued nor kept and nothing sent to its client |
| `NotificationInvariant.ResumeKeepsTime` | src/desktop/notify/queue.c:312-316 | after a release without promotion the start time plus the timeout is now plus what was left, and the subtraction never wraps |
| `NotificationInvariant.HoldTidy` | src/desktop/notify/queue.c:276-317 | a hold or a release keeps the stores and the shown entry in order, the time left within the timeout included |
| `NotificationBalance.HoldBalances` | src/desktop/notify/queue.c:276-317 | a hold, a release and a promotion neither lose nor duplicate an id or an icon |
| `NotificationBalance.DismissAllBalances` | src/desktop/notify/queue.c:212-229 | every live id is closed as often as it was live and none is left; no icon is lost or duplicated |
| `NotificationBalance.CloseByIdBalances` | src/desktop/notify/message.c:495-513 | what is closed by its id gets its signal and its icon is destroyed, and nothing else is lost or duplicated |
| `NotificationBalance.EnqueueTakes` | src/desktop/notify/queue.c:83-102 | queueing takes over the notification's id and icon whole, and what a full queue gives up is closed once |
| `NotificationBalance.PushHistoryKeeps` | src/desktop/notify/queue.c:49-72 | a push owns the entry's icon or destroys it, and destroys the icon of the entry it takes out |
| `NotificationBalance.ActionSignalsFree` | src/desktop/notify/queue.c:233-250 | the signals of an action close nothing |
| `NotificationDrain.NextHeadsDrainOrder` | src/desktop/notify/queue.c:143-148 | what comes up next is the head of the order unseen criticals, then expiring ones, then criticals already seen, each in queue order, and the rest keeps that order |
| `NotificationDrain.EveryQueuedIsShown` | src/desktop/notify/queue.c:136-173 | with working timers and no arrivals, as many clears as there are queued entries show every one of them once, in that order |
| `NotificationDrain.ClearShowsNext` | src/desktop/notify/queue.c:157-173 | with a working timer a clear shows exactly the entry chosen next, or empties the screen when nothing waits |
| `Notifications.ShowQueuedShrinks` | src/desktop/notify/queue.c:142-153 | each round of the showing loop takes an entry out of the queue even when showing fails, so the loop ends |
| `NotificationClock.EveryRunOnTime` | src/desktop/notify/queue.c:111-134 | on every run with working timers the timer is set for the end of the shown notification's time, and for nothing when it never expires or is held |
| `NotificationClock.StartOnTime` | src/desktop/notify/notify.c:32-67 | so it is at the start, with an event loop that always gives the timer |
| `NotificationClock.HoldOnceKeepsTime` | src/desktop/notify/queue.c:276-317 | one hold and release leave the time left as it was when the hold began, but for a hold begun at or past the deadline, which gives back the lateness and 1 ms |
| `NotificationClock.HoldsKeepTime` | src/desktop/notify/queue.c:276-317 | over any number of holds the time spent outside them plus the time left is the time at the start plus what late holds gave back |
| `NotificationClock.LateHoldsGiveBack` | src/desktop/notify/queue.c:283-286 | holds begun at or past the deadline give back 1 ms each at least, and no more than that exactly when none begins after its deadline |
| `NotificationClock.UnheldTimeIsTheTimeout` | src/desktop/notify/queue.c:276-317 | the time unheld until expiry is the time left plus at most 1 ms for each hold begun at or past the deadline exactly when no hold begins after it |
| `NotificationClock.LateHoldOverstays` | src/desktop/notify/queue.c:283-316 | whatever is shown, a hold begun late by some milliseconds makes it stay that many and one more |
| `NotificationClock.FiveMillisecondsLate` | src/desktop/notify/queue.c:283-316 | such a run from the start: shown for 5 s, held 5 ms late, it stays 5006 ms |
| `NotificationServer.Server.constructor` | src/desktop/notify/notify.c:32-67 | an empty server with the default timeout brought into its bounds, sound and settled, running exactly when it got the name and the path |
| `NotificationServer.Server.PushHistory` | src/desktop/notify/queue.c:49-72 | the array form, with its shifting loops, takes the history exactly where the specification does: transient ones are dropped, the first entry for the same slot or else the oldest of a full history goes, the new one leads |
| `NotificationServer.Server.RemoveHistory` | src/desktop/notify/queue.c:195-205 | an entry is taken out and its icon destroyed, the others keep their order; an index past the end does nothing |
| `NotificationServer.Server.Unqueue` | src/desktop/notify/queue.c:74-80 | returns the entry and closes the gap, in order |
| `NotificationServer.Server.Enqueue` | src/desktop/notify/queue.c:82-102 | adds at either end; a full queue first sends its oldest expiring entry, or its head, to the history with a closing signal |
| `NotificationServer.Server.Arm` | src/desktop/notify/queue.c:111-119 | succeeds as the event loop answers, which may be no to either request; disarming without a timer succeeds |
| `NotificationServer.Server.Show` | src/desktop/notify/queue.c:121-134 | marks the current one seen and shown now, and shows it unless it needs a timer that cannot be had; under a hold it always shows, its whole time left |
| `NotificationServer.Server.ShowNext` | src/desktop/notify/queue.c:136-154 | the loop ends with something on screen or an empty queue, having dropped what could not be shown |
| `NotificationServer.Server.Clear` | src/desktop/notify/queue.c:156-173 | takes down, signals, keeps or destroys by reason and brings up the next; nothing when the screen is empty |
| `NotificationServer.Server.DismissAll` | src/desktop/notify/queue.c:212-229 | the loop dismisses the shown one and the whole queue from its head without showing any |
| `NotificationServer.Server.InvokeAction` | src/desktop/notify/queue.c:231-258 | the activation token is signalled before the action; a resident notification is released and stays, any other is dismissed |
| `NotificationServer.Server.Hold` | src/desktop/notify/queue.c:276-317 | the whole new state of a hold or release, promotion of the first unseen critical over a non-critical one included |
| `NotificationServer.Server.ReadRequest` | src/desktop/notify/message.c:396-408 | the timeout in force: none for a critical, the default for what is not positive, at most 60 s |
| `NotificationServer.Server.ChooseId` | src/desktop/notify/message.c:427-441 | the id asked for, else that of a live one with the same app and stack tag, else the counter's next value, never 0 |
| `NotificationServer.Server.Receive` | src/desktop/notify/message.c:427-477 | the whole dispatch: update on screen, update in the queue, queue during a hold, cover, or wait |
| `NotificationServer.Server.CloseById` | src/desktop/notify/message.c:495-513 | closes the shown or the queued one with that id, id 0 never a queued one, or nothing |
| `NotificationServer.Server.Stop` | src/desktop/notify/notify.c:69-93 | drains queue, screen and history and gives the timer back, once |
| `NotificationServer.Server.SetDefaultTimeout` | src/desktop/notify/notify.c:95-100 | the default timeout in milliseconds lies between 1 s and 60 s |
| `NotificationServer.Server.Serve` | src/desktop/notify/queue.c:49-317 | any run of events, one method call each, ends in the state the transition system gives, so all that is proved of its runs holds of the program |
| `NotificationEffects.NewTakesTheBox` | src/desktop/notify/message.c:460-474 | with no hold a critical, or any new one over a free or a sticky box, is on screen at once, and what it covers leads the queue |
| `NotificationEffects.NewWaits` | src/desktop/notify/message.c:457-477 | under a hold, or non-critical over an expiring one, a new one waits: a held critical at the front of the queue, any other at its end |
| `NotificationEffects.UpdateKeepsItsPlace` | src/desktop/notify/message.c:446-456 | an update stands where the old one stood, on screen or in the queue, and nothing else moves |
| `NotificationEffects.FullQueueGivesUpOne` | src/desktop/notify/queue.c:82-102 | a full queue closes its oldest expiring entry, or its head if none expires, which leads the history |
| `NotificationEffects.PushLeads` | src/desktop/notify/queue.c:49-72 | what is pushed leads the history; the first entry for its slot, or the oldest of a full one, goes, and the rest keep their order |
| `NotificationEffects.ClearTells` | src/desktop/notify/queue.c:156-170 | a clear sends one closing signal with its reason and keeps the notification in the history unless its client closed it |
| `NotificationEffects.EachEventHasItsReason` | src/desktop/notify/queue.c:104-210 | the timer closes as expired, the user as dismissed, the client as closed by call |
| `NotificationEffects.QueuedIsClosed` | src/desktop/notify/message.c:506-513 | a queued one closed by its client leaves its signal and nothing else, and the others keep their order |
| `NotificationEffects.DismissAllTells` | src/desktop/notify/queue.c:212-226 | dismissing all signals the shown one and then the queued ones in order, each as dismissed |
| `NotificationEffects.StopTells` | src/desktop/notify/notify.c:69-93 | a stop signals the queued ones in order and then the shown one, each with the reason undefined |
| `NotificationEffects.UnshownIsDropped` | src/desktop/notify/message.c:470-474 | one that cannot be shown is closed with the reason undefined and leads the history |
| `NotificationEffects.ActionDismisses` | src/desktop/notify/queue.c:233-258 | an action is told of, after its activation token, and then dismisses a notification that is not resident |
| `NotificationEffects.ResidentStays` | src/desktop/notify/queue.c:251-254 | a resident one stays on screen, unheld, with no closing signal, unless a critical waits to take the box at the release |
| `NotificationEffects.OpeningRunsTheDefault` | src/desktop/notify/queue.c:260-268 | opening runs the action "default" if there is one, and dismisses |
| `NotificationEffects.PickedActionIsRun` | src/desktop/notify/queue.c:270-274 | picking an action runs it by its own key |
| `NotificationEffects.HoldKeepsTheBox` | src/desktop/notify/queue.c:282-289 | a hold leaves everything in place and stops the timer |
| `NotificationEffects.ReleasePromotes` | src/desktop/notify/queue.c:292-310 | at a release the first unseen critical takes the box from a non-critical one, which leads the queue |
| `NotificationEffects.ReleaseKeepsTheBox` | src/desktop/notify/queue.c:292-316 | with no such critical, or a critical shown, the box and the queue stay as they are |
| `NotificationEffects.TimeoutAskedFor` | src/desktop/notify/message.c:396-406 | a timeout asked for is used up to 60 s, the default when none is, and no timeout for a critical |
| `NotificationEffects.TagUpdatesTheShown` | src/desktop/notify/message.c:427-453 | a Notify with the app and stack tag of what is shown takes its place and id, whatever is queued, and the counter stays |
| `NotificationEffects.TagUpdatesTheQueued` | src/desktop/notify/message.c:433-435 | with none such shown it gets the id of the first queued one with its app and tag |
| `Utf8.PutCodepoint` | src/core/util.c:58-82 | writes the codepoint's UTF-8 and returns its length when it is a codepoint and fits with a byte to spare, and touches nothing otherwise |
| `Utf8Decoder.LookUp` | external/drwl.h:51-79 | both lookups stay inside the 364 entries and give the byte's class and the next state |
| `Utf8Decoder.Decode` | external/drwl.h:68-79 | one step of the table decoder, its shift and masks as arithmetic |
| `TextDrawing.DrawText` | external/drwl.h:223-280 | with rendering off the loop moves on and ends on every byte string; it puts down the decoded codepoints, U+FFFD for an ill-formed piece, that have glyphs, up to the first too wide, and returns where the pen is |
| `TextDrawing.DrawnIsPrefix` | external/drwl.h:233-258 | what is put down is a beginning of the codepoints that have glyphs |
| `TextDrawing.EncodedIsDrawn` | external/drwl.h:223-273 | text that the encoder wrote, on enough room, is put down codepoint by codepoint but for those without a glyph |
| `Utf8Decoder.ScanReadsEncoding` | external/drwl.h:68-79 | the decoder accepts an encoding with its last byte and not before, and has the codepoint |
| `Utf8Decoder.AcceptedIsEncoded` | external/drwl.h:51-79 | whatever the decoder accepts is the encoding of the codepoint it gives: no overlong form, no surrogate, nothing past U+10FFFF (section 4 of RFC 3629) |
| `Utf8Decoder.RoundTrip` | src/core/util.c:58-82 | drawing any codepoints the encoder took draws exactly those codepoints |
| `Utf8Decoder.WellFormedIffEncoded` | external/drwl.h:223-231 | a text draws without any ill-formed piece exactly when it is the UTF-8 of some codepoints, and those are what is drawn |
| `DrawingLaws.DamageStaysLocal` | external/drwl.h:223-231 | whatever bytes a text starts with, they draw as they would alone, and the UTF-8 behind them draws in full |
| `DrawingLaws.PieceTakesOneLead` | external/drwl.h:223-231 | one round of the loop takes no byte that begins a character but as its first |
| `DrawingLaws.ExampleOfTheStandard` | src/core/util.c:58-82 | the first example of section 7 of RFC 3629 is encoded as printed there |
| `DrawingLaws.WidthIsSum` | external/drwl.h:237-273 | the width of a text is the sum of the advances of what is drawn and of the kerning between |
| `DrawingLaws.DrawnUntilFull` | external/drwl.h:237-273 | with no negative advance or kerning, what is drawn fits the room and the first codepoint left out would not have |
| `Prompt.Buffer.Prev` | src/desktop/runner/runner.c:129-136 | from a character's start to the start of the one before, 0 at the start |
| `Prompt.Buffer.Next` | src/desktop/runner/runner.c:138-145 | from a character's start to the next start or the end |
| `Prompt.Buffer.CutBytes` | src/desktop/runner/runner.c:147-153 | cutting between two character starts cuts exactly those codepoints, terminator kept |
| `Prompt.Buffer.Type` | src/desktop/runner/runner.c:430-448 | a printable codepoint that fits goes in at the cursor, anything else leaves the buffer alone |
| `Prompt.Buffer.EraseWord` | src/desktop/runner/runner.c:360-369 | the byte-wise search for the word's start cuts the codepoints the line editor says |
| `Prompt.Buffer.PressKey` | src/desktop/runner/runner.c:336-449 | after each editing key the buffer is the UTF-8 of the edited line with a terminator at its length of at most 255, and the cursor is where a character starts or at the end |
| `Prompt.Buffer.PressKeys` | src/desktop/runner/runner.c:336-449 | the same after every run of keys |
| `LineEditor.TypingIsUndone` | src/desktop/runner/runner.c:379-448 | typing a codepoint that fits and then Backspace is the identity |
| `LineEditor.CutWordTakesAWord` | src/desktop/runner/runner.c:360-369 | Ctrl-W takes the blanks before the cursor and the word before them, up to a blank or the start |
| `LineEditorLaws.BackspaceIsLeftDelete` | src/desktop/runner/runner.c:379-389 | Left and then Delete is Backspace: the character left of the cursor goes |
| `LineEditorLaws.DeleteIsRightBackspace` | src/desktop/runner/runner.c:379-393 | Right and then Backspace is Delete: the character right of the cursor goes |
| `LineEditorLaws.LeftAndRight` | src/desktop/runner/runner.c:386-393 | Left and Right undo each other inside the line and do nothing at its ends |
| `LineEditorLaws.HomeAndEnd` | src/desktop/runner/runner.c:402-409 | typing after Home puts the character before the text, after End behind it |
| `LineEditorLaws.TypedAtTheCursor` | src/desktop/runner/runner.c:430-446 | what is typed stands right before the cursor, between what stood on both its sides |
| `LineEditorLaws.TypedIfTaken` | src/desktop/runner/runner.c:435-440 | a character is taken exactly when it is no control, no surrogate, in range and leaves the line within 255 bytes |
| `LineEditorLaws.WipeEmpties` | src/desktop/runner/runner.c:348-351 | Ctrl-C empties the line |
| `LineEditorLaws.CutWordCuts` | src/desktop/runner/runner.c:360-369 | Ctrl-W cuts out the blanks before the cursor and the whole word before them, and leaves the rest |
| `LineEditorLaws.BackspacesCut` | src/desktop/runner/runner.c:379-381 | n Backspaces take the n characters before the cursor |
| `LineEditorLaws.EndsAreEnds` | src/desktop/runner/runner.c:379-385 | Backspace at the start and Delete at the end do nothing |
| `CalculatorGrammar.AnswersExpressions` | src/desktop/runner/calc.c:35-194 | the calculator answers v exactly for the texts of expression trees worth v under left-associative evaluation, with no zero divisor, nested at most 64 atoms deep |
| `CalculatorGrammar.DenotedIsAnswered` | src/desktop/runner/calc.c:69-149 | any tree printed with the parentheses it needs and blanks anywhere between its parts is read back to its value |
| `CalculatorGrammar.AnsweredIsDenoted` | src/desktop/runner/calc.c:179-194 | every text that gets an answer is the text of such a tree |
| `CalculatorGrammar.ExprReads` | src/desktop/runner/calc.c:131-149 | reading a tree's text consumes exactly that text and gives the tree's value |
| `CalculatorGrammar.LimitIsReachable` | src/desktop/runner/calc.c:32-42 | 64 parentheses around a digit, 129 characters, exceed the depth limit and get no answer |
| `CalculatorGrammar.DeepParensFail` | src/desktop/runner/calc.c:35-42 | enough parentheses to pass the limit always fail |
| `CalculatorParser.Parser.ReadNumber` | src/desktop/runner/calc.c:44-67 | a number needs a digit before or after its point, and the running decimal weights give its value |
| `CalculatorParser.Parser.ReadAtom` | src/desktop/runner/calc.c:69-96 | signs, parentheses and numbers with the depth counted in and out; the moving cursor ends where the parser function says, on every text |
| `Calculator.Expr` | src/desktop/runner/calc.c:131-149 | for every text the cursor never goes back or past the end, a failure is never taken back, and success restores the depth and reads at least a character; the recursion ends |
| `Calculator.Atom` | src/desktop/runner/calc.c:69-96 | the same for an atom, past the depth limit included |
| `CalculatorParser.Parser.ReadTerm` | src/desktop/runner/calc.c:98-129 | products, quotients and truncated remainders from left to right; a zero divisor fails |
| `CalculatorParser.Parser.ReadExpr` | src/desktop/runner/calc.c:131-149 | sums and differences from left to right |
| `CalculatorParser.IsExpr` | src/desktop/runner/calc.c:151-171 | only the characters of an expression, a digit among them, and an operator where one is needed |
| `CalculatorParser.Calc` | src/desktop/runner/calc.c:179-194 | the answer for the whole text or none |
| `CalculatorGrammar.FactorApplies` | src/desktop/runner/calc.c:105-124 | the parser's operators are the arithmetic the trees are valued with: product, quotient, and dividend less the truncated quotient times the divisor |
| `CalculatorValue.QuotientTimesDivisor` | src/desktop/runner/calc.c:108-115 | a quotient times its divisor is the dividend |
| `CalculatorValue.RemainderIs` | src/desktop/runner/calc.c:116-123 | a remainder is off the dividend by a whole number of divisors, smaller than the divisor, and zero or of the dividend's sign |
| `CalculatorValue.SevenAndTwo` | src/desktop/runner/calc.c:108-123 | 7/2 is 3.5, 7%2 is 1 and -7%2 is -1 |
| `CalculatorValue.QuotientsDivide` | src/desktop/runner/calc.c:108-115 | a quotient of two expressions is answered exactly when the divisor is not 0, and times it is the dividend |
| `CalculatorValue.NumberIsDecimal` | src/desktop/runner/calc.c:44-67 | a number is worth all its digits as one decimal number, divided by ten as often as digits follow the point |
| `StatusStream.ChunkingDoesNotMatter` | src/desktop/bar/status.c:264-319 | however a stream without NULs is cut into reads, the text shown is its last complete line of at most 4094 bytes, or the old text if it has none |
| `StatusStream.AlwaysRoom` | src/desktop/bar/status.c:278-314 | after every read there is room for at least one more byte, NULs in the stream included |
| `StatusStream.ReadingOn` | src/desktop/bar/status.c:310-316 | what a stream shows depends on its past only through the line not yet complete |
| `StatusStream.FeedFollows` | src/desktop/bar/status.c:293-316 | after each read the buffer and the skipping flag stand for exactly the part of the stream since its last newline |
| `StatusReader.Input.HandleInput` | src/desktop/bar/status.c:293-318 | one read, its in-place line splitting and the move to the front, does what the specification says of a chunk |
| `StatusReader.Input.HandleAll` | src/desktop/bar/status.c:264-319 | the same for any run of reads |
| `StatusMarkup.ClicksHitWhatIsDrawn` | src/desktop/bar/status.c:106-215 | for any text and any glyph widths a pointer inside a drawn run gets the command of the area that encloses that very run, and nothing if none does |
| `StatusMarkup.AreasEnclose` | src/desktop/bar/status.c:203-212 | the command kept for a button is that of the last area opened for it and not closed since |
| `StatusMarkup.BoxesAreSpans` | src/desktop/bar/status.c:143-152 | a pixel of a drawn run belongs to the segment the pointer walk stops at |
| `StatusMarkup.StretchMoves` | src/desktop/bar/status.c:126-155 | every round of either walk moves on, on every text |
| `StatusWalk.ReadEscape` | src/desktop/bar/status.c:48-101 | the bytes an escape takes and the colours after it, for every text and place |
| `StatusWalk.DrawStatus` | src/desktop/bar/status.c:106-158 | draws the segments one after another up to the room, measures all of them, and ends on every text |
| `StatusWalk.FindCommand` | src/desktop/bar/status.c:162-215 | the pointer walk gives the command of the button at that place, cut to the buffer, and ends on every text |
| `StatusLines.LastLineIs` | src/desktop/bar/status.c:293-316 | a stream whose last newline ends a line shows that line if it has at most 4094 bytes, and else what the stream before it shows |
| `StatusEscapes.ColorEscapeSets` | src/desktop/bar/status.c:80-100 | ^c#RRGGBB^ sets the text colour and ^b#RRGGBB^ the one behind it to those channels, opaque or with the alpha of two more digits, in either case, and leaves the other |
| `StatusEscapes.ResetEscape` | src/desktop/bar/status.c:72-78 | ^d^ brings back both colours |
| `StatusEscapes.AreaEscapeOpens` | src/desktop/bar/status.c:54-63 | ^sN!command^ opens that command for button N, the first if N is left out |
| `StatusEscapes.EndEscape` | src/desktop/bar/status.c:66-69 | ^e^ and ^e!^ close every area |
| `StatusEscapes.DoubledIsLiteral` | src/desktop/bar/status.c:126-154 | text with its carets doubled, up to an escape or the end, is drawn as one run of itself; then the escape counts |
| `StatusEscapes.BoxesFill` | src/desktop/bar/status.c:143-152 | the drawn runs touch and fill the bar up to its end or that of the text |
| `LinkRing.Remove` | src/window/layout.c:136-136 | taking a link out leaves the others a well-formed ring in their order |
| `LinkRing.Insert` | src/window/layout.c:137-137 | putting a link in behind another leaves a well-formed ring with it there |
| `ClientOrder.Clients.Swap` | src/window/layout.c:234-252 | exchanges exactly the places of two clients, neighbours included, in a ring that stays well formed |
| `ClientOrder.SwapPermutes` | src/window/layout.c:234-252 | the exchange keeps every client once and all the other places |
| `ClientOrder.Clients.MoveStackDown` | src/window/layout.c:107-138 | moves the client behind the next visible one, or to the front past the last |
| `ClientOrder.Clients.MoveStackUp` | src/window/layout.c:107-138 | moves it before the previous visible one, or to the end; when it loses itself it ends as a ring of its own |
| `ClientOrder.MovesOne` | src/window/layout.c:136-137 | a move changes the place of one client and keeps the order of the rest |
| `ClientOrder.MoveUpKeepsAll` | src/window/layout.c:123-137 | a move up keeps every client exactly unless the moved one is last and nothing before it is visible |
| `ClientOrder.OnlyVisibleIsLost` | src/window/layout.c:123-137 | of two clients the last, the only visible one, moved up is lost |
| `ClientOrder.Clients.Zoom` | src/window/layout.c:448-474 | brings the tiled client, or the next one if it leads already, to the front, and moves nothing if there is no other |
| `Tiling.Client.ApplyBounds` | src/window/client.c:67-81 | the geometry brought to its least size and back towards the box |
| `Tiling.Client.Resize` | src/window/client.c:549-559 | the geometry part of a resize in the window area |
| `Tiling.Arrange` | src/window/layout.c:316-372 | every tiled client gets its tile in tiling order, the others keep their geometry |
| `TileLayout.ExactTiling` | src/window/layout.c:327-371 | for any client count, number of masters and gap, when everyone's least size fits: no two tiles overlap, none leaves the area, and both columns are stacked exactly |
| `TileLayout.ColumnStacks` | src/window/layout.c:344-368 | heights in a column differ by at most one, the tiles are one gap apart, and the last ends one gap above the bottom |
| `TileLayout.FirstShare` | src/window/layout.c:346-348 | each share is the even one or one more, and what is left is shared evenly again |
| `Tiling.PlaceTitleBar` | src/desktop/bar/title.c:210-240 | a tab gets the slice of its place among the tiled clients, any other title bar the whole width |
| `Tiling.TabsFillTheRow` | src/desktop/bar/title.c:233-236 | the slices are contiguous, fill the row, and differ by at most one |
| `ClientOrderLaws.DownSwapsVisible` | src/window/layout.c:114-137 | of the visible clients, moving one down swaps it with the next, and the last one goes to the front |
| `ClientOrderLaws.UpSwapsVisible` | src/window/layout.c:123-137 | moving one up swaps it with the one before, and the first one goes to the end |
| `ClientOrderLaws.ZoomLeads` | src/window/layout.c:448-474 | of the tiled clients, zooming puts the chosen one first, or the second one if it leads already, and the others keep their order |
| `TileLaws.MastersFillTheWidth` | src/window/layout.c:331-354 | with masters only, the column reaches from one gap inside the left edge to one inside the right |
| `TileLaws.StackFillsTheWidth` | src/window/layout.c:331-366 | without masters the stack reaches from the left edge to one gap inside the right |
| `TileLaws.ColumnsShareTheWidth` | src/window/layout.c:331-366 | with both, the masters end one gap before the stack begins, at their share of the width |
| `TileLaws.LoneClientFills` | src/window/layout.c:322-372 | a lone client without gaps, or with smart gaps for one, fills the area |
| `TileLaws.BoundedMeets` | src/window/client.c:67-81 | a window gets its least size; off the box it comes back to the edge it was past, else it stays where it is |
| `TileLaws.BoundedTwice` | src/window/client.c:67-81 | bringing a window back twice is bringing it back once |
| `Blur.BlurAtIsMean` | src/render/opacity.c:234-243 | every channel of a blurred pixel is the floor average over its window clipped to the row, which is never empty |
| `Blur.TurnedPassesAreColumnPasses` | src/render/opacity.c:377-390 | any number of row passes between two transposes is as many column passes |
| `Blur.TransposedTwice` | src/render/opacity.c:329-335 | turning an image twice gives it back |
| `Blur.FrostedBetween` | src/render/opacity.c:358-390 | for every size, radius and number of passes no channel of the result is darker or brighter than the wallpaper was anywhere, and every pixel is opaque |
| `Blur.UniformStays` | src/render/opacity.c:358-390 | a wallpaper of one opaque colour stays that colour |
| `BlurBuffers.WindowSlides` | src/render/opacity.c:245-256 | sliding the window on takes out one pixel and brings in one, the sums never underflow and stay the sums of the window |
| `BlurBuffers.SumFits` | src/render/opacity.c:224-227 | a sum over fewer than 2^24 pixels stays within 32 bits |
| `BlurBuffers.BlurRows` | src/render/opacity.c:219-259 | the sliding sums compute the blur of every row by its definition, for every width, height and radius |
| `BlurBuffers.Transpose` | src/render/opacity.c:329-335 | the image turned on its side, each pixel written once |
| `BlurBuffers.Average` | src/render/opacity.c:269-284 | a pixel of the shrunk image is the floor average of its block, clipped to the image, and opaque black for an empty one |
| `BlurBuffers.Shrink` | src/render/opacity.c:263-285 | the image of the block averages, at least one pixel wide and high |
| `BlurBuffers.Frost` | src/render/opacity.c:337-390 | the whole pipeline with its swapped buffers gives the shrunk image blurred along its rows and then along its columns |
| `BlurLaws.FrostedColumns` | src/render/opacity.c:363-390 | a wallpaper whose rows are all alike comes out with rows alike: that row, averaged in blocks and blurred once a pass |
| `BlurLaws.FrostedRows` | src/render/opacity.c:363-390 | a wallpaper whose rows are each of one colour comes out so: the column of colours, averaged in blocks and blurred once a pass |
| `BlurLaws.ShrunkIsBlockMean` | src/render/opacity.c:263-285 | every channel of a shrunk pixel is the floor average over its block |
| `BlurLaws.SizesFollowTheRadius` | src/render/opacity.c:363-368 | blocks of 4 pixels under a radius of 20, of 8 from 32 on, of a quarter of it between; a pass reaches the radius in whole blocks |
| `BlurLaws.WindowIs` | src/render/opacity.c:228-243 | the window of a pixel is what lies within the radius of it on the line |
| `Match.ScoreOf` | src/desktop/runner/match.c:92-127 | the one-pass scan gives the score, exact names and plain prefixes included |
| `Match.FuzzyIsComplete` | src/desktop/runner/match.c:95-127 | in fuzzy mode a candidate scores exactly when the folded letters of the query stand in it in order at some places |
| `Match.GreedyMissesNothing` | src/desktop/runner/match.c:106-120 | taking each letter at its first chance finds the query wherever it can be found |
| `Match.ScoreBound` | src/desktop/runner/match.c:102-127 | short of the exact name, no query of at most 255 bytes scores more than 1,600,000 |
| `Match.ExactWins` | src/desktop/runner/match.c:299-307 | an exact name, first or alternative, totals more than every other candidate whatever the use counts |
| `Match.TotalFits` | src/desktop/runner/match.c:299-307 | no total is negative or leaves 32 bits |
| `Match.RankingIsUnique` | src/desktop/runner/match.c:129-137 | two orderings of the same candidates by score and then index are the same, whatever sort made them |
| `Match.ExactComesFirst` | src/desktop/runner/match.c:299-311 | in the filtered list an exact name stands before every candidate that is not one |
| `Match.Filter` | src/desktop/runner/match.c:273-312 | the list holds exactly the candidates that score, ordered by score and then index; all or none when nothing is typed, none for a calculation |
| `MatchScore.ScoreIsWorth` | src/desktop/runner/match.c:102-127 | a match scores the worth of its letters at their first chances, 20 more if the name begins with the query, times 8, less the letters left over, and at least 1 |
| `MatchScore.MatchHasPlaces` | src/desktop/runner/match.c:106-122 | whatever scores has such places, the first chance for each letter |
| `MatchScore.FirstChancesAgree` | src/desktop/runner/match.c:106-120 | there is one way to take first chances |
| `MatchScore.BeginsWithQuery` | src/desktop/runner/match.c:123-124 | the letters are used up at the query's own length exactly when the name begins with the query |
| `MatchScore.ShorterWins` | src/desktop/runner/match.c:125-126 | of two names with equally good letters the shorter scores more, unless both score 1 |
| `MatchScore.PrefixesScoreAlike` | src/desktop/runner/match.c:99-101 | without fuzzy matching exactly the names that begin with the query score, 1 each but for the exact one |
| `MatchScore.AlikeInCase` | src/desktop/runner/match.c:87-90 | with folding letters are alike that differ in case alone, without it only equal ones |
| `MatchScore.CapitalsCount` | src/desktop/runner/match.c:292-295 | a query with a capital finds its letters only as typed, one without in either case |
| `MatchScore.UsesLift` | src/desktop/runner/match.c:301-307 | a candidate is as good as the better of its names, and each use up to 65536 lifts a match by 16 and a miss not at all |
| `MatchScore.FirefoxFor` | src/desktop/runner/match.c:112-126 | for ff the name firefox scores 75 |
| `MatchScore.CaffeFor` | src/desktop/runner/match.c:112-126 | for ff the name caffe scores 37 |
| `MatchScore.RankedMeans` | src/desktop/runner/match.c:129-137 | in the list the higher total comes first, and of equal ones the candidate with the lower index |
| `InputMethod.EveryRunSound` | src/input/textinput.c:234-434 | on every run activate and deactivate to a connected input method alternate, each is completed by done, nothing is said to one that is gone, and the served text input exists, is enabled and has an input method |
| `InputMethod.ActivationsAlternate` | src/input/textinput.c:254-273 | between two activates there is a deactivate, or the input method has gone |
| `InputMethod.NeverOutOfTurn` | src/input/textinput.c:234-273 | no message of the conversation was ever out of turn |
| `InputMethod.FocusChangeMovesAll` | src/input/textinput.c:321-341 | after a change of focus each text input has entered the new surface exactly when it is its own client's and an input method is there, and the one still served is on it |
| `TextInput.Bridge.Activate` | src/input/textinput.c:266-273 | the one served before is deactivated first, then the new one activated with its state |
| `TextInput.Bridge.SyncFocus` | src/input/textinput.c:323-341 | the loop over the list lets every text input leave and enter as it has to |
| `TextInput.Bridge.On` | src/input/textinput.c:285-434 | each handler takes the bridge where the transition system goes |
| `TextInput.Converse` | src/input/textinput.c:234-434 | any run of handlers ends in the transition system's state, with its invariant |
| `KeyRouting.TakenAndLeftInTurn` | src/input/textinput.c:450-475 | however grabs come and go, as long as a key is not pressed while it is down: the client has it down at the end only if it is down and not taken, never gets a press while it has it down, and sees it in turn if it comes in turn; the events taken are in turn too |
| `KeyRouting.GrabsSeeKeyInTurn` | src/input/textinput.c:450-475 | every grab sees a key in turn, and has it down at the end exactly if it is held for that grab, exactly when each press that found a grab has its release find the same grab |
| `KeyRouting.NoKeyStaysDown` | src/input/textinput.c:450-475 | for a run from the start at whose end a key is up: it is up for the client; every grab has seen it in turn and up at the end exactly under that condition |
| `KeyRouting.GrabLostLeavesKeyDown` | src/input/textinput.c:463-470 | a run in which the grab goes while a key is held: the input method is never sent the release, and then a second press |
| `KeyRouting.OtherGrabGetsRelease` | src/input/textinput.c:454-474 | a run in which another grab is there at the release: it is sent a release without a press, and the first one none |
| `KeyRouting.EveryReleaseFollowsItsPress` | src/input/textinput.c:450-475 | on every run in which no key is pressed while it is down, a release is left to the client exactly when its press was |
| `KeyRouting.ReleaseFollowsPress` | src/input/textinput.c:459-470 | whatever keys and grab changes come between, a release is taken or left to the client as its press was, exactly unless the key was held for the input method already and the press found no grab |
| `KeyRouting.SecondPressMisroutes` | src/input/textinput.c:459-466 | with a press of a key that is already down a release can be taken though its press was left to the client |
| `KeyRouting.KeyboardGroup.RouteKey` | src/input/textinput.c:452-475 | one key: whether it is taken, which presses are remembered, and that it is sent to the grab there is then, if there is one |
| `KeyRouting.KeyboardGroup.RouteKeys` | src/input/textinput.c:452-475 | the same for any run of keys, what is left and what is sent in order |
| `InputMethodService.EnablingServes` | src/input/textinput.c:266-290 | enabling a text input that has entered a surface has it served at once, and the input method is told exactly of the old one's end, its start if it is new, its state and done |
| `InputMethodService.CommittingServes` | src/input/textinput.c:275-297 | a commit of one that is enabled and has entered a surface does the same |
| `InputMethodService.NotReadyIsNotServed` | src/input/textinput.c:277-278 | nothing is said about one that has entered no surface or has no input method |
| `InputMethodService.NotEnabledIsNotServed` | src/input/textinput.c:277-278 | a commit of one that is not enabled says nothing |
| `InputMethodService.DisablingLetsGo` | src/input/textinput.c:299-305 | disabling the served one is told by deactivate and done and leaves none served; disabling another says nothing |
| `InputMethodService.DestroyingLetsGo` | src/input/textinput.c:307-319 | the same when it is destroyed, and it is known no more |
| `InputMethodService.FocusDecides` | src/input/textinput.c:323-329 | the served one stays served, with nothing said, exactly while it is on the surface in focus |
| `InputMethodService.MethodFindsInputs` | src/input/textinput.c:393-405 | when an input method comes, the text inputs of the client in focus enter its surface and none is served yet |
| `InputMethodService.MethodLeavesAll` | src/input/textinput.c:382-391 | when it goes, none is served and every text input leaves |
| `InputMethodService.NewInputEnters` | src/input/textinput.c:407-421 | a new text input comes first in the list and enters the surface in focus if it is its own client's |
| `InputMethodService.EveryRunTold` | src/input/textinput.c:234-434 | on every run the one served is the one the messages sent speak of |
| `InputMethodService.SurfaceGoesUnheard` | src/input/textinput.c:323-329 | a surface that goes is left by the text input on it, and nothing is said until the focus changes |
| `Sanitizer.SanitizedIsClean` | src/desktop/notify/message.c:29-65 | the output fits its buffer and is a run of whole lead-plus-continuation sequences without C0 or DEL |
| `Sanitizer.SanitizedIsFixed` | src/desktop/notify/message.c:29-65 | sanitizing the output again at the same size changes nothing |
| `Sanitizer.SanitizedText` | src/desktop/notify/message.c:29-65 | of UTF-8 text exactly the leading codepoints that fit are kept, none cut, control characters as spaces |
| `Sanitizer.Sanitize` | src/desktop/notify/message.c:29-65 | the copying loop writes that output and a NUL and nothing past the buffer's size |
| `Markup.EscapingIsUndone` | src/desktop/notify/message.c:216-267 | text in which at least & and < are escaped by name flattens in one pass to itself, as much of it as fits |
| `Markup.ReferencesAreUndone` | src/desktop/notify/message.c:230-243 | codepoints written as decimal or hexadecimal references flatten to their UTF-8 |
| `Markup.NumberIsRead` | src/desktop/notify/message.c:232-234 | a number written out in base 10 or 16 is read back |
| `Markup.TagIsDropped` | src/desktop/notify/message.c:244-263 | a known tag in any case, opening or closing, with any attributes, takes no place, and br becomes a space |
| `MarkupWriter.WriteStep` | src/desktop/notify/message.c:216-264 | every step takes at least a byte of text and writes no more than there is room for |
| `MarkupWriter.Demarkup` | src/desktop/notify/message.c:205-267 | the loop ends on every text, writes the flattened text and a NUL and nothing past the buffer's size |
| `Notifications.ClampTimeout` | src/desktop/notify/notify.c:95-100 | the default timeout lies between 1 s and 60 s |
| `NotificationInvariant.BuildProper` | src/desktop/notify/message.c:396-408 | what a Notify builds has a non-zero id, is critical exactly when it never expires, and otherwise expires within 60 s |
| `NotificationHistory.PushKeepsSlotsApart` | src/desktop/notify/queue.c:46-72 | a push keeps the history at one entry a slot exactly when the notification is transient or no two entries have its id the one and its app and stack tag the other |
| `NotificationHistory.TwoEntriesForOneId` | src/desktop/notify/queue.c:39-72 | a run of three notifications, shown and dismissed, that leaves two entries for id 1 |
| `NotificationHistory.ShownIsPushed` | src/desktop/notify/queue.c:156-173 | what an idle server shows and has dismissed is what goes to the history |
| `StatusMarkup.DigitsAndTheirShadows` | src/desktop/bar/status.c:83-92 | the bytes taken for hex digits are the hex digits and the control bytes 0x10 to 0x19, each worth the digit bit 0x20 makes of it |
| `StatusMarkup.ControlBytesColour` | src/desktop/bar/status.c:80-100 | six control bytes are taken for a colour |
| `StatusMarkup.DigitsRun` | src/desktop/bar/status.c:89-92 | the digits of a colour are a run of such bytes, and before the eighth it ends only at another byte |
| `SanitizerLaws.CleanBeginningStays` | src/desktop/notify/message.c:36-63 | a clean beginning that fits is kept and the rest is read as if it stood alone |
| `SanitizerLaws.InvalidByteIsDropped` | src/desktop/notify/message.c:43-54 | a byte that starts no whole sequence is dropped, alone, and reading goes on behind it |
| `SanitizerLaws.ControlBecomesSpace` | src/desktop/notify/message.c:57-60 | a control character becomes a space in its place |
| `SanitizerLaws.FullStops` | src/desktop/notify/message.c:55-56 | a character that does not fit ends the text |
| `SanitizerLaws.StartsNothing` | src/desktop/notify/message.c:37-54 | continuation bytes, C0, C1, F5 and above and lead bytes cut short start no sequence |
| `MarkupLaws.EntitiesByName` | src/desktop/notify/message.c:207-212 | the five entities are amp, lt, gt, quot and apos with their characters |
| `MarkupLaws.EntityDecodes` | src/desktop/notify/message.c:219-229 | an entity flattens to its character and the text goes on behind its semicolon |
| `MarkupLaws.TagsByName` | src/desktop/notify/message.c:213-213 | the known tags are b, i, u, a, img and br |
| `MarkupLaws.TagGoes` | src/desktop/notify/message.c:244-261 | a known tag is left out, br for a space, and the text goes on behind it |
| `MarkupLaws.AmpersandIsKept` | src/desktop/notify/message.c:219-264 | an ampersand with no semicolon after it, or that starts neither an entity nor a number, is kept |
| `MarkupLaws.BadReferenceIsKept` | src/desktop/notify/message.c:230-243 | a reference to no codepoint, or to one without room, is kept as text |
| `MarkupLaws.UnknownTagIsKept` | src/desktop/notify/message.c:244-264 | a tag with any other name is kept as text |
| `MarkupLaws.NothingToDecode` | src/desktop/notify/message.c:218-264 | text with nothing that could end an entity or a tag is left alone, as much of it as fits |
| `MarkupLaws.SignsAreRead` | src/desktop/notify/message.c:232-234 | a reference's number may have a sign, and a minus takes it from 2 to the 64 |

## Left out

- D-Bus messages: a notification arrives as a record already read; whether sending a signal or a reply fails is not modelled, and the signals sent are a sequence.
- The wording of a notification's text, its desktop entry, progress value and image: only what decides its id, place, time and icon is kept, and an icon is a token that is created and destroyed.
- GetCapabilities, GetServerInformation and the redraw callback: they change none of the state.
- The clock is read once for each event.
- 32-bit wrap-around, but for the notification counter, the time left after a hold and the strtoul value: sums, positions and sizes are unbounded, with lemmas that bound the blur's sums and the runner's scores.
- CalculatorParser.Calc: computes in the reals instead of doubles, so no value is ever infinite or not a number and refused for that, rounding is not shown, and the decimal weights of a fraction are exact.
- NotificationServer.Server.constructor: a start without a bus connection or an event loop, which changes nothing, is not modelled.
- BlurBuffers.SumFits: says that sums fit 32 bits for windows of at most 0x1010101 pixels; what wider ones would do is not modelled.
- The tint after the blur, which is floating point: Frost stops before it.
- TileLayout.ExactTiling: requires that everyone's least size fits the height the column shares; what smaller areas give is only what Arrange computes.
- The master column's share of the width as roundf gives it: any integer is allowed in its place.
- Scene nodes, borders and surfaces: client_resize and bar_place_title_bar are modelled up to the geometry they assign.
- TextDrawing.DrawText: the loop with rendering off; when it renders, an ellipsis may take the place of the end of the text, which is not modelled.
- Tab completion, history recall and filling in the calculator's result in the prompt, and how the runner's mode is chosen from a prefix: the calculator and the filter start from the text after it.
- qsort and strtoul: the C library's sort is any sort by the comparison, of which there is one result, and strtoul is the function its standard describes.
- KeyRouting.KeyboardGroup.RouteKey: the 32-bit words of imkeys are one flag a key.
- Which keys get to textinput_key: the prompt, an open menu and the action picker swallow theirs, bindings take presses but not releases (src/input/keyboard.c:174-242), and several keyboards may use one grab. The routing is that of one keyboard, for the keys that reach it.
- InputMethod.EveryRunSound: surrounding text, change cause and content type count as one message, and what the input method commits back to the text input and its popups are not modelled.
- When a text input is enabled or disabled and what surface it has entered are set by wlroots, which is not part of this model; the events say so.
- Title, bar and menu drawing, settings, Xwayland, tablets, screen capture and everything else that drives wlroots: no laws of their own, or laws in libraries that are not shown.
