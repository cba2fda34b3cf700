# Verified model of KeyDrown's core

KeyDrown hides keystrokes from software side channels: a kernel module (the first layer) mixes
fake key and touch events into the stream of real ones so that their timing tells nothing. This
project models that module in Dafny, with the injector of the second layer, and proves what the
design relies on. `dafny verify dfyconfig.toml` checks everything.

| file | models |
|---|---|
| `Common.dfy`, `Arithmetic.dfy` | shared types, error numbers; powers of two and division |
| `Random.dfy` | the rejection sampler, with its 32-bit truncation |
| `Scheduler.dfy` | the injection timer and the state flag, as a machine whose callbacks are atomic: whole runs, and the static variables changed in place |
| `RunChances.dfy` | the chances of whole runs of real and fake events, counted in sequences of random words |
| `MainTimer.dfy` | the same timer statement by statement, for any number of threads, the callback and the cleanup |
| `CallSilence.dfy` | how long the timer of `MainTimer.dfy` can be silent, with a clock for every call |
| `DecoyTimer.dfy` | the one-shot decoy timer and its flag, statement by statement, for any number of threads and callbacks |
| `HookTable.dfy` | hooking and unhooking interrupts, and dispatch through the two hook handlers |
| `HookSteps.dfy` | the single stores of hooking and unhooking against dispatches that are under way |
| `FilterLog.dfy` | patching input handlers and undoing it, on real, possibly shared handler objects |
| `Lifecycle.dfy` | registration, init and cleanup of the plugins, with every init step failing or not |
| `Traces.dfy` | the two trace logs with their cursors |
| `KeyEvents.dfy` | scancodes, the key filter, tasklets, and the fan-out over processors |
| `TouchEvents.dfy` | injected touches and the classifier of touches |
| `PinGroups.dfy` | the search for the touchscreen's pin group |
| `Typing.dfy` | the schedule and the keyboard together: bytes, late tasklets, the timer, writes and the exit |
| `GtkInjector.dfy` | the GTK key injector of the second layer |

Where the source changes state in place, a class has the source's variables as fields; its methods
are proved equal to functions on values, and the theorems are about those functions over whole runs.

## What is assumed of the kernel

* `hrtimer_start` with a relative period sets the deadline to now plus the period; it does not raise
  the period to the timer's resolution. `hrtimer_forward_now` leaves a deadline still to come alone and
  otherwise moves it by whole steps of max(period, resolution) until it is after now; it does nothing
  to a queued timer. `hrtimer_cancel` waits for a running callback. A timer is dequeued before its
  callback runs, and a callback that asks for it is queued again.
* The latency with which a timer fires, its resolution, the delay after which a scheduled tasklet has
  run, and (in `CallSilence.dfy`) the time one call may take are parameters. "Ideal" means latency 0.
* In `MainTimer.dfy`, `DecoyTimer.dfy` and `HookSteps.dfy` memory is sequentially consistent: every
  processor sees all stores at once and in program order. The source itself uses plain
  stores and no barriers, except for the decoy timer's test-and-set.
* `i8042_install_filter` refuses while any filter is installed; `i8042_remove_filter` removes only the
  filter that is installed. A scheduled tasklet is a flag, which nothing takes back, not even the
  module's exit.
* Random words, clock readings, the symbols the kernel knows and the devices it has are parameters.
  A stream of random words is long enough for a call when it holds a word that `get_random` accepts.

## Where the code does less than one would expect

Each of these is proved, with the exact condition under which the expected property holds.

* `get_random` never returns when the number of values asked for is a power of two, because the
  product 2^32 is truncated to 0; it divides by zero for a full range (`ReturnsIffNotPowerOfTwo`).
* A real and a fake event re-draw the timer alike exactly when the draw is the rest of the current
  step of the fake one (`ResetMeetsRestart`, over whole runs with any latency `LabelsLeaveNoTrace`). For
  an ideal timer that means a draw of at least the timer's resolution (`IdealLabelsLeaveNoTrace`);
  shorter draws leave a trace (`ShortDrawsLeaveATrace`), and counted in random words the chances of the
  next deadline differ there and only there (`SameChancesBeyondResolution`, over whole runs
  `SameChancesForRuns`). With a resolution of 1 ns only a draw of 0 is affected.
* `timer_cleanup` does not always end the timer. A call of `timer_reset` that it interrupts, or one
  that begins later, leaves the timer queued, and nothing else does (`MainTimer.QuietAfterCleanup`).
  With callbacks handled at once, the later ones come exactly from tasklets that are pending at the
  cleanup and from bytes that come in before the key filter is taken out (`Typing.QuietAfterExit`).
  One run each: `CleanupInsideACall`, and `TaskletOutlivesTheFilter`, in which the callback runs
  after the filter is gone.
* The period is shared, so a thread starts the timer with its own draw exactly when the last value
  that anybody has drawn in between equals it (`OwnDrawIffLast`); calls that no other call and no
  callback overlaps always do (`SerialisedCallsUseTheirOwnDraw`), overlapping ones need not
  (`DrawsCanBeExchanged`).
* A decoy timer is re-used while an earlier callback still runs exactly when a callback has cleared the
  flag and not left (`ReuseOverlapsIffLingering`, `ReuseBeforeReturnIsPossible`).
* With the two stores of a hook seen in program order, hooking is safe against dispatches at any moment
  (`HookingIsSafe`). After an unhook, a hook handler that was already entered calls through an empty
  slot exactly when the last store to the slot since is the one that clears it
  (`NullCallIffClearedSince`, `UnhookUnderADispatch`).
* A null original handler would be saved as an empty slot (`TableIsExactIffHandlersSet`).
* A second registration of the touchscreen plugin would lose the first one's log
  (`RestoresIffTouchscreenOnce`). The module registers one plugin.
* The trace log is a queue exactly until the write cursor wraps (`TruthfulIffNoWrap`). After that the
  buffer still holds the newest stamps (`BufferHoldsNewest`), but a read with the write cursor behind
  takes everything ahead for unread (`ReadsPastTheWriter`).
* A repeated pin-group search can succeed on a stale pointer (`SucceedsIffMatch`, `StalePointerCounts`).
* Writing any non-zero number to the proc file logs "activated", but only an odd one sets the bit that
  turns injection on: log and bit agree exactly for 0 and the odd numbers (`LogAgreesWithBit`), and not
  for 2 (`TwoIsNoActivation`). The documentation only speaks of 1 and 0.

## Model

| member | source | states |
|---|---|---|
| Random.GetRandom | first_layer/source/random.c:6-22 | for every pair of arguments and every stream of words: division by zero exactly for a full range; otherwise a return exactly if some word is accepted, with the image of the first accepted one |
| Random.ReturnsIffNotPowerOfTwo | first_layer/source/random.c:9-18 | some stream makes the sampler return if and only if the number of values is neither 0 nor a power of two |
| Random.BoundAboveHalfOrZero | first_layer/source/random.c:10-14 | the truncated bound is 0 for a divisor of 2^32 and otherwise accepts more than half of all words |
| Random.Uniform | first_layer/source/random.c:13-21 | every value in the range, wrapping ones included, has exactly floor(2^32/N) accepted words, and every other value none |
| Random.DrawnInRange | first_layer/source/random.c:20-21 | the result is in the range, and for low <= high it is reached without overflow |
| Random.SingleValueNeverReturns | first_layer/source/random.c:9-18 | for every value, the range of that value alone never returns, on any stream |
| Random.CallSitesAreSound | first_layer/keydrown.h:6-12 | the three ranges the module asks for are sampled uniformly, and any word of the lower half ends the loop |
| Scheduler.ForwardLands | first_layer/source/timer.c:22-28 | a forwarded deadline lies after now, at most one step away, and whole steps from the expired one |
| Scheduler.ResetMeetsRestart | first_layer/source/timer.c:22-35 | re-drawing after a real and after a fake event gives the same deadline exactly when the draw is the rest of the step; for an ideal timer, exactly when it is at least the resolution |
| Scheduler.LabelsLeaveNoTrace | first_layer/main.c:85-127 | two runs with any latency and the same times and draws have the same deadline after every event, whatever their labels, if and only if each event with different labels drew the rest of its step |
| Scheduler.IdealLabelsLeaveNoTrace | first_layer/main.c:85-127 | for ideal runs that is the case if and only if no draw below the resolution carries different labels |
| Scheduler.AnyRelabellingIsPossible | first_layer/main.c:85-127 | where the draws are the rests of their steps, turning fake events into keystrokes, and keystrokes that come when the timer may fire into fake events, gives another possible run with the same deadlines |
| Scheduler.LongDrawsAreUnseen | first_layer/main.c:85-127 | for an ideal timer draws of at least the resolution are the rests of their steps |
| Scheduler.ShortDrawsLeaveATrace | first_layer/source/timer.c:22-35 | a concrete draw below the resolution after which the deadlines differ |
| Scheduler.RealDeadlinesAreUniform | first_layer/source/timer.c:31-35 | after a real event each deadline up to RND_MAX ahead is reached by the same number of random words |
| Scheduler.SameChancesBeyondResolution | first_layer/source/timer.c:22-35 | a deadline is reached by as many random words after a fake as after a real event exactly unless it lies within the resolution |
| RunChances.SameChancesForRuns | first_layer/source/timer.c:22-35 | what is seen of a whole run, if keystrokes alone can show it, comes from as many sequences of random words as if all of it had been keystrokes, if and only if no fake event has set a deadline within the resolution |
| RunChances.WordRunsShow | first_layer/source/timer.c:22-35 | the sequences counted are exactly those whose run, fake events on their deadlines, shows those deadlines |
| RunChances.WordRunsLength | first_layer/source/timer.c:22-35 | each of them has one word for each event |
| Scheduler.DeadlineIsNear | first_layer/main.c:107-127 | from timer_init to timer_cleanup the timer is always queued, and its deadline near both now and the last visible event |
| Scheduler.SilenceIsBounded | first_layer/main.c:107-127 | while injection is on, the last visible event is never longer ago than max(RND_MAX, resolution), or the 2 s of the first period until the first re-draw, plus the latency, in every run with any writes to the state |
| Scheduler.NeighboursAreClose | first_layer/main.c:107-127 | consecutive visible events, with injection on in between, are at most that far apart |
| Scheduler.QuietAfterStop | first_layer/main.c:164-172 | with keystrokes handled at once, the timer is queued after timer_cleanup exactly if one was handled since |
| Scheduler.DrawsAreAllowed | first_layer/keydrown.h:5-8 | what the sampler returns to the timer is a draw the runs allow |
| Scheduler.KeyDrown.TimerInit | first_layer/source/timer.c:10-16 | the first deadline is 2 s and 104167 ns away |
| Scheduler.KeyDrown.TimerCleanup | first_layer/source/timer.c:19 | the timer is off the queue |
| Scheduler.KeyDrown.TimerRestart | first_layer/source/timer.c:22-28 | the callback's re-draw is the fake-event step of the runs, with the sampler's draw |
| Scheduler.KeyDrown.TimerReset | first_layer/source/timer.c:31-35 | the re-draw after a keystroke is the real-event step of the runs, with the sampler's draw |
| Scheduler.KeyDrown.TimerInjectIrq | first_layer/source/timer.c:45-53 | -EBUSY and no change to the timer if the flag was set; otherwise the flag set and the timer due at once |
| Scheduler.KeyDrown.FaketimerFunction | first_layer/source/timer.c:38-42 | the flag is clear and the timer not queued |
| Scheduler.KeyDrown.RealKey | first_layer/main.c:85-103 | a real event leaves a decoy on its way and is the real-event step of the runs |
| Scheduler.KeyDrown.TimerFunction | first_layer/main.c:107-127 | a fake event exactly if bit 0 of the state is set, and the fake-event step always |
| Scheduler.KeyDrown.KeydrownWrite | first_layer/main.c:36-59 | a number replaces the state, anything else is refused without a change; what is logged, when that agrees with the bit, and which member of the touchscreen plugin is called |
| Scheduler.LogAgreesWithBit | first_layer/main.c:39-50 | "activated" is logged exactly when injection is on if and only if the number is 0 or odd |
| Scheduler.TwoIsNoActivation | first_layer/main.c:39-50 | a write of 2 is logged as an activation and leaves injection off |
| MainTimer.NeverLost | first_layer/source/timer.c:22-35 | in every interleaving of any number of resetting threads with the callback the timer is queued or someone is about to queue it, and its deadline is near whoever's draw it was |
| CallSilence.SilenceIsBounded | first_layer/source/timer.c:22-35 | with injection on, in every interleaving of calls and callbacks, each lasting at most work, the last keystroke or fake event is never longer ago than the longest period plus work plus the latency |
| CallSilence.BoundIsReached | first_layer/source/timer.c:22-35 | for every latency, work and resolution up to RND_MAX, a run that is silent for exactly that long |
| MainTimer.OwnDrawIffLast | first_layer/source/timer.c:31-35 | in every interleaving a thread starts the timer with the last value anybody drew, so with its own draw if and only if that value equals it |
| MainTimer.SerialisedCallsUseTheirOwnDraw | first_layer/source/timer.c:31-35 | a call during which no other begins, no callback is about to draw and the timer does not fire uses its own draw |
| MainTimer.DrawsCanBeExchanged | first_layer/source/timer.c:31-35 | a reachable state in which a thread has started the timer with another thread's draw |
| MainTimer.QuietAfterCleanup | first_layer/source/timer.c:19-35 | once nobody is inside any more after timer_cleanup, the timer is queued if and only if a thread was inside timer_reset at the cleanup or has entered it since |
| MainTimer.CleanupInsideACall | first_layer/source/timer.c:19-35 | a cleanup between a thread's cancel and its start, after which the timer is queued |
| MainTimer.UninterruptedReset | first_layer/source/timer.c:31-35 | a timer_reset nobody interrupts is the real event of the atomic schedule |
| MainTimer.UninterruptedCallback | first_layer/source/timer.c:22-28 | a callback nobody interrupts is the fake event of the atomic schedule |
| DecoyTimer.OneToken | first_layer/source/timer.c:38-53 | in every reachable state the flag is 1 exactly when one caller, the queued timer or one callback holds the token, never two; acquisitions equal clearing stores plus the flag |
| DecoyTimer.NeverTouchedWhileQueued | first_layer/source/timer.c:45-53 | the timer is never initialised or started while queued or while a callback has yet to clear the flag, and never fires without its function |
| DecoyTimer.ReuseOverlapsIffLingering | first_layer/source/timer.c:38-53 | in every reachable state, initialising or starting the timer overlaps a running callback if and only if a callback has cleared the flag and not left; only its leaving can change that |
| DecoyTimer.ReuseBeforeReturnIsPossible | first_layer/source/timer.c:38-53 | an interleaving in which the timer is initialised while a callback that has cleared the flag still runs |
| DecoyTimer.EveryCallIsFollowedByAClear | first_layer/source/timer.c:45-53 | at any call's test-and-set a clearing store is at most six steps of the token's holders away, one of them can always be taken, and the flag stays 1 until then |
| DecoyTimer.UninterruptedCall | first_layer/source/timer.c:45-53 | a call nobody interrupts is the whole effect of timer_inject_irq |
| HookTable.TableIsExactIffHandlersSet | first_layer/source/hook.c:8-47 | over all runs of hooks and unhooks a slot is set exactly while its interrupt is hooked, holds the handler from before, and nothing else changes, if and only if no original handler is null |
| HookTable.RunTracks | first_layer/source/hook.c:8-47 | the same for one run, with every other interrupt untouched |
| HookTable.UnhookRestores | first_layer/source/hook.c:11-47 | a hook and its unhook restore the table exactly if the handler was set, the hook refused, or the hook null |
| HookTable.InterpositionIsTransparent | first_layer/source/plugins/keyboard/plugin.c:46-51 | at any point of any run an interrupt runs the original handler once and nothing else, with the original's effect except for the count of unhandled interrupts, after the delay the sampler draws from its range |
| HookTable.DelaysAreUniform | first_layer/source/plugins/touchscreen/plugin.c:96-97 | each of the keyboard interrupt's delays from 0 to 100 us comes from floor(2^32/101) random words, each of the touchscreen interrupt's from 1 to 1000 us from floor(2^32/1000), and no other delay from any |
| HookTable.Hooks.HookInterrupt | first_layer/source/hook.c:11-29 | new table and return code are those of the hook step of the runs |
| HookTable.Hooks.UnhookInterrupt | first_layer/source/hook.c:32-47 | the new table is that of the unhook step of the runs |
| HookTable.Hooks.HookGetOriginal | first_layer/source/hook.c:50-52 | the saved handler |
| HookTable.Hooks.HookHandler | first_layer/source/plugins/touchscreen/plugin.c:85-112 | both hook handlers: on a hooked interrupt the outcome is that of its dispatch in the theorem; the descriptor is left as that says |
| HookSteps.OneCallPerDispatch | first_layer/source/plugins/keyboard/plugin.c:46-51 | in every interleaving of dispatches with the stores, each dispatch that has ended made exactly one call |
| HookSteps.HookingIsSafe | first_layer/source/hook.c:20-21 | with the two stores seen in program order, until an unhook has cleared the slot, every dispatch that has ended, begun at any moment, called the original handler |
| HookSteps.NullCallIffClearedSince | first_layer/source/hook.c:41-42 | a dispatch that has loaded the hook handler calls through an empty slot if and only if the last store to the slot since is the one that clears it |
| HookSteps.UnhookUnderADispatch | first_layer/source/hook.c:41-42 | an interleaving with such a call |
| FilterLog.ResetRestores | first_layer/source/plugins/touchscreen/plugin.c:141-193 | after any number of patches over any, possibly shared, handlers one reset gives every handler its first filter back |
| FilterLog.PatchKeepsUndo | first_layer/source/plugins/touchscreen/plugin.c:141-175 | a patch leaves what the log would restore unchanged |
| FilterLog.OldestEntryWins | first_layer/source/plugins/touchscreen/plugin.c:178-193 | a reset gives each handler its oldest saved filter and leaves handlers outside the log alone |
| FilterLog.PatchMarksTargets | first_layer/source/plugins/touchscreen/plugin.c:141-175 | a patch gives exactly its targets the module's filter and puts one entry for each in front of the log, the last one's first |
| FilterLog.OldestFirstFails | first_layer/source/plugins/touchscreen/plugin.c:178-193 | with a shared handler, restoring in the other order leaves the module's filter behind |
| FilterLog.TouchscreenLog.ModifyTouchscreenDevice | first_layer/source/plugins/touchscreen/plugin.c:151-175 | on the handler objects: exactly the grabbing handle's handler, or else those of the open handles in order, are saved and patched |
| FilterLog.TouchscreenLog.ResetTouchscreenDevice | first_layer/source/plugins/touchscreen/plugin.c:178-193 | all filters are those of the log taken back from its head, and the list is empty |
| FilterLog.TouchscreenLog.InputHandleListAdd | first_layer/source/plugins/touchscreen/plugin.c:141-148 | the entry is the new head of the list |
| FilterLog.PatchManyThenReset | first_layer/source/plugins/touchscreen/plugin.c:151-193 | on real handler objects, patching any devices and one reset restore every filter in the system and empty the list |
| Lifecycle.LifecycleRestores | first_layer/source/plugin.c:18-34 | for every pattern of failing init steps, init followed by cleanup restores descriptors, saved handlers, filter slot and input filters |
| Lifecycle.RestoresIffTouchscreenOnce | first_layer/source/plugin.c:18-34 | a list of plugins has that guarantee if and only if it holds the touchscreen plugin at most once |
| Lifecycle.KeyboardInitIsAllOrNothing | first_layer/source/plugins/keyboard/plugin.c:82-114 | keyboard_init succeeds exactly when every step can, then only its interrupt is hooked and its filter installed; a failing one has changed nothing |
| Lifecycle.TouchscreenInitFailsPatched | first_layer/source/plugins/touchscreen/plugin.c:202-263 | touchscreen_init succeeds exactly when every step can, then only its interrupt is hooked with its handler; a failing one that found its device leaves all its handlers patched |
| Lifecycle.InitInstallsExactly | first_layer/source/plugin.c:18-25 | after plugin_init each of the two interrupts is hooked, and the key filter installed, exactly if some plugin of that kind met a kernel in which every step can succeed, and exactly the handlers on the devices of touchscreen plugins are patched |
| Lifecycle.LogIsOfLast | first_layer/source/plugin.c:18-25 | plugins are initialised in order: the log is that of the last touchscreen plugin |
| Lifecycle.InitKeepsBetween | first_layer/source/plugins/keyboard/plugin.c:82-114 | no init, failing or not, goes further than its cleanup can take back |
| Lifecycle.CleanupKeepsBetween | first_layer/source/plugins/touchscreen/plugin.c:266-274 | a cleanup takes back all of its plugin and nothing of the other |
| Lifecycle.Module.PluginRegister | first_layer/source/plugin.c:9-16 | registrations are appended up to the 127th and then refused |
| Lifecycle.Module.PluginInit | first_layer/source/plugin.c:18-25 | every registered plugin's init in order, whatever the earlier ones returned |
| Lifecycle.Module.PluginCleanup | first_layer/source/plugin.c:27-34 | every registered plugin's cleanup in order |
| Lifecycle.Module.InitKeyboard | first_layer/source/plugins/keyboard/plugin.c:82-114 | result and new state, on the real tables: success exactly when every step can, the hook and the filter in place, no change on failure |
| Lifecycle.Module.KeyboardDeviceInit | first_layer/source/plugins/keyboard/devices/8042.c:27-45 | success exactly if the ports are known and one of the two has the keyboard's interrupt, and then the first such port |
| Lifecycle.Module.CleanupKeyboard | first_layer/source/plugins/keyboard/plugin.c:117-122 | the new state is that of the keyboard cleanup of the theorem |
| Lifecycle.Module.InitTouchscreen | first_layer/source/plugins/touchscreen/plugin.c:202-263 | result and new state, on the real tables and handlers: success exactly when every step can, the hook in place, exactly the handlers the device feeds patched, succeeding or not |
| Lifecycle.Module.CleanupTouchscreen | first_layer/source/plugins/touchscreen/plugin.c:266-274 | the new state is that of the touchscreen cleanup of the theorem |
| Lifecycle.LoadAndUnload | first_layer/source/plugin.c:9-34 | on the real tables and handlers, registering, initialising and cleaning up leave everything as it was |
| Traces.LogIsAQueue | first_layer/source/traces.c:26-57 | while the write cursor does not wrap, the cursors split what was added into what was delivered and what is unread |
| Traces.NothingLost | first_layer/source/traces.c:26-57 | while the write cursor does not wrap, added is delivered followed by unread, for any interleaving of additions, reads and resets |
| Traces.ReadsAreExact | first_layer/source/traces.c:34-97 | while the write cursor does not wrap, a read returns the oldest unread stamps, as many as asked for and there, or an error and no change; poll agrees with what a read would return |
| Traces.TruthfulIffNoWrap | first_layer/source/traces.c:183-216 | reads and poll are right throughout a run if and only if the write cursor never wraps |
| Traces.CursorCountsModulo | first_layer/source/traces.c:190-194 | in every run, wraps included, the write cursor is the number of additions since the last reset modulo the size |
| Traces.BufferHoldsNewest | first_layer/source/traces.c:190-194 | in every run the buffer holds the newest stamps, as many as fit, each at its number modulo the size |
| Traces.ReadsPastTheWriter | first_layer/source/traces.c:39-54 | with the write cursor behind, a read returns whatever lies ahead of the read cursor or overruns the buffer |
| Traces.StampDecodes | first_layer/source/traces.c:183-190 | the low bit of a real stamp is its type and the other 63 bits are the clock's |
| Traces.TraceLog.DevRead | first_layer/source/traces.c:26-57 | return value, data and cursor are those of the read step of the runs |
| Traces.TraceLog.DevPoll | first_layer/source/traces.c:74-97 | readable exactly if the read cursor is below the write cursor |
| Traces.TraceLog.AddStamp | first_layer/source/traces.c:190-194 | the addition step of the runs, wrap included |
| Traces.TraceDevices.TracesAddReal | first_layer/source/traces.c:183-197 | the marked stamp is added to the real log and the fake one is unchanged |
| Traces.TraceDevices.TracesAddFake | first_layer/source/traces.c:200-208 | the clock is added to the fake log and the real one is unchanged |
| Traces.TraceDevices.TracesReset | first_layer/source/traces.c:211-216 | all four cursors are 0 |
| Traces.TraceDevices.DevReadReal | first_layer/source/traces.c:60-64 | the read step on the real log with its result; the fake log is unchanged |
| Traces.TraceDevices.DevReadFake | first_layer/source/traces.c:67-71 | the read step on the fake log with its result; the real log is unchanged |
| Traces.TraceDevices.Serve | first_layer/source/traces.c:60-71 | in any interleaving of additions, reads and resets each log ends where its own calls alone take it |
| KeyEvents.FakeKeysAreNeutral | first_layer/source/plugins/keyboard/plugin.c:59-62 | in any interleaving with typed bytes, the keys held are those of the typed bytes alone, but for the illegal key |
| KeyEvents.IllegalKeyHeldOnlyHalfway | first_layer/source/plugins/keyboard/plugin.c:59-62 | the illegal key is held exactly between the two bytes of an injection |
| KeyEvents.CompleteInjectionsLeaveNoKey | first_layer/source/plugins/keyboard/plugin.c:59-62 | with every injection complete the keys held are exactly those of the typed bytes |
| KeyEvents.TaskletsCoverKeys | first_layer/source/plugins/keyboard/devices/8042.c:53-63 | a tasklet is pending exactly when a byte of its kind came in since it ran, and there are never more callbacks than bytes |
| KeyEvents.CallbacksAreExact | first_layer/source/plugins/keyboard/plugin.c:39-43 | over any run the callbacks are exactly the runs of a tasklet for which a byte of its kind is waiting, in order |
| KeyEvents.CallbacksByKind | first_layer/source/plugins/keyboard/plugin.c:39-43 | so is their number for each kind |
| KeyEvents.KindIsBit7 | first_layer/source/plugins/keyboard/devices/8042.c:58-61 | for every byte bit 7 decides the kind, and a press adds its key to those held where a release takes it away |
| KeyEvents.SelectedExactly | first_layer/source/plugins/touchscreen/devices/s3320.c:75-81 | exactly the online processors in the mask are interrupted; an empty mask means none for the keyboard and all for the touchscreen |
| KeyEvents.SelectedAsOften | first_layer/source/plugins/keyboard/plugin.c:63-68 | a processor in the mask is interrupted once for each time it is listed |
| KeyEvents.SelectedInOrder | first_layer/source/plugins/keyboard/plugin.c:63-68 | processors listed in ascending order are interrupted in that order |
| KeyEvents.FanOut | first_layer/source/plugins/keyboard/plugin.c:63-68 | the loop over the processors interrupts those, in order |
| KeyEvents.KeyboardPlugin.Inject | first_layer/source/plugins/keyboard/plugin.c:59-73 | the illegal scancode and its release are sent, so everything sent stays in pairs, and the processors in the mask are interrupted |
| KeyEvents.KeyboardPlugin.KeyFilter | first_layer/source/plugins/keyboard/devices/8042.c:53-63 | no byte is held back and the tasklet of its kind is scheduled, as in the runs |
| KeyEvents.KeyboardPlugin.RunTasklet | first_layer/source/plugins/keyboard/plugin.c:39-43 | one callback of its kind if it was scheduled, as in the runs |
| TouchEvents.FakeTouchesAreInvisible | first_layer/source/plugins/touchscreen/plugin.c:46-62 | in any interleaving of events, taps are requested exactly for horizontal positions outside [229, 231] that the screen reports |
| TouchEvents.NeighboursDiffer | first_layer/source/plugins/touchscreen/devices/s3320.c:22-56 | in any sequence of injections, each and the next report different values on all four axes |
| TouchEvents.InjectionIsATouch | first_layer/source/plugins/touchscreen/devices/s3320.c:31-72 | from any state of the device one injection is exactly two reports, the first with its contact down at the fake position, the second with contact and key lifted, each with its own time; other slots, axes and keys stay |
| TouchEvents.InjectionsAreTouches | first_layer/source/plugins/touchscreen/devices/s3320.c:31-72 | any number of injections are as many such touches and no other report, and leave no contact and no key of theirs down |
| TouchEvents.TouchscreenDevice.Inject | first_layer/source/plugins/touchscreen/devices/s3320.c:31-89 | the events of one injection in order, the toggle flipped within {0, 1}, and the processors interrupted |
| TouchEvents.TouchscreenDevice.Filter | first_layer/source/plugins/touchscreen/plugin.c:46-79 | on old kernels the handler gets the event from the filter, on later ones from the kernel, once either way; the tap callback is scheduled exactly for the positions above |
| PinGroups.PinSearch.GpioMsmInterruptInit | first_layer/source/plugins/touchscreen/gpio/gpio-msm-pinctrl.c:119-160 | with a match, controller, group, index and chip are those of the lexicographically first one; without, exactly what is left in each static |
| PinGroups.PinSearch.FindCorrectPingroup | first_layer/source/plugins/touchscreen/gpio/gpio-msm-pinctrl.c:96-116 | the first group of the controller that lists the pin, or none and no change |
| PinGroups.FirstMatchExists | first_layer/source/plugins/touchscreen/gpio/gpio-msm-pinctrl.c:141-153 | if anything matches there is exactly one first match |
| PinGroups.SucceedsIffMatch | first_layer/source/plugins/touchscreen/gpio/gpio-msm-pinctrl.c:141-159 | success if and only if something matches, or there is no pinctrl chip and an earlier pointer is still set |
| PinGroups.StalePointerCounts | first_layer/source/plugins/touchscreen/gpio/gpio-msm-pinctrl.c:141-159 | with an earlier pointer set, a search of a table of any length without pinctrl chips changes nothing and succeeds |
| PinGroups.MatchMeans | first_layer/source/plugins/touchscreen/gpio/gpio-msm-pinctrl.c:141-153 | a match is an entry whose label has "pinctrl" in it and a group that lists pin 125 |
| PinGroups.LastPinctrlIsLast | first_layer/source/plugins/touchscreen/gpio/gpio-msm-pinctrl.c:141-153 | the controller left behind by a search in vain is the last one |
| Typing.ScheduleIsARun | first_layer/source/plugins/keyboard/plugin.c:39-43 | every run of bytes, late and shared tasklets, callbacks, writes and exit is a run of the atomic schedule |
| Typing.CallbacksAreKeystrokes | first_layer/source/plugins/keyboard/plugin.c:39-43 | over every possible run the callbacks are the tasklets that have run, in order, and each is one keystroke of the schedule with its time and draw |
| Typing.PendingSinceFirstByte | first_layer/source/plugins/keyboard/devices/8042.c:53-63 | a pending tasklet waits since the first byte of its kind that the filter saw after its last run |
| Typing.TypingIsCovered | first_layer/main.c:85-127 | over every possible run in which the illegal key is never typed, the keys held are exactly those typed, and while injection is on the silence since the last byte, fake event or activation is at most the longest one for the latency, the tasklet delay and the timer's horizon, which is the 2 s of the first period until the first re-draw |
| Typing.SilenceIsBounded | first_layer/main.c:85-127 | that silence by the number of tasklets run since, at most two; so it is bounded by horizon, delay and latency, and for any delay by three times the longest period and latency |
| Typing.BoundIsReached | first_layer/main.c:85-127 | for every latency, delay and resolution, before the first re-draw and after it, a run in which the next sign comes exactly at the longest silence |
| Typing.QuietAfterExit | first_layer/main.c:164-172 | once no tasklet is pending any more after timer_cleanup, the timer is queued if and only if a tasklet was pending at the cleanup or a byte came in that the key filter still saw |
| Typing.TaskletOutlivesTheFilter | first_layer/main.c:164-172 | a run in which a tasklet starts the timer after the key filter is gone |
| Typing.PortCarriesTyped | first_layer/source/plugins/keyboard/plugin.c:59-62 | the port carries the typed bytes in order, whatever is injected and whenever tasklets run |
| Typing.PortCarriesInjected | first_layer/source/plugins/keyboard/plugin.c:59-62 | the injected bytes on the port are complete pairs, one for each visible fake event |
| GtkInjector.KeyIsLetter | second_layer/x86/inject.c:115-117 | an odd choice takes a lower-case letter by the second random number, an even one an upper-case letter by the third |
| GtkInjector.EveryLetterIsChosen | second_layer/x86/inject.c:115-117 | every one of the 52 letters can come up |
| GtkInjector.PairsAlternate | second_layer/x86/inject.c:122-135 | n pairs are 2n calls, press and release in turn, with the one key |
| GtkInjector.RunMakesItsCalls | second_layer/x86/inject.c:112-144 | each run makes its pairs of calls after those of the runs before it |
| GtkInjector.EmissionsAlternate | second_layer/x86/inject.c:112-144 | whenever base_event is set, the events are letters, alternate, pair each press with its release, begin with a lone release exactly if it was set halfway, and end with a release |
| GtkInjector.Injector.InjectKey | second_layer/x86/inject.c:52-73 | once base_event is set every call emits its event |
| GtkInjector.Injector.InjectThread | second_layer/x86/inject.c:112-136 | one run makes its pairs of calls, whenever the main thread snoops |
| GtkInjector.Injector.InjectThreadWrapper | second_layer/x86/inject.c:140-144 | over any number of runs the events emitted alternate |
| GtkInjector.Injector.Snooper | second_layer/x86/inject.c:92-109 | the first key event with a window sets base_event, for good |

## Left out

- Overflow of the 64-bit nanosecond clock, and of the 64-bit trace cursors by more than 2^64 reads.
- Other modules that change an interrupt's handler: only this module's stores are interleaved with dispatches.
- HookTable.Hooks.HookInterrupt: does not model the dereference of the descriptor's action in a log message, which needs the action to be set.
- Traces.TraceLog.DevRead: does not model what lies behind the end of the buffer; a read that would go there after a wrap is reported as an overrun.
- Keystrokes before timer_init, when the timer is not initialised: the plugins are live a little earlier.
- `find_touchscreen_device`, `get_irq_affinity`, the enable, disable and update members, the plugins' names, numbers and data: no property beyond their bodies.
- Prefetching, inline assembly, memory-mapped registers and cycle counters: hardware effects without logic.
- Allocation failures and the error paths of `traces_init`.
- The Nexus 5 variant of the touchscreen driver (`s3350.c`), a near copy of `s3320.c`.
- Scancodes of two bytes, which the kernel decodes; the model decodes single bytes, with bit 7 a release.
- GTK widgets, the preload wrappers, the keyboard and framework patches, packaging.
