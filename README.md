# fetap core in Dafny

fetap turns a rotary telephone into a SIP phone. A Raspberry Pi reads the receiver switch, the dial-active switch and the dial pulse line through GPIO. A state machine inside the daemon turns those edges into a dialled number. A supervised `pjsua` command-line process places and answers calls. A JSON phone book maps short numbers to SIP addresses. A pulse-count error-correction module tolerates miscounted dial pulses. A bootstrap script brings the device onto Wi-Fi through `nmcli`.

This project models that core and proves properties of the model:

- `wrappers.dfy` (`Wrappers`) holds `Option` and `Result`.
- `text.dfy` (`Text`) defines the Python string operations the core relies on: `split`, `strip`, `endswith`, `replace`, `count` and `join`. Each comes with the lemmas the other modules use.
- `error_correction.dfy` (`ErrorCorrection`) models `fetap/error_correction.py`:
  - the validators;
  - the pulse encoding of a phone number, where 0 is ten pulses;
  - the L1 signal distance, proved to be a metric;
  - the closest-number search, with the pinned test scenarios.
- `phone_machine.dfy` (`PhoneMachine`) models `fetap/main.py`:
  - The `Phone` state machine is a pure transition function `Fire`. It applies python-statemachine's callback order: the guard is evaluated first, then the exit hook, the state change, the enter hook, and last the `after_<event>` hook. An internal transition runs no enter or exit hooks.
  - A `Phone` class holds the three fields the hooks update in place. `EventQueue`, `Hardware` and `App` are classes whose methods change the queue and the phone.
- `pjsua.dfy` (`Pjsua`) models `fetap/pjsua.py`:
  - inference of the call state from `call list`;
  - the callback rule of `_check_calls`;
  - the `>>>` prompt framing of stdout;
  - one cycle of the supervisor loop;
  - `start`, `send_command` and the command strings.

  All state lives in a `Supervisor` value that the `PJSua` class mirrors field by field. The stdout framing loop is a method with a loop invariant over the pure framing function.
- `storage.dfy` (`Storage`) models `fetap/storage.py`:
  - the two dictionaries of `PhoneBook`;
  - lookups, insertion and deletion, with their error classes;
  - the rebuild of the reverse map on reload;
  - the sorted listing, under Python's string order.
- `bootstrap.dfy` (`Bootstrap`) models `device/fetap_bootstrap.py`:
  - `nmcli`'s terse output splitting, with the escaped colon;
  - `con_show`, `device_wifi_list` and the `int()` conversion it uses;
  - `is_connected`;
  - the routing of `do_GET`.

**Two behaviours of `fetap/main.py` to note:**
- **The `is_last_digit` guard** runs before `on_exit_dial_active` appends the digit. So with `number_length = n`, the phone reaches `connecting` when the n+1-th digit is dialled. With the application's default of 6, that is a 7-digit number, matching `NUMBER_LENGTH = 7` in `error_correction.py`. A number starting with `0` never reaches `connecting`. `NumberLengthOneScenario` shows this for `number_length = 1`.
- **The state machine has no other states or events.** It has exactly the six states and eight events declared in `fetap/main.py`, and nothing else: no disconnected state, no counter-party hang-up event and no ringer output.

**Other modelling decisions:**
- **Rejected events.** An event with no transition from the current state raises `TransitionNotAllowed` in python-statemachine. `Fire` returns `None` for it, and `Phone.Send` reports `accepted == false` and changes nothing. In the daemon that exception propagates out of `handle_next_event` (fetap/main.py:172-174) and `run_forever` has no handler, so `accepted == false` from `HandleNextEvent` stands for the exception that ends the event loop.
- **`App.handle_next_event`** is modelled as firing, on the phone, the transition that the queued `Event` names. In the code, `Event` inherits a `__call__` from `_Event` that returns `NotImplemented`, so calling an enum member would not dispatch to the phone. The model states the evident intent: `tests/test_main.py` expects dispatch.
- **Clocks, pipes and threads become data.**
  - In `pjsua`, the process's return code from `poll()` is a parameter of each supervisor cycle.
  - The characters the process writes are a parameter of the stdout reader.
  - A blocking queue read that would time out is the `Timeout` error, returned when the queue is empty.
  - `send_command` is split into the enqueue (`SendCommand`) and the blocking read of the response (`AwaitResponse`). The supervisor's `Cycle` runs between the two.
- **`start`** is modelled with the startup output of the process as a parameter. The first framed response is the prompt banner, and it is discarded.
- **Call state.** `_infer_call_state` can return `None` when the call lines carry no known marker. The supervisor's call state is therefore an `Option<CallState>`.
- **The JSON file.** `_maybe_reload_phone_book` reads the JSON file. In the model, the loaded dictionary and its key order are parameters of `PhoneBook.Reload`. The order matters because the reverse map keeps the last number listed for an address.
- **`con_show` on blank output.** Blank `nmcli con show` output splits into one row with one empty field. Unpacking that row into four fields fails, so `con_show` raises instead of returning an empty list. The model returns the `WrongFieldCount` error; `ConShowBlankOutput` states it.

## Model

| member | source | states |
|---|---|---|
| Text.StripLeft | fetap/pjsua.py:151 | the result is a suffix of the input, starts with no whitespace, and only whitespace was removed |
| Text.StripRight | fetap/pjsua.py:151 | the result is a prefix of the input, ends with no whitespace, and only whitespace was removed |
| Text.Split | device/fetap_bootstrap.py:285 | `str.split(sep)` yields one more part than there are separators, and no part contains the separator |
| Text.JoinSplit | device/fetap_bootstrap.py:288 | joining the parts of a split with the separator gives back the string |
| Text.SplitJoin | device/fetap_bootstrap.py:288 | splitting a join of separator-free parts gives back the parts |
| Text.CountZero | device/fetap_bootstrap.py:285 | a character occurs zero times exactly when it is absent |
| ErrorCorrection.AsPulseCounts | fetap/error_correction.py:11-17 | accepted iff exactly 7 entries, all non-negative; the value is unchanged; the error names the wrong length before a negative entry |
| ErrorCorrection.AsPhoneNumber | fetap/error_correction.py:20-29 | accepted iff exactly 7 entries, each in 0..9; a wrong length is reported before an out-of-range digit |
| ErrorCorrection.DigitValues | fetap/error_correction.py:21-22 | `int(c)` for each character: succeeds iff every character is a decimal digit, yields each digit's value, and otherwise reports an offending character |
| ErrorCorrection.AsPhoneNumberFromString | fetap/error_correction.py:20-29 | a string is accepted iff it has 7 decimal digits, and digit i is the value of character i |
| ErrorCorrection.PhoneNumberString | fetap/error_correction.py:20-22 | rendering a phone number gives 7 characters |
| ErrorCorrection.PhoneNumberStringRoundTrip | fetap/error_correction.py:20-22 | parsing a rendered phone number gives it back |
| ErrorCorrection.StringPhoneNumberRoundTrip | fetap/error_correction.py:20-22 | rendering a parsed string gives it back |
| ErrorCorrection.ToPulseCounts | fetap/error_correction.py:32-34 | each digit becomes between 1 and 10 pulses, and the pulses mod 10 give the digit back |
| ErrorCorrection.ToPulseCountsInjective | fetap/error_correction.py:32-34 | distinct numbers produce distinct pulse counts |
| ErrorCorrection.ZipDistanceSymmetric | fetap/error_correction.py:63-69 | the summed absolute difference is symmetric |
| ErrorCorrection.ZipDistanceZero | fetap/error_correction.py:63-69 | the distance is zero iff the sequences are equal |
| ErrorCorrection.ZipDistanceTriangle | fetap/error_correction.py:63-69 | the distance obeys the triangle inequality |
| ErrorCorrection.SignalDistance | fetap/error_correction.py:63-69 | `_signal_distance`: the summed absolute differences of two pulse-count signals; pinned by `SignalDistanceIsMetric` |
| ErrorCorrection.SignalDistanceIsMetric | fetap/error_correction.py:63-69 | the signal distance between pulse counts is a metric |
| ErrorCorrection.FindClosestPhoneNumbers | fetap/error_correction.py:47-60 | the result has no more entries than there are stored numbers; what it holds is pinned by `FindClosestSound`, `FindClosestComplete` and `FindClosestAppend` |
| ErrorCorrection.FindClosestSound | fetap/error_correction.py:47-60 | every result entry is a stored number paired with its true distance, and that distance is within the bound |
| ErrorCorrection.FindClosestComplete | fetap/error_correction.py:47-60 | every stored number within the bound appears in the result with its distance |
| ErrorCorrection.FindClosestAppend | fetap/error_correction.py:52-60 | the search preserves the order of the stored numbers and is computed list by list |
| ErrorCorrection.FindClosestEmpty | fetap/error_correction.py:47-60 | the result is empty iff no stored number is within the bound |
| ErrorCorrection.FindSimilarNumbers | fetap/error_correction.py:37-44 | `find_similar_numbers`: the stored numbers within twice the given distance of the new number's signal; pinned by `FindSimilarIncludesItself` and `FindSimilarWithinTwiceDistance` |
| ErrorCorrection.FindSimilarIncludesItself | fetap/error_correction.py:37-44 | a stored number is similar to itself at distance 0 |
| ErrorCorrection.FindSimilarWithinTwiceDistance | fetap/error_correction.py:37-44 | similar numbers lie within twice the minimum distance of the new number's pulses |
| ErrorCorrection.ResolvesConstantFives | device/fetap-core/tests/test_error_correction.py:6-28 | pulses 5555555 resolve to exactly 5555555 at distance 0 |
| ErrorCorrection.ResolvesAlternatingMiscounts | device/fetap-core/tests/test_error_correction.py:6-28 | pulses 6464646 resolve to exactly 5555555 at distance 7 |
| ErrorCorrection.ResolvesTrailingMiscounts | device/fetap-core/tests/test_error_correction.py:6-28 | pulses 5555688 resolve to exactly 5555555 at distance 7 |
| ErrorCorrection.RejectsEightAlternatingMiscounts | device/fetap-core/tests/test_error_correction.py:30-40 | pulses 6464647 match no stored number |
| ErrorCorrection.RejectsEightTrailingMiscounts | device/fetap-core/tests/test_error_correction.py:30-40 | pulses 5555788 match no stored number |
| PhoneMachine.Fire | fetap/main.py:32-71 | one dispatch of a python-statemachine event: no transition from the current state gives `None`; otherwise the exit hook, the transition, the enter hook and the after hook are applied in that order, with `is_last_digit` read first; its properties are `FireFollowsTable` and the lemmas below |
| PhoneMachine.FireFollowsTable | fetap/main.py:32-46 | an event is accepted iff the transition table declares a transition for it from the current state, and the new state is one the table declares |
| PhoneMachine.ActivateDialResetsDigit | fetap/main.py:40-55 | activating the dial enters `dial_active` with the digit reset to 0 and the number kept |
| PhoneMachine.DialPulseCounts | fetap/main.py:45-59 | a pulse keeps the state and advances the digit by one, modulo 10 |
| PhoneMachine.DeactivateDialBranches | fetap/main.py:41-71 | releasing the dial appends the current digit and goes to `connecting` iff `is_last_digit` held before the append, else to `awaiting_dial_input` |
| PhoneMachine.ConnectingNumberLength | fetap/main.py:41-71 | on reaching `connecting`, the number has number_length+1 digits and, for a positive length, does not start with `0` |
| PhoneMachine.HangUpClears | fetap/main.py:34-65 | hanging up is accepted exactly in `in_call`, `awaiting_dial_input`, `connecting` and `dial_active`, and always ends in `idle` with an empty number |
| PhoneMachine.FirePreservesInv | fetap/main.py:24-71 | every accepted event keeps the invariant: the number holds only digits, it is empty in `idle` and `ringing`, and it is non-empty in `connecting` |
| PhoneMachine.RunAppend | fetap/main.py:172-174 | running two event sequences one after the other is running their concatenation |
| PhoneMachine.RunPreservesInv | fetap/main.py:24-71 | any accepted event sequence keeps the invariant |
| PhoneMachine.RunPulses | fetap/main.py:45-59 | k pulses add k to the digit, modulo 10 |
| PhoneMachine.TenPulsesDialZero | fetap/main.py:57-62 | ten pulses dial the digit 0 |
| PhoneMachine.DialOneDigit | fetap/main.py:40-71 | one turn of the dial with k pulses appends the digit k mod 10, and ends in `connecting` iff `is_last_digit` held |
| PhoneMachine.FirstPulseScenario | tests/test_main.py:51-58 | receiver up, dial activate, one pulse: the phone is in `dial_active` with digit 1 |
| PhoneMachine.NumberLengthOneScenario | fetap/main.py:41-71 | with number length 1, the first digit leads back to `awaiting_dial_input` and the second to `connecting` |
| PhoneMachine.Phone.constructor | fetap/main.py:48-52 | a new phone is idle with digit 0, an empty number and the given number length |
| PhoneMachine.Phone.EnterDialActive | fetap/main.py:54-55 | the hook resets the current digit |
| PhoneMachine.Phone.CountDialPulse | fetap/main.py:57-59 | the hook advances the digit modulo 10 |
| PhoneMachine.Phone.ExitDialActive | fetap/main.py:61-62 | the hook appends the digit's character to the number |
| PhoneMachine.Phone.ClearNumber | fetap/main.py:64-65 | the hook empties the number |
| PhoneMachine.Phone.Send | fetap/main.py:32-71 | firing an event on the phone object gives exactly the state of `Fire`; a rejected event changes nothing |
| PhoneMachine.EventQueue.constructor | fetap/main.py:159 | a new queue is empty |
| PhoneMachine.EventQueue.Put | fetap/main.py:134 | `put_nowait` appends at the tail |
| PhoneMachine.EventQueue.Get | fetap/main.py:173 | `get` removes and returns the head; an empty queue yields nothing and stays empty |
| PhoneMachine.Hardware.constructor | fetap/main.py:160 | the hardware keeps the queue it is given |
| PhoneMachine.Hardware.OnDialActiveToggle | fetap/main.py:128-136 | a high input queues `DIAL_ACTIVATE` and any other queues `DIAL_DEACTIVATE` |
| PhoneMachine.Hardware.OnDialPulseRising | fetap/main.py:138-139 | a rising pulse edge queues `DIAL_PULSE` |
| PhoneMachine.Hardware.OnReceiverToggle | fetap/main.py:141-146 | a high input queues `RECEIVER_UP` and any other queues `RECEIVER_DOWN` |
| PhoneMachine.App.constructor | fetap/main.py:157-160 | the app starts with an idle phone of number length 6, an empty queue, and hardware writing into that queue |
| PhoneMachine.App.HandleNextEvent | fetap/main.py:172-174 | the head of the queue is removed and fired on the phone, and the rest of the queue is untouched |
| Pjsua.InferCallState | fetap/pjsua.py:112-122 | `_infer_call_state`: the call lines after the first line are searched for the confirmed, calling and incoming markers in that order, else idle when there are no call lines, else no state; pinned by `InferIdleIffNoNewline` and `InferFromListing` |
| Pjsua.CallbacksFor | fetap/pjsua.py:130-142 | the callbacks `_check_calls` fires for a change from the current to the inferred state, in its order; pinned by `CallbacksRule` |
| Pjsua.InferIdleIffNoNewline | fetap/pjsua.py:112-116 | the inferred state is idle exactly when the response contains no newline, that is, no line after its header |
| Pjsua.InferFromListing | fetap/pjsua.py:112-122 | for a header and its call lines, a confirmed line anywhere means in-call, and no lines means idle; otherwise the calling and incoming markers decide in that order |
| Pjsua.CallbacksRule | fetap/pjsua.py:130-142 | no callback fires without a change of state; incoming fires iff the new state is incoming, connected iff it is in-call, and hangup iff the old one was; at most two fire, and never connected and hangup together |
| Pjsua.FrameAll | fetap/pjsua.py:144-153 | the stdout reader over a chunk: the buffer left over and the stripped messages completed by a `>>>` prompt, in order; pinned by `FrameCharCases`, `FrameAllAppend` and `FramedRoundTrip` |
| Pjsua.FrameCharCases | fetap/pjsua.py:148-153 | reading one character either completes a prompt, emitting the stripped text before it and clearing the buffer, or only extends the buffer |
| Pjsua.FrameAllAppend | fetap/pjsua.py:144-153 | reading two chunks one after the other is reading their concatenation |
| Pjsua.FrameAllKeepsNoPrompt | fetap/pjsua.py:144-153 | the buffer never holds a complete prompt between reads |
| Pjsua.FramePlain | fetap/pjsua.py:144-153 | text without `>` only accumulates in the buffer and emits nothing |
| Pjsua.FrameMessage | fetap/pjsua.py:149-153 | a message without `>` followed by the prompt emits the stripped message and leaves an empty buffer |
| Pjsua.StripAll | fetap/pjsua.py:151 | one stripped output per message |
| Pjsua.FramedRoundTrip | fetap/pjsua.py:144-153 | prompt-terminated messages written back to back are read as exactly their stripped forms, in order |
| Pjsua.ReadChars | fetap/pjsua.py:146-153 | the character loop computes exactly the framing function |
| Pjsua.CallCommandRoundTrip | fetap/pjsua.py:187-188 | the address is recovered from the `call new sip:` command |
| Pjsua.Cycle | fetap/pjsua.py:95-110 | one supervisor pass: the not-running and process-died checks, then at most one queued command written with one response moved to the caller, then a call check; pinned by `CycleOrder` |
| Pjsua.CheckCalls | fetap/pjsua.py:124-142 | `_check_calls` on explicit state: write `call list`, take one line or time out, infer the state, fire the callbacks and store the state; pinned by `CheckCallsSpec` |
| Pjsua.CycleOrder | fetap/pjsua.py:95-110 | a cycle fails with not-running or process-died first; otherwise it writes at most one queued command with a newline, moves one stdout response to the responses queue, and then checks calls |
| Pjsua.CheckCallsSpec | fetap/pjsua.py:124-142 | on a running supervisor, checking calls writes `call list`, and times out iff no line is queued; otherwise it consumes one line, takes the inferred state and fires exactly the callbacks for that change |
| Pjsua.CheckCallsSameState | fetap/pjsua.py:124-132 | when the inferred state equals the current one, only the `call list` write and the consumed response change |
| Pjsua.CommandRoundTrip | fetap/pjsua.py:95-185 | a sent command, one cycle and an await return the next stdout response, and the process receives the command and then `call list` |
| Pjsua.Start | fetap/pjsua.py:155-179 | `start`: refused when already running; otherwise the startup output is read and the first response discarded, or a timeout; pinned by `StartOnce` and `StartDiscardsBanner` |
| Pjsua.StartOnce | fetap/pjsua.py:155-156 | starting a running supervisor fails and changes nothing |
| Pjsua.StartDiscardsBanner | fetap/pjsua.py:155-179 | starting with a banner ended by a prompt leaves the supervisor running with nothing queued |
| Pjsua.NotRunningGuards | fetap/pjsua.py:89-93 | checking calls, running a cycle and reading stdout without a running process each fail with not-running and change nothing |
| Pjsua.PJSua.constructor | fetap/pjsua.py:59-82 | a new supervisor is not running, has empty queues and logs, and has the idle call state |
| Pjsua.PJSua.ReadStdoutLoop | fetap/pjsua.py:144-153 | the object's state after reading a chunk is that of the framing function |
| Pjsua.PJSua.CheckCallsStep | fetap/pjsua.py:124-142 | the object's state after checking calls is that of `CheckCalls` |
| Pjsua.PJSua.CheckStatusCycle | fetap/pjsua.py:95-110 | the object's state after one cycle is that of `Cycle` |
| Pjsua.PJSua.CheckStatusLoop | fetap/pjsua.py:95-110 | the object's state after a sequence of polls is that of the iterated cycle |
| Pjsua.PJSua.StartProcess | fetap/pjsua.py:155-179 | the object's state after starting is that of `Start` |
| Pjsua.PJSua.Send | fetap/pjsua.py:181-182 | the command is appended to the command queue |
| Pjsua.PJSua.Await | fetap/pjsua.py:183-185 | the head of the responses queue is returned, or a timeout if there is none |
| Pjsua.PJSua.Call | fetap/pjsua.py:187-188 | queues `call new sip:<address>` |
| Pjsua.PJSua.AcceptCall | fetap/pjsua.py:190-191 | queues `call answer 200` |
| Pjsua.PJSua.HangupAll | fetap/pjsua.py:198-199 | queues `call hangup_all` |
| Pjsua.PJSua.RequestCallList | fetap/pjsua.py:193-194 | queues `call list` |
| Pjsua.PJSua.AwaitCallList | fetap/pjsua.py:194-196 | the awaited response is read as a call state; a timeout is passed on |
| Storage.InsertEntryAsWritten | fetap/storage.py:72-89 | `insert` as written, with `get_address(address)` and `get_number(number)`; pinned by `InsertAsWrittenErrors`, `InsertAsWrittenThenGet` and `InsertAsWrittenBreaksInverse` |
| Storage.InsertEntry | fetap/storage.py:72-89 | `insert` with the lookups the exception names intend; pinned by `InsertErrors`, `InsertThenGet` and `InsertPreservesInverse` |
| Storage.InsertAsWrittenErrors | fetap/storage.py:72-89 | as written, insertion reports an existing address exactly when the address is a key of the number map, and an existing number when the number is a key of the address map |
| Storage.InsertAsWrittenThenGet | fetap/storage.py:87-88 | after a successful insertion as written, both lookups find the new pair and every other lookup is unchanged |
| Storage.InsertAsWrittenBreaksInverse | fetap/storage.py:72-89 | as written, inserting a second address for a stored number is accepted and breaks the two maps' mutual inverse |
| Storage.InsertErrors | fetap/storage.py:72-89 | insertion reports an existing address iff the address is stored and an existing number iff the number is stored (address first), and on error nothing changes |
| Storage.InsertThenGet | fetap/storage.py:42-88 | after a successful insertion both lookups find the new pair and every other lookup is unchanged |
| Storage.InsertPreservesInverse | fetap/storage.py:72-89 | insertion keeps the number map and the address map mutually inverse |
| Storage.RemoveNumber | fetap/storage.py:66-70 | `del_number`: pop the number, then delete its address from the reverse map, each step raising on a missing key; pinned by `DelNumberSpec` and `DelNumberPartial` |
| Storage.DelNumberSpec | fetap/storage.py:66-70 | deleting a number fails iff the number is not stored, then changing nothing; otherwise it removes the pair from both maps and keeps them inverse |
| Storage.DelAddressSpec | fetap/storage.py:60-64 | deleting an address fails iff it is not stored, then changing nothing; otherwise it removes the pair from both maps and keeps them inverse |
| Storage.DelNumberPartial | fetap/storage.py:66-70 | when the maps disagree, the number is removed before the missing address raises |
| Storage.DeleteUndoesInsert | fetap/storage.py:60-89 | deleting a freshly inserted number or address restores the phone book |
| Storage.Invert | fetap/storage.py:40 | the reverse map built by the dict comprehension over the items in order, a later number overwriting an earlier one; pinned by `InvertSound` |
| Storage.InvertSound | fetap/storage.py:40 | every address of the rebuilt reverse map maps to a number that maps back to it, and its keys are exactly the addresses in use |
| Storage.ReloadRestoresInverse | fetap/storage.py:34-40 | reloading a dictionary with distinct addresses makes the two maps mutually inverse |
| Storage.LessIrreflexive | fetap/storage.py:94 | Python string order is irreflexive |
| Storage.LessTransitive | fetap/storage.py:94 | Python string order is transitive |
| Storage.LessTotal | fetap/storage.py:94 | Python string order is total |
| Storage.LeastExists | fetap/storage.py:94 | a non-empty set of numbers has a least element |
| Storage.LeastUnique | fetap/storage.py:94 | the least element is unique |
| Storage.SortedKeysSpec | fetap/storage.py:94 | `sorted` returns every number exactly once, in strictly increasing order |
| Storage.ListAllSpec | fetap/storage.py:91-94 | the listing has one correct (number, address) pair per stored number, each pair present, strictly ordered by number |
| Storage.PhoneBook.ListAll | fetap/storage.py:91-94 | the sorted (number, address) pairs of the object's number map; pinned by `ListAllSpec` |
| Storage.PhoneBook.constructor | fetap/storage.py:16-19 | a new phone book is empty |
| Storage.PhoneBook.Reload | fetap/storage.py:34-40 | given the loaded dictionary and its key order (every key exactly once, as `items()` visits them), the number map becomes the dictionary and the address map its inversion in that order |
| Storage.PhoneBook.GetNumber | fetap/storage.py:42-49 | returns the number of the address, or `NumberDoesNotExist` |
| Storage.PhoneBook.GetAddress | fetap/storage.py:51-58 | returns the address of the number, or `AddressDoesNotExist` |
| Storage.PhoneBook.Insert | fetap/storage.py:72-89 | the object's state and error are those of the insertion as written, with the crossed lookups of lines 76 and 82 |
| Storage.PhoneBook.InsertChecked | fetap/storage.py:72-89 | the object's state and error are those of the corrected insertion, which keeps the two maps inverse |
| Storage.PhoneBook.DelNumber | fetap/storage.py:66-70 | the object's state and error are those of `RemoveNumber` |
| Storage.PhoneBook.DelAddress | fetap/storage.py:60-64 | the object's state and error are those of `RemoveAddress` |
| Storage.TwoEntriesScenario | device/fetap-core/tests/test_storage.py:33-41 | after two insertions with the program's `insert` as written, the listing is both pairs sorted by number and each lookup returns its counterpart |
| Bootstrap.SplitLine | device/fetap_bootstrap.py:282-286 | `_split_line`: protect `\:`, split on `:`, then restore `:` in every field; pinned by `FieldCount`, `SplitLineJoin`, `SplitLineEscapedJoin` and `EscapedColonScenario` |
| Bootstrap.SplitOutput | device/fetap_bootstrap.py:288 | terse `nmcli` output, stripped and split into lines, and each line into fields; pinned by `SplitOutputBlank` |
| Bootstrap.SeparatorsAfterEscape | device/fetap_bootstrap.py:285 | after protecting escaped colons, the remaining colons are the unescaped ones |
| Bootstrap.FieldCount | device/fetap_bootstrap.py:282-286 | a line splits into one more field than it has unescaped colons |
| Bootstrap.SplitOutputBlank | device/fetap_bootstrap.py:288 | blank output splits into a single row holding one empty field |
| Bootstrap.SplitLineJoin | device/fetap_bootstrap.py:282-286 | fields without colons, backslashes or underscores joined by `:` split back into the same fields |
| Bootstrap.SplitLineEscapedJoin | device/fetap_bootstrap.py:282-286 | fields that may hold `:` but no backslash or underscore, each colon escaped as `\:` and the fields joined by `:`, split back into the same fields |
| Bootstrap.EscapedColonScenario | device/fetap_bootstrap.py:282-286 | `a\:b:c` splits into `a:b` and `c` |
| Bootstrap.ParseRowsSpec | device/fetap_bootstrap.py:217-220 | a list comprehension over rows succeeds iff every row parses, and then yields their parses in order |
| Bootstrap.ConShow | device/fetap_bootstrap.py:214-220 | `con_show`: one four-field connection per row, or the first unpacking error; pinned by `ConShowSpec` and `ConShowBlankOutput` |
| Bootstrap.ConShowSpec | device/fetap_bootstrap.py:214-220 | `con_show` succeeds iff every row has four fields, and then yields one connection per row with its fields in order |
| Bootstrap.ConShowBlankOutput | device/fetap_bootstrap.py:214-220 | blank output fails with a four-field unpacking error |
| Bootstrap.IsConnected | device/fetap_bootstrap.py:30-35 | `is_connected` over the `con_show` output; pinned by `IsConnectedSpec` |
| Bootstrap.IsConnectedSpec | device/fetap_bootstrap.py:30-35 | connected iff some connection is on `wlan0` and is not the `fetap-hotpot` hotspot; a parse failure is passed on |
| Bootstrap.ParseInt | device/fetap_bootstrap.py:276 | `int()` of a field: surrounding whitespace stripped, one optional sign, a decimal literal with single underscores between digits, otherwise an error; pinned by `ParseIntRoundTrip` |
| Bootstrap.NatToString | device/fetap_bootstrap.py:276 | a rendered natural number is a non-empty string of digits |
| Bootstrap.NatToStringValue | device/fetap_bootstrap.py:276 | the digits of a rendered natural number are a decimal literal with its value |
| Bootstrap.ParseIntRoundTrip | device/fetap_bootstrap.py:276 | `int()` of a rendered integer gives it back |
| Bootstrap.IntToStringTrimmed | device/fetap_bootstrap.py:276 | a rendered integer has no surrounding whitespace |
| Bootstrap.NetworkOf | device/fetap_bootstrap.py:275-277 | one `device wifi list` row as a network: nine fields, with the channel and signal fields converted by `int()`; pinned by `NetworkOfSpec` |
| Bootstrap.NetworkOfSpec | device/fetap_bootstrap.py:275-277 | a row is a network iff it has nine fields and fields 4 and 6 are integers; the network takes the BSSID, SSID, channel and signal from fields 1, 2, 4 and 6 |
| Bootstrap.DeviceWifiList | device/fetap_bootstrap.py:266-278 | `device_wifi_list`: one network per row, or the first row's error; pinned by `DeviceWifiListSpec` |
| Bootstrap.DeviceWifiListSpec | device/fetap_bootstrap.py:266-278 | the list succeeds iff every row is a network, and then yields them in order |
| Bootstrap.SplitFirst | device/fetap_bootstrap.py:100-103 | with the character present, the head contains no copy of it and head, character and tail rebuild the input; without it, the input is returned whole with an empty tail |
| Bootstrap.DoGet | device/fetap_bootstrap.py:98-113 | the route `do_GET` takes for a request path; pinned by `DoGetRoutes` |
| Bootstrap.DoGetRoutes | device/fetap_bootstrap.py:98-113 | `/favicon.ico` serves the icon, `/` without a query the form, `/` with a query submits it, and every other path redirects, with or without a query |

## Left out

- **Running the pjsua binary.** `ensure_pjsua`, the download, `Popen`, the thread objects, `stop` and the stop flag are I/O and concurrency. The supervisor cycle, the stdout reader and `start` are modelled as steps over explicit state, and the return code and the output are parameters.
- **Concrete timeouts.** The timeout values passed to the queues are left out. A read that would block is the `Timeout` error on an empty queue.
- **Pjsua.PJSua.StartProcess** is one atomic step. In `start`, the supervisor thread is started before the banner is discarded, so the supervisor's first `call list` can take the banner from the queue, and `start` then discards the `call list` response instead. This interleaving of two threads is not modelled.
- **End of stdout.** At end of file, `read(1)` returns `""` and the reader loop keeps appending empty strings without ever completing a prompt. The model reads only the characters of a given chunk, so this endless loop after the process closes its output is not modelled.
- **Locks.** The lock around `_call_state`, and the `call_state` property that reads under it, are concurrency. The field is read directly.
- **`print` calls** in `send_command` and `call_list` are output only.
- **Call lines with no known marker.** `_infer_call_state` returns `None` for these; the model keeps it as `None` rather than inventing a state.
- **GPIO.** `Hardware.setup`, `cleanup` and the GPIO pin constants are hardware I/O. The callbacks take the sampled input level as a parameter.
- **`App.start`, `stop`, `run_forever` and `phone_app`** only wrap hardware setup or loop forever. `HandleNextEvent` is the loop body.
- **`Event.__call__`.** That `Event.__call__` returns `NotImplemented` through `_Event` is not modelled. `HandleNextEvent` fires the enum member's transition, which is the dispatch the application and its tests rely on.
- **Blocking on an empty event queue.** `queue.Queue.get` blocks when the queue is empty. `HandleNextEvent` returns `QueueEmpty` instead.
- **Files.** The phone book's JSON file, the file lock, the modification-time check and `_save_phone_book` are file I/O. `Reload` takes the loaded dictionary and its key order, and saving is not modelled.
- **Storage.PhoneBook.ListAll**, `Insert`, `InsertChecked` and the lookups do not reload the file first. The lookups' `should_reload` path is covered by calling `Reload` beforehand.
- **Running `nmcli`.** `_nmcli` is a subprocess call. The output text is a parameter of `ConShow`, `DeviceWifiList` and `IsConnected`.
- **`ensure_internet`, the hotspot and connect commands, `get_wifi_credentials`,** the HTTP server's `_submit`, `_get_form`, `_get_favicon`, `_redirect`, the HTML and the signal bars are I/O or presentation. `DoGet` models only which route a GET request takes.
- **ErrorCorrection.DigitValues** accepts only the ASCII digits `0`-`9`. Python's `int(c)` also accepts every other Unicode decimal digit, such as `٠`. Unicode digit classes are not modelled.
- **ErrorCorrection.AsPhoneNumberFromString** inherits this: it rejects strings such as `٠١٢٣٤٥٦`, which `as_phone_number` turns into `(0, 1, 2, 3, 4, 5, 6)`.
- **Bootstrap.ParseInt** accepts decimal literals of ASCII digits with single underscores between digits, one leading sign and surrounding whitespace (the full `str.isspace` set, as `int()` strips it). It does not accept the non-ASCII decimal digits that Python's `int()` also accepts.
- **Bootstrap.SplitLine** reverses only the `\:` escape, as the source does. Other `nmcli` backslash escapes are not modelled.
- **Other files.** `fetap/dial.py`, `fetap/__main__.py`, `fetap/deploy.py`, `fetap/conman.py`, the web server and the developer CLI are not part of this model.

## Findings

| source | as written | input that shows it | evidently intended | confidence | as-written member | corrected member |
|---|---|---|---|---|---|---|
| fetap/storage.py:76-82 | `insert` checks for an existing address with `get_address(address)` and for an existing number with `get_number(number)`. These look the address up among the numbers and the number up among the addresses. | A book holding number `110` for address `A`, then `insert("110", "B")`: it is accepted and overwrites `110`, while `A` still maps to `110` in the reverse map. | Reject an address already in the address map (`AddressExists`) and a number already in the number map (`NumberExists`), so the two maps stay inverse. | not executed | Storage.InsertAsWrittenBreaksInverse | Storage.InsertPreservesInverse |

The `PhoneBook` object keeps both: `PhoneBook.Insert` performs the lookups as written, and `PhoneBook.InsertChecked` performs the corrected ones.
