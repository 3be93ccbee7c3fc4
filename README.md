# scottbrian_utils in Dafny

A model of the sequential core of the `scottbrian_utils` Python library, with
proofs of what its code promises. Each source file is modelled by one module.

- `FileCatalogs` (file_catalog.dfy) models `FileCatalog`, a catalog that maps
  file names to full paths and keeps its entries sorted by file name.
  - `add_paths` and `del_paths` check the whole batch before they change
    anything.
  - `__repr__` renders a shortened view of the entries.
  - The pandas DataFrame becomes a sorted `seq<FileSpec>`.
  - Each method is proved against a function of the old catalog, and the
    properties are proved about that function.
- `SELocks` (se_lock.dfy) models `SELock`, a shared/exclusive lock.
  - Its state is an owner count (0 free, n > 0 shared, -1 exclusive) and a
    FIFO queue of waiters.
  - A request that cannot be granted is queued under a ticket. `release`
    returns the tickets of the waiters it wakes.
  - The `SELockShare` and `SELockExcl` context managers are modelled too.
- `LogVerifier` (log_verifier.dfy) models `LogVer`.
  - It stores call sequences and expected patterns.
  - It matches them against captured log messages, each message against the
    first unmatched pattern that matches it, and counts the results.
  - `verify_log_results` checks those counts, raising its errors in a fixed
    order.
- `EntryTrace` (entry_trace.dfy) models the `etrace` decorator.
  - At decoration time it works out the set of parameters to omit, the target
    name and the parameter table.
  - At call time it binds positional arguments (gathering `*args` into a
    tuple) and keyword arguments, masks the omitted parameters, and renders
    the entry and exit log lines.
- `Timers` (timer.dfy) models `Timer`: how the timeout is chosen, the
  remaining time it reports and whether it has expired.
- `DiagMsg` (diag_msg.dfy) models the caller information of a frame and the
  call sequence that `get_formatted_call_sequence` formats.
- `FlowerBox` (flower_box.dfy) models the box of asterisks that
  `print_flower_box_msg` prints, as the sequence of printed strings.
- `Throttles` (throttle.dfy) models the `Throttle` class as the code has it.
  - It validates its arguments and holds an empty `request_times`.
  - Its request hooks do nothing.
  - The module also models the sliding-window `Request` helper of the
    throttle tests.
- `Strings` and `Optional` are shared helpers:
  - Python string ordering;
  - integer-to-text conversion, with its round trip;
  - split and join on a character;
  - concatenation of mapped sequences;
  - an `Option` type.

External things become parameters of the model:

- the clock is a `now: real` argument;
- a regular-expression match is a `matches(pattern, msg)` function argument;
- Python's `str()`/`repr()` of arbitrary values and the text of a float are
  function arguments;
- the interpreter stack is a sequence of frames.

## Model

| member | source | states |
|---|---|---|
| DiagMsg.CallerModuleIsFileName | src/scottbrian_utils/diag_msg.py:53-54 | The module name is the file name proper: it contains no `/` and the path ends with it. |
| DiagMsg.FormatCallerShapes | src/scottbrian_utils/diag_msg.py:138-145 | The three entry shapes: `mod:line` for a script, `mod::func:line` for a function, `mod::cls.func:line` for a method. |
| DiagMsg.Window | src/scottbrian_utils/diag_msg.py:125-130 | The frames visited are depths `latest+1` onward. There are `depth` of them, fewer when the stack ends first, and none when `depth <= 0`. |
| DiagMsg.OldestFirstAt | src/scottbrian_utils/diag_msg.py:141-145 | Entries are prepended, so the i-th entry of the result is the frame i places from the far end of the window: oldest caller first. |
| DiagMsg.JoinEnds | src/scottbrian_utils/diag_msg.py:141-146 | A sequence joined with arrows starts with its first entry and ends with its last. |
| DiagMsg.CallSequenceEnds | src/scottbrian_utils/diag_msg.py:123-148 | With no frames in range the result is `''`. Otherwise it starts with the oldest visited caller's entry and ends with the entry of the caller at depth `latest+1`. |
| DiagMsg.CallSequenceStep | src/scottbrian_utils/diag_msg.py:141-146 | One more caller puts its entry in front, followed by `' -> '` unless it is the first. |
| DiagMsg.GetFormattedCallSequence | src/scottbrian_utils/diag_msg.py:123-148 | The loop builds exactly the joined, oldest-first sequence of the window's entries. |
| EntryTrace.OmitNormalised | src/scottbrian_utils/entry_trace.py:112 | A single name is omitted as the one-element list of it would be, and `None` as the empty list. A name listed twice is omitted once. |
| EntryTrace.TargetNameTopLevel | src/scottbrian_utils/entry_trace.py:121-126 | A top-level function is shown by its bare name and is not a method. |
| EntryTrace.TargetNameNested | src/scottbrian_utils/entry_trace.py:121-126 | A function nested under `<locals>` is shown by its bare name. |
| EntryTrace.TargetNameMethod | src/scottbrian_utils/entry_trace.py:127-142 | A method is shown as `:Class.method`. Its first parameter is skipped exactly when it is not a staticmethod. |
| EntryTrace.KeptFromPrefix | src/scottbrian_utils/entry_trace.py:151-160 | Only parameters of the signature, and never `**kwargs`, enter the table. |
| EntryTrace.KeptMembers | src/scottbrian_utils/entry_trace.py:151-160 | A parameter is kept if and only if it is neither the skipped first parameter nor `**kwargs`. |
| EntryTrace.SigTableLookup | src/scottbrian_utils/entry_trace.py:164-169 | The initial table has the kept parameters' names as its keys, in order and without repeats. Each name looks up its default, or `"?"` when it has none, and any other name is absent. |
| EntryTrace.VarPosIndex | src/scottbrian_utils/entry_trace.py:172-173 | The result is -1 or the position of the last `*args` parameter, with no `*args` after it. |
| EntryTrace.GetSomeIff | src/scottbrian_utils/entry_trace.py:200 | A key is found in the table exactly when it is one of its keys. |
| EntryTrace.GetAt | src/scottbrian_utils/entry_trace.py:209 | In a table with distinct keys, each entry's key looks up that entry's value. |
| EntryTrace.PutGet | src/scottbrian_utils/entry_trace.py:192-197 | After `d[k] = v`, `k` looks up `v` and every other key looks up what it did before. |
| EntryTrace.PutKeys | src/scottbrian_utils/entry_trace.py:196-197 | `d[k] = v` keeps the key order and appends `k` at the end only when it is new. |
| EntryTrace.PutAt | src/scottbrian_utils/entry_trace.py:192-194 | Assigning to a present key replaces its entry in place. |
| EntryTrace.DeleteGet | src/scottbrian_utils/entry_trace.py:211 | After `del d[k]`, `k` is absent and every other key looks up what it did. |
| EntryTrace.MaskGet | src/scottbrian_utils/entry_trace.py:199-201 | Masking keeps the keys in order. An omitted key that is present looks up `"..."`, and every other key looks up what it did before. |
| EntryTrace.RenderOmitted | src/scottbrian_utils/entry_trace.py:199-217 | In the rendered masked table each omitted parameter appears as `key='...', ` between the renderings of its neighbours. |
| EntryTrace.BindFailsIff | src/scottbrian_utils/entry_trace.py:190-194 | Positional binding raises `IndexError` exactly when there are more arguments than table entries and no `*args` entry. |
| EntryTrace.BindFromUnique | src/scottbrian_utils/entry_trace.py:190-194 | Positional binding keeps the table's keys distinct. |
| EntryTrace.BindPlain | src/scottbrian_utils/entry_trace.py:190-194 | Without `*args`, the i-th argument becomes the i-th parameter's value, no key is added, and unbound parameters keep their values. |
| EntryTrace.BindPlainKeys | src/scottbrian_utils/entry_trace.py:190-194 | Without `*args`, binding succeeds and leaves the keys as they were. |
| EntryTrace.BindPlainGet | src/scottbrian_utils/entry_trace.py:190-194 | Without `*args`, each bound parameter holds its argument and every other key keeps its value. |
| EntryTrace.BindVarArgs | src/scottbrian_utils/entry_trace.py:190-194 | At the `*args` position the remaining arguments are stored as one tuple and binding stops. The parameters before it get their arguments one by one. |
| EntryTrace.BindTouchesOnly | src/scottbrian_utils/entry_trace.py:190-194 | A key that no later parameter has keeps its value through binding. |
| EntryTrace.BindKeywordsSpec | src/scottbrian_utils/entry_trace.py:196-197 | Each keyword argument ends with its value, and keys not mentioned keep theirs. |
| EntryTrace.BindKeywordsUnique | src/scottbrian_utils/entry_trace.py:196-197 | Keyword binding keeps keys distinct and keeps every existing key. |
| EntryTrace.Tracer.constructor | src/scottbrian_utils/entry_trace.py:112-173 | The decorator stores the omit set, the target `file:name:line` (`?` when the source cannot be read), the flags, and the table, names, kinds and `*args` index of the kept parameters. |
| EntryTrace.Tracer.Call | src/scottbrian_utils/entry_trace.py:176-230 | Disabled tracing passes the call straight through. An `IndexError` from binding, or a `ValueError` naming an omitted parameter not in the table, is raised before the call, with nothing logged. Otherwise the entry line is logged (masked table, unfilled `*args` dropped) and the wrapped function's result is returned unchanged. A returned value is followed by the exit line (`return value omitted` when asked); a raised exception propagates with no exit line. |
| EntryTrace.BuildSignature | src/scottbrian_utils/entry_trace.py:146-173 | The signature loop builds exactly the table, names, kinds and `*args` index of the kept parameters, and the table keys are distinct. |
| EntryTrace.DescribesStep | src/scottbrian_utils/entry_trace.py:162-173 | One loop turn for a kept parameter extends the table, names, kinds and `*args` index consistently. |
| EntryTrace.KeptStep | src/scottbrian_utils/entry_trace.py:151-162 | A parameter that is not skipped extends the kept ones, and its name is new. |
| EntryTrace.SigTableStep | src/scottbrian_utils/entry_trace.py:164-169 | Adding a kept parameter with a new name appends its entry to the table. |
| EntryTrace.BindPositional | src/scottbrian_utils/entry_trace.py:190-194 | The positional loop computes the binding function, including the `IndexError` case. |
| EntryTrace.ApplyOmit | src/scottbrian_utils/entry_trace.py:199-205 | The omit loop succeeds exactly when every name to omit is in the table, and then gives the masked table. Otherwise it raises `ValueError` with a name that is to be omitted but absent. |
| EntryTrace.Render | src/scottbrian_utils/entry_trace.py:213-217 | The rendering loop produces exactly the concatenated `key='v', ` / `key=v, ` entries. |
| FileCatalogs.SingleAsList | src/scottbrian_utils/file_catalog.py:240-241 | A single tuple is added, and deleted, exactly as the one-element list of it. |
| FileCatalogs.Insert | src/scottbrian_utils/file_catalog.py:272 | Inserting a new name keeps the catalog sorted, grows it by one, and adds exactly that name with that path. |
| FileCatalogs.InsertAll | src/scottbrian_utils/file_catalog.py:272 | Merging new entries keeps the catalog sorted, and its names are the old ones together with the new ones. |
| FileCatalogs.InsertAllContents | src/scottbrian_utils/file_catalog.py:265-272 | The merged catalog maps the old names as before and the new names to their paths, and its length is the sum of the two. |
| FileCatalogs.RemoveNames | src/scottbrian_utils/file_catalog.py:347-348 | Dropping names keeps the catalog sorted and removes exactly those names from the mapping. |
| FileCatalogs.RemoveNamesLength | src/scottbrian_utils/file_catalog.py:347-348 | Dropping shortens the catalog by the number of dropped names that were present. |
| FileCatalogs.CollectAdds | src/scottbrian_utils/file_catalog.py:247-264 | (corrected, see Findings) The names the add loop collects are distinct, new to the catalog, and exactly the batch's names that are not yet catalogued. |
| FileCatalogs.CollectAddsMaps | src/scottbrian_utils/file_catalog.py:247-264 | A successful collection means every batch element was a pair whose name ends up mapped to its path. |
| FileCatalogs.CollectAddsSkip | src/scottbrian_utils/file_catalog.py:256-262 | An element whose name is already present with the same path is skipped. |
| FileCatalogs.CollectAddsNew | src/scottbrian_utils/file_catalog.py:263-264 | An element with a name not yet present is collected. |
| FileCatalogs.CollectDels | src/scottbrian_utils/file_catalog.py:325-344 | The names the delete loop collects are exactly the batch's names that are present in the catalog. |
| FileCatalogs.AddPathsOk | src/scottbrian_utils/file_catalog.py:263-272 | (corrected, see Findings) After a successful add, the catalog is sorted and every batch name maps to its path. Every old entry is unchanged, no other name appears, and the length grows by the number of new names. |
| FileCatalogs.AddPathsSucceedsIff | src/scottbrian_utils/file_catalog.py:243-264 | (corrected, see Findings) An add succeeds exactly when the batch is non-empty, every element is a pair of strings, and no name is catalogued (or repeated in the batch) with another path. |
| FileCatalogs.AddPathsIdempotent | src/scottbrian_utils/file_catalog.py:256-264 | (corrected, see Findings) Adding the same batch twice gives the same catalog as adding it once. |
| FileCatalogs.ReAddIdentical | src/scottbrian_utils/file_catalog.py:256-264 | Re-adding a catalogued name with its own path leaves the catalog unchanged. |
| FileCatalogs.DelPathsOk | src/scottbrian_utils/file_catalog.py:335-348 | After a successful delete, the catalog is sorted and maps every name except those of the batch as before. The length shrinks by the number of batch names that were present. |
| FileCatalogs.CollectDelsOkIff | src/scottbrian_utils/file_catalog.py:325-344 | The delete loop succeeds exactly when every element is a pair of strings and no present name is given with another path. |
| FileCatalogs.DelPathsSucceedsIff | src/scottbrian_utils/file_catalog.py:321-344 | A delete succeeds exactly when the batch is non-empty and deletable. |
| FileCatalogs.ReprPrefixComplete | src/scottbrian_utils/file_catalog.py:147-161 | After the loop, the accumulated text is the rendered entries followed by `,\n`: the first two entries, `...` third when that is not the last entry, then the last entry. |
| FileCatalogs.ReprStrip | src/scottbrian_utils/file_catalog.py:163-164 | Stripping the final two characters of non-empty accumulated text leaves exactly the rendered entries. |
| FileCatalogs.FileCatalog.Empty | src/scottbrian_utils/file_catalog.py:96-97 | A new catalog is empty. |
| FileCatalogs.FileCatalog.New | src/scottbrian_utils/file_catalog.py:96-101 | (corrected, see Findings) `None` gives an empty catalog. A tuple or a list is added to an empty catalog, and the add's error is raised. |
| FileCatalogs.FileCatalog.Length | src/scottbrian_utils/file_catalog.py:119 | `len` is the number of distinct file names. |
| FileCatalogs.FileCatalog.GetPath | src/scottbrian_utils/file_catalog.py:196-200 | A present name gives its stored path, and any other name raises `FileNameNotFound`. |
| FileCatalogs.FileCatalog.AddPaths | src/scottbrian_utils/file_catalog.py:240-272 | (corrected, see Findings) The catalog becomes the add function's result. On an error the error is raised and the catalog is unchanged, so the add is all or nothing. |
| FileCatalogs.FileCatalog.DelPaths | src/scottbrian_utils/file_catalog.py:318-348 | The catalog becomes the delete function's result. On an error the error is raised and the catalog is unchanged. |
| FileCatalogs.FileCatalog.ReprLines | src/scottbrian_utils/file_catalog.py:142-161 | The `__repr__` loop accumulates each iteration's piece: an entry line, the ellipsis, or nothing. |
| FileCatalogs.FileCatalog.Repr | src/scottbrian_utils/file_catalog.py:139-169 | `FileCatalog()` when empty. Otherwise the rendered entries inside `FileCatalog(...)`, bracketed when there is more than one entry. |
| FileCatalogs.ToAddAsWritten | src/scottbrian_utils/file_catalog.py:247-264 | The add loop as written, which compares each name only with the catalog. |
| FileCatalogs.BatchDuplicateAsWritten | src/scottbrian_utils/file_catalog.py:256-272 | As written, `[('f','p'),('f','p')]` on an empty catalog queues two rows for `f`. The corrected add stores it once. |
| FileCatalogs.BatchConflictRejected | src/scottbrian_utils/file_catalog.py:256-272 | As written, `[('f','p'),('f','q')]` queues both rows. The corrected add raises `IllegalAddAttempt`. |
| FlowerBox.SingleAsList | src/scottbrian_utils/flower_box.py:55-56 | A single string is boxed exactly as the one-element list of it, and that never fails. |
| FlowerBox.MaxLen | src/scottbrian_utils/flower_box.py:58 | The result is at least every message's length and equal to one of them. |
| FlowerBox.FramedShape | src/scottbrian_utils/flower_box.py:62-64 | A message line has the box width, starts with `* `, ends with ` *`, and holds the message unchanged followed only by spaces. |
| FlowerBox.BoxShape | src/scottbrian_utils/flower_box.py:58-65 | The output is a newline with the top border, one framed line per message, and the bottom border. The border is exactly as wide as the longest message plus 4. |
| FlowerBox.MessagesRecoverable | tests/test_scottbrian_utils/test_flower_box.py:102-107 | Each message can be read back unchanged, in order, from its line of the box. |
| FlowerBox.EmptyRefused | src/scottbrian_utils/flower_box.py:58 | An empty list is refused, as `max()` of an empty list raises. |
| FlowerBox.FramedAllStep | src/scottbrian_utils/flower_box.py:62-64 | Framing one more message appends its line. |
| FlowerBox.PrintFlowerBoxMsg | src/scottbrian_utils/flower_box.py:55-65 | The loop prints exactly the box. |
| LogVerifier.CallSeqPattern | src/scottbrian_utils/log_verifier.py:281 | A known name gives its sequence followed by `:[0-9]* `. An unknown name is the `KeyError`. |
| LogVerifier.AddCallSeqThenGet | src/scottbrian_utils/log_verifier.py:262-281 | After `add_call_seq(name, s)`, the name's pattern is built from `s` whatever was stored before, and other names are unaffected. |
| LogVerifier.FirstMatchFrom | src/scottbrian_utils/log_verifier.py:326-331 | The inner loop finds the first pattern in list order that matches the message, or reports that none does. |
| LogVerifier.SelectSplit | src/scottbrian_utils/log_verifier.py:325-331 | Every message goes to exactly one of the matched and unmatched selections. |
| LogVerifier.MatchInvariantHolds | src/scottbrian_utils/log_verifier.py:325-331 | After each message, patterns are conserved and each matched message is paired with a pattern that matches it. The unmatched messages are those skipped plus those not yet handled, and no pattern left matches a skipped message. |
| LogVerifier.MatchStepSkipped | src/scottbrian_utils/log_verifier.py:326-331 | A message that no unmatched pattern matches is skipped, and the invariant is kept. |
| LogVerifier.MatchStepMatched | src/scottbrian_utils/log_verifier.py:326-331 | A message matched by the first matching pattern removes that pattern and the message, and the invariant is kept. |
| LogVerifier.FinalState | src/scottbrian_utils/log_verifier.py:325-331 | Once all messages are handled, the unmatched messages are exactly the skipped ones. |
| LogVerifier.MatchCountsConserved | src/scottbrian_utils/log_verifier.py:338-345 | `num_exp_records == num_exp_unmatched + num_records_matched` and `num_actual_records == num_actual_unmatched + num_records_matched`. |
| LogVerifier.MatchPartition | src/scottbrian_utils/log_verifier.py:325-331 | The matched and unmatched messages partition the log, each kept in log order. Each matched message pairs with a distinct expected pattern that matches it. |
| LogVerifier.MatchMaximal | src/scottbrian_utils/log_verifier.py:325-331 | No expected pattern left unmatched matches any actual message left unmatched. |
| LogVerifier.VerifyLogResults | src/scottbrian_utils/log_verifier.py:414-441 | With logging enabled, it raises `UnmatchedExpectedMessages`, else `UnmatchedActualMessages`, else `IncorrectNumberOfMatchedMessages`. With logging disabled, it raises `NonZeroNumberOfMatchedMessages` exactly when anything matched. |
| LogVerifier.VerifyEnabledPassIff | src/scottbrian_utils/log_verifier.py:414-434 | On real match results with logging enabled, verification passes exactly when nothing is left unmatched, so the third error never occurs. |
| LogVerifier.LogVer.constructor | src/scottbrian_utils/log_verifier.py:245-246 | A new verifier has no call sequences and no expected patterns. |
| LogVerifier.LogVer.AddCallSeq | src/scottbrian_utils/log_verifier.py:262 | Stores or replaces the name's sequence and changes nothing else. |
| LogVerifier.LogVer.GetCallSeq | src/scottbrian_utils/log_verifier.py:281 | Returns the stored sequence with the line-number pattern, or `KeyError`. |
| LogVerifier.LogVer.AddMsg | src/scottbrian_utils/log_verifier.py:293 | Appends one pattern at the end of the expected patterns and changes nothing else. |
| LogVerifier.LogVer.GetMatchResults | src/scottbrian_utils/log_verifier.py:312-345 | The nested loops compute the greedy first-fit results, and the expected patterns are left unchanged. |
| SELocks.Tickets | src/scottbrian_utils/se_lock.py:190-192 | The tickets of a queue, in queue order. |
| SELocks.ObtainKeepsInv | src/scottbrian_utils/se_lock.py:176-193 | `obtain` keeps the owner count at -1 or more. It also keeps an empty queue on a free lock, and an exclusive request at the head of the queue of a lock held shared. |
| SELocks.ReleaseKeepsInv | src/scottbrian_utils/se_lock.py:207-235 | `release` keeps the same invariant. |
| SELocks.ExclGrantedIff | src/scottbrian_utils/se_lock.py:177-180 | An exclusive request is granted exactly when the lock is free, and the requester then holds it alone. |
| SELocks.ShareGrantedIff | src/scottbrian_utils/se_lock.py:181-185 | A share request is granted exactly when the lock is not held exclusive and nobody waits, so no sharer overtakes a waiter. |
| SELocks.ObtainQueuesAtTail | src/scottbrian_utils/se_lock.py:186-192 | A request that is not granted joins the tail of the queue with its mode and ticket. An invalid mode raises `IncorrectModeSpecified` and changes nothing. |
| SELocks.ReleaseUnownedIff | src/scottbrian_utils/se_lock.py:210-216 | `release` raises `AttemptedReleaseOfUnownedLock` exactly on a free lock, and then changes nothing. |
| SELocks.ReleaseWakesFifo | src/scottbrian_utils/se_lock.py:217-235 | The woken waiters are a prefix of the queue and the rest stays queued. Either one exclusive waiter now holds the lock alone, or every woken waiter wanted a share and holds one. |
| SELocks.ReleaseWakesOnlyWhenFree | src/scottbrian_utils/se_lock.py:217-223 | While other sharers remain, `release` only decrements the count and wakes nobody. |
| SELocks.ObtainReleaseFree | src/scottbrian_utils/se_lock.py:176-220 | Obtaining a free lock in either mode and releasing it leaves it free. |
| SELocks.WakeSharersPrefix | src/scottbrian_utils/se_lock.py:230-235 | The wake loop pops the share waiters at the head of the queue, one share each, and stops at an exclusive waiter or an empty queue. |
| SELocks.SELock.constructor | src/scottbrian_utils/se_lock.py:113-115 | A new lock is free with an empty queue. |
| SELocks.SELock.Length | src/scottbrian_utils/se_lock.py:134 | `len` is the queue length, and a lock with waiters is owned. |
| SELocks.SELock.Obtain | src/scottbrian_utils/se_lock.py:176-193 | The lock's state and result follow the obtain step, and the invariant is kept. |
| SELocks.SELock.WakeShareWaiters | src/scottbrian_utils/se_lock.py:230-235 | The while loop computes the wake step. |
| SELocks.SELock.Release | src/scottbrian_utils/se_lock.py:207-235 | The lock's state and result follow the release step, and the invariant is kept. |
| SELocks.SELockShare.Enter | src/scottbrian_utils/se_lock.py:252-254 | Entering obtains the lock shared. |
| SELocks.SELockShare.Exit | src/scottbrian_utils/se_lock.py:256-265 | Exiting releases the lock. |
| SELocks.SELockExcl.Enter | src/scottbrian_utils/se_lock.py:283-285 | Entering obtains the lock exclusive. |
| SELocks.SELockExcl.Exit | src/scottbrian_utils/se_lock.py:287-296 | Exiting releases the lock. |
| Throttles.CheckArgs | src/scottbrian_utils/throttle.py:131-145 | The arguments are accepted exactly when the count is a positive int and the period a positive int or float. A bad count is reported first. |
| Throttles.ValidationExamples | src/scottbrian_utils/throttle.py:131-145 | Concrete rejections: a zero float period, a zero count, a `str` count, a float count. A `bool` count is an int. |
| Throttles.Throttle.Init | src/scottbrian_utils/throttle.py:133-146 | A throttle holds its arguments and no request times. |
| Throttles.Throttle.New | src/scottbrian_utils/throttle.py:131-146 | Construction raises exactly the validation error, and otherwise gives a throttle with empty `request_times`, so `len` is 0. |
| Throttles.Throttle.BeforeRequest | src/scottbrian_utils/throttle.py:207 | `before_request` leaves the request times, and so `len`, unchanged. |
| Throttles.Throttle.AfterRequest | src/scottbrian_utils/throttle.py:223 | `after_request` leaves the request times, and so `len`, unchanged. |
| Throttles.ReprShowsCount | src/scottbrian_utils/throttle.py:185-191 | `repr` starts with `Throttle(num_requests_allowed=`, followed by digits that read back as the count. |
| Throttles.TrimIsSuffix | tests/test_scottbrian_utils/test_throttle.py:94-98 | Trimming keeps a suffix. Every dropped entry is strictly older than the threshold and the first kept entry is not. |
| Throttles.TrimKeepsNewest | tests/test_scottbrian_utils/test_throttle.py:91-98 | With a non-negative period, the entry just appended is never trimmed. |
| Throttles.TrimWindow | tests/test_scottbrian_utils/test_throttle.py:91-98 | With timestamps appended in order, every kept entry lies within the period before the newest one. |
| Throttles.WindowUnbounded | tests/test_scottbrian_utils/test_throttle.py:100 | Trimming alone does not bound the count: two requests one second apart with a ten-second period are both kept. |
| Throttles.Request.constructor | tests/test_scottbrian_utils/test_throttle.py:82-84 | A new helper holds its arguments and no request times. |
| Throttles.Request.MakeRequest | tests/test_scottbrian_utils/test_throttle.py:91-100 | The request times become the old ones plus `now`, trimmed at `now - per_seconds`. The result reports whether the test's count assertion holds. |
| Timers.StoredTimeoutIntended | src/scottbrian_utils/timer.py:81-84 | A stored timeout that is truthy is positive. |
| Timers.Remaining | src/scottbrian_utils/timer.py:88-94 | The result is `None` exactly without a timeout. Otherwise it is `max(0.0001, timeout - elapsed)`, never below 0.0001. |
| Timers.PositiveTimeoutUsed | src/scottbrian_utils/timer.py:81-84 | A positive `timeout` is used and the default ignored. |
| Timers.NegativeTimeoutNeverExpires | src/scottbrian_utils/timer.py:81-82 | A negative `timeout` means no timeout, so the timer never expires, whatever the default. |
| Timers.FallsBackToDefault | src/scottbrian_utils/timer.py:84 | A `timeout` of `None` or 0 falls back to the default. |
| Timers.IntendedDiffersOnlyOnNegativeDefault | src/scottbrian_utils/timer.py:81-84 | The corrected choice differs from the code's exactly when the default is negative and `timeout` is `None` or 0. |
| Timers.NegativeDefaultExpiresAsWritten | src/scottbrian_utils/timer.py:84-98 | As written, `Timer(default_timeout=-1)` reports expired at once. |
| Timers.NonPositiveNeverExpires | tests/test_scottbrian_utils/test_timer.py:350-366 | With the corrected choice, a timer whose timeout and default are absent, zero or negative never expires. |
| Timers.ExpiredMeansFloor | src/scottbrian_utils/timer.py:88-102 | An expired timer reports the 0.0001 floor as its remaining time. |
| Timers.RemainingIsTimeLeft | src/scottbrian_utils/timer.py:88-102 | Before the floor is reached, a timer reports exactly the time left and has not expired. |
| Timers.Timer.constructor | src/scottbrian_utils/timer.py:76-84 | The timer records the start time and the chosen timeout (corrected, see Findings). |
| Timers.Timer.Timeout | src/scottbrian_utils/timer.py:88-94 | The `timeout` property is the remaining time, never below 0.0001. |
| Timers.Timer.IsExpired | src/scottbrian_utils/timer.py:98-102 | `is_expired` holds exactly when the stored timeout is truthy and more than it has elapsed since the start. |

## Left out

- Threads, blocking and the internal mutex of `SELock`. A waiter is a ticket, and `release` returns the tickets whose events it would set. The thread-coordination modules are not part of this model.
- pandas. The catalog is a sorted sequence of `(name, path)` entries, and `DataFrame.append`/`drop` are the model's sorted insert and removal.
- Regular expressions. `re.compile(...).match` is the `matches` argument, and patterns stay strings, so the loop of `get_match_results` that turns compiled patterns back into strings is the identity.
- The log records. `caplog.records[i].msg` and `caplog.record_tuples[i][2]` are one sequence of message strings, which holds when messages have no `%` arguments.
- `print_match_results`, logger calls and `print`'s `file`/`flush` arguments. Log lines and printed lines are returned sequences.
- Python's `str()`, `repr()` and float formatting of argument values. They are function arguments.
- Throttles.ReprShowsCount: fixes only the count's digits in `repr`, because the float text of `per_seconds` is an argument.
- Clocks (`time.time`, `datetime.utcnow`). The time is a `real` argument, and floating-point rounding is not modelled.
- `get_caller_info`'s search of the module globals for the class whose function has the frame's code object. The result is the frame's `definingClass` field.
- `inspect` and `wrapt`.
  - A signature is a sequence of parameters.
  - `enable_trace` is the `enableTrace` flag.
  - The `functools.partial` returned when `etrace` is used with arguments only is not modelled.
  - The caller string of the entry line is an argument.
- EntryTrace.ApplyOmit: a set has no iteration order in the model, so when several omitted names are missing it states only that some missing name is reported, not which one.
- Throttle pacing. `before_request` and `after_request` are empty, so no admission delay is modelled. Two throttle tests disagree with the code and are not followed: the `len` growth at tests/test_scottbrian_utils/test_throttle.py:141-147 and the timedelta text of `repr` at tests/test_scottbrian_utils/test_throttle.py:163-168.
- The `diag_msg` and `tell_me` functions of diag_msg.py, which only print.
- FileCatalogs.FileCatalog.AddPaths: follows the corrected reading under Findings, storing a name repeated in one batch once, rather than the code as written, which queues it twice. The as-written behaviour is modelled by FileCatalogs.ToAddAsWritten.
- FileCatalogs.FileCatalog.New: adds its initial specs with the same corrected add, for the same reason.
- Timers.Timer.constructor: stores the timeout of the corrected reading under Findings, so a negative `default_timeout` is ignored rather than kept. The as-written choice is modelled by Timers.StoredTimeout.

## Findings

| source | as written | input that shows it | evidently intended | confidence | as-written member | corrected member |
|---|---|---|---|---|---|---|
| src/scottbrian_utils/file_catalog.py:256-272 | `add_paths` compares each name with the catalog only, never with names collected earlier in the same batch, so one new name given twice is queued twice. | `add_paths([('f','p'),('f','p')])` on an empty catalog queues two rows named `f`. `[('f','p'),('f','q')]` queues two different paths for `f`. | Each name stored once: a repeat with the same path is skipped and one with another path raises `IllegalAddAttempt`, as for catalogued names. | not executed | FileCatalogs.ToAddAsWritten, FileCatalogs.BatchDuplicateAsWritten | FileCatalogs.CollectAdds, FileCatalogs.AddPathsOk, FileCatalogs.BatchConflictRejected |
| src/scottbrian_utils/timer.py:81-84 | Only a negative `timeout` is turned into "no timeout". A negative `default_timeout` is stored as it is, so `is_expired` is true at once. | `Timer(default_timeout=-1)` with `timeout=None`: `is_expired()` is true immediately. tests/test_scottbrian_utils/test_timer.py:350-366 expects it never to expire. | A non-positive default means no timeout, like a non-positive `timeout`. | not executed | Timers.StoredTimeout, Timers.NegativeDefaultExpiresAsWritten | Timers.StoredTimeoutIntended, Timers.NonPositiveNeverExpires |
