# throwaway-code core, modelled in Dafny

A model of the sequential logic of three small Python 2 utilities from the
nm13/throwaway-code repository, with the properties their code and comments
promise.

- **threading-progress** (`progress2.py` and its descriptor-based sibling `progress.py`).
  `Progress(func)` runs `func(*args)` periodically in a background thread. The
  owner reads and writes the arguments as attributes of the runner. The model covers:
  - the `NamedList` that holds the arguments: construction with head or tail
    filling, `map(None, ...)` padding, indexing and iteration;
  - the `CallOnce` gate;
  - the `_CallPeriodically` loop, as a state machine over owner and thread events;
  - argument validation (`_invalid_function`);
  - the two forwarding schemes: `__getattr__`/`__setattr__` routing in
    `progress2.py`, and per-instance data descriptors in `progress.py`;
  - construction, `_start_once` and `_done` of both runner variants.
- **colorize-py** (`colorize.py`). A Python-source-to-HTML colorizer. The model covers:
  - the text normalisation in `Parser.__init__` (tab expansion and strip);
  - the row-start table that `output` builds;
  - the token handler `Parser.__call__`: the source gap, positions, colour
    classes, `cgi.escape`, and the three kinds of markup.
  - what a reader of the output sees: with the tags dropped and the entities
    decoded, the output of any run of tokens over the source is the source.
- **inout** (`inout.py`). The model covers:
  - the command-line choice of input and output streams;
  - `open_`, which returns `None` on failure;
  - the `infile_only` flag;
  - `_replace_extension`, with the POSIX `os.path.splitext` rule written out.

Python's exceptions are values of `Py.Error`. An operation that can raise returns
`Py.Result`. Where the source raises something other than what it evidently meant,
the model keeps what the source raises:
- NamedList's and `_invalid_function`'s reserved-name message has two `%s` and one
  argument. The formatting raises `TypeError` before the intended `ValueError`
  is built.
- `NamedList([])` reaches `index + 1` with `index` unbound, which raises
  `UnboundLocalError`.
- A negative NamedList index looks up the `__no` dictionary and raises `KeyError`.
- `progress.py`'s `__new__` with `start_now` calls `self.__once`. Python mangles
  that to `_Progress__once`, but the gate is stored as `_once`. So construction with
  `start_now` raises `AttributeError`.
- The colour lookup evaluates `colors[_TEXT]` eagerly. A colour table without
  `_TEXT` raises `KeyError` for every ordinary token, after the gap is written.

Threads, the lock, `sleep` and the clock are not modelled. The owner and the
background thread act as an explicit sequence of events. A function call the model
cannot see is given as the `Outcome` it would have. Reflection results are
parameters:
- `inspect.getargspec` becomes a `Signature`;
- `_fieldnames` becomes a `reserved` set;
- whether `open` succeeds is an `opens` predicate.

## Model

| member | source | states |
|---|---|---|
| NamedLists.Construct | threading-progress/progress2.py:191-233 | construction succeeds exactly when there is at least one name and none starts with `__` or is reserved; a reserved name raises `TypeError`, no names `UnboundLocalError`; the order table is the names in order |
| NamedLists.SetAttr | threading-progress/progress2.py:459 | a write to the argument list binds that name to the value, leaves every other name's reading and the order table unchanged |
| NamedLists.ItemsFrom | threading-progress/progress2.py:252-258 | unpacking from position `i` yields, in order, exactly what indexing yields at each later position, and fails with `AttributeError` exactly when some later name is unbound |
| NamedLists.Iterate | threading-progress/progress2.py:252-258 | the generator yields `nl[0]`, `nl[1]`, ... and stops short (with `AttributeError` at the next index) exactly when a name is unbound; a complete run equals the unpacked argument list |
| NamedLists.BindValues | threading-progress/progress2.py:229-233 | with distinct names the `map(None, ...)` loop gives the `i`-th name the `i`-th value or `None` past the values, binds exactly the names, and touches nothing else |
| NamedLists.BindCoversNames | threading-progress/progress2.py:229-233 | whatever the names (repeats included), the binding loop binds exactly the declared names |
| NamedLists.HeadFill | threading-progress/progress2.py:223-233 | head filling: position `i` reads the `i`-th value, or `None` when the values ran out |
| NamedLists.TailFill | threading-progress/progress.py:216-226 | tail filling (how the runners pass defaults): with `n` names and `k` values position `i` reads `values[i + k - n]`, or `None` for the first `n - k` positions |
| NamedLists.ValuesBindAll | threading-progress/progress.py:216-226 | when values are supplied every position reads successfully, even with repeated names |
| NamedLists.NoValuesBindNothing | threading-progress/progress2.py:223 | `values=None` binds nothing: every position and the unpacking raise `AttributeError` |
| NamedLists.IndexBounds | threading-progress/progress2.py:237-244 | `nl[i]` raises `IndexError` exactly for `i >= len`, `KeyError` for negative `i`, and otherwise reads the `i`-th name |
| Once.Call | threading-progress/progress2.py:513-523 | the gate runs the function exactly when not done; a run that returns closes the gate and returns the value; a raising run leaves the gate open and propagates; a skipped call returns `None` and changes nothing |
| Once.RunsUntilFirstSuccess | threading-progress/progress2.py:513-523 | over any sequence of calls, call `i` runs exactly when the gate started open and all earlier calls raised; a call that does not run returns `None` |
| Once.AtMostOneSuccess | threading-progress/progress.py:470-480 | the function completes at most once; exactly once iff the gate started open and some call's run returns; the final gate is closed iff it was closed or some run returned |
| Once.DoneGateNeverRuns | threading-progress/progress.py:476-480 | a closed gate never runs the function again and every call returns `None` |
| Periodic.Enter | threading-progress/progress2.py:324-326 | starting the thread brings an idle loop to its test and changes nothing else; a started loop is unaffected |
| Periodic.Kill | threading-progress/progress2.py:318-321 | `kill()` sets the stop flag and changes nothing else |
| Periodic.Check | threading-progress/progress2.py:326 | the loop test leaves the loop exactly when the thread is at the test with the flag set (or is already out), enters the body when at the test with the flag clear, leaves any other position alone, and touches no flag, calls, log or escape record |
| Periodic.Body | threading-progress/progress2.py:328-341 | one iteration records the unpacked argument list as an invocation when unpacking succeeds and keeps the flag; it logs one line exactly when unpacking fails or the call raises an `Exception`; it returns to the test unless the call raises something outside `Exception` (`SystemExit`, `KeyboardInterrupt`, `GeneratorExit`, an old-style instance), which leaves the loop unlogged |
| Periodic.KillLatches | threading-progress/progress2.py:316-321 | after any run of events the flag is set iff it was set before or the run contains a `kill()` |
| Periodic.ExitOnlyWhenDone | threading-progress/progress.py:319-334 | the thread is out of the loop only when the flag is set or an exception outside `Exception` escaped the body, and once out nothing more is invoked or logged |
| Periodic.FailureIsLoggedAndLoopContinues | threading-progress/progress.py:327-332 | an invocation raising an `Exception` logs one line, leaves the flag clear and the loop at its test, whose next evaluation runs the body again |
| Periodic.EscapeEndsThread | threading-progress/progress2.py:326-341 | an invocation raising something outside `Exception` is recorded but not logged, ends the thread with the flag unchanged, and nothing is invoked or logged afterwards |
| Periodic.StopLatency | threading-progress/progress.py:311-314 | once the flag is set, at most one more invocation starts (the one already past the test) |
| Periodic.StoppedOutsideBodyRunsNothing | threading-progress/progress.py:317-334 | a stop that lands while the thread is not past the test is final: no later invocation and no later log line |
| Validation.InvalidFunction | threading-progress/progress2.py:602-621 | a non-function gives `TypeError`, then `*args`/`**kwargs` give `ValueError`, then a reserved argument name raises `TypeError` (the message formatting fails); valid exactly when none applies |
| Validation.CheckFunction | threading-progress/progress.py:593-595 | the constructor goes on exactly when validation finds nothing, and otherwise raises that error |
| Forwarding.Set | threading-progress/progress2.py:428-459 | a write goes to the referred argument list exactly when the name is neither a class nor an instance attribute and is forwarded; otherwise it becomes a local attribute |
| Forwarding.MissingNameRouting | threading-progress/progress2.py:391-415 | a name not found normally is read from the argument list when forwarded and raises `AttributeError` otherwise |
| Forwarding.SetThenGet | threading-progress/progress2.py:428-459 | whatever route a write takes, reading the name back yields the written value |
| Forwarding.SetLeavesOthers | threading-progress/progress2.py:441-459 | a write does not change the reading of any other name |
| Forwarding.ForwardingPersists | threading-progress/progress2.py:437-442 | writing a forwarded name never creates a local attribute, so the name stays forwarded |
| AttrRefs.DescriptorGet | threading-progress/progress.py:380-390 | class access raises `TypeError`; instance access reads the referred object's attribute of that name |
| AttrRefs.DescriptorSet | threading-progress/progress.py:392-397 | class access raises `TypeError`; instance access writes the referred object's attribute and no other object |
| AttrRefs.AddReferences | threading-progress/progress.py:424-426 | the loop adds one descriptor per name, for that name and the referred object, and keeps other entries |
| AttrRefs.CreateParentMixin | threading-progress/progress.py:418-428 | the synthesised class has exactly one descriptor per argument name, forwarding that name to the referred object |
| AttrRefs.MixinReadsReferredObject | threading-progress/progress.py:385-390 | reading an argument through the synthesised class is reading it on the argument list |
| AttrRefs.MixinWriteThenRead | threading-progress/progress.py:392-397 | after a write through the synthesised class, reading that argument sees the value and reading any other argument is unchanged |
| ThreadControl.StartOnce | threading-progress/progress2.py:671-674 | on a consistent runner `_start_once` never fails, starts the thread and brings the loop to its test; on a started runner it changes nothing; a bare second `Thread.start()` would raise `RuntimeError` |
| ThreadControl.Stop | threading-progress/progress2.py:666-669 | `_done` sets the loop's stop flag and leaves the gate, the start state and the thread's position alone |
| ThreadControl.StartOnceIdempotent | threading-progress/progress.py:645-648 | a second `_start_once` gives the same state as the first |
| ThreadControl.StartManyTimes | threading-progress/progress2.py:671-674 | any positive number of `_start_once` calls ends in the state of one call |
| Progress2.Construct | threading-progress/progress2.py:624-662 | construction succeeds exactly when validation and the argument list succeed, a validation error is raised as is; a new runner forwards exactly the argument names to the tail-filled argument list, is not stopped, and is started exactly when `start_now` |
| Progress2.ZeroArgumentFunctionFails | threading-progress/progress2.py:643-646 | a valid function without parameters cannot be run (`UnboundLocalError`); one whose parameter names the argument list accepts can |
| Progress2.InvocationSeesWrite | threading-progress/progress2.py:646-653 | on any runner whose arguments are bound and whose thread is past its test, after the owner sets forwarded argument `i` the invocation receives the new value at position `i` and the old value at every position with another name |
| Progress2.OwnerSetsAllArguments | threading-progress/progress2.py:643-662 | for `f(a, b)` without defaults started with `start_now`, setting `a` and `b` through the runner makes the next test and body call `f(x, y)` |
| Progress2.StartOnceAfterConstruct | threading-progress/progress2.py:658-674 | after construction `_start_once` leaves the runner started and not stopped; after a `start_now` construction it changes nothing, and a second call never does |
| Progress2.StopEndsInvocations | threading-progress/progress2.py:666-669 | `_done` issued while the thread is not in an invocation means the function is never invoked again |
| Progress.New | threading-progress/progress.py:580-638 | validation errors are raised as is; with `start_now` construction always fails, with `AttributeError` once validation and the argument list succeed; without it a runner has one descriptor per argument name onto the tail-filled argument list and an unstarted thread |
| Progress.SetArg | threading-progress/progress.py:392-397 | writing an argument through the runner makes that name read back the value, leaves every other argument's reading unchanged, keeps every descriptor on the live argument list, and leaves the thread controls alone |
| Progress.ArgumentsReadThrough | threading-progress/progress.py:598-602 | each argument name reads, through the runner, the value at its position in the argument list |
| Progress.StartAfterNew | threading-progress/progress.py:645-648 | on a runner made without `start_now`, `_start_once` starts the thread, which is not stopped, and a second call changes nothing |
| ColorizeText.ExpandFrom | colorize-py/colorize.py:35 | tab expansion leaves no tab and never shortens the text |
| ColorizeText.ExpandTabStop | colorize-py/colorize.py:35 | a tab after text on the same line becomes one to eight spaces and ends exactly at the next multiple of eight columns |
| ColorizeText.ExpandKeepsVisible | colorize-py/colorize.py:35 | tab expansion keeps every non-whitespace character in order |
| ColorizeText.StripLeading | colorize-py/colorize.py:35 | the result is a suffix of the input that starts with a non-space, and everything cut is whitespace |
| ColorizeText.StripTrailing | colorize-py/colorize.py:35 | the result is a prefix of the input that ends with a non-space, and everything cut is whitespace |
| ColorizeText.NormalizeShape | colorize-py/colorize.py:35 | the stored text has no tab, no leading or trailing whitespace, and the same non-whitespace characters as the raw text, in order |
| ColorizeText.Find | colorize-py/colorize.py:45 | the search returns the first index at or after the start holding the character, or -1 when there is none |
| ColorizeText.FindNextBreak | colorize-py/colorize.py:44-47 | one search step finds the next line break after the current offset, or shows there is none left |
| ColorizeText.LineTable | colorize-py/colorize.py:42-48 | the table is `[0, 0]`, then the offset after every line break in order, then the text length |
| ColorizeText.BreakEndsSound | colorize-py/colorize.py:44-47 | each recorded offset follows a line break, and the offsets increase |
| ColorizeText.BreakEndsComplete | colorize-py/colorize.py:44-47 | every line break is recorded |
| ColorizeText.RowStarts | colorize-py/colorize.py:42-48 | row 1 starts at 0, every later row starts after a line break, row starts increase, and every line break starts a row |
| Colorize.Escape | colorize-py/colorize.py:89 | escaped text contains no `<` or `>` and is never shorter than the input |
| Colorize.EscapeRoundTrip | colorize-py/colorize.py:89 | decoding the escaped text gives back the token text |
| Colorize.EscapeIdentity | colorize-py/colorize.py:89 | escaping leaves the text unchanged exactly when it has no `&`, `<` or `>` |
| Colorize.Classify | colorize-py/colorize.py:82-85 | types from `LPAR` to `OP` map to the operator class, keyword names to the keyword class, anything else to itself |
| Colorize.ColorOf | colorize-py/colorize.py:86 | the lookup fails with `KeyError` exactly when the table has no `_TEXT` entry, and otherwise gives the class's colour or the `_TEXT` colour |
| Colorize.Render | colorize-py/colorize.py:90-97 | empty text writes nothing; no colour (`None` or empty) writes the bare text; black writes bold; any other colour writes a styled bold |
| Colorize.Slice | colorize-py/colorize.py:74 | within bounds the clamped slice is the ordinary slice |
| Colorize.Handle | colorize-py/colorize.py:60-97 | a row past the table raises `IndexError` with nothing changed; a line-break token writes exactly a newline; an indent token writes only the gap and stays at its start; any other handled token ends with the offset just past its text |
| Colorize.HandleOnlyAppends | colorize-py/colorize.py:67-79 | the handler only appends, and every token other than a line break writes the source gap first |
| Colorize.HandleOrdinary | colorize-py/colorize.py:72-97 | an ordinary token writes the gap, then its escaped text in the markup of its colour, and moves past its text |
| Colorize.PlainTokenExtendsSource | colorize-py/colorize.py:63-91 | when the output so far is the source up to the current offset, an uncoloured token needing no escaping keeps it so |
| Colorize.PlainRunCopiesSource | colorize-py/colorize.py:60-91 | over a run of such tokens the output is exactly the source up to the end of the last token |
| ColorizeDisplay.TagFreeAppend | colorize-py/colorize.py:90-97 | what a reader sees of output whose tags are closed is what it sees of each written piece, in order |
| ColorizeDisplay.RenderShows | colorize-py/colorize.py:90-97 | for a colour without `>`, each markup form is closed and displays exactly the escaped text it wraps |
| ColorizeDisplay.RenderShowsText | colorize-py/colorize.py:86-97 | dropping the tags of a coloured token and decoding the entities gives back the token text |
| ColorizeDisplay.HandleShowsSource | colorize-py/colorize.py:60-97 | for a token the tokenizer reports over the text, with a clean colour table, the handler does not raise and the output keeps displaying the escaped text up to the new offset |
| ColorizeDisplay.RunShowsSource | colorize-py/colorize.py:60-97 | over any run of such tokens, whatever their kinds and colours, the output displays, decoded, as the text up to the offset reached |
| ColorizeDisplay.BeginReady | colorize-py/colorize.py:29-51 | the parser keeps the normalised text and the colour table, starts at offset 0 with nothing written (so the output is the source up to the offset, as the run lemmas require), and its line table reads by 1-based row |
| ColorizeDisplay.ColorizedShowsSource | colorize-py/colorize.py:29-97 | from the set-up, the coloured output of any run of tokens over the text displays as the normalised text up to the offset reached |
| ColorizeDisplay.DefaultColorsPinned | colorize-py/colorize.py:12-21 | the default table has `_TEXT` and no colour containing `>`, so the lookup never raises; keywords are blue, other names and operators bare, unlisted types black |
| Inout.ParseArgv | inout/inout.py:60-74 | the input name is `argv[1]` unless absent or `-`, the output name is `argv[2]` when present |
| Inout.Open | inout/inout.py:78-86 | the wrapper yields the opened file, or `None` exactly when opening fails |
| Inout.SelectFromArgv | inout/inout.py:89-100 | stdin exactly unless a non-empty input name other than `-` is given, stdout exactly unless a non-empty output name is given, a failed open gives `None` and never a standard stream, and `infile_only` holds exactly when an input file is named and no output file is |
| Inout.SplitExt | inout/inout.py:106 | the root and the extension concatenate back to the path |
| Inout.SplitAtDot | inout/inout.py:106 | when the last dot follows the last slash and the last component has a non-dot before it, the split is at that dot |
| Inout.ExtensionShape | inout/inout.py:106 | the extension is empty or a dot followed by no dot and no slash, and then the root's last component is not all dots |
| Inout.ReplaceExtension | inout/inout.py:104-109 | the result is the root, a dot, and the new extension |
| Inout.ReplaceExtensionExample | inout/inout.py:27-30 | `inputfile.ext` with the new extension `new` becomes `inputfile.new` |
| Inout.ReplaceThenSplit | inout/inout.py:104-109 | splitting a replaced name gives back the same root and the new extension, when the new extension has no dot or slash |

## Left out

- Threads, the lock, `sleep` and the interval: the loop and the owner are an explicit interleaving of events. Each loop body is atomic, because `kill()` takes the same lock as the body.
- `_fieldnames`, `_get_class_members`, `_uniq`, `inspect.getargspec` and `type(func) is FunctionType`: they are reflection, so their results are parameters.
- `progress.py`'s class synthesis with `type()` and the copied class dictionary: the runner is its descriptor table plus a heap of argument lists.
- `_ForwardAttributesMixin.__setattr__`'s new-style branch: `progress2.Progress` is an old-style class, so only the instance-dictionary branch is taken.
- The internal attributes the constructors store after the forwarding is in place (`_lock` and `_Progress__callable`, `_Progress__thread`, `_Progress__once` in `progress2.py`; `_lock`, `_callable`, `_thread`, `_once` through the descriptors in `progress.py`): an argument with one of those names receives the internal object in the source, and the model does not store these objects, so that collision is not represented.
- NamedLists.Construct: an argument named `_NamedList__len` passes the reserved-name check, because the length field is stored after the reserved list is taken (threading-progress/progress2.py:204-216). Binding its value, or a later forwarded write, then overwrites the length, so `len(nl)` and indexing follow that value. The model keeps the length equal to the number of names and does not represent this collision.
- `__dir__`, `__dir`, `_dump`, `_DbgRLock`, `_LockedArgs` and `_LockGuardMixin`'s context manager: debugging aids and lock plumbing.
- AttrRefs.DescriptorGet: requires the referred object to be live, because a descriptor always refers to an object the runner keeps.
- AttrRefs.DescriptorSet: requires the referred object to be live, for the same reason; a descriptor onto a collected object is not modelled.
- The tokenizer, `TokenError` reporting in `output`, and the end position and line arguments of the handler: tokens are an abstract sequence.
- `_fontsize_str`, the `<pre>` wrapper and the `__main__` blocks of `colorize.py` and `progress2.py`: command-line glue.
- Token positions are natural numbers, because the tokenizer never reports negative rows or columns.
- `replace_extension`: it reads the undefined global `infile_name`, so every call raises `NameError` before it opens anything. Only `_replace_extension` is modelled.
- Real file I/O, `sys.stderr` messages and exception message texts.
- Unicode: `str.strip` is modelled on Python 2 byte-string whitespace.
- ColorizeDisplay.HandleShowsSource: the display property is stated for colour tables whose colours contain no `>` (a colour is written unescaped into the tag), and for line-break tokens that start at the written offset; the handler writes `\n` in place of any gap before a line break, so trailing spaces before a newline are not reproduced.
- ColorizeDisplay.TagFree: what a reader sees is the text with tags dropped and the three entities decoded; HTML whitespace collapsing and other entities are not modelled.
