# jamjam core, modelled in Dafny

This project models the small decision procedures and transformations at the core of the
`jamjam` utility library, and proves what they promise:

- **Idle guard** (`jamjam/_scripts/idle.py`, module `Idle`). The mouse idler's `_HookManager`
  is a class with the fields of the source:
  - the timestamp of the last user input;
  - the `_user_control` flag;
  - the worker's thread id and its future;
  - the cursor writes made so far.

  Its methods are the low-level hook `_hk`, the step loop `move_mouse`, `__enter__`, the start
  of `_start` and the `__exit__` guard. `_WinFnDesc.instance_get` is a get-or-create cache, and
  `main` is a loop over the prompt answers. The clock readings, the trajectory (as integer
  points), the hook events, the result of the next hook and the prompt answers are all inputs.
- **Easy-Enum** (`jamjam/eenum.py`, module `EEnum`):
  - the per-class counter `lookup_count` and the hint check of `__set_name__`;
  - `_ProtoMember.__get__` and `__repr__`;
  - `Auto.enumeral_list`, `enumeral_batch` and `enumeral_table`;
  - the `_LookupProtoMembers` grouping;
  - the `enum` decorator: ordered creation of the enumerals through the class's
    `_create_next_` (an arbitrary function parameter), installation of `iter` and
    `__repr__`, the checks in their fixed order, sealing and deleting the counter entry;
  - the installed `__new__`, `__repr__`, `iter` and `__init_subclass__`.
- **Iterable helpers** (`jamjam/iter.py`, module `Iter`):
  - `ordered_set`;
  - `split`, as a class holding the source cursor and the two deques, whose `Next` methods
    are the two generators;
  - `gather`, over the consecutive runs of `itertools.groupby`.
- **Text unwrapping** (`jamjam/_utils.py`, module `Utils`). `unwrap` is a loop over the
  lines that appends to an output string. It is proved against a reference definition:
  paragraphs of consecutive non-blank lines, each joined by spaces, separated by `"\n\n"`.
  Python's `str.isspace`, `str.strip` and `str.splitlines` are written out.
- **Source slicing** (`jamjam/jank.py`, module `Jank`). `_getitem` advances an iterator, and
  `_slice` cuts text between (row, column) positions. It uses Python's indexing and slicing
  rules, negative indices and clamping included.
- **Class utilities** (`jamjam/classes.py` and `jamjam/_lib/classes.py`, modules `Classes`
  and `LibClasses`):
  - the `Singleton` `_self` cache, looked up along the method resolution order and guarded
    by `isinstance`;
  - `Singleton.is_` and the singleton `__repr__`;
  - `mk_repr` and `easy_repr`;
  - `auto_batch`.

Python exceptions are the `Failure` case of a `Result` (module `Wrappers`). Shared sequence
and string helpers live in modules `Seqs` and `Strings`.

## Model

| member | source | states |
|---|---|---|
| Idle.HookManager.constructor | jamjam/_scripts/idle.py:95-101 | a new manager has the creation time as its last input, the flag up, no thread id, no future and no writes |
| Idle.HookManager.Hook | jamjam/_scripts/idle.py:128-153 | the timestamp becomes the event time exactly when the hook code is 0, the flag is up and the message is one of the seven inputs; otherwise it is unchanged. The result is the next hook's result, OSError 127 becomes 0, and any other error propagates |
| Idle.HookManager.HookAll | jamjam/_scripts/idle.py:139-143 | after a series of events, the timestamp is the one the hook's rule gives for them in order |
| Idle.FlagDownIgnoresAll | jamjam/_scripts/idle.py:139-140 | while the flag is down, no event of any code or message moves the timestamp |
| Idle.NoInputKeeps | jamjam/_scripts/idle.py:38-46 | with the flag up, events that are not actionable input messages leave the timestamp alone |
| Idle.LastInputWins | jamjam/_scripts/idle.py:141-142 | with the flag up, the timestamp is the time of the last actionable input event |
| Idle.StepsRange | jamjam/_scripts/idle.py:104-108 | a radius drawn from [75, 300] gives between 75 and 300 steps, the floor of the radius |
| Idle.MovingBound | jamjam/_scripts/idle.py:114-121 | a move writes at most `steps` points |
| Idle.PausedMoveWritesNothing | jamjam/_scripts/idle.py:117-118 | input less than three seconds before the first check means nothing is written |
| Idle.IdleMoveWritesAll | jamjam/_scripts/idle.py:114-121 | when the user stays idle and every check is three seconds or more after the last input, every step is written |
| Idle.OwnWritesIgnored | jamjam/_scripts/idle.py:119-121 | the hook events caused by the manager's own writes, seen with the flag down, never change what a move does |
| Idle.HookManager.MoveMouse | jamjam/_scripts/idle.py:103-122 | the points written are the first steps of the trajectory, as many as the pause rule allows; the flag was down at every write and is up when the move returns |
| Idle.HookManager.Enter | jamjam/_scripts/idle.py:169-171 | entering records the future and changes nothing else |
| Idle.HookManager.StartOnWorker | jamjam/_scripts/idle.py:155-156 | the worker records its thread id and changes nothing else |
| Idle.HookManager.Exit | jamjam/_scripts/idle.py:173-177 | stopping raises RuntimeError exactly when the thread id or the future is unset |
| Idle.FreshManager | jamjam/_scripts/idle.py:99-118 | a fresh manager writes nothing within three seconds of its creation; stopping it before start, or after entering but before the worker records its thread, raises |
| Idle.WinFnDesc.InstanceGet | jamjam/_scripts/idle.py:86-91 | the C function is created and stored only on the first read for an instance; later reads return the stored one, and the cache only grows |
| Idle.InstanceGetTwice | jamjam/_scripts/idle.py:84-91 | two reads for one instance give the same C function, and another instance gets a different one |
| Idle.MainLoop | jamjam/_scripts/idle.py:187-196 | the loop continues exactly while the last answer is TRY AGAIN or CONTINUE; a round enters the hook manager exactly when it is the first round or the previous answer was TRY AGAIN; any other answer ends the loop |
| EEnum.ProtoReprShape | jamjam/eenum.py:101-104 | a proto-member's repr is its kind's class name, then `(Owner.name)` |
| EEnum.ProtoGet | jamjam/eenum.py:85-93 | read from the class, it succeeds exactly when a parent attribute was captured; read from an instance, exactly when the parents have the attribute; every failure is AttributeError |
| EEnum.LookupCount.SetName | jamjam/eenum.py:116-130 | each naming takes the owner's next index (one more than the last, starting at 0) and stores it even when the hint is then rejected; a hint that is neither `Self` nor the owner's name raises TypeError |
| EEnum.LookupCount.Delete | jamjam/eenum.py:308 | deleting removes exactly the owner's entry, and raises KeyError when there is none |
| EEnum.NameEnumerals | jamjam/eenum.py:121-122 | enumerals named in turn on a class get indices 0, 1, 2, ..., and other classes' counters are untouched |
| EEnum.EnumeralListCount | jamjam/eenum.py:150-154 | `enumeral_list(n)` makes n proto-enumerals, or none when n is not positive, all with the given hint |
| EEnum.EnumeralBatchCount | jamjam/eenum.py:156-160 | `enumeral_batch` makes one list per argument, as long as that argument, or empty when it is not positive |
| EEnum.EnumeralTableShape | jamjam/eenum.py:162-167 | `enumeral_table(rows, cols)` is a rows-by-cols table, each row empty when cols is not positive, and with no rows it raises TypeError |
| EEnum.ProtoGroups.Add | jamjam/eenum.py:183-184 | appending through `setdefault` adds the proto-member at the end of its kind's list, creating the list when it is missing |
| EEnum.ProtoGroups.Take | jamjam/eenum.py:186-187 | `take` returns the kind's list, or an empty one, and removes the kind |
| EEnum.Collect | jamjam/eenum.py:229-232 | each kind's group holds exactly the proto-members of that kind in order; a base-kind group exists exactly when there is such a proto-member; `Self` is among the hints exactly when some proto-member uses it |
| EEnum.DictSetDistinct | jamjam/eenum.py:240 | storing into the enumerals dict never repeats a key, and a new key is appended at the end |
| EEnum.DictGetAt | jamjam/eenum.py:288 | looking up an entry's key finds that entry |
| EEnum.DictGetMissing | jamjam/eenum.py:288-291 | a value that is no key is not found |
| EEnum.CreatedDistinct | jamjam/eenum.py:234-244 | the enumerals dict has no repeated key, and it is empty exactly when there was no proto-enumeral |
| EEnum.CreatedFresh | jamjam/eenum.py:234-240 | when `_create_next_` makes a new value each time, the dict's keys are the values made, in creation order, each paired with its proto-enumeral |
| EEnum.CreatedPrev | jamjam/eenum.py:236-237 | the value of the i-th proto-enumeral is made from its index, its name and exactly the values made before it |
| EEnum.ValuesAt | jamjam/eenum.py:236-237 | the value of the i-th proto-enumeral is made from the keys of the dict built from the ones before it |
| EEnum.BoundAt | jamjam/eenum.py:239 | each proto-enumeral's name is bound to the value made for it, and other attributes keep their values |
| EEnum.InstallAt | jamjam/eenum.py:246-262 | each taken proto-member's name is bound to the installed method, other attributes are kept, and nothing else is added |
| EEnum.EnumClass.CreateEnumerals | jamjam/eenum.py:234-240 | the creation loop builds the enumerals dict and the attribute bindings of the reference definition |
| EEnum.EnumClass.InstallAll | jamjam/eenum.py:246-262 | the installation loop binds every taken name to the method |
| EEnum.EnumClass.Finish | jamjam/eenum.py:246-308 | after installing `iter` and `__repr__`: leftover proto-members raise AssertionError; otherwise `Self` without `@final` raises TypeError; otherwise the class is sealed and its counter entry deleted, which raises KeyError when it is missing |
| EEnum.EnumClass.Decorate | jamjam/eenum.py:205-309 | `enum` creates the enumerals and binds them, then applies the checks in the source's order: no enumeral raises TypeError, then the checks of `Finish`; the counter entry is removed exactly on success |
| EEnum.EnumClass.InitSubclass | jamjam/eenum.py:300-303 | subclassing raises TypeError exactly when the class was sealed by `enum` |
| EEnum.MembersCanonical | jamjam/eenum.py:246-292 | after `enum`, `iter` yields the enumerals in creation order, calling the class with an enumeral's value gives that very enumeral, and its repr is `<Qualname.name>` |
| EEnum.NonMemberRejected | jamjam/eenum.py:255-291 | calling the class with a value equal to no enumeral raises TypeError, and such a value's repr is the original one |
| EEnum.CountingCreated | tests/jamjam/test_eenum.py:16-21 | a `_create_next_` that records how many came before makes a new value each time |
| EEnum.ExampleValues | tests/jamjam/test_eenum.py:16-23 | the values made for A, B and C are distinct, and "hello" matches none of them |
| EEnum.BuildExample | tests/jamjam/test_eenum.py:9-23 | the final dataclass with three `Auto[Self]` enumerals and the mixin's `iter` (its own generated `__repr__` hides the mixin's) is accepted and sealed, with only `iter` installed |
| EEnum.TestEnumExample | tests/jamjam/test_eenum.py:25-41 | `iter` yields A, B, C in order; A's value gives A; a non-member value and subclassing raise TypeError |
| EEnum.TestNoMembers | tests/jamjam/test_eenum.py:44-51 | a class with no enumerals is refused with "Found no enum-member symbols" |
| EEnum.TestNotFinal | tests/jamjam/test_eenum.py:54-76 | `Auto[Self]` without `@final` raises TypeError, while `Auto['MyEnum']` is accepted without it |
| EEnum.BuildReprExample | tests/jamjam/test_eenum.py:117-142 | the final class with one enumeral and the mixin's `__repr__` proto-member is accepted and sealed, with `__repr__` installed |
| EEnum.TestProtoRepr | tests/jamjam/test_eenum.py:117-146 | read from a mixin instance, the `__repr__` proto-member gives the parent's repr "X"; on the enum class, A's repr is `<test_proto_repr.<locals>.MyEnum.A>` |
| Iter.OrderedSet | jamjam/iter.py:18-20 | the result holds every input element, nothing else, and no element twice |
| Iter.OrderedSetFirstOccurrenceOrder | jamjam/iter.py:18-20 | the elements come in the order of their first occurrence in the input |
| Iter.KeepSide | jamjam/iter.py:45-46 | each side of the split holds only elements whose predicate matches that side |
| Iter.KeepPartition | jamjam/iter.py:41-48 | the two sides together are the input: nothing is lost or duplicated |
| Iter.Splitter.constructor | jamjam/iter.py:29-31 | `split` starts with the cursor at the beginning and both deques empty |
| Iter.Splitter.PopOwn | jamjam/iter.py:37-39 | a side whose deque is not empty yields its front, which belongs to that side, without touching the source |
| Iter.Splitter.Pull | jamjam/iter.py:41-48 | a pull takes exactly the next source element, and either yields it on its own side or appends it to the other side's deque |
| Iter.Splitter.PullUntilOwn | jamjam/iter.py:36-48 | pulling continues until an element of our side appears or the source ends; the skipped elements go to the other deque in order |
| Iter.Splitter.Next | jamjam/iter.py:33-48 | a side drains its own deque before pulling from the source; it yields only elements of its side, in order, and ends only when the source and its deque are both exhausted, having then yielded exactly its side's elements |
| Iter.Splitter.NextGood | jamjam/iter.py:50 | the first iterator yields only elements whose predicate is true, and ends having yielded exactly those |
| Iter.Splitter.NextBad | jamjam/iter.py:51 | the second iterator yields only elements whose predicate is false, and ends having yielded exactly those |
| Iter.Splitter.Conservation | jamjam/iter.py:41-48 | however the sides interleave, the pulled prefix is exactly what was yielded plus what is queued |
| Iter.SplitToLists | jamjam/iter.py:23-52 | draining the first iterator and then the second gives exactly the elements satisfying the predicate and the rest, each in input order |
| Iter.Truthy | jamjam/iter.py:24 | an integer is truthy exactly when it is not zero, and a string exactly when it is not empty |
| Iter.DefaultSplitExample | jamjam/_tests/test_iter.py:9-11 | with the default predicate, `[0, 1, False, True, "", " "]` splits into `[1, True, " "]` and `[0, False, ""]` |
| Iter.Runs | jamjam/iter.py:61 | the runs concatenate to the input; each run is non-empty with one key; adjacent runs have different keys |
| Iter.GatherKeys | jamjam/iter.py:55-61 | the keys of `gather`'s result are exactly the distinct keys of the input |
| Iter.GatherLastRunWins | jamjam/iter.py:61 | each key maps to the value built from the last run with that key, so a recurring key's later run overwrites the earlier one |
| Utils.StripTrimmed | jamjam/_utils.py:10 | a stripped string has no leading or trailing whitespace |
| Utils.StripBlank | jamjam/_utils.py:10 | a string strips to nothing exactly when it is all whitespace |
| Utils.SplitLinesNoBreak | jamjam/_utils.py:10 | no line produced by `splitlines` holds a line boundary |
| Utils.SplitLinesFirst | jamjam/_utils.py:10 | the first line starts with the text's first character unless that ends a line |
| Utils.SplitLinesLast | jamjam/_utils.py:10 | the last line ends with the text's last character unless that ends a line |
| Utils.SplitLinesJoin | jamjam/_utils.py:10 | `splitlines` undoes joining lines with "\n" when no line holds a boundary and the last is not empty |
| Utils.StripPadded | jamjam/_utils.py:10 | `strip` removes exactly the whitespace padding around a text that starts and ends with a non-space |
| Utils.CleanedLines | jamjam/_utils.py:12-16 | the first line is kept as it is, and every later line is stripped |
| Utils.ParagraphsWellFormed | jamjam/_utils.py:17-20 | no paragraph is empty, and neither is any of its lines |
| Utils.ParagraphsKeepLines | jamjam/_utils.py:15-20 | the paragraphs, read in order, are exactly the non-blank lines: no line is lost |
| Utils.ParagraphsBlank | jamjam/_utils.py:17-20 | a blank line adds nothing to the output |
| Utils.RenderJoinsLine | jamjam/_utils.py:17-19 | a non-blank line after a non-blank line adds exactly one space and the line |
| Utils.RenderStartsParagraph | jamjam/_utils.py:17-19 | a non-blank line after blank lines adds exactly "\n\n" and the line, so a run of blank lines becomes one paragraph break |
| Utils.JoinLines | jamjam/_utils.py:12-20 | the loop's output is the paragraphs of the cleaned lines, each joined by spaces and separated by "\n\n" |
| Utils.Unwrap | jamjam/_utils.py:8-22 | `unwrap` returns the reference text: the stripped input split into lines, later lines stripped, non-blank runs joined by spaces, and paragraphs separated by "\n\n" |
| Utils.UnwrapBlank | jamjam/_utils.py:10-14 | empty or whitespace-only text unwraps to "" |
| Utils.UnwrapParagraphsAreLines | jamjam/_utils.py:14-20 | every paragraph is one non-empty line, so the only line boundaries in the output are the "\n\n" separators |
| Utils.UnwrapTrimmed | jamjam/_utils.py:10-16 | the output has no leading or trailing whitespace |
| Utils.UnwrapLayout | tests/jamjam/test_utils.py:6-29 | for any seven trimmed lines laid out as in the test (a leading line break, four-space indents, blank separators, a trailing indented line break), `unwrap` gives one line per paragraph separated by blank lines |
| Utils.UnwrapTestExample | tests/jamjam/test_utils.py:6-29 | `unwrap` of the test's text, written out as there, equals the test's expected four single-line paragraphs separated by blank lines |
| Jank.GetItem | jamjam/jank.py:15-20 | `_getitem(it, i)` is the element at 1-based position max(1, i), and raises StopIteration when the iterable is shorter than that |
| Jank.SliceBound | jamjam/jank.py:26-28 | a slice bound counts from the end when negative and is clamped to [0, len] |
| Jank.PySlice | jamjam/jank.py:26-28 | an in-range slice is the subsequence, and an empty or backwards range gives nothing |
| Jank.PyIndex | jamjam/jank.py:26 | a negative index counts from the end, and IndexError is raised exactly when the index is out of range |
| Jank.SliceOneRow | jamjam/jank.py:25-26 | on one row, the result is that row's columns [c1, c2) |
| Jank.SliceRowZeroWraps | jamjam/jank.py:26 | row 0 names the last line, through Python's negative index |
| Jank.SliceRowPastEnd | jamjam/jank.py:26 | a single row past the text raises IndexError |
| Jank.SliceRows | jamjam/jank.py:27-29 | rows r1 < r2 give r2 - r1 + 1 strings: row r1 from column c1, the rows between whole, and row r2 up to column c2 |
| Jank.SliceBackwards | jamjam/jank.py:27 | a backwards row range with a non-negative end cannot be unpacked and raises ValueError |
| Jank.SliceIsTextBetween | jamjam/jank.py:23-29 | the slice, put back between the text before (r1, c1) and the text from (r2, c2), reassembles the rows exactly |
| Classes.SingletonCache.Lookup | jamjam/classes.py:111-115 | `cls._self` is the attribute of the first class along the MRO that has its own, or none |
| Classes.SingletonCache.LookupOwn | jamjam/classes.py:115 | the inherited `_self` is an instance of the class exactly when the class has its own, so a subclass never reuses its parent's instance |
| Classes.SingletonCache.New | jamjam/classes.py:113-117 | the class's own instance is returned when it exists; otherwise a new instance of exactly that class is made and stored on it alone |
| Classes.SingletonCache.Is | jamjam/classes.py:119-122 | `is_(v)` is true exactly when v is the class's singleton |
| Classes.SingletonInstances | tests/jamjam/test_clsutils.py:4-13 | constructing a class twice gives the identical instance, and two classes never share one |
| Classes.SingletonReprReadsBack | jamjam/classes.py:124-125 | the repr is the qualified name in angle brackets, and the name can be read back from it; the `Singleton` of jamjam/_lib/classes.py:20-21 has the same `__repr__` |
| Classes.KwdItems | jamjam/classes.py:133 | each keyword argument becomes `name=value`, in the order given |
| Classes.MkReprNoArgs | jamjam/classes.py:128-135 | with no arguments the repr is `Qualname()` |
| Classes.ReprBodyOrder | jamjam/classes.py:131-134 | every positional argument comes before every keyword argument, with one separator between the groups |
| Classes.ReprBodyLength | jamjam/classes.py:131-134 | the body is as long as its items plus one separator between each pair |
| Classes.MkReprExample | tests/jamjam/test_clsutils.py:16-18 | `mk_repr("", 1, 2, hello=3, world=4)` is `str(1, 2, hello=3, world=4)` |
| Classes.AutosCount | jamjam/classes.py:91 | the generator over `range(n)` yields n items, or none when n is not positive |
| Classes.AutoBatchFlat | jamjam/classes.py:90-91 | `auto_batch(n)` yields exactly n placeholders, none when n is not positive |
| Classes.AutoBatchGroups | jamjam/classes.py:92-93 | `auto_batch(n, m, ...)` yields one group per argument, each as long as its argument, or empty when it is not positive |
| LibClasses.New | jamjam/_lib/classes.py:14-18 | the arguments are ignored; the class's own instance is returned when it exists, and otherwise a new one is made and stored |
| LibClasses.ArgumentsIgnored | jamjam/_lib/classes.py:14-18 | constructing a class twice with different arguments gives the same instance, and a subclass gets its own instance |
| LibClasses.EasyReprOneArgument | jamjam/_lib/classes.py:24-31 | with at most one argument, `easy_repr` and `mk_repr` agree, and with none it is `Qualname()` |
| LibClasses.EasyReprOrder | jamjam/_lib/classes.py:27-30 | positional arguments come before `k=v` pairs, joined by "," with no space |
| LibClasses.SplitJoin | jamjam/_lib/classes.py:27-30 | when no argument's text holds a ",", splitting the body on "," gives back the arguments in order |
| LibClasses.EasyReprExample | jamjam/_lib/classes.py:24-31 | `easy_repr("", 1, 2, hello=3, world=4)` is `str(1,2,hello=3,world=4)` |

## Left out

- Threads, the executor and the Win32 message loop are not modelled: `ThreadPoolExecutor`, the hook installation and `msg_loop` in `_start`, `PostThreadMessageW` and `future.result()`. They are concurrency plus foreign calls. Only their effect on the manager's fields is kept: the future is set by `Enter`, and the thread id by `StartOnWorker`.
- `uniform`, `cos`, `sin`, `time()` and `sleep` in `move_mouse` are inputs. The trajectory is given as the integer points passed to `SetCursorPos`, and the clock as the reading at each check.
- The logging calls and the text of the prompt (`_start_window`) are not modelled; the prompt's answers are inputs.
- Idle.MainLoop: the inner `while not window.done(): move_mouse()` is abstracted. Each round records only whether it entered a hook manager, because how many moves happen before the prompt is answered depends on timing.
- Idle.HookManager.Exit: posting the quit message to the worker and waiting for the future are not modelled. Only the RuntimeError guard is.
- Idle.CFunc.constructor: `_win_cfuncify` (building a ctypes function pointer from the signature) is abstracted to recording the instance the C function was made for.
- Idle.HookManager.MoveMouse: the hook events arriving during a move are given at two points per step: those seen while the flag is down, and those seen once it is up again. A hook running between the check and the flag being lowered is not interleaved.
- Idle.Wm and Idle.Id: the message and button codes are abstract, because their numeric values live in the Win32 bindings. Those bindings (`jamjam/win/api.py`, `jamjam/win.py`, `jamjam/c.py`, `jamjam/_lib/win.py`) are ctypes declarations and are not part of this model.
- EEnum.EnumClass.Decorate: it requires a class that is not already decorated. Decorating a sealed class again is not modelled.
- EEnum.EnumClass.Decorate: `getmembers_static`, which lists the class's attributes sorted by name, is abstracted. Its output, the proto-members in that order, is an input.
- EEnum.EnumClass.New: the wrapped `__hash__` and `__eq__`, and the original `__new__` / `__init__` calls (with their TypeError fallback), are abstracted. The instance they build is a parameter, and enumerals are compared by value equality. The installed `__init__` is a no-op and is not modelled.
- EEnum.ProtoGet: `getattr(super(owner, obj), name)` on an instance is abstracted as the parent classes' attribute, given as an option.
- `Hint.get_hint` and `typing.Self` are abstracted: `Hint` has the three cases `Self`, a class name, or anything else.
- Iter.Splitter: iterators are finite sequences, and predicates and key functions are total functions. An exception raised by the predicate, and infinite iterators, are not modelled.
- Iter.Runs: `itertools.groupby` is modelled by its result, the maximal runs of equal keys. The laziness of the group iterators that `into` receives is not modelled.
- Jank.GetItem: the iterable is a finite sequence.
- `textify` in `jamjam/jank.py` is not part of this model. It relies on frame introspection, `linecache` and `tokenize`.
- Utils.Unwrap: `textwrap.dedent` is not applied. After `strip()` the first line has no indentation, so dedent's common margin is empty. Dedent then only empties whitespace-only lines, which the loop strips anyway, so the result is the same.
- Utils.IsSpace: only the characters that `str.isspace` and `str.splitlines` treat specially are listed. Python `str` is modelled as a sequence of code points.
- Classes.SingletonCache: the class hierarchy is given as each class's method resolution order. `super().__new__` is creating a new object.
- The reflection and typing helpers (`jamjam/typing.py`, `jamjam/funcs.py`, `jamjam/_lib/typing.py`, `jamjam/_lib/typevars.py`) and `jamjam/idle.py` are not part of this model.
- Two test modules import names their modules do not define at this version: tests/jamjam/test_iter.py imports `ii` from `jamjam.iter`, and jamjam/_tests/test_classes.py imports `easy_repr` from `jamjam.classes` (it is defined in jamjam/_lib/classes.py). Those tests are not modelled.
- Iter.Gather: the result is a map, so the key order of the source dict (each key's first occurrence, since a later run overwrites an existing key in place) is not modelled.
