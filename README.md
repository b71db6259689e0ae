# AliceBot utilities: value-passing condition and plugin loading

This project models the core of `alicebot/utils.py` of the AliceBot chat-bot
framework in Dafny and proves properties of the model.

- `sync.dfy` (module `Sync`) models `Condition`. It works like
  `asyncio.Condition`, but `notify(value, n)` hands `value` to the waiters it
  wakes, and `wait()` returns that value. The condition is a class. Its
  fields are the lock's `locked` flag, the FIFO queue of waiter futures and a
  ticket counter that names each future. A future is a slot: its ticket plus
  its result, which is either not set or set to a value. A suspended `wait()`
  is split into two steps. `WaitBegin` checks the lock, releases it and
  enqueues a new future. `WaitEnd` resumes once the future is done and the
  lock is free. It then removes that future and holds the lock again. The
  scan of `notify` over the queue is the method `NotifyQueue`. The function
  `Notified` specifies it.
- `loader.dfy` (module `Loader`) models the plugin loaders: `load_module`,
  `load_module_from_name`, `load_module_form_file`, `load_modules_from_dir`
  and `ModulePathFinder`. Python reflection (`dir`, `getattr`, `inspect`,
  `issubclass`) is replaced by records. A module is its name plus its
  attributes in `dir()` order. A class is its identity, its defining module,
  its ancestors, its direct bases, its abstractness and its `dir()`. The
  import machinery (`invalidate_caches`, `import_module`, `reload`) is an
  `Importer` function parameter. It receives the finder's roots as they are
  at the call. `pkgutil.iter_modules` is also a function parameter.
- `paths.dfy` (module `Paths`) models the POSIX `os.path.split` and
  `os.path.splitext` that `load_module_form_file` uses.
- `wrappers.dfy` (module `Wrappers`) holds `Option`, `Result` and `Outcome`.
  An exception the source raises is an `Err` or `Fail` value in the model.

## Model

| member | source | states |
|---|---|---|
| Sync.Condition.constructor | alicebot/utils.py:35-44 | a new condition has a free lock and an empty waiter queue, and its invariant holds |
| Sync.Condition.Acquire | alicebot/utils.py:40-41 | the lock is held afterwards; the caller gets it at once exactly when it was free; the queue is untouched |
| Sync.Condition.Release | alicebot/utils.py:40-42 | frees a held lock; on a free lock it fails with RuntimeError("Lock is not acquired."); the queue is untouched |
| Sync.Condition.WaitBegin | alicebot/utils.py:62-69 | without the lock: RuntimeError("cannot wait on un-acquired lock") and no change; with it: the lock is released and one new, not-done future, distinct from every queued one, is appended at the tail |
| Sync.Condition.WaitEnd | alicebot/utils.py:70-81 | the waiter resumes exactly when its future is done and the lock is free; it then gets the future's value, removes its own future and no other, and holds the lock again; otherwise nothing changes |
| Sync.Condition.Notify | alicebot/utils.py:95-106 | without the lock: RuntimeError("cannot notify on un-acquired lock") and no change; with it: the queue keeps its futures and their order, and its results become `Notified(results, value, n)` |
| Sync.NotifyQueue | alicebot/utils.py:99-106 | the loop over the queue leaves every ticket in place and yields exactly the results `Notified` specifies |
| Sync.Condition.NotifyAll | alicebot/utils.py:108-109 | with the lock, every not-done future gets `value`, done ones keep their result, and no future is left pending; without it, the RuntimeError of `notify` |
| Sync.NotifiedAt | alicebot/utils.py:99-106 | per position: a done future keeps its result; a pending one gets `value` exactly when fewer than `n` pending futures stand before it |
| Sync.NotifiedKeepsDone | alicebot/utils.py:99-106 | notify neither adds, drops nor reorders futures, never touches a done future, and does nothing when `n <= 0` |
| Sync.NotifiedCount | alicebot/utils.py:99-106 | exactly `min(max(n, 0), pending)` futures are fulfilled |
| Sync.NotifyAllFulfilsEvery | alicebot/utils.py:108-109 | a budget equal to the queue length fulfils every pending future and leaves none pending |
| Sync.IndexOf | alicebot/utils.py:73 | the first position holding the waiter's own future, which `deque.remove` drops |
| Sync.HandOff | alicebot/utils.py:62-106 | a waiter that waits, then a notifier that takes the lock, notifies one value and releases: the waiter resumes with exactly that value and holds the lock |
| Paths.RFind | alicebot/utils.py:209-210 | the last position of a character, or -1 when there is none |
| Paths.RStripSep | alicebot/utils.py:209 | the longest prefix not ending in `/`; only separators are dropped |
| Paths.Split | alicebot/utils.py:209 | the tail holds no `/`, is a suffix of the path and follows a `/` unless it is the whole path; the head is everything before the tail when that is empty or all `/`, and otherwise that prefix with its trailing `/` removed, ending in another character |
| Paths.SplitExt | alicebot/utils.py:210 | root and extension concatenate back to the name; a non-empty extension starts with its only dot and holds no `/`; a file name has an extension exactly when some dot in it has a non-dot character before it |
| Paths.SplitJoin | alicebot/utils.py:209 | `dir + "/" + file` splits back into `dir` and `file` |
| Paths.SplitExtJoin | alicebot/utils.py:210 | `name + "." + ext` splits back into `name` and `"." + ext` when `name` is not all dots |
| Paths.FilePathRoundTrip | alicebot/utils.py:209-210 | `dir/name.ext` yields directory `dir`, module name `name` and extension `.ext` |
| Paths.SplitBareName | alicebot/utils.py:209 | a path without `/` has the empty directory: `plugin.py` gives the root `""` |
| Paths.SplitUnderRoot | alicebot/utils.py:209 | a file directly under `/` keeps `/` as its directory: `/plugin.py` gives the root `"/"` |
| Paths.LeadingDotIsNotExtension | alicebot/utils.py:210-212 | a file name whose dots all lead it, such as `.py` or `..py`, has no extension, so `load_module_form_file` rejects it |
| Loader.Candidates | alicebot/utils.py:139-150 | the collected classes number at most the attributes, and each is the class of an attribute that passes the filter |
| Loader.NoCandidate | alicebot/utils.py:139-155 | nothing is collected exactly when no attribute passes the filter |
| Loader.OneCandidate | alicebot/utils.py:139-160 | exactly one class is collected exactly when one attribute, and no other, passes the filter, and it is that attribute's class |
| Loader.Lookup | alicebot/utils.py:162-163 | `getattr(module, name)` is absent exactly when no attribute has that name, and is otherwise the first such attribute's value |
| Loader.ConfigOf | alicebot/utils.py:162-170 | the config slot is set exactly when the first `Config` attribute is a class that subclasses `BaseModel` and has `__config_name__`, and then holds that class |
| Loader.LoadModuleSelection | alicebot/utils.py:139-170 | `load_module` succeeds exactly when one attribute, and no other, holds a component, and returns that class with the config slot; it raises `LoadModuleError` for none and for more than one |
| Loader.AliasedComponentIsAmbiguous | alicebot/utils.py:140-160 | a component bound under two names in its own module makes `load_module` raise "more than one" |
| Loader.LoadModule | alicebot/utils.py:139-170 | the loop over `dir(module)` computes the result whose selection `LoadModuleSelection` characterises |
| Loader.LoadModuleFromName | alicebot/utils.py:188-191 | an import error propagates unchanged; after a successful import the result is `Ok` exactly when the module has one component, and then holds the module, that class and its config slot; otherwise it is `LoadModuleError` for no class or for more than one |
| Loader.ModulePathFinder.constructor | alicebot/utils.py:115 | a new finder has no roots |
| Loader.ModulePathFinder.SearchPath | alicebot/utils.py:117-120 | `find_spec` searches the finder's own roots first, then the caller's; `None` adds none |
| Loader.LoadModuleFromFile | alicebot/utils.py:209-214 | a file whose extension is not `.py` fails with `LoadModuleError` before the finder changes; otherwise the finder's roots become exactly the file's directory and the module named by the file's base name is loaded |
| Loader.Public | alicebot/utils.py:235 | the names kept are names of the listing that do not start with `_` |
| Loader.Attempts | alicebot/utils.py:237-239 | one load per name, in order |
| Loader.OksComeFromRs | alicebot/utils.py:236-241 | every value kept comes from a successful load |
| Loader.CollectSkipsPrivate | alicebot/utils.py:235 | names starting with `_` have no effect on the directory loop |
| Loader.CollectOk | alicebot/utils.py:232-242 | on success the result is exactly the successful loads of the public names, in listing order |
| Loader.CollectErr | alicebot/utils.py:236-241 | the directory loop fails exactly when a public name fails with an error other than `LoadModuleError`, and it raises the first such error |
| Loader.LoadModulesFromDir | alicebot/utils.py:232-242 | the finder's roots become the given roots, and the result is that of the directory loop over the listed modules |
| Loader.DirectoryResultBound | alicebot/utils.py:232-242 | a successful directory load has at most one entry per public name, and each entry is a successful load of a public name |

## Left out

- Scheduling is not modelled. `Sync.Condition.Acquire` returns false on a held lock where `asyncio.Lock.acquire` suspends the caller. The lock's own queue of blocked acquirers and its fairness are not modelled.
- Sync.Condition.WaitEnd: the removal of the future (line 73) and the reacquire of the lock (line 80) are one step. Between them the real coroutine holds a done future that `notify` skips anyway.
- Cancellation in `wait()` is not modelled: the retry loop of lines 77-86 and the re-raise of `CancelledError`.
- Futures are slots (a ticket plus an optional result) rather than objects. `set_result` on one future is the update of one slot.
- `wait_for` (lines 88-93) is left out, because it calls an arbitrary predicate whose effects cannot be seen.
- `__aenter__`/`__aexit__` (lines 46-53) are `Acquire` and `Release` and get no members of their own. `__repr__` (lines 55-60) is left out because it only formats text.
- Loader.ModulePathFinder.FindSpec passes `SearchPath` to a lookup function parameter, because `PathFinder.find_spec` and its `target` argument belong to the import system.
- `ModulePathFinder.path` is a class attribute in the source, shared by every finder. The model makes it a field of the one finder the loaders are given.
- Loader.LoadModulesFromDir takes the roots as a sequence. A one-shot iterator would be consumed by `list(path)` at line 233 before `iter_modules` reads it. That case is not modelled.
- Import, `reload`, `pkgutil.iter_modules` and reflection are function parameters and records. Their own behaviour (file system, module execution) is not modelled.
- Error messages of `LoadModuleError` are reduced to a reason tag. The `print` at line 157 is left out.
- Only POSIX path rules are modelled: `/` is the only separator, as in `posixpath`.
- `DataclassEncoder` (lines 245-251) is not part of this model: it is JSON output, not plugin loading or synchronisation.
- `load_module` and `load_module_form_file` raise `LoadModuleError` for a missing class, for several classes and for a bad extension alike (lines 153, 158 and 212). The model keeps the three apart as reason tags of one error.
