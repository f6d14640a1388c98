# orco core in Dafny: configuration keys and result-file storage

This project models two pieces of orco, a Python engine that caches
computation results in a database.

**Configuration keys.** The engine identifies every computation by its key.
The key is a deterministic string made from the computation's configuration,
a JSON-like value. `Key.MakeKey` models `make_key`:

- A string, int, bool or float is written as its Python `repr`.
- A list or a tuple is written as `[`, then each element followed by `,`, then `]`.
- A dict is written as `{`, then `'key':value,` for each item in key order, then `}`.
  Items whose key starts with `_` are skipped.
- A dict with a key that is not a string fails with `InvalidKey`.
  This happens even when the key would be skipped.
- A value of any other type fails with `InvalidItem`, unless it sits under a skipped key.

Python's `repr` of ints, bools and strings is modelled in `PyRepr`. It has a
reader of string literals (`PyRepr.Unescape`), and the string encoding is
proved to round-trip against it.

The configuration is the datatype `Key.Config`. A Python dict is the sequence
of its items in insertion order. Python's `sorted` on the items is modelled by
an insertion sort on string keys (`KeySort.SortByKey`). Python compares
strings by code point, and the model orders them lexicographically on
`seq<char>` (`StringOrder.Less`).

**Result files.** A job's result data is kept in one of two places. Small data
goes in the `data` blob column of its `result_files` row. Large data goes in a
file of the SQLite database's files directory, named by a new uuid.
`DbStore.ResultFile` holds the object's in-memory data, the two columns, the
dirty flag and the queue of file names to delete. `DbStore.Session` holds the
files directory and the session's delete list. The files directory is a map
from file name to bytes, passed into and out of each step. Each ORM hook is a
pure transition:

- `NewResultFile` models the constructor.
- `ClearData` and `SetData` model `clear_data` and the `data` setter.
- `BeforeFlush` and `AfterFlush` model the flush hooks.
- `AfterCommit` models the after-commit hook.
- `Loaded` models the load and refresh hooks.

`DbStoreLemmas.Inv` states the consistency these hooks keep between the
columns, the files directory and the delete lists. `SqliteUrl.SqlitePath`
models the URL test of `sqlite_path`: it decides whether a database URL names
a SQLite database file.

Two details of `make_key` shape the model:

- Every element of a list, tuple or dict is followed by `,`, including the last.
- Only values of unsupported types are rejected (anything other than str, int,
  bool, float, list, tuple and dict), and a dict must have string keys.

## Model

| member | source | states |
|---|---|---|
| `StringOrder.LessTransitive` | orco/internals/key.py:12 | the code-point order used to sort dict items is transitive |
| `StringOrder.LessTotal` | orco/internals/key.py:12 | of two different strings, one sorts before the other |
| `KeySort.SortByKey` | orco/internals/key.py:12 | sorting keeps exactly the same items, and items with distinct keys come out strictly increasing by key |
| `KeySort.StrictlySortedUnique` | orco/internals/key.py:12 | two strictly key-sorted item lists with the same items are equal, so the sorted order does not depend on insertion order |
| `Key.DropPrivate` | orco/internals/key.py:16-17 | an item is kept exactly when its key does not start with `_`, and the kept items stay sorted |
| `Key.Significant` | orco/internals/key.py:12-17 | the items written for a dict are exactly its items with non-private keys, strictly sorted by key |
| `Key.Valid` | orco/internals/key.py:2-24 | scalars are always encodable, an unsupported value never is, and an encodable dict has only string keys |
| `Key.ValidByMembers` | orco/internals/key.py:4-22 | a list or tuple is encodable exactly when all its members are; a dict exactly when all its keys are strings and every value under a non-private key is encodable |
| `Key.JoinItems` | orco/internals/key.py:6-8 | joining element encodings succeeds exactly when every element succeeds; otherwise the error is that of the first failing element |
| `Key.Enclose` | orco/internals/key.py:5-9 | a bracketed encoding succeeds exactly when every part succeeds, and fails with the first failing part |
| `Key.ValidDict` | orco/internals/key.py:10-22 | a dict with string keys is encodable exactly when every value under a non-private key is |
| `Key.MakeKey` | orco/internals/key.py:1-30 | the encoder succeeds exactly when every reachable dict has string keys only and every significant value has a supported type; a dict with a non-string key fails with `InvalidKey`; an unsupported value fails with `InvalidItem` |
| `KeyLemmas.SameSignificantItemsSameKey` | orco/internals/key.py:10-22 | two dicts with the same non-private items have the same key |
| `KeyLemmas.DictOrderIrrelevant` | orco/internals/key.py:10-12 | two dicts with the same items in any insertion order have the same key |
| `KeyLemmas.PrivateItemIgnored` | orco/internals/key.py:16-17 | inserting or removing an item whose key starts with `_` never changes the result, even when its value is unsupported |
| `KeyLemmas.PrivateValueIgnored` | orco/internals/key.py:16-17 | changing the value under a `_` key never changes the result |
| `KeyLemmas.ListTupleSame` | orco/internals/key.py:4-9 | a list and a tuple with the same elements have the same key |
| `KeyLemmas.JoinItemsAppend` | orco/internals/key.py:6-8 | appending an element appends its encoding and a comma, or yields the first error |
| `KeyLemmas.ListAppend` | orco/internals/key.py:4-9 | appending an element to a list inserts its key and a comma just before `]`, keeping earlier elements in order; the first failure wins |
| `KeyLemmas.Shape` | orco/internals/key.py:4-22 | a successful dict key starts with `{` and ends with `}`; a list or tuple key starts with `[` and ends with `]` |
| `KeyLemmas.AllPrivateIsEmpty` | orco/internals/key.py:10-22 | a dict with string keys that all start with `_` (or an empty dict) encodes as `{}` |
| `PyRepr.Digits` | orco/internals/key.py:2-3 | the digits of a natural number denote that number, and only zero starts with `0` |
| `PyRepr.ReprInt` | orco/internals/key.py:2-3 | an int's `repr` starts with `-` exactly when the int is negative |
| `PyRepr.ReprIntDigits` | orco/internals/key.py:2-3 | after the optional `-`, an int's `repr` is its absolute value in decimal digits with no leading zero |
| `PyRepr.QuoteFor` | orco/internals/key.py:3 | `repr` quotes a string with `"` exactly when it holds a `'` and no `"`, and with `'` otherwise |
| `PyRepr.ReprStr` | orco/internals/key.py:3 | a string's `repr` begins and ends with the quote `QuoteFor` picks |
| `PyRepr.EscapeCharRoundTrip` | orco/internals/key.py:3 | each character's escape (`\\`, escaped quote, `\t`, `\n`, `\r`, `\xNN`, or the character itself) reads back as that character |
| `PyRepr.EscapeAllRoundTrip` | orco/internals/key.py:3 | the escaped text reads back as the original text, with no unescaped quote in it |
| `PyRepr.ReprStrRoundTrip` | orco/internals/key.py:18 | the inside of a string's `repr` (a dict key as written in the key) reads back as the string |
| `PyRepr.PlainRepr` | orco/internals/key.py:18 | a string with no quotes, no backslashes and no characters `repr` escapes (controls, DEL, U+0080 to U+00A0, U+00AD) is written between single quotes unchanged |
| `KeyLemmas.ExampleIntKeys` | orco/internals/key.py:2-3 | the ints 2 and 10 encode as `2` and `10` |
| `KeyLemmas.ExampleBoolKeys` | orco/internals/key.py:2-3 | a bool is written `True` or `False`, not as the int it equals: `[True]` encodes as `[True,]` while `[1]` encodes as `[1,]` |
| `KeyLemmas.ExampleOrder` | orco/internals/key.py:12 | `end` < `start` < `step` in code-point order |
| `KeyLemmas.ExampleDictKey` | tests/test_builders.py:255 | `{"end": 10, "start": 0, "step": 2}` encodes as `{'end':10,'start':0,'step':2,}` |
| `SqliteUrl.CaptureToEnd` | orco/internals/dbstore.py:211 | `(.*)$` captures text without line feeds that is the rest of the URL, less at most one final line feed; text without line feeds is captured whole |
| `SqliteUrl.MatchPath` | orco/internals/dbstore.py:211 | on a match the URL starts with `sqlite` and the captured group is a single line |
| `SqliteUrl.SqlitePath` | orco/internals/dbstore.py:211-214 | a returned path is neither empty nor `:memory:` and is the group the pattern captures; `None` means no match or an empty or `:memory:` group |
| `SqliteUrl.MatchSound` | orco/internals/dbstore.py:211 | whenever the pattern matches, the URL is `sqlite`, a slash-free suffix, `://`, a slash-free host, `/`, the captured path on one line, and at most a final line feed |
| `SqliteUrl.MatchComplete` | orco/internals/dbstore.py:211 | every URL of that form matches and captures its path |
| `SqliteUrl.SqlitePathShaped` | orco/internals/dbstore.py:211-214 | for a URL of that form the result is its path, or `None` when the path is empty or `:memory:` |
| `SqliteUrl.SqlitePathSome` | orco/internals/dbstore.py:211-214 | a returned path comes from a decomposition of the URL of that form |
| `SqliteUrl.SqlitePathNone` | orco/internals/dbstore.py:211-213 | the result is `None` exactly when no decomposition of the URL has a usable path |
| `SqliteUrl.ExampleFilePath` | orco/internals/dbstore.py:278 | `sqlite:///testdb.sqlite` names the file `testdb.sqlite` |
| `SqliteUrl.ExampleMemory` | orco/internals/dbstore.py:212-213 | `sqlite:///:memory:` names no file |
| `DbStore.NewResultFile` | orco/internals/dbstore.py:150-154 | a new object holds the given data, is dirty, has no columns written and has an empty deletion queue |
| `DbStore.ClearData` | orco/internals/dbstore.py:165-171 | the named file (if any) is queued for deletion, filename and data become null, the object is dirty and the blob is untouched |
| `DbStore.SetData` | orco/internals/dbstore.py:160-163 | setting data clears as `ClearData` does and then holds the new value |
| `DbStore.BeforeFlush` | orco/internals/dbstore.py:173-184 | a clean object and the files directory are left alone; a dirty one becomes clean with at most one of blob and filename set; a file is used exactly when there is a files directory and the data is non-empty and longer than 4096 bytes, and the file then holds the data; otherwise the blob holds the data; no other file changes |
| `DbStore.AfterFlush` | orco/internals/dbstore.py:186-189 | the object's queued names go onto the end of the session's delete list and the object's queue is emptied |
| `DbStore.Loaded` | orco/internals/dbstore.py:191-200 | loading succeeds exactly when the row names no file, or names an existing file with an empty blob in a session with a files directory; the data is then what the row or file holds and the object is clean with nothing queued; a file name with a non-empty blob fails |
| `DbStore.Unlinked` | orco/internals/dbstore.py:253-256 | a file remains exactly when it was there and is not on the list, with unchanged contents |
| `DbStore.AfterCommit` | orco/internals/dbstore.py:248-258 | commit fails exactly when there is no files directory and the delete list is non-empty; otherwise every listed file is gone (missing ones ignored), every other file keeps its contents, and the delete list is empty |
| `DbStoreLemmas.NewValid` | orco/internals/dbstore.py:150-154 | a new object satisfies the storage invariant |
| `DbStoreLemmas.ClearPreservesInv` | orco/internals/dbstore.py:165-171 | clearing keeps the storage invariant |
| `DbStoreLemmas.SetPreservesInv` | orco/internals/dbstore.py:160-163 | setting data keeps the storage invariant |
| `DbStoreLemmas.FlushPreservesInv` | orco/internals/dbstore.py:173-184 | flushing with an unused file name keeps the storage invariant |
| `DbStoreLemmas.AfterFlushPreservesInv` | orco/internals/dbstore.py:186-189 | handing the queue to the session keeps the storage invariant |
| `DbStoreLemmas.CommitPreservesInv` | orco/internals/dbstore.py:248-258 | under the invariant commit succeeds, keeps the object's own file and keeps the invariant |
| `DbStoreLemmas.ReloadUnderInv` | orco/internals/dbstore.py:191-200 | reloading a clean object gives back the same object with an empty queue |
| `DbStoreLemmas.FlushIdempotent` | orco/internals/dbstore.py:176-184 | a second flush right after a first changes nothing |
| `DbStoreLemmas.FlushLoadRoundTrip` | orco/internals/dbstore.py:173-200 | after a flush writes a dirty object's data to blob or file, a load restores the same data, clean and with nothing queued |
| `DbStoreLemmas.BlobLimitBoundary` | orco/internals/dbstore.py:177-183 | 4096 bytes stay in the blob; 4097 bytes go to a file exactly when there is a files directory |
| `DbStoreLemmas.ReplaceFileThenCommit` | orco/internals/dbstore.py:160-258 | replacing file-held data, then flushing and committing, removes the old file, restores the invariant, and a load reads the new data |

## Left out

- Python `repr` of floats: a float carries its `repr` text (`Config.Float`) instead of computing it.
- Python `repr` of strings: non-ASCII non-printable characters other than the Latin-1 controls, the no-break space and the soft hyphen are written literally, where Python would escape them.
- The two ways a non-string dict key fails (the explicit exception, or the `TypeError` from sorting mixed key types) are folded into one `InvalidKey`; the exception messages are not modelled.
- Key.MakeKey: does not state injectivity, because it does not hold: a list and a tuple with the same elements have the same key, and a `Float` carries arbitrary `repr` text that may coincide with another value's. It also does not model the interpreter's limits: CPython raises `ValueError` in `repr` of an int with more than 4300 digits, and `RecursionError` for a configuration nested deeper than the recursion limit (about 1000). The model succeeds on both, because it has neither limit.
- The ORM table declarations, the event-listener registration, and the loops of the flush hooks over a session's new, dirty and deleted objects are not modelled. The lemmas follow one object.
- `_result_file_transaction_create` and the `pathlib` part of `sqlite_path` (`absolute()`, the `.files` suffix, `mkdir`) are not modelled, because they depend on the working directory and the file system.
- File I/O (`write_bytes`, `read_bytes`, `unlink`) is modelled as updates of the files-directory map.
- `uuid.uuid4()` is a parameter of `BeforeFlush`; that it is unused is a hypothesis of the lemmas.
- The `test()` demo at the end of the store module is not modelled: it is I/O and printing.
- `Job.clear_files` and the rest of the engine (the runtime, the executor, the browser) are not part of this model.
- A missing `_sqlite_files_dir` or `_sqlite_delete_list` entry in `session.info` (a `KeyError`) is not modelled; a session always carries both.
