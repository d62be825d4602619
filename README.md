# go-epub: substring test helper and storage backend selector

This project models two small pieces of the go-epub package in Dafny and
proves what they promise.

- **`contains` / `containsMiddle`** (write_test.go). The package's tests use these to check that an error message mentions a path.
  - `containsMiddle` scans every start index for `substr`.
  - `contains` guards the scan with a length check and three shortcuts: equality, prefix and suffix.
  - Strings are Go strings, so they are byte sequences here (`Substring.String = seq<byte>`).
  - The model proves that the scan computes the substring relation `Occurs`.
  - It proves that `contains` equals `Occurs`, so the shortcuts neither add nor lose cases.
  - It proves that `Occurs` agrees with an independent recursive definition.
  - Dafny's well-formedness checks show that every slice `Contains` and `ContainsMiddle` take is in bounds.
- **Backend selector** (fs.go). The package-level variable `filesystem` holds the active `storage.Storage` backend.
  - It starts as an OS-backed store rooted at the host's temporary directory.
  - `Use` replaces it with a new OS-backed or in-memory store, depending on an `FSType` enum.
  - The global is the field of class `Backend.Selector`, and `Use` is a method on it.
  - The backends are opaque objects. An OS-backed store is known only by its root, and an in-memory store only by its identity, so `fresh` expresses "a new store".
  - `UseAll` makes a sequence of `Use` calls and is proved to end on the backend kind that the fold `KindAfter` gives. Lemmas about `KindAfter` show that the last call decides the backend kind, and that repeating a call changes nothing further.

## Model

| member | source | states |
|---|---|---|
| Substring.ContainsMiddle | write_test.go:98-105 | returns true iff some start index `i` with `0 <= i <= len(s)-len(substr)` has `s[i:i+len(substr)] == substr`; returns false whenever `substr` is longer than `s`, where the loop bound is negative and nothing is sliced; every slice it takes is in bounds |
| Substring.ContainsMatchesOccurs | write_test.go:94-96 | `contains(s, substr)` holds exactly when `substr` occurs in `s`: the length guard loses no case, and the equality, prefix and suffix shortcuts add none |
| Substring.ContainsShortcuts | write_test.go:95 | `contains` is false when `s` is shorter than `substr`; `contains(s, s)` holds; the empty string is contained in every string; a proper prefix or proper suffix is contained |
| Substring.PrefixOccurs | write_test.go:95 | every prefix of `s` occurs in `s` (at index 0), so the prefix shortcut is a case of the substring relation |
| Substring.SuffixOccurs | write_test.go:95 | every suffix of `s` occurs in `s` (at index `len(s)-k`), so the suffix shortcut is a case of the substring relation |
| Substring.EmptyOccurs | write_test.go:95 | the empty string occurs in every string, the empty one included |
| Substring.OccursRecMatchesOccurs | write_test.go:98-105 | the index-scan relation equals the recursive definition "a prefix of `s`, or occurring in the tail of `s`", in both directions |
| Backend.Selector.constructor | fs.go:14-16 | before any `Use` call, the active backend is a new OS-backed store rooted at the temporary directory |
| Backend.OsStore.constructor | internal/storage/osfs/fs.go:19-25 | an OS-backed store keeps the root directory it was created with |
| Backend.Selector.Use | fs.go:26-36 | callers may pass only `OsFS` or `MemoryFS`, because any other value panics; `Use(OsFS)` installs a new OS-backed store rooted at the temporary directory; `Use(MemoryFS)` installs a new in-memory store; only the active backend changes |
| Backend.UseMemoryTwice | fs.go:26-36 | calling `Use(MemoryFS)` twice leaves an in-memory backend; the store the second call installs is new and differs from the store `first` that the first call installed |
| Backend.UseAll | fs.go:26-36 | after the calls `Use(calls[0])`, `Use(calls[1])`, ... on the selector, the active backend's kind is `KindAfter(initial kind, calls)`, the fold in which each call sets the kind to its argument |
| Backend.KindAfterLastCall | fs.go:26-36 | the fold `KindAfter` over a sequence of `Use` calls, which `UseAll` ties to the selector, gives the argument of the last call, or the initial kind if there were no calls |
| Backend.KindAfterRepeat | fs.go:26-36 | by the fold `KindAfter`, which `UseAll` ties to the selector, repeating the last `Use` call gives the same backend kind as calling it once |

## Left out

- `os.TempDir()` reads the host environment, so it is a parameter (`tempDir`) of the constructor and of `Use`.
- The backends are opaque. The storage operations of the OS-backed store are not modelled, because each one delegates to a host filesystem call after a path join (internal/storage/osfs/fs.go:27-55).
- The in-memory store (`memory.NewMemory`), `storage.ReadFile` and `storage.MkdirAll` are not part of this model. Only their tests are available, not their source.
- The panic on an unrecognised `FSType` is a precondition of `Use`, not a modelled crash.
- The data race on the unsynchronised global `filesystem` is not modelled: concurrency is out of scope.
- The rest of write_test.go is not modelled. Those tests cover EPUB and ZIP serialisation, temporary files and `io.Copy`, or depend on `UnableToCreateEpubError`, which is not part of this model.
- Substring.Contains: the call to `containsMiddle` inside `contains` is modelled by its specification `Occurs`, because a Dafny function cannot call a method. `Substring.ContainsMiddle` is proved to compute exactly `Occurs`.
- Backend.KindAfter: a sequence of `Use` calls is followed only by backend kind. The identity of each new store is stated per call, by the `fresh` clauses of `Backend.Selector.Use`.
