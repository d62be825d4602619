/** The storage backend selector of package epub: the package-level variable
    `filesystem` and the function `Use` that swaps it. The backends
    themselves are opaque here: an OS-backed store is known only by its root
    directory, an in-memory store only by its identity. The host's temporary
    directory, read from the environment by `os.TempDir()`, is a parameter. */
module Backend {

  type Path = seq<char>

  /** Go's `FSType` is a named `int`, whose width (32 or 64 bits) depends on
      the platform; the 64-bit range is used here. */
  newtype FSType = x: int | -0x8000_0000_0000_0000 <= x < 0x8000_0000_0000_0000

  /** The two recognised values, numbered by `iota`. */
  const OsFS: FSType := 0
  const MemoryFS: FSType := 1

  /** The values `Use` accepts; every other one makes it panic. */
  predicate Known(s: FSType) {
    s == OsFS || s == MemoryFS
  }

  /** An OS-backed store (`osfs.NewOSFS`): a root fixed at construction. */
  class OsStore {
    const root: Path

    constructor (root: Path)
      ensures this.root == root
    {
      this.root := root;
    }
  }

  /** An in-memory store (`memory.NewMemory`); its contents are not modelled. */
  class MemoryStore {
    constructor ()
    {
    }
  }

  /** A value of the `storage.Storage` interface. */
  datatype Storage = OsBacked(os: OsStore) | InMemory(mem: MemoryStore)

  /** The kind of backend a storage value is. */
  function KindOf(st: Storage): FSType {
    match st
    case OsBacked(_) => OsFS
    case InMemory(_) => MemoryFS
  }

  /** The package's global state. */
  class Selector {
    /** The active backend. */
    var filesystem: Storage

    function Kind(): FSType
      reads this
    {
      KindOf(filesystem)
    }

    /** Package initialisation: the OS-backed store rooted at the temporary
        directory. */
    constructor (tempDir: Path)
      ensures filesystem.OsBacked? && filesystem.os.root == tempDir
      ensures fresh(filesystem.os)
      ensures Kind() == OsFS
    {
      var st := new OsStore(tempDir);
      filesystem := OsBacked(st);
    }

    /** Switches the active backend to a new store of the requested kind.
        Any value other than `OsFS` and `MemoryFS` panics in the source, so
        callers must pass one of the two. */
    method Use(s: FSType, tempDir: Path)
      requires Known(s)
      modifies this
      ensures Kind() == s
      ensures s == OsFS ==> filesystem.OsBacked? && filesystem.os.root == tempDir && fresh(filesystem.os)
      ensures s == MemoryFS ==> filesystem.InMemory? && fresh(filesystem.mem)
    {
      if s == OsFS {
        var st := new OsStore(tempDir);
        filesystem := OsBacked(st);
      } else if s == MemoryFS {
        var st := new MemoryStore();
        filesystem := InMemory(st);
      }
    }
  }

  /** Calling `Use(MemoryFS)` twice leaves an in-memory backend both times,
      but the second call discards the first store for a new one. */
  method UseMemoryTwice(sel: Selector, tempDir: Path) returns (first: MemoryStore)
    modifies sel
    ensures sel.Kind() == MemoryFS && sel.filesystem.InMemory?
    ensures fresh(first) && fresh(sel.filesystem.mem)
    ensures sel.filesystem.mem != first
  {
    sel.Use(MemoryFS, tempDir);
    first := sel.filesystem.mem;
    sel.Use(MemoryFS, tempDir);
  }

  /** The kind of the active backend after the calls `Use(calls[0])`,
      `Use(calls[1])`, ..., starting from a backend of kind `initial`. */
  function KindAfter(initial: FSType, calls: seq<FSType>): FSType
    requires forall i :: 0 <= i < |calls| ==> Known(calls[i])
    decreases |calls|
  {
    if calls == [] then initial else KindAfter(calls[0], calls[1..])
  }

  /** The active backend reflects the last call only. */
  lemma {:induction false} KindAfterLastCall(initial: FSType, calls: seq<FSType>)
    requires forall i :: 0 <= i < |calls| ==> Known(calls[i])
    ensures KindAfter(initial, calls) == if calls == [] then initial else calls[|calls| - 1]
    decreases |calls|
  {
    if calls != [] {
      KindAfterLastCall(calls[0], calls[1..]);
    }
  }

  /** Repeating the last call changes the kind of the active backend no
      further. */
  lemma KindAfterRepeat(initial: FSType, calls: seq<FSType>, s: FSType)
    requires forall i :: 0 <= i < |calls| ==> Known(calls[i])
    requires Known(s)
    ensures KindAfter(initial, calls + [s, s]) == KindAfter(initial, calls + [s])
  {
    KindAfterLastCall(initial, calls + [s, s]);
    KindAfterLastCall(initial, calls + [s]);
  }

  /** Calls `Use` once per element of `calls`, in order: the kind of the
      active backend is then the one `KindAfter` gives. */
  method UseAll(sel: Selector, calls: seq<FSType>, tempDir: Path)
    requires forall i :: 0 <= i < |calls| ==> Known(calls[i])
    modifies sel
    ensures sel.Kind() == KindAfter(old(sel.Kind()), calls)
  {
    ghost var initial := sel.Kind();
    var i := 0;
    while i < |calls|
      invariant 0 <= i <= |calls|
      invariant sel.Kind() == KindAfter(initial, calls[..i])
    {
      sel.Use(calls[i], tempDir);
      KindAfterLastCall(initial, calls[..i + 1]);
      i := i + 1;
    }
    assert calls[..|calls|] == calls;
  }
}
