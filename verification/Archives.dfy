/** Directory entries in built archives: each once, and before the files below it. */
module Archives {
  import opened Common

  /** The components of a path. */
  type Path = seq<string>

  /** A file is written below a prefix that is not its own to create. */
  datatype Entry = Directory(path: Path) | File(prefix: Path, relative: Path)

  datatype Archive = Archive(entries: seq<Entry>, directories: set<Path>)

  function AddDirectory(a: Archive, d: Path): Archive {
    if d in a.directories then a else Archive(a.entries + [Directory(d)], a.directories + {d})
  }

  /** The first `n` ancestors of `relative` below `prefix`, outermost first. */
  function AddAncestors(a: Archive, prefix: Path, relative: Path, n: nat): Archive
    requires n <= |relative|
  {
    if n == 0 then a else AddDirectory(AddAncestors(a, prefix, relative, n - 1), prefix + relative[..n])
  }

  function AddFile(a: Archive, prefix: Path, relative: Path): Archive {
    var b := AddAncestors(a, prefix, relative, if relative == [] then 0 else |relative| - 1);
    b.(entries := b.entries + [File(prefix, relative)])
  }

  // ---------------------------------------------------------------------------
  // What every archive satisfies

  ghost predicate DirectoriesOnce(entries: seq<Entry>) {
    forall i, j :: 0 <= i < j < |entries| && entries[i].Directory? && entries[j].Directory? ==> entries[i] != entries[j]
  }

  /** Entry `i`, if a file, comes after each of its ancestors strictly below its prefix. */
  ghost predicate AfterAncestors(entries: seq<Entry>, i: int)
    requires 0 <= i < |entries|
  {
    entries[i].File? ==> forall n :: 0 < n < |entries[i].relative| ==>
      Directory(entries[i].prefix + entries[i].relative[..n]) in entries[..i]
  }

  ghost predicate WellOrdered(entries: seq<Entry>) {
    DirectoriesOnce(entries) && forall i :: 0 <= i < |entries| ==> AfterAncestors(entries, i)
  }

  ghost predicate WellFormedArchive(a: Archive) {
    WellOrdered(a.entries) && forall d :: d in a.directories <==> Directory(d) in a.entries
  }

  /** Order is a property of every prefix, so it also holds when a write fails midway. */
  lemma PrefixWellOrdered(p: seq<Entry>, entries: seq<Entry>)
    requires p <= entries && WellOrdered(entries)
    ensures WellOrdered(p)
  {
    forall i | 0 <= i < |p| ensures AfterAncestors(p, i) {
      assert AfterAncestors(entries, i) && p[i] == entries[i] && p[..i] == entries[..i];
    }
  }

  lemma AppendWellOrdered(entries: seq<Entry>, e: Entry)
    requires WellOrdered(entries)
    requires e.Directory? ==> e !in entries
    requires e.File? ==> forall n :: 0 < n < |e.relative| ==> Directory(e.prefix + e.relative[..n]) in entries
    ensures WellOrdered(entries + [e])
  {
    var grown := entries + [e];
    forall i | 0 <= i < |grown| ensures AfterAncestors(grown, i) {
      if i < |entries| {
        assert AfterAncestors(entries, i) && grown[i] == entries[i] && grown[..i] == entries[..i];
      } else {
        assert grown[..i] == entries;
      }
    }
  }

  lemma AddDirectoryKeeps(a: Archive, d: Path)
    requires WellFormedArchive(a)
    ensures WellFormedArchive(AddDirectory(a, d)) && d in AddDirectory(a, d).directories
    ensures a.entries <= AddDirectory(a, d).entries && a.directories <= AddDirectory(a, d).directories
  {
    if d !in a.directories {
      AppendWellOrdered(a.entries, Directory(d));
    }
  }

  lemma {:induction false} AddAncestorsKeeps(a: Archive, prefix: Path, relative: Path, n: nat)
    requires WellFormedArchive(a) && n <= |relative|
    ensures WellFormedArchive(AddAncestors(a, prefix, relative, n))
    ensures a.entries <= AddAncestors(a, prefix, relative, n).entries
    ensures forall m :: 0 < m <= n ==> prefix + relative[..m] in AddAncestors(a, prefix, relative, n).directories
  {
    if n > 0 {
      AddAncestorsKeeps(a, prefix, relative, n - 1);
      AddDirectoryKeeps(AddAncestors(a, prefix, relative, n - 1), prefix + relative[..n]);
    }
  }

  lemma AddFileKeeps(a: Archive, prefix: Path, relative: Path)
    requires WellFormedArchive(a)
    ensures WellFormedArchive(AddFile(a, prefix, relative))
    ensures a.entries <= AddFile(a, prefix, relative).entries
  {
    var n := if relative == [] then 0 else |relative| - 1;
    AddAncestorsKeeps(a, prefix, relative, n);
    AppendWellOrdered(AddAncestors(a, prefix, relative, n).entries, File(prefix, relative));
  }

  datatype Operation = WriteDirectory(path: Path) | WriteFile(prefix: Path, relative: Path)

  function Build(ops: seq<Operation>): Archive {
    if ops == [] then Archive([], {})
    else
      match Last(ops)
      case WriteDirectory(d) => AddDirectory(Build(Init(ops)), d)
      case WriteFile(prefix, relative) => AddFile(Build(Init(ops)), prefix, relative)
  }

  /** For every sequence of writes sharing one directory set: directories once, ancestors first. */
  lemma {:induction false} EveryArchive(ops: seq<Operation>)
    ensures WellFormedArchive(Build(ops))
  {
    if ops != [] {
      EveryArchive(Init(ops));
      match Last(ops)
      case WriteDirectory(d) => AddDirectoryKeeps(Build(Init(ops)), d);
      case WriteFile(prefix, relative) => AddFileKeeps(Build(Init(ops)), prefix, relative);
    }
  }

  // ---------------------------------------------------------------------------
  // What every archive holds

  function FilesIn(entries: seq<Entry>): seq<Entry> {
    if entries == [] then []
    else FilesIn(Init(entries)) + if Last(entries).File? then [Last(entries)] else []
  }

  function FilesWritten(ops: seq<Operation>): seq<Entry> {
    if ops == [] then []
    else
      FilesWritten(Init(ops)) +
      match Last(ops)
      case WriteDirectory(_) => []
      case WriteFile(prefix, relative) => [File(prefix, relative)]
  }

  lemma DirectoryAddsNoFile(a: Archive, d: Path)
    ensures FilesIn(AddDirectory(a, d).entries) == FilesIn(a.entries)
  {
    if d !in a.directories { assert Init(a.entries + [Directory(d)]) == a.entries; }
  }

  lemma {:induction false} AncestorsAddNoFile(a: Archive, prefix: Path, relative: Path, n: nat)
    requires n <= |relative|
    ensures FilesIn(AddAncestors(a, prefix, relative, n).entries) == FilesIn(a.entries)
  {
    if n > 0 {
      AncestorsAddNoFile(a, prefix, relative, n - 1);
      DirectoryAddsNoFile(AddAncestors(a, prefix, relative, n - 1), prefix + relative[..n]);
    }
  }

  lemma FileAddsOne(a: Archive, prefix: Path, relative: Path)
    ensures FilesIn(AddFile(a, prefix, relative).entries) == FilesIn(a.entries) + [File(prefix, relative)]
  {
    var n := if relative == [] then 0 else |relative| - 1;
    var b := AddAncestors(a, prefix, relative, n);
    AncestorsAddNoFile(a, prefix, relative, n);
    assert Init(b.entries + [File(prefix, relative)]) == b.entries;
  }

  /** Exactly the files that were written are in the archive, in order and with repetitions. */
  lemma {:induction false} EveryFileIsWritten(ops: seq<Operation>)
    ensures FilesIn(Build(ops).entries) == FilesWritten(ops)
  {
    if ops != [] {
      EveryFileIsWritten(Init(ops));
      match Last(ops)
      case WriteDirectory(d) => DirectoryAddsNoFile(Build(Init(ops)), d);
      case WriteFile(prefix, relative) => FileAddsOne(Build(Init(ops)), prefix, relative);
    }
  }

  /** The operation writes `d`, or a file below `d` whose prefix is above `d`. */
  ghost predicate NeedsDirectory(op: Operation, d: Path) {
    match op
    case WriteDirectory(path) => d == path
    case WriteFile(prefix, relative) => exists n :: 0 < n < |relative| && d == prefix + relative[..n]
  }

  lemma {:induction false} AncestorDirectories(a: Archive, prefix: Path, relative: Path, n: nat, d: Path)
    requires n <= |relative|
    ensures d in AddAncestors(a, prefix, relative, n).directories <==>
      d in a.directories || exists m :: 0 < m <= n && d == prefix + relative[..m]
  {
    if n > 0 { AncestorDirectories(a, prefix, relative, n - 1, d); }
  }

  lemma StepDirectories(a: Archive, op: Operation, d: Path)
    ensures var b := match op
                     case WriteDirectory(path) => AddDirectory(a, path)
                     case WriteFile(prefix, relative) => AddFile(a, prefix, relative);
      d in b.directories <==> d in a.directories || NeedsDirectory(op, d)
  {
    if op.WriteFile? {
      AncestorDirectories(a, op.prefix, op.relative, if op.relative == [] then 0 else |op.relative| - 1, d);
    }
  }

  lemma {:induction false} DirectoriesOf(ops: seq<Operation>, d: Path)
    ensures d in Build(ops).directories <==> exists i :: 0 <= i < |ops| && NeedsDirectory(ops[i], d)
  {
    if ops != [] {
      DirectoriesOf(Init(ops), d);
      StepDirectories(Build(Init(ops)), Last(ops), d);
      if i :| 0 <= i < |ops| && NeedsDirectory(ops[i], d) {
        assert i < |ops| - 1 ==> Init(ops)[i] == ops[i];
      }
      if i :| 0 <= i < |Init(ops)| && NeedsDirectory(Init(ops)[i], d) { assert NeedsDirectory(ops[i], d); }
      if NeedsDirectory(Last(ops), d) { assert NeedsDirectory(ops[|ops| - 1], d); }
    }
  }

  /** Exactly the directories that were written, or lie between a file and its prefix, are in the archive. */
  lemma EveryDirectoryIsNeeded(ops: seq<Operation>, d: Path)
    ensures Directory(d) in Build(ops).entries <==> exists i :: 0 <= i < |ops| && NeedsDirectory(ops[i], d)
  {
    EveryArchive(ops);
    DirectoriesOf(ops, d);
  }

  /** A single file in a package: its directory, then the file. */
  lemma ArchiveExample()
    ensures Build([WriteFile([], ["a.py"])]).entries == [File([], ["a.py"])]
    ensures Build([WriteFile(["p"], ["d", "a.py"])]).entries == [Directory(["p", "d"]), File(["p"], ["d", "a.py"])]
  {
    var one, two := [WriteFile([], ["a.py"])], [WriteFile(["p"], ["d", "a.py"])];
    assert Init(one) == [] && Init(two) == [];
    assert ["p"] + ["d", "a.py"][..1] == ["p", "d"];
    assert AddAncestors(Archive([], {}), ["p"], ["d", "a.py"], 0) == Archive([], {});
  }

  // ---------------------------------------------------------------------------
  // The writers

  /** A writer and the set of directories already written; `accepts` says which writes succeed. */
  class ArchiveWriter {
    var entries: seq<Entry>
    var directories: set<Path>

    ghost function View(): Archive
      reads this
    {
      Archive(entries, directories)
    }

    constructor ()
      ensures View() == Archive([], {})
    {
      entries, directories := [], {};
    }

    /** The directory counts as written even if the writer then rejects it. */
    method WriteDirectoryOnce(d: Path, accepts: Entry -> bool) returns (ok: bool)
      modifies this
      ensures ok ==> View() == AddDirectory(old(View()), d)
      ensures !ok ==> View() == Archive(old(entries), old(directories) + {d})
      ensures !ok ==> d !in old(directories) && !accepts(Directory(d))
    {
      if d !in directories {
        directories := directories + {d};
        if !accepts(Directory(d)) { return false; }
        entries := entries + [Directory(d)];
      }
      return true;
    }

    /** The directories between a file and its prefix, outermost first. */
    method WriteAncestors(prefix: Path, relative: Path, accepts: Entry -> bool) returns (ok: bool)
      requires WellFormedArchive(View()) && relative != []
      modifies this
      ensures ok ==> View() == AddAncestors(old(View()), prefix, relative, |relative| - 1)
      ensures !ok ==> old(entries) <= entries
      ensures !ok ==> Stopped(entries, AddFile(old(View()), prefix, relative).entries, accepts)
    {
      ghost var a := View();
      for n := 0 to |relative| - 1
        invariant View() == AddAncestors(a, prefix, relative, n)
      {
        ok := WriteDirectoryOnce(prefix + relative[..n + 1], accepts);
        if !ok {
          StoppedAtAncestor(a, prefix, relative, n, accepts);
          return;
        }
      }
      return true;
    }

    /** On failure, what was written is what should have been up to the entry that was rejected, still in order. */
    method WriteFileWithDirectories(prefix: Path, relative: Path, accepts: Entry -> bool) returns (ok: bool)
      requires WellFormedArchive(View())
      modifies this
      ensures ok ==> View() == AddFile(old(View()), prefix, relative)
      ensures ok ==> entries != [] && Last(entries) == File(prefix, relative)
      ensures !ok ==> Stopped(entries, AddFile(old(View()), prefix, relative).entries, accepts)
      ensures old(entries) <= entries && WellOrdered(entries)
    {
      ghost var a, full := View(), AddFile(View(), prefix, relative).entries;
      FullIsOrdered(a, prefix, relative);
      if relative != [] {
        ok := WriteAncestors(prefix, relative, accepts);
        if !ok { return; }
      }
      assert full == entries + [File(prefix, relative)];
      ok := accepts(File(prefix, relative));
      if ok { entries := entries + [File(prefix, relative)]; }
    }
  }

  /** What was written stops short of `full` at an entry that was rejected. */
  ghost predicate Stopped(written: seq<Entry>, full: seq<Entry>, accepts: Entry -> bool) {
    written < full && !accepts(full[|written|])
  }

  /** Whatever part of a file's entries was written is in order. */
  lemma FullIsOrdered(a: Archive, prefix: Path, relative: Path)
    requires WellFormedArchive(a)
    ensures var full := AddFile(a, prefix, relative).entries;
      a.entries <= Init(full) && forall p :: p <= full ==> WellOrdered(p)
  {
    var full := AddFile(a, prefix, relative).entries;
    AddFileKeeps(a, prefix, relative);
    AddAncestorsKeeps(a, prefix, relative, if relative == [] then 0 else |relative| - 1);
    forall p | p <= full ensures WellOrdered(p) {
      PrefixWellOrdered(p, full);
    }
  }

  lemma StoppedAtAncestor(a: Archive, prefix: Path, relative: Path, n: nat, accepts: Entry -> bool)
    requires WellFormedArchive(a) && n + 1 < |relative| && !accepts(Directory(prefix + relative[..n + 1]))
    requires prefix + relative[..n + 1] !in AddAncestors(a, prefix, relative, n).directories
    ensures a.entries <= AddAncestors(a, prefix, relative, n).entries
    ensures Stopped(AddAncestors(a, prefix, relative, n).entries, AddFile(a, prefix, relative).entries, accepts)
  {
    var b := AddAncestors(a, prefix, relative, n);
    AddAncestorsKeeps(a, prefix, relative, n);
    AncestorsMonotone(a, prefix, relative, n + 1);
    assert AddAncestors(a, prefix, relative, n + 1).entries == b.entries + [Directory(prefix + relative[..n + 1])];
  }

  lemma {:induction false} AncestorsMonotone(a: Archive, prefix: Path, relative: Path, n: nat)
    requires WellFormedArchive(a) && n < |relative|
    ensures AddAncestors(a, prefix, relative, n).entries <= AddFile(a, prefix, relative).entries
    ensures n > 0 ==> AddAncestors(a, prefix, relative, n - 1).entries <= AddFile(a, prefix, relative).entries
    decreases |relative| - n
  {
    if n + 1 < |relative| {
      AncestorsMonotone(a, prefix, relative, n + 1);
    } else if n > 0 {
      AddAncestorsKeeps(a, prefix, relative, n - 1);
      AddDirectoryKeeps(AddAncestors(a, prefix, relative, n - 1), prefix + relative[..n]);
    }
  }
}
