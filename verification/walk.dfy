/**
 * The walk over one root: a pre-order traversal of an abstract entry tree
 * through two filters. The entry filter sees every readable entry (the root,
 * directories, files, anything else), records its identity key in the
 * directory set and rejects an entry whose key was already there; a rejected
 * directory is not descended into. The file filter keeps readable regular
 * files and, when duplicates are not allowed, records their keys in the file
 * set and drops a file whose key it cannot obtain or has already seen.
 */
module Walker {

  datatype Option<T> = None | Some(value: T)

  /** An identity key (device and inode, or the platform's equivalent). */
  type Key = nat

  /** The file type of an entry, as the walk reports it. */
  datatype Kind = Directory | RegularFile | Other

  /**
   * What is known of one readable entry: its path, its file type, whether
   * its metadata could be read, the length that metadata reports, and its
   * identity key if a handle to it can be opened.
   */
  datatype Info = Info(path: string, kind: Kind, metaOk: bool, len: nat, key: Option<Key>)

  /**
   * An item of the walk: an error in place of an entry (a directory that
   * could not be read, an entry that vanished), or a readable entry with the
   * entries under it, in the order the directory lists them.
   */
  datatype Entry = Unreadable | DirEntry(info: Info, children: seq<Entry>)

  /** The outcome of a walk: the accepted files in order, and the final key sets. */
  datatype Walked = Walked(files: seq<Info>, dirSet: set<Key>, fileSet: set<Key>)

  predicate IsRegularFile(info: Info) {
    info.metaOk && info.kind == RegularFile
  }

  function Size(e: Entry): (n: nat)
    ensures n >= 1
  {
    match e
    case Unreadable => 1
    case DirEntry(_, children) => 1 + ForestSize(children)
  }

  function ForestSize(es: seq<Entry>): nat
    decreases es
  {
    if es == [] then 0 else Size(es[0]) + ForestSize(es[1..])
  }

  lemma {:induction false} ForestSizeConcat(a: seq<Entry>, b: seq<Entry>)
    ensures ForestSize(a + b) == ForestSize(a) + ForestSize(b)
    decreases |a|
  {
    if a != [] {
      assert (a + b)[0] == a[0];
      assert (a + b)[1..] == a[1..] + b;
      ForestSizeConcat(a[1..], b);
    } else {
      assert a + b == b;
    }
  }

  /**
   * The entry filter. An error passes untouched (the walk hands errors on
   * without asking the filter). With duplicates allowed every entry passes.
   * Otherwise an entry without a key passes and records nothing, and an entry
   * with a key passes exactly when the key is new; the key is recorded.
   */
  function EntryFilter(e: Entry, allowDups: bool, dirSet: set<Key>): (bool, set<Key>) {
    if e.Unreadable? || allowDups then (true, dirSet)
    else match e.info.key
      case None => (true, dirSet)
      case Some(k) => (k !in dirSet, dirSet + {k})
  }

  /**
   * The file filter: keeps a readable entry whose metadata can be read and
   * says "regular file". With duplicates disallowed it also needs the key,
   * keeps the file only when the key is new to the file set, and records it.
   */
  function FileFilter(e: Entry, allowDups: bool, fileSet: set<Key>): (bool, set<Key>) {
    if e.Unreadable? || !IsRegularFile(e.info) then (false, fileSet)
    else if allowDups then (true, fileSet)
    else match e.info.key
      case None => (false, fileSet)
      case Some(k) => (k !in fileSet, fileSet + {k})
  }

  /** The entries the walk descends into after accepting `e`. */
  function Descend(e: Entry): (es: seq<Entry>)
    ensures ForestSize(es) < Size(e)
  {
    if e.DirEntry? && e.info.kind == Directory then e.children else []
  }

  /** One pull from the walk: what it yields, what is left to visit, and the updated sets. */
  datatype Pulled = Pulled(yielded: seq<Info>, next: seq<Entry>, dirSet: set<Key>, fileSet: set<Key>)

  /**
   * Pulls the first item of a work list through both filters. A rejected
   * entry yields nothing and is dropped with everything under it; an
   * accepted directory's entries are put before the rest of the list.
   */
  function Pull(work: seq<Entry>, allowDups: bool, dirSet: set<Key>, fileSet: set<Key>): Pulled
    requires work != []
  {
    var e := work[0];
    var (pass, dirSet') := EntryFilter(e, allowDups, dirSet);
    if !pass then Pulled([], work[1..], dirSet', fileSet)
    else
      var (keep, fileSet') := FileFilter(e, allowDups, fileSet);
      Pulled(if keep then [e.info] else [], Descend(e) + work[1..], dirSet', fileSet')
  }

  /** Every pull leaves less to visit. */
  lemma PullShrinks(work: seq<Entry>, allowDups: bool, dirSet: set<Key>, fileSet: set<Key>)
    requires work != []
    ensures ForestSize(Pull(work, allowDups, dirSet, fileSet).next) < ForestSize(work)
  {
    ForestSizeConcat(Descend(work[0]), work[1..]);
  }

  /** The walk of a work list, pulled to the end. */
  function Walk(work: seq<Entry>, allowDups: bool, dirSet: set<Key>, fileSet: set<Key>): Walked
    decreases ForestSize(work)
  {
    if work == [] then Walked([], dirSet, fileSet)
    else
      var p := Pull(work, allowDups, dirSet, fileSet);
      PullShrinks(work, allowDups, dirSet, fileSet);
      var rest := Walk(p.next, allowDups, p.dirSet, p.fileSet);
      Walked(p.yielded + rest.files, rest.dirSet, rest.fileSet)
  }

  /** The files accepted when walking one root from empty key sets. */
  function Accepted(allowDups: bool, root: Entry): seq<Info> {
    Walk([root], allowDups, {}, {}).files
  }

  /** The files a pull yields, as a sequence. */
  function Yielded(file: Option<Info>): seq<Info> {
    match file
    case None => []
    case Some(f) => [f]
  }

  /**
   * The walk of one root as the program drives it: an iterator over the
   * entry tree whose entry filter and file filter own the two key sets.
   */
  class FileWalk {
    const allowDups: bool
    var work: seq<Entry>
    var dirSet: set<Key>
    var fileSet: set<Key>

    /** The files the walk has still to yield. */
    ghost function Remaining(): seq<Info>
      reads this
    {
      Walk(work, allowDups, dirSet, fileSet).files
    }

    /** A walk of `root` with both key sets empty. */
    constructor (root: Entry, allowDups: bool)
      ensures this.allowDups == allowDups
      ensures work == [root] && dirSet == {} && fileSet == {}
      ensures Remaining() == Accepted(allowDups, root)
    {
      this.allowDups := allowDups;
      work := [root];
      dirSet := {};
      fileSet := {};
    }

    /** Pulls one item through the entry filter and, if it passes, the file filter. */
    method Advance() returns (file: Option<Info>)
      requires work != []
      modifies this
      ensures var p := Pull(old(work), allowDups, old(dirSet), old(fileSet));
        work == p.next && dirSet == p.dirSet && fileSet == p.fileSet && Yielded(file) == p.yielded
    {
      var e := work[0];
      file := None;
      // The entry filter; errors are handed on without it.
      var pass := true;
      if e.DirEntry? && !allowDups && e.info.key.Some? {
        pass := e.info.key.value !in dirSet;
        dirSet := dirSet + {e.info.key.value};
      }
      if !pass {
        // A rejected entry is skipped with everything under it.
        work := work[1..];
        return;
      }
      // The file filter.
      var keep := e.DirEntry? && IsRegularFile(e.info);
      if keep && !allowDups {
        match e.info.key {
          case None =>
            keep := false;
          case Some(k) =>
            keep := k !in fileSet;
            fileSet := fileSet + {k};
        }
      }
      if keep {
        file := Some(e.info);
      }
      if e.DirEntry? && e.info.kind == Directory {
        work := e.children + work[1..];
      } else {
        work := work[1..];
      }
    }

    /** The next accepted file, or None once the walk is over. */
    method Next() returns (file: Option<Info>)
      modifies this
      ensures old(Remaining()) == Yielded(file) + Remaining()
      ensures file.None? ==> work == []
    {
      file := None;
      while work != [] && file.None?
        invariant old(Remaining()) == Yielded(file) + Remaining()
        decreases ForestSize(work)
      {
        PullShrinks(work, allowDups, dirSet, fileSet);
        file := Advance();
      }
    }
  }

  // ---------------------------------------------------------------------
  // Reference: every regular file reachable through directories, in pre-order.

  function FilesOf(e: Entry): seq<Info> {
    match e
    case Unreadable => []
    case DirEntry(info, children) =>
      (if IsRegularFile(info) then [info] else []) +
      (if info.kind == Directory then FilesIn(children) else [])
  }

  function FilesIn(es: seq<Entry>): seq<Info>
    decreases es
  {
    if es == [] then [] else FilesOf(es[0]) + FilesIn(es[1..])
  }

  lemma {:induction false} FilesInConcat(a: seq<Entry>, b: seq<Entry>)
    ensures FilesIn(a + b) == FilesIn(a) + FilesIn(b)
    decreases |a|
  {
    if a != [] {
      assert (a + b)[0] == a[0];
      assert (a + b)[1..] == a[1..] + b;
      FilesInConcat(a[1..], b);
    } else {
      assert a + b == b;
    }
  }

  /** The keys of a sequence of files. */
  function KeysOf(files: seq<Info>): set<Key>
    decreases files
  {
    if files == [] then {}
    else (if files[0].key.Some? then {files[0].key.value} else {}) + KeysOf(files[1..])
  }

  /** `a` is `b` with some elements left out, order kept. */
  predicate IsSubsequence<T(==)>(a: seq<T>, b: seq<T>)
    decreases |b|
  {
    a == [] || (b != [] && ((a[0] == b[0] && IsSubsequence(a[1..], b[1..])) || IsSubsequence(a, b[1..])))
  }

  lemma {:induction false} SubsequenceAppendLeft<T>(a: seq<T>, b: seq<T>, c: seq<T>)
    requires IsSubsequence(a, b)
    ensures IsSubsequence(a, c + b)
    decreases |c|
  {
    if c != [] && a != [] {
      assert (c + b)[1..] == c[1..] + b;
      SubsequenceAppendLeft(a, b, c[1..]);
      assert IsSubsequence(a, (c + b)[1..]);
    } else if c == [] {
      assert c + b == b;
    }
  }

  lemma SubsequenceCons<T>(x: T, a: seq<T>, b: seq<T>)
    requires IsSubsequence(a, b)
    ensures IsSubsequence([x] + a, [x] + b)
  {
    assert ([x] + a)[1..] == a;
    assert ([x] + b)[1..] == b;
  }

  // ---------------------------------------------------------------------
  // Properties of the walk.

  /**
   * With duplicates allowed, neither key set changes and the walk yields
   * every reachable regular file exactly once, in pre-order.
   */
  lemma {:induction false} WalkAllowingDuplicates(work: seq<Entry>, dirSet: set<Key>, fileSet: set<Key>)
    ensures Walk(work, true, dirSet, fileSet) == Walked(FilesIn(work), dirSet, fileSet)
    decreases ForestSize(work)
  {
    if work != [] {
      var p := Pull(work, true, dirSet, fileSet);
      PullAllowingDuplicates(work, dirSet, fileSet);
      PullShrinks(work, true, dirSet, fileSet);
      WalkAllowingDuplicates(p.next, dirSet, fileSet);
    }
  }

  /** With duplicates allowed, one pull yields exactly the reachable files of the entry itself and keeps the key sets. */
  lemma PullAllowingDuplicates(work: seq<Entry>, dirSet: set<Key>, fileSet: set<Key>)
    requires work != []
    ensures var p := Pull(work, true, dirSet, fileSet);
      p.dirSet == dirSet && p.fileSet == fileSet && FilesIn(work) == p.yielded + FilesIn(p.next)
  {
    var e := work[0];
    var p := Pull(work, true, dirSet, fileSet);
    var own := if e.DirEntry? && IsRegularFile(e.info) then [e.info] else [];
    assert p == Pulled(own, Descend(e) + work[1..], dirSet, fileSet);
    FilesInConcat(Descend(e), work[1..]);
    FilesOfDescend(e);
    assert FilesIn(work) == FilesOf(e) + FilesIn(work[1..]);
  }

  /** The reachable files under an entry, split into the entry itself and what the walk descends into. */
  lemma FilesOfDescend(e: Entry)
    ensures FilesOf(e) == (if e.DirEntry? && IsRegularFile(e.info) then [e.info] else []) + FilesIn(Descend(e))
  {
    if e.DirEntry? && e.info.kind != Directory {
      assert FilesIn([]) == [];
    }
  }

  /** The reachable files of a work list: what one pull yields, what it skips, then those of what is left. */
  lemma PullReachable(work: seq<Entry>, allowDups: bool, dirSet: set<Key>, fileSet: set<Key>) returns (skipped: seq<Info>)
    requires work != []
    ensures var p := Pull(work, allowDups, dirSet, fileSet);
      FilesIn(work) == p.yielded + skipped + FilesIn(p.next)
  {
    var e := work[0];
    var p := Pull(work, allowDups, dirSet, fileSet);
    assert FilesIn(work) == FilesOf(e) + FilesIn(work[1..]);
    var (pass, _) := EntryFilter(e, allowDups, dirSet);
    if !pass {
      skipped := FilesOf(e);
      assert p.yielded == [] && p.next == work[1..];
    } else {
      var (keep, _) := FileFilter(e, allowDups, fileSet);
      assert p.next == Descend(e) + work[1..];
      FilesInConcat(Descend(e), work[1..]);
      FilesOfDescend(e);
      var own := if e.DirEntry? && IsRegularFile(e.info) then [e.info] else [];
      assert FilesIn(work) == own + FilesIn(p.next);
      if keep {
        assert p.yielded == own;
        skipped := [];
      } else {
        assert p.yielded == [];
        skipped := own;
      }
    }
  }

  lemma {:induction false} SubsequencePrepend<T>(x: seq<T>, a: seq<T>, b: seq<T>)
    requires IsSubsequence(a, b)
    ensures IsSubsequence(x + a, x + b)
    decreases |x|
  {
    if x != [] {
      SubsequencePrepend(x[1..], a, b);
      assert (x + a)[1..] == x[1..] + a;
      assert (x + b)[1..] == x[1..] + b;
    } else {
      assert x + a == a && x + b == b;
    }
  }

  /** Keeping a common prefix and skipping a middle part preserves being a subsequence. */
  lemma SubsequenceSkipping<T>(prefix: seq<T>, a: seq<T>, skipped: seq<T>, b: seq<T>)
    requires IsSubsequence(a, b)
    ensures IsSubsequence(prefix + a, prefix + skipped + b)
  {
    SubsequenceAppendLeft(a, b, skipped);
    SubsequencePrepend(prefix, a, skipped + b);
    assert prefix + (skipped + b) == prefix + skipped + b;
  }

  /**
   * Whatever the starting sets, the walk yields only reachable regular
   * files, in the order a full pre-order traversal meets them: duplicate
   * suppression only ever leaves files out.
   */
  lemma {:induction false} WalkYieldsReachableFiles(work: seq<Entry>, allowDups: bool, dirSet: set<Key>, fileSet: set<Key>)
    ensures IsSubsequence(Walk(work, allowDups, dirSet, fileSet).files, FilesIn(work))
    decreases ForestSize(work)
  {
    if work != [] {
      var p := Pull(work, allowDups, dirSet, fileSet);
      PullShrinks(work, allowDups, dirSet, fileSet);
      WalkYieldsReachableFiles(p.next, allowDups, p.dirSet, p.fileSet);
      var rest := Walk(p.next, allowDups, p.dirSet, p.fileSet).files;
      assert Walk(work, allowDups, dirSet, fileSet).files == p.yielded + rest;
      var skipped := PullReachable(work, allowDups, dirSet, fileSet);
      SubsequenceSkipping(p.yielded, rest, skipped, FilesIn(p.next));
    }
  }

  /**
   * Only readable entries whose metadata could be read and says "regular
   * file" are ever yielded.
   */
  lemma {:induction false} WalkYieldsRegularFiles(work: seq<Entry>, allowDups: bool, dirSet: set<Key>, fileSet: set<Key>)
    ensures forall f :: f in Walk(work, allowDups, dirSet, fileSet).files ==> IsRegularFile(f)
    decreases ForestSize(work)
  {
    if work != [] {
      var p := Pull(work, allowDups, dirSet, fileSet);
      PullShrinks(work, allowDups, dirSet, fileSet);
      WalkYieldsRegularFiles(p.next, allowDups, p.dirSet, p.fileSet);
      PullYieldsEntry(work, allowDups, dirSet, fileSet);
      var rest := Walk(p.next, allowDups, p.dirSet, p.fileSet).files;
      assert Walk(work, allowDups, dirSet, fileSet).files == p.yielded + rest;
    }
  }

  /** A pull yields nothing, or the first entry itself, which is a readable regular file. */
  lemma PullYieldsEntry(work: seq<Entry>, allowDups: bool, dirSet: set<Key>, fileSet: set<Key>)
    requires work != []
    ensures var p := Pull(work, allowDups, dirSet, fileSet);
      p.yielded == [] || (work[0].DirEntry? && IsRegularFile(work[0].info) && p.yielded == [work[0].info])
  {
  }

  /**
   * Without duplicates, one pull yields at most one file; its key was new to
   * both sets and both now hold it. A pull that yields nothing leaves the
   * file set as it was. The directory set only grows.
   */
  lemma PullKeys(work: seq<Entry>, dirSet: set<Key>, fileSet: set<Key>)
    requires work != []
    ensures var p := Pull(work, false, dirSet, fileSet);
      dirSet <= p.dirSet &&
      (p.yielded == [] ==> p.fileSet == fileSet) &&
      (p.yielded != [] ==>
        |p.yielded| == 1 && p.yielded[0].key.Some? &&
        p.yielded[0].key.value !in dirSet && p.yielded[0].key.value !in fileSet &&
        p.dirSet == dirSet + {p.yielded[0].key.value} && p.fileSet == fileSet + {p.yielded[0].key.value})
  {
  }

  /** Every file has a key, and none of those keys is in either set. */
  predicate KeysFresh(files: seq<Info>, dirSet: set<Key>, fileSet: set<Key>) {
    forall i :: 0 <= i < |files| ==>
      files[i].key.Some? && files[i].key.value !in dirSet && files[i].key.value !in fileSet
  }

  /** No two files share a key. */
  predicate KeysDistinct(files: seq<Info>) {
    forall i, j :: 0 <= i < j < |files| ==> files[i].key != files[j].key
  }

  /** Putting a file whose key is new in front of files whose keys are new even counting it. */
  lemma KeysCons(x: Info, rest: seq<Info>, dirSet: set<Key>, fileSet: set<Key>)
    requires x.key.Some? && x.key.value !in dirSet && x.key.value !in fileSet
    requires KeysFresh(rest, dirSet + {x.key.value}, fileSet + {x.key.value}) && KeysDistinct(rest)
    ensures KeysFresh([x] + rest, dirSet, fileSet) && KeysDistinct([x] + rest)
    ensures KeysOf([x] + rest) == {x.key.value} + KeysOf(rest)
  {
    var w := [x] + rest;
    assert w[1..] == rest;
    forall i | 0 <= i < |w|
      ensures w[i].key.Some? && w[i].key.value !in dirSet && w[i].key.value !in fileSet
    {
      if i > 0 { assert w[i] == rest[i - 1]; }
    }
    forall i, j | 0 <= i < j < |w| ensures w[i].key != w[j].key {
      assert w[j] == rest[j - 1];
      if i > 0 { assert w[i] == rest[i - 1]; }
    }
  }

  /**
   * Without duplicates, every accepted file has a key that was new to both
   * starting sets, no two accepted files share a key, and the file set ends
   * up holding exactly the starting keys and the accepted files' keys.
   */
  lemma {:induction false} WalkKeysDistinct(work: seq<Entry>, dirSet: set<Key>, fileSet: set<Key>)
    ensures var w := Walk(work, false, dirSet, fileSet);
      KeysFresh(w.files, dirSet, fileSet) && KeysDistinct(w.files) &&
      w.fileSet == fileSet + KeysOf(w.files) && dirSet <= w.dirSet
    decreases ForestSize(work)
  {
    if work != [] {
      var p := Pull(work, false, dirSet, fileSet);
      PullKeys(work, dirSet, fileSet);
      PullShrinks(work, false, dirSet, fileSet);
      WalkKeysDistinct(p.next, p.dirSet, p.fileSet);
      var rest := Walk(p.next, false, p.dirSet, p.fileSet);
      if p.yielded != [] {
        KeysCons(p.yielded[0], rest.files, dirSet, fileSet);
        assert p.yielded == [p.yielded[0]];
      } else {
        assert p.yielded + rest.files == rest.files;
      }
    }
  }

  /**
   * The file set never holds a key the directory set lacks; so, when both
   * start empty, the file filter's own duplicate test never rejects a file
   * the entry filter let through.
   */
  lemma {:induction false} FileSetWithinDirSet(work: seq<Entry>, allowDups: bool, dirSet: set<Key>, fileSet: set<Key>)
    requires fileSet <= dirSet
    ensures Walk(work, allowDups, dirSet, fileSet).fileSet <= Walk(work, allowDups, dirSet, fileSet).dirSet
    decreases ForestSize(work)
  {
    if work != [] {
      var p := Pull(work, allowDups, dirSet, fileSet);
      PullShrinks(work, allowDups, dirSet, fileSet);
      FileSetWithinDirSet(p.next, allowDups, p.dirSet, p.fileSet);
    }
  }

  // ---------------------------------------------------------------------
  // Completeness: without shared keys, deduplication leaves nothing out.

  /** The key of a readable entry, if it has one, as a sequence. */
  function OwnKey(e: Entry): seq<Key> {
    if e.DirEntry? && e.info.key.Some? then [e.info.key.value] else []
  }

  /** The keys of every readable entry reachable through directories, in pre-order. */
  function NodeKeysOf(e: Entry): seq<Key> {
    match e
    case Unreadable => []
    case DirEntry(info, children) =>
      OwnKey(e) + (if info.kind == Directory then NodeKeysIn(children) else [])
  }

  function NodeKeysIn(es: seq<Entry>): seq<Key>
    decreases es
  {
    if es == [] then [] else NodeKeysOf(es[0]) + NodeKeysIn(es[1..])
  }

  lemma {:induction false} NodeKeysInConcat(a: seq<Entry>, b: seq<Entry>)
    ensures NodeKeysIn(a + b) == NodeKeysIn(a) + NodeKeysIn(b)
    decreases |a|
  {
    if a != [] {
      assert (a + b)[0] == a[0];
      assert (a + b)[1..] == a[1..] + b;
      NodeKeysInConcat(a[1..], b);
    } else {
      assert a + b == b;
    }
  }

  /** Pairwise distinct keys, none of them in `seen`. */
  predicate DistinctUnseen(ks: seq<Key>, seen: set<Key>) {
    (forall i :: 0 <= i < |ks| ==> ks[i] !in seen) &&
    (forall i, j :: 0 <= i < j < |ks| ==> ks[i] != ks[j])
  }

  /**
   * No two reachable entries share a key, none is already recorded, the file
   * set lies within the directory set, and every reachable regular file has
   * a key: a tree with no hard links, no link to an entry of its own, and
   * no identity failures.
   */
  predicate Unshared(work: seq<Entry>, dirSet: set<Key>, fileSet: set<Key>) {
    fileSet <= dirSet &&
    DistinctUnseen(NodeKeysIn(work), dirSet) &&
    forall f :: f in FilesIn(work) ==> f.key.Some?
  }

  /** Recording the leading keys keeps the rest distinct and unseen. */
  lemma DistinctUnseenSplit(own: seq<Key>, rest: seq<Key>, seen: set<Key>)
    requires DistinctUnseen(own + rest, seen)
    ensures DistinctUnseen(rest, seen + set k | k in own)
  {
    var ks := own + rest;
    forall i | 0 <= i < |rest| ensures rest[i] !in seen + set k | k in own {
      assert rest[i] == ks[|own| + i];
      forall j | 0 <= j < |own| ensures own[j] != rest[i] {
        assert own[j] == ks[j];
      }
    }
    forall i, j | 0 <= i < j < |rest| ensures rest[i] != rest[j] {
      assert rest[i] == ks[|own| + i] && rest[j] == ks[|own| + j];
    }
  }

  /** The keys under an entry, split into its own and those of what the walk descends into. */
  lemma NodeKeysOfDescend(e: Entry)
    ensures NodeKeysOf(e) == OwnKey(e) + NodeKeysIn(Descend(e))
  {
    if e.DirEntry? && e.info.kind != Directory {
      assert NodeKeysIn([]) == [];
    }
  }

  /**
   * Without duplicates, an entry whose key (if any) is new passes the entry
   * filter and is descended into; a regular file with a key is kept; and
   * the file set stays within the directory set.
   */
  lemma PullNewEntry(work: seq<Entry>, dirSet: set<Key>, fileSet: set<Key>)
    requires work != [] && fileSet <= dirSet
    requires OwnKey(work[0]) == [] || OwnKey(work[0])[0] !in dirSet
    requires work[0].DirEntry? && IsRegularFile(work[0].info) ==> work[0].info.key.Some?
    ensures var e := work[0];
      var p := Pull(work, false, dirSet, fileSet);
      p.next == Descend(e) + work[1..] &&
      p.yielded == (if e.DirEntry? && IsRegularFile(e.info) then [e.info] else []) &&
      p.dirSet == dirSet + (set k | k in OwnKey(e)) && p.fileSet <= p.dirSet
  {
    var e := work[0];
    if e.Unreadable? {
      assert Descend(e) + work[1..] == work[1..];
      assert (set k | k in OwnKey(e)) == {};
    } else if e.info.key.Some? {
      assert (set k | k in OwnKey(e)) == {e.info.key.value};
    } else {
      assert (set k | k in OwnKey(e)) == {};
    }
  }

  /**
   * Without duplicates, one pull from an unshared work list loses no file:
   * what it yields and what is reachable from what is left make up every
   * reachable file, and what is left is unshared for the new sets.
   */
  lemma PullFindsEveryFile(work: seq<Entry>, dirSet: set<Key>, fileSet: set<Key>)
    requires work != [] && Unshared(work, dirSet, fileSet)
    ensures var p := Pull(work, false, dirSet, fileSet);
      FilesIn(work) == p.yielded + FilesIn(p.next) && Unshared(p.next, p.dirSet, p.fileSet)
  {
    var e := work[0];
    var p := Pull(work, false, dirSet, fileSet);
    var next := Descend(e) + work[1..];
    var own := if e.DirEntry? && IsRegularFile(e.info) then [e.info] else [];
    ReachableSplit(work);
    forall f | f in FilesIn(next) ensures f.key.Some? {
      assert f in FilesIn(work);
    }
    if OwnKey(e) != [] {
      assert OwnKey(e)[0] == NodeKeysIn(work)[0];
    }
    if own != [] {
      assert e.info in FilesIn(work);
    }
    PullNewEntry(work, dirSet, fileSet);
    DistinctUnseenSplit(OwnKey(e), NodeKeysIn(next), dirSet);
  }

  /** The reachable files and keys of a work list: the first entry's own, then those of what the walk goes on with. */
  lemma ReachableSplit(work: seq<Entry>)
    requires work != []
    ensures var e := work[0];
      var next := Descend(e) + work[1..];
      FilesIn(work) == (if e.DirEntry? && IsRegularFile(e.info) then [e.info] else []) + FilesIn(next) &&
      NodeKeysIn(work) == OwnKey(e) + NodeKeysIn(next)
  {
    FilesSplit(work);
    NodeKeysSplit(work);
  }

  lemma FilesSplit(work: seq<Entry>)
    requires work != []
    ensures FilesIn(work) == (if work[0].DirEntry? && IsRegularFile(work[0].info) then [work[0].info] else []) + FilesIn(Descend(work[0]) + work[1..])
  {
    var e, rest := work[0], work[1..];
    FilesInConcat(Descend(e), rest);
    FilesOfDescend(e);
    Regroup(FilesIn(work), FilesOf(e), if e.DirEntry? && IsRegularFile(e.info) then [e.info] else [],
      FilesIn(Descend(e)), FilesIn(rest), FilesIn(Descend(e) + rest));
  }

  lemma NodeKeysSplit(work: seq<Entry>)
    requires work != []
    ensures NodeKeysIn(work) == OwnKey(work[0]) + NodeKeysIn(Descend(work[0]) + work[1..])
  {
    var e, rest := work[0], work[1..];
    NodeKeysInConcat(Descend(e), rest);
    NodeKeysOfDescend(e);
    Regroup(NodeKeysIn(work), NodeKeysOf(e), OwnKey(e), NodeKeysIn(Descend(e)), NodeKeysIn(rest), NodeKeysIn(Descend(e) + rest));
  }

  /** Splitting the head of a concatenation in two. */
  lemma Regroup<T>(whole: seq<T>, head: seq<T>, own: seq<T>, below: seq<T>, after: seq<T>, joined: seq<T>)
    requires whole == head + after && head == own + below && joined == below + after
    ensures whole == own + joined
  {
  }

  /**
   * Without duplicates, a work list whose reachable entries share no key
   * (and none of them already recorded), and whose reachable files all have
   * keys, yields every reachable regular file, in pre-order, exactly as
   * with duplicates allowed.
   */
  lemma {:induction false} WalkFindsEveryFile(work: seq<Entry>, dirSet: set<Key>, fileSet: set<Key>)
    requires Unshared(work, dirSet, fileSet)
    ensures Walk(work, false, dirSet, fileSet).files == FilesIn(work)
    decreases ForestSize(work)
  {
    if work != [] {
      var p := Pull(work, false, dirSet, fileSet);
      PullFindsEveryFile(work, dirSet, fileSet);
      PullShrinks(work, false, dirSet, fileSet);
      WalkFindsEveryFile(p.next, p.dirSet, p.fileSet);
    }
  }

  /**
   * Without duplicates, an entry whose key is already in the directory set
   * is skipped together with everything under it, and the sets are as if
   * it had not been there.
   */
  lemma SeenEntrySkipped(e: Entry, rest: seq<Entry>, dirSet: set<Key>, fileSet: set<Key>)
    requires e.DirEntry? && e.info.key.Some? && e.info.key.value in dirSet
    ensures Walk([e] + rest, false, dirSet, fileSet) == Walk(rest, false, dirSet, fileSet)
  {
    assert ([e] + rest)[0] == e;
    assert ([e] + rest)[1..] == rest;
    assert dirSet + {e.info.key.value} == dirSet;
  }

  /**
   * Without duplicates, an entry with no key is never rejected by the entry
   * filter and adds nothing to the directory set; a directory without a key
   * is therefore always descended into.
   */
  lemma KeylessDirectoryDescended(e: Entry, rest: seq<Entry>, dirSet: set<Key>, fileSet: set<Key>)
    requires e.DirEntry? && e.info.key.None? && e.info.kind == Directory
    ensures Walk([e] + rest, false, dirSet, fileSet) == Walk(e.children + rest, false, dirSet, fileSet)
  {
    assert ([e] + rest)[0] == e;
    assert ([e] + rest)[1..] == rest;
  }

  /** An unreadable item yields nothing, changes no set, and the walk goes on with the next item. */
  lemma UnreadableSkipped(rest: seq<Entry>, allowDups: bool, dirSet: set<Key>, fileSet: set<Key>)
    ensures Walk([Unreadable] + rest, allowDups, dirSet, fileSet) == Walk(rest, allowDups, dirSet, fileSet)
  {
    assert ([Unreadable] + rest)[0] == Unreadable;
    assert ([Unreadable] + rest)[1..] == rest;
    assert [] + rest == rest;
  }
}
