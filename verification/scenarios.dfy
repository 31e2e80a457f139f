/**
 * Concrete runs of the model: a single root "./data" holding "sub/x.txt" of
 * 10 bytes, a directory holding two hard links to one file, and a file
 * whose identity cannot be obtained.
 */
module Scenarios {
  import opened Decimal
  import opened Labels
  import opened Walker
  import opened Report

  function XText(): Info {
    Info("./data/sub/x.txt", RegularFile, true, 10, Some(3))
  }

  /** Under the single root "./data" the file shows as "/sub/x.txt". */
  lemma DataLabel()
    ensures Label(true, false, "./data", XText().path) == "/sub/x.txt"
  {
    assert "./data/sub/x.txt" == Repeat("./data", 1) + "/sub/x.txt";
    assert "/sub/x.txt"[0] != "./data"[0];
    TrimStartMatchesUnique("./data/sub/x.txt", "./data", 1, "/sub/x.txt");
  }

  /** Folded, the leading separator left by the trimmed root disappears. */
  lemma DataFolded()
    ensures Fold("/sub/x.txt") == "sub;x.txt"
  {
    assert ReplaceSeparators("/sub/x.txt") == ";sub;x.txt";
    assert ";sub;x.txt" == Repeat(";", 1) + "sub;x.txt";
    assert "sub;x.txt"[0] != ";"[0];
    TrimStartMatchesUnique(";sub;x.txt", ";", 1, "sub;x.txt");
  }

  /** By default a listed file shows its length first. */
  lemma DefaultFileLine()
    ensures FileLine(Options(false, false, false, true, false), true, "./data", XText()) == "10 /sub/x.txt"
  {
    DataLabel();
    assert Digits(10) == "10";
  }

  /** With -r the label comes first. */
  lemma SizeFirstFileLine()
    ensures FileLine(Options(false, false, false, true, true), true, "./data", XText()) == "/sub/x.txt 10"
  {
    DataLabel();
    assert Digits(10) == "10";
  }

  /** A flamegraph line is the folded label, then the length. */
  lemma FlamegraphFileLine()
    ensures FileLine(Options(false, true, false, false, false), true, "./data", XText()) == "sub;x.txt 10"
  {
    DataLabel();
    DataFolded();
    assert Digits(10) == "10";
  }

  /** With -F, or with more than one root, the whole path is shown. */
  lemma FullNameLines()
    ensures FileLine(Options(false, false, true, true, false), true, "./data", XText()) == "10 ./data/sub/x.txt"
    ensures FileLine(Options(false, false, false, true, false), false, "./data", XText()) == "10 ./data/sub/x.txt"
  {
    assert Digits(10) == "10";
  }

  /** Summary lines put the total after the root by default and before it when size-first. */
  lemma SummaryLines()
    ensures SummaryLine(Options(false, false, false, false, false), "./data", 10) == "./data 10"
    ensures SummaryLine(Options(false, false, false, false, true), "./data", 10) == "10 ./data"
  {
    assert Digits(10) == "10";
  }

  /**
   * The root is trimmed as many times as it repeats at the front of the
   * path: under the root "a/", the file "b" of its subdirectory "a" shows
   * as "b", not "a/b".
   */
  lemma RootTrimmedRepeatedly()
    ensures Label(true, false, "a/", "a/a/b") == "b"
  {
    assert "a/a/b" == Repeat("a/", 2) + "b";
    assert "b"[0] != "a/"[0];
    TrimStartMatchesUnique("a/a/b", "a/", 2, "b");
  }

  function LinkA(): Info {
    Info("d/a", RegularFile, true, 5, Some(2))
  }

  function LinkB(): Info {
    Info("d/b", RegularFile, true, 5, Some(2))
  }

  /** A directory holding two hard links to the same 5-byte file. */
  function HardLinks(): Entry {
    DirEntry(Info("d", Directory, true, 0, Some(1)), [DirEntry(LinkA(), []), DirEntry(LinkB(), [])])
  }

  /** Without -d the shared file is counted once; with -d, twice. */
  lemma HardLinkCountedOnce()
    ensures Accepted(false, HardLinks()) == [LinkA()]
    ensures Accepted(true, HardLinks()) == [LinkA(), LinkB()]
  {
    var a, b := DirEntry(LinkA(), []), DirEntry(LinkB(), []);
    var d := HardLinks();
    assert Walk([a, b], false, {1}, {}) == Walked([LinkA()] + Walk([b], false, {1, 2}, {2}).files, {1, 2}, {2});
    SeenEntrySkipped(b, [], {1, 2}, {2});
    assert [b] == [b] + [];
    assert [d][1..] == [] && Descend(d) + [] == [a, b];
    assert Pull([d], false, {}, {}) == Pulled([], [a, b], {1}, {});
    assert Walk([d], false, {}, {}).files == Walk([a, b], false, {1}, {}).files;
    WalkAllowingDuplicates([d], {}, {});
  }

  /** Without -d a regular file whose identity cannot be obtained is dropped; with -d it is counted. */
  lemma KeylessFile()
    ensures Accepted(false, DirEntry(Info("f", RegularFile, true, 7, None), [])) == []
    ensures Accepted(true, DirEntry(Info("f", RegularFile, true, 7, None), [])) == [Info("f", RegularFile, true, 7, None)]
  {
  }
  /** A symbolic link to a file: its identity is that of the file it points to. */
  function SymlinkInfo(): Info {
    Info("d/s", Other, true, 0, Some(2))
  }

  function TargetInfo(): Info {
    Info("d/f", RegularFile, true, 9, Some(2))
  }

  /** A directory listing a symbolic link before the regular file it points to. */
  function SymlinkFirst(): Entry {
    DirEntry(Info("d", Directory, true, 0, Some(1)), [DirEntry(SymlinkInfo(), []), DirEntry(TargetInfo(), [])])
  }

  /**
   * Without -d the link records the file's key first, so the file itself is
   * rejected by the entry filter and nothing is counted; with -d the file
   * is counted.
   */
  lemma SymlinkBeforeTarget()
    ensures Accepted(false, SymlinkFirst()) == []
    ensures Accepted(true, SymlinkFirst()) == [TargetInfo()]
  {
    var s, f := DirEntry(SymlinkInfo(), []), DirEntry(TargetInfo(), []);
    var d := SymlinkFirst();
    assert [d][1..] == [] && Descend(d) + [] == [s, f];
    assert Pull([d], false, {}, {}) == Pulled([], [s, f], {1}, {});
    assert Pull([s, f], false, {1}, {}) == Pulled([], [f], {1, 2}, {});
    assert [f] == [f] + [];
    SeenEntrySkipped(f, [], {1, 2}, {});
    assert Walk([d], false, {}, {}).files == Walk([s, f], false, {1}, {}).files;
    WalkAllowingDuplicates([d], {}, {});
  }
}
