/**
 * The per-root loop of the disk-usage reporter: each root is walked with
 * fresh key sets, the lengths of the accepted files are summed, and either
 * one line per file or one summary line per root is printed.
 */
module Report {
  import opened Decimal
  import opened Labels
  import opened Walker

  /** The resolved command-line switches that affect what is printed. */
  datatype Options = Options(
    allowDups: bool,   // -d: count every instance of a file or directory
    flamegraph: bool,  // -f: list files as folded stacks
    fullName: bool,    // -F: never trim the root from listed paths
    list: bool,        // -l: list each file
    sizeFirst: bool)   // -r: the swapped field order

  /** Flamegraph output implies listing. */
  predicate ListFiles(opts: Options) {
    opts.flamegraph || opts.list
  }

  /**
   * The line for one listed file. A flamegraph line is the folded label and
   * the length; a size-first line is the label and the length; a default
   * line is the length and the label.
   */
  function FileLine(opts: Options, oneRoot: bool, root: string, file: Info): string {
    var st := Label(oneRoot, opts.fullName, root, file.path);
    if opts.flamegraph then Fold(st) + " " + Digits(file.len)
    else if opts.sizeFirst then st + " " + Digits(file.len)
    else Digits(file.len) + " " + st
  }

  /**
   * The summary line of a root. Its field order is the reverse of a file
   * line's: size-first gives the total and the root, the default the root
   * and the total.
   */
  function SummaryLine(opts: Options, root: string, total: nat): string {
    if opts.sizeFirst then Digits(total) + " " + root else root + " " + Digits(total)
  }

  function FileLines(opts: Options, oneRoot: bool, root: string, files: seq<Info>): seq<string>
    decreases |files|
  {
    if files == [] then []
    else FileLines(opts, oneRoot, root, files[..|files| - 1]) + [FileLine(opts, oneRoot, root, files[|files| - 1])]
  }

  /** The sum of the lengths of some files. */
  function TotalLength(files: seq<Info>): nat
    decreases files
  {
    if files == [] then 0 else files[0].len + TotalLength(files[1..])
  }

  lemma {:induction false} TotalLengthConcat(a: seq<Info>, b: seq<Info>)
    ensures TotalLength(a + b) == TotalLength(a) + TotalLength(b)
    decreases |a|
  {
    if a == [] {
      assert a + b == b;
    } else {
      assert (a + b)[0] == a[0];
      assert (a + b)[1..] == a[1..] + b;
      TotalLengthConcat(a[1..], b);
    }
  }

  /** What one root prints: a line per accepted file, or its summary line. */
  function RootLines(opts: Options, oneRoot: bool, root: string, tree: Entry): seq<string> {
    Printed(opts, oneRoot, root, Accepted(opts.allowDups, tree))
  }

  /** The tree found at a root path; a path that cannot be opened makes the walk yield one error. */
  function RootTree(fs: map<string, Entry>, root: string): Entry {
    if root in fs then fs[root] else Unreadable
  }

  /** The roots to walk: the given paths, or "." when none is given. */
  function Roots(args: seq<string>): seq<string> {
    if args == [] then ["."] else args
  }

  /** The parts one after the other. */
  function Join(parts: seq<seq<string>>): seq<string>
    decreases |parts|
  {
    if parts == [] then [] else Join(parts[..|parts| - 1]) + parts[|parts| - 1]
  }

  lemma {:induction false} JoinConcat(a: seq<seq<string>>, b: seq<seq<string>>)
    ensures Join(a + b) == Join(a) + Join(b)
    decreases |b|
  {
    if b == [] {
      assert a + b == a;
    } else {
      var b' := b[..|b| - 1];
      assert (a + b)[..|a + b| - 1] == a + b';
      JoinConcat(a, b');
    }
  }

  /** `f` applied to each element of `s`. */
  function Map<A, B>(f: A -> B, s: seq<A>): seq<B> {
    seq(|s|, i requires 0 <= i < |s| => f(s[i]))
  }

  lemma MapConcat<A, B>(f: A -> B, a: seq<A>, b: seq<A>)
    ensures Map(f, a + b) == Map(f, a) + Map(f, b)
  {
    forall i | 0 <= i < |a| + |b|
      ensures Map(f, a + b)[i] == (Map(f, a) + Map(f, b))[i]
    {
      if i < |a| {
        assert (a + b)[i] == a[i];
      } else {
        assert (a + b)[i] == b[i - |a|];
      }
    }
  }

  /** What each root prints, as a function of the root. */
  function PerRoot(opts: Options, oneRoot: bool, fs: map<string, Entry>): string -> seq<string> {
    root => RootLines(opts, oneRoot, root, RootTree(fs, root))
  }

  /** The lines printed for some roots, in order, each root walked on its own. */
  function RunLines(opts: Options, oneRoot: bool, roots: seq<string>, fs: map<string, Entry>): seq<string> {
    Join(Map(PerRoot(opts, oneRoot, fs), roots))
  }

  /** Everything the program prints for the given root arguments. */
  function Output(opts: Options, args: seq<string>, fs: map<string, Entry>): seq<string> {
    var roots := Roots(args);
    RunLines(opts, |roots| == 1, roots, fs)
  }

  // ---------------------------------------------------------------------
  // Reading printed lines back: the field order each option selects.

  /** The two fields of a printed line: a label (path or root) and a byte count. */
  datatype Fields = Fields(name: string, size: nat)

  /** The text before the first space and the text after it (all of `s` and nothing when there is none). */
  function SplitAtFirstSpace(s: string): (string, string)
    decreases |s|
  {
    if s == [] then ([], [])
    else if s[0] == ' ' then ([], s[1..])
    else
      var (before, after) := SplitAtFirstSpace(s[1..]);
      ([s[0]] + before, after)
  }

  /** The text before the last space and the text after it (nothing and all of `s` when there is none). */
  function SplitAtLastSpace(s: string): (string, string)
    decreases |s|
  {
    if s == [] then ([], [])
    else if s[|s| - 1] == ' ' then (s[..|s| - 1], [])
    else
      var (before, after) := SplitAtLastSpace(s[..|s| - 1]);
      (before, after + [s[|s| - 1]])
  }

  lemma {:induction false} SplitAtFirstSpaceJoin(a: string, b: string)
    requires ' ' !in a
    ensures SplitAtFirstSpace(a + " " + b) == (a, b)
    decreases |a|
  {
    if a == [] {
      assert a + " " + b == [' '] + b;
    } else {
      assert (a + " " + b)[1..] == a[1..] + " " + b;
      SplitAtFirstSpaceJoin(a[1..], b);
      assert [a[0]] + a[1..] == a;
    }
  }

  lemma {:induction false} SplitAtLastSpaceJoin(a: string, b: string)
    requires ' ' !in b
    ensures SplitAtLastSpace(a + " " + b) == (a, b)
    decreases |b|
  {
    var s := a + " " + b;
    if b == [] {
      assert s[..|s| - 1] == a;
    } else {
      var b' := b[..|b| - 1];
      assert s[..|s| - 1] == a + " " + b';
      SplitAtLastSpaceJoin(a, b');
      assert b' + [b[|b| - 1]] == b;
    }
  }

  /** Reads a file line back, knowing the field order the options select. */
  function ReadFileLine(opts: Options, line: string): Fields {
    if opts.flamegraph || opts.sizeFirst then
      var (name, digits) := SplitAtLastSpace(line);
      Fields(name, Value(digits))
    else
      var (digits, name) := SplitAtFirstSpace(line);
      Fields(name, Value(digits))
  }

  /** Reads a summary line back, knowing the field order the options select. */
  function ReadSummaryLine(opts: Options, line: string): Fields {
    if opts.sizeFirst then
      var (digits, name) := SplitAtFirstSpace(line);
      Fields(name, Value(digits))
    else
      var (name, digits) := SplitAtLastSpace(line);
      Fields(name, Value(digits))
  }

  /** The label a file line shows: the (possibly trimmed) path, folded for a flamegraph. */
  function ShownLabel(opts: Options, oneRoot: bool, root: string, path: string): string {
    var st := Label(oneRoot, opts.fullName, root, path);
    if opts.flamegraph then Fold(st) else st
  }

  /** A file line holds exactly the shown label and the file's length, in the order the options select. */
  lemma FileLineFields(opts: Options, oneRoot: bool, root: string, file: Info)
    ensures ReadFileLine(opts, FileLine(opts, oneRoot, root, file)) == Fields(ShownLabel(opts, oneRoot, root, file.path), file.len)
  {
    var st := Label(oneRoot, opts.fullName, root, file.path);
    DigitsHaveNoSpace(file.len);
    ValueOfDigits(file.len);
    if opts.flamegraph {
      SplitAtLastSpaceJoin(Fold(st), Digits(file.len));
    } else if opts.sizeFirst {
      SplitAtLastSpaceJoin(st, Digits(file.len));
    } else {
      SplitAtFirstSpaceJoin(Digits(file.len), st);
    }
  }

  /** A summary line holds exactly the root and its total, in the order the options select. */
  lemma SummaryLineFields(opts: Options, root: string, total: nat)
    ensures ReadSummaryLine(opts, SummaryLine(opts, root, total)) == Fields(root, total)
  {
    DigitsHaveNoSpace(total);
    ValueOfDigits(total);
    if opts.sizeFirst {
      SplitAtFirstSpaceJoin(Digits(total), root);
    } else {
      SplitAtLastSpaceJoin(root, Digits(total));
    }
  }

  /** The label of a flamegraph line holds no path separator and does not start with ';'. */
  lemma FlamegraphLineLabel(opts: Options, oneRoot: bool, root: string, file: Info)
    requires opts.flamegraph
    ensures var name := ReadFileLine(opts, FileLine(opts, oneRoot, root, file)).name;
      (forall i :: 0 <= i < |name| ==> !IsSeparator(name[i])) && (name == [] || name[0] != ';')
  {
    FileLineFields(opts, oneRoot, root, file);
    FoldShape(Label(oneRoot, opts.fullName, root, file.path));
  }

  // ---------------------------------------------------------------------
  // What a root prints.

  lemma {:induction false} FileLinesAt(opts: Options, oneRoot: bool, root: string, files: seq<Info>)
    ensures |FileLines(opts, oneRoot, root, files)| == |files|
    ensures forall i :: 0 <= i < |files| ==> FileLines(opts, oneRoot, root, files)[i] == FileLine(opts, oneRoot, root, files[i])
    decreases |files|
  {
    if files != [] {
      FileLinesAt(opts, oneRoot, root, files[..|files| - 1]);
    }
  }

  /**
   * When listing, a root prints one line per accepted file, in walk order,
   * each giving that file's shown label and length, and no summary line;
   * otherwise it prints exactly one line, giving the root and the sum of
   * the accepted lengths.
   */
  lemma RootLinesShape(opts: Options, oneRoot: bool, root: string, tree: Entry)
    ensures var files := Accepted(opts.allowDups, tree);
      var lines := RootLines(opts, oneRoot, root, tree);
      (ListFiles(opts) ==>
        |lines| == |files| &&
        forall i :: 0 <= i < |files| ==>
          ReadFileLine(opts, lines[i]) == Fields(ShownLabel(opts, oneRoot, root, files[i].path), files[i].len)) &&
      (!ListFiles(opts) ==>
        |lines| == 1 && ReadSummaryLine(opts, lines[0]) == Fields(root, TotalLength(files)))
  {
    var files := Accepted(opts.allowDups, tree);
    if ListFiles(opts) {
      FileLinesAt(opts, oneRoot, root, files);
      forall i | 0 <= i < |files|
        ensures ReadFileLine(opts, FileLine(opts, oneRoot, root, files[i]))
          == Fields(ShownLabel(opts, oneRoot, root, files[i].path), files[i].len)
      {
        FileLineFields(opts, oneRoot, root, files[i]);
      }
    } else {
      SummaryLineFields(opts, root, TotalLength(files));
    }
  }

  /** The sum of the sizes read back from some file lines. */
  function ListedSize(opts: Options, lines: seq<string>): nat
    decreases |lines|
  {
    if lines == [] then 0
    else ListedSize(opts, lines[..|lines| - 1]) + ReadFileLine(opts, lines[|lines| - 1]).size
  }

  /** The sizes on the listed lines add up to the total of the listed files. */
  lemma {:induction false} ListedSizesAddUp(opts: Options, oneRoot: bool, root: string, files: seq<Info>)
    ensures ListedSize(opts, FileLines(opts, oneRoot, root, files)) == TotalLength(files)
    decreases |files|
  {
    if files != [] {
      var n := |files|;
      var init, last := files[..n - 1], files[n - 1];
      var lines := FileLines(opts, oneRoot, root, files);
      var initLines := FileLines(opts, oneRoot, root, init);
      var line := FileLine(opts, oneRoot, root, last);
      assert lines == initLines + [line];
      assert lines[..|lines| - 1] == initLines;
      assert ListedSize(opts, lines) == ListedSize(opts, initLines) + ReadFileLine(opts, line).size;
      ListedSizesAddUp(opts, oneRoot, root, init);
      FileLineFields(opts, oneRoot, root, last);
      assert files == init + [last];
      TotalLengthConcat(init, [last]);
      assert TotalLength([last]) == last.len;
    }
  }

  lemma {:induction false} SubsequenceTotal(a: seq<Info>, b: seq<Info>)
    requires IsSubsequence(a, b)
    ensures TotalLength(a) <= TotalLength(b)
    decreases |b|
  {
    if a != [] {
      if a[0] == b[0] && IsSubsequence(a[1..], b[1..]) {
        SubsequenceTotal(a[1..], b[1..]);
      } else {
        SubsequenceTotal(a, b[1..]);
      }
    }
  }

  /**
   * With duplicates allowed a root's total is the sum of the lengths of
   * every reachable regular file; without, it is never more than that, and
   * it is exactly that when no two entries of the tree share a key and
   * every regular file has one.
   */
  lemma DuplicatesAndTotal(tree: Entry)
    ensures TotalLength(Accepted(true, tree)) == TotalLength(FilesOf(tree))
    ensures TotalLength(Accepted(false, tree)) <= TotalLength(Accepted(true, tree))
    ensures Unshared([tree], {}, {}) ==>
      Accepted(false, tree) == Accepted(true, tree) &&
      TotalLength(Accepted(false, tree)) == TotalLength(Accepted(true, tree))
  {
    WalkAllowingDuplicates([tree], {}, {});
    assert FilesIn([tree]) == FilesOf(tree) + FilesIn([]);
    assert FilesOf(tree) + [] == FilesOf(tree);
    WalkYieldsReachableFiles([tree], false, {}, {});
    SubsequenceTotal(Accepted(false, tree), FilesOf(tree));
    if Unshared([tree], {}, {}) {
      WalkFindsEveryFile([tree], {}, {});
    }
  }

  /** A root under which no regular file is reachable lists nothing, or has a total of 0. */
  lemma NoFilesNoLines(opts: Options, oneRoot: bool, root: string, tree: Entry)
    requires FilesOf(tree) == []
    ensures RootLines(opts, oneRoot, root, tree) == if ListFiles(opts) then [] else [SummaryLine(opts, root, 0)]
  {
    WalkYieldsReachableFiles([tree], opts.allowDups, {}, {});
    assert FilesIn([tree]) == FilesOf(tree) + FilesIn([]);
    assert Accepted(opts.allowDups, tree) == [];
  }

  // ---------------------------------------------------------------------
  // The run over all roots.

  /** Without root arguments the one root "." is walked (and trimmed, being the only root). */
  lemma DefaultRoot(opts: Options, fs: map<string, Entry>)
    ensures Output(opts, [], fs) == RootLines(opts, true, ".", RootTree(fs, "."))
  {
    RunLinesOne(opts, true, ".", fs);
  }

  /** A single root prints exactly its own lines. */
  lemma RunLinesOne(opts: Options, oneRoot: bool, root: string, fs: map<string, Entry>)
    ensures RunLines(opts, oneRoot, [root], fs) == RootLines(opts, oneRoot, root, RootTree(fs, root))
  {
    var lines := RootLines(opts, oneRoot, root, RootTree(fs, root));
    assert Map(PerRoot(opts, oneRoot, fs), [root]) == [lines];
    assert Join([lines]) == [] + lines;
  }

  /**
   * The lines of a list of roots are those of its parts, one after the
   * other: what a root prints does not depend on the roots before it.
   */
  lemma RunLinesConcat(opts: Options, oneRoot: bool, a: seq<string>, b: seq<string>, fs: map<string, Entry>)
    ensures RunLines(opts, oneRoot, a + b, fs) == RunLines(opts, oneRoot, a, fs) + RunLines(opts, oneRoot, b, fs)
  {
    var f := PerRoot(opts, oneRoot, fs);
    MapConcat(f, a, b);
    JoinConcat(Map(f, a), Map(f, b));
  }

  /** One more root adds its own lines at the end. */
  lemma RunLinesSnoc(opts: Options, oneRoot: bool, roots: seq<string>, i: nat, fs: map<string, Entry>)
    requires i < |roots|
    ensures RunLines(opts, oneRoot, roots[..i + 1], fs)
      == RunLines(opts, oneRoot, roots[..i], fs) + RootLines(opts, oneRoot, roots[i], RootTree(fs, roots[i]))
  {
    assert roots[..i + 1] == roots[..i] + [roots[i]];
    RunLinesConcat(opts, oneRoot, roots[..i], [roots[i]], fs);
    RunLinesOne(opts, oneRoot, roots[i], fs);
  }

  /** One more file adds its length to the total and its line at the end. */
  lemma Appended(opts: Options, oneRoot: bool, root: string, files: seq<Info>, file: Info)
    ensures TotalLength(files + [file]) == TotalLength(files) + file.len
    ensures FileLines(opts, oneRoot, root, files + [file]) == FileLines(opts, oneRoot, root, files) + [FileLine(opts, oneRoot, root, file)]
  {
    TotalLengthConcat(files, [file]);
    assert (files + [file])[..|files|] == files;
  }

  /** What a root prints for the files its walk accepts. */
  function Printed(opts: Options, oneRoot: bool, root: string, files: seq<Info>): seq<string> {
    if ListFiles(opts) then FileLines(opts, oneRoot, root, files)
    else [SummaryLine(opts, root, TotalLength(files))]
  }

  /**
   * Drains a walk, pulling one file at a time: sums the lengths and prints
   * a line per file when listing, or the summary line at the end otherwise.
   */
  method Tally(opts: Options, oneRoot: bool, root: string, walk: FileWalk) returns (total: nat, lines: seq<string>)
    modifies walk
    ensures total == TotalLength(old(walk.Remaining()))
    ensures lines == Printed(opts, oneRoot, root, old(walk.Remaining()))
  {
    var listFiles := ListFiles(opts);
    ghost var emitted: seq<Info> := [];
    total := 0;
    lines := [];
    while true
      invariant emitted + walk.Remaining() == old(walk.Remaining())
      invariant total == TotalLength(emitted)
      invariant lines == if listFiles then FileLines(opts, oneRoot, root, emitted) else []
      decreases |walk.Remaining()|
    {
      var next := walk.Next();
      if next.None? {
        break;
      }
      var file := next.value;
      Appended(opts, oneRoot, root, emitted, file);
      total := total + file.len;
      if listFiles {
        lines := lines + [FileLine(opts, oneRoot, root, file)];
      }
      emitted := emitted + [file];
    }
    assert emitted == old(walk.Remaining());
    if !listFiles {
      lines := [SummaryLine(opts, root, total)];
    }
  }

  /** Walks one root with fresh key sets and reports on what the walk accepts. */
  method ScanRoot(opts: Options, oneRoot: bool, root: string, tree: Entry) returns (total: nat, lines: seq<string>)
    ensures total == TotalLength(Accepted(opts.allowDups, tree))
    ensures lines == RootLines(opts, oneRoot, root, tree)
  {
    var walk := new FileWalk(tree, opts.allowDups);
    total, lines := Tally(opts, oneRoot, root, walk);
  }

  /**
   * Runs every root in turn ("." when none is given); the root is trimmed
   * from listed paths only when it is the only one.
   */
  method Run(opts: Options, args: seq<string>, fs: map<string, Entry>) returns (out: seq<string>)
    ensures out == Output(opts, args, fs)
  {
    var roots := args;
    if roots == [] {
      roots := ["."];
    }
    var oneRoot := |roots| == 1;
    out := [];
    for i := 0 to |roots|
      invariant out == RunLines(opts, oneRoot, roots[..i], fs)
    {
      var _, lines := ScanRoot(opts, oneRoot, roots[i], RootTree(fs, roots[i]));
      RunLinesSnoc(opts, oneRoot, roots, i, fs);
      out := out + lines;
    }
    assert roots[..|roots|] == roots;
  }
}
