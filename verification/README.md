# fdu: a verified model of the per-root scan

`fdu` is a small disk-usage reporter. For each root path it walks the tree
below the root and adds up the lengths of the regular files it finds. By
default it counts every physical file and directory at most once,
recognising them by their identity key (device and inode). A file can also
be left out altogether: a regular file whose key cannot be obtained is
dropped (`src/main.rs:129`), and a file whose key an earlier entry that is
not a regular file already recorded is rejected (`src/main.rs:118`). A
symbolic link listed before its target is such an entry, because the key
is taken through the link. When no two entries share a key and every file
has one, nothing is left out (`Walker.WalkFindsEveryFile`). The program
prints either one summary line per root or one line per file. The file
lines can also be folded into flamegraph stacks.

This project models the heart of `main` in `src/main.rs`: the loop over the
roots and everything that happens inside it.

- `decimal.dfy` (module `Decimal`) renders a byte count as a `u64` prints
  with `{}`, and reads it back.
- `labels.dfy` (module `Labels`) models two string operations:
  - `str::trim_start_matches`, which trims the root from the front of a
    listed path;
  - the separator-to-`;` fold used for flamegraph stacks.
- `walk.dfy` (module `Walker`) models the walk of one root:
  - the filesystem is an abstract entry tree; an entry is either unreadable,
    or carries a path, a file type, whether its metadata could be read, a
    length, an optional identity key and its children;
  - the entry filter records every obtainable key in the directory set, and
    rejects an entry (and its whole subtree) when its key was already there;
  - the file filter keeps readable regular files; when duplicates are not
    allowed, it needs the file's key and records it in the file set;
  - `Walk` is the specification: a pre-order worklist traversal that pulls
    one item at a time;
  - the class `FileWalk` is the iterator the program drives. It owns the two
    key sets, and `Advance` and `Next` update them in place.
- `report.dfy` (module `Report`) models what the program does with each root:
  - `Tally` drains a walk, accumulating the total and the listed lines;
  - `ScanRoot` walks one root with fresh key sets;
  - `Run` runs every root, with "." when none is given;
  - the file and summary lines are laid out field by field;
  - the readers `ReadFileLine` and `ReadSummaryLine` split a printed line
    back into its label and number. They state what each line holds.
- `scenarios.dfy` (module `Scenarios`) holds concrete cases: a root "./data"
  with a 10-byte file "sub/x.txt", two hard links to one file, a symbolic
  link listed before the file it points to, and a regular file whose key
  cannot be obtained.

The model follows the code as written, including these behaviours that are
easy to misread:

- **File-line field order.** With size-first a file line is `path length`, and
  by default it is `length path` (`src/main.rs:155-158`). For the "./data"
  example this gives "10 /sub/x.txt" by default and "/sub/x.txt 10" with
  size-first, not the other way round. Summary lines are the reverse of
  file lines (`src/main.rs:163-168`).
- **Root trimming.** The root is trimmed with `trim_start_matches`, which
  removes every leading copy, not only the first (`src/main.rs:149`). Under
  the root "a/", the file "b" of the subdirectory "a" is shown as "b".
- **Keyless files.** Without `-d`, a regular file whose key cannot be
  obtained is dropped: `?` is applied to the key at `src/main.rs:129`. It is
  not accepted. A directory or other entry without a key does pass the entry
  filter.
- **One shared directory set.** The entry filter records the keys of all
  entries, files included, in the directory set. So a file already seen
  through an earlier link is rejected by the entry filter itself. The file
  set starts empty along with the directory set, so it only ever holds keys
  that are also in the directory set (`Walker.FileSetWithinDirSet`). Its
  duplicate test therefore never rejects anything the entry filter let
  through. A symbolic link (or any entry that is not a regular file) listed
  before the file it points to also records that file's key. The file is
  then rejected, so without `-d` it is not counted at all
  (`Scenarios.SymlinkBeforeTarget`).
- **Errors skip the entry filter.** An item the walk cannot read (an error)
  passes through the entry filter without the predicate being consulted. The
  file filter then drops it.

## Model

| member | source | states |
|---|---|---|
| `Decimal.Digits` | src/main.rs:154-167 | a count is rendered as at least one ASCII digit, starting with '0' exactly when the count is 0, and as a single digit exactly when it is below 10 (so 0 is "0") |
| `Decimal.ValueOfDigits` | src/main.rs:154-167 | reading a rendered count back gives the count |
| `Decimal.DigitsHaveNoSpace` | src/main.rs:154-167 | a rendered count holds no space, so it is a single field of a line |
| `Labels.TrimStartMatches` | src/main.rs:149 | trimming leaves a suffix of the input, never a longer string |
| `Labels.TrimStartMatchesSplit` | src/main.rs:149 | the input is exactly the removed copies of the pattern followed by the trimmed result |
| `Labels.TrimStartMatchesRemovesCopies` | src/main.rs:149 | trimming removes only whole copies of the pattern; with a non-empty pattern, the result no longer starts with it |
| `Labels.TrimStartMatchesUnique` | src/main.rs:149 | any split into copies of a non-empty pattern plus a rest that does not start with it is the result of trimming |
| `Labels.FoldShape` | src/main.rs:153-154 | a folded path holds no '/' or '\\' and does not start with ';'; it is the separator-replaced path minus exactly its leading run of ';' |
| `Labels.LabelTrimsRoot` | src/main.rs:148-150 | with one root and no -F, the label is the path with every leading copy of the root removed, and it no longer starts with the root |
| `Walker.PullShrinks` | src/main.rs:112-133 | every pull leaves strictly less of the tree to visit, so the walk is finite |
| `Walker.FileWalk.constructor` | src/main.rs:108-113 | a new walk starts at the root with both key sets empty; what it will yield is the specification walk of the root |
| `Walker.FileWalk.Advance` | src/main.rs:114-133 | one pull through the entry filter and then the file filter: the new work list, key sets and yielded file are those of the specification step |
| `Walker.FileWalk.Next` | src/main.rs:112-135 | the next accepted file is the head of what the walk had left to yield, and the rest is still to come; None only when the walk is exhausted |
| `Walker.WalkAllowingDuplicates` | src/main.rs:114-133 | with -d, neither key set changes and the walk yields every reachable regular file exactly once, in pre-order |
| `Walker.PullAllowingDuplicates` | src/main.rs:115-128 | with -d, one pull keeps both key sets and yields exactly the entry's own reachable files |
| `Walker.WalkYieldsReachableFiles` | src/main.rs:112-133 | from any key sets, the accepted files are a subsequence of the reachable regular files in pre-order: deduplication only leaves files out |
| `Walker.PullReachable` | src/main.rs:114-133 | the reachable files of a work list are what one pull yields, what it skips, and then the reachable files of what is left |
| `Walker.WalkYieldsRegularFiles` | src/main.rs:121-126 | only readable entries whose metadata says "regular file" are ever yielded |
| `Walker.PullYieldsEntry` | src/main.rs:120-132 | a pull yields nothing, or the first entry itself, which is a readable regular file |
| `Walker.PullKeys` | src/main.rs:114-131 | without -d, a pull yields at most one file; its key was new to both sets and is then recorded in both; the directory set only grows |
| `Walker.WalkKeysDistinct` | src/main.rs:128-131 | without -d, every accepted file has a key that was new to both starting sets; no two accepted files share a key; the final file set is the starting set plus the accepted keys |
| `Walker.KeysCons` | src/main.rs:128-131 | a file with a fresh key placed before files whose keys are fresh even counting it keeps all keys fresh and distinct |
| `Walker.FileSetWithinDirSet` | src/main.rs:114-131 | the file set never holds a key the directory set lacks |
| `Walker.PullNewEntry` | src/main.rs:114-131 | without -d, a pull of an entry whose key is new passes the entry filter, records that key, yields the entry exactly when it is a regular file (such a file has a key), and goes on with its children; the file set stays within the directory set |
| `Walker.ReachableSplit` | src/main.rs:112-113 | the reachable files and keys of a work list are the first entry's own, followed by those of its children and the rest of the list |
| `Walker.PullFindsEveryFile` | src/main.rs:114-133 | without -d and with no shared or already recorded key, one pull yields exactly the first entry's own file, and no shared key arises in what is left |
| `Walker.WalkFindsEveryFile` | src/main.rs:114-133 | without -d, when no two reachable entries share a key, none is already recorded, and every reachable regular file has a key, the walk yields every reachable regular file in pre-order |
| `Walker.SeenEntrySkipped` | src/main.rs:116-118 | without -d, an entry whose key is already recorded is skipped with its whole subtree, and the sets are unchanged |
| `Walker.KeylessDirectoryDescended` | src/main.rs:116-118 | without -d, a directory whose key cannot be obtained passes the entry filter, records nothing and is descended into |
| `Walker.UnreadableSkipped` | src/main.rs:121 | an unreadable item yields nothing, changes no set, and the walk goes on |
| `Report.FileLineFields` | src/main.rs:152-159 | a file line reads back as exactly the shown label and the file's length, in the field order the options select |
| `Report.SummaryLineFields` | src/main.rs:163-168 | a summary line reads back as exactly the root and the total, in the field order the options select |
| `Report.FlamegraphLineLabel` | src/main.rs:152-154 | the label of a flamegraph line holds no separator and does not start with ';' |
| `Report.FileLinesAt` | src/main.rs:135-159 | when listing, there is one line per accepted file, in order, and line i is the line of file i |
| `Report.RootLinesShape` | src/main.rs:135-168 | listing (-l or -f) prints one line per accepted file, with its label and length, and no summary; otherwise exactly one line with the root and the sum of the accepted lengths |
| `Report.ListedSizesAddUp` | src/main.rs:135-159 | the sizes read back from the listed lines add up to the root's total |
| `Report.SubsequenceTotal` | src/main.rs:135-136 | leaving files out never increases a total |
| `Report.DuplicatesAndTotal` | src/main.rs:115-136 | with -d a root's total is the sum over every reachable regular file; without -d it is never more than that, and when no two entries share a key and every regular file has one, the accepted files and the total are the same as with -d |
| `Report.NoFilesNoLines` | src/main.rs:135-168 | a root with no reachable regular file lists nothing, or prints a total of 0 |
| `Report.Appended` | src/main.rs:135-159 | one more file adds its length to the total and its line at the end |
| `Report.Tally` | src/main.rs:135-169 | draining a walk gives the total of everything it had left to yield and exactly the lines printed for those files |
| `Report.ScanRoot` | src/main.rs:107-169 | a root walked from fresh key sets gives the total of its accepted files and exactly the lines printed for it |
| `Report.DefaultRoot` | src/main.rs:101-105 | without root arguments the output is that of the single root ".", trimmed as the only root |
| `Report.RunLinesOne` | src/main.rs:107-110 | a single root prints exactly its own lines |
| `Report.RunLinesConcat` | src/main.rs:107-110 | the output for a list of roots is the output for each part, one after the other, so no root depends on the roots before it |
| `Report.RunLinesSnoc` | src/main.rs:107-110 | one more root appends its own lines |
| `Report.Run` | src/main.rs:101-170 | running the roots in turn prints exactly the specified output |
| `Scenarios.DataLabel` | src/main.rs:148-149 | under the single root "./data", "./data/sub/x.txt" is shown as "/sub/x.txt" |
| `Scenarios.DataFolded` | src/main.rs:153-154 | "/sub/x.txt" folds to "sub;x.txt" |
| `Scenarios.DefaultFileLine` | src/main.rs:157-158 | the default listing line for the 10-byte file is "10 /sub/x.txt" |
| `Scenarios.SizeFirstFileLine` | src/main.rs:155-156 | with -r the listing line is "/sub/x.txt 10" |
| `Scenarios.FlamegraphFileLine` | src/main.rs:152-154 | with -f the line is "sub;x.txt 10" |
| `Scenarios.FullNameLines` | src/main.rs:148-149 | with -F, or with more than one root, the whole path "./data/sub/x.txt" is shown |
| `Scenarios.SummaryLines` | src/main.rs:163-168 | the summary is "./data 10" by default and "10 ./data" with -r |
| `Scenarios.RootTrimmedRepeatedly` | src/main.rs:149 | under the root "a/", the path "a/a/b" is shown as "b" |
| `Scenarios.HardLinkCountedOnce` | src/main.rs:114-131 | two hard links to one file give one accepted file without -d and two with -d |
| `Scenarios.SymlinkBeforeTarget` | src/main.rs:114-131 | a symbolic link listed before the file it points to leaves that file uncounted without -d; with -d the file is counted |
| `Scenarios.KeylessFile` | src/main.rs:128-129 | a regular file whose key cannot be obtained is dropped without -d and kept with -d |

## Left out

- Option parsing, usage and help output, and the exit on bad flags (`src/main.rs:12-80`) are left out. They are plumbing over the getopts library. The model takes the resolved switches as an `Options` record.
- The `-b` buffer choice and the `BufWriter` (`src/main.rs:82`, `src/main.rs:90-99`) are left out. They change only how writes are grouped, not what is written.
- Write errors propagated by `?` (`src/main.rs:154-167`) are left out. Output is a sequence of lines, and writing never fails.
- The line terminators written by `writeln!` are left out: each printed line is one string.
- The real `WalkDir` traversal and the order in which directories are read are left out. They are foreign filesystem calls. The tree and each directory's child order are given as data.
- `Handle::from_path(..).as_key()` (`src/main.rs:116-117`, `src/main.rs:129`) is left out. Each entry carries an optional key as data. The source asks for the key twice for a regular file, once in each filter. The model assumes both calls agree.
- A root path that cannot be opened is modelled as a walk that yields one error. Which paths exist is a map from root string to tree.
- The non-UTF-8 fallback through `display()` (`src/main.rs:141-146`) is left out: paths are strings of characters.
- Report.Tally: the `u64` total at `src/main.rs:136` is modelled as an unbounded `nat`, so wrap-around on overflow is not captured.
- Report.ScanRoot: as with Tally, the total is an unbounded `nat` rather than a `u64`.
