/**
 * The string rewriting applied to a listed path before it is printed:
 * removal of the root from the front of the path, and the flamegraph fold
 * that turns path separators into ';'.
 */
module Labels {

  /** `k` copies of `p`, one after another. */
  function Repeat(p: string, k: nat): string
    decreases k
  {
    if k == 0 then [] else p + Repeat(p, k - 1)
  }

  /**
   * Rust's `str::trim_start_matches` with a string pattern: removes copies
   * of `p` from the front of `s` for as long as `s` starts with one. An
   * empty pattern removes nothing.
   */
  function TrimStartMatches(s: string, p: string): (r: string)
    ensures |r| <= |s| && r == s[|s| - |r|..]
    decreases |s|
  {
    if p != [] && p <= s then TrimStartMatches(s[|p|..], p) else s
  }

  /** How many copies of `p` trimming removes from the front of `s`. */
  function LeadingCopies(s: string, p: string): nat
    decreases |s|
  {
    if p != [] && p <= s then 1 + LeadingCopies(s[|p|..], p) else 0
  }

  lemma {:induction false} TrimStartMatchesSplit(s: string, p: string)
    ensures s == Repeat(p, LeadingCopies(s, p)) + TrimStartMatches(s, p)
    decreases |s|
  {
    if p != [] && p <= s {
      var t := s[|p|..];
      TrimStartMatchesSplit(t, p);
      assert s == p + t;
      PrependCopy(p, t, LeadingCopies(t, p), TrimStartMatches(t, p));
    } else {
      assert Repeat(p, 0) + s == s;
    }
  }

  lemma PrependCopy(p: string, t: string, k: nat, r: string)
    requires t == Repeat(p, k) + r
    ensures p + t == Repeat(p, k + 1) + r
  {
    assert Repeat(p, k + 1) == p + Repeat(p, k);
  }

  /**
   * What is removed is a run of whole copies of the pattern, and the
   * rest no longer starts with the pattern.
   */
  lemma {:induction false} TrimStartMatchesRemovesCopies(s: string, p: string)
    ensures exists k: nat :: s == Repeat(p, k) + TrimStartMatches(s, p)
    ensures p != [] ==> !(p <= TrimStartMatches(s, p))
    decreases |s|
  {
    TrimStartMatchesSplit(s, p);
    if p != [] && p <= s {
      TrimStartMatchesRemovesCopies(s[|p|..], p);
    }
  }

  /**
   * Conversely, any split of `s` into copies of a non-empty `p` followed by
   * a rest that does not start with `p` is the one trimming finds.
   */
  lemma {:induction false} TrimStartMatchesUnique(s: string, p: string, k: nat, rest: string)
    requires p != []
    requires s == Repeat(p, k) + rest
    requires !(p <= rest)
    ensures TrimStartMatches(s, p) == rest
    decreases k
  {
    if k > 0 {
      var t := Repeat(p, k - 1) + rest;
      assert Repeat(p, k) == p + Repeat(p, k - 1);
      assert s == p + t;
      assert p <= s;
      assert s[|p|..] == t;
      assert TrimStartMatches(s, p) == TrimStartMatches(t, p);
      TrimStartMatchesUnique(t, p, k - 1, rest);
    } else {
      assert Repeat(p, 0) == [];
      assert s == rest;
    }
  }

  predicate IsSeparator(c: char) {
    c == '/' || c == '\\'
  }

  /** Every '/' and '\' of `s` replaced by ';' (Rust's `str::replace` with a char predicate). */
  function ReplaceSeparators(s: string): string {
    seq(|s|, i requires 0 <= i < |s| => if IsSeparator(s[i]) then ';' else s[i])
  }

  /** The flamegraph stack of a path: separators folded to ';', leading ';' removed. */
  function Fold(path: string): string {
    TrimStartMatches(ReplaceSeparators(path), ";")
  }

  /**
   * A folded path holds no separator and does not start with ';'; it is the
   * separator-folded path with exactly its leading run of ';' taken off.
   */
  lemma FoldShape(path: string)
    ensures forall i :: 0 <= i < |Fold(path)| ==> !IsSeparator(Fold(path)[i])
    ensures Fold(path) == [] || Fold(path)[0] != ';'
    ensures exists k: nat :: ReplaceSeparators(path) == Repeat(";", k) + Fold(path)
  {
    TrimStartMatchesRemovesCopies(ReplaceSeparators(path), ";");
    var r := Fold(path);
    var s := ReplaceSeparators(path);
    forall i | 0 <= i < |r| ensures !IsSeparator(r[i]) {
      assert r[i] == s[|s| - |r| + i];
    }
    if r != [] {
      assert [r[0]] <= r;
    }
  }

  /**
   * The label printed for a listed file: with a single root and without
   * full names, the root is trimmed from the front of the path (as a plain
   * string, repeatedly); otherwise the path is printed whole.
   */
  function Label(oneRoot: bool, fullName: bool, root: string, path: string): string {
    if oneRoot && !fullName then TrimStartMatches(path, root) else path
  }

  /** When trimming applies, the label is what is left after removing the leading copies of the root. */
  lemma LabelTrimsRoot(fullName: bool, root: string, path: string)
    requires !fullName
    ensures exists k: nat :: path == Repeat(root, k) + Label(true, fullName, root, path)
    ensures root != [] ==> !(root <= Label(true, fullName, root, path))
  {
    TrimStartMatchesRemovesCopies(path, root);
  }
}
