/** Choosing the main USD stage among the files a directory scan finds
    (`_find_stage_in_dir` and its `score` key). The filesystem enters only as
    a glob oracle: `glob(pattern, recursive)` is the list of paths Python's
    glob.glob returns for that pattern, in its order. */
module StageLocator {
  import opened Text
  import opened Outcomes

  type Glob = (string, bool) -> seq<string>

  /** The root-level patterns, in the order they are scanned. */
  const RootPatterns: seq<string> := ["*.usda", "*.usd", "*.usdc", "*.usdb"]

  /** The recursive patterns, used only when no root-level pattern matches. */
  const DeepPatterns: seq<string> := ["**/*.usda", "**/*.usd", "**/*.usdc", "**/*.usdb"]

  /** os.path.join of two components on a POSIX system. */
  function Join(dir: string, name: string): string {
    if |name| > 0 && name[0] == '/' then name
    else if dir == [] || dir[|dir| - 1] == '/' then dir + name
    else dir + "/" + name
  }

  /** The glob results of `pats` under `dir`, concatenated in pattern order. */
  function Gathered(dir: string, glob: Glob, pats: seq<string>, recursive: bool): seq<string>
    decreases |pats|
  {
    if pats == [] then []
    else Gathered(dir, glob, pats[..|pats| - 1], recursive) + glob(Join(dir, pats[|pats| - 1]), recursive)
  }

  /** One more pattern appends its matches. */
  lemma GatheredStep(dir: string, glob: Glob, pats: seq<string>, i: nat, recursive: bool)
    requires i < |pats|
    ensures Gathered(dir, glob, pats[..i + 1], recursive) ==
      Gathered(dir, glob, pats[..i], recursive) + glob(Join(dir, pats[i]), recursive)
  {
    assert pats[..i + 1][..i] == pats[..i];
  }

  /** The candidate list: root-level matches if there are any, else the recursive matches. */
  function ScanCandidates(dir: string, glob: Glob): seq<string> {
    var root := Gathered(dir, glob, RootPatterns, false);
    if root != [] then root else Gathered(dir, glob, DeepPatterns, true)
  }

  // ---------------------------------------------------------------------------
  // The sort key

  /** Whether p[lo..hi] holds a character other than '.': the loop in
      os.path.splitext that skips the leading dots of the last component. */
  predicate NonDotIn(p: string, lo: int, hi: int)
    requires 0 <= lo && hi <= |p|
    decreases hi - lo
  {
    lo < hi && (p[lo] != '.' || NonDotIn(p, lo + 1, hi))
  }

  /** The test looks only at p[lo..hi], so it survives appending to p. */
  lemma {:induction false} NonDotInAppend(p: string, q: string, lo: nat, hi: int)
    requires hi <= |p|
    requires NonDotIn(p, lo, hi)
    ensures NonDotIn(p + q, lo, hi)
    decreases hi - lo
  {
    if p[lo] == '.' {
      NonDotInAppend(p, q, lo + 1, hi);
    }
  }

  /** The extension os.path.splitext reports on POSIX: from the last '.' of the
      last path component, provided that component has a non-dot character
      before it (so ".usda" and "..usda" have no extension); otherwise "". */
  function Ext(p: string): (e: string)
    ensures e == [] || (e[0] == '.' && EndsWith(p, e))
    ensures forall i :: 0 <= i < |e| ==> e[i] != '/'
    ensures forall i :: 1 <= i < |e| ==> e[i] != '.'
  {
    ExtAt(p, LastIndexOf(p, '/'), LastIndexOf(p, '.'))
  }

  /** The extension given the positions of the last separator and the last dot. */
  function ExtAt(p: string, sepIndex: int, dotIndex: int): string
    requires -1 <= sepIndex < |p| && -1 <= dotIndex < |p|
  {
    if dotIndex > sepIndex && NonDotIn(p, sepIndex + 1, dotIndex) then p[dotIndex..] else []
  }

  /** Rank of a lower-cased extension: .usda before .usd before .usdc/.usdb before anything else. */
  function RankOf(ext: string): nat {
    if ext == ".usda" then 0
    else if ext == ".usd" then 1
    else if ext == ".usdc" || ext == ".usdb" then 2
    else 3
  }

  function ExtRank(p: string): nat {
    RankOf(Lower(Ext(p)))
  }

  /** Depth of a path: the number of separators in it. */
  function Depth(p: string): nat {
    Count(p, '/')
  }

  datatype Score = Score(rank: nat, depth: nat)

  function ScoreOf(p: string): Score {
    Score(ExtRank(p), Depth(p))
  }

  /** Strict lexicographic order on (rank, depth), as Python compares tuples. */
  predicate Better(a: Score, b: Score) {
    a.rank < b.rank || (a.rank == b.rank && a.depth < b.depth)
  }

  lemma LastSeparatorOfNamedFile(stem: string, e: string)
    requires forall i :: 0 <= i < |e| ==> e[i] != '/'
    ensures LastIndexOf(stem + "." + e, '/') == LastIndexOf(stem, '/')
  {
    LastIndexOfAppend(stem, ".", '/');
    LastIndexOfAppend(stem + ".", e, '/');
  }

  lemma LastDotOfNamedFile(stem: string, e: string)
    requires forall i :: 0 <= i < |e| ==> e[i] != '.'
    ensures LastIndexOf(stem + "." + e, '.') == |stem|
  {
    LastIndexOfAppend(stem + ".", e, '.');
    assert LastIndexOf(stem + ".", '.') == |stem|;
  }

  /** The extension of `stem.e` is ".e" when the last component of `stem` has a
      non-dot character and `e` has neither a dot nor a separator. */
  lemma ExtOfNamedFile(stem: string, e: string)
    requires NonDotIn(stem, LastIndexOf(stem, '/') + 1, |stem|)
    requires forall i :: 0 <= i < |e| ==> e[i] != '.' && e[i] != '/'
    ensures Ext(stem + "." + e) == "." + e
  {
    var sepIndex := LastIndexOf(stem, '/');
    LastSeparatorOfNamedFile(stem, e);
    LastDotOfNamedFile(stem, e);
    NonDotInAppend(stem, ".", sepIndex + 1, |stem|);
    NonDotInAppend(stem + ".", e, sepIndex + 1, |stem|);
    ExtOfSplit(stem + "." + e, sepIndex, |stem|);
    DottedSuffix(stem, e);
  }

  /** With the last separator before the last dot and a non-dot between them,
      the extension runs from the last dot to the end. */
  lemma ExtOfSplit(p: string, sepIndex: int, dotIndex: int)
    requires -1 <= sepIndex < dotIndex < |p|
    requires LastIndexOf(p, '/') == sepIndex && LastIndexOf(p, '.') == dotIndex
    requires NonDotIn(p, sepIndex + 1, dotIndex)
    ensures Ext(p) == p[dotIndex..]
  {
  }

  lemma DottedSuffix(stem: string, e: string)
    ensures (stem + "." + e)[|stem|..] == "." + e
  {
  }

  /** The rank of a stage file named `stem.e`: .usda, .usd, .usdc/.usdb in any
      case rank 0, 1, 2; every other extension ranks 3. */
  lemma ExtRankOfNamedFile(stem: string, e: string)
    requires NonDotIn(stem, LastIndexOf(stem, '/') + 1, |stem|)
    requires forall i :: 0 <= i < |e| ==> e[i] != '.' && e[i] != '/'
    ensures Lower(e) == "usda" ==> ExtRank(stem + "." + e) == 0
    ensures Lower(e) == "usd" ==> ExtRank(stem + "." + e) == 1
    ensures Lower(e) == "usdc" || Lower(e) == "usdb" ==> ExtRank(stem + "." + e) == 2
    ensures Lower(e) !in {"usda", "usd", "usdc", "usdb"} ==> ExtRank(stem + "." + e) == 3
  {
    ExtOfNamedFile(stem, e);
    RankOfDotted(e);
  }

  lemma RankOfDotted(e: string)
    ensures Lower(e) == "usda" ==> RankOf(Lower("." + e)) == 0
    ensures Lower(e) == "usd" ==> RankOf(Lower("." + e)) == 1
    ensures Lower(e) == "usdc" || Lower(e) == "usdb" ==> RankOf(Lower("." + e)) == 2
    ensures Lower(e) !in {"usda", "usd", "usdc", "usdb"} ==> RankOf(Lower("." + e)) == 3
  {
    LowerAppend(".", e);
    assert Lower(".") == ".";
    var x := Lower(e);
    DottedEq(x, "usda");
    DottedEq(x, "usd");
    DottedEq(x, "usdc");
    DottedEq(x, "usdb");
    assert ".usda" == "." + "usda" && ".usd" == "." + "usd";
    assert ".usdc" == "." + "usdc" && ".usdb" == "." + "usdb";
  }

  lemma DottedEq(x: string, y: string)
    ensures "." + x == "." + y <==> x == y
  {
    if "." + x == "." + y {
      assert x == ("." + x)[1..];
    }
  }

  /** Depth counts separators of the whole path, not of the part below the
      search root; for paths joined onto the same root the two orders agree. */
  lemma JoinedDepth(dir: string, a: string, b: string)
    requires |a| > 0 && a[0] != '/' && |b| > 0 && b[0] != '/'
    ensures Depth(Join(dir, a)) - Depth(Join(dir, b)) == Depth(a) - Depth(b)
  {
    if dir == [] || dir[|dir| - 1] == '/' {
      CountAppend(dir, a, '/');
      CountAppend(dir, b, '/');
    } else {
      CountAppend(dir + "/", a, '/');
      CountAppend(dir + "/", b, '/');
    }
  }

  // ---------------------------------------------------------------------------
  // list.sort(key=...): a stable sort by a key

  predicate SortedBy(s: seq<string>, key: string -> Score) {
    forall i, j :: 0 <= i < j < |s| ==> !Better(key(s[j]), key(s[i]))
  }

  /** Inserts `x`, which came before every element of `t`, ahead of the first
      element whose key is not strictly better than its own. */
  function Insert(x: string, t: seq<string>, key: string -> Score): (r: seq<string>)
    ensures multiset(r) == multiset(t) + multiset{x}
  {
    if t == [] || !Better(key(t[0]), key(x)) then [x] + t
    else
      assert t == [t[0]] + t[1..];
      [t[0]] + Insert(x, t[1..], key)
  }

  /** Inserting into a sorted list keeps it sorted; the new head is `x` or the old head. */
  lemma {:induction false} InsertKeepsSorted(x: string, t: seq<string>, key: string -> Score)
    requires SortedBy(t, key)
    ensures SortedBy(Insert(x, t, key), key)
    ensures Insert(x, t, key)[0] == x || (t != [] && Insert(x, t, key)[0] == t[0])
  {
    if t == [] || !Better(key(t[0]), key(x)) {
      var r := [x] + t;
      forall i, j | 0 <= i < j < |r|
        ensures !Better(key(r[j]), key(r[i]))
      {
        if i == 0 {
          NotBetterTransitive(key(t[j - 1]), key(t[0]), key(x));
        } else {
          assert r[i] == t[i - 1] && r[j] == t[j - 1];
        }
      }
    } else {
      var rest := Insert(x, t[1..], key);
      InsertKeepsSorted(x, t[1..], key);
      assert !Better(key(rest[0]), key(t[0]));
      var r := [t[0]] + rest;
      forall i, j | 0 <= i < j < |r|
        ensures !Better(key(r[j]), key(r[i]))
      {
        if i == 0 {
          NotBetterTransitive(key(rest[j - 1]), key(rest[0]), key(t[0]));
        } else {
          assert r[i] == rest[i - 1] && r[j] == rest[j - 1];
        }
      }
    }
  }

  /** "Not strictly better" is transitive: the key order is a total preorder. */
  lemma NotBetterTransitive(a: Score, b: Score, c: Score)
    requires !Better(a, b) && !Better(b, c)
    ensures !Better(a, c)
  {
  }

  /** Python's stable list.sort with `key`. */
  function SortBy(s: seq<string>, key: string -> Score): (r: seq<string>)
    ensures multiset(r) == multiset(s)
    ensures |r| == |s|
    ensures SortedBy(r, key)
  {
    if s == [] then []
    else
      assert s == [s[0]] + s[1..];
      var t := SortBy(s[1..], key);
      InsertKeepsSorted(s[0], t, key);
      Insert(s[0], t, key)
  }

  /** The index of the first element whose key no element beats. */
  function FirstMinIndex(s: seq<string>, key: string -> Score): (k: nat)
    requires s != []
    ensures k < |s|
    ensures forall j :: 0 <= j < |s| ==> !Better(key(s[j]), key(s[k]))
    ensures forall j :: 0 <= j < k ==> Better(key(s[k]), key(s[j]))
  {
    if |s| == 1 then 0
    else
      var k := FirstMinIndex(s[1..], key);
      assert forall j :: 1 <= j < |s| ==> s[j] == s[1..][j - 1];
      if Better(key(s[k + 1]), key(s[0])) then k + 1 else 0
  }

  /** The head of the stable sort is the first element with a minimal key. */
  lemma {:induction false} SortHeadIsFirstMinimum(s: seq<string>, key: string -> Score)
    requires s != []
    ensures SortBy(s, key)[0] == s[FirstMinIndex(s, key)]
  {
    if |s| > 1 {
      SortHeadIsFirstMinimum(s[1..], key);
    }
  }

  // ---------------------------------------------------------------------------
  // Selection

  /** The first element of the sorted candidates, or NoStageFound. */
  function SelectStage(candidates: seq<string>): (r: Result<string>)
    ensures r.Failure? <==> candidates == []
    ensures r.Failure? ==> r.error == NoStageFound
    ensures r.Success? ==> r.value in candidates
  {
    if candidates == [] then Failure(NoStageFound)
    else
      var sorted := SortBy(candidates, ScoreOf);
      assert sorted[0] in multiset(sorted);
      Success(sorted[0])
  }

  /** Selection fails exactly on an empty candidate list; otherwise it returns a
      candidate that no candidate scores strictly better than, and every
      candidate scanned before it scores strictly worse (ties go to scan order). */
  lemma {:induction false} SelectStageIsEarliestBest(candidates: seq<string>)
    ensures SelectStage(candidates).Failure? <==> candidates == []
    ensures SelectStage(candidates).Failure? ==> SelectStage(candidates).error == NoStageFound
    ensures candidates != [] ==>
      var k := FirstMinIndex(candidates, ScoreOf);
      && SelectStage(candidates) == Success(candidates[k])
      && (forall c :: c in candidates ==> !Better(ScoreOf(c), ScoreOf(candidates[k])))
      && (forall j :: 0 <= j < k ==> Better(ScoreOf(candidates[k]), ScoreOf(candidates[j])))
  {
    if candidates != [] {
      SortHeadIsFirstMinimum(candidates, ScoreOf);
    }
  }

  /** Stage selection in a directory fails exactly when neither scan finds anything. */
  lemma StageFoundUnlessBothScansEmpty(dir: string, glob: Glob)
    ensures SelectStage(ScanCandidates(dir, glob)).Failure? <==>
      Gathered(dir, glob, RootPatterns, false) == [] && Gathered(dir, glob, DeepPatterns, true) == []
  {
  }

  /** A root-level match hides the recursive scan: the chosen stage is one of the root-level matches. */
  lemma RootMatchesShadowRecursiveScan(dir: string, glob: Glob)
    requires Gathered(dir, glob, RootPatterns, false) != []
    ensures SelectStage(ScanCandidates(dir, glob)).Success?
    ensures SelectStage(ScanCandidates(dir, glob)).value in Gathered(dir, glob, RootPatterns, false)
  {
    var root := Gathered(dir, glob, RootPatterns, false);
    SelectStageIsEarliestBest(root);
  }

  /** At equal depth in the root, a .usdc file beats a .usdb file, because the
      .usdc pattern is scanned first and the sort is stable. */
  lemma UsdcBeatsUsdbAtEqualDepth(dir: string, glob: Glob, stemC: string, stemB: string)
    requires NonDotIn(stemC, LastIndexOf(stemC, '/') + 1, |stemC|)
    requires NonDotIn(stemB, LastIndexOf(stemB, '/') + 1, |stemB|)
    requires stemC + ".usdc" in glob(Join(dir, "*.usdc"), false)
    requires stemB + ".usdb" in glob(Join(dir, "*.usdb"), false)
    requires Depth(stemC + ".usdc") == Depth(stemB + ".usdb")
    requires stemB + ".usdb" !in glob(Join(dir, "*.usda"), false)
    requires stemB + ".usdb" !in glob(Join(dir, "*.usd"), false)
    requires stemB + ".usdb" !in glob(Join(dir, "*.usdc"), false)
    ensures SelectStage(ScanCandidates(dir, glob)) != Success(stemB + ".usdb")
  {
    SameRankUsdcUsdb(stemC, stemB);
    RootScanOrder(dir, glob);
    var g3 := Gathered(dir, glob, RootPatterns[..3], false);
    var root := Gathered(dir, glob, RootPatterns, false);
    assert root[..|g3|] == g3;
    ScanOrderBreaksTies(root, |g3|, stemC + ".usdc", stemB + ".usdb");
  }

  /** The same tie-break in the recursive scan, which runs when the root level
      has no match: an equally deep .usdc file found anywhere below the
      directory beats a .usdb file, because its pattern is scanned first. */
  lemma UsdcBeatsUsdbInRecursiveScan(dir: string, glob: Glob, stemC: string, stemB: string)
    requires Gathered(dir, glob, RootPatterns, false) == []
    requires NonDotIn(stemC, LastIndexOf(stemC, '/') + 1, |stemC|)
    requires NonDotIn(stemB, LastIndexOf(stemB, '/') + 1, |stemB|)
    requires stemC + ".usdc" in glob(Join(dir, "**/*.usdc"), true)
    requires stemB + ".usdb" in glob(Join(dir, "**/*.usdb"), true)
    requires Depth(stemC + ".usdc") == Depth(stemB + ".usdb")
    requires stemB + ".usdb" !in glob(Join(dir, "**/*.usda"), true)
    requires stemB + ".usdb" !in glob(Join(dir, "**/*.usd"), true)
    requires stemB + ".usdb" !in glob(Join(dir, "**/*.usdc"), true)
    ensures SelectStage(ScanCandidates(dir, glob)) != Success(stemB + ".usdb")
  {
    SameRankUsdcUsdb(stemC, stemB);
    DeepScanOrder(dir, glob);
    var g3 := Gathered(dir, glob, DeepPatterns[..3], true);
    var deep := Gathered(dir, glob, DeepPatterns, true);
    assert deep[..|g3|] == g3;
    ScanOrderBreaksTies(deep, |g3|, stemC + ".usdc", stemB + ".usdb");
  }

  /** Of two equally scored candidates, the one scanned within the first `n`
      is preferred to one scanned after them. */
  lemma ScanOrderBreaksTies(candidates: seq<string>, n: nat, c: string, b: string)
    requires n <= |candidates| && c in candidates[..n] && b !in candidates[..n]
    requires ScoreOf(c) == ScoreOf(b)
    ensures SelectStage(candidates) != Success(b)
  {
    SortHeadIsFirstMinimum(candidates, ScoreOf);
    EarlierTieWins(candidates, ScoreOf, c, b, n);
  }

  lemma SameRankUsdcUsdb(stemC: string, stemB: string)
    requires NonDotIn(stemC, LastIndexOf(stemC, '/') + 1, |stemC|)
    requires NonDotIn(stemB, LastIndexOf(stemB, '/') + 1, |stemB|)
    ensures ExtRank(stemC + ".usdc") == 2 == ExtRank(stemB + ".usdb")
  {
    UsdcRank(stemC);
    UsdbRank(stemB);
  }

  lemma UsdcRank(stem: string)
    requires NonDotIn(stem, LastIndexOf(stem, '/') + 1, |stem|)
    ensures ExtRank(stem + ".usdc") == 2
  {
    DottedLiterals();
    NamedFile(stem, "usdc", ".usdc");
    BinaryRank(stem, "usdc");
  }

  lemma UsdbRank(stem: string)
    requires NonDotIn(stem, LastIndexOf(stem, '/') + 1, |stem|)
    ensures ExtRank(stem + ".usdb") == 2
  {
    DottedLiterals();
    NamedFile(stem, "usdb", ".usdb");
    BinaryRank(stem, "usdb");
  }

  lemma DottedLiterals()
    ensures ".usdc" == "." + "usdc" && ".usdb" == "." + "usdb"
  {
  }

  lemma NamedFile(stem: string, e: string, suffix: string)
    requires suffix == "." + e
    ensures stem + suffix == stem + "." + e
  {
    assert stem + suffix == stem + ("." + e);
  }

  /** Crate and binary stage files share rank 2. */
  lemma BinaryRank(stem: string, e: string)
    requires NonDotIn(stem, LastIndexOf(stem, '/') + 1, |stem|)
    requires e == "usdc" || e == "usdb"
    ensures ExtRank(stem + "." + e) == 2
  {
    BinaryExtChars(e);
    ExtRankIsDottedRank(stem, e);
    BinaryDottedRank(e);
  }

  lemma BinaryExtChars(e: string)
    requires e == "usdc" || e == "usdb"
    ensures forall i :: 0 <= i < |e| ==> e[i] != '.' && e[i] != '/'
  {
  }

  lemma BinaryDottedRank(e: string)
    requires e == "usdc" || e == "usdb"
    ensures RankOf(Lower("." + e)) == 2
  {
    RankOfDotted(e);
  }

  lemma ExtRankIsDottedRank(stem: string, e: string)
    requires NonDotIn(stem, LastIndexOf(stem, '/') + 1, |stem|)
    requires forall i :: 0 <= i < |e| ==> e[i] != '.' && e[i] != '/'
    ensures ExtRank(stem + "." + e) == RankOf(Lower("." + e))
  {
    ExtOfNamedFile(stem, e);
  }

  /** The root-level candidate list is the .usda, .usd, .usdc and .usdb matches, in that order. */
  lemma RootScanOrder(dir: string, glob: Glob)
    ensures Gathered(dir, glob, RootPatterns[..3], false) ==
      glob(Join(dir, "*.usda"), false) + glob(Join(dir, "*.usd"), false) + glob(Join(dir, "*.usdc"), false)
    ensures Gathered(dir, glob, RootPatterns, false) ==
      Gathered(dir, glob, RootPatterns[..3], false) + glob(Join(dir, "*.usdb"), false)
  {
    assert RootPatterns[..4] == RootPatterns;
    assert RootPatterns[..3][..2] == RootPatterns[..2];
    assert RootPatterns[..2][..1] == RootPatterns[..1];
    assert RootPatterns[..1][..0] == [];
    assert Gathered(dir, glob, RootPatterns[..1], false) == glob(Join(dir, "*.usda"), false);
    assert Gathered(dir, glob, RootPatterns[..2], false) ==
      glob(Join(dir, "*.usda"), false) + glob(Join(dir, "*.usd"), false);
  }

  /** The recursive candidate list is the .usda, .usd, .usdc and .usdb matches, in that order. */
  lemma DeepScanOrder(dir: string, glob: Glob)
    ensures Gathered(dir, glob, DeepPatterns[..3], true) ==
      glob(Join(dir, "**/*.usda"), true) + glob(Join(dir, "**/*.usd"), true) + glob(Join(dir, "**/*.usdc"), true)
    ensures Gathered(dir, glob, DeepPatterns, true) ==
      Gathered(dir, glob, DeepPatterns[..3], true) + glob(Join(dir, "**/*.usdb"), true)
  {
    assert DeepPatterns[..4] == DeepPatterns;
    assert DeepPatterns[..3][..2] == DeepPatterns[..2];
    assert DeepPatterns[..2][..1] == DeepPatterns[..1];
    assert DeepPatterns[..1][..0] == [];
    assert Gathered(dir, glob, DeepPatterns[..1], true) == glob(Join(dir, "**/*.usda"), true);
    assert Gathered(dir, glob, DeepPatterns[..2], true) ==
      glob(Join(dir, "**/*.usda"), true) + glob(Join(dir, "**/*.usd"), true);
  }

  /** If `c` is scanned within the first `n` candidates, `b` is not, and both
      have the same key, the first minimum is not `b`. */
  lemma EarlierTieWins(s: seq<string>, key: string -> Score, c: string, b: string, n: nat)
    requires n <= |s| && c in s[..n] && b !in s[..n] && key(c) == key(b)
    ensures s[FirstMinIndex(s, key)] != b
  {
    var i :| 0 <= i < n && s[..n][i] == c;
    assert s[i] == c;
  }

  // ---------------------------------------------------------------------------
  // _find_stage_in_dir

  /** Scans the root level, falls back to the recursive scan, sorts the
      candidates by score and returns the first. */
  method FindStageInDir(dirPath: string, glob: Glob) returns (r: Result<string>)
    ensures r == SelectStage(ScanCandidates(dirPath, glob))
  {
    var candidates: seq<string> := [];
    for i := 0 to |RootPatterns|
      invariant candidates == Gathered(dirPath, glob, RootPatterns[..i], false)
    {
      GatheredStep(dirPath, glob, RootPatterns, i, false);
      candidates := candidates + glob(Join(dirPath, RootPatterns[i]), false);
    }
    assert RootPatterns[..|RootPatterns|] == RootPatterns;
    if candidates == [] {
      for i := 0 to |DeepPatterns|
        invariant candidates == Gathered(dirPath, glob, DeepPatterns[..i], true)
      {
        GatheredStep(dirPath, glob, DeepPatterns, i, true);
        candidates := candidates + glob(Join(dirPath, DeepPatterns[i]), true);
      }
      assert DeepPatterns[..|DeepPatterns|] == DeepPatterns;
    }
    if candidates == [] {
      return Failure(NoStageFound);
    }
    candidates := SortBy(candidates, ScoreOf);
    r := Success(candidates[0]);
  }
}
