/**
 * File selection over a directory tree.
 *
 * The tree under the source root is given as the sequence of entries a
 * recursive walk yields, each a root-relative path tagged as a regular file
 * or a directory. Results are sets of root-relative paths.
 */
module FileCollector {
  import opened PatternMatcher

  datatype Kind = RegularFile | Directory

  datatype Entry = Entry(path: string, kind: Kind)

  /** The entries under the root, in walk order */
  type Tree = seq<Entry>

  /** Every path of the tree names one entry only */
  ghost predicate WellFormed(tree: Tree)
  {
    forall i, j :: 0 <= i < j < |tree| ==> tree[i].path != tree[j].path
  }

  /** The paths of all regular files in the tree */
  function RegularFiles(tree: Tree): set<string>
  {
    set e | e in tree && e.kind == RegularFile :: e.path
  }

  /** `e` is picked by the include `pattern` and survives the `excludes` */
  predicate Selects(e: Entry, pattern: string, excludes: seq<string>)
  {
    e.kind == RegularFile && Matches(e.path, pattern) && !IsExcluded(e.path, excludes)
  }

  /** Specification of `get_files_matching_pattern` */
  function MatchingFiles(tree: Tree, pattern: string, excludes: seq<string>): set<string>
  {
    set e | e in tree && Selects(e, pattern, excludes) :: e.path
  }

  /** Specification of `get_files_to_upload`: files matched by any include pattern, minus excluded ones */
  function FilesToUpload(tree: Tree, includes: seq<string>, excludes: seq<string>): set<string>
  {
    set e | e in tree && e.kind == RegularFile && MatchesSome(e.path, includes) && !IsExcluded(e.path, excludes) :: e.path
  }

  /** `get_files_matching_pattern`: one pass over the walk, collecting the selected files. */
  method GetFilesMatchingPattern(tree: Tree, pattern: string, excludes: seq<string>) returns (found: set<string>)
    ensures found == MatchingFiles(tree, pattern, excludes)
  {
    found := {};
    for i := 0 to |tree|
      invariant found == MatchingFiles(tree[..i], pattern, excludes)
    {
      var e := tree[i];
      if e.kind == RegularFile && Matches(e.path, pattern) && !IsExcluded(e.path, excludes) {
        found := found + {e.path};
      }
      assert tree[..i + 1] == tree[..i] + [e];
    }
    assert tree[..|tree|] == tree;
  }

  /** `get_files_to_upload`: the union of `get_files_matching_pattern` over the include patterns. */
  method GetFilesToUpload(tree: Tree, includes: seq<string>, excludes: seq<string>) returns (files: set<string>)
    ensures files == FilesToUpload(tree, includes, excludes)
  {
    files := {};
    for k := 0 to |includes|
      invariant files == FilesToUpload(tree, includes[..k], excludes)
    {
      var matching := GetFilesMatchingPattern(tree, includes[k], excludes);
      FilesToUploadAddPattern(tree, includes[..k], includes[k], excludes);
      assert includes[..k + 1] == includes[..k] + [includes[k]];
      files := files + matching;
    }
    assert includes[..|includes|] == includes;
  }

  /** When exactly one position is selected, exactly its path is found. */
  lemma MatchingFilesOne(tree: Tree, pattern: string, excludes: seq<string>, a: int)
    requires 0 <= a < |tree|
    requires forall i :: 0 <= i < |tree| ==> (Selects(tree[i], pattern, excludes) <==> i == a)
    ensures MatchingFiles(tree, pattern, excludes) == {tree[a].path}
  {
  }

  /** When exactly two positions are selected, exactly their paths are found. */
  lemma MatchingFilesTwo(tree: Tree, pattern: string, excludes: seq<string>, a: int, b: int)
    requires 0 <= a < |tree| && 0 <= b < |tree|
    requires forall i :: 0 <= i < |tree| ==> (Selects(tree[i], pattern, excludes) <==> i == a || i == b)
    ensures MatchingFiles(tree, pattern, excludes) == {tree[a].path, tree[b].path}
  {
  }

  /** With a single include pattern, the upload set is what that pattern finds. */
  lemma SinglePatternUpload(tree: Tree, pattern: string, excludes: seq<string>)
    ensures FilesToUpload(tree, [pattern], excludes) == MatchingFiles(tree, pattern, excludes)
  {
  }

  /** One more include pattern adds exactly the files that pattern selects. */
  lemma FilesToUploadAddPattern(tree: Tree, includes: seq<string>, pattern: string, excludes: seq<string>)
    ensures FilesToUpload(tree, includes + [pattern], excludes)
         == FilesToUpload(tree, includes, excludes) + MatchingFiles(tree, pattern, excludes)
  {
  }

  /** Only regular files of the tree are ever selected: directories never are. */
  lemma SelectedAreRegularFiles(tree: Tree, includes: seq<string>, excludes: seq<string>, path: string)
    requires WellFormed(tree)
    requires Entry(path, Directory) in tree
    ensures path !in FilesToUpload(tree, includes, excludes)
    ensures FilesToUpload(tree, includes, excludes) <= RegularFiles(tree)
  {
  }

  /**
   * Exclusion is applied after inclusion: a path is selected exactly when it
   * is a regular file matched by some include pattern and by no exclude pattern.
   */
  lemma ExclusionAfterInclusion(tree: Tree, includes: seq<string>, excludes: seq<string>)
    ensures forall p :: p in FilesToUpload(tree, includes, excludes) <==>
      p in FilesToUpload(tree, includes, []) && !(exists x :: x in excludes && Matches(p, x))
  {
  }

  /** Exclude patterns that match no file of the tree remove nothing. */
  lemma UnmatchedExcludesRemoveNothing(tree: Tree, includes: seq<string>, excludes: seq<string>)
    requires forall e, x :: e in tree && x in excludes ==> !Matches(e.path, x)
    ensures FilesToUpload(tree, includes, excludes) == FilesToUpload(tree, includes, [])
  {
  }

  /** The empty exclude pattern removes nothing from a tree without an empty path. */
  lemma EmptyExcludeRemovesNothing(tree: Tree, includes: seq<string>)
    requires forall e :: e in tree ==> e.path != ""
    ensures FilesToUpload(tree, includes, [""]) == FilesToUpload(tree, includes, [])
  {
  }

  /** Only the set of include patterns matters, not their order or repetitions. */
  lemma IncludeOrderIrrelevant(tree: Tree, includes1: seq<string>, includes2: seq<string>, excludes: seq<string>)
    requires forall p :: p in includes1 <==> p in includes2
    ensures FilesToUpload(tree, includes1, excludes) == FilesToUpload(tree, includes2, excludes)
  {
  }

  /** Including `*` selects every regular file not excluded, at any depth. */
  lemma StarSelectsEveryFile(tree: Tree, excludes: seq<string>)
    ensures FilesToUpload(tree, [[STAR]], excludes) == set p | p in RegularFiles(tree) && !IsExcluded(p, excludes)
  {
    forall e | e in tree
      ensures MatchesSome(e.path, [[STAR]])
    {
      StarMatchesEveryPath(e.path);
    }
  }

  /** A tree without regular files (an empty source directory) yields no files. */
  lemma NoRegularFilesNothingToUpload(tree: Tree, includes: seq<string>, excludes: seq<string>)
    requires RegularFiles(tree) == {}
    ensures FilesToUpload(tree, includes, excludes) == {}
  {
  }
}
