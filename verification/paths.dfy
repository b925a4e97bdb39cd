/** Path strings built by `main` and `addTimestampWaterMark`: the input
    directory with a guaranteed trailing slash, and the output file path. */
module Paths {

  /** `strings.HasSuffix(path, "/")`. */
  predicate EndsWithSlash(path: string)
  {
    |path| > 0 && path[|path| - 1] == '/'
  }

  /** The input directory as `main` uses it: a slash is appended unless the
      path already ends with one (the empty path becomes "/"). */
  function NormalizeDir(path: string): (root: string)
    ensures EndsWithSlash(root)
    ensures path <= root && |root| <= |path| + 1
    ensures EndsWithSlash(path) ==> root == path
  {
    if EndsWithSlash(path) then path else path + "/"
  }

  /** Normalising twice is normalising once. */
  lemma NormalizeDirIdempotent(path: string)
    ensures NormalizeDir(NormalizeDir(path)) == NormalizeDir(path)
  {
  }

  /** The sub-directory name, with its own trailing slash. */
  const OutputDirName := "output/"

  /** `rootPath + "output/"`. */
  function OutputDir(root: string): (dir: string)
    ensures root <= dir && EndsWithSlash(dir)
    ensures dir[|root|..] == "output/"
  {
    root + OutputDirName
  }

  /** `outputPath + name`: the file written for the input file `root + name`. */
  function OutputPath(root: string, name: string): (out: string)
    ensures OutputDir(root) <= out
    ensures out[|OutputDir(root)|..] == name
    ensures out == root + "output/" + name
  {
    OutputDir(root) + name
  }

  /** Different input names under one root give different output files. */
  lemma OutputPathInjective(root: string, name1: string, name2: string)
    requires OutputPath(root, name1) == OutputPath(root, name2)
    ensures name1 == name2
  {
    assert name1 == OutputPath(root, name1)[|OutputDir(root)|..];
  }

  /** An output file is never one of the input files next to it: an input file
      `root + other` with no slash in `other` cannot be `root + "output/" + name`. */
  lemma OutputNeverAnInput(root: string, name: string, other: string)
    requires '/' !in other
    ensures OutputPath(root, name) != root + other
  {
    var out := OutputPath(root, name);
    if |out| == |root + other| {
      var k := |root| + |OutputDirName| - 1;
      assert out[k] == '/';
      assert (root + other)[k] == other[k - |root|];
      assert other[k - |root|] in other;
    }
  }
}
