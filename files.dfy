/**
 * The file system the configuration loader and the sysfs filter read, as a value: the
 * readable files and their contents, the paths whose read fails for another reason than
 * not existing, and the answer `filepath.Glob` gives for each pattern.
 */
module Files {
  import opened Wrappers
  import opened Text
  import opened Seqs

  datatype Error =
    | NotExist(path: string)    // os.IsNotExist(err) holds
    | ReadFailed(path: string)  // any other read error
    | BadPattern(pattern: string)
    | Decode(message: string)   // a YAML decoding error

  datatype Tree = Tree(
    files: map<string, string>,
    unreadable: set<string>,
    globs: map<string, Result<seq<string>, Error>>)

  /** `ioutil.ReadFile(p)`. */
  function ReadFile(t: Tree, p: string): (r: Result<string, Error>)
    ensures r.Success? <==> p in t.files && p !in t.unreadable
    ensures r.Success? ==> r.value == t.files[p]
    ensures r.Failure? ==> (r.error.NotExist? <==> p !in t.files && p !in t.unreadable)
  {
    if p in t.unreadable then Failure(ReadFailed(p))
    else if p in t.files then Success(t.files[p])
    else Failure(NotExist(p))
  }

  /** `filepath.Glob(pattern)`: a pattern nothing is recorded for matches no file. */
  function Glob(t: Tree, pattern: string): Result<seq<string>, Error>
  {
    if pattern in t.globs then t.globs[pattern] else Success([])
  }

  /** `filepath.Join(a, b)` on clean elements: empty elements are dropped. */
  function JoinPath(a: string, b: string): string
  {
    if a == [] then b else if b == [] then a else a + "/" + b
  }

  /** s without its trailing '/' characters. */
  function TrimTrailingSlashes(s: string): (r: string)
    ensures |r| <= |s| && r == s[..|r|] && (forall i :: |r| <= i < |s| ==> s[i] == '/')
    ensures r == [] || r[|r| - 1] != '/'
  {
    if s != [] && s[|s| - 1] == '/' then TrimTrailingSlashes(s[..|s| - 1]) else s
  }

  /** What follows the last '/' of s (all of s when it has none). */
  function AfterLastSlash(s: string): (r: string)
    ensures |r| <= |s| && r == s[|s| - |r|..] && '/' !in r
    ensures |r| < |s| ==> s[|s| - |r| - 1] == '/'
  {
    if s == [] then []
    else if s[|s| - 1] == '/' then []
    else AfterLastSlash(s[..|s| - 1]) + [s[|s| - 1]]
  }

  /**
   * `filepath.Base(p)`: the last element of p once trailing slashes are removed; "." for
   * the empty path and "/" for a path made only of slashes.
   */
  function Base(p: string): (r: string)
    ensures r != []
    ensures r == "/" || '/' !in r
    ensures p != [] && '/' !in p ==> r == p
  {
    if p == [] then "."
    else
      var q := TrimTrailingSlashes(p);
      if q == [] then "/" else AfterLastSlash(q)
  }

  /** The base of dir + "/" + name is name, for an element name without '/'. */
  lemma BaseOfJoin(dir: string, name: string)
    requires name != [] && '/' !in name
    ensures Base(dir + "/" + name) == name
  {
    var p := dir + "/" + name;
    assert p[|p| - 1] == name[|name| - 1];
    assert TrimTrailingSlashes(p) == p;
    AfterSlashSuffix(dir + "/", name);
  }

  lemma {:induction false} AfterSlashSuffix(d: string, name: string)
    requires d != [] && d[|d| - 1] == '/' && '/' !in name
    ensures AfterLastSlash(d + name) == name
    decreases |name|
  {
    if name == [] {
      assert d + name == d;
    } else {
      var p := d + name;
      assert p[..|p| - 1] == d + name[..|name| - 1];
      AfterSlashSuffix(d, name[..|name| - 1]);
      assert name[..|name| - 1] + [name[|name| - 1]] == name;
    }
  }

  /** AfterLastSlash distributes over a suffix without '/'. */
  lemma {:induction false} AfterLastSlashSuffix(g: string, s: string)
    requires '/' !in s
    ensures AfterLastSlash(g + s) == AfterLastSlash(g) + s
    decreases |s|
  {
    if s == [] {
      AppendEmpty(g);
    } else {
      AfterLastSlashSuffix(g, s[..|s| - 1]);
      AppendInit(g, s);
      InitLast(s);
    }
  }

  /** The ".yaml" extension holds no '/'. */
  lemma YamlHasNoSlash()
    ensures '/' !in ".yaml"
  {
  }
}
