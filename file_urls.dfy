/** `urlFor`: the URL the file reader opens for a path named in a test,
    resolving a relative path against the directory of the test case file. */
module FileUrls {
  import opened Wrappers
  import opened Seqs

  const URL_PFX := "file://"

  /** `toLowerCase` on one character, for the ASCII letters. A character
      outside ASCII lowercases either to one character that is not in
      `file://`, or to several (U+0130 gives `i` and U+0307); the prefix is
      cut to seven characters before lowercasing, so the latter makes it
      longer than `file://`. For the comparison below this therefore agrees
      with the full Unicode mapping. */
  function LowerChar(c: char): char
  {
    if 'A' <= c <= 'Z' then (c as int + 32) as char else c
  }

  /** `s.toLowerCase()` as far as it matters here. */
  function Lower(s: string): (r: string)
    ensures |r| == |s|
    ensures forall i :: 0 <= i < |s| ==> r[i] == LowerChar(s[i])
  {
    seq(|s|, i requires 0 <= i < |s| => LowerChar(s[i]))
  }

  /** `s.substring(0, n)` for `n >= 0`: at most the first `n` characters. */
  function Prefix(s: string, n: nat): (r: string)
    ensures |r| == if n <= |s| then n else |s|
    ensures r <= s
  {
    if n <= |s| then s[..n] else s
  }

  /** `s.indexOf(c)`, `-1` when `c` does not occur; searching from `from`. */
  function IndexOfFrom(s: string, c: char, from: nat): (r: int)
    requires from <= |s|
    ensures r == -1 || from <= r < |s|
    ensures r == -1 <==> forall j :: from <= j < |s| ==> s[j] != c
    ensures r != -1 ==> s[r] == c && forall j :: from <= j < r ==> s[j] != c
    decreases |s| - from
  {
    if from == |s| then -1
    else if s[from] == c then from
    else IndexOfFrom(s, c, from + 1)
  }

  /** `s.lastIndexOf(c)` over the first `n` characters, `-1` when `c` does
      not occur there. */
  function LastIndexOfBelow(s: string, c: char, n: nat): (r: int)
    requires n <= |s|
    ensures -1 <= r < n
    ensures r == -1 <==> forall j :: 0 <= j < n ==> s[j] != c
    ensures r != -1 ==> s[r] == c && forall j :: r < j < n ==> s[j] != c
  {
    if n == 0 then -1
    else if s[n - 1] == c then n - 1
    else LastIndexOfBelow(s, c, n - 1)
  }

  /** `path.replace("\\", "/")` as standard ECMAScript reads it: a string
      pattern, and the third argument ignored, so only the first backslash
      is replaced. */
  function ReplaceFirstBackslash(path: string): (r: string)
    ensures |r| == |path|
  {
    var i := IndexOfFrom(path, '\\', 0);
    if i == -1 then path else path[..i] + "/" + path[i + 1..]
  }

  /** The replacement of every backslash by a slash. */
  function ReplaceBackslashes(path: string): (r: string)
    ensures |r| == |path|
    ensures '\\' !in r
    ensures forall i :: 0 <= i < |path| ==> r[i] == if path[i] == '\\' then '/' else path[i]
  {
    seq(|path|, i requires 0 <= i < |path| => if path[i] == '\\' then '/' else path[i])
  }

  /** `path.substr(0, path.lastIndexOf("/"))`: the part before the last
      slash, and the empty string when there is no slash (a negative length
      gives the empty string). */
  function Dir(path: string): (d: string)
    ensures d <= path
    ensures '/' in path ==> |d| < |path| && path[|d|] == '/' && '/' !in path[|d| + 1..]
    ensures '/' !in path ==> d == ""
  {
    var i := LastIndexOfBelow(path, '/', |path|);
    if i == -1 then "" else path[..i]
  }

  /** `urlFor` with the backslash replacement supplied: `testCaseFile` is the
      test case's `file.path`, `None` when the test case has no file, in which
      case reading its `path` throws. */
  function UrlForWith(filepath: string, testCaseFile: Option<string>, normalize: string -> string): Result<string>
  {
    if StartsWith(filepath, "http") then Return(filepath)
    else if Lower(Prefix(filepath, |URL_PFX|)) == URL_PFX then Return(filepath)
    else if testCaseFile == None then Throw(TypeError)
    else Return(URL_PFX + Dir(normalize(testCaseFile.value)) + "/" + filepath)
  }

  /** `urlFor` as standard ECMAScript runs it. */
  function UrlForAsWritten(filepath: string, testCaseFile: Option<string>): Result<string>
  {
    UrlForWith(filepath, testCaseFile, ReplaceFirstBackslash)
  }

  /** `urlFor` with every backslash of a Windows path turned into a slash. */
  function UrlFor(filepath: string, testCaseFile: Option<string>): Result<string>
  {
    UrlForWith(filepath, testCaseFile, ReplaceBackslashes)
  }

  /** The three cases of `urlFor`, whichever backslash replacement it uses
      (so for `UrlForAsWritten` and `UrlFor` alike): `http` paths and
      `file://` paths in any letter case pass through, relative paths are
      placed in the directory of the normalised test case file, and without a
      file they throw. */
  lemma UrlForCases(filepath: string, testCaseFile: Option<string>, normalize: string -> string)
    ensures StartsWith(filepath, "http") ==> UrlForWith(filepath, testCaseFile, normalize) == Return(filepath)
    ensures |filepath| >= 7 && Lower(filepath[..7]) == "file://" ==>
      UrlForWith(filepath, testCaseFile, normalize) == Return(filepath)
    ensures !StartsWith(filepath, "http") && !(|filepath| >= 7 && Lower(filepath[..7]) == "file://") ==>
      UrlForWith(filepath, testCaseFile, normalize) ==
        if testCaseFile == None then Throw(TypeError)
        else Return("file://" + Dir(normalize(testCaseFile.value)) + "/" + filepath)
  {
    if |filepath| < 7 {
      assert |Lower(Prefix(filepath, 7))| < 7;
    }
  }

  /** A resolved URL is a `file://` URL, so resolving it again changes
      nothing, whichever backslash replacement is used. */
  lemma UrlForIdempotent(filepath: string, testCaseFile: Option<string>, normalize: string -> string)
    requires UrlForWith(filepath, testCaseFile, normalize).Return?
    ensures var url := UrlForWith(filepath, testCaseFile, normalize).value;
      UrlForWith(url, testCaseFile, normalize) == Return(url)
  {
    var url := UrlForWith(filepath, testCaseFile, normalize).value;
    if url != filepath {
      assert url[..7] == URL_PFX;
      assert Lower(Prefix(url, 7)) == URL_PFX;
    }
  }

  /** A relative path lands in the test case file's directory: the URL is
      `file://`, the directory, a slash and the path, and the directory is
      the normalised file path up to its last slash. */
  lemma UrlForRelative(filepath: string, file: string)
    requires !StartsWith(filepath, "http") && !(|filepath| >= 7 && Lower(filepath[..7]) == "file://")
    ensures var url := UrlFor(filepath, Some(file)).value;
      var d := Dir(ReplaceBackslashes(file));
      && url == "file://" + d + "/" + filepath
      && d <= ReplaceBackslashes(file)
      && '\\' !in d
  {
    UrlForCases(filepath, Some(file), ReplaceBackslashes);
  }

  /** The last occurrence is the one with none after it. */
  lemma LastIndexAt(s: string, c: char, k: nat)
    requires k < |s| && s[k] == c && forall j :: k < j < |s| ==> s[j] != c
    ensures LastIndexOfBelow(s, c, |s|) == k
  {
    assert LastIndexOfBelow(s, c, |s|) != -1;
  }

  /** On a Windows path with more than one backslash the written code keeps
      all but the first, and the path resolves against the wrong directory. */
  lemma BackslashExample()
    ensures UrlForAsWritten("d.csv", Some("C:\\a\\t.html")) == Return("file://" + "C:" + "/" + "d.csv")
  {
    var p := "C:\\a\\t.html";
    assert IndexOfFrom(p, '\\', 0) == 2 by {
      assert p[2] == '\\' && p[0] != '\\' && p[1] != '\\';
    }
    var once := ReplaceFirstBackslash(p);
    assert once == "C:/a\\t.html";
    LastIndexAt(once, '/', 2);
    assert Dir(once) == "C:";
    NotFileScheme();
    assert UrlForAsWritten("d.csv", Some(p)) == Return(URL_PFX + Dir(once) + "/" + "d.csv");
  }

  /** With every backslash replaced, the same path resolves against the
      directory of the test case file. */
  lemma BackslashesReplaced()
    ensures UrlFor("d.csv", Some("C:\\a\\t.html")) == Return("file://" + "C:/a" + "/" + "d.csv")
  {
    var all := ReplaceBackslashes("C:\\a\\t.html");
    assert all == "C:/a/t.html";
    LastIndexAt(all, '/', 4);
    assert Dir(all) == "C:/a";
    NotFileScheme();
    assert UrlFor("d.csv", Some("C:\\a\\t.html")) == Return(URL_PFX + Dir(all) + "/" + "d.csv");
  }

  /** `d.csv` is neither an `http` nor a `file://` path. */
  lemma NotFileScheme()
    ensures !StartsWith("d.csv", "http") && Lower(Prefix("d.csv", |URL_PFX|)) != URL_PFX
  {
    assert Lower(Prefix("d.csv", 7))[0] == 'd';
  }
}
