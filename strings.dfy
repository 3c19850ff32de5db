/** Path and text helpers used when naming files and store keys. */
module Strings {

  /** `s` begins with `prefix` (S3's key-prefix match). */
  predicate HasPrefix(s: string, prefix: string)
  {
    |prefix| <= |s| && s[..|prefix|] == prefix
  }

  /** `s` ends with `suffix`. */
  predicate HasSuffix(s: string, suffix: string)
  {
    |suffix| <= |s| && s[|s| - |suffix|..] == suffix
  }

  /**
   * The part of `path` after its last '/': `os.path.basename(path)` for a
   * POSIX path, and equally `path.split('/')[-1]`.
   */
  function LastSegment(path: string): (r: string)
    ensures HasSuffix(path, r)
    ensures '/' !in r
    ensures |r| < |path| ==> path[|path| - |r| - 1] == '/'
  {
    if path == [] || path[|path| - 1] == '/' then []
    else LastSegment(path[..|path| - 1]) + [path[|path| - 1]]
  }

  /** The three properties of `LastSegment` single out one string. */
  lemma LastSegmentUnique(path: string, r: string)
    requires HasSuffix(path, r)
    requires '/' !in r
    requires |r| < |path| ==> path[|path| - |r| - 1] == '/'
    ensures r == LastSegment(path)
  {
    var s := LastSegment(path);
    assert |r| == |s|;
  }

  /** A key `dir + "/" + name` whose name has no '/' has that name as its last segment. */
  lemma LastSegmentAfterSlash(dir: string, name: string)
    requires '/' !in name
    ensures LastSegment(dir + "/" + name) == name
  {
    var path := dir + "/" + name;
    assert path[|path| - |name|..] == name;
    assert path[|path| - |name| - 1] == '/';
    LastSegmentUnique(path, name);
  }

  predicate IsUpper(c: char)
  {
    'A' <= c <= 'Z'
  }

  /** Python's `str.lower()` on one character, for ASCII letters. */
  function LowerChar(c: char): (d: char)
    ensures !IsUpper(d)
    ensures IsUpper(c) ==> d as int == c as int + 32
    ensures !IsUpper(c) ==> d == c
  {
    if IsUpper(c) then (c as int + 32) as char else c
  }

  /** Python's `str.lower()` for ASCII text: upper-case letters become lower-case, everything else stays. */
  function Lower(s: string): (r: string)
    ensures |r| == |s|
    ensures forall i :: 0 <= i < |s| ==> !IsUpper(r[i])
    ensures forall i :: 0 <= i < |s| && !IsUpper(s[i]) ==> r[i] == s[i]
    ensures forall i :: 0 <= i < |s| && IsUpper(s[i]) ==> r[i] as int == s[i] as int + 32
  {
    seq(|s|, i requires 0 <= i < |s| => LowerChar(s[i]))
  }
}
