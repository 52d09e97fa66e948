/**
 * Path strings as the pipeline sees them: `/`-separated text, never normalised.
 * This module holds the media filter (pathlib's `suffix`, lower-cased, looked up in
 * MEDIA_EXTENSIONS) and the derivation of the transcript path beside a media file.
 */
module Paths {

  /** The eight supported extensions, in the order the source lists them. */
  const MediaExtensions: seq<string> := [".mp3", ".wav", ".mp4", ".mkv", ".mov", ".flv", ".aac", ".m4a"]

  /** Index of the last occurrence of `c` among the first `k` characters of `s`, or -1. */
  function LastIndex(s: string, c: char, k: nat): (r: int)
    requires k <= |s|
    ensures -1 <= r < k
    decreases k
  {
    if k == 0 then -1
    else if s[k - 1] == c then k - 1
    else LastIndex(s, c, k - 1)
  }

  /** Index of the last occurrence of `c` in `s`, or -1 when there is none (Python's `str.rfind`). */
  function RFind(s: string, c: char): (r: int)
    ensures -1 <= r < |s|
  {
    LastIndex(s, c, |s|)
  }

  /** The final component: the text after the last `/` (pathlib's `name`, `os.path.basename`). */
  function Name(p: string): string
  {
    p[RFind(p, '/') + 1..]
  }

  /** Everything before the final component, its trailing `/` included: the parent directory. */
  function DirPrefix(p: string): string
  {
    p[..RFind(p, '/') + 1]
  }

  /** The scan finds the last occurrence among the first `k` characters, if there is one. */
  lemma {:induction false} LastIndexSpec(s: string, c: char, k: nat)
    requires k <= |s|
    ensures LastIndex(s, c, k) >= 0 ==> s[LastIndex(s, c, k)] == c
    ensures forall j :: LastIndex(s, c, k) < j < k ==> s[j] != c
    decreases k
  {
    if k > 0 && s[k - 1] != c {
      LastIndexSpec(s, c, k - 1);
    }
  }

  /** `RFind` finds the last occurrence: `c` is there and nowhere after it, or nowhere at all. */
  lemma RFindSpec(s: string, c: char)
    ensures RFind(s, c) >= 0 ==> s[RFind(s, c)] == c
    ensures forall j :: RFind(s, c) < j < |s| ==> s[j] != c
  {
    LastIndexSpec(s, c, |s|);
  }

  /** The final component has no `/`. */
  lemma NameHasNoSlash(p: string)
    ensures '/' !in Name(p)
  {
    RFindSpec(p, '/');
  }

  /** The final component is a tail of the path. */
  lemma NameIsTail(p: string)
    ensures |Name(p)| <= |p| && Name(p) == p[|p| - |Name(p)|..]
  {
  }

  /** A final component shorter than the path comes right after a `/`. */
  lemma SlashBeforeName(p: string)
    ensures |Name(p)| < |p| ==> p[|p| - |Name(p)| - 1] == '/'
  {
    RFindSpec(p, '/');
  }

  /** The path is its directory prefix followed by its final component. */
  lemma NameSplits(p: string)
    ensures p == DirPrefix(p) + Name(p)
  {
  }

  /** The directory prefix is empty or ends in `/`. */
  lemma DirPrefixEndsInSlash(p: string)
    ensures DirPrefix(p) == [] || DirPrefix(p)[|DirPrefix(p)| - 1] == '/'
  {
    RFindSpec(p, '/');
  }

  /**
   * The final component is the longest tail of the path without a `/`, and the path is
   * its directory prefix (empty, or ending in `/`) followed by it.
   */
  lemma NameShape(p: string)
    ensures '/' !in Name(p)
    ensures |Name(p)| <= |p| && Name(p) == p[|p| - |Name(p)|..]
    ensures |Name(p)| < |p| ==> p[|p| - |Name(p)| - 1] == '/'
    ensures p == DirPrefix(p) + Name(p)
    ensures DirPrefix(p) == [] || DirPrefix(p)[|DirPrefix(p)| - 1] == '/'
  {
    NameHasNoSlash(p);
    NameIsTail(p);
    SlashBeforeName(p);
    NameSplits(p);
    DirPrefixEndsInSlash(p);
  }

  /**
   * pathlib's `suffix` of a final component: the text from its last `.`, but only when
   * that dot is neither the first nor the last character; otherwise the empty string.
   */
  function Suffix(name: string): string
  {
    var i := RFind(name, '.');
    if 0 < i < |name| - 1 then name[i..] else ""
  }

  /** ASCII lower-casing of one character. */
  function LowerChar(c: char): char
  {
    if 'A' <= c <= 'Z' then (c as int + 32) as char else c
  }

  /** ASCII lower-casing of a string, character by character. */
  function Lower(s: string): (r: string)
    ensures |r| == |s|
  {
    seq(|s|, i requires 0 <= i < |s| => LowerChar(s[i]))
  }

  /** `Path(p).suffix.lower() in MEDIA_EXTENSIONS`. */
  predicate IsMedia(p: string)
  {
    Lower(Suffix(Name(p))) in MediaExtensions
  }

  /**
   * An independent reading of the filter: the path ends, ignoring ASCII case, with the
   * extension `e`, and at least one character of the file name comes before it.
   */
  predicate EndsWithExtension(p: string, e: string)
  {
    |e| < |p| && Lower(p[|p| - |e|..]) == e && p[|p| - |e| - 1] != '/'
  }

  /** `Path(p).parent / (Path(p).name + '.txt')`: the transcript written for `p`. */
  function ArtifactPath(p: string): (a: string)
    ensures a == p + ".txt"
  {
    NameSplits(p);
    DirPrefix(p) + (Name(p) + ".txt")
  }

  lemma LowerCharKeepsDot(c: char)
    ensures LowerChar(c) == '.' <==> c == '.'
    ensures LowerChar(c) == '/' <==> c == '/'
  {
  }

  lemma ExtensionShape(e: string)
    requires e in MediaExtensions
    ensures |e| == 4 && e[0] == '.'
    ensures forall k :: 1 <= k < 4 ==> e[k] != '.' && e[k] != '/'
  {
  }

  /** RFind's contract pins its result down: a `c` with no `c` after it is the last one. */
  lemma RFindAt(s: string, c: char, i: int)
    requires 0 <= i < |s| && s[i] == c
    requires forall j :: i < j < |s| ==> s[j] != c
    ensures RFind(s, c) == i
  {
    RFindSpec(s, c);
  }

  /** A tail of `p` free of `/` lies inside the final component. */
  lemma NameCovers(p: string, k: nat)
    requires k <= |p|
    requires forall j :: k <= j < |p| ==> p[j] != '/'
    ensures |Name(p)| >= |p| - k
  {
    NameIsTail(p);
    SlashBeforeName(p);
  }

  /** One half of IsMediaIff: an accepted path ends with an extension after a name character. */
  lemma MediaHasExtension(p: string) returns (e: string)
    requires IsMedia(p)
    ensures e in MediaExtensions && EndsWithExtension(p, e)
  {
    var n := Name(p);
    NameIsTail(p);
    NameHasNoSlash(p);
    var i := RFind(n, '.');
    var sfx := Suffix(n);
    assert 0 < i < |n| - 1 && sfx == n[i..];
    e := Lower(sfx);
    ExtensionShape(e);
    assert |sfx| == 4 && i == |n| - 4;
    var k := |p| - |n|;
    assert p[k..] == n;
    assert p[|p| - 4..] == sfx;
    assert p[|p| - 5] == n[i - 1];
  }

  /** The last four characters of a path ending with an extension: one dot, then no dot or `/`. */
  lemma ExtensionTail(p: string, e: string)
    requires e in MediaExtensions && EndsWithExtension(p, e)
    ensures |p| >= 5 && p[|p| - 4] == '.'
    ensures forall j :: |p| - 4 < j < |p| ==> p[j] != '.'
    ensures forall j :: |p| - 5 <= j < |p| ==> p[j] != '/'
  {
    ExtensionShape(e);
    var t := p[|p| - 4..];
    var lt := Lower(t);
    forall k | 0 <= k < 4
      ensures LowerChar(p[|p| - 4 + k]) == e[k]
    {
      assert lt[k] == LowerChar(t[k]);
    }
    forall k | 0 <= k < 4
      ensures (p[|p| - 4 + k] == '.') == (e[k] == '.')
      ensures (p[|p| - 4 + k] == '/') == (e[k] == '/')
    {
      LowerCharKeepsDot(p[|p| - 4 + k]);
    }
    forall j | |p| - 5 <= j < |p|
      ensures p[j] != '/'
      ensures j > |p| - 4 ==> p[j] != '.'
    {
      if j > |p| - 5 {
        var k := j - (|p| - 4);
        assert p[j] == p[|p| - 4 + k];
        assert (p[j] == '.') == (e[k] == '.') && (p[j] == '/') == (e[k] == '/');
        assert e[k] != '/' && (k >= 1 ==> e[k] != '.');
      }
    }
  }

  /**
   * A path whose last five characters hold no `/` and whose last four are a dot and
   * three non-dots: its suffix is those last four characters.
   */
  lemma SuffixOfLastFour(p: string)
    requires |p| >= 5 && p[|p| - 4] == '.'
    requires forall j :: |p| - 4 < j < |p| ==> p[j] != '.'
    requires forall j :: |p| - 5 <= j < |p| ==> p[j] != '/'
    ensures Suffix(Name(p)) == p[|p| - 4..]
  {
    var n := Name(p);
    NameIsTail(p);
    NameCovers(p, |p| - 5);
    var m, d := |n|, |p| - |n|;
    assert n[m - 4] == p[d + m - 4];
    forall j | m - 4 < j < m
      ensures n[j] != '.'
    {
      assert n[j] == p[d + j];
    }
    RFindAt(n, '.', m - 4);
    assert n[m - 4..] == p[|p| - 4..];
  }

  /** The other half: a path ending with an extension after a name character is accepted. */
  lemma ExtensionMakesMedia(p: string, e: string)
    requires e in MediaExtensions && EndsWithExtension(p, e)
    ensures IsMedia(p)
  {
    ExtensionTail(p, e);
    SuffixOfLastFour(p);
    assert Lower(Suffix(Name(p))) == e;
  }

  /**
   * The filter accepts exactly the paths that end, ignoring ASCII case, with one of the
   * eight extensions preceded by at least one character of the file name.  So
   * `clip.MP4` passes, while `.mp4` (a dot at the start) and `clip.mp4.txt` do not.
   */
  lemma IsMediaIff(p: string)
    ensures IsMedia(p) <==> exists e :: e in MediaExtensions && EndsWithExtension(p, e)
  {
    if IsMedia(p) {
      var e := MediaHasExtension(p);
    }
    if e :| e in MediaExtensions && EndsWithExtension(p, e) {
      ExtensionMakesMedia(p, e);
    }
  }

  /** An upper-case extension passes the filter. */
  lemma UpperCaseExample()
    ensures IsMedia("videos/clip.MP4")
  {
    var p, n, ext := "videos/clip.MP4", "clip.MP4", ".MP4";
    RFindAt(p, '/', 6);
    assert Name(p) == n;
    RFindAt(n, '.', 4);
    assert Suffix(n) == ext;
    assert forall k :: 0 <= k < 4 ==> LowerChar(ext[k]) == ".mp4"[k];
    assert Lower(ext) == ".mp4";
  }

  /** A name that is only a dot and an extension has no suffix, so it fails the filter. */
  lemma DotFileExample()
    ensures !IsMedia("videos/.mp4")
  {
    var p, n := "videos/.mp4", ".mp4";
    RFindAt(p, '/', 6);
    assert Name(p) == n;
    RFindAt(n, '.', 0);
    assert Suffix(n) == "";
  }

  /** An extension carried only by a directory component does not count. */
  lemma DirectoryExtensionExample()
    ensures !IsMedia("videos.mp4/clip")
  {
    var p, n := "videos.mp4/clip", "clip";
    RFindAt(p, '/', 10);
    assert Name(p) == n;
    RFindSpec(n, '.');
    assert Suffix(n) == "";
  }

  lemma TxtNotExtension()
    ensures ".txt" !in MediaExtensions
  {
  }

  lemma LowerTxt()
    ensures Lower(".txt") == ".txt"
  {
    var t := ".txt";
    assert forall i :: 0 <= i < 4 ==> LowerChar(t[i]) == t[i];
  }

  /** Nothing whose name ends in `.txt`, in any case, passes the filter. */
  lemma TxtNeverMedia(p: string)
    requires |p| >= 4 && Lower(p[|p| - 4..]) == ".txt"
    ensures !IsMedia(p)
  {
    IsMediaIff(p);
    TxtNotExtension();
    if e :| e in MediaExtensions && EndsWithExtension(p, e) {
      ExtensionShape(e);
    }
  }

  /** The scan of a prefix agrees with the scan of the whole string up to that point. */
  lemma {:induction false} LastIndexPrefix(s: string, u: string, c: char, k: nat)
    requires k <= |s| <= |u| && u[..|s|] == s
    ensures LastIndex(u, c, k) == LastIndex(s, c, k)
    decreases k
  {
    if k > 0 {
      assert u[k - 1] == u[..|s|][k - 1];
      LastIndexPrefix(s, u, c, k - 1);
    }
  }

  /** Characters other than `c` between `m` and `k` do not move the last occurrence. */
  lemma {:induction false} LastIndexSkip(u: string, c: char, m: nat, k: nat)
    requires m <= k <= |u|
    requires forall j :: m <= j < k ==> u[j] != c
    ensures LastIndex(u, c, k) == LastIndex(u, c, m)
    decreases k
  {
    if k > m {
      LastIndexSkip(u, c, m, k - 1);
    }
  }

  /** Appending text without `c` keeps the last occurrence of `c` where it was. */
  lemma RFindAppend(s: string, t: string, c: char)
    requires c !in t
    ensures RFind(s + t, c) == RFind(s, c)
  {
    var u := s + t;
    forall j | |s| <= j < |u|
      ensures u[j] != c
    {
      assert u[j] == t[j - |s|];
    }
    LastIndexSkip(u, c, |s|, |u|);
    assert u[..|s|] == s;
    LastIndexPrefix(s, u, c, |s|);
  }

  /** The transcript sits in the directory of its media file, named after it plus `.txt`. */
  lemma ArtifactBesideSource(p: string)
    ensures DirPrefix(ArtifactPath(p)) == DirPrefix(p)
    ensures Name(ArtifactPath(p)) == Name(p) + ".txt"
  {
    var ext := ".txt";
    assert ext[0] != '/' && ext[1] != '/' && ext[2] != '/' && ext[3] != '/';
    RFindAppend(p, ext, '/');
    var a, k := p + ext, RFind(p, '/') + 1;
    assert a[..k] == p[..k];
    assert a[k..] == p[k..] + ext;
  }

  /** A transcript never re-enters the pipeline: it fails the media filter. */
  lemma ArtifactNeverMedia(p: string)
    ensures !IsMedia(ArtifactPath(p))
  {
    var a := ArtifactPath(p);
    assert a[|a| - 4..] == ".txt";
    LowerTxt();
    TxtNeverMedia(a);
  }

  /** Distinct media files never share a transcript path. */
  lemma ArtifactInjective(p: string, q: string)
    requires ArtifactPath(p) == ArtifactPath(q)
    ensures p == q
  {
    assert p == ArtifactPath(p)[..|p|];
    assert q == ArtifactPath(q)[..|q|];
  }
}
