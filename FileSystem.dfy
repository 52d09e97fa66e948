/**
 * The filesystem the worker commits transcripts to, as a map from path to content, and
 * the three calls of its two-phase commit: `mkstemp` creates an empty file, the write
 * fills it, `os.replace` renames it onto the transcript path.
 */
module FileSystem {
  import opened Wrappers
  import opened Paths

  type Files = map<string, string>

  /**
   * What `tempfile.mkstemp(dir=parent, suffix='.txt')` hands back for the transcript
   * `target`: a path not yet present, in the same directory, ending in `.txt`.  Its
   * random middle part never holds a `.`, so it never equals `<media name>.txt`.
   */
  predicate IsTempFor(fs: Files, target: string, tmp: string)
  {
    && tmp !in fs
    && tmp != target
    && DirPrefix(tmp) == DirPrefix(target)
    && |tmp| >= 4 && tmp[|tmp| - 4..] == ".txt"
  }

  /** `path` holds the same thing, or is absent, in both filesystems. */
  predicate SameAt(a: Files, b: Files, path: string)
  {
    (path in a <==> path in b) && (path in a ==> a[path] == b[path])
  }

  /** `mkstemp`: the new file exists and is empty. */
  function CreateEmpty(fs: Files, path: string): Files
  {
    fs[path := ""]
  }

  /** Writing `text` through the descriptor and closing it. */
  function WriteText(fs: Files, path: string, text: string): Files
  {
    fs[path := text]
  }

  /** `os.replace(src, dst)`: fails when `src` is missing, else moves its content onto `dst`. */
  function Replace(fs: Files, src: string, dst: string): Option<Files>
  {
    if src in fs then Some((fs - {src})[dst := fs[src]]) else None
  }

  /**
   * The replace moves the content and touches nothing else: `dst` ends up with what `src`
   * held, `src` is gone, every other path is as before; a missing `src` is an error.
   */
  lemma ReplaceMoves(fs: Files, src: string, dst: string)
    ensures Replace(fs, src, dst).None? <==> src !in fs
    ensures src in fs ==>
              var after := Replace(fs, src, dst).value;
              && dst in after && after[dst] == fs[src]
              && (src != dst ==> src !in after)
              && forall q :: q != src && q != dst ==> SameAt(fs, after, q)
  {
  }

  /**
   * The two-phase commit of `text` onto `target` through a fresh temporary `tmp`: while
   * the temporary is created and written, `target` keeps whatever it held (absent or
   * complete, never partial); after the replace, `target` holds exactly `text`, the
   * temporary is gone, and nothing else differs from the filesystem before the commit.
   */
  lemma CommitPhases(fs: Files, tmp: string, target: string, text: string)
    requires tmp !in fs && tmp != target
    ensures SameAt(fs, CreateEmpty(fs, tmp), target)
    ensures SameAt(fs, WriteText(CreateEmpty(fs, tmp), tmp, text), target)
    ensures Replace(WriteText(CreateEmpty(fs, tmp), tmp, text), tmp, target) == Some(fs[target := text])
    ensures tmp !in fs[target := text]
  {
    var written := WriteText(CreateEmpty(fs, tmp), tmp, text);
    var after := Replace(written, tmp, target).value;
    assert after == fs[target := text] by {
      assert after.Keys == fs.Keys + {target};
      forall q | q in after
        ensures after[q] == fs[target := text][q]
      {
      }
    }
  }

  /** A temporary transcript never passes the media filter, so a scan never picks it up. */
  lemma TempNeverMedia(fs: Files, target: string, tmp: string)
    requires IsTempFor(fs, target, tmp)
    ensures !IsMedia(tmp)
  {
    LowerTxt();
    TxtNeverMedia(tmp);
  }
}
