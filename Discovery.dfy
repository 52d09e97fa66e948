/**
 * How media files are discovered: the watcher's creation-event filter
 * (`MediaFileHandler.on_created`) and the suffix filter of the initial scan
 * (the first loop of `process_existing_files`).
 */
module Discovery {
  import opened Wrappers
  import opened Paths

  /**
   * A filesystem entry as the watcher reports a creation (`event.src_path`,
   * `event.is_directory`) or as the recursive scan lists it.
   */
  datatype Entry = Entry(path: string, isDirectory: bool)

  /** `on_created`: the path the handler emits for enqueueing, if any. */
  function Detected(e: Entry): (r: Option<string>)
  {
    if !e.isDirectory && IsMedia(e.path) then Some(e.path) else None
  }

  /**
   * The watcher emits a path exactly for a created regular file whose name ends, in
   * any ASCII case, with a supported extension after at least one name character;
   * it emits the path unchanged.
   */
  lemma DetectedIff(e: Entry)
    ensures Detected(e).Some? <==>
            !e.isDirectory && exists x :: x in MediaExtensions && EndsWithExtension(e.path, x)
    ensures Detected(e).Some? ==> Detected(e).value == e.path
  {
    IsMediaIff(e.path);
  }

  /** A transcript or temporary `.txt` file being created never reaches the queue. */
  lemma DetectedNeverArtifact(p: string, isDirectory: bool)
    ensures Detected(Entry(ArtifactPath(p), isDirectory)) == None
  {
    ArtifactNeverMedia(p);
  }

  /** The paths of the listed entries that `accept` admits, in listing order. */
  function Select(scan: seq<Entry>, accept: string -> bool): seq<string>
  {
    if scan == [] then []
    else
      var last := scan[|scan| - 1];
      Select(scan[..|scan| - 1], accept) + (if accept(last.path) then [last.path] else [])
  }

  /**
   * The scan's selection, in scan order: the paths of the listed entries that pass the
   * suffix filter.  Unlike the watcher it never looks at `isDirectory`.
   */
  function MediaFiles(scan: seq<Entry>): seq<string>
  {
    Select(scan, IsMedia)
  }

  /** The first loop of `process_existing_files`: collect the qualifying paths in order. */
  method CollectMediaFiles(scan: seq<Entry>) returns (mediaFiles: seq<string>)
    ensures mediaFiles == MediaFiles(scan)
  {
    mediaFiles := [];
    for i := 0 to |scan|
      invariant mediaFiles == MediaFiles(scan[..i])
    {
      assert scan[..i + 1][..i] == scan[..i];
      if IsMedia(scan[i].path) {
        mediaFiles := mediaFiles + [scan[i].path];
      }
    }
    assert scan[..|scan|] == scan;
  }

  /** Selection distributes over concatenation of listings: listing order is kept. */
  lemma {:induction false} SelectAppend(a: seq<Entry>, b: seq<Entry>, accept: string -> bool)
    ensures Select(a + b, accept) == Select(a, accept) + Select(b, accept)
    decreases |b|
  {
    if b == [] {
      assert a + b == a;
    } else {
      var b' := b[..|b| - 1];
      assert (a + b)[..|a + b| - 1] == a + b';
      SelectAppend(a, b', accept);
    }
  }

  /** A path is selected exactly when some listed entry has it and `accept` admits it. */
  lemma {:induction false} SelectMembers(scan: seq<Entry>, accept: string -> bool, x: string)
    ensures x in Select(scan, accept) <==> accept(x) && exists i :: 0 <= i < |scan| && scan[i].path == x
  {
    if scan != [] {
      var init := scan[..|scan| - 1];
      SelectMembers(init, accept, x);
      if x in Select(init, accept) {
        var i :| 0 <= i < |init| && init[i].path == x;
        assert scan[i].path == x;
      }
      if i :| 0 <= i < |scan| && scan[i].path == x {
        if i < |init| {
          assert init[i].path == x;
        }
      }
    }
  }

  /** Scan order is kept: the selection of a listing is the selections of its parts, joined. */
  lemma MediaFilesAppend(a: seq<Entry>, b: seq<Entry>)
    ensures MediaFiles(a + b) == MediaFiles(a) + MediaFiles(b)
  {
    SelectAppend(a, b, IsMedia);
  }

  /** A path is selected exactly when some listed entry has it and it passes the filter. */
  lemma MediaFilesMembers(scan: seq<Entry>, x: string)
    ensures x in MediaFiles(scan) <==> IsMedia(x) && exists i :: 0 <= i < |scan| && scan[i].path == x
  {
    SelectMembers(scan, IsMedia, x);
  }

  /** Every selected path passes the filter, so no transcript is ever selected. */
  lemma {:induction false} MediaFilesNoArtifacts(scan: seq<Entry>, q: string)
    ensures ArtifactPath(q) !in MediaFiles(scan)
  {
    MediaFilesMembers(scan, ArtifactPath(q));
    ArtifactNeverMedia(q);
  }

  /**
   * The scan selects a directory whose name looks like a media file, which the
   * watcher would reject: the scan filters on the suffix alone.
   */
  lemma ScanAdmitsMediaNamedDirectory(scan: seq<Entry>, i: nat)
    requires i < |scan| && scan[i].isDirectory && IsMedia(scan[i].path)
    ensures scan[i].path in MediaFiles(scan)
    ensures Detected(scan[i]) == None
  {
    MediaFilesMembers(scan, scan[i].path);
  }
}
