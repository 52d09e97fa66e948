/**
 * The ingestion pipeline behind the window: the shared work queue, the watcher and
 * worker threads, and the window state that the signals update.  Threads and signals
 * are replaced by explicit calls applied one after another: a watcher event is
 * `MainWindow.OnFileCreated`, one turn of the worker's loop is
 * `TranscriptionWorker.RunOnce`, and `MainWindow.RunWorkerIteration` runs such a turn
 * and then delivers its signals to the window's handlers.
 */
module Pipeline {
  import opened Wrappers
  import opened Paths
  import opened Discovery
  import opened StatusTable
  import opened Labels
  import opened FileSystem

  /** `queue.Queue()`: one FIFO of paths, shared by the window and every worker it starts. */
  class WorkQueue {
    var items: seq<string>

    constructor ()
      ensures items == []
    {
      items := [];
    }

    /** `put`: append at the tail. */
    method Put(p: string)
      modifies this
      ensures items == old(items) + [p]
    {
      items := items + [p];
    }

    /** `get(timeout=1)`: remove and return the head, or `None` (`Empty`) on an empty queue. */
    method Get() returns (head: Option<string>)
      modifies this
      ensures old(items) == [] ==> head == None && items == []
      ensures old(items) != [] ==> head == Some(old(items)[0]) && items == old(items)[1..]
    {
      if items == [] {
        head := None;
      } else {
        head := Some(items[0]);
        items := items[1..];
      }
    }
  }

  /** `FileMonitor`: the directory it watches and whether it was asked to stop. */
  class FileMonitor {
    const directory: string
    var interruptionRequested: bool

    constructor (directory: string)
      ensures this.directory == directory && !interruptionRequested
    {
      this.directory := directory;
      interruptionRequested := false;
    }

    /** `stop`: request interruption; the thread halts at its next one-second poll. */
    method Stop()
      modifies this
      ensures interruptionRequested
    {
      interruptionRequested := true;
    }
  }

  /** What `model.transcribe(path)` does: return a text, or raise. */
  datatype Transcript = Transcribed(text: string) | TranscriptionError(reason: string)

  /** How one turn of the worker's loop ended. */
  datatype Iteration =
    | Exited              // the loop is over: `is_stopped` was set, or an exception ended it
    | TimedOut            // `Empty`: nothing arrived within the timeout; the loop goes on
    | Committed(path: string)  // `path` was transcribed and its transcript committed
    | Raised(path: string)     // transcribing `path` raised; the exception ended the loop

  /** `TranscriptionWorker`: the consumer thread. */
  class TranscriptionWorker {
    const queue: WorkQueue
    var isStopped: bool
    /** The thread is inside `run`: it has been started and `run` has not returned. */
    var running: bool

    /** Construction followed by `start()`. */
    constructor (queue: WorkQueue)
      ensures this.queue == queue && !isStopped && running
    {
      this.queue := queue;
      isStopped := false;
      running := true;
    }

    /** `stop`: the flag is checked at the top of the next turn; a turn in progress finishes. */
    method Stop()
      modifies this`isStopped
      ensures isStopped
    {
      isStopped := true;
    }

    /**
     * One turn of `while not self.is_stopped`: pop the head, transcribe it, write the text
     * to the temporary `tmp` beside it and replace the transcript path with it.  Only
     * `Empty` is caught, so a transcription error ends the loop, and the popped path is
     * then lost.  `staged` is the filesystem between the write and the replace.
     */
    method RunOnce(fs: Files, transcribe: string -> Transcript, tmp: string)
      returns (fs': Files, it: Iteration, ghost staged: Files)
      requires running && !isStopped && queue.items != [] ==> IsTempFor(fs, ArtifactPath(queue.items[0]), tmp)
      modifies this`running, queue
      ensures !old(running) || old(isStopped) ==>
                it == Exited && !running && fs' == fs && queue.items == old(queue.items)
      ensures old(running) && !old(isStopped) && old(queue.items) == [] ==>
                it == TimedOut && running && fs' == fs && queue.items == []
      ensures old(running) && !old(isStopped) && old(queue.items) != [] ==>
                var p := old(queue.items)[0];
                && queue.items == old(queue.items)[1..]
                && (transcribe(p).Transcribed? ==>
                      && it == Committed(p) && running
                      && SameAt(fs, staged, ArtifactPath(p)) && staged == fs[tmp := transcribe(p).text]
                      && fs' == fs[ArtifactPath(p) := transcribe(p).text] && tmp !in fs')
                && (transcribe(p).TranscriptionError? ==> it == Raised(p) && !running && fs' == fs)
    {
      staged := fs;
      if !running || isStopped {
        running := false;
        fs', it := fs, Exited;
        return;
      }
      var head := queue.Get();
      if head.None? {
        fs', it := fs, TimedOut;
        return;
      }
      var p := head.value;
      var result := transcribe(p);
      if result.TranscriptionError? {
        running := false;
        fs', it := fs, Raised(p);
        return;
      }
      var target := ArtifactPath(p);
      var created := CreateEmpty(fs, tmp);
      var written := WriteText(created, tmp, result.text);
      staged := written;
      CommitPhases(fs, tmp, target, result.text);
      fs' := Replace(written, tmp, target).value;
      it := Committed(p);
    }
  }

  /** The window's pipeline state: the queue, the file table, the label and the toggle. */
  class MainWindow {
    const queue: WorkQueue
    var table: seq<Row>
    var statusLabel: string
    var isMonitoring: bool
    /** The selected directory; the empty string stands for none (`None` or a cancelled dialog). */
    var directory: string
    var fileMonitor: FileMonitor?
    var transcriptionWorker: TranscriptionWorker?

    /** Every path ever enqueued, in enqueue order. */
    ghost var discovered: seq<string>
    /** How many of them have been taken off the queue. */
    ghost var consumed: nat

    /**
     * The table has one row per enqueued path, in enqueue order; the queue holds exactly
     * the enqueued paths not yet taken, so they are taken in enqueue order; the current
     * threads share the window's queue.
     */
    ghost predicate Valid()
      reads this, queue
    {
      && consumed <= |discovered|
      && queue.items == discovered[consumed..]
      && |table| == |discovered|
      && (forall i :: 0 <= i < |table| ==> table[i].path == discovered[i] && table[i].name == Name(discovered[i]))
      && (transcriptionWorker != null ==> transcriptionWorker.queue == queue)
      && (isMonitoring ==> transcriptionWorker != null && fileMonitor != null)
    }

    constructor ()
      ensures Valid() && fresh(queue)
      ensures queue.items == [] && table == [] && statusLabel == IdleLabel
      ensures !isMonitoring && directory == "" && fileMonitor == null && transcriptionWorker == null
    {
      queue := new WorkQueue();
      table := [];
      statusLabel := IdleLabel;
      isMonitoring := false;
      directory := "";
      fileMonitor := null;
      transcriptionWorker := null;
      discovered := [];
      consumed := 0;
    }

    /**
     * The live `add_file_to_queue` (the later of the two definitions): no check for an
     * existing transcript.  Appends `p` to the queue and one "Waiting" row to the table,
     * leaves every earlier entry alone, then refreshes the label.
     */
    method AddFileToQueue(p: string)
      requires Valid()
      modifies this`table, this`statusLabel, this`discovered, queue
      ensures Valid()
      ensures queue.items == old(queue.items) + [p]
      ensures table == old(table) + [WaitingRow(p)]
      ensures discovered == old(discovered) + [p]
      ensures statusLabel == RefreshedLabel(old(statusLabel), |queue.items|, old(table))
    {
      queue.Put(p);
      discovered := discovered + [p];
      table := table + [WaitingRow(p)];
      AnyTranscribingAppendRow(old(table), p);
      UpdateStatus();
    }

    /**
     * The earlier `add_file_to_queue`, shadowed by the later one and never called: when
     * the transcript already exists nothing changes (the source only logs); otherwise it
     * does exactly what the live one does.
     */
    method AddFileToQueueShadowed(p: string, fs: Files)
      requires Valid()
      modifies this`table, this`statusLabel, this`discovered, queue
      ensures Valid()
      ensures ArtifactPath(p) in fs ==>
                queue.items == old(queue.items) && table == old(table) && statusLabel == old(statusLabel)
      ensures ArtifactPath(p) !in fs ==>
                && queue.items == old(queue.items) + [p]
                && table == old(table) + [WaitingRow(p)]
                && statusLabel == RefreshedLabel(old(statusLabel), |queue.items|, old(table))
    {
      if ArtifactPath(p) !in fs {
        queue.Put(p);
        discovered := discovered + [p];
        table := table + [WaitingRow(p)];
        AnyTranscribingAppendRow(old(table), p);
        UpdateStatus();
      }
    }

    /** `update_status`: report the queue depth unless the queue is empty or a row is transcribing. */
    method UpdateStatus()
      modifies this`statusLabel
      ensures statusLabel == RefreshedLabel(old(statusLabel), |queue.items|, table)
    {
      if |queue.items| > 0 && !AnyTranscribing(table) {
        statusLabel := QueueLabel(|queue.items|);
      }
    }

    /** `update_file_status`: scan the rows in order, set the status of the first storing `p`, stop. */
    method UpdateFileStatus(p: string, status: string)
      modifies this`table
      ensures table == WithStatus(old(table), p, status)
    {
      ghost var rows := table;
      for row := 0 to |table|
        invariant table == rows
        invariant forall j :: 0 <= j < row ==> rows[j].path != p
      {
        if table[row].path == p {
          WithStatusAtMatch(rows, p, status, row);
          table := table[row := table[row].(status := status)];
          break;
        }
      }
      if forall j :: 0 <= j < |rows| ==> rows[j].path != p {
        NoMatchNoChange(rows, p, status);
      }
    }

    /** `on_transcription_started`: mark the file "Transcribing" and name it in the label. */
    method OnTranscriptionStarted(p: string)
      requires Valid()
      modifies this`table, this`statusLabel
      ensures Valid()
      ensures table == WithStatus(old(table), p, Transcribing)
      ensures statusLabel == TranscribingLabel(p)
    {
      UpdateFileStatus(p, Transcribing);
      WithStatusKeepsPaths(old(table), p, Transcribing);
      statusLabel := TranscribingLabel(p);
    }

    /** `on_transcription_finished`: mark the file "Done"; the label shows idle or the queue depth. */
    method OnTranscriptionFinished(p: string)
      requires Valid()
      modifies this`table, this`statusLabel
      ensures Valid()
      ensures table == WithStatus(old(table), p, Done)
      ensures statusLabel == FinishedLabel(|queue.items|)
    {
      UpdateFileStatus(p, Done);
      WithStatusKeepsPaths(old(table), p, Done);
      if queue.items == [] {
        statusLabel := IdleLabel;
      } else {
        statusLabel := QueueLabel(|queue.items|);
      }
    }

    /**
     * `process_existing_files` over the recursive listing `scan` of the directory: collect
     * the paths passing the suffix filter (directories included), then enqueue each, in order.
     */
    method ProcessExistingFiles(scan: seq<Entry>)
      requires Valid()
      modifies this`table, this`statusLabel, this`discovered, queue
      ensures Valid()
      ensures queue.items == old(queue.items) + MediaFiles(scan)
      ensures table == old(table) + WaitingRows(MediaFiles(scan))
      ensures statusLabel ==
                if MediaFiles(scan) == [] || AnyTranscribing(old(table)) then old(statusLabel)
                else QueueLabel(|queue.items|)
    {
      var mediaFiles := CollectMediaFiles(scan);
      EnqueueAll(mediaFiles);
    }

    /**
     * The second loop of `process_existing_files`: `add_file_to_queue` for each collected
     * path in turn.  The label ends as the last refresh left it: unchanged when nothing
     * was added or a row is transcribing, the final queue depth otherwise.
     */
    method EnqueueAll(paths: seq<string>)
      requires Valid()
      modifies this`table, this`statusLabel, this`discovered, queue
      ensures Valid()
      ensures queue.items == old(queue.items) + paths
      ensures table == old(table) + WaitingRows(paths)
      ensures statusLabel ==
                if paths == [] || AnyTranscribing(old(table)) then old(statusLabel)
                else QueueLabel(|queue.items|)
    {
      ghost var q0, t0, l0 := queue.items, table, statusLabel;
      ghost var busy := AnyTranscribing(t0);
      for i := 0 to |paths|
        invariant Valid()
        invariant queue.items == q0 + paths[..i]
        invariant table == t0 + WaitingRows(paths[..i])
        invariant i == 0 || busy ==> statusLabel == l0
        invariant i > 0 && !busy ==> statusLabel == QueueLabel(|queue.items|)
      {
        ghost var prefix := paths[..i];
        AnyTranscribingAppendWaiting(t0, prefix);
        AddFileToQueue(paths[i]);
        assert paths[..i + 1] == prefix + [paths[i]];
        WaitingRowsSnoc(t0, prefix, paths[i]);
      }
      assert paths[..|paths|] == paths;
    }

    /** `select_directory` with the dialog's answer `chosen` and the listing `scan` of it. */
    method SelectDirectory(chosen: string, scan: seq<Entry>)
      requires Valid()
      modifies this`directory, this`table, this`statusLabel, this`discovered, queue
      ensures Valid()
      ensures directory == chosen
      ensures chosen == "" ==>
                queue.items == old(queue.items) && table == old(table) && statusLabel == old(statusLabel)
      ensures chosen != "" ==>
                && queue.items == old(queue.items) + MediaFiles(scan)
                && table == old(table) + WaitingRows(MediaFiles(scan))
                && statusLabel ==
                     if MediaFiles(scan) == [] || AnyTranscribing(old(table)) then old(statusLabel)
                     else QueueLabel(|queue.items|)
    {
      directory := chosen;
      if directory != "" {
        ProcessExistingFiles(scan);
      }
    }

    /** A creation event delivered by the watcher: enqueue it when the handler emits it. */
    method OnFileCreated(e: Entry)
      requires Valid()
      modifies this`table, this`statusLabel, this`discovered, queue
      ensures Valid()
      ensures Detected(e) == None ==>
                queue.items == old(queue.items) && table == old(table) && statusLabel == old(statusLabel)
      ensures Detected(e).Some? ==>
                && queue.items == old(queue.items) + [e.path]
                && table == old(table) + [WaitingRow(e.path)]
                && statusLabel == RefreshedLabel(old(statusLabel), |queue.items|, old(table))
    {
      match Detected(e)
      case Some(p) => AddFileToQueue(p);
      case None =>
    }

    /**
     * `toggle_monitoring`.  While monitoring: ask both threads to stop and show idle.
     * While idle without a directory: nothing (the source only warns).  While idle with
     * a directory: start a new watcher and a new worker on the same, never-cleared queue.
     */
    method ToggleMonitoring()
      requires Valid()
      modifies this`isMonitoring, this`statusLabel, this`fileMonitor, this`transcriptionWorker
      modifies fileMonitor, transcriptionWorker
      ensures Valid()
      ensures queue.items == old(queue.items) && table == old(table)
      ensures old(isMonitoring) ==>
                && !isMonitoring && statusLabel == IdleLabel
                && fileMonitor == old(fileMonitor) && fileMonitor.interruptionRequested
                && transcriptionWorker == old(transcriptionWorker) && transcriptionWorker.isStopped
                && transcriptionWorker.running == old(transcriptionWorker.running)
      ensures !old(isMonitoring) && directory == "" ==>
                && !isMonitoring && statusLabel == old(statusLabel)
                && fileMonitor == old(fileMonitor) && transcriptionWorker == old(transcriptionWorker)
      ensures !old(isMonitoring) && directory != "" ==>
                && isMonitoring && statusLabel == old(statusLabel)
                && fresh(fileMonitor) && fileMonitor.directory == directory && !fileMonitor.interruptionRequested
                && fresh(transcriptionWorker) && transcriptionWorker.queue == queue
                && !transcriptionWorker.isStopped && transcriptionWorker.running
      ensures !old(isMonitoring) && old(fileMonitor) != null ==> unchanged(old(fileMonitor))
      ensures !old(isMonitoring) && old(transcriptionWorker) != null ==> unchanged(old(transcriptionWorker))
    {
      if isMonitoring {
        fileMonitor.Stop();
        transcriptionWorker.Stop();
        isMonitoring := false;
        statusLabel := IdleLabel;
      } else {
        if directory == "" {
          return;
        }
        fileMonitor := new FileMonitor(directory);
        transcriptionWorker := new TranscriptionWorker(queue);
        isMonitoring := true;
      }
    }

    /** `closeEvent`: while monitoring, ask both threads to stop; nothing else changes. */
    method CloseEvent()
      requires Valid()
      modifies fileMonitor, transcriptionWorker
      ensures Valid()
      ensures old(isMonitoring) ==>
                && fileMonitor.interruptionRequested && transcriptionWorker.isStopped
                && transcriptionWorker.running == old(transcriptionWorker.running)
      ensures !old(isMonitoring) && fileMonitor != null ==> unchanged(fileMonitor)
      ensures !old(isMonitoring) && transcriptionWorker != null ==> unchanged(transcriptionWorker)
    {
      if isMonitoring {
        fileMonitor.Stop();
        transcriptionWorker.Stop();
      }
    }

    /**
     * One turn of worker `w` (the current one, or an earlier one not yet at its next turn) on the
     * window's queue, followed by the signals it emitted, handled in order: `started` for
     * the popped path, then `finished` when its transcript was committed.  The path taken
     * is always the earliest enqueued path not taken before.
     */
    method RunWorkerIteration(w: TranscriptionWorker, fs: Files, transcribe: string -> Transcript, tmp: string)
      returns (fs': Files, it: Iteration)
      requires Valid() && w.queue == queue
      requires w.running && !w.isStopped && queue.items != [] ==> IsTempFor(fs, ArtifactPath(queue.items[0]), tmp)
      modifies this`table, this`statusLabel, this`consumed, queue, w`running
      ensures Valid()
      ensures !old(w.running) || old(w.isStopped) ==>
                && it == Exited && !w.running && fs' == fs
                && queue.items == old(queue.items) && consumed == old(consumed)
                && table == old(table) && statusLabel == old(statusLabel)
      ensures old(w.running) && !old(w.isStopped) && old(queue.items) == [] ==>
                && it == TimedOut && w.running && fs' == fs
                && queue.items == [] && consumed == old(consumed)
                && table == old(table) && statusLabel == old(statusLabel)
      ensures old(w.running) && !old(w.isStopped) && old(queue.items) != [] ==>
                var p := old(discovered)[old(consumed)];
                && p == old(queue.items)[0]
                && queue.items == old(queue.items)[1..]
                && consumed == old(consumed) + 1
                && (transcribe(p).Transcribed? ==>
                      && it == Committed(p) && w.running
                      && fs' == fs[ArtifactPath(p) := transcribe(p).text]
                      && table == WithStatus(old(table), p, Done)
                      && statusLabel == FinishedLabel(|queue.items|))
                && (transcribe(p).TranscriptionError? ==>
                      && it == Raised(p) && !w.running && fs' == fs
                      && table == WithStatus(old(table), p, Transcribing)
                      && statusLabel == TranscribingLabel(p))
    {
      ghost var staged;
      ghost var q0 := queue.items;
      fs', it, staged := w.RunOnce(fs, transcribe, tmp);
      match it
      case Committed(p) =>
        assert q0 != [] && p == q0[0] && queue.items == q0[1..];
        consumed := consumed + 1;
        OnTranscriptionStarted(p);
        OnTranscriptionFinished(p);
        WithStatusTwice(old(table), p, Transcribing, Done);
      case Raised(p) =>
        assert q0 != [] && p == q0[0] && queue.items == q0[1..];
        consumed := consumed + 1;
        OnTranscriptionStarted(p);
      case _ =>
    }
  }
}
