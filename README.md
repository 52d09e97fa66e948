# Transcription pipeline model

A Dafny model of the ingestion pipeline inside `transcriber.py`, a PyQt application
that watches a directory tree for media files. It transcribes each file with Whisper and
writes the text beside it as `<name>.txt`. The widgets, threads and the speech model are
abstracted away. What remains is a small sequential state machine:

- **Paths** (`Paths.dfy`): the media filter. It takes pathlib's `suffix` of the final
  path component, lower-cases it and looks it up in `MEDIA_EXTENSIONS`. This module also
  derives the transcript path, `parent / (name + '.txt')`.
- **Discovery** (`Discovery.dfy`): the watcher's `on_created` filter, which rejects
  directories. It also holds the first loop of `process_existing_files`, which filters on
  the suffix alone.
- **StatusTable** (`StatusTable.dfy`): the window's file table. Each row holds a base
  name, the full path and a status text. The module also holds the first-match status
  update of `update_file_status`.
- **Labels** (`Labels.dfy`): the texts of the status label and the rules of
  `update_status`, `on_transcription_started` and `on_transcription_finished`. A queue
  label is read back by parsing its decimal count.
- **FileSystem** (`FileSystem.dfy`): the filesystem as a map from path to content. It
  models the worker's commit: `mkstemp`, the write and `os.replace`.
- **Pipeline** (`Pipeline.dfy`): the classes.
  - `WorkQueue` is `queue.Queue`.
  - `FileMonitor` and `TranscriptionWorker` are the two threads.
  - `MainWindow` holds the queue, the table, the label, the `is_monitoring` flag, the
    directory and the current threads.

Threads and signals become explicit calls made one after another:
- A watcher event is `MainWindow.OnFileCreated`.
- One turn of the worker's `while not self.is_stopped` loop is `TranscriptionWorker.RunOnce`.
- `MainWindow.RunWorkerIteration` runs one such turn and then delivers the `started` and
  `finished` signals to the window's handlers, in the order the worker emits them.
- `MainWindow.Valid` is the window's invariant:
  - the table has one row per path ever enqueued, in enqueue order, named by its base name;
  - the queue holds exactly the enqueued paths not yet taken, so the worker takes them
    first in, first out;
  - the worker shares the window's queue.

Small differences in how Python and Dafny treat values:
- Python's `None` and an empty string both mean "no directory" (`not self.directory`).
  The model uses `""` for both.
- Paths are `/`-separated strings and are never normalised.
- Lower-casing is ASCII only.

Where one might expect more of the application, the model follows the code:
- **Duplicates.** The live `add_file_to_queue` (the second definition, which Python keeps)
  has no check for an existing transcript. So an already transcribed file, or a file
  found by both the scan and the watcher, is enqueued again. The checking variant is
  modelled as the separate `AddFileToQueueShadowed`, which nothing calls.
- **One failure stops the worker.** There is no "Failed" status. Only `Empty` is caught,
  so an exception from the transcription ends the worker's loop. The popped path is then
  lost, and no later item is processed by that worker.
- **No lifecycle rejection.** The start/stop button is a plain toggle.
  - Stopping does not wait for the threads.
  - Restarting creates new threads on the same, never-cleared queue. The stopped threads
    are left as they were.

## Model

| member | source | states |
|---|---|---|
| Paths.IsMediaIff | transcriber.py:51 | The filter accepts a path exactly when it ends, in any ASCII case, with one of the eight extensions and at least one character of the file name comes before it. |
| Paths.UpperCaseExample | transcriber.py:51 | `videos/clip.MP4` passes the filter: the comparison ignores case. |
| Paths.DotFileExample | transcriber.py:225 | `videos/.mp4` fails the filter: a leading dot gives an empty suffix. |
| Paths.DirectoryExtensionExample | transcriber.py:225 | `videos.mp4/clip` fails the filter: only the final component's suffix counts. |
| Paths.NameShape | transcriber.py:262 | The base name is the longest `/`-free tail of the path, and the path is its directory prefix followed by it. |
| Paths.ArtifactPath | transcriber.py:74 | The transcript path for `p` is exactly `p + ".txt"`. |
| Paths.ArtifactBesideSource | transcriber.py:201 | The transcript sits in the same directory as its media file, and its name is the media file's name plus `.txt`. |
| Paths.ArtifactNeverMedia | transcriber.py:74 | No transcript path passes the media filter. |
| Paths.ArtifactInjective | transcriber.py:74 | Distinct media files never share a transcript path. |
| Paths.TxtNeverMedia | transcriber.py:17 | No path ending in `.txt`, in any case, passes the filter: `.txt` is not a media extension. |
| Discovery.DetectedIff | transcriber.py:48-53 | `on_created` emits a path exactly for a non-directory whose path passes the filter, and it emits that path unchanged. |
| Discovery.DetectedNeverArtifact | transcriber.py:48-53 | A created transcript is never emitted for enqueueing, whether it is a file or a directory. |
| Discovery.CollectMediaFiles | transcriber.py:223-226 | The collecting loop returns exactly the scan's selection: the paths that pass the filter, in listing order. |
| Discovery.MediaFilesAppend | transcriber.py:224-226 | The selection of a joined listing is the two selections joined, so listing order is kept. |
| Discovery.MediaFilesMembers | transcriber.py:224-226 | A path is selected exactly when some listed entry has it and it passes the filter. |
| Discovery.MediaFilesNoArtifacts | transcriber.py:225 | No transcript path is ever selected by the scan. |
| Discovery.ScanAdmitsMediaNamedDirectory | transcriber.py:224-226 | A directory named like a media file is selected by the scan but rejected by the watcher. |
| StatusTable.WaitingRows | transcriber.py:260-265 | Enqueueing paths gives one "Waiting" row per path, in order, holding its base name and full path. |
| StatusTable.FirstMatch | transcriber.py:283-285 | The row the search stops at stores the path, and no earlier row does. |
| StatusTable.WithStatusAt | transcriber.py:282-287 | A status update changes only the status of the first row storing the path. Every other row is unchanged. |
| StatusTable.WithStatusAtMatch | transcriber.py:282-287 | When the first match is at row `k`, the update is exactly the table with row `k`'s status replaced. |
| StatusTable.NoMatchNoChange | transcriber.py:282-287 | With no row storing the path, the table is unchanged. |
| StatusTable.LaterDuplicateUntouched | transcriber.py:282-287 | For a path enqueued twice, the later row is never changed by status updates. |
| StatusTable.WithStatusKeepsPaths | transcriber.py:286 | Status updates keep every row's name and path. |
| StatusTable.WithStatusTwice | transcriber.py:268-274 | "Transcribing" and then "Done" for the same path hit the same row and equal a single update to "Done". |
| StatusTable.AnyTranscribingAppendWaiting | transcriber.py:289-293 | Appending "Waiting" rows never changes whether some row is "Transcribing". |
| Labels.DecimalString | transcriber.py:280 | The queue size is written as a non-empty string of decimal digits with no leading zero. |
| Labels.ParseDecimalString | transcriber.py:280 | Reading back the decimal text of `n` gives `n`. |
| Labels.QueueLabelReadsBack | transcriber.py:280 | "Status: Queue: N files waiting" reports exactly N. |
| Labels.QueueLabelInjective | transcriber.py:294 | Different queue depths give different queue labels. |
| Labels.OtherLabelsCarryNoCount | transcriber.py:270 | Neither "Status: Idle" nor a "Status: Transcribing" text reads as a queue label. |
| Labels.QueueLabelNotIdle | transcriber.py:276-280 | A queue label is never the idle label. |
| Labels.FinishedLabelIdleIff | transcriber.py:275-280 | When a transcription finishes, the label is "Status: Idle" exactly when the queue is empty. |
| Labels.FinishedLabelReportsQueue | transcriber.py:275-280 | Otherwise that label reports the exact queue size. |
| Labels.RefreshedLabelRule | transcriber.py:289-294 | `update_status` rewrites the label exactly when the queue is non-empty and no row is "Transcribing", and it then reports the exact queue size. |
| FileSystem.ReplaceMoves | transcriber.py:78 | `os.replace` fails on a missing source. Otherwise the target gets the source's content, the source is gone, and every other path is unchanged. |
| FileSystem.CommitPhases | transcriber.py:75-78 | The target is unchanged while the temporary file is created and written. After the replace, the target holds exactly the text, the temporary file is gone, and nothing else changed. |
| FileSystem.TempNeverMedia | transcriber.py:75 | A `.txt` temporary file never passes the media filter. |
| Pipeline.WorkQueue.constructor | transcriber.py:162 | A new queue is empty. |
| Pipeline.WorkQueue.Put | transcriber.py:259 | `put` appends the path at the tail. |
| Pipeline.WorkQueue.Get | transcriber.py:70 | `get` removes and returns the head, or reports `Empty` on an empty queue, which it leaves unchanged. |
| Pipeline.FileMonitor.constructor | transcriber.py:24-26 | A new watcher records its directory and has no stop request. |
| Pipeline.FileMonitor.Stop | transcriber.py:40-41 | `stop` requests interruption. |
| Pipeline.TranscriptionWorker.constructor | transcriber.py:61-65 | A new worker holds the given queue, is not stopped, and is running once started. |
| Pipeline.TranscriptionWorker.Stop | transcriber.py:85-86 | `stop` sets the stop flag. |
| Pipeline.TranscriptionWorker.RunOnce | transcriber.py:67-83 | One turn of the worker loop has four outcomes. A stopped or finished worker exits and changes nothing. An empty queue times out. Otherwise the turn pops exactly the head. A successful transcription commits the text onto the transcript path: the target keeps its old content until the replace, and the temporary file is gone afterwards. A transcription error ends the loop without touching the filesystem. |
| Pipeline.MainWindow.constructor | transcriber.py:162-173 | The window starts with an empty queue and table, the idle label, monitoring off, no directory and no threads. |
| Pipeline.MainWindow.AddFileToQueue | transcriber.py:258-266 | The live enqueue appends the path to the queue and one "Waiting" row to the table, leaves every earlier entry unchanged, and then refreshes the label. |
| Pipeline.MainWindow.AddFileToQueueShadowed | transcriber.py:200-212 | When the transcript exists, nothing changes. Otherwise this variant does exactly what the live enqueue does. |
| Pipeline.MainWindow.UpdateStatus | transcriber.py:289-294 | The label becomes the queue label when the queue is non-empty and no row is "Transcribing". Otherwise it is unchanged. |
| Pipeline.MainWindow.UpdateFileStatus | transcriber.py:282-287 | The loop with `break` leaves the table equal to the first-match status update. |
| Pipeline.MainWindow.OnTranscriptionStarted | transcriber.py:268-271 | The handler marks the first row of the path "Transcribing" and names the file's base name in the label. |
| Pipeline.MainWindow.OnTranscriptionFinished | transcriber.py:273-280 | The handler marks the first row of the path "Done". The label shows idle on an empty queue and the queue size otherwise. |
| Pipeline.MainWindow.ProcessExistingFiles | transcriber.py:221-228 | The scan enqueues its selection, in listing order and directories included. It appends one "Waiting" row per selected path. The label ends unchanged when nothing was selected or a row is transcribing, and shows the final queue size otherwise. |
| Pipeline.MainWindow.EnqueueAll | transcriber.py:227-228 | Calling `add_file_to_queue` on each path in turn appends them all, in order, to the queue and the table, with the label rule above. |
| Pipeline.MainWindow.SelectDirectory | transcriber.py:214-219 | The directory is recorded. An empty choice changes nothing else. A non-empty choice runs the scan: the queue and the table gain the selection in listing order, and the label follows the scan's rule. |
| Pipeline.MainWindow.OnFileCreated | transcriber.py:48-53 | A creation event enqueues exactly the path the handler emits, and nothing otherwise. |
| Pipeline.MainWindow.ToggleMonitoring | transcriber.py:230-256 | The queue and table are kept in every case. While monitoring, both threads are asked to stop and the label shows idle. While idle without a directory, nothing changes. While idle with a directory, a fresh watcher and a fresh worker start on the same queue. While idle, the previous watcher and worker, if any, are left unchanged. |
| Pipeline.MainWindow.CloseEvent | transcriber.py:299-305 | While monitoring, closing the window asks both threads to stop and does not change whether the worker is running. While idle, both thread objects are left unchanged. |
| Pipeline.MainWindow.RunWorkerIteration | transcriber.py:67-80 | A stopped or finished worker exits: it is no longer running, and nothing else changes. An empty queue times out: the worker keeps running, and nothing else changes. Otherwise the turn takes the earliest enqueued path not taken before (first in, first out). On success, the transcript holds the text, the path's first row is "Done", the label follows the finished rule, and the worker keeps running. On a transcription error, the row stays "Transcribing" and the worker stops. |

## Left out

- Widgets, the stylesheet, the layout, dialogs, the warning box and the progress bar are UI rendering. Only the label text is kept.
- `log_message`, the log viewer and every logged line are UI output, not pipeline state.
- `QThread`, `pyqtSignal`, the watchdog `Observer` and the one-second sleep/interruption loop are left out because they are concurrency and OS event delivery. Events and worker turns are explicit calls applied one after another, and interleavings between them are not modelled.
- `wait()` in `closeEvent` blocks on thread termination, which a sequential model cannot express, and `event.accept()` is UI.
- `whisper.load_model` and `model.transcribe` are a foreign model. The transcription is a parameter function returning a text or an error.
- `rglob`, `exists`, `mkstemp`, `fdopen`/`write` and `os.replace` on a real filesystem are replaced, because they are I/O. The model uses a map from path to content and a given listing of the directory. The listing is taken as given; how `rglob` walks the tree is not modelled.
- Pipeline.TranscriptionWorker.RunOnce: the temporary name is a parameter required to be absent, in the transcript's directory, ending in `.txt` and distinct from the transcript path. How `mkstemp` generates it is not modelled.
- Pipeline.TranscriptionWorker.RunOnce: `mkstemp`, `write` and `os.replace` are taken to succeed, because their I/O failures come from the OS. Such a failure would also end the worker's loop.
- An unhandled exception in the worker is modelled as the end of its loop. What PyQt does with it afterwards is left out.
- Pipeline.MainWindow.RunWorkerIteration: a turn is atomic, so a worker's in-flight turn can only be placed before its `Stop`. The model cannot show a turn that spans a stop and restart: an item popped before the stop and committed after the restart. Nor can it show a stopped worker blocked in `get(timeout=1)` taking one more item that arrives within that second. A stopped worker's next turn always exits.
- `queue.task_done` and the queue's thread safety are left out, since nothing reads the count it maintains and the model is sequential.
- Paths are plain `/`-separated strings. pathlib's normalisation of `..`, duplicate and trailing separators, and non-ASCII case folding are not modelled.
- The worker's `model` field and the watcher's `observer` and `event_handler` are not kept as fields. They serve only the foreign model and the OS watch, which are left out above.
