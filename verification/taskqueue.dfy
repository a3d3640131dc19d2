/** The task queue of panoptic_back/panoptic/core/process_queue.py, as a sequential state machine.
    One worker loop takes tasks from the FIFO in order, runs `_process_task` on each, hands every result
    to `done_callback` when one is set, and logs (and survives) every exception. The database the tasks
    read and write is the state `S` threaded through the tasks. */
module TaskQueue {
  import opened Results
  import opened Catalog
  import opened Paths

  /** What `_process_task` does with one task: return a result, or raise. */
  datatype Outcome<+R> = Returned(value: R) | Raised(message: string)

  /** The queue object: the pending FIFO, the number of worker loops started, and whether `done_callback` is set. */
  datatype Queue<T> = Queue(pending: seq<T>, workers: nat, hasCallback: bool)

  /** `ProcessQueue.__init__`: an empty FIFO, no workers, no callback. */
  function NewQueue<T>(): (q: Queue<T>)
    ensures |q.pending| == 0 && q.workers == 0 && !q.hasCallback
  {
    Queue([], 0, false)
  }

  /** `start_workers(workers)`: starts `n` worker loops unless some already run. */
  function StartWorkers<T>(q: Queue<T>, n: nat): (r: Queue<T>)
    ensures r.pending == q.pending && r.hasCallback == q.hasCallback
    ensures q.workers > 0 ==> r == q
    ensures q.workers == 0 ==> r.workers == n
  {
    if q.workers > 0 then q else q.(workers := n)
  }

  /** Starting workers twice starts no more than starting them once (when the first call started any). */
  lemma {:induction false} StartWorkersIdempotent<T>(q: Queue<T>, n: nat, m: nat)
    requires q.workers > 0 || n > 0
    ensures StartWorkers(StartWorkers(q, n), m) == StartWorkers(q, n)
  {
  }

  /** `add_task`: makes sure a worker runs (one by default), then appends the task at the back of the FIFO. */
  function AddTask<T>(q: Queue<T>, task: T): (r: Queue<T>)
    ensures r.workers >= 1
    ensures q.workers > 0 ==> r.workers == q.workers
    ensures r.pending == q.pending + [task] && r.hasCallback == q.hasCallback
  {
    var started := StartWorkers(q, 1);
    started.(pending := started.pending + [task])
  }

  /** Submitting tasks one after another queues them in submission order. */
  lemma {:induction false} AddTasksInOrder<T>(q: Queue<T>, tasks: seq<T>)
    ensures AddAll(q, tasks).pending == q.pending + tasks
    ensures |tasks| > 0 ==> AddAll(q, tasks).workers >= 1
    decreases |tasks|
  {
    if |tasks| > 0 {
      AddTasksInOrder(AddTask(q, tasks[0]), tasks[1..]);
      assert q.pending + tasks == q.pending + [tasks[0]] + tasks[1..];
    }
  }

  function AddAll<T>(q: Queue<T>, tasks: seq<T>): Queue<T>
    decreases |tasks|
  {
    if |tasks| == 0 then q else AddAll(AddTask(q, tasks[0]), tasks[1..])
  }

  // ---------------------------------------------------------------- the worker loop

  /** One worker draining `tasks` in order: the final state and the outcome of each task, in submission order. */
  function Trace<S, T, R>(process: (S, T) -> (S, Outcome<R>), s: S, tasks: seq<T>): (r: (S, seq<Outcome<R>>))
    ensures |r.1| == |tasks|
  {
    if |tasks| == 0 then (s, [])
    else
      var step := process(s, tasks[0]);
      var rest := Trace(process, step.0, tasks[1..]);
      (rest.0, [step.1] + rest.1)
  }

  /** The results handed to `done_callback`: every returned value in order, or nothing when no callback is set. */
  function Delivered<R>(outcomes: seq<Outcome<R>>, hasCallback: bool): (r: seq<R>)
    ensures |r| <= |outcomes|
    ensures !hasCallback ==> r == []
  {
    if !hasCallback || |outcomes| == 0 then []
    else if outcomes[0].Returned? then [outcomes[0].value] + Delivered(outcomes[1..], hasCallback)
    else Delivered(outcomes[1..], hasCallback)
  }

  /** The exceptions the loop logs, in order. */
  function Logged<R>(outcomes: seq<Outcome<R>>): (r: seq<string>)
    ensures |r| <= |outcomes|
  {
    if |outcomes| == 0 then []
    else if outcomes[0].Raised? then [outcomes[0].message] + Logged(outcomes[1..])
    else Logged(outcomes[1..])
  }

  lemma {:induction false} DeliveredAppend<R>(a: seq<Outcome<R>>, b: seq<Outcome<R>>, hasCallback: bool)
    ensures Delivered(a + b, hasCallback) == Delivered(a, hasCallback) + Delivered(b, hasCallback)
    ensures Logged(a + b) == Logged(a) + Logged(b)
  {
    if |a| == 0 {
      assert a + b == b;
    } else {
      assert (a + b)[1..] == a[1..] + b;
      DeliveredAppend(a[1..], b, hasCallback);
    }
  }

  /** Draining `a` then `b` is draining `a + b`: the outcomes of earlier submissions come first. */
  lemma {:induction false} TraceAppend<S, T, R>(process: (S, T) -> (S, Outcome<R>), s: S, a: seq<T>, b: seq<T>)
    ensures Trace(process, s, a + b).0 == Trace(process, Trace(process, s, a).0, b).0
    ensures Trace(process, s, a + b).1 == Trace(process, s, a).1 + Trace(process, Trace(process, s, a).0, b).1
  {
    if |a| == 0 {
      assert a + b == b;
    } else {
      assert (a + b)[1..] == a[1..] + b;
      TraceAppend(process, process(s, a[0]).0, a[1..], b);
    }
  }

  lemma {:induction false} TraceOne<S, T, R>(process: (S, T) -> (S, Outcome<R>), s: S, task: T)
    ensures Trace(process, s, [task]).0 == process(s, task).0
    ensures Trace(process, s, [task]).1 == [process(s, task).1]
  {
    assert [task][1..] == [];
  }

  /** `_process_queue` over the tasks pending now, as the single worker runs it: take the head, process it,
      call back with its result or log its exception, and carry on until the FIFO is empty. */
  method RunWorker<S, T, R>(q: Queue<T>, process: (S, T) -> (S, Outcome<R>), s0: S)
    returns (q': Queue<T>, s: S, delivered: seq<R>, logged: seq<string>)
    requires q.workers >= 1
    ensures q' == q.(pending := [])
    ensures s == Trace(process, s0, q.pending).0
    ensures delivered == Delivered(Trace(process, s0, q.pending).1, q.hasCallback)
    ensures logged == Logged(Trace(process, s0, q.pending).1)
  {
    var pending := q.pending;
    s := s0;
    delivered := [];
    logged := [];
    ghost var i := 0;
    while |pending| > 0
      invariant 0 <= i <= |q.pending| && pending == q.pending[i..]
      invariant s == Trace(process, s0, q.pending[..i]).0
      invariant delivered == Delivered(Trace(process, s0, q.pending[..i]).1, q.hasCallback)
      invariant logged == Logged(Trace(process, s0, q.pending[..i]).1)
      decreases |pending|
    {
      var task := pending[0];
      pending := pending[1..];
      var step := process(s, task);
      assert q.pending[..i + 1] == q.pending[..i] + [task];
      TraceAppend(process, s0, q.pending[..i], [task]);
      TraceOne(process, s, task);
      DeliveredAppend(Trace(process, s0, q.pending[..i]).1, [step.1], q.hasCallback);
      assert [step.1][1..] == [];
      if step.1.Returned? {
        if q.hasCallback {
          delivered := delivered + [step.1.value];
        }
      } else {
        logged := logged + [step.1.message];
      }
      s := step.0;
      i := i + 1;
    }
    assert q.pending[..i] == q.pending;
    q' := q.(pending := pending);
  }

  /** Liveness after a fault: a task that raises is logged, reaches no callback, and the tasks after it
      are processed exactly as if it had not been submitted (from the state it left behind). */
  lemma {:induction false} FailureDoesNotStopLater<S, T, R>(process: (S, T) -> (S, Outcome<R>), s: S, task: T, later: seq<T>, hasCallback: bool)
    requires process(s, task).1.Raised?
    ensures Delivered(Trace(process, s, [task] + later).1, hasCallback)
         == Delivered(Trace(process, process(s, task).0, later).1, hasCallback)
    ensures Logged(Trace(process, s, [task] + later).1)
         == [process(s, task).1.message] + Logged(Trace(process, process(s, task).0, later).1)
  {
    assert ([task] + later)[1..] == later;
  }

  /** Every task is handled exactly once: it either reaches the callback or is logged. */
  lemma {:induction false} EachTaskHandledOnce<R>(outcomes: seq<Outcome<R>>)
    ensures |Delivered(outcomes, true)| + |Logged(outcomes)| == |outcomes|
  {
    if |outcomes| > 0 {
      EachTaskHandledOnce(outcomes[1..]);
    }
  }

  /** With one worker and tasks that all succeed, the callback receives every result in submission order. */
  lemma {:induction false} CallbackOrderIsSubmissionOrder<R>(outcomes: seq<Outcome<R>>)
    requires forall i :: 0 <= i < |outcomes| ==> outcomes[i].Returned?
    ensures |Delivered(outcomes, true)| == |outcomes|
    ensures forall i :: 0 <= i < |outcomes| ==> Delivered(outcomes, true)[i] == outcomes[i].value
  {
    if |outcomes| > 0 {
      CallbackOrderIsSubmissionOrder(outcomes[1..]);
    }
  }

  /** The base class's `_process_task` raises NotImplementedError for every task. */
  function BaseProcess<S, T>(s: S, task: T): (r: (S, Outcome<int>))
    ensures r.0 == s && r.1.Raised?
  {
    (s, Raised("NotImplementedError"))
  }

  /** On a bare ProcessQueue no task ever reaches the callback, every task is logged, and the loop survives them all. */
  lemma {:induction false} BaseQueueOnlyLogs<S, T>(s: S, tasks: seq<T>, hasCallback: bool)
    ensures Trace(BaseProcess, s, tasks).0 == s
    ensures Delivered(Trace(BaseProcess, s, tasks).1, hasCallback) == []
    ensures |Logged(Trace(BaseProcess, s, tasks).1)| == |tasks|
  {
    if |tasks| > 0 {
      BaseQueueOnlyLogs(s, tasks[1..], hasCallback);
    }
  }

  // ---------------------------------------------------------------- the import queue

  /** `ImageImportTask`: a path to import into a folder. */
  datatype ImportTask = ImportTask(imagePath: string, folderId: int)

  /** What `_import_image` learns from the file (PIL and hashlib, not modelled): its sha1 and size, or an exception. */
  datatype Extraction = Extracted(sha1: string, width: int, height: int) | Unreadable(message: string)

  /** `ImportImageQueue._process_task`: derive name and extension from the path; an image already catalogued
      under (folder, name, extension) is returned untouched; otherwise the file is read and a row inserted. */
  function ProcessImport(images: seq<Image>, task: ImportTask, extract: string -> Extraction)
    : (r: (seq<Image>, Outcome<Image>))
    ensures r.1.Raised? ==> r.0 == images && extract(task.imagePath).Unreadable?
    ensures r.1.Returned? ==> r.0 == images || r.0 == images + [r.1.value]
  {
    var name := FileName(task.imagePath);
    var extension := Extension(name);
    match HasImageFile(images, task.folderId, name, extension)
    case Some(existing) => (images, Returned(existing))
    case None =>
      match extract(task.imagePath)
      case Unreadable(message) => (images, Raised(message))
      case Extracted(sha1, width, height) =>
        var (images', image) := AddImage(images, task.folderId, name, extension, sha1, ImageUrl(task.imagePath), width, height);
        (images', Returned(image))
  }

  /** A file already catalogued in the folder is returned as it is and the table is left alone. */
  lemma {:induction false} ImportOfKnownFile(images: seq<Image>, task: ImportTask, extract: string -> Extraction)
    requires HasImageFile(images, task.folderId, FileName(task.imagePath), Extension(FileName(task.imagePath))).Some?
    ensures ProcessImport(images, task, extract)
         == (images, Returned(HasImageFile(images, task.folderId, FileName(task.imagePath),
                                           Extension(FileName(task.imagePath))).value))
  {
  }

  /** A new, readable file becomes one new row at the end, with a fresh id, the path's name, extension
      and url, and the sha1 and size read from the file. */
  lemma {:induction false} ImportOfNewFile(images: seq<Image>, task: ImportTask, extract: string -> Extraction)
    requires HasImageFile(images, task.folderId, FileName(task.imagePath), Extension(FileName(task.imagePath))).None?
    requires extract(task.imagePath).Extracted?
    ensures var r := ProcessImport(images, task, extract);
      && r.1.Returned? && r.0 == images + [r.1.value]
      && r.1.value.folderId == task.folderId
      && r.1.value.name == FileName(task.imagePath)
      && r.1.value.extension == Extension(FileName(task.imagePath))
      && r.1.value.url == ImageUrl(task.imagePath)
      && extract(task.imagePath) == Extracted(r.1.value.sha1, r.1.value.width, r.1.value.height)
      && forall i :: 0 <= i < |images| ==> images[i].id != r.1.value.id
  {
  }

  /** Importing the same file again changes nothing and returns the image the first import returned. */
  lemma {:induction false} ImportIsIdempotent(images: seq<Image>, task: ImportTask, extract: string -> Extraction)
    requires ProcessImport(images, task, extract).1.Returned?
    ensures ProcessImport(ProcessImport(images, task, extract).0, task, extract)
         == ProcessImport(images, task, extract)
  {
    var first := ProcessImport(images, task, extract);
    var name := FileName(task.imagePath);
    var extension := Extension(name);
    if first.0 != images {
      var image := first.1.value;
      assert HasImageFile(images, task.folderId, name, extension).None?;
      HasImageFileAppend(images, image, task.folderId, name, extension);
    }
  }

  /** The import queue's worker: `_process_task` of ImportImageQueue threaded through the images table. */
  function ImportProcess(extract: string -> Extraction): (S: (seq<Image>, ImportTask) -> (seq<Image>, Outcome<Image>))
  {
    (images: seq<Image>, task: ImportTask) => ProcessImport(images, task, extract)
  }

  /** Queuing the same import twice inserts at most one row. */
  lemma {:induction false} DuplicateImportInsertsOnce(images: seq<Image>, task: ImportTask, extract: string -> Extraction)
    ensures |Trace(ImportProcess(extract), images, [task, task]).0| <= |images| + 1
  {
    var process := ImportProcess(extract);
    var first := ProcessImport(images, task, extract);
    assert process(images, task) == first;
    assert [task, task][1..] == [task];
    TraceOne(process, first.0, task);
    assert Trace(process, images, [task, task]).0 == Trace(process, first.0, [task]).0;
    if first.1.Returned? {
      ImportIsIdempotent(images, task, extract);
    }
  }
}
