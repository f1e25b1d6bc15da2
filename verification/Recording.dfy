/**
 One recording as a state machine: what opening, writing, the worker and closing
 do to the file, the index and the counters. The class CaptureWriter performs
 these steps; the facts about whole runs are proved here.

 The disk is a function from the number of the stream operation to how many bytes
 it accepts, so a statement for every disk is a statement for every way writing
 can fail.
 */
module Recording {
  import opened Bytes
  import opened Sequences
  import opened CaptureFormat

  const BACKLOG_WARNING: nat := 256

  type Disk = nat -> nat

  /** An output stream: what reached the file, and whether the stream still works. */
  datatype OutFile = OutFile(bytes: seq<Byte>, good: bool, attached: bool, calls: nat)

  function Put(disk: Disk, f: OutFile, data: seq<Byte>): OutFile {
    if !f.good then f
    else
      var n := if disk(f.calls) < |data| then disk(f.calls) else |data|;
      OutFile(f.bytes + data[..n], n == |data|, f.attached, f.calls + 1)
  }

  datatype CaptureError = CannotOpen | CannotWriteHeader | DiskNotKeepingUp | WriteFailed

  /** What write() hands to the worker: a copy of the frame and the index fields. */
  datatype Task = Task(buffer: seq<Byte>, payload: nat, timestampBits: nat, startSampleIndex: nat)

  function TaskFor(f: Frame): Task {
    Task(FrameBytes(f), PayloadBytes(f.header), TimestampBits(f.header), StartSampleIndex(f.header))
  }

  function TasksFor(frames: seq<Frame>): seq<Task> {
    seq(|frames|, i requires 0 <= i < |frames| => TaskFor(frames[i]))
  }

  /**
   The last three fields are history: the metadata of the current recording, the
   frames write() has accepted for it, and whether the file belongs to it.
   */
  datatype Recorder = Recorder(
    file: OutFile, open: bool, index: seq<IndexEntry>,
    framesWritten: nat, bytesWritten: nat, pending: int, backlogReported: bool,
    queue: seq<Task>, errors: seq<CaptureError>,
    json: seq<Byte>, accepted: seq<Frame>, begun: bool)

  const INITIAL: Recorder := Recorder(
    OutFile([], true, false, 0), false, [], 0, 0, 0, false, [], [], [], [], false)

  function OpenStep(disk: Disk, before: Recorder, json: seq<Byte>, canOpen: bool): Recorder {
    var s := CloseStep(disk, before);
    if s.file.attached || !canOpen then
      s.(file := s.file.(good := false), errors := s.errors + [CannotOpen])
    else
      var f := Put(disk, Put(disk, OutFile([], true, true, s.file.calls), FileHeader(json)), json);
      if !f.good then
        s.(file := f.(attached := false), errors := s.errors + [CannotWriteHeader], begun := false)
      else
        Recorder(f, true, [], 0, FILE_HEADER_BYTES + |json|, 0, false, s.queue, s.errors, json, [], true)
  }

  function WriteStep(s: Recorder, frame: Frame): Recorder {
    if !s.open then s
    else
      var late := s.pending + 1 > BACKLOG_WARNING;
      s.(pending := s.pending + 1,
         errors := if late && !s.backlogReported then s.errors + [DiskNotKeepingUp] else s.errors,
         backlogReported := s.backlogReported || late,
         queue := s.queue + [TaskFor(frame)],
         accepted := s.accepted + [frame])
  }

  function WorkerStep(disk: Disk, s: Recorder): Recorder {
    if s.queue == [] then s
    else
      var t, rest := s.queue[0], s.queue[1..];
      if !s.file.good then s.(queue := rest, pending := s.pending - 1)
      else
        var f := Put(disk, Put(disk, s.file, RecordPrefix(t.payload)), t.buffer);
        if f.good then
          s.(file := f, queue := rest, pending := s.pending - 1,
             index := s.index + [IndexEntry(|s.file.bytes|, t.timestampBits, t.startSampleIndex)],
             framesWritten := s.framesWritten + 1,
             bytesWritten := s.bytesWritten + RECORD_BYTES + |t.buffer|)
        else
          s.(file := f, queue := rest, pending := s.pending - 1, errors := s.errors + [WriteFailed])
  }

  function Drain(disk: Disk, s: Recorder): (r: Recorder)
    ensures r.queue == []
    decreases |s.queue|
  {
    if s.queue == [] then s else Drain(disk, WorkerStep(disk, s))
  }

  /** The index block and the footer, in the four stream operations that write them. */
  function PutTail(disk: Disk, f: OutFile, index: seq<IndexEntry>): OutFile {
    var f1 := Put(disk, f, LittleEndian(INDEX_MAGIC, 4));
    var f2 := Put(disk, f1, LittleEndian(|index|, 8));
    var f3 := Put(disk, f2, EncodeEntries(index));
    Put(disk, f3, Footer(|f.bytes|, |index|))
  }

  function CloseStep(disk: Disk, before: Recorder): Recorder {
    if !before.open then before else Finish(disk, Drain(disk, before))
  }

  /** The end of close(), once the worker is idle. */
  function Finish(disk: Disk, s: Recorder): Recorder {
    if s.file.good then
      s.(file := PutTail(disk, s.file, s.index).(attached := false), open := false)
    else
      s.(open := false)
  }

  // ---- runs ---------------------------------------------------------------------

  datatype Op = Open(json: seq<Byte>, canOpen: bool) | Write(frame: Frame) | Worker | Close

  function Step(disk: Disk, s: Recorder, op: Op): Recorder {
    match op
    case Open(json, canOpen) => OpenStep(disk, s, json, canOpen)
    case Write(frame) => WriteStep(s, frame)
    case Worker => WorkerStep(disk, s)
    case Close => CloseStep(disk, s)
  }

  function Run(disk: Disk, s: Recorder, ops: seq<Op>): Recorder {
    if ops == [] then s else Step(disk, Run(disk, s, ops[..|ops| - 1]), ops[|ops| - 1])
  }

  // ---- the invariant --------------------------------------------------------------

  function Processed(s: Recorder): int { |s.accepted| - |s.queue| }

  /** The counters and the queue, whatever happened to the file. */
  ghost predicate Counters(s: Recorder) {
    && s.pending == |s.queue|
    && s.framesWritten == |s.index|
    && (!s.open ==> s.queue == [])
    && (s.open ==> s.begun)
    && |s.index| <= Processed(s)
    && s.queue == TasksFor(s.accepted[Processed(s)..])
    && s.index == Entries(s.accepted[..|s.index|], |FileStart(s.json)|)
    && (s.begun ==> s.bytesWritten == |OpenImage(s.json, s.accepted[..|s.index|])|)
  }

  /** A stream that works holds every processed frame and nothing else. */
  ghost predicate Healthy(s: Recorder) {
    |s.index| == Processed(s) && s.file.bytes == OpenImage(s.json, s.accepted[..|s.index|])
  }

  /** A stream that failed stopped inside the record after the last indexed one. */
  ghost predicate Broken(s: Recorder) {
    && |s.index| < Processed(s)
    && OpenImage(s.json, s.accepted[..|s.index|]) <= s.file.bytes
    && s.file.bytes < OpenImage(s.json, s.accepted[..|s.index| + 1])
  }

  /** After closing: a broken file, or every frame and as much of the tail as was written. */
  ghost predicate Finished(s: Recorder) {
    || Broken(s)
    || (&& |s.index| == |s.accepted|
        && OpenImage(s.json, s.accepted) <= s.file.bytes <= ClosedImage(s.json, s.accepted)
        && (s.file.good ==> s.file.bytes == ClosedImage(s.json, s.accepted)))
  }

  ghost predicate Inv(s: Recorder) {
    && Counters(s)
    && (s.open ==> s.file.attached)
    && (s.open && s.file.good ==> Healthy(s))
    && (s.open && !s.file.good ==> Broken(s))
    && (s.begun && !s.open ==> Finished(s))
    && (s.begun && !s.open && s.file.attached ==> !s.file.good)
  }

  // ---- stream operations, one after another -----------------------------------------

  /** `r` is what the stream `f` became while `data` was being written to it. */
  ghost predicate Appended(f: OutFile, r: OutFile, data: seq<Byte>) {
    && f.good && r.attached == f.attached
    && f.bytes <= r.bytes
    && (r.good ==> r.bytes == f.bytes + data)
    && (!r.good ==> r.bytes < f.bytes + data)
  }

  lemma PutAppends(disk: Disk, f: OutFile, data: seq<Byte>)
    requires f.good
    ensures Appended(f, Put(disk, f, data), data)
  {
  }

  lemma PutAppendsMore(disk: Disk, f: OutFile, r: OutFile, data: seq<Byte>, more: seq<Byte>)
    requires Appended(f, r, data)
    ensures Appended(f, Put(disk, r, more), data + more)
  {
  }

  lemma PutTailAppends(disk: Disk, f: OutFile, index: seq<IndexEntry>)
    requires f.good
    ensures Appended(f, PutTail(disk, f, index), IndexBlock(index) + Footer(|f.bytes|, |index|))
  {
    var magic, count, entries := LittleEndian(INDEX_MAGIC, 4), LittleEndian(|index|, 8), EncodeEntries(index);
    var f1 := Put(disk, f, magic);
    var f2 := Put(disk, f1, count);
    var f3 := Put(disk, f2, entries);
    PutAppends(disk, f, magic);
    PutAppendsMore(disk, f, f1, magic, count);
    PutAppendsMore(disk, f, f2, magic + count, entries);
    PutAppendsMore(disk, f, f3, magic + count + entries, Footer(|f.bytes|, |index|));
  }

  // ---- every step keeps the invariant -------------------------------------------------

  lemma InitialInv()
    ensures Inv(INITIAL)
  {
  }

  lemma OpenImageSnoc(json: seq<Byte>, frames: seq<Frame>, f: Frame)
    ensures OpenImage(json, frames + [f]) == OpenImage(json, frames) + Record(f)
  {
    RecordsSnoc(frames, f);
    Associate(FileStart(json), Records(frames), Record(f));
  }

  lemma WriteKeepsInv(s: Recorder, frame: Frame)
    requires Inv(s)
    ensures Inv(WriteStep(s, frame))
  {
    if s.open {
      var r := WriteStep(s, frame);
      var p := Processed(s);
      assert Processed(r) == p;
      assert r.accepted[p..] == s.accepted[p..] + [frame];
      assert r.accepted[..|r.index|] == s.accepted[..|s.index|];
      if |s.index| < p {
        assert r.accepted[..|r.index| + 1] == s.accepted[..|s.index| + 1];
      }
    }
  }

  lemma WorkerKeepsInv(disk: Disk, s: Recorder)
    requires Inv(s)
    ensures Inv(WorkerStep(disk, s))
    ensures s.open ==> WorkerStep(disk, s).open
  {
    hide Inv;
    if s.queue != [] {
      if s.file.good {
        GoodTurn(disk, s);
      } else {
        FailedTurn(disk, s);
      }
    }
  }

  lemma GoodTurn(disk: Disk, s: Recorder)
    requires Inv(s) && s.queue != [] && s.file.good
    ensures Inv(WorkerStep(disk, s))
  {
    hide FileStart, FrameBytes, RecordPrefix, Records, Entries, Finished, Put, TasksFor;
    QueueAdvances(s);
    WorkerOnGoodFile(disk, s);
  }

  lemma FailedTurn(disk: Disk, s: Recorder)
    requires Inv(s) && s.queue != [] && !s.file.good
    ensures Inv(WorkerStep(disk, s))
  {
    hide FileStart, Records, Entries, Finished, TasksFor, OpenImage, Put;
    QueueAdvances(s);
  }

  lemma QueueAdvances(s: Recorder)
    requires s.queue != [] && |s.queue| <= |s.accepted| && s.queue == TasksFor(s.accepted[Processed(s)..])
    ensures s.queue[0] == TaskFor(s.accepted[Processed(s)])
    ensures s.queue[1..] == TasksFor(s.accepted[Processed(s) + 1..])
  {
  }

  lemma WorkerOnGoodFile(disk: Disk, s: Recorder)
    requires Inv(s) && s.queue != [] && s.file.good
    ensures var r := WorkerStep(disk, s);
            && (r.file.good ==> Healthy(r))
            && (!r.file.good ==> Broken(r))
            && r.index == Entries(r.accepted[..|r.index|], |FileStart(r.json)|)
            && r.bytesWritten == |OpenImage(r.json, r.accepted[..|r.index|])|
            && r.file.attached == s.file.attached
  {
    hide FileStart, FrameBytes, RecordPrefix, Records, Entries, Finished;
    var p, t, r := Processed(s), s.queue[0], WorkerStep(disk, s);
    var f := s.accepted[p];
    var done := s.accepted[..p];
    assert t == TaskFor(f);
    assert s.accepted[..p + 1] == done + [f];
    var prefix := RecordPrefix(t.payload);
    PutAppends(disk, s.file, prefix);
    PutAppendsMore(disk, s.file, Put(disk, s.file, prefix), prefix, t.buffer);
    OpenImageSnoc(s.json, done, f);
    EntriesSnoc(done, f, |FileStart(s.json)|);
  }

  lemma {:induction false} DrainKeepsInv(disk: Disk, s: Recorder)
    requires Inv(s)
    ensures var r := Drain(disk, s);
            Inv(r) && r.open == s.open && r.json == s.json && r.accepted == s.accepted && r.begun == s.begun
    decreases |s.queue|
  {
    hide Inv;
    if s.queue != [] {
      WorkerKeepsInv(disk, s);
      DrainKeepsInv(disk, WorkerStep(disk, s));
    }
  }

  lemma CloseKeepsInv(disk: Disk, s: Recorder)
    requires Inv(s)
    ensures Inv(CloseStep(disk, s)) && !CloseStep(disk, s).open
  {
    hide Inv, Drain;
    if s.open {
      DrainKeepsInv(disk, s);
      EmptyAfterDrain(disk, s);
      FinishKeepsInv(disk, Drain(disk, s));
    } else {
      assert CloseStep(disk, s) == s;
    }
  }

  lemma EmptyAfterDrain(disk: Disk, s: Recorder)
    ensures Drain(disk, s).queue == []
  {
  }

  lemma FinishKeepsInv(disk: Disk, d: Recorder)
    requires Inv(d) && d.open && d.queue == []
    ensures Inv(Finish(disk, d)) && !Finish(disk, d).open
  {
    hide FileStart, Records, Entries, PutTail, TasksFor, TailFor;
    assert d.accepted[..|d.accepted|] == d.accepted;
    if d.file.good {
      TailClosesTheImage(disk, d);
    }
  }

  lemma TailClosesTheImage(disk: Disk, d: Recorder)
    requires d.file.good && d.file.bytes == OpenImage(d.json, d.accepted)
    requires d.index == Entries(d.accepted, |FileStart(d.json)|)
    ensures var f := PutTail(disk, d.file, d.index);
            && OpenImage(d.json, d.accepted) <= f.bytes <= ClosedImage(d.json, d.accepted)
            && (f.good ==> f.bytes == ClosedImage(d.json, d.accepted))
  {
    PutTailAppends(disk, d.file, d.index);
  }

  lemma OpenKeepsInv(disk: Disk, s: Recorder, json: seq<Byte>, canOpen: bool)
    requires Inv(s)
    ensures Inv(OpenStep(disk, s, json, canOpen))
  {
    CloseKeepsInv(disk, s);
    var c := CloseStep(disk, s);
    if !c.file.attached && canOpen {
      var f0 := OutFile([], true, true, c.file.calls);
      var f1 := Put(disk, f0, FileHeader(json));
      PutAppends(disk, f0, FileHeader(json));
      PutAppendsMore(disk, f0, f1, FileHeader(json), json);
      assert OpenImage(json, []) == FileStart(json);
    }
  }

  lemma StepKeepsInv(disk: Disk, s: Recorder, op: Op)
    requires Inv(s)
    ensures Inv(Step(disk, s, op))
  {
    hide Inv;
    match op
    case Open(json, canOpen) => OpenKeepsInv(disk, s, json, canOpen);
    case Write(frame) => WriteKeepsInv(s, frame);
    case Worker => WorkerKeepsInv(disk, s);
    case Close => CloseKeepsInv(disk, s);
  }

  /** The invariant holds after any sequence of calls and worker turns, on any disk. */
  lemma {:induction false} RunKeepsInv(disk: Disk, s: Recorder, ops: seq<Op>)
    requires Inv(s)
    ensures Inv(Run(disk, s, ops))
  {
    hide Inv, Step;
    if ops != [] {
      var front := ops[..|ops| - 1];
      RunKeepsInv(disk, s, front);
      StepKeepsInv(disk, Run(disk, s, front), ops[|ops| - 1]);
    }
  }

  lemma CloseFinishes(disk: Disk, s: Recorder)
    ensures !CloseStep(disk, s).open
  {
  }

  // ---- what a recording promises --------------------------------------------------------

  lemma ImagePrefix(json: seq<Byte>, frames: seq<Frame>, k: nat)
    requires k <= |frames|
    ensures FileStart(json) <= OpenImage(json, frames[..k]) <= OpenImage(json, frames) <= ClosedImage(json, frames)
  {
    assert frames[..k] + frames[k..] == frames;
    RecordsConcat(frames[..k], frames[k..]);
    Associate(FileStart(json), Records(frames[..k]), Records(frames[k..]));
  }

  /**
   Whatever happened, a file that belongs to a recording is an initial part of
   the file a clean close of the accepted frames would have produced.
   */
  lemma ReachableFileIsAPrefix(s: Recorder)
    requires Inv(s) && s.begun
    ensures FileStart(s.json) <= s.file.bytes <= ClosedImage(s.json, s.accepted)
  {
    ImagePrefix(s.json, s.accepted, |s.index|);
    if |s.index| < |s.accepted| {
      ImagePrefix(s.json, s.accepted, |s.index| + 1);
    } else {
      assert s.accepted[..|s.index|] == s.accepted;
    }
  }

  /** A close that succeeds writes every accepted frame, in the order write() was called. */
  lemma GoodCloseLosesNothing(disk: Disk, s: Recorder)
    requires Inv(s) && s.open
    ensures var r := CloseStep(disk, s);
            r.file.good ==>
              && r.file.bytes == ClosedImage(s.json, s.accepted)
              && r.index == Entries(s.accepted, |FileStart(s.json)|)
              && r.framesWritten == |s.accepted|
              && r.pending == 0
  {
    hide ClosedImage, OpenImage, Entries, FileStart, TasksFor;
    DrainKeepsInv(disk, s);
    CloseKeepsInv(disk, s);
    var r := CloseStep(disk, s);
    assert r.json == s.json && r.accepted == s.accepted && r.begun;
    assert r.accepted[..|r.accepted|] == r.accepted;
    assert Finished(r);
  }

  /** A disk that takes every stream operation whole never makes a recording fail to close. */
  lemma AmpleDiskClosesWell(disk: Disk, s: Recorder)
    requires Inv(s) && s.open && s.file.good
    requires forall k :: disk(k) >= |ClosedImage(s.json, s.accepted)|
    ensures CloseStep(disk, s).file.good
  {
    hide Inv, ClosedImage;
    AmpleDrain(disk, s);
    DrainKeepsInv(disk, s);
    AmpleTail(disk, Drain(disk, s));
  }

  lemma AmpleTail(disk: Disk, s: Recorder)
    requires Inv(s) && s.open && s.file.good && s.queue == []
    requires forall k :: disk(k) >= |ClosedImage(s.json, s.accepted)|
    ensures PutTail(disk, s.file, s.index).good
  {
  }

  lemma AmplePut(disk: Disk, f: OutFile, data: seq<Byte>, size: nat)
    requires f.good && |data| <= size && forall k :: disk(k) >= size
    ensures Put(disk, f, data).good
  {
  }

  lemma {:induction false} AmpleDrain(disk: Disk, s: Recorder)
    requires Inv(s) && s.open && s.file.good
    requires forall k :: disk(k) >= |ClosedImage(s.json, s.accepted)|
    ensures Drain(disk, s).file.good
    decreases |s.queue|
  {
    hide Inv, ClosedImage;
    if s.queue != [] {
      AmpleWorker(disk, s);
      WorkerKeepsInv(disk, s);
      AmpleDrain(disk, WorkerStep(disk, s));
    }
  }

  lemma AmpleWorker(disk: Disk, s: Recorder)
    requires Inv(s) && s.open && s.file.good && s.queue != []
    requires forall k :: disk(k) >= |ClosedImage(s.json, s.accepted)|
    ensures WorkerStep(disk, s).file.good
  {
    hide FileStart, Entries, Healthy, Broken, Finished, ClosedImage;
    var p, t := Processed(s), s.queue[0];
    var size := |ClosedImage(s.json, s.accepted)|;
    assert t == TaskFor(s.accepted[p]);
    OneRecordLength(s.json, s.accepted, p);
    AmplePut(disk, s.file, RecordPrefix(t.payload), size);
    AmplePut(disk, Put(disk, s.file, RecordPrefix(t.payload)), t.buffer, size);
  }

  lemma OneRecordLength(json: seq<Byte>, frames: seq<Frame>, i: nat)
    requires i < |frames|
    ensures RECORD_BYTES <= |ClosedImage(json, frames)| && |FrameBytes(frames[i])| <= |ClosedImage(json, frames)|
  {
    hide FileStart, FrameBytes, TailFor, RecordPrefix;
    assert frames[..i + 1] == frames[..i] + [frames[i]];
    RecordsSnoc(frames[..i], frames[i]);
    ImagePrefix(json, frames, i + 1);
    OneRecord(frames[i]);
  }

  lemma OneRecord(f: Frame)
    ensures |Record(f)| == RECORD_BYTES + |FrameBytes(f)|
  {
  }

  // ---- when a recording loses nothing ------------------------------------------------------

  /** The disk takes whole the two stream operations of every queued record, from the n-th operation on. */
  predicate TakesRecords(disk: Disk, n: nat, queue: seq<Task>)
    decreases |queue|
  {
    queue == []
    || (disk(n) >= RECORD_BYTES && disk(n + 1) >= |queue[0].buffer| && TakesRecords(disk, n + 2, queue[1..]))
  }

  /** The queue drains without a failure exactly when the stream works and the disk takes every queued record. */
  lemma {:induction false} DrainSucceedsIff(disk: Disk, s: Recorder)
    ensures Drain(disk, s).file.good <==> s.file.good && TakesRecords(disk, s.file.calls, s.queue)
    decreases |s.queue|
  {
    hide WorkerStep;
    if s.queue != [] {
      WorkerSucceedsIff(disk, s);
      DrainSucceedsIff(disk, WorkerStep(disk, s));
    }
  }

  lemma WorkerSucceedsIff(disk: Disk, s: Recorder)
    requires s.queue != []
    ensures var r := WorkerStep(disk, s);
            && r.queue == s.queue[1..]
            && (r.file.good <==> s.file.good && disk(s.file.calls) >= RECORD_BYTES
                                 && disk(s.file.calls + 1) >= |s.queue[0].buffer|)
            && (r.file.good ==> r.file.calls == s.file.calls + 2)
  {
  }

  /**
   A close indexes every accepted frame if and only if no write has failed yet and
   the disk takes whole what is still queued; otherwise it indexes fewer.
   */
  lemma NothingIsDroppedIff(disk: Disk, s: Recorder)
    requires Inv(s) && s.open
    ensures var r := CloseStep(disk, s);
            && r.accepted == s.accepted && r.framesWritten == |r.index| <= |s.accepted|
            && (r.framesWritten == |s.accepted| <==> s.file.good && TakesRecords(disk, s.file.calls, s.queue))
  {
    hide OpenImage, Entries, FileStart, TasksFor, TakesRecords, PutTail, Drain;
    DrainKeepsInv(disk, s);
    EmptyAfterDrain(disk, s);
    DrainSucceedsIff(disk, s);
  }

  /** A disk that is full once the header and the metadata are on it. */
  function FullAfterHeader(json: seq<Byte>): Disk {
    k => if k < 2 then FILE_HEADER_BYTES + |json| else 0
  }

  /**
   A disk that fills up after the header: the frame recorded next is dropped, and
   the writer, closed and opened again, stays closed.
   */
  lemma FullDiskDropsFrames(json: seq<Byte>, f: Frame)
    ensures var disk := FullAfterHeader(json);
            var r := Run(disk, INITIAL, [Open(json, true), Write(f), Worker, Close, Open(json, true)]);
            && r.file.attached && !r.file.good && r.file.bytes == FileStart(json)
            && r.accepted == [f] && r.framesWritten == 0
            && !r.open && r.errors == [WriteFailed, CannotOpen]
  {
    hide Run, OpenStep, WriteStep, WorkerStep, CloseStep, FileStart;
    var disk := FullAfterHeader(json);
    RunOfFive(disk, INITIAL, Open(json, true), Write(f), Worker, Close, Open(json, true));
    FullDiskAfterHeader(json, f);
    FailedWriterStaysClosed(disk, WorkerStep(disk, WriteStep(OpenStep(disk, INITIAL, json, true), f)), json);
  }

  lemma RunOfFive(disk: Disk, s: Recorder, a: Op, b: Op, c: Op, d: Op, e: Op)
    ensures Run(disk, s, [a, b, c]) == Step(disk, Step(disk, Step(disk, s, a), b), c)
    ensures Run(disk, s, [a, b, c, d, e])
         == Step(disk, Step(disk, Step(disk, Step(disk, Step(disk, s, a), b), c), d), e)
  {
    hide Step;
    assert [a, b, c, d, e][..4] == [a, b, c, d] && [a, b, c, d][..3] == [a, b, c];
    assert [a, b, c][..2] == [a, b] && [a, b][..1] == [a] && [a][..0] == [];
    assert Run(disk, s, [a]) == Step(disk, s, a);
    assert Run(disk, s, [a, b]) == Step(disk, Run(disk, s, [a]), b);
    assert Run(disk, s, [a, b, c]) == Step(disk, Run(disk, s, [a, b]), c);
    assert Run(disk, s, [a, b, c, d]) == Step(disk, Run(disk, s, [a, b, c]), d);
  }

  lemma FullDiskAfterHeader(json: seq<Byte>, f: Frame)
    ensures var disk := FullAfterHeader(json);
            var s := WorkerStep(disk, WriteStep(OpenStep(disk, INITIAL, json, true), f));
            && s.open && s.queue == [] && s.file == OutFile(FileStart(json), false, true, 3)
            && s.accepted == [f] && s.framesWritten == 0 && s.errors == [WriteFailed]
  {
  }

  lemma FailedWriterStaysClosed(disk: Disk, s: Recorder, json: seq<Byte>)
    requires s.open && s.queue == [] && s.file.attached && !s.file.good
    ensures OpenStep(disk, CloseStep(disk, s), json, true) == s.(open := false, errors := s.errors + [CannotOpen])
  {
  }

  /** On a disk with room for it, a first frame is in the file after its worker turn. */
  lemma OneFrameIsWritten(disk: Disk, json: seq<Byte>, f: Frame)
    requires forall k :: disk(k) >= |ClosedImage(json, [f])|
    ensures var s := Run(disk, INITIAL, [Open(json, true), Write(f), Worker]);
            s.open && s.file.good && s.file.bytes == OpenImage(json, [f])
  {
    hide Run, Inv, OpenStep, WriteStep, WorkerStep, OpenImage, ClosedImage, TaskFor;
    RunOfFive(disk, INITIAL, Open(json, true), Write(f), Worker, Close, Close);
    var begun := OpenStep(disk, INITIAL, json, true);
    InitialInv();
    OpenKeepsInv(disk, INITIAL, json, true);
    OpenWithRoom(disk, json, f);
    WriteKeepsInv(begun, f);
    var queued := WriteStep(begun, f);
    FirstFrameIsQueued(begun, f);
    AmpleWorker(disk, queued);
    WorkerKeepsInv(disk, queued);
    WorkerSucceedsIff(disk, queued);
    AllProcessed(WorkerStep(disk, queued));
    TurnKeepsHistory(disk, queued);
  }

  lemma OpenWithRoom(disk: Disk, json: seq<Byte>, f: Frame)
    requires forall k :: disk(k) >= |ClosedImage(json, [f])|
    ensures var s := OpenStep(disk, INITIAL, json, true);
            s.open && s.file.good && s.json == json && s.accepted == [] && s.queue == []
  {
    hide TailFor, Records;
    assert |ClosedImage(json, [f])| >= |FileStart(json)| == FILE_HEADER_BYTES + |json|;
  }

  lemma FirstFrameIsQueued(s: Recorder, f: Frame)
    requires s.open && s.accepted == [] && s.queue == []
    ensures var r := WriteStep(s, f);
            && r.open && r.file == s.file && r.json == s.json && r.accepted == [f] && |r.queue| == 1
  {
  }

  lemma TurnKeepsHistory(disk: Disk, s: Recorder)
    ensures var r := WorkerStep(disk, s); r.json == s.json && r.accepted == s.accepted
  {
  }

  lemma AllProcessed(s: Recorder)
    requires Inv(s) && s.open && s.file.good && s.queue == []
    ensures s.file.bytes == OpenImage(s.json, s.accepted)
  {
    assert s.accepted[..|s.accepted|] == s.accepted;
  }

  /**
   Once a write has failed nothing is indexed or written again, whatever is called
   afterwards: close() leaves the stream attached to the failed file, so a later
   open() fails too and the writer stays closed from the first close or open on.
   */
  lemma {:induction false} FailureIsFinal(disk: Disk, s: Recorder, ops: seq<Op>)
    requires s.file.attached && !s.file.good
    ensures var r := Run(disk, s, ops);
            && r.file == s.file
            && r.index == s.index && r.framesWritten == s.framesWritten && r.bytesWritten == s.bytesWritten
            && (!s.open || (exists i :: 0 <= i < |ops| && (ops[i].Close? || ops[i].Open?)) ==> !r.open)
  {
    if ops != [] {
      var front, last := ops[..|ops| - 1], ops[|ops| - 1];
      FailureIsFinal(disk, s, front);
      var r := Run(disk, s, front);
      FailedStep(disk, r, last);
      if i: nat :| i < |ops| && (ops[i].Close? || ops[i].Open?) {
        assert i < |front| ==> front[i] == ops[i];
      }
    }
  }

  lemma FailedStep(disk: Disk, s: Recorder, op: Op)
    requires s.file.attached && !s.file.good
    ensures var r := Step(disk, s, op);
            && r.file == s.file
            && r.index == s.index && r.framesWritten == s.framesWritten && r.bytesWritten == s.bytesWritten
            && (!s.open || op.Close? || op.Open? ==> !r.open)
  {
    if s.open {
      FailedDrain(disk, s);
    }
  }

  lemma {:induction false} FailedDrain(disk: Disk, s: Recorder)
    requires !s.file.good
    ensures var r := Drain(disk, s);
            && r.file == s.file
            && r.index == s.index && r.framesWritten == s.framesWritten && r.bytesWritten == s.bytesWritten
    decreases |s.queue|
  {
    if s.queue != [] {
      FailedDrain(disk, WorkerStep(disk, s));
    }
  }
}
