/**
 What a caller of the writer may rely on, read off the calls alone: which frames a
 recording takes, and the file each recording leaves behind.
 */
module WholeRecordings {
  import opened Bytes
  import opened Sequences
  import opened CaptureFormat
  import opened Recording

  // ---- the frames a recording takes, on any disk ---------------------------------------

  /** A recording's metadata and frames, whether it still takes more, and whether there was one at all. */
  datatype Taken = Taken(json: seq<Byte>, frames: seq<Frame>, listening: bool, begun: bool)

  /**
   Every write() between an open() that succeeds and the next close() or open() counts,
   in call order. Only the outcome of open() is taken from the run.
   */
  function TakenBy(disk: Disk, ops: seq<Op>): Taken {
    if ops == [] then Taken([], [], false, false)
    else
      var before := TakenBy(disk, ops[..|ops| - 1]);
      match ops[|ops| - 1]
      case Open(json, _) =>
        if Run(disk, INITIAL, ops).open then Taken(json, [], true, true)
        else before.(listening := false, begun := false)
      case Write(f) => if before.listening then before.(frames := before.frames + [f]) else before
      case Worker => before
      case Close => before.(listening := false)
  }

  /** On any disk, a writer's recording is exactly that one. */
  lemma {:induction false} AcceptedIsWhatWasWritten(disk: Disk, ops: seq<Op>)
    ensures var s, t := Run(disk, INITIAL, ops), TakenBy(disk, ops);
            && s.accepted == t.frames && s.open == t.listening
            && (t.begun ==> s.begun && s.json == t.json)
  {
    hide Put, PutTail, TaskFor, FileHeader, RecordPrefix, Drain;
    if ops != [] {
      var front := ops[..|ops| - 1];
      AcceptedIsWhatWasWritten(disk, front);
      DrainKeepsCalls(disk, Run(disk, INITIAL, front));
    }
  }

  lemma {:induction false} DrainKeepsCalls(disk: Disk, s: Recorder)
    ensures var r := Drain(disk, s);
            r.accepted == s.accepted && r.open == s.open && r.json == s.json && r.begun == s.begun
    decreases |s.queue|
  {
    hide Put, RecordPrefix;
    if s.queue != [] {
      DrainKeepsCalls(disk, WorkerStep(disk, s));
    }
  }

  /**
   An open() succeeds if and only if the file can be opened, no failed file is still
   attached, and the disk takes the header and the metadata whole; otherwise it is
   reported why not.
   */
  lemma OpenSucceedsIff(disk: Disk, s: Recorder, json: seq<Byte>, canOpen: bool)
    ensures var c := CloseStep(disk, s);
            OpenStep(disk, s, json, canOpen).open
            <==> && canOpen && !c.file.attached
                 && disk(c.file.calls) >= 24 && disk(c.file.calls + 1) >= |json|
    ensures var c, r := CloseStep(disk, s), OpenStep(disk, s, json, canOpen);
            r.errors == c.errors + if r.open then []
                                   else if canOpen && !c.file.attached then [CannotWriteHeader] else [CannotOpen]
  {
    hide CloseStep;
    CloseFinishes(disk, s);
  }

  // ---- the files left behind, on a disk with room -----------------------------------------

  /** What the calls alone amount to: the file last closed, or a recording and its frames so far. */
  datatype Session = Idle(file: seq<Byte>) | Taking(json: seq<Byte>, frames: seq<Frame>)

  function FileOf(s: Session): seq<Byte> {
    match s
    case Idle(file) => file
    case Taking(json, frames) => ClosedImage(json, frames)
  }

  function After(s: Session, op: Op): Session {
    match op
    case Open(json, canOpen) => if canOpen then Taking(json, []) else Idle(FileOf(s))
    case Write(f) => if s.Taking? then Taking(s.json, s.frames + [f]) else s
    case Worker => s
    case Close => Idle(FileOf(s))
  }

  function Calls(ops: seq<Op>): Session {
    if ops == [] then Idle([]) else After(Calls(ops[..|ops| - 1]), ops[|ops| - 1])
  }

  /** No piece written by these calls is larger than `size`. */
  ghost predicate Small(ops: seq<Op>, size: nat) {
    && 24 * (|ops| + 1) <= size
    && forall i :: 0 <= i < |ops| ==>
         && (ops[i].Open? ==> |ops[i].json| <= size)
         && (ops[i].Write? ==> |FrameBytes(ops[i].frame)| <= size)
  }

  ghost predicate SmallFrames(frames: seq<Frame>, size: nat) {
    forall i :: 0 <= i < |frames| ==> |FrameBytes(frames[i])| <= size
  }

  /** A recorder in the state its calls amount to. */
  ghost predicate Matches(r: Recorder, s: Session, calls: nat, size: nat) {
    match s
    case Idle(file) => !r.open && !r.file.attached && r.file.bytes == file
    case Taking(json, frames) =>
      && r.open && r.file.good && r.json == json && r.accepted == frames
      && |frames| <= calls && SmallFrames(frames, size)
  }

  lemma {:induction false} SmallQueueIsTaken(disk: Disk, n: nat, frames: seq<Frame>, size: nat)
    requires SmallFrames(frames, size) && size >= 24 && forall k :: disk(k) >= size
    ensures TakesRecords(disk, n, TasksFor(frames))
    decreases |frames|
  {
    hide FrameBytes;
    if frames != [] {
      SmallQueueIsTaken(disk, n + 2, frames[1..], size);
      assert TasksFor(frames)[1..] == TasksFor(frames[1..]);
      assert TasksFor(frames)[0] == TaskFor(frames[0]);
    }
  }

  /** Closing leaves the file the calls amount to. */
  lemma CloseMatches(disk: Disk, r: Recorder, s: Session, calls: nat, size: nat)
    requires Inv(r) && Matches(r, s, calls, size) && 24 * (calls + 1) <= size && forall k :: disk(k) >= size
    ensures Matches(CloseStep(disk, r), Idle(FileOf(s)), calls, size)
    ensures r.open ==>
      && CloseStep(disk, r).file.good && CloseStep(disk, r).framesWritten == |s.frames|
      && CloseStep(disk, r).index == Entries(s.frames, |FileStart(s.json)|)
  {
    hide Inv, ClosedImage, TakesRecords, Entries, FileStart, SmallFrames, Drain, PutTail, TasksFor;
    if r.open {
      var p := Processed(r);
      QueueIsSmall(r, size);
      SmallQueueIsTaken(disk, r.file.calls, r.accepted[p..], size);
      DrainSucceedsIff(disk, r);
      DrainKeepsInv(disk, r);
      EmptyAfterDrain(disk, r);
      var d := Drain(disk, r);
      IndexIsShort(d);
      SmallTail(disk, d, size);
      GoodCloseLosesNothing(disk, r);
    } else {
      assert CloseStep(disk, r) == r;
    }
  }

  lemma QueueIsSmall(r: Recorder, size: nat)
    requires Inv(r) && SmallFrames(r.accepted, size)
    ensures 0 <= Processed(r) <= |r.accepted|
    ensures r.queue == TasksFor(r.accepted[Processed(r)..]) && SmallFrames(r.accepted[Processed(r)..], size)
  {
    hide OpenImage, Entries, FileStart, FrameBytes, TaskFor;
  }

  lemma IndexIsShort(d: Recorder)
    requires Inv(d)
    ensures |d.index| <= |d.accepted|
  {
    hide OpenImage, Entries, FileStart, TasksFor;
  }

  lemma SmallTail(disk: Disk, d: Recorder, size: nat)
    requires d.file.good && 24 * (|d.index| + 1) <= size && forall k :: disk(k) >= size
    ensures PutTail(disk, d.file, d.index).good
  {
    hide LittleEndian, EncodeEntries, Footer;
    var magic, count := LittleEndian(INDEX_MAGIC, 4), LittleEndian(|d.index|, 8);
    var f1 := Put(disk, d.file, magic);
    var f2 := Put(disk, f1, count);
    var f3 := Put(disk, f2, EncodeEntries(d.index));
    AmplePut(disk, d.file, magic, size);
    AmplePut(disk, f1, count, size);
    AmplePut(disk, f2, EncodeEntries(d.index), size);
    AmplePut(disk, f3, Footer(|d.file.bytes|, |d.index|), size);
  }

  lemma StepMatches(disk: Disk, r: Recorder, s: Session, op: Op, calls: nat, size: nat)
    requires Inv(r) && Matches(r, s, calls, size) && 24 * (calls + 2) <= size && forall k :: disk(k) >= size
    requires op.Open? ==> |op.json| <= size
    requires op.Write? ==> |FrameBytes(op.frame)| <= size
    ensures Matches(Step(disk, r, op), After(s, op), calls + 1, size)
  {
    hide Inv, ClosedImage, CloseStep, FrameBytes, TaskFor, WorkerStep, Put, FileHeader;
    match op
    case Open(json, canOpen) =>
      CloseMatches(disk, r, s, calls, size);
      OpenOnAmpleDisk(disk, r, json, canOpen, size);
    case Write(f) =>
    case Worker =>
      if r.open {
        TurnKeepsHistory(disk, r);
        WorkerKeepsInv(disk, r);
        TurnStaysGood(disk, r, size);
      } else {
        NothingQueued(disk, r);
      }
    case Close => CloseMatches(disk, r, s, calls, size);
  }

  lemma OpenOnAmpleDisk(disk: Disk, r: Recorder, json: seq<Byte>, canOpen: bool, size: nat)
    requires !CloseStep(disk, r).file.attached && !CloseStep(disk, r).open
    requires size >= 24 && |json| <= size && forall k :: disk(k) >= size
    ensures var c, s := CloseStep(disk, r), OpenStep(disk, r, json, canOpen);
            if canOpen then s.open && s.file.good && s.json == json && s.accepted == []
            else !s.open && !s.file.attached && s.file.bytes == c.file.bytes
  {
    hide CloseStep, FileHeader;
  }

  lemma TurnStaysGood(disk: Disk, r: Recorder, size: nat)
    requires Inv(r) && r.file.good && SmallFrames(r.accepted, size) && size >= 24 && forall k :: disk(k) >= size
    ensures WorkerStep(disk, r).file.good
  {
    hide Inv, WorkerStep, FrameBytes;
    if r.queue == [] {
      NothingQueued(disk, r);
    } else {
      QueueIsSmall(r, size);
      assert r.queue[0] == TaskFor(r.accepted[Processed(r)..][0]);
      WorkerSucceedsIff(disk, r);
    }
  }

  lemma NothingQueued(disk: Disk, r: Recorder)
    ensures r.queue == [] ==> WorkerStep(disk, r) == r
    ensures Inv(r) && !r.open ==> r.queue == []
  {
  }

  /**
   On a disk with room the calls alone decide everything: after any calls and worker
   turns the writer takes frames exactly when they say so, holds exactly their frames, and
   leaves the file they amount to, however the worker's turns fall between them.
   */
  lemma {:induction false} CallsDecideTheFile(disk: Disk, ops: seq<Op>, size: nat)
    requires Small(ops, size) && forall k :: disk(k) >= size
    ensures Inv(Run(disk, INITIAL, ops)) && Matches(Run(disk, INITIAL, ops), Calls(ops), |ops|, size)
  {
    hide Inv, Step, After, Matches, FrameBytes;
    if ops == [] {
      InitialInv();
      InitialMatches(size);
    } else {
      var front := ops[..|ops| - 1];
      assert forall i :: 0 <= i < |front| ==> front[i] == ops[i];
      CallsDecideTheFile(disk, front, size);
      StepKeepsInv(disk, Run(disk, INITIAL, front), ops[|ops| - 1]);
      StepMatches(disk, Run(disk, INITIAL, front), Calls(front), ops[|ops| - 1], |front|, size);
    }
  }

  lemma InitialMatches(size: nat)
    ensures Matches(INITIAL, Idle([]), 0, size)
  {
  }

  function WritesIn(ops: seq<Op>): seq<Frame> {
    if ops == [] then []
    else
      var last := ops[|ops| - 1];
      WritesIn(ops[..|ops| - 1]) + if last.Write? then [last.frame] else []
  }

  lemma {:induction false} CallsOfRecording(before: seq<Op>, json: seq<Byte>, body: seq<Op>)
    requires forall i :: 0 <= i < |body| ==> body[i].Write? || body[i].Worker?
    ensures Calls(before + [Open(json, true)] + body) == Taking(json, WritesIn(body))
    decreases |body|
  {
    var ops := before + [Open(json, true)] + body;
    if body == [] {
      assert ops[..|ops| - 1] == before;
    } else {
      var front := body[..|body| - 1];
      CallsOfRecording(before, json, front);
      assert ops[..|ops| - 1] == before + [Open(json, true)] + front;
    }
  }

  /**
   One whole recording, whatever came before it and however the worker's turns fall
   between its writes: the file it leaves is the closed image of exactly the frames
   written, in call order, and the index lists them all.
   */
  lemma WholeRecording(disk: Disk, before: seq<Op>, json: seq<Byte>, body: seq<Op>, size: nat)
    requires Small(before + [Open(json, true)] + body + [Close], size) && forall k :: disk(k) >= size
    requires forall i :: 0 <= i < |body| ==> body[i].Write? || body[i].Worker?
    ensures var r, frames := Run(disk, INITIAL, before + [Open(json, true)] + body + [Close]), WritesIn(body);
            && !r.open && r.file.good && r.file.bytes == ClosedImage(json, frames)
            && r.framesWritten == |frames| && r.index == Entries(frames, |FileStart(json)|)
  {
    hide Inv, Matches, Run, CloseStep, FrameBytes, ClosedImage;
    var ops := before + [Open(json, true)] + body;
    var all := ops + [Close];
    SmallerCalls(all, ops, size);
    CallsDecideTheFile(disk, ops, size);
    CallsOfRecording(before, json, body);
    RunSnoc(disk, INITIAL, ops, Close);
    CloseMatches(disk, Run(disk, INITIAL, ops), Calls(ops), |ops|, size);
    TakingIsOpen(Run(disk, INITIAL, ops), Calls(ops), |ops|, size);
    IdleFile(CloseStep(disk, Run(disk, INITIAL, ops)), ClosedImage(json, WritesIn(body)), |ops|, size);
  }

  lemma SmallerCalls(all: seq<Op>, ops: seq<Op>, size: nat)
    requires Small(all, size) && ops <= all
    ensures Small(ops, size)
  {
    hide FrameBytes;
    assert forall i :: 0 <= i < |ops| ==> ops[i] == all[i];
  }

  lemma RunSnoc(disk: Disk, s: Recorder, ops: seq<Op>, op: Op)
    ensures Run(disk, s, ops + [op]) == Step(disk, Run(disk, s, ops), op)
  {
    hide Step;
    assert (ops + [op])[..|ops|] == ops;
  }

  lemma TakingIsOpen(r: Recorder, s: Session, calls: nat, size: nat)
    requires Matches(r, s, calls, size) && s.Taking?
    ensures r.open
  {
  }

  lemma IdleFile(r: Recorder, file: seq<Byte>, calls: nat, size: nat)
    requires Matches(r, Idle(file), calls, size)
    ensures !r.open && r.file.bytes == file
  {
  }

  // ---- the backlog ---------------------------------------------------------------------

  function WriteAll(s: Recorder, frames: seq<Frame>): Recorder {
    if frames == [] then s else WriteStep(WriteAll(s, frames[..|frames| - 1]), frames[|frames| - 1])
  }

  /** Writes the worker does not get to are reported when there are more than 256 of them, and only once. */
  lemma {:induction false} BacklogIsReportedOnce(s: Recorder, frames: seq<Frame>)
    requires s.open && s.pending == 0 && !s.backlogReported
    ensures var r := WriteAll(s, frames);
            && r.open && r.pending == |frames| && r.backlogReported == (|frames| > 256)
            && r.errors == s.errors + if |frames| > 256 then [DiskNotKeepingUp] else []
  {
    hide TaskFor;
    if frames != [] {
      BacklogIsReportedOnce(s, frames[..|frames| - 1]);
    }
  }
}
