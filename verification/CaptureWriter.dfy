/**
 The capture writer. write() copies the frame on the calling thread and queues it;
 the worker appends queued frames to the file one at a time; close() waits for the
 worker before it writes the index and the footer. The file lock makes each worker
 turn and the end of close() one step.
 */
module CaptureWriter {
  import opened Bytes
  import opened Sequences
  import opened CaptureFormat
  import opened Recording

  lemma WorkerShortensQueue(disk: Disk, s: Recorder)
    requires s.queue != []
    ensures |WorkerStep(disk, s).queue| < |s.queue|
  {
  }

  class CaptureWriter {
    const disk: Disk

    var file: OutFile
    var isOpen: bool
    var index: seq<IndexEntry>
    var framesWritten: nat
    var bytesWritten: nat
    var pending: int
    var backlogReported: bool
    var queue: seq<Task>
    var errors: seq<CaptureError>

    ghost var json: seq<Byte>
    ghost var accepted: seq<Frame>
    ghost var begun: bool

    ghost function State(): Recorder
      reads this
    {
      Recorder(file, isOpen, index, framesWritten, bytesWritten, pending, backlogReported,
               queue, errors, json, accepted, begun)
    }

    constructor (disk: Disk)
      ensures this.disk == disk && State() == INITIAL
    {
      this.disk := disk;
      file := OutFile([], true, false, 0);
      isOpen, index, framesWritten, bytesWritten, pending := false, [], 0, 0, 0;
      backlogReported, queue, errors := false, [], [];
      json, accepted, begun := [], [], false;
    }

    /** `canOpen` is the file system's answer for the path; `metadata` is the JSON text. */
    method Open(metadata: seq<Byte>, canOpen: bool) returns (ok: bool)
      requires Inv(State())
      modifies this
      ensures State() == OpenStep(disk, old(State()), metadata, canOpen) && Inv(State())
      ensures ok == isOpen
    {
      hide Inv, FileHeader, Put, CloseStep;
      OpenKeepsInv(disk, State(), metadata, canOpen);
      CloseFinishes(disk, State());
      Close();
      if file.attached || !canOpen {
        file := file.(good := false);
        errors := errors + [CannotOpen];
        return false;
      }
      ok := StartFile(metadata);
    }

    /** A new file with its header and metadata, and the counters of a new recording. */
    method StartFile(metadata: seq<Byte>) returns (ok: bool)
      requires !isOpen
      modifies this
      ensures var out := Put(disk, Put(disk, OutFile([], true, true, old(file).calls), FileHeader(metadata)), metadata);
              && ok == out.good
              && queue == old(queue)
              && (ok ==>
                    && file == out && isOpen && index == [] && framesWritten == 0 && pending == 0 && !backlogReported
                    && bytesWritten == FILE_HEADER_BYTES + |metadata|
                    && errors == old(errors) && json == metadata && accepted == [] && begun)
              && (!ok ==>
                    State() == old(State()).(file := out.(attached := false),
                                             errors := old(errors) + [CannotWriteHeader], begun := false))
    {
      hide FileHeader, Put;
      var out := OutFile([], true, true, file.calls);
      out := Put(disk, out, FileHeader(metadata));
      out := Put(disk, out, metadata);
      if !out.good {
        errors := errors + [CannotWriteHeader];
        file := out.(attached := false);
        begun := false;
        return false;
      }
      file := out;
      index, framesWritten := [], 0;
      bytesWritten := FILE_HEADER_BYTES + |metadata|;
      pending, backlogReported, isOpen := 0, false, true;
      json, accepted, begun := metadata, [], true;
      ok := true;
    }

    method Write(frame: Frame)
      requires Inv(State()) && WellFormed(frame)
      modifies this
      ensures State() == WriteStep(old(State()), frame) && Inv(State())
    {
      hide Inv, FrameBytes;
      WriteKeepsInv(State(), frame);
      if !isOpen { return; }
      var payload := ChannelCount(frame.header) * SampleCount(frame.header) * 2;
      var buffer := CopyOf(frame);
      pending := pending + 1;
      var depth := pending;
      if depth > BACKLOG_WARNING && !backlogReported {
        errors := errors + [DiskNotKeepingUp];
      }
      backlogReported := backlogReported || depth > BACKLOG_WARNING;
      queue := queue + [Task(buffer, payload, TimestampBits(frame.header), StartSampleIndex(frame.header))];
      accepted := accepted + [frame];
    }

    /** The copy taken on the calling thread: the header, then one plane after another. */
    method CopyOf(frame: Frame) returns (buffer: seq<Byte>)
      requires WellFormed(frame)
      ensures buffer == FrameBytes(frame)
    {
      buffer := frame.header;
      for p := 0 to ChannelCount(frame.header)
        invariant buffer == frame.header + Flatten(frame.planes[..p])
      {
        assert frame.planes[..p + 1] == frame.planes[..p] + [frame.planes[p]];
        FlattenConcat(frame.planes[..p], [frame.planes[p]]);
        FlattenSingle(frame.planes[p]);
        Associate<Byte>(frame.header, Flatten(frame.planes[..p]), frame.planes[p]);
        buffer := buffer + frame.planes[p];
      }
      assert frame.planes[..|frame.planes|] == frame.planes;
    }

    /** One turn of the worker: the oldest queued frame goes to the file. */
    method RunWorker()
      requires Inv(State())
      modifies this
      ensures State() == WorkerStep(disk, old(State())) && Inv(State())
    {
      hide Inv, Put, RecordPrefix;
      WorkerKeepsInv(disk, State());
      if queue == [] { return; }
      var task := queue[0];
      queue := queue[1..];
      pending := pending - 1;
      if !file.good { return; }
      WriteRecord(task);
    }

    /** Prefix and buffer go to the stream; the record is indexed when both were taken. */
    method WriteRecord(task: Task)
      modifies this`file, this`index, this`framesWritten, this`bytesWritten, this`errors
      ensures file == Put(disk, Put(disk, old(file), RecordPrefix(task.payload)), task.buffer)
      ensures file.good ==>
        && index == old(index) + [IndexEntry(|old(file).bytes|, task.timestampBits, task.startSampleIndex)]
        && framesWritten == old(framesWritten) + 1
        && bytesWritten == old(bytesWritten) + RECORD_BYTES + |task.buffer|
        && errors == old(errors)
      ensures !file.good ==>
        && index == old(index) && framesWritten == old(framesWritten) && bytesWritten == old(bytesWritten)
        && errors == old(errors) + [WriteFailed]
    {
      hide Put, RecordPrefix;
      var entry := IndexEntry(|file.bytes|, task.timestampBits, task.startSampleIndex);
      file := Put(disk, file, RecordPrefix(task.payload));
      file := Put(disk, file, task.buffer);
      if file.good {
        index := index + [entry];
        framesWritten := framesWritten + 1;
        bytesWritten := bytesWritten + RECORD_BYTES + |task.buffer|;
      } else {
        errors := errors + [WriteFailed];
      }
    }

    method Close()
      requires Inv(State())
      modifies this
      ensures State() == CloseStep(disk, old(State())) && Inv(State())
    {
      hide Inv, Put, WorkerStep, LittleEndian, EncodeEntries, Footer;
      CloseKeepsInv(disk, State());
      if !isOpen { return; }
      while queue != []
        invariant Inv(State())
        invariant Drain(disk, State()) == Drain(disk, old(State()))
        decreases |queue|
      {
        WorkerShortensQueue(disk, State());
        RunWorker();
      }
      if file.good {
        var indexOffset, count := |file.bytes|, |index|;
        file := Put(disk, file, LittleEndian(INDEX_MAGIC, 4));
        file := Put(disk, file, LittleEndian(count, 8));
        file := Put(disk, file, EncodeEntries(index));
        file := Put(disk, file, Footer(indexOffset, count));
        file := file.(attached := false);
      }
      isOpen := false;
    }
  }
}
