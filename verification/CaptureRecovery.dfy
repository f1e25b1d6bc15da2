/**
 Writer and reader together: what a file that was cut anywhere, or closed, or left
 behind by a failed disk gives back when it is opened.
 */
module CaptureRecovery {
  import opened Bytes
  import opened Sequences
  import opened CaptureFormat
  import opened CaptureScan
  import opened Recording

  ghost predicate Storable(frames: seq<Frame>) {
    forall f :: f in frames ==> WellFormed(f) && Fits(f)
  }

  function FramesBegin(json: seq<Byte>): nat { |FileStart(json)| }

  /** How many of the records laid out from `base` end by position `n`. */
  function WholeWithin(frames: seq<Frame>, base: nat, n: nat): (k: nat)
    ensures k <= |frames|
  {
    if frames == [] then 0
    else if base + |Records(frames)| <= n then |frames|
    else WholeWithin(frames[..|frames| - 1], base, n)
  }

  lemma RecordsGrow(frames: seq<Frame>, i: nat, j: nat)
    requires i < j <= |frames|
    ensures |Records(frames[..i])| < |Records(frames[..j])|
  {
    assert frames[..j] == frames[..i] + frames[i..j];
    RecordsConcat(frames[..i], frames[i..j]);
    FirstRecord(frames[i..j], 0);
  }

  lemma {:induction false} WholeWithinIs(frames: seq<Frame>, base: nat, n: nat, k: nat)
    requires k <= |frames|
    requires k > 0 ==> base + |Records(frames[..k])| <= n
    requires k < |frames| ==> base + |Records(frames[..k + 1])| > n
    ensures WholeWithin(frames, base, n) == k
  {
    if k == |frames| {
      assert frames[..k] == frames;
    } else {
      var front := frames[..|frames| - 1];
      assert frames[..|frames|] == frames;
      if k + 1 < |frames| {
        RecordsGrow(frames, k + 1, |frames|);
      }
      assert front[..k] == frames[..k];
      if k < |front| {
        assert front[..k + 1] == frames[..k + 1];
      }
      WholeWithinIs(front, base, n, k);
    }
  }

  // ---- the file's beginning --------------------------------------------------------

  lemma HeaderFields(json: seq<Byte>)
    requires |json| < TWO_32
    ensures var h := FileHeader(json);
            h[..8] == MAGIC && FieldAt(h, 12, 4) == VERSION && FieldAt(h, 16, 4) == FLAG_NONE
            && FieldAt(h, 20, 4) == |json|
  {
    Widths();
    var s, v, g, j := LittleEndian(FILE_HEADER_BYTES, 4), LittleEndian(VERSION, 4),
                      LittleEndian(FLAG_NONE, 4), LittleEndian(|json|, 4);
    LittleEndianExact(VERSION, 4);
    LittleEndianExact(FLAG_NONE, 4);
    LittleEndianExact(|json|, 4);
    ThreeFields(MAGIC + s, v, g);
    ThreeFields(MAGIC + s + v, g, j);
  }

  lemma StartReadsBack(b: seq<Byte>, json: seq<Byte>)
    requires FileStart(json) <= b && |json| < TWO_32
    ensures HeaderAccepted(b) && FieldAt(b, 20, 4) == |json|
    ensures b[FILE_HEADER_BYTES..FramesBegin(json)] == json
  {
    hide FileHeader;
    HeaderFields(json);
    var h := FileHeader(json);
    assert Holds(b, 0, FileStart(json));
    HoldsParts(b, 0, h, json);
    HeldSlice(b, 0, h, 0, 8);
    HeldSlice(b, 0, h, 12, 16);
    HeldSlice(b, 0, h, 16, 20);
    HeldSlice(b, 0, h, 20, 24);
  }

  /** A file cut inside its header or metadata is refused. */
  lemma ShortFileIsRefused(parses: seq<Byte> -> bool, json: seq<Byte>, n: nat)
    requires |json| < TWO_32 && n < |FileStart(json)|
    ensures Interpret(parses, FileStart(json)[..n]) == Refused
  {
    var b := FileStart(json);
    StartReadsBack(b, json);
    if n >= FILE_HEADER_BYTES {
      PrefixSlice(b, n, 20, 24);
    }
  }

  // ---- the records of a closed image ---------------------------------------------------

  lemma ImageHolds(json: seq<Byte>, frames: seq<Frame>)
    ensures var b, base := ClosedImage(json, frames), FramesBegin(json);
            && Holds(b, base, Records(frames))
            && Holds(b, |OpenImage(json, frames)|, IndexBlock(Entries(frames, base)))
            && Holds(b, |b| - FOOTER_BYTES, Footer(|OpenImage(json, frames)|, |frames|))
  {
    hide FileStart, Records, Entries, IndexBlock, Footer;
    var start, records := FileStart(json), Records(frames);
    var block := IndexBlock(Entries(frames, |start|));
    var footer := Footer(|OpenImage(json, frames)|, |frames|);
    HoldsAfter(start, records, block + footer);
    HoldsAfter(start + records, block, footer);
    HoldsAfter(start + records + block, footer, []);
    Associate(start + records, block, footer);
    assert (start + records + block + footer) + [] == start + records + block + footer;
  }

  lemma TailIsNoRecord(json: seq<Byte>, frames: seq<Frame>)
    ensures Scan(ClosedImage(json, frames), |OpenImage(json, frames)|) == []
  {
    var b, at := ClosedImage(json, frames), |OpenImage(json, frames)|;
    var entries := Entries(frames, FramesBegin(json));
    ImageHolds(json, frames);
    IndexBlockFields(b, at, entries);
  }

  lemma IndexBlockFields(b: seq<Byte>, at: nat, es: seq<IndexEntry>)
    requires Holds(b, at, IndexBlock(es))
    ensures FieldAt(b, at, 4) == INDEX_MAGIC
    ensures |es| < TWO_64 ==> FieldAt(b, at + 4, 8) == |es|
    ensures Holds(b, at + 12, EncodeEntries(es))
  {
    hide EncodeEntries, FieldAt;
    var magic, count := LittleEndian(INDEX_MAGIC, 4), LittleEndian(|es|, 8);
    HoldsParts(b, at, magic + count, EncodeEntries(es));
    HoldsParts(b, at, magic, count);
    CountFields(b, at, |es|);
  }

  lemma CountFields(b: seq<Byte>, at: nat, n: nat)
    requires Holds(b, at, LittleEndian(INDEX_MAGIC, 4)) && Holds(b, at + 4, LittleEndian(n, 8))
    ensures FieldAt(b, at, 4) == INDEX_MAGIC
    ensures n < TWO_64 ==> FieldAt(b, at + 4, 8) == n
  {
    Widths();
    LittleEndianExact(INDEX_MAGIC, 4);
    if n < TWO_64 {
      LittleEndianExact(n, 8);
    }
  }

  /** A scan of a closed file finds its frames and stops at the index block. */
  lemma ScanOfClosedImage(json: seq<Byte>, frames: seq<Frame>)
    requires Storable(frames)
    ensures Scan(ClosedImage(json, frames), FramesBegin(json)) == Entries(frames, FramesBegin(json))
  {
    hide ClosedImage, FileStart, Records, Entries, IndexBlock, Footer, Holds, Scan, WellFormed, Fits;
    var b, base := ClosedImage(json, frames), FramesBegin(json);
    ImageHolds(json, frames);
    ScanFindsRecords(b, base, frames);
    TailIsNoRecord(json, frames);
  }

  lemma RecordEndsAt(b: seq<Byte>, base: nat, frames: seq<Frame>, i: nat)
    requires Storable(frames) && Holds(b, base, Records(frames)) && i < |frames|
    ensures var at := base + |Records(frames[..i])|;
            && at + HEAD <= |b| && RecordEnd(b, at) == base + |Records(frames[..i + 1])|
            && Holds(b, at, Record(frames[i]))
  {
    hide Record, Records, RecordEnd, WellFormed, Fits;
    var done, f, rest := frames[..i], frames[i], frames[i + 1..];
    assert frames == (done + [f]) + rest;
    assert frames[..i + 1] == done + [f];
    RecordsSnoc(done, f);
    RecordsConcat(done + [f], rest);
    HoldsParts(b, base, Records(done + [f]), Records(rest));
    HoldsParts(b, base, Records(done), Record(f));
    RecordIsWhole(b, base + |Records(done)|, f);
  }

  lemma EntryOffset(frames: seq<Frame>, base: nat, i: nat)
    requires i < |frames|
    ensures Entries(frames, base)[i].fileOffset == base + |Records(frames[..i])|
  {
  }

  // ---- truncation ------------------------------------------------------------------------

  /**
   A file cut at any byte after its metadata gives, when scanned, exactly the
   frames whose records lie wholly inside it, in the order they were written.
   */
  lemma ScanOfCutImage(json: seq<Byte>, frames: seq<Frame>, n: nat)
    requires Storable(frames) && |FileStart(json)| <= n <= |ClosedImage(json, frames)|
    ensures var base := FramesBegin(json);
            Scan(ClosedImage(json, frames)[..n], base) == Entries(frames[..WholeWithin(frames, base, n)], base)
  {
    hide ClosedImage, FileStart, Records, Entries, IndexBlock, Footer, Holds, Scan, Storable, WholeRecord, RecordEnd,
         Record;
    var b, base := ClosedImage(json, frames), FramesBegin(json);
    var whole, cut := Entries(frames, base), Scan(b[..n], base);
    ScanOfClosedImage(json, frames);
    ScanOfTruncation(b, n, base);
    ImageHolds(json, frames);
    var k := |cut|;
    if k > 0 {
      RecordEndsAt(b, base, frames, k - 1);
      EntryOffset(frames, base, k - 1);
      assert cut[k - 1] == whole[k - 1] && cut[k - 1] in cut;
    }
    if k < |frames| {
      RecordEndsAt(b, base, frames, k);
      EntryOffset(frames, base, k);
    }
    WholeWithinIs(frames, base, n, k);
    EntriesTake(frames, k, base);
  }

  /** Opening a cut file with no usable footer recovers exactly its whole frames. */
  lemma OpenOfCutImage(parses: seq<Byte> -> bool, json: seq<Byte>, frames: seq<Frame>, n: nat)
    requires Storable(frames) && |json| < TWO_32 && parses(json)
    requires |FileStart(json)| <= n <= |ClosedImage(json, frames)|
    requires FooterIndex(ClosedImage(json, frames)[..n]).None?
    ensures var base := FramesBegin(json);
            Interpret(parses, ClosedImage(json, frames)[..n])
            == Opened(json, Entries(frames[..WholeWithin(frames, base, n)], base), true)
  {
    hide FileHeader, Records, TailFor, Entries, Storable, Scan;
    var b := ClosedImage(json, frames)[..n];
    ImagePrefix(json, frames, 0);
    StartReadsBack(b, json);
    ScanOfCutImage(json, frames, n);
  }

  // ---- a file that was closed ----------------------------------------------------------

  lemma {:induction false} FlattenSlice<T>(chunks: seq<seq<T>>, each: nat, i: nat)
    requires forall j :: 0 <= j < |chunks| ==> |chunks[j]| == each
    requires i < |chunks|
    ensures |Flatten(chunks)| == |chunks| * each && each * i + each <= |chunks| * each
    ensures Flatten(chunks)[each * i..each * i + each] == chunks[i]
  {
    FlattenLength(chunks, each);
    PlanesLieInside(|chunks|, each, i);
    if i > 0 {
      FlattenSlice(chunks[1..], each, i - 1);
      var rest := Flatten(chunks[1..]);
      assert each * i == each + each * (i - 1);
      SliceAfter(chunks[0], rest, each * (i - 1), each * (i - 1) + each);
    }
  }

  lemma SliceAfter<T>(a: seq<T>, b: seq<T>, i: nat, j: nat)
    requires i <= j <= |b|
    ensures (a + b)[|a| + i..|a| + j] == b[i..j]
  {
  }

  lemma StoredEntriesReadBack(b: seq<Byte>, at: nat, es: seq<IndexEntry>)
    requires Holds(b, at, EncodeEntries(es))
    requires forall e :: e in es ==> EntryFits(e)
    ensures StoredEntries(b, at, |es|) == es
  {
    forall i | 0 <= i < |es| ensures StoredEntry(b, at + ENTRY_BYTES * i) == es[i] {
      EncodedEntry(es, i);
      HeldSlice(b, at, EncodeEntries(es), ENTRY_BYTES * i, ENTRY_BYTES * i + ENTRY_BYTES);
      assert es[i] in es;
      StoredEntryReadsBack(b, at + ENTRY_BYTES * i, es[i]);
    }
  }

  lemma EncodedEntry(es: seq<IndexEntry>, i: nat)
    requires i < |es|
    ensures EncodeEntries(es)[ENTRY_BYTES * i..ENTRY_BYTES * i + ENTRY_BYTES] == EncodeEntry(es[i])
  {
    var list := seq(|es|, k requires 0 <= k < |es| => EncodeEntry(es[k]));
    FlattenSlice(list, ENTRY_BYTES, i);
  }

  lemma StoredEntryReadsBack(b: seq<Byte>, at: nat, e: IndexEntry)
    requires Holds(b, at, EncodeEntry(e))
    requires EntryFits(e)
    ensures StoredEntry(b, at) == e
  {
    hide EncodeEntry;
    EntryReadsBack(e);
    HeldSlice(b, at, EncodeEntry(e), 0, 8);
    HeldSlice(b, at, EncodeEntry(e), 8, 16);
    HeldSlice(b, at, EncodeEntry(e), 16, 24);
  }

  ghost predicate EntryFits(e: IndexEntry) {
    e.fileOffset < TWO_64 && e.timestampBits < TWO_64 && e.startSampleIndex < TWO_64
  }

  lemma EntriesFit(json: seq<Byte>, frames: seq<Frame>)
    requires |ClosedImage(json, frames)| < TWO_63
    ensures |OpenImage(json, frames)| < TWO_64 && |frames| < TWO_64
    ensures forall e :: e in Entries(frames, FramesBegin(json)) ==> EntryFits(e)
  {
    hide ClosedImage, OpenImage, FileStart, Records, Record;
    var base := FramesBegin(json);
    OpenImageSize(json, frames);
    ClosedImageSize(json, frames);
    assert frames[..|frames|] == frames;
    forall i | 0 <= i < |frames| ensures EntryFits(Entries(frames, base)[i]) {
      RecordsGrow(frames, i, |frames|);
      HeaderFieldsFit(frames[i].header);
    }
  }

  lemma FooterLeadsToIndex(json: seq<Byte>, frames: seq<Frame>)
    requires |ClosedImage(json, frames)| < TWO_63
    ensures FooterIndex(ClosedImage(json, frames)) == Some(Entries(frames, FramesBegin(json)))
  {
    hide FileStart, Records, Entries, IndexBlock, Footer, EncodeEntries, StoredEntries, FieldAt;
    var b, base := ClosedImage(json, frames), FramesBegin(json);
    var es, at, footer := Entries(frames, base), |OpenImage(json, frames)|, |b| - FOOTER_BYTES;
    EntriesFit(json, frames);
    ImageHolds(json, frames);
    FooterFields(b, footer, at, |frames|);
    IndexBlockFields(b, at, es);
    StoredEntriesReadBack(b, at + 12, es);
  }

  lemma FooterFields(b: seq<Byte>, at: nat, indexOffset: nat, count: nat)
    requires Holds(b, at, Footer(indexOffset, count)) && indexOffset < TWO_64 && count < TWO_64
    ensures b[at..at + 8] == FOOTER_MAGIC && FieldAt(b, at + 8, 8) == indexOffset
  {
    hide Footer;
    FooterReadsBack(indexOffset, count);
    HeldSlice(b, at, Footer(indexOffset, count), 0, 8);
    HeldSlice(b, at, Footer(indexOffset, count), 8, 16);
  }

  /**
   The index a clean close leaves behind is the index a scan would rebuild: opening
   takes the fast path and both agree, entry for entry.
   */
  lemma FooterIndexRefinesScan(parses: seq<Byte> -> bool, json: seq<Byte>, frames: seq<Frame>)
    requires Storable(frames) && |json| < TWO_32 && parses(json)
    requires |ClosedImage(json, frames)| < TWO_63
    ensures var b, base := ClosedImage(json, frames), FramesBegin(json);
            && Interpret(parses, b) == Opened(json, Entries(frames, base), false)
            && Scan(b, base) == Entries(frames, base)
  {
    hide FileHeader, Records, TailFor, Entries, Storable, FooterIndex, Scan, HeaderAccepted;
    var b := ClosedImage(json, frames);
    ImagePrefix(json, frames, 0);
    StartReadsBack(b, json);
    FooterLeadsToIndex(json, frames);
    ScanOfClosedImage(json, frames);
  }

  // ---- frames read back -------------------------------------------------------------------

  /** A record in the file reads back as the frame it was made from, plane for plane. */
  lemma RecordReadsBack(b: seq<Byte>, at: nat, f: Frame)
    requires WellFormed(f) && Fits(f) && Holds(b, at, Record(f))
    ensures StoredFrame(b, at) == Some(f)
  {
    hide Record, Flatten, EntryAt, EntryFor;
    var count, each := ChannelCount(f.header), 2 * SampleCount(f.header);
    RecordIsWhole(b, at, f);
    RecordPieces(b, at, f);
    FlattenLength(f.planes, each);
    PlanesReadBack(b, at + HEAD, f.planes, each);
  }

  lemma PlanesReadBack(b: seq<Byte>, at: nat, planes: seq<seq<Byte>>, each: nat)
    requires forall p :: 0 <= p < |planes| ==> |planes[p]| == each
    requires Holds(b, at, Flatten(planes))
    ensures at + |planes| * each <= |b| && PlanesAt(b, at, |planes|, each) == planes
  {
    FlattenLength(planes, each);
    forall p | 0 <= p < |planes| ensures PlanesAt(b, at, |planes|, each)[p] == planes[p] {
      PlaneReadsBack(b, at, planes, each, p);
    }
  }

  lemma PlaneReadsBack(b: seq<Byte>, at: nat, planes: seq<seq<Byte>>, each: nat, p: nat)
    requires forall q :: 0 <= q < |planes| ==> |planes[q]| == each
    requires Holds(b, at, Flatten(planes)) && p < |planes|
    ensures at + each * p + each <= |b| && b[at + each * p..at + each * p + each] == planes[p]
  {
    hide Flatten, Holds;
    var i := each * p;
    FlattenSlice(planes, each, p);
    HeldPart(b, at, Flatten(planes), i, i + each);
  }

  lemma HeldPart(b: seq<Byte>, at: nat, s: seq<Byte>, i: nat, j: nat)
    requires Holds(b, at, s) && i <= j <= |s|
    ensures at + j <= |b| && b[at + i..at + j] == s[i..j]
  {
    HeldSlice(b, at, s, i, j);
  }

  /** Every frame a cut or closed file offers is the frame that was given to write(). */
  lemma OfferedFrameReadsBack(json: seq<Byte>, frames: seq<Frame>, n: nat, i: nat)
    requires Storable(frames) && |FileStart(json)| <= n <= |ClosedImage(json, frames)|
    requires i < WholeWithin(frames, FramesBegin(json), n)
    ensures StoredFrame(ClosedImage(json, frames)[..n], Entries(frames, FramesBegin(json))[i].fileOffset)
         == Some(frames[i])
  {
    hide FileStart, Records, ClosedImage, Record, RecordEnd, WellFormed, Fits, Entries, IndexBlock, Footer;
    var b, base := ClosedImage(json, frames), FramesBegin(json);
    var at := base + |Records(frames[..i])|;
    EntryOffset(frames, base, i);
    ImageHolds(json, frames);
    RecordEndsAt(b, base, frames, i);
    WholeWithinBound(frames, base, n, i);
    assert frames[..i + 1] == frames[..i] + [frames[i]];
    RecordsSnoc(frames[..i], frames[i]);
    PrefixSlice(b, n, at, at + |Record(frames[i])|);
    RecordReadsBack(b[..n], at, frames[i]);
  }

  lemma {:induction false} WholeWithinBound(frames: seq<Frame>, base: nat, n: nat, i: nat)
    requires i < WholeWithin(frames, base, n)
    ensures base + |Records(frames[..i + 1])| <= n
  {
    if base + |Records(frames)| <= n {
      assert frames[..|frames|] == frames;
      if i + 1 < |frames| {
        RecordsGrow(frames, i + 1, |frames|);
      }
    } else {
      var front := frames[..|frames| - 1];
      WholeWithinBound(front, base, n, i);
      assert front[..i + 1] == frames[..i + 1];
    }
  }

  // ---- whole recordings ----------------------------------------------------------------------

  /** Calls the container can represent: the 32-bit length fields hold what is stored. */
  ghost predicate Representable(parses: seq<Byte> -> bool, op: Op) {
    match op
    case Open(json, _) => |json| < TWO_32 && parses(json)
    case Write(f) => WellFormed(f) && Fits(f)
    case _ => true
  }

  ghost predicate RepresentableState(parses: seq<Byte> -> bool, s: Recorder) {
    Storable(s.accepted) && (s.begun ==> |s.json| < TWO_32 && parses(s.json))
  }

  lemma {:induction false} DrainKeepsHistory(disk: Disk, s: Recorder)
    ensures var r := Drain(disk, s);
            r.accepted == s.accepted && r.json == s.json && r.begun == s.begun
    decreases |s.queue|
  {
    if s.queue != [] {
      DrainKeepsHistory(disk, WorkerStep(disk, s));
    }
  }

  lemma {:induction false} RunIsRepresentable(parses: seq<Byte> -> bool, disk: Disk, ops: seq<Op>)
    requires forall i :: 0 <= i < |ops| ==> Representable(parses, ops[i])
    ensures RepresentableState(parses, Run(disk, INITIAL, ops))
  {
    if ops != [] {
      var front := ops[..|ops| - 1];
      RunIsRepresentable(parses, disk, front);
      var s := Run(disk, INITIAL, front);
      StepIsRepresentable(parses, disk, s, ops[|ops| - 1]);
    }
  }

  lemma StepIsRepresentable(parses: seq<Byte> -> bool, disk: Disk, s: Recorder, op: Op)
    requires RepresentableState(parses, s) && Representable(parses, op)
    ensures RepresentableState(parses, Step(disk, s, op))
  {
    hide WellFormed, Fits, Put, Drain, TaskFor, FileHeader, PutTail, RecordPrefix;
    DrainKeepsHistory(disk, s);
  }

  /**
   Crash recovery. After any calls, worker turns and disk failures, cut the file
   anywhere. Inside the metadata it is refused. After it, it opens as a recovered
   file with exactly the frames whose records are whole, in the order write() was
   called, if and only if its last 24 bytes do not start with the footer magic or do not
   lead to an index magic, a count and that many whole entries. Whole frames read
   back in any case, and a frame that was cut never does.
   */
  lemma CrashRecovery(parses: seq<Byte> -> bool, disk: Disk, ops: seq<Op>, n: nat)
    requires forall i :: 0 <= i < |ops| ==> Representable(parses, ops[i])
    requires var s := Run(disk, INITIAL, ops); s.begun && n <= |s.file.bytes|
    ensures var s := Run(disk, INITIAL, ops);
            var base := FramesBegin(s.json);
            var cut := s.file.bytes[..n];
            var k := WholeWithin(s.accepted, base, n);
            && (n < base ==> Interpret(parses, cut) == Refused)
            && (n >= base ==>
                  (Interpret(parses, cut) == Opened(s.json, Entries(s.accepted, base)[..k], true)
                   <==> !(&& n > 24 && cut[n - 24..n - 16] == [0x4A, 0x53, 0x43, 0x50, 0x45, 0x4E, 0x44, 0x00]
                          && var at := FieldAt(cut, n - 16, 8);
                             && at + 12 <= n && FieldAt(cut, at, 4) == 0x30584449
                             && at + 12 + 24 * FieldAt(cut, at + 4, 8) <= n)))
            && (n >= base ==>
                  forall i :: 0 <= i < |s.accepted| ==>
                    StoredFrame(cut, Entries(s.accepted, base)[i].fileOffset)
                    == if i < k then Some(s.accepted[i]) else None)
  {
    hide Run, Inv, ClosedImage, FileStart, Entries, Interpret, StoredFrame, Storable, WholeWithin, FooterIndex, FieldAt;
    var s := Run(disk, INITIAL, ops);
    InitialInv();
    RunKeepsInv(disk, INITIAL, ops);
    RunIsRepresentable(parses, disk, ops);
    ReachableFileIsAPrefix(s);
    var base, image, cut := FramesBegin(s.json), ClosedImage(s.json, s.accepted), s.file.bytes[..n];
    assert cut == image[..n];
    if n < base {
      assert cut == FileStart(s.json)[..n];
      ShortFileIsRefused(parses, s.json, n);
    } else {
      FooterOnBytes(cut);
      if FooterIndex(cut).None? {
        OpenOfCutImage(parses, s.json, s.accepted, n);
      } else {
        FooterIsTrusted(parses, cut);
      }
      EntriesTake(s.accepted, WholeWithin(s.accepted, base, n), base);
      forall i | 0 <= i < |s.accepted|
        ensures StoredFrame(cut, Entries(s.accepted, base)[i].fileOffset)
             == if i < WholeWithin(s.accepted, base, n) then Some(s.accepted[i]) else None
      {
        if i < WholeWithin(s.accepted, base, n) {
          OfferedFrameReadsBack(s.json, s.accepted, n, i);
        } else {
          CutFrameIsNotRead(s.json, s.accepted, n, i);
        }
      }
    }
  }

  /** When the end of a file leads to an index, byte by byte, and which index that is. */
  lemma FooterOnBytes(b: seq<Byte>)
    ensures var n := |b|;
            && (FooterIndex(b).Some? <==>
                  && n > 24 && b[n - 24..n - 16] == [0x4A, 0x53, 0x43, 0x50, 0x45, 0x4E, 0x44, 0x00]
                  && var at := FieldAt(b, n - 16, 8);
                     && at + 12 <= n && FieldAt(b, at, 4) == 0x30584449
                     && at + 12 + 24 * FieldAt(b, at + 4, 8) <= n)
            && (FooterIndex(b).Some? ==>
                  var at, index := FieldAt(b, n - 16, 8), FooterIndex(b).value;
                  && |index| == FieldAt(b, at + 4, 8)
                  && forall i :: 0 <= i < |index| ==>
                       var e := at + 12 + 24 * i;
                       && e + 24 <= n
                       && index[i] == IndexEntry(FieldAt(b, e, 8), FieldAt(b, e + 8, 8), FieldAt(b, e + 16, 8)))
  {
    hide FieldAt;
  }

  /** A frame whose record was cut, anywhere in it, is not read even by who knows its offset. */
  lemma CutFrameIsNotRead(json: seq<Byte>, frames: seq<Frame>, n: nat, i: nat)
    requires Storable(frames) && |FileStart(json)| <= n <= |ClosedImage(json, frames)|
    requires WholeWithin(frames, FramesBegin(json), n) <= i < |frames|
    ensures StoredFrame(ClosedImage(json, frames)[..n], Entries(frames, FramesBegin(json))[i].fileOffset) == None
  {
    hide FileStart, Records, ClosedImage, Record, RecordEnd, WellFormed, Fits, Entries, IndexBlock, Footer, EntryAt;
    var b, base := ClosedImage(json, frames), FramesBegin(json);
    var at := base + |Records(frames[..i])|;
    EntryOffset(frames, base, i);
    ImageHolds(json, frames);
    RecordEndsAt(b, base, frames, i);
    CutBefore(frames, base, n, i);
    assert frames[..i + 1] == frames[..i] + [frames[i]];
    RecordsSnoc(frames[..i], frames[i]);
    RecordIsWhole(b, at, frames[i]);
    RecordSize(frames[i]);
    if at + HEAD <= n {
      PrefixSlice(b, n, at + RECORD_BYTES, at + HEAD);
      assert HeaderAt(b[..n], at) == frames[i].header;
      TooShortForItsPlanes(b[..n], at, frames[i].header);
    }
  }

  lemma TooShortForItsPlanes(b: seq<Byte>, at: nat, h: FrameHeader)
    requires at + HEAD <= |b| < at + HEAD + PayloadBytes(h) && HeaderAt(b, at) == h
    ensures StoredFrame(b, at) == None
  {
    hide FieldAt, PlanesAt, SampleCount;
    assert PayloadBytes(h) == ChannelCount(h) * (2 * SampleCount(h));
  }

  lemma {:induction false} CutBefore(frames: seq<Frame>, base: nat, n: nat, i: nat)
    requires WholeWithin(frames, base, n) <= i < |frames|
    ensures base + |Records(frames[..i + 1])| > n
  {
    var front := frames[..|frames| - 1];
    assert frames[..|frames|] == frames;
    if i < |frames| - 1 {
      CutBefore(front, base, n, i);
      assert front[..i + 1] == frames[..i + 1];
    }
  }

  lemma FooterIsTrusted(parses: seq<Byte> -> bool, b: seq<Byte>)
    requires FooterIndex(b).Some?
    ensures Interpret(parses, b).Opened? ==> !Interpret(parses, b).recovered
  {
  }

  /**
   At every moment the index in the writer's memory is what a scan of the file as it
   stands would rebuild, failed disk or not.
   */
  lemma IndexAgreesWithFile(parses: seq<Byte> -> bool, disk: Disk, ops: seq<Op>)
    requires forall i :: 0 <= i < |ops| ==> Representable(parses, ops[i])
    requires Run(disk, INITIAL, ops).begun
    ensures var s := Run(disk, INITIAL, ops);
            Scan(s.file.bytes, FramesBegin(s.json)) == s.index
  {
    hide Run, ClosedImage, OpenImage, FileStart, Entries, Storable, WholeWithin, Scan, Inv, Records;
    var s := Run(disk, INITIAL, ops);
    InitialInv();
    RunKeepsInv(disk, INITIAL, ops);
    RunIsRepresentable(parses, disk, ops);
    ReachableFileIsAPrefix(s);
    var n := |s.file.bytes|;
    assert s.file.bytes == ClosedImage(s.json, s.accepted)[..n];
    ScanOfCutImage(s.json, s.accepted, n);
    WholePartIsIndexed(s);
  }

  lemma WholePartIsIndexed(s: Recorder)
    requires Inv(s) && s.begun
    ensures |s.index| <= |s.accepted|
    ensures WholeWithin(s.accepted, FramesBegin(s.json), |s.file.bytes|) == |s.index|
    ensures s.index == Entries(s.accepted[..|s.index|], FramesBegin(s.json))
  {
    hide ClosedImage, FileStart, Entries, WholeWithin, TasksFor, Records;
    var base, n, k := FramesBegin(s.json), |s.file.bytes|, |s.index|;
    OpenImageSize(s.json, s.accepted[..k]);
    if k < |s.accepted| {
      OpenImageSize(s.json, s.accepted[..k + 1]);
      IndexedPartOnly(s);
    } else {
      assert s.accepted[..k] == s.accepted;
    }
    WholeWithinIs(s.accepted, base, n, k);
  }

  lemma OpenImageSize(json: seq<Byte>, frames: seq<Frame>)
    ensures |OpenImage(json, frames)| == FramesBegin(json) + |Records(frames)|
  {
  }

  lemma IndexedPartOnly(s: Recorder)
    requires Inv(s) && s.begun && |s.index| < |s.accepted|
    ensures |s.file.bytes| < |OpenImage(s.json, s.accepted[..|s.index| + 1])|
  {
    hide FileStart, Records, Record, Entries, ClosedImage, TasksFor, OpenImage;
    if s.open && s.file.good {
      var k := |s.index|;
      OpenImageSnoc(s.json, s.accepted[..k], s.accepted[k]);
      assert s.accepted[..k + 1] == s.accepted[..k] + [s.accepted[k]];
    }
  }

  /** A recording closed without a failure opens through its footer with every accepted frame. */
  lemma CleanCloseOpens(parses: seq<Byte> -> bool, disk: Disk, ops: seq<Op>)
    requires forall i :: 0 <= i < |ops| ==> Representable(parses, ops[i])
    requires Run(disk, INITIAL, ops).open && CloseStep(disk, Run(disk, INITIAL, ops)).file.good
    requires |CloseStep(disk, Run(disk, INITIAL, ops)).file.bytes| < TWO_63
    ensures var s, r := Run(disk, INITIAL, ops), CloseStep(disk, Run(disk, INITIAL, ops));
            var index := Entries(s.accepted, FramesBegin(s.json));
            && Interpret(parses, r.file.bytes) == Opened(s.json, index, false)
            && Scan(r.file.bytes, FramesBegin(s.json)) == index
            && forall i :: 0 <= i < |s.accepted| ==>
                 StoredFrame(r.file.bytes, index[i].fileOffset) == Some(s.accepted[i])
  {
    hide Run, CloseStep, ClosedImage, FileStart, Entries, Interpret, StoredFrame, Storable, WholeWithin, Scan;
    var s, r := Run(disk, INITIAL, ops), CloseStep(disk, Run(disk, INITIAL, ops));
    InitialInv();
    RunKeepsInv(disk, INITIAL, ops);
    RunIsRepresentable(parses, disk, ops);
    GoodCloseLosesNothing(disk, s);
    var b, base := ClosedImage(s.json, s.accepted), FramesBegin(s.json);
    assert r.file.bytes == b && b[..|b|] == b;
    FooterIndexRefinesScan(parses, s.json, s.accepted);
    ImagePrefix(s.json, s.accepted, 0);
    ClosedImageSize(s.json, s.accepted);
    assert s.accepted[..|s.accepted|] == s.accepted;
    WholeWithinIs(s.accepted, base, |b|, |s.accepted|);
    forall i | 0 <= i < |s.accepted|
      ensures StoredFrame(b, Entries(s.accepted, base)[i].fileOffset) == Some(s.accepted[i])
    {
      OfferedFrameReadsBack(s.json, s.accepted, |b|, i);
    }
  }

  lemma ClosedImageSize(json: seq<Byte>, frames: seq<Frame>)
    ensures |ClosedImage(json, frames)| >= FramesBegin(json) + |Records(frames)| + |frames|
  {
  }

  /** A payload of 4 GiB or more is recorded with a length that stops short of it. */
  lemma OversizedPayloadIsCutShort(b: seq<Byte>, at: nat, f: Frame)
    requires WellFormed(f) && Holds(b, at, Record(f))
    ensures at + HEAD <= |b| && (RecordEnd(b, at) == at + |Record(f)| <==> Fits(f))
    ensures RecordEnd(b, at) <= at + |Record(f)|
  {
    hide Record, RecordPrefix, PayloadBytes;
    var payload := PayloadBytes(f.header);
    RecordPieces(b, at, f);
    RecordSize(f);
    LengthField(b, at, payload);
  }

  /** A header announcing one channel of 2^31 samples. */
  function OversizedHeader(): (h: FrameHeader)
    ensures ChannelCount(h) == 1 && SampleCount(h) == 0x8000_0000
  {
    var zero: seq<Byte> := seq(FRAME_HEADER_BYTES, _ => 0);
    var h: FrameHeader := zero[SAMPLE_COUNT_AT + 3 := 0x80][CHANNEL_COUNT_AT := 1];
    assert h[SAMPLE_COUNT_AT..SAMPLE_COUNT_AT + 4] == [0, 0, 0, 0x80];
    assert FromLittleEndian([0x80]) == 0x80 && FromLittleEndian([0, 0x80]) == 0x8000;
    assert FromLittleEndian([0, 0, 0x80]) == 0x80_0000;
    h
  }

  /** Its record claims to hold no samples at all, and a reader would look for the next one inside them. */
  lemma OversizedFrameIsCutShort()
    ensures var f := Frame(OversizedHeader(), [seq(TWO_32, _ => 0)]);
            WellFormed(f) && !Fits(f) && RecordEnd(Record(f), 0) == HEAD && |Record(f)| == HEAD + TWO_32
  {
    hide Record, OversizedHeader, RecordPrefix;
    var f := Frame(OversizedHeader(), [seq(TWO_32, _ => 0)]);
    var payload := PayloadBytes(f.header);
    assert payload == TWO_32;
    RecordSize(f);
    assert Holds(Record(f), 0, Record(f));
    RecordPieces(Record(f), 0, f);
    RecordPrefixReadsBack(payload);
    HeldSlice(Record(f), 0, RecordPrefix(payload), 8, 12);
  }

  lemma LengthField(b: seq<Byte>, at: nat, payload: nat)
    requires Holds(b, at, RecordPrefix(payload))
    ensures FieldAt(b, at + 8, 4) <= payload
    ensures FieldAt(b, at + 8, 4) == payload <==> payload < TWO_32
  {
    RecordPrefixReadsBack(payload);
    HeldSlice(b, at, RecordPrefix(payload), 8, 12);
  }

  // ---- what is refused -----------------------------------------------------------------------

  /**
   A file that opens is refused once any byte of its magic, version or flags is another
   one; the header size at bytes 8 to 11 is not looked at.
   */
  lemma AlteredHeaderIsRefused(parses: seq<Byte> -> bool, b: seq<Byte>, i: nat, x: Byte)
    requires Interpret(parses, b).Opened? && i < 20 <= |b| && x != b[i]
    ensures Interpret(parses, b[i := x]).Refused? <==> i < 8 || 12 <= i
  {
    hide FieldAt, FooterIndex, Scan;
    var c := b[i := x];
    FieldAfterChange(b, 12, 4, i, x);
    FieldAfterChange(b, 16, 4, i, x);
    FieldAfterChange(b, 20, 4, i, x);
    if i < 8 {
      assert c[..8][i] != b[..8][i];
    } else {
      assert c[..8] == b[..8];
    }
    var begin := FILE_HEADER_BYTES + FieldAt(b, 20, 4);
    assert c[FILE_HEADER_BYTES..begin] == b[FILE_HEADER_BYTES..begin];
  }

  /** Metadata that does not parse, or is not all there, is refused, and then nothing else matters. */
  lemma BadMetadataIsRefused(parses: seq<Byte> -> bool, b: seq<Byte>)
    requires |b| >= 24
    requires var end := 24 + FieldAt(b, 20, 4); end > |b| || !parses(b[24..end])
    ensures Interpret(parses, b) == Refused
  {
  }

  /** A frame is not read from a place whose magic is another one. */
  lemma AlteredRecordIsNotRead(b: seq<Byte>, at: nat, i: nat, x: Byte)
    requires StoredFrame(b, at).Some? && at <= i < at + 4 && i < |b| && x != b[i]
    ensures StoredFrame(b[i := x], at) == None
  {
    hide FieldAt, PlanesAt, SampleCount;
    FieldAfterChange(b, at, 4, i, x);
  }

  // ---- where recovery fails -----------------------------------------------------------------

  /** A header announcing one channel of 18 samples. */
  function LookalikeHeader(): (h: FrameHeader)
    ensures ChannelCount(h) == 1 && SampleCount(h) == 18
  {
    var zero: seq<Byte> := seq(FRAME_HEADER_BYTES, _ => 0);
    var h: FrameHeader := zero[SAMPLE_COUNT_AT := 18][CHANNEL_COUNT_AT := 1];
    assert h[SAMPLE_COUNT_AT..SAMPLE_COUNT_AT + 4] == [18, 0, 0, 0];
    assert FromLittleEndian([0]) == 0 && FromLittleEndian([0, 0]) == 0 && FromLittleEndian([0, 0, 0]) == 0;
    h
  }

  /** Sample data that reads as an empty index and a footer leading to it. */
  function Lookalike(json: seq<Byte>): (f: Frame)
    ensures WellFormed(f) && Fits(f)
  {
    Frame(LookalikeHeader(), [IndexBlock([]) + Footer(FramesBegin(json) + HEAD, 0)])
  }

  /**
   The footer condition of CrashRecovery cannot be dropped: for every metadata
   there is a frame whose samples end like a footer, and a recording of that one
   frame, interrupted before it was closed, opens as a closed file with no frames.
   */
  lemma LookalikeHidesFrames(parses: seq<Byte> -> bool, json: seq<Byte>)
    requires |json| < TWO_32 && parses(json)
    ensures var f := Lookalike(json);
            && Interpret(parses, OpenImage(json, [f])) == Opened(json, [], false)
            && Scan(OpenImage(json, [f]), FramesBegin(json)) == Entries([f], FramesBegin(json))
  {
    hide FileHeader, FileStart, IndexBlock, Footer, Record, HeaderAccepted, WellFormed, Fits, Entries, Lookalike,
         FooterIndex, EntryAt, WholeRecord;
    var f, b, base := Lookalike(json), OpenImage(json, [Lookalike(json)]), FramesBegin(json);
    LookalikePieces(json);
    LookalikeFooter(json);
    StartReadsBack(b, json);
    ScanFindsRecords(b, base, [f]);
    assert |b| == base + |Records([f])|;
    NoRecordAtTheEnd(b);
  }

  /** And three calls leave that file behind, on any disk with room for it. */
  lemma LookalikeIsReachable(disk: Disk, json: seq<Byte>)
    requires forall k :: disk(k) >= |ClosedImage(json, [Lookalike(json)])|
    ensures var s := Run(disk, INITIAL, [Open(json, true), Write(Lookalike(json)), Worker]);
            s.open && s.file.bytes == OpenImage(json, [Lookalike(json)])
  {
    hide Run, Lookalike, ClosedImage, OpenImage;
    OneFrameIsWritten(disk, json, Lookalike(json));
  }

  lemma NoRecordAtTheEnd(b: seq<Byte>)
    ensures Scan(b, |b|) == []
  {
  }

  lemma LookalikeFooter(json: seq<Byte>)
    requires |json| < TWO_32
    ensures FooterIndex(OpenImage(json, [Lookalike(json)])) == Some([])
  {
    hide FileHeader, FileStart, IndexBlock, Footer, Record, Lookalike, FieldAt, OpenImage;
    var b, base := OpenImage(json, [Lookalike(json)]), FramesBegin(json);
    LookalikePieces(json);
    FooterFields(b, |b| - FOOTER_BYTES, base + HEAD, 0);
    IndexBlockFields(b, base + HEAD, []);
  }

  lemma FramesBeginIs(json: seq<Byte>)
    ensures FramesBegin(json) == FILE_HEADER_BYTES + |json|
  {
  }

  lemma LookalikePieces(json: seq<Byte>)
    requires |json| < TWO_32
    ensures var f, b, base := Lookalike(json), OpenImage(json, [Lookalike(json)]), FramesBegin(json);
            && FileStart(json) <= b && base == FILE_HEADER_BYTES + |json|
            && Holds(b, base, Records([f]))
            && |b| == base + HEAD + 12 + FOOTER_BYTES
            && Holds(b, base + HEAD, IndexBlock([]))
            && Holds(b, |b| - FOOTER_BYTES, Footer(base + HEAD, 0))
  {
    hide FileStart, IndexBlock, Footer, RecordPrefix;
    var f, base := Lookalike(json), FramesBegin(json);
    FramesBeginIs(json);
    var b := OpenImage(json, [f]);
    RecordsSingle(f);
    HoldsAfter(FileStart(json), Record(f), []);
    assert FileStart(json) + Record(f) + [] == b;
    RecordPieces(b, base, f);
    FlattenSingle(f.planes[0]);
    HoldsParts(b, base + HEAD, IndexBlock([]), Footer(base + HEAD, 0));
  }
}
