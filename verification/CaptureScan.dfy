/**
 What the bytes of a capture say, independently of how the reader walks them:
 the chain of whole records from a position, and what cutting the file short
 does to that chain.
 */
module CaptureScan {
  import opened Bytes
  import opened Sequences
  import opened CaptureFormat

  const HEAD: nat := RECORD_BYTES + FRAME_HEADER_BYTES

  /** The first bytes of something that could be a record: magic, header size and a header. */
  predicate LooksLikeRecord(b: seq<Byte>, at: nat) {
    && at + HEAD <= |b|
    && FieldAt(b, at, 4) == FRAME_MAGIC
    && FieldAt(b, at + 4, 4) == FRAME_HEADER_BYTES
  }

  /** Where the record at `at` ends, according to its own length field. */
  function RecordEnd(b: seq<Byte>, at: nat): nat
    requires at + HEAD <= |b|
  {
    at + HEAD + FieldAt(b, at + 8, 4)
  }

  /** A record that lies wholly inside the file. */
  predicate WholeRecord(b: seq<Byte>, at: nat) {
    LooksLikeRecord(b, at) && RecordEnd(b, at) <= |b|
  }

  function HeaderAt(b: seq<Byte>, at: nat): FrameHeader
    requires at + HEAD <= |b|
  {
    b[at + RECORD_BYTES..at + HEAD]
  }

  function EntryAt(b: seq<Byte>, at: nat): IndexEntry
    requires at + HEAD <= |b|
  {
    IndexEntry(at, TimestampBits(HeaderAt(b, at)), StartSampleIndex(HeaderAt(b, at)))
  }

  /** The longest chain of whole records that starts at `at`. */
  function Scan(b: seq<Byte>, at: nat): seq<IndexEntry>
    decreases |b| - at
  {
    if WholeRecord(b, at) then [EntryAt(b, at)] + Scan(b, RecordEnd(b, at)) else []
  }

  ghost predicate SoundEntry(b: seq<Byte>, at: nat, e: IndexEntry) {
    at <= e.fileOffset && WholeRecord(b, e.fileOffset) && e == EntryAt(b, e.fileOffset)
  }

  ghost predicate InFileOrder(b: seq<Byte>, s: seq<IndexEntry>) {
    forall i, j :: 0 <= i < j < |s| ==>
      s[i].fileOffset + HEAD <= |b| && RecordEnd(b, s[i].fileOffset) <= s[j].fileOffset
  }

  /** Scanning any bytes at all gives whole records only. */
  lemma {:induction false} ScanIsSound(b: seq<Byte>, at: nat)
    ensures forall i :: 0 <= i < |Scan(b, at)| ==> SoundEntry(b, at, Scan(b, at)[i])
    decreases |b| - at
  {
    if WholeRecord(b, at) {
      var next := RecordEnd(b, at);
      ScanIsSound(b, next);
      forall i | 0 <= i < |Scan(b, at)| ensures SoundEntry(b, at, Scan(b, at)[i]) {
        if i > 0 {
          assert Scan(b, at)[i] == Scan(b, next)[i - 1];
          assert SoundEntry(b, next, Scan(b, next)[i - 1]);
        }
      }
    }
  }

  /** The records found are disjoint and in file order. */
  lemma {:induction false} ScanIsInFileOrder(b: seq<Byte>, at: nat)
    ensures InFileOrder(b, Scan(b, at))
    decreases |b| - at
  {
    if WholeRecord(b, at) {
      var next, s := RecordEnd(b, at), Scan(b, at);
      ScanIsInFileOrder(b, next);
      ScanIsSound(b, next);
      forall i, j | 0 <= i < j < |s|
        ensures s[i].fileOffset + HEAD <= |b| && RecordEnd(b, s[i].fileOffset) <= s[j].fileOffset
      {
        assert s[j] == Scan(b, next)[j - 1];
        if i == 0 {
          assert SoundEntry(b, next, Scan(b, next)[j - 1]);
        } else {
          assert s[i] == Scan(b, next)[i - 1];
        }
      }
    }
  }

  /** Byte by byte: magic, header size, header and payload are all there, and what is indexed is from the header. */
  lemma ScannedBytes(b: seq<Byte>, at: nat)
    ensures forall e :: e in Scan(b, at) ==>
      var o := e.fileOffset;
      && at <= o && o + 164 <= |b| && FieldAt(b, o, 4) == 0x304D5246 && FieldAt(b, o + 4, 4) == 152
      && o + 164 + FieldAt(b, o + 8, 4) <= |b|
      && e == IndexEntry(o, FieldAt(b, o + 28, 8), FieldAt(b, o + 20, 8))
  {
    hide FieldAt, Scan;
    ScanIsSound(b, at);
    forall e | e in Scan(b, at)
      ensures var o := e.fileOffset;
              o + 164 <= |b| && e == IndexEntry(o, FieldAt(b, o + 28, 8), FieldAt(b, o + 20, 8))
    {
      var i :| 0 <= i < |Scan(b, at)| && Scan(b, at)[i] == e;
      assert SoundEntry(b, at, e);
      HeaderFieldsInPlace(b, e.fileOffset);
    }
  }

  lemma HeaderFieldsInPlace(b: seq<Byte>, o: nat)
    requires o + HEAD <= |b|
    ensures EntryAt(b, o) == IndexEntry(o, FieldAt(b, o + 28, 8), FieldAt(b, o + 20, 8))
  {
    SliceOfSlice(b, o + 12, o + 164, 16, 24);
    SliceOfSlice(b, o + 12, o + 164, 8, 16);
  }

  /** A record is not found once any byte of its magic or its header size is another one. */
  lemma AlteredRecordEndsTheScan(b: seq<Byte>, at: nat, i: nat, x: Byte)
    requires Scan(b, at) != [] && at <= i < at + 8 && i < |b| && x != b[i]
    ensures Scan(b[i := x], at) == []
  {
    hide FieldAt, EntryAt;
    FieldAfterChange(b, at, 4, i, x);
    FieldAfterChange(b, at + 4, 4, i, x);
  }

  // ---- cutting the file short ---------------------------------------------------

  lemma TruncationKeepsRecords(b: seq<Byte>, n: nat, at: nat)
    requires n <= |b|
    ensures at + HEAD <= n ==> RecordEnd(b[..n], at) == RecordEnd(b, at) && EntryAt(b[..n], at) == EntryAt(b, at)
    ensures WholeRecord(b[..n], at) <==> WholeRecord(b, at) && RecordEnd(b, at) <= n
  {
    if at + HEAD <= n {
      PrefixSlice(b, n, at, at + 4);
      PrefixSlice(b, n, at + 4, at + 8);
      PrefixSlice(b, n, at + 8, at + 12);
      PrefixSlice(b, n, at + RECORD_BYTES, at + HEAD);
    }
  }

  /**
   Cutting any file short at any byte loses exactly the records that no longer
   lie wholly inside it: what a scan then finds is an initial part of what it
   found before, everything in it ends inside the cut, and the first record
   missing from it does not.
   */
  lemma {:induction false} ScanOfTruncation(b: seq<Byte>, n: nat, at: nat)
    requires n <= |b|
    ensures var cut, whole := Scan(b[..n], at), Scan(b, at);
            && cut <= whole
            && (forall e :: e in cut ==> e.fileOffset + HEAD <= n && RecordEnd(b, e.fileOffset) <= n)
            && (|cut| < |whole| ==>
                  WholeRecord(b, whole[|cut|].fileOffset) && RecordEnd(b, whole[|cut|].fileOffset) > n)
    decreases |b| - at
  {
    TruncationKeepsRecords(b, n, at);
    if WholeRecord(b[..n], at) {
      var next := RecordEnd(b, at);
      ScanOfTruncation(b, n, next);
      var cut, whole := Scan(b[..n], at), Scan(b, at);
      assert cut == [EntryAt(b, at)] + Scan(b[..n], next);
      assert whole == [EntryAt(b, at)] + Scan(b, next);
    }
  }

  // ---- what the writer put there is what a scan finds ------------------------------

  lemma RecordPieces(b: seq<Byte>, at: nat, f: Frame)
    requires Holds(b, at, Record(f))
    ensures Holds(b, at, RecordPrefix(PayloadBytes(f.header)))
    ensures Holds(b, at + RECORD_BYTES, f.header)
    ensures Holds(b, at + HEAD, Flatten(f.planes))
  {
    HoldsParts(b, at, RecordPrefix(PayloadBytes(f.header)), FrameBytes(f));
    HoldsParts(b, at + RECORD_BYTES, f.header, Flatten(f.planes));
  }

  lemma PrefixFields(b: seq<Byte>, at: nat, payload: nat)
    requires Holds(b, at, RecordPrefix(payload))
    ensures FieldAt(b, at, 4) == FRAME_MAGIC
    ensures FieldAt(b, at + 4, 4) == FRAME_HEADER_BYTES
    ensures payload < TWO_32 ==> FieldAt(b, at + 8, 4) == payload
  {
    hide RecordPrefix;
    var prefix := RecordPrefix(payload);
    RecordPrefixReadsBack(payload);
    HeldSlice(b, at, prefix, 0, 4);
    HeldSlice(b, at, prefix, 4, 8);
    HeldSlice(b, at, prefix, 8, 12);
  }

  lemma RecordSize(f: Frame)
    requires WellFormed(f)
    ensures |Record(f)| == HEAD + PayloadBytes(f.header)
  {
    PayloadIsThePlanes(f);
  }

  lemma RecordIsWhole(b: seq<Byte>, at: nat, f: Frame)
    requires WellFormed(f) && Fits(f) && Holds(b, at, Record(f))
    ensures WholeRecord(b, at) && RecordEnd(b, at) == at + |Record(f)|
    ensures HeaderAt(b, at) == f.header && EntryAt(b, at) == EntryFor(f, at)
  {
    RecordPieces(b, at, f);
    PrefixFields(b, at, PayloadBytes(f.header));
    RecordSize(f);
  }

  lemma FirstRecord(frames: seq<Frame>, at: nat)
    requires frames != []
    ensures Records(frames) == Record(frames[0]) + Records(frames[1..])
    ensures Entries(frames, at) == [EntryFor(frames[0], at)] + Entries(frames[1..], at + |Record(frames[0])|)
  {
    hide Records, Record, Entries, EntryFor;
    var f, rest := frames[0], frames[1..];
    assert frames == [f] + rest;
    RecordsConcat([f], rest);
    RecordsSingle(f);
    EntriesConcat([f], rest, at);
    EntriesSingle(f, at);
  }

  lemma EntriesSingle(f: Frame, at: nat)
    ensures Entries([f], at) == [EntryFor(f, at)]
  {
  }

  lemma {:induction false} ScanFindsRecords(b: seq<Byte>, at: nat, frames: seq<Frame>)
    requires forall f :: f in frames ==> WellFormed(f) && Fits(f)
    requires Holds(b, at, Records(frames))
    ensures Scan(b, at) == Entries(frames, at) + Scan(b, at + |Records(frames)|)
    decreases |frames|
  {
    hide Entries, EntryAt, EntryFor, Record, RecordList, RecordEnd, WholeRecord, WellFormed, Fits, Holds;
    if frames != [] {
      var f, rest := frames[0], frames[1..];
      var next := at + |Record(f)|;
      FirstRecord(frames, at);
      HoldsParts(b, at, Record(f), Records(rest));
      RecordIsWhole(b, at, f);
      ScanFindsRecords(b, next, rest);
      Associate([EntryFor(f, at)], Entries(rest, next), Scan(b, next + |Records(rest)|));
    }
  }

  // ---- the footer ----------------------------------------------------------------

  datatype Option<+T> = None | Some(value: T)

  predicate EndsWithFooterMagic(b: seq<Byte>) {
    |b| > FOOTER_BYTES && b[|b| - FOOTER_BYTES..|b| - FOOTER_BYTES + 8] == FOOTER_MAGIC
  }

  function StoredEntry(b: seq<Byte>, at: nat): IndexEntry
    requires at + ENTRY_BYTES <= |b|
  {
    IndexEntry(FieldAt(b, at, 8), FieldAt(b, at + 8, 8), FieldAt(b, at + 16, 8))
  }

  function StoredEntries(b: seq<Byte>, at: nat, count: nat): (es: seq<IndexEntry>)
    requires at + ENTRY_BYTES * count <= |b|
    ensures |es| == count
  {
    seq(count, i requires 0 <= i < count => StoredEntry(b, at + ENTRY_BYTES * i))
  }

  /** The index block at `at`, when there is one and all of it is in the file. */
  function IndexAt(b: seq<Byte>, at: nat): Option<seq<IndexEntry>> {
    if at + 12 > |b| || FieldAt(b, at, 4) != INDEX_MAGIC then None
    else
      var count := FieldAt(b, at + 4, 8);
      if at + 12 + ENTRY_BYTES * count > |b| then None else Some(StoredEntries(b, at + 12, count))
  }

  /** The index the footer leads to, when it leads to one. */
  function FooterIndex(b: seq<Byte>): Option<seq<IndexEntry>> {
    if EndsWithFooterMagic(b) then IndexAt(b, FieldAt(b, |b| - FOOTER_BYTES + 8, 8)) else None
  }

  // ---- a file as the reader takes it ------------------------------------------------

  datatype Capture = Refused | Opened(json: seq<Byte>, index: seq<IndexEntry>, recovered: bool)

  predicate HeaderAccepted(b: seq<Byte>) {
    && |b| >= FILE_HEADER_BYTES
    && b[..8] == MAGIC
    && FieldAt(b, 12, 4) == VERSION
    && FieldAt(b, 16, 4) == FLAG_NONE
  }

  /** `parses` says which metadata texts are readable JSON. */
  function Interpret(parses: seq<Byte> -> bool, b: seq<Byte>): Capture {
    if !HeaderAccepted(b) then Refused
    else
      var framesBegin := FILE_HEADER_BYTES + FieldAt(b, 20, 4);
      if framesBegin > |b| then Refused
      else
        var json := b[FILE_HEADER_BYTES..framesBegin];
        if !parses(json) then Refused
        else
          match FooterIndex(b)
          case Some(index) => Opened(json, index, false)
          case None => Opened(json, Scan(b, framesBegin), true)
  }

  /** The frame stored at an offset, when the file holds all of it. */
  function StoredFrame(b: seq<Byte>, at: nat): Option<Frame> {
    if at + HEAD > |b| || FieldAt(b, at, 4) != FRAME_MAGIC then None
    else
      var h := HeaderAt(b, at);
      if at + HEAD + ChannelCount(h) * (2 * SampleCount(h)) > |b| then None
      else
        Some(Frame(h, PlanesAt(b, at + HEAD, ChannelCount(h), 2 * SampleCount(h))))
  }

  lemma PlanesLieInside(count: nat, each: nat, p: nat)
    requires p < count
    ensures each * p + each <= count * each
  {
    assert (p + 1) * each <= count * each;
  }

  lemma PlanesAreApart(count: nat, each: nat, p: nat, q: nat)
    requires p < count && q < count && p != q
    ensures each * q + each <= count * each
    ensures if q < p then each * q + each <= each * p else each * p + each <= each * q
  {
    PlanesLieInside(count, each, q);
    PlanesLieInside(if q < p then p else q, each, if q < p then q else p);
  }

  /** `count` planes of `each` bytes, laid end to end. */
  function PlanesAt(b: seq<Byte>, at: nat, count: nat, each: nat): (planes: seq<seq<Byte>>)
    requires at + count * each <= |b|
    ensures |planes| == count
  {
    seq(count, p requires 0 <= p < count =>
      PlanesLieInside(count, each, p);
      b[at + each * p..at + each * p + each])
  }
}
