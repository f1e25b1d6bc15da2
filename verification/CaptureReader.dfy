/**
 The capture reader. Opening trusts the footer when it leads to a whole index and
 walks the records otherwise; frames are then read through the index.
 */
module CaptureReader {
  import opened Bytes
  import opened Sequences
  import opened CaptureFormat
  import opened CaptureScan

  const MAX_CHANNELS: nat := 8

  /** An input stream. A read that cannot be satisfied fails it until it is cleared. */
  datatype InFile = InFile(bytes: seq<Byte>, pos: nat, good: bool) {
    function Clear(): InFile { this.(good := true) }

    /** Moving past the end does not fail, only the read after it does. */
    function Seek(to: nat): InFile { if good then this.(pos := to) else this }

    function After(n: nat): InFile {
      if good && pos + n <= |bytes| then this.(pos := pos + n) else this.(good := false)
    }

    function Bytes(n: nat): (s: seq<Byte>)
      requires pos + n <= |bytes|
      ensures |s| == n
    {
      bytes[pos..pos + n]
    }
  }

  /** A frame's sample memory: planes of `maxSamples` 16-bit samples, one after another. */
  class FrameBuffer {
    var header: FrameHeader
    var samples: seq<Byte>
    var maxChannels: nat
    var maxSamples: nat

    ghost predicate Valid()
      reads this
    {
      |samples| == maxChannels * (2 * maxSamples)
    }

    constructor ()
      ensures Valid()
    {
      header := seq(FRAME_HEADER_BYTES, _ => 0);
      samples, maxChannels, maxSamples := [], 0, 0;
    }

    method Provision(channels: nat, samplesPerChannel: nat)
      modifies this
      ensures Valid() && maxChannels == channels && maxSamples == samplesPerChannel && header == old(header)
    {
      maxChannels, maxSamples := channels, samplesPerChannel;
      samples := seq(channels * (2 * samplesPerChannel), _ => 0);
    }

    /** Takes the shape of one acquisition, or refuses when there is no room for it. */
    method Shape(channels: Byte, samplesPerChannel: nat) returns (ok: bool)
      requires Valid()
      modifies this`header
      ensures Valid() && ok == (channels <= maxChannels && samplesPerChannel <= maxSamples)
      ensures !ok ==> header == old(header)
    {
      if channels > maxChannels || samplesPerChannel > maxSamples { return false; }
      header := header[CHANNEL_COUNT_AT := channels];
      header := header[..SAMPLE_COUNT_AT] + LittleEndian(samplesPerChannel, 4) + header[SAMPLE_COUNT_AT + 4..];
      ok := true;
    }

    /** The first `count` samples of a plane. */
    function Plane(p: nat, count: nat): (s: seq<Byte>)
      requires Valid() && p < maxChannels && count <= maxSamples
      reads this
      ensures |s| == 2 * count
    {
      PlanesLieInside(maxChannels, 2 * maxSamples, p);
      var at := 2 * maxSamples * p;
      samples[at..at + 2 * count]
    }

    /** Overwrites the start of one plane and nothing else. */
    method StorePlane(p: nat, data: seq<Byte>)
      requires Valid() && p < maxChannels && |data| <= 2 * maxSamples && |data| % 2 == 0
      modifies this`samples
      ensures Valid() && Plane(p, |data| / 2) == data
      ensures Plane(p, maxSamples)[|data|..] == old(Plane(p, maxSamples)[|data|..])
      ensures forall q, count :: 0 <= q < maxChannels && q != p && 0 <= count <= maxSamples ==>
        Plane(q, count) == old(Plane(q, count))
    {
      hide ReplacedAt;
      ghost var was, n := samples, |data|;
      var stride := 2 * maxSamples;
      PlanesLieInside(maxChannels, stride, p);
      var at := stride * p;
      samples := samples[..at] + data + samples[at + |data|..];
      Overwritten(was, at, data);
      assert 2 * (n / 2) == n;
      RestIsKept(was, samples, at, n, stride);
      forall q, count | 0 <= q < maxChannels && q != p && 0 <= count <= maxSamples
        ensures Plane(q, count) == old(Plane(q, count))
      {
        OtherPlaneIsKept(was, samples, maxChannels, stride, p, q, n, 2 * count);
      }
    }
  }

  /** r is b with n bytes from `at` replaced. */
  ghost predicate ReplacedAt(b: seq<Byte>, r: seq<Byte>, at: nat, n: nat) {
    && at + n <= |b| == |r|
    && (forall lo, hi :: 0 <= lo <= hi <= at ==> r[lo..hi] == b[lo..hi])
    && (forall lo, hi :: at + n <= lo <= hi <= |b| ==> r[lo..hi] == b[lo..hi])
  }

  lemma Overwritten(b: seq<Byte>, at: nat, data: seq<Byte>)
    requires at + |data| <= |b|
    ensures var r := b[..at] + data + b[at + |data|..];
            |r| == |b| && r[at..at + |data|] == data && ReplacedAt(b, r, at, |data|)
  {
  }

  lemma RestIsKept(b: seq<Byte>, r: seq<Byte>, at: nat, n: nat, stride: nat)
    requires n <= stride && at + stride <= |b| == |r| && ReplacedAt(b, r, at, n)
    ensures r[at..at + stride][n..] == b[at..at + stride][n..]
  {
    assert r[at..at + stride][n..] == r[at + n..at + stride];
    assert b[at..at + stride][n..] == b[at + n..at + stride];
  }

  lemma OtherPlaneIsKept(b: seq<Byte>, r: seq<Byte>, channels: nat, stride: nat, p: nat, q: nat, n: nat, m: nat)
    requires p < channels && q < channels && p != q && n <= stride && m <= stride
    requires |b| == channels * stride && ReplacedAt(b, r, stride * p, n)
    ensures stride * q + m <= |b| && r[stride * q..stride * q + m] == b[stride * q..stride * q + m]
  {
    PlanesAreApart(channels, stride, p, q);
  }

  class CaptureReader {
    const parses: seq<Byte> -> bool
    /** What a double's 64 bits stand for. */
    const seconds: nat -> real

    var file: InFile
    var json: seq<Byte>
    var index: seq<IndexEntry>
    var recovered: bool
    var isOpen: bool

    constructor (parses: seq<Byte> -> bool, seconds: nat -> real)
      ensures this.parses == parses && this.seconds == seconds && !isOpen && index == []
    {
      this.parses, this.seconds := parses, seconds;
      file, json, index := InFile([], 0, true), [], [];
      recovered, isOpen := false, false;
    }

    method ScanForFrames(from: nat)
      requires from <= |file.bytes|
      modifies this`file, this`index
      ensures index == Scan(file.bytes, from)
      ensures file.bytes == old(file.bytes)
    {
      hide EntryAt;
      var found: seq<IndexEntry> := [];
      var f := file.Clear();
      var bytes, fileSize := f.bytes, |f.bytes|;
      f := f.Seek(from);
      while f.good
        invariant f.good && f.bytes == bytes && f.pos <= fileSize
        invariant found + Scan(bytes, f.pos) == Scan(bytes, from)
        decreases fileSize - f.pos
        modifies {}
      {
        var at := f.pos;
        f := f.After(RECORD_BYTES);
        if !f.good { break; }
        if FieldAt(bytes, at, 4) != FRAME_MAGIC { break; }
        if FieldAt(bytes, at + 4, 4) != FRAME_HEADER_BYTES { break; }
        f := f.After(FRAME_HEADER_BYTES);
        if !f.good { break; }
        var payloadEnd := f.pos + FieldAt(bytes, at + 8, 4);
        if payloadEnd > fileSize { break; }
        f := f.Seek(payloadEnd);
        Associate(found, [EntryAt(bytes, at)], Scan(bytes, payloadEnd));
        found := found + [EntryAt(bytes, at)];
      }
      index, file := found, f.Clear();
    }

    /** `content` is the file behind the path, when there is one that can be opened. */
    method Open(content: Option<seq<Byte>>) returns (ok: bool)
      modifies this
      ensures ok == isOpen == (content.Some? && Interpret(parses, content.value).Opened?)
      ensures ok ==> file.bytes == content.value
                     && Interpret(parses, content.value) == Opened(json, index, recovered)
    {
      hide FieldAt, FooterIndex, Scan;
      Close();
      if content.None? { return false; }
      var b := content.value;
      var f := InFile(b, 0, true);
      f := f.After(FILE_HEADER_BYTES);
      file := f;
      if !f.good || b[..8] != MAGIC { return false; }
      if FieldAt(b, 12, 4) != VERSION || FieldAt(b, 16, 4) != FLAG_NONE { return false; }
      var jsonBytes := FieldAt(b, 20, 4);
      f := f.After(jsonBytes);
      file := f;
      if !f.good { return false; }
      if !parses(b[FILE_HEADER_BYTES..f.pos]) { return false; }
      json := b[FILE_HEADER_BYTES..f.pos];
      var framesBegin := f.pos;

      var fromFooter := ReadFooterIndex();
      recovered := fromFooter.None?;
      if recovered {
        ScanForFrames(framesBegin);
      } else {
        index := fromFooter.value;
      }
      isOpen := true;
      ok := true;
    }

    /** The fast path: the footer, the index magic and count it leads to, then the entries. */
    method ReadFooterIndex() returns (found: Option<seq<IndexEntry>>)
      modifies this`file
      ensures found == FooterIndex(file.bytes) && file.bytes == old(file.bytes)
    {
      var b := file.bytes;
      var f := file.Clear();
      if |b| <= FOOTER_BYTES { return None; }
      f := f.Seek(|b| - FOOTER_BYTES);
      var footerAt := f.pos;
      f := f.After(FOOTER_BYTES);
      file := f;
      if b[footerAt..footerAt + 8] != FOOTER_MAGIC { return None; }
      var indexOffset := FieldAt(b, footerAt + 8, 8);
      f := f.Clear().Seek(indexOffset).After(4);
      file := f;
      if !f.good || FieldAt(b, indexOffset, 4) != INDEX_MAGIC { return None; }
      f := f.After(8);
      file := f;
      if !f.good { return None; }
      var count := FieldAt(b, indexOffset + 4, 8);
      f := f.After(ENTRY_BYTES * count);
      file := f;
      if !f.good { return None; }
      found := Some(StoredEntries(b, indexOffset + 12, count));
    }

    method Close()
      modifies this
      ensures !isOpen && file.bytes == old(file.bytes)
      ensures index == if old(isOpen) then [] else old(index)
    {
      if !isOpen { return; }
      index := [];
      isOpen := false;
    }

    /** Reads frame `i` into `out`, making room in it when it is too small. */
    method ReadFrame(i: nat, out: FrameBuffer) returns (ok: bool)
      requires out.Valid()
      modifies this`file, out
      ensures out.Valid() && file.bytes == old(file.bytes)
      ensures ok == (isOpen && i < |index| && StoredFrame(file.bytes, index[i].fileOffset).Some?)
      ensures ok ==>
        var f := StoredFrame(file.bytes, index[i].fileOffset).value;
        && out.header == f.header
        && ChannelCount(f.header) <= out.maxChannels && SampleCount(f.header) <= out.maxSamples
        && forall p :: 0 <= p < ChannelCount(f.header) ==> out.Plane(p, SampleCount(f.header)) == f.planes[p]
    {
      hide HeaderAt, SampleCount, PlanesAt;
      if !isOpen || i >= |index| { return false; }
      var b, at := file.bytes, index[i].fileOffset;
      var f := file.Clear().Seek(at).After(RECORD_BYTES);
      file := f;
      if !f.good || FieldAt(b, at, 4) != FRAME_MAGIC { return false; }
      f := f.After(FRAME_HEADER_BYTES);
      file := f;
      if !f.good { return false; }
      ok := ReadShaped(b, at + HEAD, HeaderAt(b, at), out);
    }

    /** Gives `out` the shape the header asks for, then reads its planes. */
    method ReadShaped(b: seq<Byte>, begin: nat, h: FrameHeader, out: FrameBuffer) returns (ok: bool)
      requires out.Valid() && begin <= |b| && file == InFile(b, begin, true)
      modifies this`file, out
      ensures out.Valid() && file.bytes == b
      ensures ok == (begin + ChannelCount(h) * (2 * SampleCount(h)) <= |b|)
      ensures ok ==>
        && out.header == h
        && ChannelCount(h) <= out.maxChannels && SampleCount(h) <= out.maxSamples
        && forall p :: 0 <= p < ChannelCount(h) ==>
             out.Plane(p, SampleCount(h)) == PlanesAt(b, begin, ChannelCount(h), 2 * SampleCount(h))[p]
    {
      hide PlanesAt;
      var channels, count := ChannelCount(h), SampleCount(h);
      if out.maxChannels < channels || out.maxSamples < count {
        out.Provision(if channels > MAX_CHANNELS then channels else MAX_CHANNELS, count);
      }
      var shaped := out.Shape(h[CHANNEL_COUNT_AT], count);
      if !shaped { return false; }
      out.header := h;
      ok := ReadPlanes(b, begin, channels, count, out);
    }

    method ReadPlanes(b: seq<Byte>, begin: nat, channels: nat, count: nat, out: FrameBuffer) returns (ok: bool)
      requires out.Valid() && channels <= out.maxChannels && count <= out.maxSamples
      requires file == InFile(b, begin, true) && begin <= |b|
      modifies this`file, out`samples
      ensures out.Valid() && file.bytes == b
      ensures ok == (begin + channels * (2 * count) <= |b|)
      ensures ok ==> forall p :: 0 <= p < channels ==>
        out.Plane(p, count) == PlanesAt(b, begin, channels, 2 * count)[p]
    {
      hide PlanesRead;
      ok := true;
      var each := 2 * count;
      NoPlanesRead(b, begin, each, out, count);
      for p := 0 to channels
        invariant out.Valid()
        invariant file == InFile(b, begin + each * p, true) && file.pos <= |b|
        invariant PlanesRead(b, begin, each, p, out, count)
      {
        PlanesLieInside(channels, each, p);
        ok := ReadPlane(b, begin, each, p, out, count);
        if !ok { return; }
      }
      AllPlanesRead(b, begin, channels, out, count);
    }

    method ReadPlane(b: seq<Byte>, begin: nat, each: nat, p: nat, out: FrameBuffer, count: nat) returns (ok: bool)
      requires out.Valid() && p < out.maxChannels && count <= out.maxSamples && each == 2 * count
      requires file == InFile(b, begin + each * p, true) && file.pos <= |b|
      requires PlanesRead(b, begin, each, p, out, count)
      modifies this`file, out`samples
      ensures out.Valid() && file.bytes == b
      ensures ok == (begin + each * p + each <= |b|)
      ensures ok ==> file == InFile(b, begin + each * (p + 1), true) && PlanesRead(b, begin, each, p + 1, out, count)
    {
      var at := file.pos;
      file := file.After(each);
      if !file.good { return false; }
      out.StorePlane(p, b[at..at + each]);
      assert each * (p + 1) == each * p + each;
      ok := true;
    }

    lemma NoPlanesRead(b: seq<Byte>, begin: nat, each: nat, out: FrameBuffer, count: nat)
      requires out.Valid() && count <= out.maxSamples
      ensures PlanesRead(b, begin, each, 0, out, count)
    {
    }

    lemma AllPlanesRead(b: seq<Byte>, begin: nat, channels: nat, out: FrameBuffer, count: nat)
      requires out.Valid() && channels <= out.maxChannels && count <= out.maxSamples
      requires begin + channels * (2 * count) <= |b| && PlanesRead(b, begin, 2 * count, channels, out, count)
      ensures forall p :: 0 <= p < channels ==>
        out.Plane(p, count) == PlanesAt(b, begin, channels, 2 * count)[p]
    {
    }

    ghost predicate PlanesRead(b: seq<Byte>, begin: nat, each: nat, n: nat, out: FrameBuffer, count: nat)
      requires out.Valid() && n <= out.maxChannels && count <= out.maxSamples
      reads out
    {
      forall q :: 0 <= q < n ==>
        begin + each * q + each <= |b| && out.Plane(q, count) == b[begin + each * q..begin + each * q + each]
    }

    /**
     The last frame whose timestamp is not after `t`, or 0 when there is none: the
     binary search of std::upper_bound, whose answer is stepped back by one.
     */
    method FrameAtTime(t: real) returns (k: nat)
      ensures index == [] ==> k == 0
      ensures index != [] ==> k < |index|
      ensures InTimeOrder(index) ==> k == LastNotAfter(index, t)
      ensures (forall i, j :: 0 <= i <= j < |index| ==> Time(index[i]) <= Time(index[j])) ==>
        && (k > 0 ==> Time(index[k]) <= t)
        && forall j :: k < j < |index| ==> t < Time(index[j])
    {
      if index == [] { return 0; }
      var es, at := index, seconds;
      var after: nat --> bool := i requires 0 <= i < |es| => at(es[i].timestampBits) > t;
      var first := PartitionPoint(|es|, after);
      k := if first == 0 then 0 else first - 1;
      assert forall i :: 0 <= i < |es| ==> (after(i) <==> t < Time(es[i]));
      if InTimeOrder(index) {
        assert StaysTrue(|es|, after);
        forall i | 0 <= i < |es| ensures t < Time(es[i]) <==> first <= i {
          assert after(i) <==> first <= i;
        }
        LastNotAfterIs(index, t, first);
      }
    }

    function Time(e: IndexEntry): real { seconds(e.timestampBits) }

    predicate InTimeOrder(es: seq<IndexEntry>) {
      forall i, j :: 0 <= i <= j < |es| ==> Time(es[i]) <= Time(es[j])
    }

    /** The linear scan: walk back from the end to a frame that is not too late. */
    function LastNotAfter(es: seq<IndexEntry>, t: real): nat {
      if es == [] then 0
      else if Time(es[|es| - 1]) <= t then |es| - 1
      else LastNotAfter(es[..|es| - 1], t)
    }

    lemma {:induction false} LastNotAfterIs(es: seq<IndexEntry>, t: real, split: nat)
      requires split <= |es|
      requires forall j :: 0 <= j < split ==> Time(es[j]) <= t
      requires forall j :: split <= j < |es| ==> t < Time(es[j])
      ensures LastNotAfter(es, t) == if split == 0 then 0 else split - 1
    {
      if split < |es| {
        LastNotAfterIs(es[..|es| - 1], t, split);
      } else if split > 0 {
        assert Time(es[|es| - 1]) <= t;
      }
    }

    /** Seeking later never lands on an earlier frame. */
    lemma {:induction false} SeekIsMonotone(es: seq<IndexEntry>, t: real, u: real)
      requires InTimeOrder(es) && t <= u
      ensures LastNotAfter(es, t) <= LastNotAfter(es, u)
      ensures es != [] ==> LastNotAfter(es, t) < |es|
    {
      if es != [] {
        var front := es[..|es| - 1];
        SeekIsMonotone(front, t, u);
      }
    }
  }
}
