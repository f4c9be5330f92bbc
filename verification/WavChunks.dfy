/**
 A RIFF/WAVE file as the list of its chunks.  Whatever chunks a file has, in whatever order, the
 parser finds the first format and the first data chunk; and a file that it accepts is such a list.
 */
module WavChunks {
  import opened Arithmetic
  import opened PcmCodec
  import opened WavFormat
  import opened Wrappers

  /** A chunk; the pad byte follows a body of odd size. */
  datatype Chunk = Chunk(id: seq<byte>, body: seq<byte>, pad: byte) {
    predicate Valid() {
      |id| == 4 && |body| <= MAX_U32
    }

    function Size(): nat {
      8 + |body| + |body| % 2
    }

    function ToBytes(): (r: seq<byte>)
      requires Valid()
      ensures |r| == Size()
    {
      id + Bytes(|body|, 4) + body + (if |body| % 2 == 0 then [] else [pad])
    }
  }

  predicate AreChunks(chunks: seq<Chunk>) {
    forall i :: 0 <= i < |chunks| ==> chunks[i].Valid()
  }

  function Length(chunks: seq<Chunk>): nat {
    if chunks == [] then 0 else chunks[0].Size() + Length(chunks[1..])
  }

  function Serial(chunks: seq<Chunk>): (r: seq<byte>)
    requires AreChunks(chunks)
    ensures |r| == Length(chunks)
  {
    if chunks == [] then [] else chunks[0].ToBytes() + Serial(chunks[1..])
  }

  /** A whole file: fewer than eight stray bytes may end the container, and anything may follow it. */
  datatype Container = Container(chunks: seq<Chunk>, tail: seq<byte>, rest: seq<byte>) {
    predicate Valid() {
      AreChunks(chunks) && |tail| < 8 && 4 + Length(chunks) + |tail| <= MAX_U32
    }

    function End(): nat {
      12 + Length(chunks) + |tail|
    }

    function ToBytes(): (r: seq<byte>)
      requires Valid()
      ensures |r| == End() + |rest|
    {
      (RIFF + Bytes(End() - 8, 4) + WAVE) + Serial(chunks) + (tail + rest)
    }
  }

  // ---------------------------------------------------------------- what is to be found

  /** The number of chunks before the first one with this identifier; all of them if there is none. */
  function Before(chunks: seq<Chunk>, id: seq<byte>): (n: nat)
    ensures n <= |chunks|
    ensures n < |chunks| ==> chunks[n].id == id
    ensures forall i :: 0 <= i < n ==> chunks[i].id != id
  {
    if chunks == [] || chunks[0].id == id then 0 else 1 + Before(chunks[1..], id)
  }

  predicate Has(chunks: seq<Chunk>, id: seq<byte>) {
    Before(chunks, id) < |chunks|
  }

  /** The first chunk with this identifier. */
  function First(chunks: seq<Chunk>, id: seq<byte>): Chunk
    requires Has(chunks, id)
  {
    chunks[Before(chunks, id)]
  }

  /** The format chunk is parsed from its first 40 bytes. */
  function FormatIn(chunk: Chunk): Result<Format> {
    ParseFormat(chunk.body[..Min(|chunk.body|, 40)], |chunk.body|)
  }

  /** What is found in a list of chunks that starts at `position`. */
  function FoundIn(chunks: seq<Chunk>, position: nat, found: Found): Result<Found> {
    if found.format.None? && Has(chunks, FMT) && FormatIn(First(chunks, FMT)).Err? then
      Err(FormatIn(First(chunks, FMT)).error)
    else
      var format := if found.format.None? && Has(chunks, FMT) then Some(FormatIn(First(chunks, FMT)).value)
                    else found.format;
      var data := if found.data.None? && Has(chunks, DATA) then
                    Some(Located(position + Length(chunks[..Before(chunks, DATA)]) + 8, |First(chunks, DATA).body|))
                  else found.data;
      Ok(Found(format, data))
  }

  // ---------------------------------------------------------------- the walk over a list

  /** From `position` on the file holds these chunks, and fewer than eight bytes before `end`. */
  ghost predicate HoldsChunks(file: seq<byte>, position: nat, end: nat, chunks: seq<Chunk>, tail: seq<byte>) {
    && position <= end <= |file| && AreChunks(chunks) && |tail| < 8
    && file[position..end] == Serial(chunks) + tail
  }

  lemma ChunkParts(chunk: Chunk)
    requires chunk.Valid()
    ensures
      var bytes, n := chunk.ToBytes(), |chunk.body|;
      && bytes[0..4] == chunk.id && bytes[4..8] == Bytes(n, 4) && bytes[8..8 + n] == chunk.body
  {
    hide Bytes;
    var bytes, n := chunk.ToBytes(), |chunk.body|;
    var back: seq<byte> := if n % 2 == 0 then [] else [chunk.pad];
    assert bytes == (chunk.id + Bytes(n, 4) + chunk.body) + back;
    ThreeFields(chunk.id, Bytes(n, 4), chunk.body);
    FrontSlice(chunk.id + Bytes(n, 4) + chunk.body, back, 0, 4);
    FrontSlice(chunk.id + Bytes(n, 4) + chunk.body, back, 4, 8);
    FrontSlice(chunk.id + Bytes(n, 4) + chunk.body, back, 8, 8 + n);
  }

  lemma ChunkSize(chunk: Chunk)
    ensures chunk.Size() >= 8 + |chunk.body|
    ensures chunk.Valid() ==> |chunk.body| <= MAX_U32
  {
  }

  lemma SliceInside(file: seq<byte>, position: nat, end: nat, part: seq<byte>, back: seq<byte>, i: nat, j: nat)
    requires position <= end <= |file| && file[position..end] == part + back && i <= j <= |part|
    ensures position + j <= end && file[position + i..position + j] == part[i..j]
  {
    FrontSlice(part, back, i, j);
    SliceOfSlice(file, position, end, i, j);
  }

  /** The first chunk at its place in the file. */
  lemma FirstChunk(file: seq<byte>, position: nat, end: nat, chunks: seq<Chunk>, tail: seq<byte>)
    requires HoldsChunks(file, position, end, chunks, tail) && chunks != []
    ensures
      var chunk, n := chunks[0], |chunks[0].body|;
      && position + chunk.Size() <= end <= |file|
      && file[position..position + 4] == chunk.id && U32(file, position + 4) == n
      && file[position + 8..position + 8 + n] == chunk.body
      && HoldsChunks(file, position + chunk.Size(), end, chunks[1..], tail)
  {
    hide Bytes, Value, Length, Chunk.Size, Chunk.ToBytes;
    var chunk, n := chunks[0], |chunks[0].body|;
    var bytes, back := chunk.ToBytes(), Serial(chunks[1..]) + tail;
    ChunkSize(chunk);
    ConcatAssociates(bytes, Serial(chunks[1..]), tail);
    ChunkParts(chunk);
    SliceInside(file, position, end, bytes, back, 0, 4);
    SliceInside(file, position, end, bytes, back, 4, 8);
    SliceInside(file, position, end, bytes, back, 8, 8 + n);
    FieldReadsBack(n, 4);
    BackSlice(bytes, back, 0, |back|);
    SliceOfSlice(file, position, end, |bytes|, |bytes| + |back|);
  }

  /** One step of the walk is one chunk of the list. */
  lemma VisitsChunk(file: seq<byte>, position: nat, end: nat, chunks: seq<Chunk>, tail: seq<byte>, found: Found)
    requires HoldsChunks(file, position, end, chunks, tail) && chunks != [] && position + 8 <= end
    ensures
      var chunk := chunks[0];
      Visit(file, end, position, found)
        == if chunk.id == FMT && found.format.None? then
             if FormatIn(chunk).Err? then Err(FormatIn(chunk).error)
             else Ok((found.(format := Some(FormatIn(chunk).value)), position + chunk.Size()))
           else if chunk.id == DATA && found.data.None? then
             Ok((found.(data := Some(Located(position + 8, |chunk.body|))), position + chunk.Size()))
           else Ok((found, position + chunk.Size()))
  {
    hide ParseFormat, HoldsChunks, U32;
    FirstChunk(file, position, end, chunks, tail);
    var n := |chunks[0].body|;
    SliceOfSlice(file, position + 8, position + 8 + n, 0, Min(n, 40));
    assert FMT[0] != DATA[0];
  }

  lemma LengthOfPrefix(chunks: seq<Chunk>, n: nat)
    requires 0 < n <= |chunks|
    ensures Length(chunks[..n]) == chunks[0].Size() + Length(chunks[1..][..n - 1])
  {
    assert chunks[..n][1..] == chunks[1..][..n - 1];
  }

  /** What is found behind the first chunk, when that one was visited. */
  lemma FoundNext(chunks: seq<Chunk>, position: nat, found: Found)
    requires chunks != []
    ensures
      var chunk := chunks[0];
      FoundIn(chunks, position, found)
        == if chunk.id == FMT && found.format.None? then
             if FormatIn(chunk).Err? then Err(FormatIn(chunk).error)
             else FoundIn(chunks[1..], position + chunk.Size(), found.(format := Some(FormatIn(chunk).value)))
           else if chunk.id == DATA && found.data.None? then
             FoundIn(chunks[1..], position + chunk.Size(),
                     found.(data := Some(Located(position + 8, |chunk.body|))))
           else FoundIn(chunks[1..], position + chunk.Size(), found)
  {
    hide FormatIn;
    assert FMT[0] != DATA[0];
    if Has(chunks, DATA) && chunks[0].id != DATA {
      LengthOfPrefix(chunks, Before(chunks, DATA));
    }
  }

  lemma {:induction false} WalkFindsFirst(file: seq<byte>, position: nat, end: nat, chunks: seq<Chunk>,
                                          tail: seq<byte>, found: Found)
    requires HoldsChunks(file, position, end, chunks, tail)
    ensures Walk(file, end, position, found) == FoundIn(chunks, position, found)
    decreases |chunks|
  {
    hide Visit, FormatIn;
    if chunks == [] {
      assert position + |tail| == end;
    } else {
      FirstChunk(file, position, end, chunks, tail);
      VisitsChunk(file, position, end, chunks, tail, found);
      FoundNext(chunks, position, found);
      var next := Visit(file, end, position, found);
      if next.Ok? {
        WalkFindsFirst(file, next.value.1, end, chunks[1..], tail, next.value.0);
      }
    }
  }

  // ---------------------------------------------------------------- the whole file

  /** What the parser makes of a list of chunks. */
  function ParsedChunks(chunks: seq<Chunk>): Result<Descriptor> {
    if Has(chunks, FMT) && FormatIn(First(chunks, FMT)).Err? then Err(FormatIn(First(chunks, FMT)).error)
    else if !Has(chunks, FMT) || !Has(chunks, DATA) then Err(WavRead)
    else
      var format, data := FormatIn(First(chunks, FMT)).value, First(chunks, DATA).body;
      ParseFormatIsChecked(First(chunks, FMT).body[..Min(|First(chunks, FMT).body|, 40)], |First(chunks, FMT).body|);
      if |data| % format.blockAlign != 0 then Err(WavRead)
      else
        var offset := 12 + Length(chunks[..Before(chunks, DATA)]) + 8;
        Ok(Descriptor(format, Located(offset, |data|), |data| / format.blockAlign))
  }

  lemma ContainerParts(f: Container)
    requires f.Valid()
    ensures
      var file := f.ToBytes();
      && |file| >= 12 && file[0..4] == RIFF && U32(file, 4) == f.End() - 8 && file[8..12] == WAVE
      && HoldsChunks(file, 12, f.End(), f.chunks, f.tail)
  {
    hide Bytes, Value;
    var file, head := f.ToBytes(), RIFF + Bytes(f.End() - 8, 4) + WAVE;
    var serial := Serial(f.chunks);
    assert file == head + (serial + f.tail + f.rest);
    ThreeFields(RIFF, Bytes(f.End() - 8, 4), WAVE);
    FrontSlice(head, serial + f.tail + f.rest, 0, 4);
    FrontSlice(head, serial + f.tail + f.rest, 4, 8);
    FrontSlice(head, serial + f.tail + f.rest, 8, 12);
    FieldReadsBack(f.End() - 8, 4);
    BackSlice(head, serial + f.tail + f.rest, 0, |serial + f.tail|);
    FrontSlice(serial + f.tail, f.rest, 0, |serial + f.tail|);
  }

  /** Whatever chunks a file has and in whatever order, the first format and the first data chunk decide. */
  lemma ContainerParses(f: Container)
    requires f.Valid()
    ensures DescriptorOf(f.ToBytes()) == ParsedChunks(f.chunks)
  {
    hide Walk, FormatIn, HoldsChunks, U32;
    ContainerParts(f);
    WalkFindsFirst(f.ToBytes(), 12, f.End(), f.chunks, f.tail, Found(None, None));
  }

  // ---------------------------------------------------------------- chunks beside those of a written file

  ghost predicate AreOther(chunks: seq<Chunk>) {
    forall i :: 0 <= i < |chunks| ==> chunks[i].id != FMT && chunks[i].id != DATA
  }

  lemma {:induction false} LengthConcat(a: seq<Chunk>, b: seq<Chunk>)
    ensures Length(a + b) == Length(a) + Length(b)
  {
    if a == [] {
      assert a + b == b;
    } else {
      assert (a + b)[1..] == a[1..] + b;
      LengthConcat(a[1..], b);
    }
  }

  lemma {:induction false} BeforeConcat(a: seq<Chunk>, b: seq<Chunk>, id: seq<byte>)
    requires forall i :: 0 <= i < |a| ==> a[i].id != id
    ensures Before(a + b, id) == |a| + Before(b, id)
  {
    if a == [] {
      assert a + b == b;
    } else {
      assert (a + b)[1..] == a[1..] + b;
      BeforeConcat(a[1..], b, id);
    }
  }

  function FmtChunk(o: Output): Chunk {
    Chunk(FMT, FmtBody(o), 0)
  }

  function DataChunk(data: seq<byte>): Chunk {
    Chunk(DATA, data, 0)
  }

  lemma OneChunk(chunk: Chunk)
    requires chunk.Valid()
    ensures Length([chunk]) == chunk.Size() && Serial([chunk]) == chunk.ToBytes()
  {
    hide Bytes;
    assert [chunk][1..] == [];
    assert Length([]) == 0 && Serial([]) == [];
  }

  /** The file that write_wav leaves is the container of its two chunks. */
  lemma WrittenIsContainer(o: Output, data: seq<byte>)
    requires o.Fits() && |data| == o.DataSize()
    ensures
      var f := Container([FmtChunk(o), DataChunk(data)], [], []);
      f.Valid() && f.ToBytes() == FileBytes(o, data)
  {
    hide Bytes, FmtBody;
    var f := Container([FmtChunk(o), DataChunk(data)], [], []);
    assert f.chunks[1..] == [DataChunk(data)];
    OneChunk(DataChunk(data));
    assert Length(f.chunks) == FmtChunk(o).Size() + Length([DataChunk(data)]);
    assert Serial(f.chunks) == FmtChunk(o).ToBytes() + DataChunk(data).ToBytes();
  }

  /** The written chunks among others: `before`, `between` and `behind`. */
  function WithOthers(o: Output, data: seq<byte>, before: seq<Chunk>, between: seq<Chunk>, behind: seq<Chunk>)
    : seq<Chunk>
  {
    before + ([FmtChunk(o)] + (between + ([DataChunk(data)] + behind)))
  }

  lemma OthersStay(o: Output, data: seq<byte>, before: seq<Chunk>, between: seq<Chunk>, behind: seq<Chunk>)
    requires AreOther(before) && AreOther(between)
    ensures
      var chunks := WithOthers(o, data, before, between, behind);
      && Has(chunks, FMT) && First(chunks, FMT) == FmtChunk(o) && Has(chunks, DATA)
      && First(chunks, DATA) == DataChunk(data)
      && Length(chunks[..Before(chunks, DATA)]) == Length(before) + 24 + Length(between)
  {
    hide FmtBody, Before, Length;
    var chunks := WithOthers(o, data, before, between, behind);
    var last := [DataChunk(data)] + behind;
    FirstIsFound(FmtChunk(o), between + last, FMT);
    FirstIsFound(DataChunk(data), behind, DATA);
    assert FMT[0] != DATA[0];
    BeforeConcat(before, [FmtChunk(o)] + (between + last), FMT);
    BeforeConcat(before, [FmtChunk(o)] + (between + last), DATA);
    BeforeConcat([FmtChunk(o)], between + last, DATA);
    BeforeConcat(between, last, DATA);
    assert chunks[..Before(chunks, DATA)] == before + ([FmtChunk(o)] + between);
    LengthConcat(before, [FmtChunk(o)] + between);
    LengthConcat([FmtChunk(o)], between);
    OneLength(FmtChunk(o));
  }

  lemma FirstIsFound(chunk: Chunk, behind: seq<Chunk>, id: seq<byte>)
    requires chunk.id == id
    ensures Before([chunk] + behind, id) == 0
  {
  }

  lemma OneLength(chunk: Chunk)
    ensures Length([chunk]) == chunk.Size()
  {
    assert Length([chunk]) == chunk.Size() + Length([]);
  }

  /**
   Chunks of any other kind before, between and behind the two that were written, and any chunks at
   all behind them, leave the format and the frame count as they were; the data moves by the bytes
   that were inserted before it.
   */
  lemma OtherChunksAreSkipped(o: Output, data: seq<byte>, before: seq<Chunk>, between: seq<Chunk>,
                              behind: seq<Chunk>, tail: seq<byte>, rest: seq<byte>)
    requires o.Fits() && o.rate > 0 && |data| == o.DataSize() && AreOther(before) && AreOther(between)
    requires Container(WithOthers(o, data, before, between, behind), tail, rest).Valid()
    ensures
      DescriptorOf(Container(WithOthers(o, data, before, between, behind), tail, rest).ToBytes())
        == Ok(Descriptor(FormatOf(o), Located(44 + Length(before) + Length(between), |data|), o.frames))
  {
    hide *;
    ContainerParses(Container(WithOthers(o, data, before, between, behind), tail, rest));
    WrittenAmongOthers(o, data, before, between, behind);
  }

  lemma WrittenAmongOthers(o: Output, data: seq<byte>, before: seq<Chunk>, between: seq<Chunk>, behind: seq<Chunk>)
    requires o.Fits() && o.rate > 0 && |data| == o.DataSize() && AreOther(before) && AreOther(between)
    ensures
      ParsedChunks(WithOthers(o, data, before, between, behind))
        == Ok(Descriptor(FormatOf(o), Located(44 + Length(before) + Length(between), |data|), o.frames))
  {
    hide Samples, Before, WithOthers, Length, FormatIn, Output.Fits;
    OthersStay(o, data, before, between, behind);
    WrittenFormat(o);
    WholeFrames(o);
  }

  lemma WrittenFormat(o: Output)
    requires o.Fits() && o.rate > 0
    ensures FormatIn(FmtChunk(o)) == Ok(FormatOf(o))
  {
    hide FmtBody, ParseFormat, Samples;
    FmtParses(o);
    assert FmtBody(o)[..16] == FmtBody(o);
  }

  lemma WholeFrames(o: Output)
    requires o.Fits()
    ensures 0 < o.BlockAlign() && o.DataSize() % o.BlockAlign() == 0 && o.DataSize() / o.BlockAlign() == o.frames
  {
    SamplesIsProduct(o.frames, o.BlockAlign());
    DivModUnique(o.DataSize(), o.frames, 0, o.BlockAlign());
  }

  // ---------------------------------------------------------------- where the data lie

  lemma {:induction false} BodyInSerial(file: seq<byte>, position: nat, end: nat, chunks: seq<Chunk>, tail: seq<byte>,
                                        i: nat)
    requires HoldsChunks(file, position, end, chunks, tail) && i < |chunks|
    ensures
      var at, n := position + Length(chunks[..i]) + 8, |chunks[i].body|;
      at + n <= end <= |file| && file[at..at + n] == chunks[i].body
    decreases i
  {
    hide HoldsChunks;
    FirstChunk(file, position, end, chunks, tail);
    if i > 0 {
      BodyInSerial(file, position + chunks[0].Size(), end, chunks[1..], tail, i - 1);
      LengthOfPrefix(chunks, i);
    } else {
      assert chunks[..0] == [];
    }
  }

  /** The data that were located are the body of the first data chunk. */
  lemma DataAreThere(f: Container)
    requires f.Valid() && ParsedChunks(f.chunks).Ok?
    ensures
      var data := ParsedChunks(f.chunks).value.data;
      && Has(f.chunks, DATA) && data.offset + data.size <= |f.ToBytes()|
      && f.ToBytes()[data.offset..data.offset + data.size] == First(f.chunks, DATA).body
  {
    hide HoldsChunks, FormatIn, Serial, Length, Bytes, U32;
    ContainerParts(f);
    BodyInSerial(f.ToBytes(), 12, f.End(), f.chunks, f.tail, Before(f.chunks, DATA));
  }

  // ---------------------------------------------------------------- what is refused

  /** A file without the header of its container, or that is shorter than that says. */
  lemma HeaderFaults(file: seq<byte>)
    ensures |file| < 12 ==> DescriptorOf(file) == Err(WavRead)
    ensures |file| >= 12 ==>
      var named := file[0..4] == [0x52, 0x49, 0x46, 0x46] && file[8..12] == [0x57, 0x41, 0x56, 0x45];
      && (!named ==> DescriptorOf(file) == Err(UnsupportedFormat))
      && (named && (U32(file, 4) < 4 || U32(file, 4) + 8 > |file|) ==> DescriptorOf(file) == Err(WavRead))
  {
    hide U32, Walk;
  }

  /** Behind these chunks a chunk follows that does not end before `end`. */
  ghost predicate IsCut(file: seq<byte>, position: nat, end: nat, chunks: seq<Chunk>, cut: seq<byte>) {
    && position <= end <= |file| && AreChunks(chunks) && file[position..end] == Serial(chunks) + cut
    && |cut| >= 8 && 8 + U32(cut, 4) + U32(cut, 4) % 2 > |cut|
  }

  lemma FirstOfCut(file: seq<byte>, position: nat, end: nat, chunks: seq<Chunk>, cut: seq<byte>)
    requires IsCut(file, position, end, chunks, cut) && chunks != []
    ensures position + chunks[0].Size() <= end <= |file|
    ensures HoldsChunks(file, position, position + chunks[0].Size(), [chunks[0]], [])
    ensures IsCut(file, position + chunks[0].Size(), end, chunks[1..], cut)
  {
    hide U32, Bytes, Length, Chunk.Size, Chunk.ToBytes;
    var bytes, back := chunks[0].ToBytes(), Serial(chunks[1..]) + cut;
    ConcatAssociates(bytes, Serial(chunks[1..]), cut);
    OneChunk(chunks[0]);
    ConcatNothing(bytes);
    SliceInside(file, position, end, bytes, back, 0, |bytes|);
    BackSlice(bytes, back, 0, |back|);
    SliceOfSlice(file, position, end, |bytes|, |bytes| + |back|);
  }

  lemma ConcatAssociates(a: seq<byte>, b: seq<byte>, c: seq<byte>)
    ensures (a + b) + c == a + (b + c)
  {
  }

  lemma ConcatNothing(a: seq<byte>)
    ensures a + [] == a && a[0..|a|] == a
  {
  }

  lemma {:induction false} CutIsRefused(file: seq<byte>, position: nat, end: nat, chunks: seq<Chunk>, cut: seq<byte>,
                                        found: Found)
    requires IsCut(file, position, end, chunks, cut)
    ensures Walk(file, end, position, found)
         == if FoundIn(chunks, position, found).Err? then Err(FoundIn(chunks, position, found).error) else Err(WavRead)
    decreases |chunks|
  {
    hide Visit, FormatIn, IsCut, HoldsChunks;
    if chunks == [] {
      CutChunkIsRefused(file, position, end, cut, found);
    } else {
      FirstOfCut(file, position, end, chunks, cut);
      var to := position + chunks[0].Size();
      VisitsCutChunk(file, position, end, chunks, found);
      FoundNext(chunks, position, found);
      var next := Visit(file, end, position, found);
      if next.Ok? {
        CutIsRefused(file, to, end, chunks[1..], cut, next.value.0);
      }
    }
  }

  lemma CutChunkIsRefused(file: seq<byte>, position: nat, end: nat, cut: seq<byte>, found: Found)
    requires IsCut(file, position, end, [], cut)
    ensures Walk(file, end, position, found) == Err(WavRead) && FoundIn([], position, found).Ok?
  {
    hide ParseFormat, Value;
    SliceOfSlice(file, position, end, 4, 8);
    assert file[position..end] == cut;
  }

  /** A chunk is visited in the same way whatever follows it. */
  lemma VisitsCutChunk(file: seq<byte>, position: nat, end: nat, chunks: seq<Chunk>, found: Found)
    requires chunks != [] && position + chunks[0].Size() <= end <= |file|
    requires HoldsChunks(file, position, position + chunks[0].Size(), [chunks[0]], [])
    ensures
      var chunk := chunks[0];
      Visit(file, end, position, found)
        == if chunk.id == FMT && found.format.None? then
             if FormatIn(chunk).Err? then Err(FormatIn(chunk).error)
             else Ok((found.(format := Some(FormatIn(chunk).value)), position + chunk.Size()))
           else if chunk.id == DATA && found.data.None? then
             Ok((found.(data := Some(Located(position + 8, |chunk.body|))), position + chunk.Size()))
           else Ok((found, position + chunk.Size()))
  {
    hide ParseFormat, HoldsChunks, U32;
    VisitsChunk(file, position, position + chunks[0].Size(), [chunks[0]], [], found);
    FirstChunk(file, position, position + chunks[0].Size(), [chunks[0]], []);
  }

  // ---------------------------------------------------------------- every accepted file is such a list

  /** The chunk that the walk visits at `position`. */
  function ChunkAt(file: seq<byte>, position: nat, end: nat): (c: Chunk)
    requires position + 8 <= end <= |file|
    requires position + 8 + U32(file, position + 4) + U32(file, position + 4) % 2 <= end
  {
    var n := U32(file, position + 4);
    Chunk(file[position..position + 4], file[position + 8..position + 8 + n],
          if n % 2 == 0 then 0 else file[position + 8 + n])
  }

  lemma FieldIsBytes(file: seq<byte>, at: nat)
    requires at + 4 <= |file|
    ensures Bytes(U32(file, at), 4) == file[at..at + 4] && U32(file, at) <= MAX_U32
  {
    hide Bytes, Value, Pow2;
    BytesOfValue(file[at..at + 4]);
    ValueIsBounded(file[at..at + 4]);
    FieldWidths();
  }

  lemma ChunkAtIsThere(file: seq<byte>, position: nat, end: nat)
    requires position + 8 <= end <= |file|
    requires position + 8 + U32(file, position + 4) + U32(file, position + 4) % 2 <= end
    ensures
      var chunk := ChunkAt(file, position, end);
      && chunk.Valid() && position + chunk.Size() <= end
      && file[position..position + chunk.Size()] == chunk.ToBytes()
  {
    hide Bytes, Value;
    FieldIsBytes(file, position + 4);
    var chunk, n := ChunkAt(file, position, end), U32(file, position + 4);
    var to := position + chunk.Size();
    FourSlices(file, position, position + 4, position + 8, position + 8 + n, to);
    assert file[position + 8 + n..to] == if n % 2 == 0 then [] else [chunk.pad];
  }

  lemma FourSlices(s: seq<byte>, a: nat, b: nat, c: nat, d: nat, e: nat)
    requires a <= b <= c <= d <= e <= |s|
    ensures s[a..e] == s[a..b] + s[b..c] + s[c..d] + s[d..e]
  {
    TwoSlices(s, a, b, c);
    TwoSlices(s, a, c, d);
    TwoSlices(s, a, d, e);
  }

  lemma TwoSlices(s: seq<byte>, a: nat, b: nat, c: nat)
    requires a <= b <= c <= |s|
    ensures s[a..c] == s[a..b] + s[b..c]
  {
  }

  /** A walk that ends without an error has split the container into chunks. */
  lemma {:induction false} WalkSplits(file: seq<byte>, position: nat, end: nat, found: Found)
    returns (chunks: seq<Chunk>, tail: seq<byte>)
    requires position <= end <= |file| && Walk(file, end, position, found).Ok?
    ensures HoldsChunks(file, position, end, chunks, tail)
    decreases end - position
  {
    hide Visit, HoldsChunks, Chunk.Size;
    if position + 8 > end {
      chunks, tail := [], file[position..end];
      NoChunks(file, position, end);
    } else {
      var next := Visit(file, end, position, found).value;
      VisitAdvances(file, position, end, found);
      var others, last := WalkSplits(file, next.1, end, next.0);
      chunks, tail := [ChunkAt(file, position, end)] + others, last;
      PrependChunk(file, position, end, others, last);
    }
  }

  lemma NoChunks(file: seq<byte>, position: nat, end: nat)
    requires position <= end <= |file| && position + 8 > end
    ensures HoldsChunks(file, position, end, [], file[position..end])
  {
  }

  lemma VisitAdvances(file: seq<byte>, position: nat, end: nat, found: Found)
    requires position + 8 <= end <= |file| && Visit(file, end, position, found).Ok?
    ensures position + 8 + U32(file, position + 4) + U32(file, position + 4) % 2 <= end
    ensures Visit(file, end, position, found).value.1 == position + ChunkAt(file, position, end).Size() <= end
  {
    hide ParseFormat, U32;
  }

  lemma PrependChunk(file: seq<byte>, position: nat, end: nat, others: seq<Chunk>, tail: seq<byte>)
    requires position + 8 <= end <= |file|
    requires position + 8 + U32(file, position + 4) + U32(file, position + 4) % 2 <= end
    requires HoldsChunks(file, position + ChunkAt(file, position, end).Size(), end, others, tail)
    ensures HoldsChunks(file, position, end, [ChunkAt(file, position, end)] + others, tail)
  {
    hide U32, Chunk.Valid, Chunk.ToBytes, ChunkAt;
    var chunk := ChunkAt(file, position, end);
    ChunkAtIsThere(file, position, end);
    TwoSlices(file, position, position + chunk.Size(), end);
    assert ([chunk] + others)[1..] == others;
    ConcatAssociates(chunk.ToBytes(), Serial(others), tail);
  }

  /** Every accepted file is the container of some chunks, so ContainerParses says what it was read as. */
  lemma AcceptedIsContainer(file: seq<byte>) returns (f: Container)
    requires DescriptorOf(file).Ok?
    ensures f.Valid() && f.ToBytes() == file
  {
    hide Walk, Bytes, Value;
    var end := RiffEnd(file).value;
    var chunks, tail := WalkSplits(file, 12, end, Found(None, None));
    f := Container(chunks, tail, file[end..]);
    FieldIsBytes(file, 4);
    HeadAndRest(file, end);
    PartsAssociate(file[0..4] + file[4..8] + file[8..12], Serial(chunks), tail, file[end..]);
  }

  lemma HeadAndRest(file: seq<byte>, end: nat)
    requires 12 <= end <= |file|
    ensures file == (file[0..4] + file[4..8] + file[8..12]) + file[12..end] + file[end..]
  {
    TwoSlices(file, 0, 4, 8);
    TwoSlices(file, 0, 8, 12);
    TwoSlices(file, 0, 12, end);
    TwoSlices(file, 0, end, |file|);
  }

  lemma PartsAssociate(a: seq<byte>, b: seq<byte>, c: seq<byte>, d: seq<byte>)
    ensures a + (b + c) + d == a + b + (c + d)
  {
  }

  ghost predicate IsFileOf(file: seq<byte>, f: Container) {
    f.Valid() && f.ToBytes() == file
  }

  /** The file is a container whose chunks are accepted. */
  ghost predicate HasAcceptedChunks(file: seq<byte>) {
    exists f :: IsFileOf(file, f) && ParsedChunks(f.chunks).Ok?
  }

  /** The result is that of the chunks of the file, if it is a container. */
  ghost predicate IsParsedAs(file: seq<byte>, r: Result<Descriptor>) {
    forall f :: IsFileOf(file, f) ==> r == ParsedChunks(f.chunks)
  }

  /** So the accepted files are those whose chunks are accepted, and they are read as these chunks. */
  lemma AcceptedIffChunks(file: seq<byte>)
    ensures DescriptorOf(file).Ok? <==> HasAcceptedChunks(file)
    ensures IsParsedAs(file, DescriptorOf(file))
  {
    hide DescriptorOf, ParsedChunks, Container.Valid, Container.ToBytes;
    forall f | IsFileOf(file, f) ensures DescriptorOf(file) == ParsedChunks(f.chunks) {
      ContainerParses(f);
    }
    if DescriptorOf(file).Ok? {
      var f := AcceptedIsContainer(file);
      assert IsFileOf(file, f);
    }
  }

  // ---------------------------------------------------------------- the parser

  /** parse_wav_descriptor: the loop over the chunk headers. */
  method ParseDescriptor(file: seq<byte>) returns (r: Result<Descriptor>)
    ensures r == DescriptorOf(file)
    ensures r.Ok? <==> HasAcceptedChunks(file)
    ensures IsParsedAs(file, r)
  {
    hide Visit, CheckFormat, HasAcceptedChunks, IsParsedAs;
    AcceptedIffChunks(file);
    var end := RiffEnd(file);
    if end.Err? {
      return Err(end.error);
    }
    var position, found := 12, Found(None, None);
    while position + 8 <= end.value
      invariant position <= end.value && IsFound(file, found)
      invariant Walk(file, end.value, 12, Found(None, None)) == Walk(file, end.value, position, found)
      decreases end.value - position
    {
      var next := Visit(file, end.value, position, found);
      if next.Err? {
        return Err(next.error);
      }
      VisitFinds(file, end.value, position, found);
      found, position := next.value.0, next.value.1;
    }
    r := Described(found);
  }
}
