/** Sending a snapshot in chunks and putting it together again. */
module SnapshotTransfer {
  import opened Options

  const DEFAULT_CHUNK := 65536

  datatype Meta = Meta(term: nat, index: nat)

  datatype Chunk = Chunk(meta: Meta, data: string, offset: nat, eof: bool)

  /** Buffered data per snapshot being received. */
  type Sessions = map<Meta, string>

  datatype Outcome = UnexpectedOffset | Buffered | Install(data: string)

  // Sending.

  function ChunkSize(size: int): (effective: nat)
    ensures effective >= 1
  {
    if size <= 0 then DEFAULT_CHUNK else size
  }

  function ChunksFrom(meta: Meta, data: string, offset: nat, size: nat): seq<Chunk>
    requires size >= 1 && offset <= |data|
    decreases |data| - offset
  {
    if offset + size >= |data| then [Chunk(meta, data[offset..], offset, true)]
    else [Chunk(meta, data[offset..offset + size], offset, false)] + ChunksFrom(meta, data, offset + size, size)
  }

  method SplitSnapshotChunks(meta: Meta, data: string, size: int) returns (chunks: seq<Chunk>)
    ensures chunks == ChunksFrom(meta, data, 0, ChunkSize(size))
  {
    var step := ChunkSize(size);
    if |data| == 0 {
      assert data[0..] == [];
      return [Chunk(meta, [], 0, true)];
    }
    chunks := [];
    var offset := 0;
    while offset < |data|
      invariant chunks == [] || offset > 0
      invariant ChunksFrom(meta, data, 0, step)
                == chunks + (if offset < |data| then ChunksFrom(meta, data, offset, step) else [])
      decreases |data| - offset
    {
      var end := if offset + step > |data| then |data| else offset + step;
      var chunk := Chunk(meta, data[offset..end], offset, end == |data|);
      NextChunk(meta, data, offset, step, chunk);
      AppendOne(chunks, chunk, if offset + step < |data| then ChunksFrom(meta, data, offset + step, step) else []);
      chunks := chunks + [chunk];
      offset := offset + step;
    }
  }

  lemma NextChunk(meta: Meta, data: string, offset: nat, step: nat, chunk: Chunk)
    requires step >= 1 && offset < |data|
    requires chunk == if offset + step >= |data| then Chunk(meta, data[offset..|data|], offset, true)
                      else Chunk(meta, data[offset..offset + step], offset, false)
    ensures ChunksFrom(meta, data, offset, step)
         == [chunk] + (if offset + step < |data| then ChunksFrom(meta, data, offset + step, step) else [])
  {
    assert data[offset..|data|] == data[offset..];
  }

  lemma AppendOne(front: seq<Chunk>, chunk: Chunk, rest: seq<Chunk>)
    ensures front + ([chunk] + rest) == front + [chunk] + rest
  {
  }

  /** A piece of some data at its place, marked as the end exactly when it reaches it. */
  predicate PieceOf(chunk: Chunk, data: string) {
    && chunk.offset + |chunk.data| <= |data|
    && chunk.data == data[chunk.offset..chunk.offset + |chunk.data|]
    && (chunk.eof <==> chunk.offset + |chunk.data| == |data|)
  }

  lemma {:induction false} ChunksArePieces(meta: Meta, data: string, offset: nat, size: nat)
    requires size >= 1 && offset <= |data|
    ensures forall chunk :: chunk in ChunksFrom(meta, data, offset, size) ==> chunk.meta == meta && PieceOf(chunk, data)
    decreases |data| - offset
  {
    if offset + size >= |data| {
      assert data[offset..|data|] == data[offset..];
    } else {
      ChunksArePieces(meta, data, offset + size, size);
    }
  }

  /** The chunks lie end to end, each as long as asked for - 65536 bytes when nothing positive was - and only
      the last may be shorter and is marked as the end. */
  lemma ChunksExactly(meta: Meta, data: string, size: int)
    ensures var step := if size <= 0 then 65536 else size;
            var chunks := ChunksFrom(meta, data, 0, ChunkSize(size));
            && chunks != []
            && (forall i :: 0 <= i < |chunks| ==> chunks[i].offset == i * step && chunks[i].meta == meta)
            && (forall i :: 0 <= i < |chunks| - 1 ==> |chunks[i].data| == step && !chunks[i].eof)
            && |chunks[|chunks| - 1].data| <= step && chunks[|chunks| - 1].eof
  {
    ChunkLengths(meta, data, 0, ChunkSize(size));
    EndToEnd(ChunksFrom(meta, data, 0, ChunkSize(size)), ChunkSize(size));
    ChunksArePieces(meta, data, 0, ChunkSize(size));
  }

  lemma {:induction false} ChunkLengths(meta: Meta, data: string, offset: nat, size: nat)
    requires size >= 1 && offset <= |data|
    ensures var chunks := ChunksFrom(meta, data, offset, size);
            && chunks != [] && chunks[0].offset == offset
            && (forall i :: 0 <= i < |chunks| - 1 ==>
                  |chunks[i].data| == size && !chunks[i].eof && chunks[i + 1].offset == chunks[i].offset + size)
            && |chunks[|chunks| - 1].data| <= size && chunks[|chunks| - 1].eof
    decreases |data| - offset
  {
    if offset + size < |data| {
      ChunkLengths(meta, data, offset + size, size);
    }
  }

  lemma {:induction false} EndToEnd(chunks: seq<Chunk>, step: nat)
    requires chunks != [] ==> chunks[0].offset == 0
    requires forall i :: 0 <= i < |chunks| - 1 ==> chunks[i + 1].offset == chunks[i].offset + step
    ensures forall i :: 0 <= i < |chunks| ==> chunks[i].offset == i * step
    decreases |chunks|
  {
    if chunks != [] {
      var n := |chunks| - 1;
      EndToEnd(chunks[..n], step);
      if n > 0 {
        assert chunks[n].offset == chunks[n - 1].offset + step && chunks[..n][n - 1] == chunks[n - 1];
        assert (n - 1) * step + step == n * step;
      }
    }
  }

  // Receiving.

  function BufferOf(sessions: Sessions, meta: Meta): string {
    if meta in sessions then sessions[meta] else ""
  }

  /** One chunk: appended when it begins where the buffer ends, and the end marker installs the buffer. */
  function Received(sessions: Sessions, chunk: Chunk): (Sessions, Outcome) {
    var buffer := BufferOf(sessions, chunk.meta);
    if chunk.offset != |buffer| then (sessions[chunk.meta := buffer], UnexpectedOffset)
    else if !chunk.eof then (sessions[chunk.meta := buffer + chunk.data], Buffered)
    else (sessions - {chunk.meta}, Install(buffer + chunk.data))
  }

  class TransportService {
    var install: Sessions

    constructor ()
      ensures install == map[]
    {
      install := map[];
    }

    method InstallSnapshotChunk(chunk: Chunk) returns (outcome: Outcome)
      modifies this
      ensures (install, outcome) == Received(old(install), chunk)
      ensures var buffer := if chunk.meta in old(install) then old(install)[chunk.meta] else "";
              if chunk.offset != |buffer| then
                outcome == UnexpectedOffset && install == old(install)[chunk.meta := buffer]
              else if chunk.eof then
                outcome == Install(buffer + chunk.data) && install == old(install) - {chunk.meta}
              else outcome == Buffered && install == old(install)[chunk.meta := buffer + chunk.data]
    {
      if chunk.meta !in install {
        install := install[chunk.meta := ""];
      }
      var buffer := install[chunk.meta];
      if chunk.offset != |buffer| {
        assert install == old(install)[chunk.meta := buffer];
        return UnexpectedOffset;
      }
      install := install[chunk.meta := buffer + chunk.data];
      if !chunk.eof {
        assert install == old(install)[chunk.meta := buffer + chunk.data];
        return Buffered;
      }
      var data := install[chunk.meta];
      install := install - {chunk.meta};
      assert install == old(install) - {chunk.meta};
      return Install(data);
    }

    /** A stream of chunks is handed over one by one until one is refused or the end marker came. */
    method ReceiveStream(chunks: seq<Chunk>) returns (installed: Option<string>, stopped: bool)
      modifies this
      ensures (install, installed, stopped) == Streamed(old(install), chunks)
    {
      for i := 0 to |chunks|
        invariant (install, None, false) == Streamed(old(install), chunks[..i])
      {
        assert chunks[..i + 1][..i] == chunks[..i];
        var outcome := InstallSnapshotChunk(chunks[i]);
        if !outcome.Buffered? {
          StoppedStays(old(install), chunks, i + 1);
          return if outcome.Install? then Some(outcome.data) else None, true;
        }
      }
      assert chunks[..|chunks|] == chunks;
      return None, false;
    }
  }

  /** The sessions, the data installed, and whether the stream has stopped, by refusal or at its end. */
  function Streamed(sessions: Sessions, chunks: seq<Chunk>): (Sessions, Option<string>, bool) {
    if chunks == [] then (sessions, None, false)
    else
      var (before, installed, stopped) := Streamed(sessions, chunks[..|chunks| - 1]);
      if stopped then (before, installed, true)
      else
        var (after, outcome) := Received(before, chunks[|chunks| - 1]);
        match outcome
        case UnexpectedOffset => (after, None, true)
        case Buffered => (after, None, false)
        case Install(data) => (after, Some(data), true)
  }

  lemma {:induction false} StoppedStays(sessions: Sessions, chunks: seq<Chunk>, i: nat)
    requires i <= |chunks| && Streamed(sessions, chunks[..i]).2
    ensures Streamed(sessions, chunks) == Streamed(sessions, chunks[..i])
    decreases |chunks|
  {
    hide Received;
    if i == |chunks| {
      assert chunks[..i] == chunks;
    } else {
      assert chunks[..|chunks| - 1][..i] == chunks[..i];
      StoppedStays(sessions, chunks[..|chunks| - 1], i);
    }
  }

  // Safety under any delivery.

  /** Every buffer is a prefix of the data of its snapshot. */
  ghost predicate AllPrefixes(sessions: Sessions, source: Meta -> string) {
    forall meta :: meta in sessions ==> sessions[meta] <= source(meta)
  }

  /** One piece, of whatever snapshot, size and order: buffers stay prefixes, and only complete data is installed. */
  lemma PieceKeepsPrefixes(sessions: Sessions, chunk: Chunk, source: Meta -> string)
    requires AllPrefixes(sessions, source) && PieceOf(chunk, source(chunk.meta))
    ensures var (after, outcome) := Received(sessions, chunk);
            AllPrefixes(after, source) && (outcome.Install? ==> outcome.data == source(chunk.meta))
  {
    var data, buffer := source(chunk.meta), BufferOf(sessions, chunk.meta);
    if chunk.offset == |buffer| {
      assert buffer == data[..chunk.offset];
      assert buffer + chunk.data == data[..chunk.offset + |chunk.data|];
    }
  }

  /** Chunks delivered one by one, each accepted or refused on its own. */
  function Delivered(sessions: Sessions, chunks: seq<Chunk>): (Sessions, seq<(Meta, string)>) {
    if chunks == [] then (sessions, [])
    else
      var (before, installed) := Delivered(sessions, chunks[..|chunks| - 1]);
      var (after, outcome) := Received(before, chunks[|chunks| - 1]);
      (after, installed + (if outcome.Install? then [(chunks[|chunks| - 1].meta, outcome.data)] else []))
  }

  /** Each further chunk of a delivery: refused, buffered, or the end that installs. */
  lemma DeliveredNext(sessions: Sessions, chunks: seq<Chunk>, chunk: Chunk)
    ensures var (before, installed) := Delivered(sessions, chunks);
            var (after, more) := Delivered(sessions, chunks + [chunk]);
            var buffer := if chunk.meta in before then before[chunk.meta] else "";
            if chunk.offset != |buffer| then after == before[chunk.meta := buffer] && more == installed
            else if chunk.eof then after == before - {chunk.meta}
              && more == installed + [(chunk.meta, buffer + chunk.data)]
            else after == before[chunk.meta := buffer + chunk.data] && more == installed
    ensures Delivered(sessions, []) == (sessions, [])
  {
    assert (chunks + [chunk])[..|chunks|] == chunks;
  }

  /** Any delivery - lost, repeated, reordered, interleaved over snapshots and chunk sizes - keeps every
      buffer a prefix and installs nothing but complete snapshots. */
  lemma {:induction false} DeliveryIsSafe(sessions: Sessions, chunks: seq<Chunk>, source: Meta -> string)
    requires AllPrefixes(sessions, source) && forall chunk :: chunk in chunks ==> PieceOf(chunk, source(chunk.meta))
    ensures var (after, installed) := Delivered(sessions, chunks);
            AllPrefixes(after, source)
            && forall item :: item in installed ==> item.1 == source(item.0)
    decreases |chunks|
  {
    hide Received, PieceOf;
    if chunks != [] {
      var front, last := chunks[..|chunks| - 1], chunks[|chunks| - 1];
      assert last in chunks && forall chunk :: chunk in front ==> chunk in chunks;
      DeliveryIsSafe(sessions, front, source);
      PieceKeepsPrefixes(Delivered(sessions, front).0, last, source);
    }
  }

  // In-order upload.

  /** A first chunk that is only buffered leaves the rest of the stream to be received after it. */
  lemma {:induction false} StreamedHead(sessions: Sessions, chunk: Chunk, rest: seq<Chunk>)
    requires Received(sessions, chunk).1 == Buffered
    ensures Streamed(sessions, [chunk] + rest) == Streamed(Received(sessions, chunk).0, rest)
    decreases |rest|
  {
    hide Received;
    if rest == [] {
      assert [chunk] + rest == [chunk] && [chunk][..0] == [];
    } else {
      var all := [chunk] + rest;
      assert all[..|all| - 1] == [chunk] + rest[..|rest| - 1];
      StreamedHead(sessions, chunk, rest[..|rest| - 1]);
    }
  }

  lemma {:induction false} UploadFrom(sessions: Sessions, meta: Meta, data: string, offset: nat, size: nat)
    requires size >= 1 && offset <= |data| && BufferOf(sessions, meta) == data[..offset]
    ensures Streamed(sessions, ChunksFrom(meta, data, offset, size)) == (sessions - {meta}, Some(data), true)
    decreases |data| - offset
  {
    var chunks := ChunksFrom(meta, data, offset, size);
    if offset + size >= |data| {
      assert data[..offset] + data[offset..] == data;
      assert chunks[..0] == [];
    } else {
      var chunk := Chunk(meta, data[offset..offset + size], offset, false);
      var after := sessions[meta := data[..offset + size]];
      assert data[..offset] + data[offset..offset + size] == data[..offset + size];
      StreamedHead(sessions, chunk, ChunksFrom(meta, data, offset + size, size));
      UploadFrom(after, meta, data, offset + size, size);
      assert after - {meta} == sessions - {meta};
    }
  }

  /** An upload from the start installs the snapshot exactly when nothing of it is buffered yet.
      Otherwise its first chunk is refused and nothing changes: after a broken upload every retry fails
      the same way. */
  lemma UploadInstallsExactly(sessions: Sessions, meta: Meta, data: string, size: int)
    ensures Streamed(sessions, ChunksFrom(meta, data, 0, ChunkSize(size))) ==
            if BufferOf(sessions, meta) == "" then (sessions - {meta}, Some(data), true) else (sessions, None, true)
  {
    var chunks := ChunksFrom(meta, data, 0, ChunkSize(size));
    if BufferOf(sessions, meta) == "" {
      assert data[..0] == "";
      UploadFrom(sessions, meta, data, 0, ChunkSize(size));
    } else {
      assert chunks[0].offset == 0 && chunks[0].meta == meta;
      assert chunks[..1][..0] == [];
      assert sessions[meta := sessions[meta]] == sessions;
      assert Streamed(sessions, chunks[..1]) == (sessions, None, true);
      StoppedStays(sessions, chunks, 1);
    }
  }
}
