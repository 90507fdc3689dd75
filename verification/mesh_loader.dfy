/** The scratch-buffer cursor of the binary mesh loader.

    The loader reads positions, normals and indices, one file after another,
    into a single fixed 32768-byte region. A `Buffer` describes the free tail
    of that region, and the loader hands out spans carved from the front of
    that tail. Pointers are abstracted to offsets from the start of the
    region. The count `fread` returns is a parameter bounded by what `fread`
    promises: no more than the free length and no more than the file holds.
 */
module MeshLoader {

  newtype byte = x: int | 0 <= x < 256

  /** Size of the scratch region every file of one mesh is read into. */
  const BUFSIZE: nat := 32768

  /** Size in bytes of one index (a 16-bit unsigned integer). */
  const INDEX_SIZE: nat := 2

  /** `struct buffer`: the bytes [data, data + len) of the region. The same
      record describes the free tail and every span handed out. */
  datatype Buffer = Buffer(data: nat, len: nat)

  function End(b: Buffer): nat
  {
    b.data + b.len
  }

  predicate InRegion(b: Buffer)
  {
    End(b) <= BUFSIZE
  }

  /** Two spans share no byte. */
  predicate Disjoint(a: Buffer, b: Buffer)
  {
    End(a) <= b.data || End(b) <= a.data
  }

  /** The bytes of the region a span covers. */
  function Contents(region: seq<byte>, b: Buffer): seq<byte>
    requires |region| == BUFSIZE && InRegion(b)
  {
    region[b.data .. End(b)]
  }

  /** `after` differs from `before` at most inside the span `w`. */
  ghost predicate SameOutside(before: seq<byte>, after: seq<byte>, w: Buffer)
    requires |before| == BUFSIZE && |after| == BUFSIZE
  {
    forall k :: 0 <= k < BUFSIZE && !(w.data <= k < End(w)) ==> after[k] == before[k]
  }

  /** The result of one `load_file`: the span handed out, the free tail that
      remains, and the region with the file's bytes written into the span. */
  datatype Loaded = Loaded(span: Buffer, rest: Buffer, region: seq<byte>)

  /** `load_file`: `fread` has copied the first `readLen` bytes of the file to
      the cursor; the span starts at the old cursor and has that length, and
      the cursor advances past it while the free length shrinks by it. */
  function LoadFile(region: seq<byte>, buf: Buffer, file: seq<byte>, readLen: nat): (r: Loaded)
    requires |region| == BUFSIZE && InRegion(buf)
    requires readLen <= buf.len && readLen <= |file|
    ensures |r.region| == BUFSIZE && InRegion(r.span) && InRegion(r.rest)
    ensures r.span.data == buf.data && r.span.len == readLen
    ensures r.rest.data == End(r.span) && End(r.rest) == End(buf)
    ensures r.span.len + r.rest.len == buf.len
    ensures Disjoint(r.span, r.rest)
    ensures Contents(r.region, r.span) == file[..readLen]
    ensures SameOutside(region, r.region, r.span)
  {
    var span := Buffer(buf.data, readLen);
    var rest := Buffer(buf.data + readLen, buf.len - readLen);
    Loaded(span, rest, region[..buf.data] + file[..readLen] + region[buf.data + readLen ..])
  }

  /** What `fread` returns for a file read without error: the whole file when
      it fits in the free length, otherwise exactly the free length. */
  function ReadCount(fileSize: nat, avail: nat): (n: nat)
    ensures n <= avail && n <= fileSize
    ensures n == fileSize || n == avail
    ensures n < fileSize <==> avail < fileSize
  {
    if fileSize <= avail then fileSize else avail
  }

  /** A span that a later load does not write keeps its bytes. */
  lemma UntouchedSpan(before: seq<byte>, after: seq<byte>, s: Buffer, w: Buffer)
    requires |before| == BUFSIZE && |after| == BUFSIZE && InRegion(s) && InRegion(w)
    requires Disjoint(s, w) && SameOutside(before, after, w)
    ensures Contents(after, s) == Contents(before, s)
  {
    forall k | 0 <= k < s.len
      ensures Contents(after, s)[k] == Contents(before, s)[k]
    {
      assert after[s.data + k] == before[s.data + k];
    }
  }

  /** The spans `load_model` hands out: positions, normals and indices, and
      the number of indices drawn. */
  datatype Model = Model(positions: Buffer, normals: Buffer, indices: Buffer, numIndices: nat)

  /** `load_model` for whatever counts `fread` returns: `r1`, `r2` and `r3`
      are the bytes read from the positions, normals and indices files, each
      within the free length left at its call and within its file. A short
      read is kept as it is and the next load starts at the shorter cursor. */
  method LoadModelCounts(region0: seq<byte>, positionsFile: seq<byte>, normalsFile: seq<byte>, indicesFile: seq<byte>,
                         r1: nat, r2: nat, r3: nat)
    returns (model: Model, region: seq<byte>, buf: Buffer)
    requires |region0| == BUFSIZE
    requires r1 <= BUFSIZE && r1 <= |positionsFile|
    requires r2 <= BUFSIZE - r1 && r2 <= |normalsFile|
    requires r3 <= BUFSIZE - r1 - r2 && r3 <= |indicesFile|
    ensures |region| == BUFSIZE
    ensures InRegion(model.positions) && InRegion(model.normals) && InRegion(model.indices) && InRegion(buf)
    ensures model.positions == Buffer(0, r1)
    ensures model.normals == Buffer(End(model.positions), r2)
    ensures model.indices == Buffer(End(model.normals), r3)
    ensures buf.data == End(model.indices)
    ensures model.positions.len + model.normals.len + model.indices.len + buf.len == BUFSIZE
    ensures Disjoint(model.positions, model.normals)
    ensures Disjoint(model.positions, model.indices)
    ensures Disjoint(model.normals, model.indices)
    ensures Contents(region, model.positions) == positionsFile[..r1]
    ensures Contents(region, model.normals) == normalsFile[..r2]
    ensures Contents(region, model.indices) == indicesFile[..r3]
    ensures model.numIndices == r3 / INDEX_SIZE
  {
    var start := Buffer(0, BUFSIZE);
    var p := LoadFile(region0, start, positionsFile, r1);
    var n := LoadFile(p.region, p.rest, normalsFile, r2);
    var i := LoadFile(n.region, n.rest, indicesFile, r3);
    UntouchedSpan(p.region, n.region, p.span, n.span);
    UntouchedSpan(n.region, i.region, p.span, i.span);
    UntouchedSpan(n.region, i.region, n.span, i.span);
    model := Model(p.span, n.span, i.span, i.span.len / INDEX_SIZE);
    region := i.region;
    buf := i.rest;
  }

  /** `load_model` when every file is a regular file read without error, so
      `fread` returns the whole file when it fits and otherwise fills the
      free length. On top of the layout of `LoadModelCounts`, each file is
      loaded whole when the three fit together, and a short read leaves no
      free space. */
  method LoadModel(region0: seq<byte>, positionsFile: seq<byte>, normalsFile: seq<byte>, indicesFile: seq<byte>)
    returns (model: Model, region: seq<byte>, buf: Buffer)
    requires |region0| == BUFSIZE
    ensures |region| == BUFSIZE
    ensures InRegion(model.positions) && InRegion(model.normals) && InRegion(model.indices) && InRegion(buf)
    ensures model.positions.data == 0
    ensures model.normals.data == End(model.positions)
    ensures model.indices.data == End(model.normals)
    ensures buf.data == End(model.indices)
    ensures model.positions.len + model.normals.len + model.indices.len + buf.len == BUFSIZE
    ensures Disjoint(model.positions, model.normals)
    ensures Disjoint(model.positions, model.indices)
    ensures Disjoint(model.normals, model.indices)
    ensures model.positions.len == ReadCount(|positionsFile|, BUFSIZE)
    ensures model.normals.len == ReadCount(|normalsFile|, BUFSIZE - model.positions.len)
    ensures model.indices.len == ReadCount(|indicesFile|, BUFSIZE - model.positions.len - model.normals.len)
    ensures Contents(region, model.positions) == positionsFile[..model.positions.len]
    ensures Contents(region, model.normals) == normalsFile[..model.normals.len]
    ensures Contents(region, model.indices) == indicesFile[..model.indices.len]
    ensures model.numIndices == model.indices.len / INDEX_SIZE
    ensures |positionsFile| + |normalsFile| + |indicesFile| <= BUFSIZE ==>
              && Contents(region, model.positions) == positionsFile
              && Contents(region, model.normals) == normalsFile
              && Contents(region, model.indices) == indicesFile
              && model.numIndices == |indicesFile| / INDEX_SIZE
    ensures (model.positions.len < |positionsFile| || model.normals.len < |normalsFile|
             || model.indices.len < |indicesFile|) ==> buf.len == 0
  {
    var r1 := ReadCount(|positionsFile|, BUFSIZE);
    var r2 := ReadCount(|normalsFile|, BUFSIZE - r1);
    var r3 := ReadCount(|indicesFile|, BUFSIZE - r1 - r2);
    model, region, buf := LoadModelCounts(region0, positionsFile, normalsFile, indicesFile, r1, r2, r3);
  }
}
