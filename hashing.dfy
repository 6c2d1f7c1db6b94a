/** `hash_file`: the contents of a file streamed in 1024-byte reads into an incremental
    hash. The hash algorithm itself is a parameter `digest` (a deterministic total
    function from contents to a hex string); the model keeps the read loop. */
module Hashing {
  import opened Types
  import opened Seqs
  import opened Paths

  /** A hex digest string. */
  type Hex = string

  /** Number of bytes asked for by each `file.read`. */
  const ChunkSize: nat := 1024

  /** The state of an incremental hash object: everything fed to `update` so far. */
  datatype HashState = HashState(absorbed: Bytes)

  /** `hashlib.sha1()`: a fresh hash object. */
  function NewHash(): HashState
  {
    HashState([])
  }

  /** `h.update(chunk)`. */
  function Update(h: HashState, chunk: Bytes): HashState
  {
    HashState(h.absorbed + chunk)
  }

  /** `h.hexdigest()`: the digest of all bytes fed to `h`. */
  function HexDigest(h: HashState, digest: Bytes -> Hex): Hex
  {
    digest(h.absorbed)
  }

  /** `file.read(n)` on a file opened at offset `pos` of `content`: the next bytes, at
      most `n` of them, empty exactly at end of file. */
  function Read(content: Bytes, pos: nat, n: nat): (chunk: Bytes)
    requires pos <= |content|
    ensures |chunk| <= n
    ensures pos + |chunk| <= |content| && chunk == content[pos..pos + |chunk|]
    ensures n > 0 ==> (chunk == [] <==> pos == |content|)
  {
    if |content| - pos <= n then content[pos..] else content[pos..pos + n]
  }

  /** The reads made while hashing `content`: each at most `ChunkSize` bytes, all
      non-empty except the last, which is the empty read at end of file, and together
      exactly the contents. */
  ghost predicate ReadsOf(chunks: seq<Bytes>, content: Bytes)
  {
    && chunks != []
    && Last(chunks) == []
    && (forall i :: 0 <= i < |chunks| - 1 ==> chunks[i] != [])
    && (forall i :: 0 <= i < |chunks| ==> |chunks[i]| <= ChunkSize)
    && Flatten(chunks) == content
  }

  /** `hash_file(filename)` run against the file store `files`. A file that is not in the
      store cannot be opened and aborts; otherwise the result is the digest of the file's
      contents, and `chunks` records the reads the loop made. */
  method HashFile(files: map<Path, Bytes>, filename: Path, digest: Bytes -> Hex)
    returns (r: Result<Hex>, ghost chunks: seq<Bytes>)
    ensures filename !in files ==> r == Unreadable(filename)
    ensures filename in files ==> r == Ok(digest(files[filename]))
    ensures filename in files ==> ReadsOf(chunks, files[filename])
  {
    chunks := [];
    if filename !in files {
      return Unreadable(filename), chunks;
    }
    var content := files[filename];
    var h := NewHash();
    var pos := 0;
    // The script starts `chunk` at a non-bytes sentinel, so the loop runs at least
    // once; `None` plays that sentinel here.
    var chunk: Option<Bytes> := None;
    while chunk != Some([])
      invariant pos <= |content|
      invariant h.absorbed == content[..pos] == Flatten(chunks)
      invariant chunk == None <==> chunks == []
      invariant chunk.Some? ==> Last(chunks) == chunk.value
      invariant forall i :: 0 <= i < |chunks| - 1 ==> chunks[i] != []
      invariant forall i :: 0 <= i < |chunks| ==> |chunks[i]| <= ChunkSize
      invariant chunk == Some([]) ==> pos == |content|
      decreases |content| - pos, if chunk == Some([]) then 0 else 1
    {
      var next := Read(content, pos, ChunkSize);
      FlattenSnoc(chunks, next);
      assert content[..pos + |next|] == content[..pos] + next;
      chunks := chunks + [next];
      chunk := Some(next);
      pos := pos + |next|;
      h := Update(h, next);
    }
    assert content[..pos] == content;
    r := Ok(HexDigest(h, digest));
  }
}
