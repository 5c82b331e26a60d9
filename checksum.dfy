/** The checksum engine: a file is read in chunks of at most 4096 bytes until
    a read returns nothing, and every chunk is fed to an incremental digest.
    The digest algorithm is a parameter (`hashlib.new(hash_algorithm)`); its
    value is a function of the whole byte sequence fed to it. */
module Checksum {
  import opened Common

  /** The size of every read request. */
  const ChunkSize: nat := 4096

  /** The bytes of a sequence of chunks, in order. */
  function Concat(chunks: seq<Bytes>): Bytes
  {
    if chunks == [] then [] else Concat(chunks[..|chunks| - 1]) + chunks[|chunks| - 1]
  }

  function Min(a: nat, b: nat): nat { if a <= b then a else b }

  /** An open file, local or remote. A read may deliver fewer bytes than
      requested: `delivery(pos)` is how many bytes the transport hands over
      for a read starting at offset `pos` (at least one while bytes remain). */
  class Reader {
    const content: Bytes
    const delivery: nat -> nat
    var pos: nat

    ghost predicate Valid()
      reads this
    {
      pos <= |content|
    }

    /** `open(path, 'rb')` / `sftp.open(path, 'rb')`. */
    constructor Open(content: Bytes, delivery: nat -> nat)
      ensures Valid()
      ensures this.content == content && this.delivery == delivery && pos == 0
    {
      this.content := content;
      this.delivery := delivery;
      pos := 0;
    }

    /** `f.read(size)`: the next bytes of the file, at most `size` of them;
        empty only at end of file (or for a request of zero bytes). */
    method Read(size: nat) returns (chunk: Bytes)
      requires Valid()
      modifies this
      ensures Valid()
      ensures old(pos) <= pos && chunk == content[old(pos)..pos]
      ensures |chunk| <= size
      ensures chunk == [] <==> size == 0 || old(pos) == |content|
    {
      var granted := if delivery(pos) == 0 then 1 else delivery(pos);
      var n := Min(Min(size, |content| - pos), granted);
      chunk := content[pos..pos + n];
      pos := pos + n;
    }
  }

  /** The incremental digest object: its state is the input fed so far, and
      the digest is the algorithm applied to all of it. */
  class HashAccumulator {
    const algorithm: Bytes -> Digest
    var fed: Bytes

    constructor New(algorithm: Bytes -> Digest)
      ensures this.algorithm == algorithm && fed == []
    {
      this.algorithm := algorithm;
      fed := [];
    }

    /** `hash_func.update(data)` */
    method Update(data: Bytes)
      modifies this
      ensures fed == old(fed) + data
    {
      fed := fed + data;
    }

    /** `hash_func.hexdigest()` */
    method HexDigest() returns (digest: Digest)
      ensures digest == algorithm(fed)
    {
      digest := algorithm(fed);
    }
  }

  /** `calculate_local_checksum`: reads with the sentinel iteration
      `iter(lambda: f.read(4096), b'')`. Whatever sizes the reads deliver, the
      chunks fed are non-empty, at most 4096 bytes each, and concatenate to
      the whole file, so the digest is that of the content. */
  method CalculateLocalChecksum(content: Bytes, delivery: nat -> nat, algorithm: Bytes -> Digest)
    returns (digest: Digest, ghost chunks: seq<Bytes>)
    ensures digest == algorithm(content)
    ensures Concat(chunks) == content
    ensures forall i :: 0 <= i < |chunks| ==> 0 < |chunks[i]| <= ChunkSize
  {
    var hashFunc := new HashAccumulator.New(algorithm);
    var f := new Reader.Open(content, delivery);
    chunks := [];
    var chunk := f.Read(ChunkSize);
    while chunk != []
      invariant f.Valid() && f.content == content
      invariant hashFunc.algorithm == algorithm
      invariant hashFunc.fed + chunk == content[..f.pos]
      invariant chunk == [] ==> f.pos == |content|
      invariant |chunk| <= ChunkSize
      invariant Concat(chunks) == hashFunc.fed
      invariant forall i :: 0 <= i < |chunks| ==> 0 < |chunks[i]| <= ChunkSize
      decreases |content| - |hashFunc.fed|
    {
      hashFunc.Update(chunk);
      chunks := chunks + [chunk];
      chunk := f.Read(ChunkSize);
    }
    assert content[..f.pos] == content;
    digest := hashFunc.HexDigest();
  }

  /** `calculate_remote_checksum`: the same reading discipline written as
      `while True: data = f.read(4096); if not data: break`. */
  method CalculateRemoteChecksum(content: Bytes, delivery: nat -> nat, algorithm: Bytes -> Digest)
    returns (digest: Digest, ghost chunks: seq<Bytes>)
    ensures digest == algorithm(content)
    ensures Concat(chunks) == content
    ensures forall i :: 0 <= i < |chunks| ==> 0 < |chunks[i]| <= ChunkSize
  {
    var hashFunc := new HashAccumulator.New(algorithm);
    var f := new Reader.Open(content, delivery);
    chunks := [];
    while true
      invariant f.Valid() && f.content == content
      invariant hashFunc.algorithm == algorithm
      invariant hashFunc.fed == content[..f.pos]
      invariant Concat(chunks) == hashFunc.fed
      invariant forall i :: 0 <= i < |chunks| ==> 0 < |chunks[i]| <= ChunkSize
      decreases |content| - f.pos
    {
      var data := f.Read(ChunkSize);
      if data == [] {
        break;
      }
      hashFunc.Update(data);
      chunks := chunks + [data];
    }
    assert content[..f.pos] == content;
    digest := hashFunc.HexDigest();
  }
}
