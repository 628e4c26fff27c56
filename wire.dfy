/** What travels over a device's WebSocket, and the pure parts of the
    transfer protocol that both ends agree on: the offer text, the decision
    parse, and the framing of a file into metadata, 64 KiB blocks and a
    completion marker. */
module Wire {
  import opened Strings

  newtype byte = x: int | 0 <= x < 256
  type Bytes = seq<byte>

  /** `ConnectionManager.CHUNK_SIZE`: the size of one `file.read`. */
  const CHUNK_SIZE: nat := 1024 * 64

  datatype Option<T> = None | Some(value: T)

  /** The Python exceptions the core raises. */
  datatype Error = KeyError | ValueError | AttributeError | FileNotFoundError

  datatype Result<T> = Ok(value: T) | Err(error: Error)

  /** The end of a call that returns nothing of interest: normally or by an exception. */
  datatype Outcome = Done | Raised(error: Error)

  /** The JSON records exchanged, kept structured. */
  datatype Record =
    | FileMetadata(filename: string, filesize: nat)
    | TransferComplete
    | ClipboardMetadata(text: string)

  /** One WebSocket message: `send_text`, `send_json` or `send_bytes`. */
  datatype Frame = Text(text: string) | Json(record: Record) | Binary(data: Bytes)

  /** The files the server can read, by path. */
  type FileSystem = map<string, Bytes>

  function Min(a: int, b: int): int
  {
    if a <= b then a else b
  }

  /** `(n + d - 1) // d`: the number of `d`-sized pieces that cover `n`. */
  function CeilDiv(n: nat, d: nat): nat
    requires d > 0
  {
    (n + d - 1) / d
  }

  /** The successive results of `file.read(CHUNK_SIZE)` before the first empty one. */
  function Chunks(data: Bytes): seq<Bytes>
    decreases |data|
  {
    if data == [] then []
    else
      var n := Min(CHUNK_SIZE, |data|);
      [data[..n]] + Chunks(data[n..])
  }

  /** The blocks glued together in order. */
  function Concat(blocks: seq<Bytes>): Bytes
  {
    if blocks == [] then [] else blocks[0] + Concat(blocks[1..])
  }

  /** The sum of the block lengths. */
  function TotalLength(blocks: seq<Bytes>): nat
  {
    if blocks == [] then 0 else |blocks[0]| + TotalLength(blocks[1..])
  }

  /** One `send_bytes` frame per block. */
  function Binaries(blocks: seq<Bytes>): seq<Frame>
  {
    if blocks == [] then [] else [Binary(blocks[0])] + Binaries(blocks[1..])
  }

  /** What `transfer_file` writes for the offered path, or the exception it
      raises before writing anything: an unset `filepath` attribute, or a
      path `os.path.getsize` cannot find. */
  function TransferFrames(filepath: Option<string>, fs: FileSystem): Result<seq<Frame>>
  {
    match filepath
    case None => Err(AttributeError)
    case Some(path) =>
      if path !in fs then Err(FileNotFoundError)
      else
        var data := fs[path];
        Ok([Json(FileMetadata(Basename(path), |data|))] + Binaries(Chunks(data)) + [Json(TransferComplete)])
  }

  /** The frames a result leaves on the wire: all of them, or none after an exception. */
  function Sent(r: Result<seq<Frame>>): seq<Frame>
  {
    if r.Ok? then r.value else []
  }

  function ToOutcome<T>(r: Result<T>): Outcome
  {
    if r.Ok? then Done else Raised(r.error)
  }

  /** `f"file_request:{filename}:{get_local_ip()}"`. */
  function OfferText(filename: string, localIp: string): string
  {
    "file_request:" + filename + ":" + localIp
  }

  /** `file_response, _, status = data.split(":")`, then the accept test:
      `Ok(true)` starts a transfer, `Ok(false)` does nothing, and a text
      that does not split into exactly three fields raises `ValueError`. */
  function Decide(data: string): Result<bool>
  {
    var fields := Split(data, ':');
    if |fields| != 3 then Err(ValueError)
    else Ok(fields[0] == "file_response" && fields[2] == "accept")
  }

  // ---------------------------------------------------------------------
  // The decision parse

  /** The unpacking fails exactly when the text does not hold two colons. */
  lemma DecideRaises(data: string)
    ensures Decide(data) == Err(ValueError) <==> Count(data, ':') != 2
    ensures Decide(data).Ok? <==> Count(data, ':') == 2
  {
    SplitCount(data, ':');
  }

  /** A transfer starts exactly for `file_response:<token>:accept` with a colon-free token. */
  lemma DecideAccepts(data: string)
    ensures Decide(data) == Ok(true) <==>
      exists token :: ':' !in token && data == "file_response:" + token + ":accept"
  {
    var fields := Split(data, ':');
    if Decide(data) == Ok(true) {
      SplitFieldsFree(data, ':');
      JoinSplit(data, ':');
      var token := fields[1];
      assert fields[1..] == [token, fields[2]];
      assert [token, fields[2]][1..] == [fields[2]];
      assert Join([token, fields[2]], ':') == token + [':'] + "accept";
      assert Join(fields, ':') == fields[0] + [':'] + Join(fields[1..], ':');
      assert data == "file_response" + [':'] + (token + [':'] + "accept");
      assert data == "file_response:" + token + ":accept";
      assert ':' !in token;
    }
    if exists token :: ':' !in token && data == "file_response:" + token + ":accept" {
      var token :| ':' !in token && data == "file_response:" + token + ":accept";
      assert data == "file_response" + [':'] + token + [':'] + "accept";
      SplitThree("file_response", token, "accept", ':');
    }
  }

  /** Three colon-free fields are decided on their first and last field alone. */
  lemma DecideThree(head: string, token: string, status: string)
    requires ':' !in head && ':' !in token && ':' !in status
    ensures Decide(head + [':'] + token + [':'] + status) == Ok(head == "file_response" && status == "accept")
  {
    SplitThree(head, token, status, ':');
  }

  /** A colon inside the middle field always makes the unpacking fail. */
  lemma DecideColonInside(head: string, token: string, status: string)
    requires ':' in token
    ensures Decide(head + [':'] + token + [':'] + status) == Err(ValueError)
  {
    CountThree(head, token, status, ':');
    CountZero(token, ':');
    DecideRaises(head + [':'] + token + [':'] + status);
  }

  // ---------------------------------------------------------------------
  // The chunked sender

  /** Concatenating the blocks in send order gives the file back. */
  lemma {:induction false} ChunksConcat(data: Bytes)
    ensures Concat(Chunks(data)) == data
    decreases |data|
  {
    if data != [] {
      var n := Min(CHUNK_SIZE, |data|);
      ChunksConcat(data[n..]);
      assert ([data[..n]] + Chunks(data[n..]))[1..] == Chunks(data[n..]);
      assert data[..n] + data[n..] == data;
    }
  }

  /** Every block is non-empty and at most `CHUNK_SIZE` bytes. */
  lemma {:induction false} ChunksBounded(data: Bytes)
    ensures forall i :: 0 <= i < |Chunks(data)| ==> 0 < |Chunks(data)[i]| <= CHUNK_SIZE
    decreases |data|
  {
    if data != [] {
      var n := Min(CHUNK_SIZE, |data|);
      ChunksBounded(data[n..]);
      var cs := Chunks(data);
      assert forall i :: 1 <= i < |cs| ==> cs[i] == Chunks(data[n..])[i - 1];
    }
  }

  /** There are ceil(N / CHUNK_SIZE) blocks, none for an empty file. */
  lemma {:induction false} ChunksCount(data: Bytes)
    ensures |Chunks(data)| == CeilDiv(|data|, CHUNK_SIZE)
    decreases |data|
  {
    if data != [] {
      var n := Min(CHUNK_SIZE, |data|);
      ChunksCount(data[n..]);
      CeilDivStep(|data|);
    }
  }

  /** Taking one block off a non-empty file takes one off the block count. */
  lemma CeilDivStep(n: nat)
    requires n > 0
    ensures CeilDiv(n, CHUNK_SIZE) == 1 + CeilDiv(n - Min(CHUNK_SIZE, n), CHUNK_SIZE)
  {
  }

  /** Reading on from offset `pos` yields the block at `pos`, then the blocks after it. */
  lemma ChunksFrom(data: Bytes, pos: nat)
    requires pos < |data|
    ensures var end := Min(pos + CHUNK_SIZE, |data|);
      Binaries(Chunks(data[pos..])) == [Binary(data[pos..end])] + Binaries(Chunks(data[end..]))
  {
    var end := Min(pos + CHUNK_SIZE, |data|);
    var rest := data[pos..];
    assert rest[..end - pos] == data[pos..end];
    assert rest[end - pos..] == data[end..];
    var blocks := Chunks(rest);
    assert blocks == [data[pos..end]] + Chunks(data[end..]);
    assert blocks[1..] == Chunks(data[end..]);
  }

  /** Every block but the last is full; the last holds what remains. */
  lemma {:induction false} ChunksFull(data: Bytes)
    ensures forall i :: 0 <= i < |Chunks(data)| - 1 ==> |Chunks(data)[i]| == CHUNK_SIZE
    ensures |Chunks(data)| > 0 ==>
      |Chunks(data)[|Chunks(data)| - 1]| == |data| - (|Chunks(data)| - 1) * CHUNK_SIZE
    decreases |data|
  {
    if data != [] {
      var n := Min(CHUNK_SIZE, |data|);
      var rest := Chunks(data[n..]);
      ChunksFull(data[n..]);
      var cs := Chunks(data);
      assert forall i :: 1 <= i < |cs| ==> cs[i] == rest[i - 1];
    }
  }

  /** A 2,000,000-byte file goes out as 30 full blocks and one of 33,920 bytes. */
  lemma TwoMillionBytes(data: Bytes)
    requires |data| == 2000000
    ensures |Chunks(data)| == 31
    ensures forall i :: 0 <= i < 30 ==> |Chunks(data)[i]| == 65536
    ensures |Chunks(data)[30]| == 33920
  {
    ChunksCount(data);
    ChunksFull(data);
  }

  /** Frame `i` of `Binaries(blocks)` carries block `i`. */
  lemma {:induction false} BinariesAt(blocks: seq<Bytes>)
    ensures |Binaries(blocks)| == |blocks|
    ensures forall i :: 0 <= i < |blocks| ==> Binaries(blocks)[i] == Binary(blocks[i])
    decreases |blocks|
  {
    if blocks != [] {
      BinariesAt(blocks[1..]);
    }
  }

  /** The file's bytes, once in blocks, add up to the file's size. */
  lemma {:induction false} ConcatLength(blocks: seq<Bytes>)
    ensures |Concat(blocks)| == TotalLength(blocks)
    decreases |blocks|
  {
    if blocks != [] {
      ConcatLength(blocks[1..]);
    }
  }

  lemma {:induction false} ConcatAppend(blocks: seq<Bytes>, b: Bytes)
    ensures Concat(blocks + [b]) == Concat(blocks) + b
    ensures TotalLength(blocks + [b]) == TotalLength(blocks) + |b|
    decreases |blocks|
  {
    if blocks != [] {
      assert (blocks + [b])[1..] == blocks[1..] + [b];
      ConcatAppend(blocks[1..], b);
    } else {
      assert [b][1..] == [];
    }
  }

  /** What a successful `transfer_file` writes: exactly one metadata frame
      first, naming the basename and the byte length, exactly one completion
      frame last, and in between one binary frame per block, in file order. */
  lemma TransferShape(path: string, fs: FileSystem)
    requires path in fs
    ensures TransferFrames(Some(path), fs).Ok?
    ensures var frames := TransferFrames(Some(path), fs).value;
      var blocks := Chunks(fs[path]);
      && |frames| == |blocks| + 2
      && frames[0] == Json(FileMetadata(Basename(path), |fs[path]|))
      && frames[|frames| - 1] == Json(TransferComplete)
      && (forall i :: 0 <= i < |blocks| ==> frames[i + 1] == Binary(blocks[i]))
  {
    var data := fs[path];
    var blocks := Chunks(data);
    var metadata := Json(FileMetadata(Basename(path), |data|));
    var frames := [metadata] + Binaries(blocks) + [Json(TransferComplete)];
    assert TransferFrames(Some(path), fs) == Ok(frames);
    BinariesAt(blocks);
    forall i | 0 <= i < |blocks|
      ensures frames[i + 1] == Binary(blocks[i])
    {
      assert frames[i + 1] == Binaries(blocks)[i];
    }
  }
}
