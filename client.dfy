/** The receiver page (static/upload.js): how `socket.onmessage` sorts what
    arrives, the offer split, the reply the confirmation dialog sends, and
    the buffering `FileReceiver` that assembles a file from its blocks when
    the File System Access API is not available. */
module Client {
  import opened Strings
  import opened Wire

  /** How `socket.onmessage` sorts a message. */
  datatype Message =
    | Offer(filename: string, sender: Option<string>)
    | Metadata(filename: string, filesize: nat)
    | Complete
    | Clipboard(text: string)
    | Unparsed
    | Chunk(data: Bytes)

  const OFFER_PREFIX: string := "file_request:"

  /** `const [_, filename, sender] = data.split(":")`: fields 1 and 2, the
      second `undefined` when the text has only one colon. Only offers,
      which hold at least one colon, reach it. */
  function ParseOffer(text: string): Message
  {
    var fields := Split(text, ':');
    Offer(if |fields| > 1 then fields[1] else "", if |fields| > 2 then Some(fields[2]) else None)
  }

  /** The branches of `socket.onmessage`: a string starting with
      `file_request:` is an offer; any other string goes through
      `JSON.parse` and is dispatched on its `type`; anything else is a
      binary block. JSON records arrive here as structured `Json` frames,
      so a plain text that is not an offer is left unparsed. */
  function Classify(frame: Frame): (m: Message)
    ensures m.Chunk? <==> frame.Binary?
    ensures m.Offer? <==> frame.Text? && StartsWith(frame.text, OFFER_PREFIX)
  {
    match frame
    case Text(text) => if StartsWith(text, OFFER_PREFIX) then ParseOffer(text) else Unparsed
    case Json(record) =>
      (match record
       case FileMetadata(filename, filesize) => Metadata(filename, filesize)
       case TransferComplete => Complete
       case ClipboardMetadata(text) => Clipboard(text))
    case Binary(data) => Chunk(data)
  }

  /** `${sender}` in a template literal: `undefined` when the offer had no sender field. */
  function SenderText(sender: Option<string>): string
  {
    if sender.Some? then sender.value else "undefined"
  }

  /** What `showFileRequestDialog` sends back. */
  function ReplyText(sender: Option<string>, confirmed: bool): string
  {
    "file_response:" + SenderText(sender) + (if confirmed then ":accept" else ":reject")
  }

  /** The server's decision parse reads back the user's answer exactly when
      the sender text holds no colon; otherwise it raises. */
  lemma ReplyDecided(sender: Option<string>, confirmed: bool)
    ensures Decide(ReplyText(sender, confirmed)) == Ok(confirmed) <==> ':' !in SenderText(sender)
    ensures ':' in SenderText(sender) ==> Decide(ReplyText(sender, confirmed)) == Err(ValueError)
  {
    var token := SenderText(sender);
    var status := if confirmed then "accept" else "reject";
    assert ReplyText(sender, confirmed) == "file_response" + [':'] + token + [':'] + status;
    if ':' !in token {
      DecideThree("file_response", token, status);
    } else {
      DecideColonInside("file_response", token, status);
    }
  }

  // ---------------------------------------------------------------------
  // The receiver

  /** A file the page hands to the browser's download: the anchor's
      `download` name and the Blob's bytes. */
  datatype Download = Download(name: string, bytes: Bytes)

  /** The receiver's fields that matter on the buffering path. */
  datatype Buffer = Buffer(fileName: string, fileSize: int, chunks: seq<Bytes>)

  /** The effect of a run of messages: the receiver's fields afterwards,
      the replies sent on the socket and the files downloaded, in order. */
  datatype Received = Received(buffer: Buffer, replies: seq<string>, downloads: seq<Download>)

  /** One call of `socket.onmessage` on the buffering path; `confirmed` is
      the user's answer to any confirmation dialog. */
  function Step(b: Buffer, frame: Frame, confirmed: bool): Received
  {
    match Classify(frame)
    case Offer(_, sender) => Received(b, [ReplyText(sender, confirmed)], [])
    case Metadata(filename, filesize) => Received(Buffer(filename, filesize, []), [], [])
    case Chunk(data) => Received(b.(chunks := b.chunks + [data]), [], [])
    case Complete => Received(b, [], [Download(b.fileName, Concat(b.chunks))])
    case Clipboard(_) => Received(b, [], [])
    case Unparsed => Received(b, [], [])
  }

  /** A per-message handler run over messages in arrival order, collecting
      its replies and downloads. */
  function Fold(b: Buffer, frames: seq<Frame>, step: (Buffer, Frame) -> Received): Received
    decreases |frames|
  {
    if frames == [] then Received(b, [], [])
    else
      var first := step(b, frames[0]);
      var rest := Fold(first.buffer, frames[1..], step);
      Received(rest.buffer, first.replies + rest.replies, first.downloads + rest.downloads)
  }

  /** `socket.onmessage` with the user's answer fixed. */
  function Handler(confirmed: bool): (Buffer, Frame) -> Received
  {
    (b, frame) => Step(b, frame, confirmed)
  }

  /** `socket.onmessage` over a sequence of messages, in arrival order. */
  function Receive(b: Buffer, frames: seq<Frame>, confirmed: bool): Received
  {
    Fold(b, frames, Handler(confirmed))
  }

  /** `DownloadProgress.totalSize`, the one part of the progress display the receiver reads. */
  class Progress {
    var totalSize: int

    constructor ()
      ensures totalSize == 0
    {
      totalSize := 0;
    }
  }

  class FileReceiver {
    var chunks: seq<Bytes>
    var fileSize: int
    var receivedSize: int
    var fileName: string

    /** The counter always equals the bytes buffered so far. */
    ghost predicate Valid()
      reads this
    {
      receivedSize == TotalLength(chunks)
    }

    function State(): Buffer
      reads this
    {
      Buffer(fileName, fileSize, chunks)
    }

    constructor ()
      ensures Valid()
      ensures chunks == [] && fileSize == 0 && receivedSize == 0 && fileName == ""
    {
      chunks := [];
      fileSize := 0;
      receivedSize := 0;
      fileName := "";
    }

    /** `startTransfer` when the File System Access API is unavailable or
        refused: record the name and size, tell the progress display the
        size, and fall back to buffering. */
    method StartTransfer(filename: string, filesize: nat, progress: Progress) returns (ok: bool)
      modifies this, progress
      ensures Valid()
      ensures ok
      ensures fileName == filename && fileSize == filesize && progress.totalSize == filesize
      ensures chunks == [] && receivedSize == 0
    {
      fileName := filename;
      fileSize := filesize;
      progress.totalSize := fileSize;
      ok := UseFallback();
    }

    /** `useFallback`: start an empty buffer. */
    method UseFallback() returns (ok: bool)
      modifies this
      ensures Valid()
      ensures ok
      ensures chunks == [] && receivedSize == 0
      ensures fileName == old(fileName) && fileSize == old(fileSize)
    {
      chunks := [];
      receivedSize := 0;
      ok := true;
    }

    /** `receiveChunk` on the buffering path: append the block, count its
        bytes, and report progress capped at the declared total. */
    method ReceiveChunk(chunk: Bytes, progress: Progress) returns (reported: int)
      requires Valid()
      modifies this
      ensures Valid()
      ensures chunks == old(chunks) + [chunk]
      ensures receivedSize == old(receivedSize) + |chunk|
      ensures fileName == old(fileName) && fileSize == old(fileSize)
      ensures reported == Min(receivedSize, progress.totalSize)
      ensures reported <= progress.totalSize && reported <= receivedSize
    {
      chunks := chunks + [chunk];
      ConcatAppend(old(chunks), chunk);
      receivedSize := receivedSize + |chunk|;
      reported := Min(receivedSize, progress.totalSize);
    }

    /** `completeTransfer` on the buffering path: the Blob of the buffered
        blocks in arrival order, under the recorded name. The buffer is
        kept. */
    method CompleteTransfer() returns (saved: Download)
      requires Valid()
      ensures saved.name == fileName
      ensures saved.bytes == Concat(chunks)
      ensures |saved.bytes| == receivedSize
    {
      ConcatLength(chunks);
      saved := Download(fileName, Concat(chunks));
    }
  }

  /** `socket.onmessage` for one message. */
  method OnMessage(rx: FileReceiver, progress: Progress, frame: Frame, confirmed: bool)
    returns (reply: Option<string>, saved: Option<Download>)
    requires rx.Valid() && progress.totalSize == rx.fileSize
    modifies rx, progress
    ensures rx.Valid() && progress.totalSize == rx.fileSize
    ensures var step := Step(old(rx.State()), frame, confirmed);
      && rx.State() == step.buffer
      && (if reply.Some? then [reply.value] else []) == step.replies
      && (if saved.Some? then [saved.value] else []) == step.downloads
  {
    reply, saved := None, None;
    match Classify(frame)
    case Offer(_, sender) =>
      reply := Some(ReplyText(sender, confirmed));
    case Metadata(filename, filesize) =>
      var _ := rx.StartTransfer(filename, filesize, progress);
    case Complete =>
      var d := rx.CompleteTransfer();
      saved := Some(d);
    case Clipboard(_) =>
    case Unparsed =>
    case Chunk(data) =>
      var _ := rx.ReceiveChunk(data, progress);
  }

  /** The page's socket delivering `frames` to `onmessage` one at a time. */
  method Deliver(rx: FileReceiver, progress: Progress, frames: seq<Frame>, confirmed: bool)
    returns (replies: seq<string>, downloads: seq<Download>)
    requires rx.Valid() && progress.totalSize == rx.fileSize
    modifies rx, progress
    ensures rx.Valid() && progress.totalSize == rx.fileSize
    ensures var all := Receive(old(rx.State()), frames, confirmed);
      rx.State() == all.buffer && replies == all.replies && downloads == all.downloads
  {
    ghost var start := rx.State();
    ghost var handler := Handler(confirmed);
    replies, downloads := [], [];
    var i := 0;
    while i < |frames|
      invariant 0 <= i <= |frames|
      invariant rx.Valid() && progress.totalSize == rx.fileSize
      invariant Fold(start, frames[..i], handler) == Received(rx.State(), replies, downloads)
    {
      ghost var before, repliesBefore, downloadsBefore := rx.State(), replies, downloads;
      ghost var step := Step(before, frames[i], confirmed);
      var reply, saved := OnMessage(rx, progress, frames[i], confirmed);
      if reply.Some? {
        replies := replies + [reply.value];
      }
      if saved.Some? {
        downloads := downloads + [saved.value];
      }
      assert replies == repliesBefore + step.replies && downloads == downloadsBefore + step.downloads;
      FoldSnoc(start, frames, i, handler);
      assert handler(before, frames[i]) == step;
      i := i + 1;
    }
    assert frames[..i] == frames;
  }

  // ---------------------------------------------------------------------
  // Properties of the receiving fold

  /** Folding over one message is running the handler once. */
  lemma FoldOne(b: Buffer, frame: Frame, step: (Buffer, Frame) -> Received)
    ensures Fold(b, [frame], step) == step(b, frame)
  {
  }

  /** Folding over one more message runs the handler once more, from where
      the shorter fold left the receiver. */
  lemma FoldSnoc(b: Buffer, frames: seq<Frame>, i: nat, step: (Buffer, Frame) -> Received)
    requires i < |frames|
    ensures var r1 := Fold(b, frames[..i], step);
      var last := step(r1.buffer, frames[i]);
      Fold(b, frames[..i + 1], step) == Received(last.buffer, r1.replies + last.replies, r1.downloads + last.downloads)
  {
    assert frames[..i + 1] == frames[..i] + [frames[i]];
    FoldAppend(b, frames[..i], [frames[i]], step);
    FoldOne(Fold(b, frames[..i], step).buffer, frames[i], step);
  }

  /** Receiving one message is one call of `socket.onmessage`. */
  lemma ReceiveOne(b: Buffer, frame: Frame, confirmed: bool)
    ensures Receive(b, [frame], confirmed) == Step(b, frame, confirmed)
  {
    FoldOne(b, frame, Handler(confirmed));
  }

  /** Folding over two runs of messages is folding over the first, then the second. */
  lemma {:induction false} FoldAppend(b: Buffer, first: seq<Frame>, second: seq<Frame>, step: (Buffer, Frame) -> Received)
    ensures var r1 := Fold(b, first, step);
      var r2 := Fold(r1.buffer, second, step);
      Fold(b, first + second, step) == Received(r2.buffer, r1.replies + r2.replies, r1.downloads + r2.downloads)
    decreases |first|
  {
    if first == [] {
      assert first + second == second;
    } else {
      assert (first + second)[0] == first[0];
      assert (first + second)[1..] == first[1..] + second;
      var head := step(b, first[0]);
      FoldAppend(head.buffer, first[1..], second, step);
      var tail1 := Fold(head.buffer, first[1..], step);
      var r2 := Fold(tail1.buffer, second, step);
      assert head.replies + (tail1.replies + r2.replies) == (head.replies + tail1.replies) + r2.replies;
      assert head.downloads + (tail1.downloads + r2.downloads) == (head.downloads + tail1.downloads) + r2.downloads;
    }
  }

  /** Receiving two runs of messages is receiving the first, then the second. */
  lemma ReceiveAppend(b: Buffer, first: seq<Frame>, second: seq<Frame>, confirmed: bool)
    ensures var r1 := Receive(b, first, confirmed);
      var r2 := Receive(r1.buffer, second, confirmed);
      Receive(b, first + second, confirmed)
        == Received(r2.buffer, r1.replies + r2.replies, r1.downloads + r2.downloads)
  {
    FoldAppend(b, first, second, Handler(confirmed));
  }

  /** A run of binary blocks appends them to the buffer, in order, and
      neither replies nor downloads anything. */
  lemma {:induction false} ReceiveBlocks(b: Buffer, blocks: seq<Bytes>, confirmed: bool)
    ensures Receive(b, Binaries(blocks), confirmed) == Received(b.(chunks := b.chunks + blocks), [], [])
    decreases |blocks|
  {
    if blocks == [] {
      assert b.chunks + blocks == b.chunks;
    } else {
      var next := b.(chunks := b.chunks + [blocks[0]]);
      ReceiveBlocks(next, blocks[1..], confirmed);
      assert b.chunks + [blocks[0]] + blocks[1..] == b.chunks + blocks;
    }
  }
}
