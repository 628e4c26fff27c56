# QTransfer: file offers and chunked transfer, modelled in Dafny

QTransfer lets a desktop machine push files to browsers on the same network.
The desktop runs a FastAPI server (`main.py`). Each browser opens
`static/upload.js`, registers its address, and keeps a WebSocket open to
`/ws/connect`.

A transfer runs in five steps:
1. The desktop offers a file with the text `file_request:<name>:<local ip>`.
2. The page asks the user and answers `file_response:<sender>:accept` or `...:reject`.
3. On an accept, the server sends a `file_metadata` JSON record (base name and size).
4. It then sends the file in 64 KiB binary blocks, followed by a `transfer_complete` record.
5. The page buffers the blocks and hands their concatenation to the browser as a download.

The model covers both ends of that protocol:

- `strings.dfy` (module `Strings`) has the text primitives the two sides share:
  - `Split`, which models both Python's `str.split(sep)` and JavaScript's `split(sep)` for a one-character separator;
  - its inverse `Join`;
  - `FirstField`, used for the `X-Forwarded-For` segment;
  - `Basename`, the Windows `os.path.basename`.
- `wire.dfy` (module `Wire`) has what travels on a socket:
  - frames and JSON records, and the Python exceptions;
  - the offer text and the server's three-field decision parse;
  - the split of a file into `CHUNK_SIZE` blocks, and the complete frame sequence of one transfer.
- `server.dfy` (module `Server`) is the desktop side:
  - `Socket`, with its `filepath` attribute and outbox;
  - `ConnectionManager`, whose address-to-socket map `connect` and `disconnect` update in place; `send_personal_message` sets the registered socket's `filepath`, and `transfer_file` writes frames to it;
  - the `/send_file` entry point;
  - the `websocket_endpoint` loop. It is a method over a scripted inbox, proved against the function `Replay`.
  - the `X-Real-IP` / `X-Forwarded-For` / peer-host address chain;
  - the `connected_devices` presence set behind `/record_ip`, `/remove_ip` and `/get_ips`.
- `client.dfy` (module `Client`) is the page:
  - how `socket.onmessage` classifies a message, the offer split, and the reply sent by `showFileRequestDialog`;
  - `FileReceiver` on its buffering path, a class whose `chunks`, `receivedSize`, `fileName` and `fileSize` are updated in place;
  - the `onmessage` loop, proved against the fold `Receive`.
- `protocol.dfy` (module `Protocol`) connects the two sides:
  - the server's offer text as the page parses it;
  - the page's answer as the server parses it;
  - a whole transfer as the page's receiver assembles it.

Each operation is one atomic step: `connect`, `disconnect`, `send_personal_message`, `transfer_file`, and one pass of the receive loop. Frames a socket writes are appended to an outbox sequence. Files are a map from path to bytes. The local IP address, the user's answer to the confirmation dialog and the request headers are parameters.

A 2,000,000-byte file goes out as 30 blocks of 65,536 bytes and a last one of 33,920 bytes (`main.py:31`, `main.py:60`; `Wire.TwoMillionBytes`).

## Model

| member | source | states |
|---|---|---|
| Strings.SplitCount | main.py:88 | A split has exactly one field more than the text has separators, so unpacking into three names needs exactly two colons |
| Strings.SplitFieldsFree | static/upload.js:168 | No field produced by a split contains the separator |
| Strings.JoinSplit | main.py:88 | Gluing the fields of a split back together with the separator gives the original text |
| Strings.SplitJoin | main.py:88 | Separator-free fields joined with the separator split back into exactly those fields |
| Strings.SplitThree | main.py:88 | Three separator-free pieces joined by two separators split into exactly those three pieces |
| Strings.FirstFieldPrefix | main.py:81 | `split(",")[0]` is the longest comma-free prefix of the header: a prefix, comma-free, and ending at the end of the text or at a comma |
| Strings.NameStartBounds | main.py:54 | Scanning back for the last `/` or `\` stops right after one, or at the start of the path, and passes only other characters |
| Strings.BasenameSuffix | main.py:54 | The base name is a suffix of the path that is either the whole path or preceded by a `/` or `\` |
| Strings.BasenameNoSeparator | main.py:54 | The base name holds no `/` or `\` |
| Wire.DecideRaises | main.py:88 | The three-name unpacking raises `ValueError` exactly when the text does not hold exactly two colons, and succeeds otherwise |
| Wire.DecideAccepts | main.py:88-90 | A transfer starts exactly for texts `file_response:<token>:accept` with a colon-free token |
| Wire.DecideThree | main.py:88-89 | Three colon-free fields decide on the first being `file_response` and the last being `accept`; the middle one is ignored |
| Wire.DecideColonInside | main.py:88 | A colon inside the middle field always makes the unpacking raise `ValueError` |
| Wire.ChunksConcat | main.py:58-64 | The blocks read from a file, concatenated in send order, are the file's bytes |
| Wire.ChunksBounded | main.py:58-64 | Every block is non-empty and at most `CHUNK_SIZE` = 65536 bytes |
| Wire.ChunksCount | main.py:58-64 | A file of N bytes gives ceil(N / 65536) blocks, so zero for an empty file |
| Wire.ChunksFull | main.py:58-64 | Every block but the last is exactly 65536 bytes, and the last holds the remainder |
| Wire.TwoMillionBytes | main.py:31 | A 2,000,000-byte file gives 31 blocks: 30 of 65536 bytes, then one of 33920 |
| Wire.ConcatAppend | static/upload.js:132-134 | Appending a block adds it at the end of the concatenation and adds its length to the total |
| Wire.ConcatLength | static/upload.js:144 | The concatenation of the buffered blocks is as long as their lengths summed |
| Wire.TransferShape | main.py:49-71 | A transfer is one `file_metadata` frame with the base name and byte size first, then one binary frame per block in order, then one `transfer_complete` frame last |
| Server.ClientAddress | main.py:79-83 | The address is `X-Real-IP` if non-empty. Otherwise it is the non-empty, comma-free segment of `X-Forwarded-For` before its first comma. Otherwise it is the transport host |
| Server.Socket.SendBlocks | main.py:58-64 | The read loop writes one binary frame per block, in order, after what was already sent, and leaves `filepath` alone |
| Server.ConnectionManager.Connect | main.py:36-38 | The socket is stored under the address, replacing any earlier entry; all other entries are unchanged |
| Server.ConnectionManager.Disconnect | main.py:40-41 | Exactly that address is removed; an absent address raises `KeyError` |
| Server.ConnectionManager.SendPersonalMessage | main.py:43-47 | For a registered address, the socket's `filepath` is set and the message appended to its outbox. Otherwise nothing changes, and no other socket is touched |
| Server.ConnectionManager.TransferFile | main.py:49-71 | An unknown address raises `KeyError`. Otherwise the outcome and the frames written are those of `TransferFrames` on the socket's stored path: nothing is written on `AttributeError` or `FileNotFoundError`. The registry and the path are unchanged |
| Server.ConnectionManager.SendFileRequest | main.py:95-109 | `request_sent` with `filepath` stored and exactly `file_request:<name>:<local ip>` written for a registered address. `device_offline` with nothing changed otherwise |
| Server.ConnectionManager.OnText | main.py:87-90 | One inbound text raises the unpacking's `ValueError`, runs the transfer on an accept, or does nothing |
| Server.ConnectionManager.Endpoint | main.py:77-92 | The derived address is registered. The socket receives exactly the frames `Replay` gives for the inbox, and the entry is removed only when the peer closes |
| Server.ConnectionManager.Serve | main.py:85-92 | The receive loop writes exactly `Replay`'s frames and stops as `Replay` says: unregistered on a close, crashed on any other exception |
| Server.ConnectionManager.ServeOne | main.py:87-92 | One pass of the loop: a close unregisters the address and a text is handled. The frames written and how the loop goes on are `Replay` of that one message |
| Server.ReplayAppend | main.py:85-92 | The loop serves later messages only if earlier ones left it waiting; a close or an exception ends the session |
| Server.ReplayMalformed | main.py:88 | A text without exactly two colons kills the loop with `ValueError`, writes nothing, and ignores everything after it |
| Server.ReplayDeclined | main.py:89 | A well-formed answer that is not an accept writes nothing and the loop goes on |
| Server.ReplayAcceptWithoutOffer | main.py:50-55 | An accept on a socket never offered a file kills the loop with `AttributeError` before writing anything |
| Server.ReplayRepeatedAccept | main.py:86-90 | The stored path is never cleared, so a second accept sends the whole file again |
| Server.Presence.RecordIp | main.py:121-129 | The derived address is added to the presence set, and adding it again changes nothing |
| Server.Presence.RemoveIp | main.py:132-141 | The derived address is removed if present; otherwise the set is unchanged |
| Server.Presence.GetIps | main.py:144-146 | The listed devices are exactly the set's members, each once |
| Client.Classify | static/upload.js:166-183 | A message is a binary chunk exactly when it is not a string, and an offer exactly when it is a string starting with `file_request:` |
| Client.ReplyDecided | static/upload.js:185-191 | The server reads the page's reply back as the user's answer exactly when the sender text holds no colon, and raises `ValueError` otherwise |
| Client.FileReceiver.constructor | static/upload.js:89-94 | A new receiver is empty, with a zero counter and no name |
| Client.FileReceiver.StartTransfer | static/upload.js:96-116 | The metadata's name and size are recorded, the progress total is set to the size, and an empty buffer is started |
| Client.FileReceiver.UseFallback | static/upload.js:122-126 | The buffer is emptied, the counter reset to 0, and the result is true |
| Client.FileReceiver.ReceiveChunk | static/upload.js:128-137 | The block is appended at the end, the counter grows by its length and still equals the buffered total, and the progress reported is min(received, total), bounded by both |
| Client.FileReceiver.CompleteTransfer | static/upload.js:139-152 | The download is the buffered blocks concatenated in arrival order, under the recorded name, and its length equals the counter |
| Client.OnMessage | static/upload.js:166-183 | One `onmessage` call changes the receiver, sends a reply and downloads a file exactly as `Step` says; the counter keeps matching the buffer and the progress total keeps matching the receiver's file size |
| Client.Deliver | static/upload.js:166-183 | Delivering messages in order leaves the receiver, the replies and the downloads exactly as the fold `Receive` gives them, with the progress total equal to the receiver's file size throughout |
| Client.FoldAppend | static/upload.js:166-183 | Handling two runs of messages is handling the first run, then the second from where the first left the receiver |
| Client.ReceiveAppend | static/upload.js:166-183 | `Receive` over two runs of messages is `Receive` over the first, then over the second |
| Client.ReceiveBlocks | static/upload.js:180-182 | A run of binary blocks is appended to the buffer in order, with no reply and no download |
| Protocol.OfferParsed | static/upload.js:168 | The page recovers exactly the name and local IP the server put in `file_request:<name>:<ip>` iff neither holds a colon |
| Protocol.AnyOfferAnswered | static/upload.js:185-191 | For any offer text, the sender field the page keeps is colon-free, so the server decides the page's reply as exactly the user's answer |
| Protocol.FileDelivered | main.py:49-71 | Receiving a transfer's frames leaves the page buffering the file's blocks under its base name and size. It sends no reply and downloads exactly the file's bytes under the base name |
| Protocol.OfferAnswered | main.py:101-107 | One offer end to end: the page answers once and the server keeps waiting. The page downloads the offered file iff the user confirmed |

## Left out

- `ui.py` is not part of this model. It holds Tkinter windows, QR codes and the `requests.post` to `/send_file`.
- `utils.py` is not part of this model. The local IP that `get_local_ip` returns is the parameter `localIp`.
- `upload_file`, the static mount, the tray icon, `stop_server`, `check_windows_version` and the uvicorn/thread start-up are left out. They are I/O plumbing with no protocol logic.
- The `websocket.accept()` handshake in `connect` and the `print(chunk)` console output in `transfer_file` are left out.
- Concurrency is left out. Each operation is one atomic step: `connect`, `disconnect`, `send_personal_message`, `transfer_file`, and one pass of the receive loop; one endpoint loop runs at a time.
- Server.ConnectionManager.TransferFile: the frames are those of `Wire.TransferShape` only because `transfer_file` runs without interleaving. In the server it awaits at every send (`main.py:52`, `main.py:64`, `main.py:67`), and two interleavings are not modelled. (a) A `/send_file` for the same address that runs at the metadata send rebinds `filepath` (`main.py:46`) between the reads for the metadata (`main.py:54-55`) and the `open` (`main.py:58`), so the frames name and size one file but carry the bytes of another, which the page saves under the first name. (b) A `/send_file` that runs at a block send (`main.py:64`) writes its `file_request:` text between the binary blocks.
- Each `socket.onmessage` call on the page is one atomic step. In the browser, `await event.data.arrayBuffer()` (`static/upload.js:181`) yields, so a `transfer_complete` handler, which builds the Blob without waiting (`static/upload.js:176`, `static/upload.js:144`), can run before the last blocks are pushed. `Protocol.FileDelivered` relies on the atomic steps.
- Server.Socket.Send: a send never fails. A peer that closes during `transfer_file` is not modelled; there the blocks would stop and no `transfer_complete` would be sent. Nor is an offer sent to an entry that a crashed loop left registered; there `/send_file` would answer `request_sent` while writing to a dead socket. In the model, `SendFileRequest` appends to the outbox in both cases.
- Two endpoint loops for the same address running interleaved are not modelled. `Serve` requires its socket to be the one registered under the address, which `Endpoint` establishes.
  - In the code, a replaced connection's loop would pop the newer connection's entry when it closes.
  - An accept arriving on it would send the newer connection's offered file.
- Responses are modelled as values, not as JSON bodies:
  - the answers of `/send_file`, `/record_ip` and `/remove_ip` are `Status`, the returned address, or nothing;
  - the `{"status": "success"}` of `transfer_file` is `Done`.
- JSON is not modelled as text. Records travel as structured `Json` frames.
  - A plain string that is not an offer is left unparsed and has no effect. In the page, `JSON.parse` could throw on it, or dispatch on an unknown `type`.
  - `receive_text` receiving a binary frame is not modelled.
- Header names are looked up exactly as written. The case-insensitive lookup of Starlette's headers is not modelled.
- `os.path.basename` splits on `/` and `\` only. A drive prefix without a separator, such as `C:name`, is not modelled.
- The file system is a map from path to bytes. The file cannot change between `os.path.getsize` and the reads, and `open` failing for a path that `getsize` found is not modelled.
- The page's File System Access path (`showSaveFilePicker`, `createWritable`, the `writer` and `fileHandle` fields) is not modelled. The page is modelled on its buffering path only.
- The Blob/URL/anchor download is modelled as a `Download` value holding the name and the bytes.
- Of `DownloadProgress`, only `totalSize` is modelled. Its DOM updates, timing, speed and percentage arithmetic are display-only, and so is `setDownloadTitle`.
- `updateClipboardContent`, the WebRTC address discovery, the uploads, the device list and the page-unload handlers are left out. They are browser UI and network calls.
- The user's answer to `confirm` is the parameter `confirmed`.
- Client.Deliver: the user gives the same answer to every offer in one run of messages, because one `confirmed` value stands for every dialog.
- Client.ParseOffer: with fewer than two fields the name would be `undefined` in the page. The model gives the empty string instead. No offer reaches that branch, since every offer holds a colon.
