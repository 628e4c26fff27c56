/** The desktop side (main.py): the registry of live WebSockets keyed by
    client address, the offer step, the chunked sender, the per-connection
    receive loop, and the presence set behind `/record_ip`, `/remove_ip`
    and `/get_ips`. Each `await` is flattened into one sequential step. */
module Server {
  import opened Strings
  import opened Wire

  // ---------------------------------------------------------------------
  // Client-address derivation

  /** `headers.get(name)` with the empty string for a missing header. */
  function Header(headers: map<string, string>, name: string): string
  {
    if name in headers then headers[name] else ""
  }

  /** The `X-Real-IP or X-Forwarded-For.split(",")[0] or client.host` chain:
      the real-IP header when non-empty, otherwise the forwarded-for entry
      before its first comma when non-empty, otherwise the transport host. */
  function ClientAddress(headers: map<string, string>, host: string): (ip: string)
    ensures Header(headers, "X-Real-IP") != "" ==> ip == Header(headers, "X-Real-IP")
    ensures Header(headers, "X-Real-IP") == "" ==>
      var xff := Header(headers, "X-Forwarded-For");
      if xff == [] || xff[0] == ',' then ip == host
      else 0 < |ip| <= |xff| && xff[..|ip|] == ip && ',' !in ip && (|ip| == |xff| || xff[|ip|] == ',')
  {
    var realIp := Header(headers, "X-Real-IP");
    var xff := Header(headers, "X-Forwarded-For");
    FirstFieldPrefix(xff, ',');
    var forwarded := FirstField(xff, ',');
    if realIp != "" then realIp
    else if forwarded != "" then forwarded
    else host
  }

  // ---------------------------------------------------------------------
  // Connections and the registry

  /** A peer's WebSocket as the server sees it. */
  class Socket {
    /** The `filepath` attribute set by `send_personal_message`; absent until then. */
    var filepath: Option<string>
    /** Every frame written to the peer, in order. */
    var outbox: seq<Frame>

    constructor ()
      ensures filepath == None && outbox == []
    {
      filepath := None;
      outbox := [];
    }

    method Send(frame: Frame)
      modifies this
      ensures outbox == old(outbox) + [frame]
      ensures filepath == old(filepath)
    {
      outbox := outbox + [frame];
    }

    /** The read loop of `transfer_file`: read up to `CHUNK_SIZE` bytes,
        stop on an empty read, otherwise send the block as a binary frame. */
    method SendBlocks(data: Bytes)
      modifies this
      ensures outbox == old(outbox) + Binaries(Chunks(data))
      ensures filepath == old(filepath)
    {
      var pos := 0;
      while true
        invariant 0 <= pos <= |data|
        invariant filepath == old(filepath)
        invariant outbox + Binaries(Chunks(data[pos..])) == old(outbox) + Binaries(Chunks(data))
        decreases |data| - pos
      {
        var chunk := data[pos..Min(pos + CHUNK_SIZE, |data|)];
        if chunk == [] {
          break;
        }
        ChunksFrom(data, pos);
        ghost var before := outbox;
        Send(Binary(chunk));
        pos := pos + |chunk|;
        assert outbox + Binaries(Chunks(data[pos..])) == before + ([Binary(chunk)] + Binaries(Chunks(data[pos..])));
      }
      assert data[pos..] == [];
    }
  }

  /** The answer of `/send_file`. */
  datatype Status = RequestSent | DeviceOffline

  class ConnectionManager {
    /** `active_connections`: client address to live WebSocket. */
    var active: map<string, Socket>

    constructor ()
      ensures active == map[]
    {
      active := map[];
    }

    /** The socket registered under `ip`, if any, as a frame. */
    function Registered(ip: string): set<object>
      reads this
    {
      if ip in active then {active[ip]} else {}
    }

    /** `connect`: the socket replaces any earlier entry for the address. */
    method Connect(ws: Socket, ip: string)
      modifies this
      ensures active == old(active)[ip := ws]
    {
      active := active[ip := ws];
    }

    /** `disconnect`: `pop` without a default, so a missing address raises. */
    method Disconnect(ip: string) returns (r: Outcome)
      modifies this
      ensures r == if ip in old(active) then Done else Raised(KeyError)
      ensures active == old(active) - {ip}
    {
      if ip in active {
        active := active - {ip};
        r := Done;
      } else {
        r := Raised(KeyError);
      }
    }

    /** `send_personal_message`: for a registered address, remember the path
        on its socket and write the message to it; otherwise do nothing. */
    method SendPersonalMessage(message: string, ip: string, filepath: string)
      modifies Registered(ip)
      ensures active == old(active)
      ensures ip in active ==> active[ip].filepath == Some(filepath)
      ensures ip in active ==> active[ip].outbox == old(active[ip].outbox) + [Text(message)]
    {
      if ip in active {
        var ws := active[ip];
        ws.filepath := Some(filepath);
        ws.Send(Text(message));
      }
    }

    /** `transfer_file`: metadata, the file in `CHUNK_SIZE` blocks, then the
        completion marker, all on the socket registered for `ip`. */
    method TransferFile(ip: string, fs: FileSystem) returns (r: Outcome)
      modifies Registered(ip)
      ensures active == old(active)
      ensures ip !in active ==> r == Raised(KeyError)
      ensures ip in active ==>
        var sent := TransferFrames(old(active[ip].filepath), fs);
        && r == ToOutcome(sent)
        && active[ip].outbox == old(active[ip].outbox) + Sent(sent)
        && active[ip].filepath == old(active[ip].filepath)
    {
      if ip !in active {
        return Raised(KeyError);
      }
      var ws := active[ip];
      if ws.filepath.None? {
        return Raised(AttributeError);
      }
      var path := ws.filepath.value;
      if path !in fs {
        return Raised(FileNotFoundError);
      }
      var data := fs[path];
      var metadata := Json(FileMetadata(Basename(path), |data|));
      ws.Send(metadata);
      ws.SendBlocks(data);
      ws.Send(Json(TransferComplete));
      assert ws.outbox == old(ws.outbox) + ([metadata] + Binaries(Chunks(data)) + [Json(TransferComplete)]);
      r := Done;
    }

    // -------------------------------------------------------------------
    // The two entry points

    /** `/send_file`: offer `filename` to the device at `ip`, remembering
        `filepath` for a later accept, or report the device offline. */
    method SendFileRequest(ip: string, filename: string, filepath: string, localIp: string)
      returns (status: Status)
      modifies Registered(ip)
      ensures status == if ip in old(active) then RequestSent else DeviceOffline
      ensures active == old(active)
      ensures ip in active ==> active[ip].filepath == Some(filepath)
      ensures ip in active ==> active[ip].outbox == old(active[ip].outbox) + [Text(OfferText(filename, localIp))]
    {
      if ip in active {
        SendPersonalMessage(OfferText(filename, localIp), ip, filepath);
        status := RequestSent;
      } else {
        status := DeviceOffline;
      }
    }

    /** One pass of the receive loop for a text message: parse the decision
        and run the transfer on `accept`. */
    method OnText(ip: string, data: string, fs: FileSystem) returns (r: Outcome)
      modifies Registered(ip)
      ensures active == old(active)
      ensures ip !in active ==> r == if Decide(data) == Ok(true) then Raised(KeyError) else ToOutcome(Decide(data))
      ensures ip in active ==>
        var handled := Handle(data, old(active[ip].filepath), fs);
        && r == ToOutcome(handled)
        && active[ip].outbox == old(active[ip].outbox) + Sent(handled)
        && active[ip].filepath == old(active[ip].filepath)
    {
      var decision := Decide(data);
      if decision.Err? {
        r := Raised(decision.error);
      } else if decision.value {
        r := TransferFile(ip, fs);
      } else {
        r := Done;
      }
    }

    /** `websocket_endpoint`: derive the address, register the socket, then
        run the receive loop on it. */
    method Endpoint(ws: Socket, headers: map<string, string>, host: string, inbox: seq<Inbound>, fs: FileSystem)
      returns (end: SessionEnd)
      modifies this, ws
      ensures var ip := ClientAddress(headers, host);
        active == if end == Disconnected then old(active) - {ip} else old(active)[ip := ws]
      ensures end == Replay(inbox, old(ws.filepath), fs).end
      ensures ws.outbox == old(ws.outbox) + Replay(inbox, old(ws.filepath), fs).frames
      ensures ws.filepath == old(ws.filepath)
    {
      var ip := ClientAddress(headers, host);
      Connect(ws, ip);
      end := Serve(ws, ip, inbox, fs);
    }

    /** The `while True` loop of `websocket_endpoint` for the socket
        registered under `ip`: serve the inbound messages in order until the
        peer goes away (the socket is unregistered), a message raises (the
        loop dies and the entry stays), or the inbox runs out (still waiting). */
    method Serve(ws: Socket, ip: string, inbox: seq<Inbound>, fs: FileSystem) returns (end: SessionEnd)
      requires ip in active && active[ip] == ws
      modifies this, ws
      ensures active == if end == Disconnected then old(active) - {ip} else old(active)
      ensures end == Replay(inbox, old(ws.filepath), fs).end
      ensures ws.outbox == old(ws.outbox) + Replay(inbox, old(ws.filepath), fs).frames
      ensures ws.filepath == old(ws.filepath)
    {
      ghost var fp := ws.filepath;
      var i := 0;
      end := Waiting;
      while i < |inbox| && end == Waiting
        invariant 0 <= i <= |inbox|
        invariant active == if end == Disconnected then old(active) - {ip} else old(active)
        invariant ws.filepath == fp
        invariant ws.outbox == old(ws.outbox) + Replay(inbox[..i], fp, fs).frames
        invariant end == Replay(inbox[..i], fp, fs).end
        decreases |inbox| - i
      {
        ghost var served := Replay(inbox[..i], fp, fs);
        ReplayAppend(inbox[..i], [inbox[i]], fp, fs);
        assert inbox[..i + 1] == inbox[..i] + [inbox[i]];
        end := ServeOne(ws, ip, inbox[i], fs);
        assert ws.outbox == old(ws.outbox) + (served.frames + Replay([inbox[i]], fp, fs).frames);
        i := i + 1;
      }
      if i < |inbox| {
        ReplayAppend(inbox[..i], inbox[i..], fp, fs);
        assert inbox[..i] + inbox[i..] == inbox;
      } else {
        assert inbox[..i] == inbox;
      }
    }

    /** One pass of the receive loop: a close unregisters the address, a
        text is handled, and an exception other than the close ends the loop. */
    method ServeOne(ws: Socket, ip: string, message: Inbound, fs: FileSystem) returns (end: SessionEnd)
      requires ip in active && active[ip] == ws
      modifies this, ws
      ensures active == if end == Disconnected then old(active) - {ip} else old(active)
      ensures end == Replay([message], old(ws.filepath), fs).end
      ensures ws.outbox == old(ws.outbox) + Replay([message], old(ws.filepath), fs).frames
      ensures ws.filepath == old(ws.filepath)
    {
      ReplayOne(message, ws.filepath, fs);
      if message.Closed? {
        var _ := Disconnect(ip);
        end := Disconnected;
      } else {
        var r := OnText(ip, message.text, fs);
        end := if r.Raised? then Crashed(r.error) else Waiting;
      }
    }
  }

  // ---------------------------------------------------------------------
  // The receive loop as a function of its inbox

  /** What `receive_text` delivers: a text, or the peer's close, which
      raises `WebSocketDisconnect`. */
  datatype Inbound = Message(text: string) | Closed

  /** How the loop stops: still waiting, unregistered after the peer left,
      or killed by an exception other than `WebSocketDisconnect`. */
  datatype SessionEnd = Waiting | Disconnected | Crashed(error: Error)

  datatype Session = Session(frames: seq<Frame>, end: SessionEnd)

  /** The frames one inbound text makes the server write, or what it raises. */
  function Handle(data: string, filepath: Option<string>, fs: FileSystem): Result<seq<Frame>>
  {
    match Decide(data)
    case Err(e) => Err(e)
    case Ok(accept) => if accept then TransferFrames(filepath, fs) else Ok([])
  }

  /** Every frame the loop writes for `inbox`, and how it stops. */
  function Replay(inbox: seq<Inbound>, filepath: Option<string>, fs: FileSystem): Session
  {
    if inbox == [] then Session([], Waiting)
    else match inbox[0]
      case Closed => Session([], Disconnected)
      case Message(text) =>
        match Handle(text, filepath, fs)
        case Err(e) => Session([], Crashed(e))
        case Ok(frames) =>
          var rest := Replay(inbox[1..], filepath, fs);
          Session(frames + rest.frames, rest.end)
  }

  /** `Replay` on a single message. */
  lemma ReplayOne(message: Inbound, filepath: Option<string>, fs: FileSystem)
    ensures Replay([message], filepath, fs) ==
      if message.Closed? then Session([], Disconnected)
      else match Handle(message.text, filepath, fs)
        case Err(e) => Session([], Crashed(e))
        case Ok(frames) => Session(frames, Waiting)
  {
  }

  /** The loop serves a second run of messages only if the first left it
      waiting; a close or an exception ends the session for good. */
  lemma {:induction false} ReplayAppend(first: seq<Inbound>, second: seq<Inbound>, filepath: Option<string>, fs: FileSystem)
    ensures var r1 := Replay(first, filepath, fs);
      var r2 := Replay(second, filepath, fs);
      Replay(first + second, filepath, fs) == if r1.end == Waiting then Session(r1.frames + r2.frames, r2.end) else r1
    decreases |first|
  {
    if first == [] {
      assert first + second == second;
    } else {
      assert (first + second)[0] == first[0];
      assert (first + second)[1..] == first[1..] + second;
      ReplayAppend(first[1..], second, filepath, fs);
      if first[0].Message? && Handle(first[0].text, filepath, fs).Ok? {
        var frames := Handle(first[0].text, filepath, fs).value;
        var t1 := Replay(first[1..], filepath, fs);
        var r2 := Replay(second, filepath, fs);
        assert frames + (t1.frames + r2.frames) == (frames + t1.frames) + r2.frames;
      }
    }
  }

  /** A text that does not hold exactly two colons kills the loop with
      `ValueError` before anything is written, whatever follows it. */
  lemma ReplayMalformed(data: string, rest: seq<Inbound>, filepath: Option<string>, fs: FileSystem)
    requires Count(data, ':') != 2
    ensures Replay([Message(data)] + rest, filepath, fs) == Session([], Crashed(ValueError))
  {
    DecideRaises(data);
    assert ([Message(data)] + rest)[0] == Message(data);
  }

  /** A well-formed answer other than an accept writes nothing and leaves
      the loop serving what follows. */
  lemma ReplayDeclined(data: string, rest: seq<Inbound>, filepath: Option<string>, fs: FileSystem)
    requires Decide(data) == Ok(false)
    ensures Replay([Message(data)] + rest, filepath, fs) == Replay(rest, filepath, fs)
  {
  }

  /** An accept on a connection that was never offered a file reads the
      unset `filepath` attribute and kills the loop with `AttributeError`. */
  lemma ReplayAcceptWithoutOffer(data: string, rest: seq<Inbound>, fs: FileSystem)
    requires Decide(data) == Ok(true)
    ensures Replay([Message(data)] + rest, None, fs) == Session([], Crashed(AttributeError))
  {
  }

  /** The path is never cleared, so every accept after one offer sends the
      whole file again. */
  lemma ReplayRepeatedAccept(data: string, path: string, fs: FileSystem)
    requires Decide(data) == Ok(true) && path in fs
    ensures var file := TransferFrames(Some(path), fs).value;
      Replay([Message(data), Message(data)], Some(path), fs) == Session(file + file, Waiting)
  {
    var inbox := [Message(data), Message(data)];
    var file := TransferFrames(Some(path), fs).value;
    assert Handle(data, Some(path), fs) == Ok(file);
    assert [Message(data)][1..] == [];
    assert Replay([Message(data)], Some(path), fs) == Session(file + [], Waiting);
    assert file + [] == file;
    assert inbox[1..] == [Message(data)];
  }

  // ---------------------------------------------------------------------
  // Presence

  /** `config.connected_devices` and the three endpoints that use it. */
  class Presence {
    var connectedDevices: set<string>

    constructor ()
      ensures connectedDevices == {}
    {
      connectedDevices := {};
    }

    /** `/record_ip`: add the caller's address (adding twice changes nothing). */
    method RecordIp(headers: map<string, string>, host: string) returns (ip: string)
      modifies this
      ensures ip == ClientAddress(headers, host)
      ensures connectedDevices == old(connectedDevices) + {ip}
    {
      ip := ClientAddress(headers, host);
      connectedDevices := connectedDevices + {ip};
    }

    /** `/remove_ip`: remove the caller's address if present, else do nothing. */
    method RemoveIp(headers: map<string, string>, host: string)
      modifies this
      ensures connectedDevices == old(connectedDevices) - {ClientAddress(headers, host)}
    {
      var ip := ClientAddress(headers, host);
      if ip in connectedDevices {
        connectedDevices := connectedDevices - {ip};
      }
    }

    /** `/get_ips`: `list(connected_devices)`, each member once, in no set order. */
    method GetIps() returns (devices: seq<string>)
      ensures forall x :: x in devices <==> x in connectedDevices
      ensures forall i, j :: 0 <= i < j < |devices| ==> devices[i] != devices[j]
      ensures |devices| == |connectedDevices|
    {
      devices := [];
      var rest := connectedDevices;
      while rest != {}
        invariant rest <= connectedDevices
        invariant forall x :: x in devices <==> x in connectedDevices && x !in rest
        invariant forall i, j :: 0 <= i < j < |devices| ==> devices[i] != devices[j]
        invariant |devices| + |rest| == |connectedDevices|
        decreases |rest|
      {
        var x :| x in rest;
        devices := devices + [x];
        rest := rest - {x};
      }
    }
  }
}
