/** The two ends together: the offer the server writes as the page parses
    it, the page's answer as the server parses it, and a whole transfer as
    the page's buffering receiver assembles it. */
module Protocol {
  import opened Strings
  import opened Wire
  import Server
  import Client

  /** The page recovers the file name and the server address from an offer
      exactly when neither of them contains a colon. */
  lemma OfferParsed(filename: string, localIp: string)
    ensures Client.Classify(Text(OfferText(filename, localIp))) == Client.Offer(filename, Some(localIp))
      <==> ':' !in filename && ':' !in localIp
  {
    var text := OfferText(filename, localIp);
    assert text == "file_request" + [':'] + filename + [':'] + localIp;
    assert text[..|Client.OFFER_PREFIX|] == Client.OFFER_PREFIX;
    if ':' !in filename && ':' !in localIp {
      SplitThree("file_request", filename, localIp, ':');
    } else {
      SplitFieldsFree(text, ':');
    }
  }

  /** Whatever offer text arrives, the sender field the page keeps holds no
      colon, so the server reads the page's answer back as exactly the
      user's choice. */
  lemma AnyOfferAnswered(text: string, confirmed: bool)
    requires StartsWith(text, Client.OFFER_PREFIX)
    ensures var m := Client.Classify(Text(text));
      m.Offer? && Decide(Client.ReplyText(m.sender, confirmed)) == Ok(confirmed)
  {
    var m := Client.Classify(Text(text));
    SplitFieldsFree(text, ':');
    assert ':' !in "undefined";
    assert ':' !in Client.SenderText(m.sender);
    Client.ReplyDecided(m.sender, confirmed);
  }

  /** Whatever the receiver held before, the frames of a transfer leave it
      buffering the file's blocks under the file's base name and size, send
      no reply, and download exactly the file's bytes under that name. */
  lemma FileDelivered(b: Client.Buffer, path: string, fs: FileSystem, confirmed: bool)
    requires path in fs
    ensures TransferFrames(Some(path), fs).Ok?
    ensures var data := fs[path];
      Client.Receive(b, TransferFrames(Some(path), fs).value, confirmed)
        == Client.Received(
             Client.Buffer(Basename(path), |data|, Chunks(data)),
             [],
             [Client.Download(Basename(path), data)])
  {
    var data := fs[path];
    var name := Basename(path);
    var blocks := Chunks(data);
    var metadata := Json(FileMetadata(name, |data|));
    var complete := Json(TransferComplete);
    var started := Client.Buffer(name, |data|, []);
    var filled := Client.Buffer(name, |data|, blocks);

    Client.ReceiveAppend(b, [metadata] + Binaries(blocks), [complete], confirmed);
    Client.ReceiveAppend(b, [metadata], Binaries(blocks), confirmed);
    Client.ReceiveOne(b, metadata, confirmed);
    assert Client.Receive(b, [metadata], confirmed) == Client.Received(started, [], []);
    Client.ReceiveBlocks(started, blocks, confirmed);
    assert started.(chunks := started.chunks + blocks) == filled;
    Client.ReceiveOne(filled, complete, confirmed);
    ChunksConcat(data);
    assert Client.Receive(filled, [complete], confirmed) == Client.Received(filled, [], [Client.Download(name, data)]);
  }

  /** One offer end to end: the page answers it once, the server's loop
      takes the answer without raising and keeps waiting, and the page then
      downloads the offered file if and only if the user confirmed. */
  lemma OfferAnswered(b: Client.Buffer, filename: string, localIp: string, path: string, fs: FileSystem, confirmed: bool)
    requires path in fs
    ensures var offered := Client.Receive(b, [Text(OfferText(filename, localIp))], confirmed);
      && |offered.replies| == 1
      && offered.downloads == []
      && var served := Server.Replay([Server.Message(offered.replies[0])], Some(path), fs);
      && served.end == Server.Waiting
      && Client.Receive(offered.buffer, served.frames, confirmed).downloads
           == if confirmed then [Client.Download(Basename(path), fs[path])] else []
  {
    var text := OfferText(filename, localIp);
    assert text[..|Client.OFFER_PREFIX|] == Client.OFFER_PREFIX;
    AnyOfferAnswered(text, confirmed);
    var m := Client.Classify(Text(text));
    var reply := Client.ReplyText(m.sender, confirmed);
    Client.ReceiveOne(b, Text(text), confirmed);
    var offered := Client.Receive(b, [Text(text)], confirmed);
    assert offered == Client.Received(b, [reply], []);
    var file := TransferFrames(Some(path), fs).value;
    var sent := if confirmed then file else [];
    assert Server.Handle(reply, Some(path), fs) == Ok(sent);
    Server.ReplayOne(Server.Message(reply), Some(path), fs);
    assert [Server.Message(reply)][1..] == [];
    assert sent + [] == sent;
    var served := Server.Replay([Server.Message(reply)], Some(path), fs);
    assert served == Server.Session(sent, Server.Waiting);
    if confirmed {
      FileDelivered(b, path, fs, confirmed);
    } else {
      assert Client.Receive(b, [], confirmed).downloads == [];
    }
  }
}
