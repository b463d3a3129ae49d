// Writing messages into byte buffers and reading them from a connection.
module Wire {
  import opened Common
  import opened MessageSpec

  // binary.BigEndian.PutUint32
  method PutUint32(buf: array<byte>, v: uint32)
    requires buf.Length == 4
    modifies buf
    ensures buf[..] == Word(v)
  {
    buf[0] := v / 0x100_0000;
    buf[1] := v / 0x1_0000 % 0x100;
    buf[2] := v / 0x100 % 0x100;
    buf[3] := v % 0x100;
  }

  method PutWord(v: uint32) returns (ret: bytes)
    ensures ret == Word(v)
  {
    var buf := new byte[4];
    PutUint32(buf, v);
    ret := buf[..];
  }

  method BitFieldBytes(bits: bytes) returns (ret: bytes)
    ensures ret == Word(Wrap32(1 + |bits|)) + ([5] + bits)
  {
    hide Word;
    var len := Wrap32(1 + Wrap32(|bits|));
    ret := PutWord(len);
    ret := ret + [5];
    ret := ret + bits;
  }

  method RequestBytes(id: byte, index: uint32, begin: uint32, length: uint32) returns (ret: bytes)
    ensures ret == Word(13) + ([id] + Word(index) + Word(begin) + Word(length))
  {
    hide Word;
    ret := PutWord(13);
    ret := ret + [id];
    var partIndex := PutWord(index);
    var beginOffset := PutWord(begin);
    var reqLength := PutWord(length);
    ret := ret + partIndex;
    ret := ret + beginOffset;
    ret := ret + reqLength;
  }

  method PieceBytes(index: uint32, begin: uint32, block: bytes) returns (ret: bytes)
    ensures ret == Word(Wrap32(9 + |block|)) + ([7] + Word(index) + Word(begin) + block)
  {
    hide Word;
    var len := Wrap32(9 + Wrap32(|block|));
    ret := PutWord(len);
    ret := ret + [7];
    var partIndex := PutWord(index);
    var beginOffset := PutWord(begin);
    ret := ret + partIndex;
    ret := ret + beginOffset;
    ret := ret + block;
  }

  method HandshakeBytes(infoHash: bytes, peerId: bytes) returns (ret: bytes)
    ensures ret == [|PROTOCOL|] + PROTOCOL + EIGHT_ZEROS + infoHash + peerId
  {
    ret := [19];
    ret := ret + PROTOCOL;
    ret := ret + EIGHT_ZEROS;
    ret := ret + infoHash;
    ret := ret + peerId;
  }

  method GetBytes(m: Message) returns (ret: bytes)
    ensures ret == Encoded(m)
  {
    hide Word;
    ShortFrames();
    match m
    case KeepAlive => ret := [0, 0, 0, 0];
    case Choke => ret := [0, 0, 0, 1, 0];
    case Unchoke => ret := [0, 0, 0, 1, 1];
    case Interested => ret := [0, 0, 0, 1, 2];
    case NotInterested => ret := [0, 0, 0, 1, 3];
    case Have(index) =>
      var word := PutWord(index);
      ret := [0, 0, 0, 5, 4] + word;
      assert ret == Word(5) + ([4] + word);
    case BitField(bits, _) => ret := BitFieldBytes(bits);
    case Request(index, begin, length) => ret := RequestBytes(6, index, begin, length);
    case Piece(index, begin, block) => ret := PieceBytes(index, begin, block);
    case Cancel(index, begin, length) => ret := RequestBytes(8, index, begin, length);
    case Port(port) =>
      var word := PutWord(port);
      ret := [0, 0, 0, 3, 9] + word;
      assert ret == Word(3) + ([9] + word);
    case Handshake(_, infoHash, peerId) => ret := HandshakeBytes(infoHash, peerId);
  }

  lemma {:induction false} ShortFrames()
    ensures Word(0) == [0, 0, 0, 0] && Word(1) == [0, 0, 0, 1] && Word(3) == [0, 0, 0, 3] && Word(5) == [0, 0, 0, 5]
  {
  }

  // A connection delivers the bytes of the stream in whatever portions they
  // arrived in; when there are none left it reports an error.
  class Conn {
    var chunks: seq<bytes>

    constructor (arriving: seq<bytes>)
      ensures chunks == arriving
    {
      chunks := arriving;
    }

    // The bytes that are still to be read.
    function Pending(): bytes
      reads this
    {
      Joined(chunks)
    }

    // At most max bytes, and no more than arrived together.
    method Read(max: nat) returns (n: Option<bytes>)
      requires max > 0
      modifies this
      ensures n.None? <==> old(chunks) == []
      ensures n.None? ==> chunks == [] && Pending() == []
      ensures n.Some? ==> n.value == Take(old(chunks)[0], max) && |n.value| <= max
      ensures n.Some? ==> old(Pending()) == n.value + Pending()
      ensures n.Some? ==> |Pending()| < old(|Pending()|) || |chunks| < old(|chunks|)
    {
      if chunks == [] {
        return None;
      }
      var c := chunks[0];
      if |c| <= max {
        chunks := chunks[1..];
        return Some(c);
      }
      assert c == c[..max] + c[max..];
      chunks := [c[max..]] + chunks[1..];
      assert chunks[1..] == old(chunks[1..]);
      return Some(c[..max]);
    }

    // The loop that fills a buffer of n bytes.
    method ReadFull(n: nat) returns (buf: Option<bytes>)
      modifies this
      ensures old(|Pending()|) >= n ==>
                buf == Some(old(Pending())[..n]) && Pending() == old(Pending())[n..]
      ensures old(|Pending()|) < n ==> buf == None && Pending() == []
    {
      hide Joined, Take;
      ghost var all := Pending();
      var msgBytes: bytes := [];
      var bytesRead := 0;
      assert msgBytes + Pending() == all;
      while bytesRead < n
        invariant bytesRead == |msgBytes| <= n
        invariant msgBytes + Pending() == all
        decreases |Pending()|, |chunks|
      {
        ghost var before := msgBytes;
        var got := Read(n - bytesRead);
        if got.None? {
          assert before + [] == before;
          return None;
        }
        msgBytes := msgBytes + got.value;
        bytesRead := bytesRead + |got.value|;
        assert before + (got.value + Pending()) == msgBytes + Pending();
      }
      assert all[..n] == msgBytes && all[n..] == Pending();
      return Some(msgBytes);
    }

    // readMessage: what it returns and what it leaves depend on the bytes only,
    // not on the portions they arrive in.
    method ReadMessage() returns (r: Outcome)
      modifies this
      ensures (r, Pending()) == ReadFrame(old(Pending()))
    {
      hide ParseMessage, WordValue;
      ghost var all := Pending();
      var msgLenBytes := ReadFull(4);
      if msgLenBytes.None? {
        return Failed;
      }
      var msgLen := WordValue(msgLenBytes.value);
      if msgLen > MAX_MESSAGE_LENGTH {
        return Failed;
      }
      if msgLen == 0 {
        return Got(KeepAlive);
      }
      var msgBytes := ReadFull(msgLen);
      if msgBytes.None? {
        return Failed;
      }
      assert all[4..][..msgLen] == all[4..4 + msgLen] && all[4..][msgLen..] == all[4 + msgLen..];
      return ParseMessage(msgBytes.value);
    }

    // readHandshake: unlike readMessage it reads once, and wants all 68 bytes.
    method ReadHandshake(infoHash: bytes) returns (r: Option<Message>)
      modifies this
      ensures r == HandshakeFrom(old(chunks), infoHash)
    {
      hide ParseHandshake;
      var handshakeBytes := Read(68);
      if handshakeBytes.None? || |handshakeBytes.value| != 68 {
        return None;
      }
      var handshakeMsg := ParseHandshake(handshakeBytes.value);
      if handshakeMsg.None? || !handshakeMsg.value.Handshake? || handshakeMsg.value.infoHash != infoHash {
        return None;
      }
      return handshakeMsg;
    }

    // The inner loop of runIncoming, which goes on after an error.
    method ReadMessages(limit: nat) returns (rs: seq<Outcome>)
      modifies this
      ensures (rs, Pending()) == ReadFrames(old(Pending()), limit)
    {
      hide ReadFrame;
      rs := [];
      ghost var all := Pending();
      assert [] + ReadFrames(all, limit).0 == ReadFrames(all, limit).0;
      for numReads := 0 to limit
        invariant Behind(rs, ReadFrames(Pending(), limit - numReads)) == ReadFrames(all, limit)
      {
        ghost var rest := ReadFrames(ReadFrame(Pending()).1, limit - numReads - 1);
        var r := ReadMessage();
        assert rs + ([r] + rest.0) == rs + [r] + rest.0;
        rs := rs + [r];
      }
      assert rs + [] == rs;
    }
  }

  function HandshakeFrom(chunks: seq<bytes>, infoHash: bytes): Option<Message> {
    if chunks == [] || |chunks[0]| < 68 then None
    else
      var m := ParseHandshake(Take(chunks[0], 68));
      if m.Some? && m.value.Handshake? && m.value.infoHash == infoHash then m else None
  }

  // A peer's handshake is accepted if and only if its bytes arrive together.
  lemma {:induction false} HandshakeNeedsOneRead(infoHash: bytes, peerId: bytes, chunks: seq<bytes>, rest: bytes)
    requires |infoHash| == 20 && |peerId| == 20
    requires Joined(chunks) == Encoded(NewHandshake(infoHash, peerId)) + rest
    ensures HandshakeFrom(chunks, infoHash)
         == if chunks != [] && |chunks[0]| >= 68 then Some(Handshake(EIGHT_ZEROS, infoHash, peerId)) else None
  {
    var sent := Encoded(NewHandshake(infoHash, peerId));
    HandshakeReadsBack(infoHash, peerId);
    assert |sent| == 68;
    if chunks != [] && |chunks[0]| >= 68 {
      assert Joined(chunks)[..68] == chunks[0][..68];
      assert (sent + rest)[..68] == sent;
      assert Take(chunks[0], 68) == chunks[0][..68];
    }
  }

  ghost function Behind(rs: seq<Outcome>, more: (seq<Outcome>, bytes)): (seq<Outcome>, bytes) {
    (rs + more.0, more.1)
  }

  function Joined(chunks: seq<bytes>): bytes {
    if chunks == [] then [] else chunks[0] + Joined(chunks[1..])
  }
}
