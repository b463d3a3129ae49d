// Messages of the peer wire protocol: the bytes of each, and what reading a
// stream of bytes makes of them.
module MessageSpec {
  import opened Common
  import opened PieceSpec
  import opened Requests

  type uint32 = x: int | 0 <= x < 0x1_0000_0000

  const MAX_MESSAGE_LENGTH: nat := 17 * 1024

  datatype Message =
    | KeepAlive
    | Choke
    | Unchoke
    | Interested
    | NotInterested
    | Have(index: uint32)
    | BitField(bits: bytes, count: uint32)
    | Request(index: uint32, begin: uint32, length: uint32)
    | Piece(index: uint32, begin: uint32, block: bytes)
    | Cancel(index: uint32, begin: uint32, length: uint32)
    | Port(port: uint32)
    | Handshake(reserved: bytes, infoHash: bytes, peerId: bytes)

  // The conversion uint32(x).
  function Wrap32(x: int): uint32 {
    x % 0x1_0000_0000
  }

  function NewBitfield(bits: bytes): Message {
    BitField(bits, Wrap32(|bits|))
  }

  function NewRequest(info: BlockInfo): Message {
    Request(Wrap32(info.piece), Wrap32(info.begin), Wrap32(info.length))
  }

  function NewCancel(info: BlockInfo): Message {
    Cancel(Wrap32(info.piece), Wrap32(info.begin), Wrap32(info.length))
  }

  function NewHandshake(infoHash: bytes, peerId: bytes): Message {
    Handshake([], infoHash, peerId)
  }

  // What the constructors produce.
  predicate Built(m: Message) {
    (m.BitField? ==> m == NewBitfield(m.bits)) && (m.Handshake? ==> m.reserved == [])
  }

  // ----- bytes of a message -----

  // Big-endian.
  function Word(v: uint32): (r: bytes)
    ensures |r| == 4
  {
    [v / 0x100_0000, v / 0x1_0000 % 0x100, v / 0x100 % 0x100, v % 0x100]
  }

  function WordValue(s: bytes): uint32
    requires |s| == 4
  {
    var a: int, b: int, c: int, d: int := s[0], s[1], s[2], s[3];
    a * 0x100_0000 + b * 0x1_0000 + c * 0x100 + d
  }

  lemma {:induction false} WordRoundTrip(v: uint32)
    ensures WordValue(Word(v)) == v
  {
    assert v / 0x100 == v / 0x1_0000 * 0x100 + v / 0x100 % 0x100;
    assert v / 0x1_0000 == v / 0x100_0000 * 0x100 + v / 0x1_0000 % 0x100;
  }

  // "BitTorrent protocol"
  const PROTOCOL: bytes := [66, 105, 116, 84, 111, 114, 114, 101, 110, 116, 32, 112, 114, 111, 116, 111, 99, 111, 108]

  const EIGHT_ZEROS: bytes := [0, 0, 0, 0, 0, 0, 0, 0]

  // What stands behind the length of a frame.
  function Payload(m: Message): bytes
    requires !m.Handshake?
  {
    match m
    case KeepAlive => []
    case Choke => [0]
    case Unchoke => [1]
    case Interested => [2]
    case NotInterested => [3]
    case Have(index) => [4] + Word(index)
    case BitField(bits, _) => [5] + bits
    case Request(index, begin, length) => [6] + Word(index) + Word(begin) + Word(length)
    case Piece(index, begin, block) => [7] + Word(index) + Word(begin) + block
    case Cancel(index, begin, length) => [8] + Word(index) + Word(begin) + Word(length)
    case Port(port) => [9] + Word(port)
  }

  // A port message says it has three bytes, and has five.
  function LengthField(m: Message): uint32
    requires !m.Handshake?
  {
    if m.Port? then 3 else Wrap32(|Payload(m)|)
  }

  function Encoded(m: Message): bytes {
    if m.Handshake? then [|PROTOCOL|] + PROTOCOL + EIGHT_ZEROS + m.infoHash + m.peerId
    else Word(LengthField(m)) + Payload(m)
  }

  // ----- parsing -----

  datatype Outcome = Got(message: Message) | Failed | Panicked

  // A slice that is too short to hold the fields makes the parser panic.
  function ParseMessage(s: bytes): Outcome {
    if |s| > MAX_MESSAGE_LENGTH then Failed
    else if |s| == 0 then Got(KeepAlive)
    else if s[0] == 0 then Got(Choke)
    else if s[0] == 1 then Got(Unchoke)
    else if s[0] == 2 then Got(Interested)
    else if s[0] == 3 then Got(NotInterested)
    else if s[0] == 4 then
      if |s| < 5 then Panicked else Got(Have(WordValue(s[1..5])))
    else if s[0] == 5 then Got(BitField(s[1..], Wrap32(|s| - 1)))
    else if s[0] == 6 || s[0] == 8 then
      if |s| < 13 then Panicked
      else
        var index, begin, length := WordValue(s[1..5]), WordValue(s[5..9]), WordValue(s[9..13]);
        Got(if s[0] == 6 then Request(index, begin, length) else Cancel(index, begin, length))
    else if s[0] == 7 then
      if |s| < 9 then Panicked else Got(Piece(WordValue(s[1..5]), WordValue(s[5..9]), s[9..]))
    else if s[0] == 9 then
      if |s| < 9 then Panicked else Got(Port(WordValue(s[5..9])))
    else Failed
  }

  function ParseHandshake(s: bytes): Option<Message> {
    if |s| != 68 || s[0] != 19 || s[1..20] != PROTOCOL then None
    else Some(Handshake(s[20..28], s[28..48], s[48..68]))
  }

  // Reading one message from the bytes of a stream, and the bytes left behind.
  // A stream that ends inside a frame is a failure that has used up its bytes.
  function ReadFrame(s: bytes): (Outcome, bytes) {
    if |s| < 4 then (Failed, [])
    else
      var n := WordValue(s[..4]);
      if n > MAX_MESSAGE_LENGTH then (Failed, s[4..])
      else if n == 0 then (Got(KeepAlive), s[4..])
      else if |s| < 4 + n then (Failed, [])
      else (ParseMessage(s[4..4 + n]), s[4 + n..])
  }

  function ReadFrames(s: bytes, k: nat): (seq<Outcome>, bytes)
    decreases k
  {
    if k == 0 then ([], s)
    else
      var first := ReadFrame(s);
      var more := ReadFrames(first.1, k - 1);
      ([first.0] + more.0, more.1)
  }

  function EncodedAll(ms: seq<Message>): bytes {
    if ms == [] then [] else Encoded(ms[0]) + EncodedAll(ms[1..])
  }

  function GotAll(ms: seq<Message>): seq<Outcome> {
    if ms == [] then [] else [Got(ms[0])] + GotAll(ms[1..])
  }

  // ----- round trips -----

  predicate Survives(m: Message) {
    !m.Handshake? && !m.Port? && |Payload(m)| <= MAX_MESSAGE_LENGTH
  }

  lemma {:induction false} WordsIn(a: bytes, v: uint32, b: bytes)
    ensures |a + Word(v) + b| == |a| + 4 + |b| && WordValue((a + Word(v) + b)[|a|..|a| + 4]) == v
    ensures (a + Word(v) + b)[|a| + 4..] == b
  {
    var s := a + Word(v) + b;
    assert s[|a|..|a| + 4] == Word(v);
    WordRoundTrip(v);
  }

  lemma {:induction false} TwoWords(t: byte, u: uint32, v: uint32, b: bytes)
    ensures var s := [t] + Word(u) + Word(v) + b;
            |s| == 9 + |b| && s[0] == t && WordValue(s[1..5]) == u && WordValue(s[5..9]) == v && s[9..] == b
  {
    var s := [t] + Word(u) + Word(v) + b;
    WordsIn([t], u, Word(v) + b);
    assert s == [t] + Word(u) + (Word(v) + b);
    WordsIn([t] + Word(u), v, b);
  }

  lemma {:induction false} ParsePayload(m: Message)
    requires Built(m) && Survives(m)
    ensures ParseMessage(Payload(m)) == Got(m)
  {
    match m {
      case Have(index) =>
        WordsIn([4], index, []);
        assert Payload(m) == [4] + Word(index) + [];
      case BitField(bits, _) => assert Payload(m)[1..] == bits;
      case Request(index, begin, length) =>
        TwoWords(6, index, begin, Word(length));
        assert Payload(m)[9..13] == Payload(m)[9..];
        WordRoundTrip(length);
      case Cancel(index, begin, length) =>
        TwoWords(8, index, begin, Word(length));
        assert Payload(m)[9..13] == Payload(m)[9..];
        WordRoundTrip(length);
      case Piece(index, begin, block) => TwoWords(7, index, begin, block);
      case _ =>
    }
  }

  lemma {:induction false} FrameIs(n: uint32, tail: bytes)
    ensures ReadFrame(Word(n) + tail)
         == if n > MAX_MESSAGE_LENGTH then (Failed, tail)
            else if n == 0 then (Got(KeepAlive), tail)
            else if |tail| < n then (Failed, [])
            else (ParseMessage(tail[..n]), tail[n..])
  {
    hide Word, WordValue, ParseMessage;
    var s := Word(n) + tail;
    WordRoundTrip(n);
    assert s[..4] == Word(n) && s[4..] == tail;
    if n <= |tail| {
      assert s[4..4 + n] == tail[..n] && s[4 + n..] == tail[n..];
    }
  }

  lemma {:induction false} EncodedIs(m: Message)
    requires Survives(m)
    ensures |Payload(m)| < 0x1_0000_0000 && Encoded(m) == Word(|Payload(m)|) + Payload(m)
  {
    hide Payload, Word;
  }

  lemma {:induction false} SurvivorReadsBack(m: Message, rest: bytes)
    requires Built(m) && Survives(m)
    ensures ReadFrame(Encoded(m) + rest) == (Got(m), rest)
  {
    EncodedIs(m);
    ParsePayload(m);
    SurvivorFits(m);
    hide *;
    var p := Payload(m);
    FrameIs(|p|, p + rest);
    assert Word(|p|) + p + rest == Word(|p|) + (p + rest);
    assert (p + rest)[..|p|] == p && (p + rest)[|p|..] == rest;
    if |p| == 0 {
      EmptyParses(p);
    }
  }

  lemma {:induction false} SurvivorFits(m: Message)
    requires Survives(m)
    ensures !m.Handshake? && |Payload(m)| <= MAX_MESSAGE_LENGTH
  {
    hide Payload;
  }

  lemma {:induction false} EmptyParses(p: bytes)
    requires p == []
    ensures ParseMessage(p) == Got(KeepAlive)
  {
  }

  // The lengths that do not fit are those of bit fields and pieces; what is read
  // instead, if anything, is shorter.
  lemma {:induction false} OversizedIsLost(m: Message, rest: bytes)
    requires Built(m) && !m.Handshake? && !m.Port? && |Payload(m)| > MAX_MESSAGE_LENGTH
    ensures ReadFrame(Encoded(m) + rest).0 != Got(m)
  {
    var p, n := Payload(m), LengthField(m);
    assert Encoded(m) == Word(n) + p;
    NotKeepAlive(m);
    hide *;
    FrameIs(n, p + rest);
    assert Word(n) + p + rest == Word(n) + (p + rest);
    if 0 < n <= MAX_MESSAGE_LENGTH {
      assert (p + rest)[..n] == p[..n];
      ShorterIsAnother(m, n);
    }
  }

  lemma {:induction false} NotKeepAlive(m: Message)
    requires !m.Handshake? && |Payload(m)| > MAX_MESSAGE_LENGTH
    ensures m.BitField? || m.Piece?
  {
  }

  lemma {:induction false} ShorterIsAnother(m: Message, n: nat)
    requires !m.Handshake? && !m.Port? && n <= MAX_MESSAGE_LENGTH < |Payload(m)|
    ensures ParseMessage(Payload(m)[..n]) != Got(m)
  {
    NotKeepAlive(m);
    hide Word, WordValue;
  }

  // A port message never survives: it makes the receiving side panic.
  lemma {:induction false} PortPanics(port: uint32, rest: bytes)
    ensures ReadFrame(Encoded(Port(port)) + rest).0 == Panicked
  {
    var s := Encoded(Port(port)) + rest;
    WordsIn([], 3, Payload(Port(port)) + rest);
    assert s == [] + Word(3) + (Payload(Port(port)) + rest);
    assert s[4] == 9;
  }

  lemma {:induction false} HandshakeIsNoFrame(m: Message, rest: bytes)
    requires m.Handshake?
    ensures ReadFrame(Encoded(m) + rest).0 == Failed
  {
    var s := Encoded(m) + rest;
    assert s[..4] == [19, 66, 105, 116];
  }

  // What was written is read back exactly when it survives.
  lemma {:induction false} FrameReadsBack(m: Message, rest: bytes)
    requires Built(m)
    ensures Survives(m) ==> ReadFrame(Encoded(m) + rest) == (Got(m), rest)
    ensures !Survives(m) ==> ReadFrame(Encoded(m) + rest).0 != Got(m)
  {
    hide ReadFrame, Encoded, Payload;
    if Survives(m) {
      SurvivorReadsBack(m, rest);
    } else if m.Handshake? {
      HandshakeIsNoFrame(m, rest);
    } else if m.Port? {
      PortPanics(m.port, rest);
    } else {
      OversizedIsLost(m, rest);
    }
  }

  // A list of messages is read back exactly when each of them survives.
  lemma {:induction false} FramesReadBack(ms: seq<Message>, rest: bytes)
    requires forall m :: m in ms ==> Built(m)
    ensures ReadFrames(EncodedAll(ms) + rest, |ms|) == (GotAll(ms), rest) <==> forall m :: m in ms ==> Survives(m)
  {
    hide ReadFrame, Encoded, Survives, Built;
    if ms == [] {
      assert [] + rest == rest;
    } else {
      var tail := EncodedAll(ms[1..]) + rest;
      assert EncodedAll(ms) + rest == Encoded(ms[0]) + tail;
      assert ms[0] in ms && forall m :: m in ms[1..] ==> m in ms;
      FrameReadsBack(ms[0], tail);
      FramesReadBack(ms[1..], rest);
      FirstOf(ms, tail);
      assert forall m :: m in ms ==> m == ms[0] || m in ms[1..];
    }
  }

  lemma {:induction false} FirstOf(ms: seq<Message>, s: bytes)
    requires ms != []
    ensures var first := ReadFrame(Encoded(ms[0]) + s);
            var more := ReadFrames(first.1, |ms| - 1);
            forall rest: bytes :: ReadFrames(Encoded(ms[0]) + s, |ms|) == (GotAll(ms), rest)
                                  <==> first.0 == Got(ms[0]) && more == (GotAll(ms[1..]), rest)
  {
    hide ReadFrame, Encoded;
    var first := ReadFrame(Encoded(ms[0]) + s);
    var more := ReadFrames(first.1, |ms| - 1);
    assert ReadFrames(Encoded(ms[0]) + s, |ms|) == ([first.0] + more.0, more.1);
    assert ([first.0] + more.0)[1..] == more.0;
    assert ([Got(ms[0])] + GotAll(ms[1..]))[1..] == GotAll(ms[1..]);
    assert ([first.0] + more.0)[0] == first.0 && ([Got(ms[0])] + GotAll(ms[1..]))[0] == Got(ms[0]);
  }

  // The block the handlers of REQUEST and CANCEL take a message to name.
  function Block(m: Message): BlockInfo
    requires m.Request? || m.Cancel?
  {
    BlockInfo(m.index, m.begin, m.length)
  }

  // A request or a cancellation always arrives, and names its block at the other end
  // if and only if that fits 32 bits.
  lemma {:induction false} RequestNamesTheBlock(info: BlockInfo, rest: bytes)
    ensures ReadFrame(Encoded(NewRequest(info)) + rest) == (Got(NewRequest(info)), rest)
    ensures ReadFrame(Encoded(NewCancel(info)) + rest) == (Got(NewCancel(info)), rest)
    ensures Block(NewRequest(info)) == info <==> FitsWords(info)
    ensures Block(NewCancel(info)) == info <==> FitsWords(info)
  {
    RequestSurvives(info);
    Renamed(info);
    hide *;
    SurvivorReadsBack(NewRequest(info), rest);
    SurvivorReadsBack(NewCancel(info), rest);
  }

  predicate FitsWords(info: BlockInfo) {
    info.piece < 0x1_0000_0000 && info.begin < 0x1_0000_0000 && info.length < 0x1_0000_0000
  }

  lemma {:induction false} RequestSurvives(info: BlockInfo)
    ensures Survives(NewRequest(info)) && Survives(NewCancel(info)) && Built(NewRequest(info)) && Built(NewCancel(info))
  {
    hide Word, Wrap32;
  }

  lemma {:induction false} Renamed(info: BlockInfo)
    ensures Block(NewRequest(info)) == info <==> FitsWords(info)
    ensures Block(NewCancel(info)) == info <==> FitsWords(info)
  {
  }

  // A piece message for any block of a torrent survives.
  lemma {:induction false} EveryBlockFits(index: uint32, begin: uint32, block: bytes)
    requires |block| <= MAX_BLOCK_LENGTH
    ensures Survives(Piece(index, begin, block)) && Built(Piece(index, begin, block))
  {
  }

  // A handshake comes back with eight zero bytes for the extensions, exactly
  // when its hash and ID have 20 bytes each.
  lemma {:induction false} HandshakeReadsBack(infoHash: bytes, peerId: bytes)
    ensures ParseHandshake(Encoded(NewHandshake(infoHash, peerId))) == Some(Handshake(EIGHT_ZEROS, infoHash, peerId))
       <==> |infoHash| == 20 && |peerId| == 20
  {
    var s := Encoded(NewHandshake(infoHash, peerId));
    assert s[0] == 19 && s[1..20] == PROTOCOL && s[20..28] == EIGHT_ZEROS;
    if |infoHash| == 20 && |peerId| == 20 {
      assert s[28..48] == infoHash && s[48..68] == peerId;
    }
  }
}
