// The peer wire protocol byte by byte, apart from the code that writes and reads it.
module WireFormat {
  import opened Common
  import opened MessageSpec
  import opened Wire

  // Four bytes stand for this number, the most significant first.
  predicate WordAt(s: bytes, at: nat, v: int) {
    && at + 4 <= |s|
    && var a: int, b: int, c: int, d: int := s[at], s[at + 1], s[at + 2], s[at + 3];
       a * 0x100_0000 + b * 0x1_0000 + c * 0x100 + d == v
  }

  // The frame of a message: how long it says it is, its number, and where its fields
  // stand. Only a port message does not say how long it is.
  ghost predicate IsFrame(m: Message, s: bytes) {
    match m
    case KeepAlive => s == [0, 0, 0, 0]
    case Choke => s == [0, 0, 0, 1, 0]
    case Unchoke => s == [0, 0, 0, 1, 1]
    case Interested => s == [0, 0, 0, 1, 2]
    case NotInterested => s == [0, 0, 0, 1, 3]
    case Have(index) => |s| == 9 && WordAt(s, 0, 5) && s[4] == 4 && WordAt(s, 5, index)
    case BitField(bits, _) =>
      |s| == 5 + |bits| && WordAt(s, 0, (1 + |bits|) % 0x1_0000_0000) && s[4] == 5 && s[5..] == bits
    case Request(index, begin, length) =>
      && |s| == 17 && WordAt(s, 0, 13) && s[4] == 6
      && WordAt(s, 5, index) && WordAt(s, 9, begin) && WordAt(s, 13, length)
    case Piece(index, begin, block) =>
      && |s| == 13 + |block| && WordAt(s, 0, (9 + |block|) % 0x1_0000_0000) && s[4] == 7
      && WordAt(s, 5, index) && WordAt(s, 9, begin) && s[13..] == block
    case Cancel(index, begin, length) =>
      && |s| == 17 && WordAt(s, 0, 13) && s[4] == 8
      && WordAt(s, 5, index) && WordAt(s, 9, begin) && WordAt(s, 13, length)
    case Port(port) => |s| == 9 && WordAt(s, 0, 3) && s[4] == 9 && WordAt(s, 5, port)
    case Handshake(_, infoHash, peerId) =>
      && |s| == 28 + |infoHash| + |peerId| && s[0] == 19 && Spells(s[1..20], "BitTorrent protocol")
      && (forall i :: 20 <= i < 28 ==> s[i] == 0)
      && s[28..28 + |infoHash|] == infoHash && s[28 + |infoHash|..] == peerId
  }

  lemma {:induction false} WordStands(a: bytes, v: uint32, b: bytes)
    ensures WordAt(a + Word(v) + b, |a|, v) && |a + Word(v) + b| == |a| + 4 + |b|
    ensures (a + Word(v) + b)[|a| + 4..] == b
  {
    WordRoundTrip(v);
  }

  // A length, a number, two words and more.
  lemma {:induction false} TwoWordsStand(n: uint32, t: byte, u: uint32, v: uint32, b: bytes)
    ensures var s := Word(n) + ([t] + Word(u) + Word(v) + b);
            |s| == 13 + |b| && WordAt(s, 0, n) && s[4] == t && WordAt(s, 5, u) && WordAt(s, 9, v) && s[13..] == b
  {
    var s := Word(n) + ([t] + Word(u) + Word(v) + b);
    assert s == [] + Word(n) + ([t] + Word(u) + Word(v) + b);
    assert s == (Word(n) + [t]) + Word(u) + (Word(v) + b);
    assert s == (Word(n) + [t] + Word(u)) + Word(v) + b;
    WordStands([], n, [t] + Word(u) + Word(v) + b);
    WordStands(Word(n) + [t], u, Word(v) + b);
    WordStands(Word(n) + [t] + Word(u), v, b);
    hide Word;
  }

  lemma {:induction false} ThreeWordsStand(n: uint32, t: byte, u: uint32, v: uint32, w: uint32)
    ensures var s := Word(n) + ([t] + Word(u) + Word(v) + Word(w));
            |s| == 17 && WordAt(s, 0, n) && s[4] == t && WordAt(s, 5, u) && WordAt(s, 9, v) && WordAt(s, 13, w)
  {
    TwoWordsStand(n, t, u, v, Word(w));
    var front := Word(n) + ([t] + Word(u) + Word(v));
    WordStands(front, w, []);
    hide Word;
    assert front + Word(w) + [] == Word(n) + ([t] + Word(u) + Word(v) + Word(w));
  }

  lemma {:induction false} OneWordStands(n: uint32, t: byte, v: uint32)
    ensures var s := Word(n) + ([t] + Word(v));
            |s| == 9 && WordAt(s, 0, n) && s[4] == t && WordAt(s, 5, v)
  {
    WordStands([], n, [t] + Word(v));
    WordStands(Word(n) + [t], v, []);
    hide Word;
    var s := Word(n) + ([t] + Word(v));
    assert s == [] + Word(n) + ([t] + Word(v)) && s == (Word(n) + [t]) + Word(v) + [];
  }

  lemma {:induction false} BytesStand(n: uint32, t: byte, b: bytes)
    ensures var s := Word(n) + ([t] + b);
            |s| == 5 + |b| && WordAt(s, 0, n) && s[4] == t && s[5..] == b
  {
    WordStands([], n, [t] + b);
    hide Word;
    var s := Word(n) + ([t] + b);
    assert s == [] + Word(n) + ([t] + b);
  }

  lemma {:induction false} HandshakeStands(infoHash: bytes, peerId: bytes)
    ensures var s := [|PROTOCOL|] + PROTOCOL + EIGHT_ZEROS + infoHash + peerId;
            && |s| == 28 + |infoHash| + |peerId| && s[0] == 19 && s[1..20] == PROTOCOL
            && (forall i :: 20 <= i < 28 ==> s[i] == 0)
            && s[28..28 + |infoHash|] == infoHash && s[28 + |infoHash|..] == peerId
  {
  }

  lemma {:induction false} ProtocolSpelled()
    ensures Spells(PROTOCOL, "BitTorrent protocol")
  {
  }

  // The bytes of every message are its frame.
  lemma {:induction false} EncodedIsFrame(m: Message)
    ensures IsFrame(m, Encoded(m))
  {
    hide Word, WordAt;
    ShortFrames();
    match m {
      case Have(index) => OneWordStands(5, 4, index);
      case BitField(bits, _) => BytesStand(Wrap32(1 + |bits|), 5, bits);
      case Request(index, begin, length) => ThreeWordsStand(13, 6, index, begin, length);
      case Piece(index, begin, block) => TwoWordsStand(Wrap32(9 + |block|), 7, index, begin, block);
      case Cancel(index, begin, length) => ThreeWordsStand(13, 8, index, begin, length);
      case Port(port) => OneWordStands(3, 9, port);
      case Handshake(_, infoHash, peerId) =>
        HandshakeStands(infoHash, peerId);
        ProtocolSpelled();
      case _ =>
    }
  }

  // What the parser makes of the bytes behind the length, by the first of them.
  ghost predicate IsRead(s: bytes, r: Outcome) {
    if |s| > 17408 then r == Failed
    else if s == [] then r == Got(KeepAlive)
    else if s[0] == 0 then r == Got(Choke)
    else if s[0] == 1 then r == Got(Unchoke)
    else if s[0] == 2 then r == Got(Interested)
    else if s[0] == 3 then r == Got(NotInterested)
    else if s[0] == 4 then
      if |s| < 5 then r == Panicked else exists v: uint32 :: WordAt(s, 1, v) && r == Got(Have(v))
    else if s[0] == 5 then exists v: uint32 :: v == |s| - 1 && r == Got(BitField(s[1..], v))
    else if s[0] == 6 then
      if |s| < 13 then r == Panicked
      else exists u: uint32, v: uint32, w: uint32 ::
          WordAt(s, 1, u) && WordAt(s, 5, v) && WordAt(s, 9, w) && r == Got(Request(u, v, w))
    else if s[0] == 7 then
      if |s| < 9 then r == Panicked
      else exists u: uint32, v: uint32 :: WordAt(s, 1, u) && WordAt(s, 5, v) && r == Got(Piece(u, v, s[9..]))
    else if s[0] == 8 then
      if |s| < 13 then r == Panicked
      else exists u: uint32, v: uint32, w: uint32 ::
          WordAt(s, 1, u) && WordAt(s, 5, v) && WordAt(s, 9, w) && r == Got(Cancel(u, v, w))
    else if s[0] == 9 then
      if |s| < 9 then r == Panicked else exists v: uint32 :: WordAt(s, 5, v) && r == Got(Port(v))
    else r == Failed
  }

  lemma {:induction false} ValueStands(s: bytes, at: nat)
    requires at + 4 <= |s|
    ensures WordAt(s, at, WordValue(s[at..at + 4]))
  {
  }

  // For every string of bytes.
  lemma {:induction false} ParseMessageIsRead(s: bytes)
    ensures IsRead(s, ParseMessage(s))
  {
    hide WordAt, WordValue;
    if 1 <= |s| <= MAX_MESSAGE_LENGTH {
      if s[0] == 4 && |s| >= 5 {
        ValueStands(s, 1);
      } else if s[0] == 7 && |s| >= 9 {
        ValueStands(s, 1);
        ValueStands(s, 5);
      } else if (s[0] == 6 || s[0] == 8) && |s| >= 13 {
        ValueStands(s, 1);
        ValueStands(s, 5);
        ValueStands(s, 9);
      } else if s[0] == 9 && |s| >= 9 {
        ValueStands(s, 5);
      } else if s[0] == 5 {
        assert Wrap32(|s| - 1) == |s| - 1;
      }
    }
  }

  // A frame is read as long as its first four bytes say, a longer one than 17408 bytes
  // or a longer one than there are left is an error.
  lemma {:induction false} FrameIsRead(s: bytes, n: nat)
    requires WordAt(s, 0, n)
    ensures n > 17408 ==> ReadFrame(s) == (Failed, s[4..])
    ensures n <= 17408 && |s| < 4 + n ==> ReadFrame(s) == (Failed, [])
    ensures n <= 17408 && |s| >= 4 + n ==> IsRead(s[4..4 + n], ReadFrame(s).0) && ReadFrame(s).1 == s[4 + n..]
  {
    assert WordValue(s[..4]) == n;
    if n <= 17408 && |s| >= 4 + n {
      ParseMessageIsRead(s[4..4 + n]);
    }
    hide ParseMessage, WordValue, WordAt;
  }

  // ----- handshakes -----

  // A handshake is accepted if and only if its first read has 68 bytes, they name the
  // protocol, and they name this torrent.
  lemma {:induction false} HandshakeAcceptedExactlyWhen(chunks: seq<bytes>, infoHash: bytes)
    ensures HandshakeFrom(chunks, infoHash).Some?
       <==> && chunks != [] && |chunks[0]| >= 68 && chunks[0][0] == 19
            && Spells(chunks[0][1..20], "BitTorrent protocol") && chunks[0][28..48] == infoHash
    ensures HandshakeFrom(chunks, infoHash).Some? ==>
              HandshakeFrom(chunks, infoHash).value == Handshake(chunks[0][20..28], infoHash, chunks[0][48..68])
  {
    if chunks != [] && |chunks[0]| >= 68 {
      var s := chunks[0];
      var t := Take(s, 68);
      assert |t| == 68 && t[0] == s[0] && t[1..20] == s[1..20];
      assert t[20..28] == s[20..28] && t[28..48] == s[28..48] && t[48..68] == s[48..68];
      ProtocolSpelled();
      OneSpelling(t[1..20], PROTOCOL, "BitTorrent protocol");
      hide Spells, Take;
    }
  }

  lemma {:induction false} OneSpelling(a: bytes, b: bytes, text: string)
    requires Spells(b, text)
    ensures Spells(a, text) <==> a == b
  {
  }
}
