/** Messages on an encrypted stream: each is sent as a header and its data, padded to blocks of 16 bytes. */
module Framing {
  import opened Common
  import opened LittleEndian

  const BLOCK: nat := 16
  const HEADER: nat := 8
  const MAX_MESSAGE_SIZE: nat := 1024 * 1024 * 2
  const WORD: nat := 0x1_0000_0000

  datatype Message = Message(kind: nat, data: seq<byte>)

  function Header(m: Message): (s: seq<byte>)
    ensures |s| == HEADER
  {
    Bytes(|m.data|, 4) + Bytes(m.kind, 4)
  }

  function PaddedSize(size: nat): (n: nat)
    ensures size <= n < size + BLOCK && n % BLOCK == 0
  {
    BLOCK * ((size + BLOCK - 1) / BLOCK)
  }

  function Zeros(n: nat): (s: seq<byte>)
    ensures |s| == n
  {
    seq(n, i => 0)
  }

  function Frame(m: Message): (s: seq<byte>)
    ensures |s| == PaddedSize(HEADER + |m.data|)
  {
    Header(m) + m.data + Zeros(PaddedSize(HEADER + |m.data|) - HEADER - |m.data|)
  }

  function Frames(messages: seq<Message>): seq<byte> {
    if messages == [] then [] else Frame(messages[0]) + Frames(messages[1..])
  }

  predicate Sendable(m: Message) {
    |m.data| < WORD && m.kind < WORD
  }

  lemma HeaderIsRead(m: Message)
    requires Sendable(m)
    ensures Number(Header(m)[..4]) == |m.data| && Number(Header(m)[4..]) == m.kind
  {
    assert Header(m)[..4] == Bytes(|m.data|, 4) && Header(m)[4..] == Bytes(m.kind, 4);
    FourBytes(|m.data|);
    FourBytes(m.kind);
  }

  // The unsigned subtraction wraps for messages that end in the first block, and the sum wraps back.
  function RemainingBytes(size: nat): nat
    requires size < WORD
  {
    var leftover := BLOCK - HEADER;
    BLOCK * (((size + WORD - leftover) % WORD + BLOCK - 1) % WORD / BLOCK)
  }

  lemma RemainingIsTheRest(size: nat)
    requires size <= MAX_MESSAGE_SIZE
    ensures BLOCK + RemainingBytes(size) == PaddedSize(HEADER + size)
  {
    var leftover := BLOCK - HEADER;
    if size >= leftover {
      assert (size + WORD - leftover) % WORD == size - leftover;
      assert (size - leftover + BLOCK - 1) % WORD == size - leftover + BLOCK - 1;
    } else {
      assert (size + WORD - leftover) % WORD == size + WORD - leftover;
      assert (size + WORD - leftover + BLOCK - 1) % WORD == size - leftover + BLOCK - 1;
    }
  }

  function Word(a: nat, b: nat, c: nat, d: nat): nat {
    a + 0x100 * b + 0x1_0000 * c + 0x100_0000 * d
  }

  // Size and kind as 32-bit numbers, lowest byte first, then the data, then fewer than 16 zeros up to a multiple of 16.
  ghost predicate LaidOut(m: Message, s: seq<byte>) {
    && |s| % 16 == 0 && 8 + |m.data| <= |s| < 8 + |m.data| + 16
    && Word(s[0], s[1], s[2], s[3]) == |m.data| && Word(s[4], s[5], s[6], s[7]) == m.kind
    && s[8..8 + |m.data|] == m.data
    && forall i :: 8 + |m.data| <= i < |s| ==> s[i] == 0
  }

  lemma FrameIsLaidOut(m: Message)
    requires Sendable(m)
    ensures LaidOut(m, Frame(m))
  {
    var s := Frame(m);
    HeaderIsRead(m);
    assert s[..4] == Header(m)[..4] && s[4..8] == Header(m)[4..];
    FourBytesAre(s[..4]);
    FourBytesAre(s[4..8]);
    hide Header, Number;
    assert s == Header(m) + (m.data + Zeros(|s| - 8 - |m.data|));
  }

  lemma FourBytesAre(s: seq<byte>)
    requires |s| == 4
    ensures Number(s) == Word(s[0], s[1], s[2], s[3])
  {
    assert s[1..][1..][1..][1..] == [];
    assert Number(s[1..]) == s[1] + 256 * Number(s[1..][1..]);
    assert Number(s[1..][1..]) == s[2] + 256 * Number(s[1..][1..][1..]);
    assert Number(s[1..][1..][1..]) == s[3] + 256 * Number(s[1..][1..][1..][1..]);
  }

  class Connection {
    var incoming: seq<byte>
    var outgoing: seq<byte>
    var bytesReceived: nat
    var bytesSent: nat

    constructor (incoming: seq<byte>)
      ensures this.incoming == incoming && outgoing == [] && bytesReceived == 0 && bytesSent == 0
    {
      this.incoming, outgoing, bytesReceived, bytesSent := incoming, [], 0, 0;
    }

    method SendMessage(m: Message)
      requires Sendable(m)
      modifies this`outgoing, this`bytesSent
      ensures outgoing == old(outgoing) + Frame(m) && bytesSent == old(bytesSent) + |Frame(m)|
      ensures LaidOut(m, outgoing[|old(outgoing)|..])
    {
      FrameIsLaidOut(m);

      var size := HEADER + |m.data|;
      var sizeWithPadding := BLOCK * ((size + BLOCK - 1) / BLOCK);
      var padded := new byte[sizeWithPadding];
      var header := Header(m);
      forall i | 0 <= i < HEADER {
        padded[i] := header[i];
      }
      forall i | 0 <= i < |m.data| {
        padded[HEADER + i] := m.data[i];
      }
      forall i | size <= i < sizeWithPadding {
        padded[i] := 0;
      }
      assert padded[..] == Frame(m);
      outgoing := outgoing + padded[..];
      bytesSent := bytesSent + sizeWithPadding;
    }

    // None where the stream ends.
    method Read(n: nat) returns (r: Option<seq<byte>>)
      modifies this`incoming, this`bytesReceived
      ensures r == if n <= |old(incoming)| then Some(old(incoming)[..n]) else None
      ensures r.Some? ==> incoming == old(incoming)[n..] && bytesReceived == old(bytesReceived) + n
    {
      if n > |incoming| {
        return None;
      }
      r := Some(incoming[..n]);
      incoming := incoming[n..];
      bytesReceived := bytesReceived + n;
    }

    // One round of the read loop; None where it ends with an error.
    method ReadMessage() returns (r: Option<Message>)
      modifies this`incoming, this`bytesReceived
      ensures forall m, rest :: Sendable(m) && old(incoming) == Frame(m) + rest ==>
                (r == if |m.data| <= MAX_MESSAGE_SIZE then Some(m) else None)
      ensures forall m, rest :: Sendable(m) && old(incoming) == Frame(m) + rest && r.Some? ==>
                incoming == rest && bytesReceived == old(bytesReceived) + |Frame(m)|
    {
      hide Number, Frame, PaddedSize, RemainingBytes, Sendable;
      ghost var stream := incoming;
      var first := Read(BLOCK);
      if first.None? {
        return None;
      }
      var buffer := first.value;
      var size, kind := Number(buffer[..4]), Number(buffer[4..HEADER]);
      forall m, rest | Sendable(m) && stream == Frame(m) + rest
        ensures size == |m.data| && kind == m.kind
      {
        FirstBlock(m, rest);
      }
      if size > MAX_MESSAGE_SIZE {
        return None;
      }
      RemainingIsTheRest(size);
      var remaining := RemainingBytes(size);
      var second := Read(remaining);
      if second.None? {
        return None;
      }
      var data := buffer[HEADER..] + second.value;
      data := data[..size];
      r := Some(Message(kind, data));
      assert buffer + second.value == stream[..BLOCK + remaining];
      forall m, rest | Sendable(m) && stream == Frame(m) + rest
        ensures data == m.data && incoming == rest
      {
        WholeFrame(m, rest);
        assert data == stream[HEADER..BLOCK + remaining][..size];
      }
    }
  }

  lemma FirstBlock(m: Message, rest: seq<byte>)
    requires Sendable(m)
    ensures |Frame(m) + rest| >= BLOCK
    ensures Number((Frame(m) + rest)[..BLOCK][..4]) == |m.data|
    ensures Number((Frame(m) + rest)[..BLOCK][4..HEADER]) == m.kind
  {
    HeaderIsRead(m);
    assert (Frame(m) + rest)[..BLOCK][..4] == Header(m)[..4];
    assert (Frame(m) + rest)[..BLOCK][4..HEADER] == Header(m)[4..];
  }

  lemma WholeFrame(m: Message, rest: seq<byte>)
    ensures var n := PaddedSize(HEADER + |m.data|);
            && (Frame(m) + rest)[n..] == rest
            && (Frame(m) + rest)[HEADER..n][..|m.data|] == m.data
  {
    var n := PaddedSize(HEADER + |m.data|);
    assert (Frame(m) + rest)[HEADER..n] == m.data + Zeros(n - HEADER - |m.data|);
  }

  // Everything that was sent is received, in order and without the padding.
  method Deliver(messages: seq<Message>) returns (received: seq<Message>)
    requires forall i :: 0 <= i < |messages| ==> Sendable(messages[i]) && |messages[i].data| <= MAX_MESSAGE_SIZE
    ensures received == messages
  {
    var sender := new Connection([]);
    var i := 0;
    while i < |messages|
      invariant i <= |messages| && sender.outgoing == Frames(messages[..i])
      modifies sender
    {
      FramesSnoc(messages, i);
      sender.SendMessage(messages[i]);
      i := i + 1;
    }
    assert messages[..|messages|] == messages;
    var receiver := new Connection(sender.outgoing);
    received := [];
    i := 0;
    while i < |messages|
      invariant i <= |messages| && received == messages[..i] && receiver.incoming == Frames(messages[i..])
      modifies receiver
    {
      assert messages[i..][0] == messages[i] && messages[i..][1..] == messages[i + 1..];
      assert receiver.incoming == Frame(messages[i]) + Frames(messages[i + 1..]);
      var r := receiver.ReadMessage();
      received := received + [r.value];
      i := i + 1;
    }
  }

  lemma {:induction false} FramesSnoc(messages: seq<Message>, i: nat)
    requires i < |messages|
    ensures Frames(messages[..i + 1]) == Frames(messages[..i]) + Frame(messages[i])
  {
    FramesAppend(messages[..i], messages[i]);
    assert messages[..i + 1] == messages[..i] + [messages[i]];
  }

  lemma {:induction false} FramesAppend(messages: seq<Message>, m: Message)
    ensures Frames(messages + [m]) == Frames(messages) + Frame(m)
  {
    if messages == [] {
      assert messages + [m] == [m] && [m][1..] == [];
    } else {
      assert (messages + [m])[1..] == messages[1..] + [m];
      FramesAppend(messages[1..], m);
    }
  }
}
