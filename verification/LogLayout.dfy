/** The bytes of the block log and of its index: records, positions, and how a reader finds them again. */
module LogLayout {
  import opened Common
  import opened LittleEndian

  // ---------- Positions as 8 little-endian bytes ----------

  const LIMIT: nat := 0x1_0000_0000_0000_0000

  function Position(n: nat): (s: seq<byte>)
    ensures |s| == 8
  {
    Bytes(n, 8)
  }

  lemma PositionIsRead(n: nat)
    requires n < LIMIT
    ensures Number(Position(n)) == n
  {
    EightBytes(n);
  }

  // ---------- Blocks as bytes ----------

  // How a block is written, and how one is read from the front of what follows.
  datatype Codec<!B> = Codec(pack: B -> seq<byte>, unpack: seq<byte> -> Option<(B, nat)>)

  // Reading stops where the block ends, whatever follows.
  ghost predicate Delimits<B>(codec: Codec<B>, b: B, rest: seq<byte>) {
    codec.unpack(codec.pack(b) + rest) == Some((b, |codec.pack(b)|))
  }

  ghost predicate SelfDelimiting<B(!new)>(codec: Codec<B>) {
    forall b: B, rest: seq<byte> :: Delimits(codec, b, rest)
  }

  function Front<T>(s: seq<T>): seq<T>
    requires s != []
  {
    s[..|s| - 1]
  }

  // A record is the block and the position where it starts.
  function LogBytes<B>(codec: Codec<B>, blocks: seq<B>): seq<byte> {
    if blocks == [] then [] else
      var before := LogBytes(codec, Front(blocks));
      before + codec.pack(Last(blocks)) + Position(|before|)
  }

  function Start<B>(codec: Codec<B>, blocks: seq<B>, i: nat): nat
    requires i <= |blocks|
  {
    |LogBytes(codec, blocks[..i])|
  }

  // An entry per record: the position where it starts.
  function IndexBytes<B>(codec: Codec<B>, blocks: seq<B>): (s: seq<byte>)
    ensures |s| == 8 * |blocks|
  {
    if blocks == [] then [] else IndexBytes(codec, Front(blocks)) + Position(|LogBytes(codec, Front(blocks))|)
  }

  // ---------- Where records and entries are ----------

  lemma {:induction false} LogOfPrefix<B>(codec: Codec<B>, blocks: seq<B>, i: nat)
    requires i <= |blocks|
    ensures LogBytes(codec, blocks[..i]) <= LogBytes(codec, blocks)
    ensures IndexBytes(codec, blocks[..i]) <= IndexBytes(codec, blocks)
    decreases |blocks|
  {
    if i == |blocks| {
      assert blocks[..i] == blocks;
    } else {
      assert Front(blocks)[..i] == blocks[..i];
      LogOfPrefix(codec, Front(blocks), i);
    }
  }

  // The record and the entry of one block, at the end.
  lemma LastWritten<B>(codec: Codec<B>, blocks: seq<B>, i: nat)
    requires i < |blocks|
    ensures LogBytes(codec, blocks[..i + 1])
         == LogBytes(codec, blocks[..i]) + codec.pack(blocks[i]) + Position(Start(codec, blocks, i))
    ensures IndexBytes(codec, blocks[..i + 1]) == IndexBytes(codec, blocks[..i]) + Position(Start(codec, blocks, i))
  {
    hide Position;
    assert Front(blocks[..i + 1]) == blocks[..i] && Last(blocks[..i + 1]) == blocks[i];
  }

  lemma RecordAt<B>(codec: Codec<B>, blocks: seq<B>, i: nat) returns (rest: seq<byte>)
    requires i < |blocks|
    ensures var at := Start(codec, blocks, i);
            && at <= |LogBytes(codec, blocks)|
            && LogBytes(codec, blocks)[at..] == codec.pack(blocks[i]) + (Position(at) + rest)
            && Start(codec, blocks, i + 1) == at + |codec.pack(blocks[i])| + 8
  {
    hide LogBytes, IndexBytes, Position;
    LogOfPrefix(codec, blocks, i + 1);
    LastWritten(codec, blocks, i);
    rest := Follows(LogBytes(codec, blocks), LogBytes(codec, blocks[..i]), codec.pack(blocks[i]), Position(Start(codec, blocks, i)));
  }

  lemma Follows<T>(s: seq<T>, a: seq<T>, b: seq<T>, c: seq<T>) returns (rest: seq<T>)
    requires a + b + c <= s
    ensures s[|a|..] == b + (c + rest)
  {
    rest := s[|a + b + c|..];
    assert s == a + b + c + rest;
  }

  lemma EntryAt<B>(codec: Codec<B>, blocks: seq<B>, i: nat)
    requires i < |blocks|
    ensures IndexBytes(codec, blocks)[8 * i..8 * i + 8] == Position(Start(codec, blocks, i))
  {
    hide LogBytes, IndexBytes, Start, Position;
    LogOfPrefix(codec, blocks, i + 1);
    LastWritten(codec, blocks, i);
    var rest := Follows(IndexBytes(codec, blocks), IndexBytes(codec, blocks[..i]), Position(Start(codec, blocks, i)), []);
    assert |Position(Start(codec, blocks, i))| == 8;
  }

  lemma {:induction false} StartsIncrease<B>(codec: Codec<B>, blocks: seq<B>, i: nat, j: nat)
    requires i < j <= |blocks|
    ensures Start(codec, blocks, i) < Start(codec, blocks, j) <= |LogBytes(codec, blocks)|
    decreases j - i
  {
    LogOfPrefix(codec, blocks, j);
    var rest := RecordAt(codec, blocks, j - 1);
    if i < j - 1 {
      StartsIncrease(codec, blocks, i, j - 1);
    }
  }
}
