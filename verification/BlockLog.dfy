/** The append-only block log: one file of records, one index file of positions, and the recovery of the index on open. */
module BlockLog {
  import opened Common
  import opened LittleEndian
  import opened LogLayout

  // The position that stands for none.
  const NPOS: nat := LIMIT - 1

  datatype Lookup<T> = Absent | Found(value: T) | Throws

  // A block read at a position, and where the next record starts.
  function ReadAt<B>(codec: Codec<B>, file: seq<byte>, pos: nat): Option<(B, nat)> {
    if pos > |file| then None else
      match codec.unpack(file[pos..])
      case None => None
      case Some(read) => Some((read.0, pos + read.1 + 8))
  }

  function LastPosition(file: seq<byte>): nat
    requires |file| >= 8
  {
    Number(file[|file| - 8..])
  }

  // The index that open leaves, given the records of the log and the index it finds.
  function Reopened<B>(codec: Codec<B>, blocks: seq<B>, index: seq<byte>): seq<byte> {
    if blocks == [] then []
    else if |index| >= 8 && LastPosition(index) == Start(codec, blocks, |blocks| - 1) then index
    else if |blocks| >= 2 then IndexBytes(codec, blocks)
    else []
  }

  ghost predicate Numbered<B>(num: B -> nat, blocks: seq<B>) {
    forall i :: 0 <= i < |blocks| ==> num(blocks[i]) == i + 1
  }

  class Log<!B(!new)> {
    const codec: Codec<B>
    const num: B -> nat
    var blockFile: seq<byte>
    var indexFile: seq<byte>
    var head: Option<B>
    var blockWrite: bool
    var indexWrite: bool

    // The two files and the head describe these blocks.
    ghost predicate Holds(blocks: seq<B>)
      reads this
    {
      && blockFile == LogBytes(codec, blocks)
      && indexFile == IndexBytes(codec, blocks)
      && head == (if blocks == [] then None else Some(Last(blocks)))
      && Numbered(num, blocks)
      && |blockFile| < LIMIT
    }

    constructor (codec: Codec<B>, num: B -> nat)
      ensures this.codec == codec && this.num == num && Holds([])
      ensures fresh(this)
    {
      this.codec, this.num := codec, num;
      blockFile, indexFile, head := [], [], None;
      blockWrite, indexWrite := true, true;
    }

    method CheckBlockRead()
      modifies this`blockWrite
      ensures !blockWrite
    {
      if blockWrite {
        blockWrite := false;
      }
    }

    method CheckIndexRead()
      modifies this`indexWrite
      ensures !indexWrite
    {
      if indexWrite {
        indexWrite := false;
      }
    }

    method CheckWrite()
      modifies this`blockWrite, this`indexWrite
      ensures blockWrite && indexWrite
    {
      if !blockWrite {
        blockWrite := true;
      }
      if !indexWrite {
        indexWrite := true;
      }
    }

    // ok is false where the position check of the index fails; then nothing is written.
    method Append(b: B) returns (ok: bool, pos: nat)
      requires num(b) >= 1
      modifies this
      ensures ok <==> |old(indexFile)| == 8 * (num(b) - 1)
      ensures ok ==> pos == |old(blockFile)| && head == Some(b)
      ensures ok ==> blockFile == old(blockFile) + codec.pack(b) + Position(pos)
      ensures ok ==> indexFile == old(indexFile) + Position(pos)
      ensures !ok ==> blockFile == old(blockFile) && indexFile == old(indexFile) && head == old(head)
    {
      CheckWrite();
      pos := |blockFile|;
      if |indexFile| != 8 * (num(b) - 1) {
        return false, pos;
      }
      var data := codec.pack(b);
      blockFile := blockFile + data;
      blockFile := blockFile + Position(pos);
      indexFile := indexFile + Position(pos);
      head := Some(b);
      return true, pos;
    }

    // Exactly the next block of the chain can be appended, and its record keeps both files in step.
    method AppendNext(b: B, ghost blocks: seq<B>) returns (ok: bool, pos: nat)
      requires Holds(blocks) && num(b) >= 1
      requires |blockFile| + |codec.pack(b)| + 8 < LIMIT
      modifies this
      ensures ok <==> num(b) == |blocks| + 1
      ensures Holds(if ok then blocks + [b] else blocks)
      ensures ok ==> pos == Start(codec, blocks + [b], |blocks|)
    {
      AppendRecord(codec, blocks, b);
      ok, pos := Append(b);
    }

    method ReadBlock(pos: nat) returns (r: Option<(B, nat)>)
      modifies this`blockWrite
      ensures r == ReadAt(codec, blockFile, pos)
    {
      CheckBlockRead();
      if pos > |blockFile| {
        return None;
      }
      var read := codec.unpack(blockFile[pos..]);
      if read.None? {
        return None;
      }
      return Some((read.value.0, pos + read.value.1 + 8));
    }

    method GetBlockPos(blockNum: nat) returns (ok: bool, pos: nat)
      modifies this`indexWrite
      ensures (head.None? || blockNum > num(head.value) || blockNum == 0) ==> ok && pos == NPOS
      ensures !(head.None? || blockNum > num(head.value) || blockNum == 0) ==>
                && (ok <==> 8 * blockNum <= |indexFile|)
                && (ok ==> pos == Number(indexFile[8 * (blockNum - 1)..8 * blockNum]))
    {
      CheckIndexRead();
      if !(head.Some? && blockNum <= num(head.value) && blockNum > 0) {
        return true, NPOS;
      }
      var at := 8 * (blockNum - 1);
      if at + 8 > |indexFile| {
        return false, 0;
      }
      return true, Number(indexFile[at..at + 8]);
    }

    // The block of that number, and nothing else; the source's assertion on the number does not fire.
    method ReadBlockByNum(blockNum: nat, ghost blocks: seq<B>) returns (r: Lookup<B>)
      requires Holds(blocks) && SelfDelimiting(codec)
      modifies this`blockWrite, this`indexWrite
      ensures r == if 1 <= blockNum <= |blocks| then Found(blocks[blockNum - 1]) else Absent
    {
      hide LogBytes, IndexBytes, Start, ReadAt, Number, Position;
      if 1 <= blockNum <= |blocks| {
        LookupAt(codec, blocks, blockNum - 1);
      }
      var ok, pos := GetBlockPos(blockNum);
      if !ok {
        return Throws;
      }
      if pos == NPOS {
        return Absent;
      }
      var read := ReadBlock(pos);
      if read.None? {
        return Throws;
      }
      if num(read.value.0) != blockNum {
        return Throws;
      }
      return Found(read.value.0);
    }

    method ReadHead(ghost blocks: seq<B>) returns (r: Option<B>)
      requires blockFile == LogBytes(codec, blocks) && |blockFile| < LIMIT && SelfDelimiting(codec)
      modifies this`blockWrite
      ensures r == if blocks == [] then None else Some(Last(blocks))
    {
      CheckBlockRead();
      if |blockFile| < 8 {
        ShortLog(codec, blocks);
        return None;
      }
      LastRecord(codec, blocks);
      var pos := Number(blockFile[|blockFile| - 8..]);
      var read := ReadBlock(pos);
      return if read.None? then None else Some(read.value.0);
    }

    // Copies the position of each record; a log of one record makes no entry, for its position 0 is not below 0.
    method ConstructIndex(ghost blocks: seq<B>)
      requires blockFile == LogBytes(codec, blocks) && blocks != []
      requires |blockFile| < LIMIT && SelfDelimiting(codec)
      modifies this`indexFile, this`blockWrite, this`indexWrite
      ensures indexFile == if |blocks| >= 2 then IndexBytes(codec, blocks) else []
    {
      hide LogBytes, IndexBytes, Start, Position, Number, SelfDelimiting;
      indexFile := [];
      indexWrite := true;
      var pos := 0;
      CheckBlockRead();
      ShortLog(codec, blocks);
      LastRecord(codec, blocks);
      var endPos := Number(blockFile[|blockFile| - 8..]);
      var get := 0;
      ghost var i := 0;
      EmptyPrefix(codec, blocks);
      while pos < endPos
        invariant i <= |blocks| && (|blocks| == 1 ==> i == 0)
        invariant get == Start(codec, blocks, i)
        invariant indexFile == IndexBytes(codec, blocks[..i])
        invariant pos == if i == 0 then 0 else Start(codec, blocks, i - 1)
        decreases |blocks| - i
      {
        Unfinished(codec, blocks, i, pos);
        NextEntry(codec, blocks, i, get);
        var read := codec.unpack(blockFile[get..]);
        get := get + read.value.1;
        pos := Number(blockFile[get..get + 8]);
        get := get + 8;
        indexFile := indexFile + Position(pos);
        i := i + 1;
      }
      Finished(codec, blocks, i, pos);
    }

    // ok is false where an index of fewer than 8 bytes makes a read fail. The head is not reset by an empty log.
    method Open(ghost blocks: seq<B>) returns (ok: bool)
      requires blockFile == LogBytes(codec, blocks) && |blockFile| < LIMIT && SelfDelimiting(codec)
      modifies this
      ensures blockFile == old(blockFile)
      ensures ok <==> blocks == [] || |old(indexFile)| == 0 || |old(indexFile)| >= 8
      ensures ok ==> indexFile == Reopened(codec, blocks, old(indexFile))
      ensures head == if blocks == [] then old(head) else Some(Last(blocks))
    {
      blockWrite, indexWrite := true, true;
      var logSize, indexSize := |blockFile|, |indexFile|;
      if logSize != 0 {
        LastRecord(codec, blocks);
        head := ReadHead(blocks);
        if indexSize != 0 {
          CheckBlockRead();
          CheckIndexRead();
          var blockPos := Number(blockFile[logSize - 8..]);
          if indexSize < 8 {
            return false;
          }
          var indexPos := Number(indexFile[indexSize - 8..]);
          if blockPos < indexPos {
            ConstructIndex(blocks);
          } else if blockPos > indexPos {
            ConstructIndex(blocks);
          }
        } else {
          ConstructIndex(blocks);
        }
      } else {
        ShortLog(codec, blocks);
        if indexSize != 0 {
          indexFile := [];
          indexWrite := true;
        }
      }
      return true;
    }
  }

  lemma AppendRecord<B>(codec: Codec<B>, blocks: seq<B>, b: B)
    ensures LogBytes(codec, blocks + [b])
         == LogBytes(codec, blocks) + codec.pack(b) + Position(|LogBytes(codec, blocks)|)
    ensures IndexBytes(codec, blocks + [b]) == IndexBytes(codec, blocks) + Position(|LogBytes(codec, blocks)|)
    ensures Start(codec, blocks + [b], |blocks|) == |LogBytes(codec, blocks)|
  {
    assert Front(blocks + [b]) == blocks && (blocks + [b])[..|blocks|] == blocks;
  }

  lemma ShortLog<B>(codec: Codec<B>, blocks: seq<B>)
    ensures |LogBytes(codec, blocks)| < 8 <==> blocks == []
  {
  }

  // The log ends with the position of its last record.
  lemma LastRecord<B(!new)>(codec: Codec<B>, blocks: seq<B>)
    requires SelfDelimiting(codec) && |LogBytes(codec, blocks)| < LIMIT && LogBytes(codec, blocks) != []
    ensures blocks != [] && |LogBytes(codec, blocks)| >= 8
    ensures var at := Start(codec, blocks, |blocks| - 1);
            && LastPosition(LogBytes(codec, blocks)) == at
            && ReadAt(codec, LogBytes(codec, blocks), at).Some?
            && ReadAt(codec, LogBytes(codec, blocks), at).value.0 == Last(blocks)
  {
    var log, n := LogBytes(codec, blocks), |blocks| - 1;
    var rest := RecordAt(codec, blocks, n);
    var at := Start(codec, blocks, n);
    assert Delimits(codec, blocks[n], Position(at) + rest);
    assert Front(blocks) == blocks[..n];
    assert log == LogBytes(codec, blocks[..n]) + codec.pack(blocks[n]) + Position(at);
    assert log[|log| - 8..] == Position(at);
    PositionIsRead(at);
  }

  // Entry and record agree, and the record's reader stops where the next record starts.
  lemma LookupAt<B(!new)>(codec: Codec<B>, blocks: seq<B>, i: nat)
    requires i < |blocks| && SelfDelimiting(codec) && |LogBytes(codec, blocks)| < LIMIT
    ensures Number(IndexBytes(codec, blocks)[8 * i..8 * i + 8]) == Start(codec, blocks, i) < NPOS
    ensures ReadAt(codec, LogBytes(codec, blocks), Start(codec, blocks, i))
         == Some((blocks[i], Start(codec, blocks, i + 1)))
  {
    hide LogBytes, IndexBytes, Start, Number, Position;
    var rest := RecordAt(codec, blocks, i);
    var at := Start(codec, blocks, i);
    assert Delimits(codec, blocks[i], Position(at) + rest);
    EntryAt(codec, blocks, i);
    StartsIncrease(codec, blocks, i, i + 1);
    PositionIsRead(at);
  }

  // Where n reads, each from where the one before stopped, arrive.
  function Walk<B>(codec: Codec<B>, file: seq<byte>, n: nat): Option<nat> {
    if n == 0 then Some(0) else
      var at := Walk(codec, file, n - 1);
      if at.None? then None else
        var read := ReadAt(codec, file, at.value);
        if read.None? then None else Some(read.value.1)
  }

  // The walk through the log and the lookup in its index find the same record.
  lemma {:induction false} WalkMeetsIndex<B(!new)>(codec: Codec<B>, blocks: seq<B>, n: nat)
    requires n < |blocks| && SelfDelimiting(codec) && |LogBytes(codec, blocks)| < LIMIT
    ensures Walk(codec, LogBytes(codec, blocks), n) == Some(Number(IndexBytes(codec, blocks)[8 * n..8 * n + 8]))
    decreases n
  {
    hide LogBytes, IndexBytes, Start, ReadAt, Number, SelfDelimiting;
    LookupAt(codec, blocks, n);
    if n == 0 {
      EmptyPrefix(codec, blocks);
    } else {
      WalkMeetsIndex(codec, blocks, n - 1);
      LookupAt(codec, blocks, n - 1);
    }
  }

  lemma EmptyPrefix<B>(codec: Codec<B>, blocks: seq<B>)
    ensures Start(codec, blocks, 0) == 0 && IndexBytes(codec, blocks[..0]) == []
  {
  }

  lemma Unfinished<B>(codec: Codec<B>, blocks: seq<B>, i: nat, pos: nat)
    requires i <= |blocks| && blocks != [] && pos < Start(codec, blocks, |blocks| - 1)
    requires pos == if i == 0 then 0 else Start(codec, blocks, i - 1)
    ensures i < |blocks| && |blocks| >= 2
  {
  }

  lemma Finished<B>(codec: Codec<B>, blocks: seq<B>, i: nat, pos: nat)
    requires i <= |blocks| && blocks != [] && pos >= Start(codec, blocks, |blocks| - 1)
    requires pos == if i == 0 then 0 else Start(codec, blocks, i - 1)
    requires |blocks| == 1 ==> i == 0
    ensures IndexBytes(codec, blocks[..i]) == if |blocks| >= 2 then IndexBytes(codec, blocks) else []
  {
    var n := |blocks|;
    EmptyPrefix(codec, blocks);
    assert blocks[..n] == blocks;
    if n >= 2 {
      StartsIncrease(codec, blocks, if i == 0 then 0 else if i < n then i - 1 else 0, n - 1);
    }
  }

  lemma NextEntry<B(!new)>(codec: Codec<B>, blocks: seq<B>, i: nat, get: nat)
    requires i < |blocks| && get == Start(codec, blocks, i)
    requires SelfDelimiting(codec) && |LogBytes(codec, blocks)| < LIMIT
    ensures var log := LogBytes(codec, blocks);
            && get <= |log|
            && var read := codec.unpack(log[get..]);
            && read.Some?
            && var after := get + read.value.1;
            && after + 8 == Start(codec, blocks, i + 1) <= |log|
            && Number(log[after..after + 8]) == Start(codec, blocks, i)
    ensures IndexBytes(codec, blocks[..i + 1]) == IndexBytes(codec, blocks[..i]) + Position(Start(codec, blocks, i))
  {
    hide LogBytes, IndexBytes, Start, Number, Position;
    LastWritten(codec, blocks, i);
    var log := LogBytes(codec, blocks);
    var rest := RecordAt(codec, blocks, i);
    assert Delimits(codec, blocks[i], Position(get) + rest);
    StartsIncrease(codec, blocks, i, i + 1);
    SliceAfter(log, get, codec.pack(blocks[i]), Position(get), rest);
    PositionIsRead(get);
  }

  lemma SliceAfter<T>(log: seq<T>, at: nat, first: seq<T>, next: seq<T>, rest: seq<T>)
    requires at <= |log| && log[at..] == first + (next + rest)
    ensures at + |first| + |next| <= |log| && log[at + |first|..at + |first| + |next|] == next
  {
    assert log[at + |first|..] == log[at..][|first|..] == next + rest;
  }

  // An index that is a number of entries short or ahead is rebuilt, except for a log of one block.
  lemma ReopenRestoresIff<B(!new)>(codec: Codec<B>, blocks: seq<B>, indexed: seq<B>)
    requires indexed <= blocks || blocks <= indexed
    requires |LogBytes(codec, blocks)| < LIMIT && |LogBytes(codec, indexed)| < LIMIT
    ensures Reopened(codec, blocks, IndexBytes(codec, indexed)) == IndexBytes(codec, blocks)
       <==> indexed == blocks || |blocks| != 1
  {
    hide IndexBytes, LogBytes, Start, Number;
    EmptyPrefix(codec, blocks);
    if blocks == indexed {
      if blocks != [] {
        LastEntry(codec, blocks);
      } else {
        assert blocks[..0] == blocks;
      }
    } else if blocks == [] {
      assert blocks[..0] == blocks;
    } else if indexed != [] {
      LastEntry(codec, indexed);
      LastStartsDiffer(codec, blocks, indexed);
    }
  }

  lemma LastStartsDiffer<B>(codec: Codec<B>, a: seq<B>, b: seq<B>)
    requires a != [] && b != [] && a != b && (a <= b || b <= a)
    ensures Start(codec, a, |a| - 1) != Start(codec, b, |b| - 1)
  {
    var m, n := |a| - 1, |b| - 1;
    var longer := if m < n then b else a;
    assert a[..m] == longer[..m] && b[..n] == longer[..n];
    StartsIncrease(codec, longer, if m < n then m else n, if m < n then n else m);
  }

  lemma LastEntry<B>(codec: Codec<B>, blocks: seq<B>)
    requires blocks != [] && |LogBytes(codec, blocks)| < LIMIT
    ensures LastPosition(IndexBytes(codec, blocks)) == Start(codec, blocks, |blocks| - 1)
  {
    var n := |blocks| - 1;
    EntryAt(codec, blocks, n);
    assert IndexBytes(codec, blocks)[8 * n..] == IndexBytes(codec, blocks)[8 * n..8 * n + 8];
    StartsIncrease(codec, blocks, n, n + 1);
    assert blocks[..n + 1] == blocks;
    PositionIsRead(Start(codec, blocks, n));
  }

  // After the index of a one-block log is lost, the position check refuses block 2.
  lemma LostIndexStopsAppend<B(!new)>(codec: Codec<B>, b: B)
    ensures |Reopened(codec, [b], [])| != 8 * (2 - 1)
  {
  }
}
