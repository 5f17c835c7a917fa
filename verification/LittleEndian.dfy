/** Numbers as bytes, the lowest first. */
module LittleEndian {
  import Words

  type byte = x: nat | x < 256 witness 0

  function Bytes(n: nat, k: nat): (s: seq<byte>)
    ensures |s| == k
  {
    if k == 0 then [] else [n % 256] + Bytes(n / 256, k - 1)
  }

  function Number(s: seq<byte>): nat {
    if s == [] then 0 else s[0] + 256 * Number(s[1..])
  }

  function Power256(k: nat): (p: nat)
    ensures p > 0
  {
    if k == 0 then 1 else 256 * Power256(k - 1)
  }

  // Byte i is the digit of weight 256^i.
  lemma {:induction false} ByteAt(n: nat, k: nat, i: nat)
    requires i < k
    ensures Bytes(n, k)[i] == n / Power256(i) % 256
    decreases i
  {
    if i > 0 {
      ByteAt(n / 256, k - 1, i - 1);
      Words.DivDiv(n, 256, Power256(i - 1));
    }
  }

  lemma {:induction false} NumberOfBytes(n: nat, k: nat)
    requires n < Power256(k)
    ensures Number(Bytes(n, k)) == n
    decreases k
  {
    if k > 0 {
      NumberOfBytes(n / 256, k - 1);
      assert Bytes(n, k)[1..] == Bytes(n / 256, k - 1);
    }
  }

  lemma FourBytes(n: nat)
    requires n < 0x1_0000_0000
    ensures Number(Bytes(n, 4)) == n
  {
    assert Power256(4) == 0x1_0000_0000;
    NumberOfBytes(n, 4);
  }

  lemma EightBytes(n: nat)
    requires n < 0x1_0000_0000_0000_0000
    ensures Number(Bytes(n, 8)) == n
  {
    assert Power256(4) == 0x1_0000_0000;
    assert Power256(8) == 0x1_0000_0000_0000_0000;
    NumberOfBytes(n, 8);
  }
}
