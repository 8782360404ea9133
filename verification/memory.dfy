/** A flat 32-bit byte memory and little-endian words in it.  Pointers are plain
    addresses; 0 is NULL. */
module Memory {
  import opened Machine

  const MEMORY_SIZE := 0x1_0000_0000

  type Byte = x: int | 0 <= x < 0x100

  ghost predicate InMemory(a: int, n: int) {
    0 <= a && 0 <= n && a + n <= MEMORY_SIZE
  }

  // Two address ranges [a, a + n) and [b, b + m) share no byte.
  ghost predicate Apart(a: int, n: int, b: int, m: int) {
    a + n <= b || b + m <= a
  }

  function Pow256(n: nat): nat {
    if n == 0 then 1 else 0x100 * Pow256(n - 1)
  }

  // The value of a little-endian byte string.
  function Value(bs: seq<Byte>): nat {
    if bs == [] then 0 else bs[0] + 0x100 * Value(bs[1..])
  }

  // The n low bytes of v, least significant first.
  function Bytes(v: nat, n: nat): (bs: seq<Byte>)
    ensures |bs| == n
  {
    if n == 0 then [] else [v % 0x100] + Bytes(v / 0x100, n - 1)
  }

  lemma {:induction false} ValueOfBytes(v: nat, n: nat)
    requires v < Pow256(n)
    ensures Value(Bytes(v, n)) == v
  {
    if n != 0 {
      assert v / 0x100 < Pow256(n - 1);
      ValueOfBytes(v / 0x100, n - 1);
      assert Bytes(v, n)[1..] == Bytes(v / 0x100, n - 1);
    }
  }

  // A structure of 32-bit fields, as its bytes.
  function Pack(ws: seq<Word32>): (bs: seq<Byte>)
    ensures |bs| == 4 * |ws|
  {
    if ws == [] then [] else Bytes(ws[0], 4) + Pack(ws[1..])
  }

  function Unpack(bs: seq<Byte>): (ws: seq<nat>)
    ensures |ws| == |bs| / 4
  {
    if |bs| < 4 then [] else [Value(bs[..4])] + Unpack(bs[4..])
  }

  lemma {:induction false} UnpackOfPack(ws: seq<Word32>)
    ensures Unpack(Pack(ws)) == ws
  {
    if ws != [] {
      assert Pow256(4) == 0x1_0000_0000;
      ValueOfBytes(ws[0], 4);
      assert Pack(ws)[..4] == Bytes(ws[0], 4);
      assert Pack(ws)[4..] == Pack(ws[1..]);
      UnpackOfPack(ws[1..]);
    }
  }

  // Overwrites the bytes from address a on.
  function Put(m: seq<Byte>, a: nat, bs: seq<Byte>): (r: seq<Byte>)
    requires a + |bs| <= |m|
    ensures |r| == |m| && r[a..a + |bs|] == bs
    ensures forall x :: a <= x < a + |bs| ==> r[x] == bs[x - a]
    ensures forall x :: 0 <= x < a || a + |bs| <= x < |m| ==> r[x] == m[x]
  {
    m[..a] + bs + m[a + |bs|..]
  }

  // The word from x on, as the processor loads it.
  function WordAt(m: seq<Byte>, x: int): Word32
    requires 0 <= x && x + 4 <= |m|
  {
    var b0: int, b1: int, b2: int, b3: int := m[x], m[x + 1], m[x + 2], m[x + 3];
    b0 + 0x100 * b1 + 0x1_0000 * b2 + 0x100_0000 * b3
  }

  lemma ValueOfFour(w: seq<Byte>)
    requires |w| == 4
    ensures Value(w) == WordAt(w, 0)
  {
    assert w[1..][1..] == w[2..] && w[2..][1..] == w[3..] && w[3..][1..] == [];
    assert Value(w[3..]) == w[3];
    assert Value(w[2..]) == w[2] + 0x100 * Value(w[3..]);
    assert Value(w[1..]) == w[1] + 0x100 * Value(w[2..]);
  }

  lemma {:induction false} UnpackAt(bs: seq<Byte>, n: nat)
    requires 4 * n + 4 <= |bs|
    ensures n < |Unpack(bs)| && Unpack(bs)[n] == WordAt(bs, 4 * n)
  {
    hide Value;
    if n == 0 {
      ValueOfFour(bs[..4]);
    } else {
      UnpackAt(bs[4..], n - 1);
    }
  }
}
