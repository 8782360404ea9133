/** The word-array bitmap of physical frames.  A set bit marks a frame in use. */
module Bitmaps {
  const BITS_PER_WORD := 32
  const FULL: bv32 := 0xFFFF_FFFF
  const NONE := 0xFFFF_FFFF     // (unsigned)-1

  function Digit(b: bool, d: bv32): bv32 { if b then d else 0 }

  // The number i of a bit, as a shift distance.
  function Distance(i: nat): (d: bv32)
    requires i < 32
    ensures d < 32
  {
    Digit(i % 2 == 1, 1) | Digit(i / 2 % 2 == 1, 2) | Digit(i / 4 % 2 == 1, 4)
      | Digit(i / 8 % 2 == 1, 8) | Digit(i / 16 % 2 == 1, 16)
  }

  lemma DistanceTells(i: nat, j: nat)
    requires i < 32 && j < 32 && Distance(i) == Distance(j)
    ensures i == j
  {
    hide Distance;
    DigitsOfDistance(i, j);
    SumOfDigits(i);
    SumOfDigits(j);
  }

  lemma DigitsOfDistance(i: nat, j: nat)
    requires i < 32 && j < 32 && Distance(i) == Distance(j)
    ensures i % 2 == j % 2 && i / 2 % 2 == j / 2 % 2 && i / 4 % 2 == j / 4 % 2
    ensures i / 8 % 2 == j / 8 % 2 && i / 16 % 2 == j / 16 % 2
  {
  }

  lemma SumOfDigits(i: nat)
    requires i < 32
    ensures i == i % 2 + 2 * (i / 2 % 2) + 4 * (i / 4 % 2) + 8 * (i / 8 % 2) + 16 * (i / 16 % 2)
  {
  }

  predicate Bit(w: bv32, d: bv32)
    requires d < 32
  {
    w & (1 << d) != 0
  }

  function Raise(w: bv32, d: bv32): bv32
    requires d < 32
  {
    w | (1 << d)
  }

  function Lower(w: bv32, d: bv32): bv32
    requires d < 32
  {
    w & !(1 << d)
  }

  lemma MaskedBits(w: bv32, d: bv32, e: bv32)
    requires d < 32 && e < 32
    ensures Bit(w | (1 << d), e) <==> d == e || Bit(w, e)
    ensures Bit(w & !(1 << d), e) <==> d != e && Bit(w, e)
  {
  }

  lemma BitAfter(w: bv32, d: bv32, e: bv32)
    requires d < 32 && e < 32
    ensures Bit(Raise(w, d), e) <==> d == e || Bit(w, e)
    ensures Bit(Lower(w, d), e) <==> d != e && Bit(w, e)
  {
    hide Bit;
    MaskedBits(w, d, e);
  }

  // bitmap_test_bit
  predicate IsSet(ws: seq<bv32>, b: nat)
    requires b < BITS_PER_WORD * |ws|
  {
    Bit(ws[b / BITS_PER_WORD], Distance(b % BITS_PER_WORD))
  }

  // bitmap_set_bit
  function WithSet(ws: seq<bv32>, b: nat): (r: seq<bv32>)
    requires b < BITS_PER_WORD * |ws|
    ensures |r| == |ws|
  {
    ws[b / BITS_PER_WORD := Raise(ws[b / BITS_PER_WORD], Distance(b % BITS_PER_WORD))]
  }

  // bitmap_clear_bit
  function WithClear(ws: seq<bv32>, b: nat): (r: seq<bv32>)
    requires b < BITS_PER_WORD * |ws|
    ensures |r| == |ws|
  {
    ws[b / BITS_PER_WORD := Lower(ws[b / BITS_PER_WORD], Distance(b % BITS_PER_WORD))]
  }

  lemma SetChangesOne(ws: seq<bv32>, b: nat, c: nat)
    requires b < BITS_PER_WORD * |ws| && c < BITS_PER_WORD * |ws|
    ensures IsSet(WithSet(ws, b), c) <==> c == b || IsSet(ws, c)
  {
    hide Bit, Distance, Raise, Lower;
    var d, e := Distance(b % BITS_PER_WORD), Distance(c % BITS_PER_WORD);
    BitAfter(ws[b / BITS_PER_WORD], d, e);
    if d == e { DistanceTells(b % BITS_PER_WORD, c % BITS_PER_WORD); }
  }

  lemma ClearChangesOne(ws: seq<bv32>, b: nat, c: nat)
    requires b < BITS_PER_WORD * |ws| && c < BITS_PER_WORD * |ws|
    ensures IsSet(WithClear(ws, b), c) <==> c != b && IsSet(ws, c)
  {
    hide Bit, Distance, Raise, Lower;
    var d, e := Distance(b % BITS_PER_WORD), Distance(c % BITS_PER_WORD);
    BitAfter(ws[b / BITS_PER_WORD], d, e);
    if d == e { DistanceTells(b % BITS_PER_WORD, c % BITS_PER_WORD); }
  }

  // The lowest clear bit from b on, or n if there is none below n.
  function FirstClear(ws: seq<bv32>, b: nat, n: nat): (r: nat)
    requires b <= n <= BITS_PER_WORD * |ws|
    ensures b <= r <= n && (r < n ==> !IsSet(ws, r))
    ensures forall c :: b <= c < r ==> IsSet(ws, c)
    decreases n - b
  {
    if b == n || !IsSet(ws, b) then b else FirstClear(ws, b + 1, n)
  }

  class Bitmap {
    var wordCount: nat
    const bits: array<bv32>

    constructor (size: nat)
      ensures wordCount == 0 && fresh(bits) && bits.Length == size
      ensures forall i :: 0 <= i < size ==> bits[i] == 0
    {
      wordCount := 0;
      bits := new bv32[size](_ => 0);
    }

    method Set(b: nat)
      requires b < BITS_PER_WORD * bits.Length
      modifies bits
      ensures bits[..] == WithSet(old(bits[..]), b)
    {
      bits[b / BITS_PER_WORD] := bits[b / BITS_PER_WORD] | (1 << Distance(b % BITS_PER_WORD));
    }

    method Clear(b: nat)
      requires b < BITS_PER_WORD * bits.Length
      modifies bits
      ensures bits[..] == WithClear(old(bits[..]), b)
    {
      bits[b / BITS_PER_WORD] := bits[b / BITS_PER_WORD] & !(1 << Distance(b % BITS_PER_WORD));
    }

    method Test(b: nat) returns (r: bool)
      requires b < BITS_PER_WORD * bits.Length
      ensures r == IsSet(bits[..], b)
    {
      r := bits[b / BITS_PER_WORD] & (1 << Distance(b % BITS_PER_WORD)) != 0;
    }

    /** The lowest clear bit of the words in use, found by skipping full words. */
    method FirstFree() returns (r: nat)
      requires wordCount <= bits.Length && BITS_PER_WORD * wordCount < NONE
      ensures var n := BITS_PER_WORD * wordCount; var f := FirstClear(bits[..], 0, n);
        r == if f < n then f else NONE
    {
      var word := 0;
      ghost var ws, n := bits[..], BITS_PER_WORD * wordCount;
      while word < wordCount
        invariant 0 <= word <= wordCount && bits[..] == ws
        invariant forall c :: 0 <= c < BITS_PER_WORD * word ==> IsSet(ws, c)
      {
        ghost var base := BITS_PER_WORD * word;
        if bits[word] == FULL {
          FullWord(ws, word);
          word := word + 1;
          continue;
        }
        var bit := 0;
        while bit < BITS_PER_WORD
          invariant 0 <= bit <= BITS_PER_WORD && bits[..] == ws
          invariant forall c :: 0 <= c < base + bit ==> IsSet(ws, c)
        {
          assert (base + bit) / BITS_PER_WORD == word && (base + bit) % BITS_PER_WORD == bit;
          if bits[word] & (1 << Distance(bit)) == 0 {
            assert !IsSet(ws, base + bit);
            return word * BITS_PER_WORD + bit;
          }
          assert IsSet(ws, base + bit);
          bit := bit + 1;
        }
        word := word + 1;
      }
      r := NONE;
    }
  }

  lemma FullWord(ws: seq<bv32>, word: nat)
    requires word < |ws| && ws[word] == FULL
    ensures forall c :: BITS_PER_WORD * word <= c < BITS_PER_WORD * (word + 1) ==> IsSet(ws, c)
  {
  }
}
