/** Overwriting the null slots of a column in place, 64 validity bits at a time. */
module ZeroSlots {
  import opened Common

  // ----- Words of bits -----

  const WORD := 64

  /** `u64::MAX`. */
  const ALL_ONES := 0xFFFF_FFFF_FFFF_FFFF

  /** Whether `word & (1 << bit)` is nonzero. */
  predicate BitSet(word: nat, bit: nat) {
    if bit == 0 then word % 2 == 1 else BitSet(word / 2, bit - 1)
  }

  /** The word with these bits, lowest first. */
  function Pack(bits: seq<bool>): nat {
    if bits == [] then 0 else (if bits[0] then 1 else 0) + 2 * Pack(bits[1..])
  }

  lemma Halve(low: bool, rest: nat)
    ensures ((if low then 1 else 0) + 2 * rest) / 2 == rest
    ensures ((if low then 1 else 0) + 2 * rest) % 2 == 1 <==> low
  {
  }

  lemma {:induction false} PackedBit(bits: seq<bool>, i: nat)
    requires i < |bits|
    ensures BitSet(Pack(bits), i) <==> bits[i]
  {
    Halve(bits[0], Pack(bits[1..]));
    if i > 0 { PackedBit(bits[1..], i - 1); }
  }

  /** A word of n bits is the largest of its width exactly when no bit is clear. */
  lemma {:induction false} PackIsFull(bits: seq<bool>)
    ensures Pack(bits) < Pow2(|bits|)
    ensures Pack(bits) == Pow2(|bits|) - 1 <==> forall i :: 0 <= i < |bits| ==> bits[i]
  {
    if bits != [] {
      var rest := bits[1..];
      PackIsFull(rest);
      if bits[0] && forall i :: 0 <= i < |rest| ==> rest[i] {
        assert forall i :: 0 <= i < |bits| ==> bits[i] == if i == 0 then bits[0] else rest[i - 1];
      }
      if forall i :: 0 <= i < |bits| ==> bits[i] {
        assert forall i :: 0 <= i < |rest| ==> rest[i] == bits[i + 1];
      }
    }
  }

  lemma EightBits(n: nat)
    ensures Pow2(n + 8) == 256 * Pow2(n)
  {
    assert Pow2(n + 2) == 4 * Pow2(n);
    assert Pow2(n + 4) == 4 * Pow2(n + 2);
    assert Pow2(n + 6) == 4 * Pow2(n + 4);
    assert Pow2(n + 8) == 4 * Pow2(n + 6);
  }

  lemma SixtyFourBits(n: nat)
    ensures Pow2(n + 64) == 0x1_0000_0000_0000_0000 * Pow2(n)
  {
    EightBits(n);
    EightBits(n + 8);
    EightBits(n + 16);
    EightBits(n + 24);
    EightBits(n + 32);
    EightBits(n + 40);
    EightBits(n + 48);
    EightBits(n + 56);
  }

  lemma FullWord()
    ensures ALL_ONES == Pow2(WORD) - 1
  {
    SixtyFourBits(0);
  }

  // ----- The chunks of a validity bitmap -----

  /** The i-th whole chunk. */
  function Chunk(valid: seq<bool>, i: nat): nat
    requires (i + 1) * WORD <= |valid|
  {
    Pack(valid[i * WORD..(i + 1) * WORD])
  }

  function RemainderLen(valid: seq<bool>): nat {
    |valid| % WORD
  }

  function RemainderBits(valid: seq<bool>): nat {
    Pack(valid[|valid| - RemainderLen(valid)..])
  }

  lemma ChunkBit(valid: seq<bool>, base: nat, n: nat, bit: nat)
    requires base + n <= |valid| && bit < n
    ensures BitSet(Pack(valid[base..base + n]), bit) <==> valid[base + bit]
  {
    PackedBit(valid[base..base + n], bit);
  }

  lemma FullChunk(valid: seq<bool>, i: nat)
    requires (i + 1) * WORD <= |valid|
    ensures Chunk(valid, i) == ALL_ONES <==> forall k :: i * WORD <= k < (i + 1) * WORD ==> valid[k]
  {
    var bits := valid[i * WORD..(i + 1) * WORD];
    FullWord();
    PackIsFull(bits);
    assert forall k :: i * WORD <= k < (i + 1) * WORD ==> valid[k] == bits[k - i * WORD];
    assert forall k :: 0 <= k < WORD ==> bits[k] == valid[i * WORD + k];
  }

  // ----- Zeroing -----

  /** The slot by slot meaning: null slots hold the default value, the others what they held. */
  function Zeroed<T>(s: seq<T>, valid: seq<bool>, zero: T): (z: seq<T>)
    requires |s| == |valid|
    ensures |z| == |s|
    ensures forall i :: 0 <= i < |s| ==> z[i] == if valid[i] then s[i] else zero
  {
    if s == [] then []
    else
      var last := |s| - 1;
      Zeroed(s[..last], valid[..last], zero) + [if valid[last] then s[last] else zero]
  }

  /** Clears the invalid slots among the `n` whose bits the word holds. */
  method ZeroWord<T>(arr: array<T>, valid: seq<bool>, word: nat, base: nat, n: nat, zero: T)
    requires arr.Length == |valid| && base + n <= |valid| && word == Pack(valid[base..base + n])
    modifies arr
    ensures forall k :: 0 <= k < arr.Length ==>
              arr[k] == if base <= k < base + n && !valid[k] then zero else old(arr[k])
  {
    for bit := 0 to n
      invariant forall k :: 0 <= k < arr.Length ==>
                  arr[k] == if base <= k < base + bit && !valid[k] then zero else old(arr[k])
    {
      ChunkBit(valid, base, n, bit);
      if !BitSet(word, bit) {
        arr[base + bit] := zero;
      }
    }
  }

  /** A column without nulls has no bitmap and is left alone. */
  method ZeroInvalidSlots<T>(arr: array<T>, nulls: Option<seq<bool>>, zero: T)
    requires nulls.Some? ==> |nulls.value| == arr.Length
    modifies arr
    ensures nulls.None? ==> arr[..] == old(arr[..])
    ensures nulls.Some? ==> arr[..] == Zeroed(old(arr[..]), nulls.value, zero)
  {
    if nulls.None? { return; }
    var valid := nulls.value;
    var base := 0;
    for i := 0 to |valid| / WORD
      invariant base == i * WORD <= |valid|
      invariant forall k :: 0 <= k < arr.Length ==>
                  arr[k] == if k < base && !valid[k] then zero else old(arr[k])
    {
      var chunk := Chunk(valid, i);
      if chunk != ALL_ONES {
        ZeroWord(arr, valid, chunk, base, WORD, zero);
      } else {
        FullChunk(valid, i);
      }
      base := base + WORD;
    }
    assert valid[|valid| - RemainderLen(valid)..] == valid[base..base + RemainderLen(valid)];
    ZeroWord(arr, valid, RemainderBits(valid), base, RemainderLen(valid), zero);
  }
}
