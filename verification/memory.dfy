/** The 64 KiB address space of the emulated CPU, as seen through `CPU6510::GetByte` and
    `SetByte`. Addresses are `uint16_t`, so every access wraps modulo 2^16. */
module Memory {

  import opened Words

  const SIZE: nat := 0x1_0000

  type Mem = s: seq<Byte> | |s| == SIZE witness seq(SIZE, _ => 0)

  /** `GetByte(a)` for an address computed in `int` and passed as `uint16_t`. */
  function Peek(m: Mem, a: int): Byte
  {
    m[U16(a)]
  }

  /** `SetByte(a, v)`: exactly one cell changes. */
  function Poke(m: Mem, a: int, v: Byte): (m': Mem)
    ensures Peek(m', a) == v
    ensures forall b: Word16 :: b != U16(a) ==> m'[b] == m[b]
  {
    m[U16(a) := v]
  }

  /** Writes `data` at `start`, `start + 1`, ... (wrapping modulo 2^16), one byte at a time,
      so that a later byte wins if the range wraps onto itself. */
  function PokeAll(m: Mem, start: int, data: seq<Byte>): (m': Mem)
    decreases |data|
  {
    if |data| == 0 then m else PokeAll(Poke(m, start, data[0]), start + 1, data[1..])
  }

  /** Whether `b` is one of the `n` addresses `start`, `start + 1`, ... (modulo 2^16):
      its distance from `start`, counted upwards with wrap-around, is below `n`. */
  predicate InRange(b: Word16, start: int, n: nat)
  {
    U16(b - start) < n
  }

  /** A write of at most 2^16 bytes stores each byte at its own address and leaves every
      address outside the range as it was. */
  lemma {:induction false} PokeAllEffect(m: Mem, start: int, data: seq<Byte>)
    requires |data| <= SIZE
    decreases |data|
    ensures forall k :: 0 <= k < |data| ==> Peek(PokeAll(m, start, data), start + k) == data[k]
    ensures forall b: Word16 :: !InRange(b, start, |data|) ==> PokeAll(m, start, data)[b] == m[b]
  {
    if |data| > 0 {
      var m1 := Poke(m, start, data[0]);
      PokeAllEffect(m1, start + 1, data[1..]);
      var r := PokeAll(m, start, data);
      assert r == PokeAll(m1, start + 1, data[1..]);
      forall k | 0 <= k < |data|
        ensures Peek(r, start + k) == data[k]
      {
        if k > 0 {
          assert Peek(r, (start + 1) + (k - 1)) == data[1..][k - 1];
        } else {
          // the later writes all land on other addresses
          StepBack(U16(start), start);
          assert !InRange(U16(start), start + 1, |data| - 1);
        }
      }
      forall b: Word16 | !InRange(b, start, |data|)
        ensures r[b] == m[b]
      {
        StepBack(b, start);
      }
    }
  }

  /** Moving the start of a range one address up shortens every distance by one, except the
      distance of the old start itself, which becomes the longest possible. */
  lemma StepBack(b: Word16, start: int)
    ensures U16(b - start) == 0 <==> b == U16(start)
    ensures U16(b - start) == 0 ==> U16(b - (start + 1)) == SIZE - 1
    ensures U16(b - start) > 0 ==> U16(b - (start + 1)) == U16(b - start) - 1
  {
  }
}
