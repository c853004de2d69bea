/**
 The 16-bit sequence numbers of the ARQ helpers and their signed difference (`arq_seq_diff`).
 */
module ArqSequence {

  type u16 = x: int | 0 <= x < 0x1_0000

  newtype byte = x: int | 0 <= x < 0x100

  type Payload = seq<byte>

  /** The low 16 bits of an unbounded number. */
  function Low16(x: int): u16 {
    x % 0x1_0000
  }

  /** `arq_seq_diff`: the 16-bit difference read as a signed number. */
  function SeqDiff(a: u16, b: u16): (d: int)
    ensures -0x8000 <= d < 0x8000 && (a - b - d) % 0x1_0000 == 0
  {
    var d := (a - b) % 0x1_0000;
    if d < 0x8000 then d else d - 0x1_0000
  }

  /** `x` lies within half of the sequence space of `base`. */
  predicate HalfSpace(x: int, base: int) {
    -0x8000 <= x - base < 0x8000
  }

  /** The 16-bit comparison is exact inside the half-space, and only there. */
  lemma DiffExact(x: int, y: int)
    ensures SeqDiff(Low16(x), Low16(y)) == x - y <==> HalfSpace(x, y)
  {
  }

  lemma Low16Adds(x: int, n: int)
    ensures Low16(Low16(x) + n) == Low16(x + n)
  {
  }

  /** Numbers less than 65536 apart have different low halves. */
  lemma Low16Injective(x: int, y: int)
    requires Low16(x) == Low16(y) && -0x1_0000 < x - y < 0x1_0000
    ensures x == y
  {
  }

  // ---------------------------------------------------------------------------------------------
  // Walking over a map and erasing, in whatever order the map is kept.

  function Doomed<V>(m: map<u16, V>, doomed: (u16, V) -> bool): set<u16> {
    set k | k in m && doomed(k, m[k])
  }

  lemma EraseMore<V>(m: map<u16, V>, gone: set<u16>, k: u16)
    ensures m - gone - {k} == m - (gone + {k})
  {
  }

  method EraseIf<V>(m: map<u16, V>, doomed: (u16, V) -> bool) returns (kept: map<u16, V>, erased: nat)
    ensures kept == m - Doomed(m, doomed) && erased == |Doomed(m, doomed)|
  {
    ghost var all := Doomed(m, doomed);
    kept, erased := m, 0;
    var left := m.Keys;
    ghost var gone: set<u16> := {};
    while left != {}
      invariant left <= m.Keys && gone == all - left
      invariant kept == m - gone && erased == |gone|
      decreases left
    {
      var k :| k in left;
      left := left - {k};
      if doomed(k, m[k]) {
        assert all - left == gone + {k};
        EraseMore(m, gone, k);
        kept := kept - {k};
        erased := erased + 1;
        gone := gone + {k};
      } else {
        assert all - left == gone;
      }
    }
    assert gone == all;
  }
}
