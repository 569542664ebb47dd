/** A 64-bit set of indices. The source keeps it in a `u64`; here it is the set of its one bits. */
module BitBoards {

  type BitBoard = b: set<nat> | forall i :: i in b ==> i < 64

  function Set(b: BitBoard, i: nat): (r: BitBoard)
    requires i < 64
    ensures forall j: nat :: j in r <==> j in b || j == i
  {
    b + {i}
  }

  function Clear(b: BitBoard, i: nat): (r: BitBoard)
    ensures forall j: nat :: j in r <==> j in b && j != i
  {
    b - {i}
  }

  predicate Get(b: BitBoard, i: nat)
  {
    i in b
  }

  /** The bits below `n`. */
  function LowerNBits(n: nat): (r: BitBoard)
    requires n <= 64
    ensures forall j: nat :: j in r <==> j < n
  {
    if n == 0 then {} else LowerNBits(n - 1) + {n - 1}
  }

  /** `!b` on the full 64-bit word. */
  function Not(b: BitBoard): (r: BitBoard)
    ensures forall j: nat :: j in r <==> j < 64 && j !in b
  {
    set j: nat | j < 64 && j !in b
  }

  /** `b >> 1` on the 64-bit word: bit `j + 1` moves to bit `j`, bit 0 is dropped. */
  function ShiftRight(b: BitBoard): (r: BitBoard)
    ensures forall j: nat :: j in r <==> j + 1 in b
  {
    var r := set k: nat | 0 < k < 64 && k in b :: k - 1;
    assert forall j: nat :: j + 1 in b ==> j in r by {
      forall j: nat | j + 1 in b ensures j in r {
        var k: nat := j + 1;
        assert k - 1 in r;
      }
    }
    r
  }

  function Count(b: BitBoard): nat
  {
    |b|
  }
}
