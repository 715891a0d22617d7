/** Dynamic storage: the size checks before realloc, and growing arrays. */
module Allocation {
  import opened Bits
  import opened Schema

  lemma DivisionTest(a: nat, b: nat)
    requires b > 0
    ensures SIZE_MAX / b < a <==> SIZE_MAX < a * b
  {
    var q := SIZE_MAX / b;
    assert q * b <= SIZE_MAX < (q + 1) * b by {
      assert SIZE_MAX == q * b + SIZE_MAX % b;
    }
    if q < a {
      assert (q + 1) * b <= a * b;
    } else {
      assert a * b <= q * b;
    }
  }

  lemma SmallFactors(a: nat, b: nat)
    requires a < TWO_32 && b < TWO_32
    ensures a * b <= SIZE_MAX
  {
    Product(a, TWO_32 - 1, b);
    Product(b, TWO_32 - 1, TWO_32 - 1);
  }

  /** allocate_field's checks: zero sizes are refused, and the division is only made when a factor
      reaches 2^32; together they refuse exactly the products that do not fit size_t. */
  method AllocateField(dataSize: nat, arraySize: nat) returns (ok: bool)
    requires dataSize <= SIZE_MAX && arraySize <= SIZE_MAX
    ensures ok == (dataSize > 0 && arraySize > 0 && dataSize * arraySize < 0x1_0000_0000_0000_0000)
  {
    if dataSize == 0 || arraySize == 0 {
      return false;
    }
    var checkLimit := TWO_32;
    if dataSize >= checkLimit || arraySize >= checkLimit {
      DivisionTest(dataSize, arraySize);
      if SIZE_MAX / arraySize < dataSize {
        return false;
      }
    } else {
      SmallFactors(dataSize, arraySize);
    }
    ok := true;
  }

  /** realloc: a block of the new size holding what the old one held. */
  method Realloc(block: array<Value>, size: nat) returns (grown: array<Value>)
    requires block.Length <= size
    ensures fresh(grown) && grown.Length == size && grown[..block.Length] == block[..]
  {
    grown := new Value[size](_ => Null);
    for i := 0 to block.Length
      invariant grown[..i] == block[..i]
    {
      grown[i] := block[i];
    }
  }

  /** `n` items of `dataSize` bytes are the fewest that take up all the bytes left. */
  predicate Guess(bytesLeft: nat, dataSize: nat, n: int)
  {
    n >= 1 && (n - 1) * dataSize < bytesLeft <= n * dataSize
  }

  /** That many more, or one more if the number would not be countable. */
  ghost predicate Grown(was: nat, now: nat, bytesLeft: nat, dataSize: nat)
  {
    exists n :: Guess(bytesLeft, dataSize, n) && now == was + if was + n < PB_SIZE_MAX then n else 1
  }

  lemma GuessIs(bytesLeft: nat, dataSize: nat, n: int)
    requires bytesLeft > 0 && dataSize > 0 && n == (bytesLeft - 1) / dataSize + 1
    ensures Guess(bytesLeft, dataSize, n)
  {
    var q := (bytesLeft - 1) / dataSize;
    assert bytesLeft - 1 == q * dataSize + (bytesLeft - 1) % dataSize;
    assert (q + 1) * dataSize == q * dataSize + dataSize;
  }

  /** The growth step of a packed array in dynamic storage: when the next item would not fit, room is
      made for as many items as the bytes left can hold, or for one if that many would not be countable. */
  method Grow(block: array<Value>, size: nat, bytesLeft: nat, dataSize: nat) returns (ok: bool, grown: array<Value>)
    requires size <= block.Length <= PB_SIZE_MAX && size < PB_SIZE_MAX && bytesLeft > 0 && 1 <= dataSize <= PB_SIZE_MAX
    ensures ok && size < grown.Length <= PB_SIZE_MAX
    ensures grown[..size] == block[..size]
    ensures grown == block || fresh(grown)
    ensures if size < block.Length then grown == block else Grown(block.Length, grown.Length, bytesLeft, dataSize)
  {
    hide Guess;
    var allocatedSize := block.Length;
    if size + 1 > allocatedSize {
      var remain := (bytesLeft - 1) / dataSize + 1;
      GuessIs(bytesLeft, dataSize, remain);
      if remain < PB_SIZE_MAX - allocatedSize {
        allocatedSize := allocatedSize + remain;
      } else {
        allocatedSize := allocatedSize + 1;
      }
      SmallFactors(dataSize, allocatedSize);
      ok := AllocateField(dataSize, allocatedSize);
      if !ok {
        return false, block;
      }
      grown := Realloc(block, allocatedSize);
      assert grown[..size] == grown[..block.Length][..size];
    } else {
      return true, block;
    }
  }
}
