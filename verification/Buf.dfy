/** The extensible byte buffer (libopenspotify/buf.c). */
module Bufs {
  import opened Words

  const START_SIZE := 512

  function Power2(k: nat): nat {
    if k == 0 then 1 else 2 * Power2(k - 1)
  }

  /** `size` doubled just often enough that `need` bytes fit. */
  ghost predicate DoubledFor(size: nat, need: nat, now: nat) {
    exists k: nat :: now == size * Power2(k) && need <= now && (k > 0 ==> size * Power2(k - 1) < need)
  }

  lemma {:induction false} DoubleOnce(size: nat, k: nat)
    ensures size * Power2(k) * 2 == size * Power2(k + 1)
  {
  }

  /** `struct buf`. */
  class Buf {
    var ptr: array<Byte>
    var len: nat
    var size: nat

    ghost predicate Valid()
      reads this
    {
      ptr.Length == size && len <= size && 0 < size
    }

    ghost function Contents(): seq<Byte>
      requires Valid()
      reads this, ptr
    {
      ptr[..len]
    }

    constructor ()
      ensures Valid() && fresh(ptr) && Contents() == [] && size == START_SIZE
    {
      ptr, len, size := new Byte[START_SIZE], 0, START_SIZE;
    }

    /** Double the size until `n` more bytes fit. */
    method Extend(n: nat)
      requires Valid()
      modifies this`ptr, this`size
      ensures Valid() && Contents() == old(Contents()) && len + n <= size
      ensures ptr == old(ptr) || fresh(ptr)
      ensures DoubledFor(old(size), len + n, size)
    {
      ghost var k := 0;
      if len + n > size {
        while len + n > size
          invariant old(size) <= size && ptr == old(ptr)
          invariant size == old(size) * Power2(k) && (k > 0 ==> old(size) * Power2(k - 1) < len + n)
          decreases len + n - size
        {
          DoubleOnce(old(size), k);
          size := size * 2;
          k := k + 1;
        }
        var grown := new Byte[size];
        forall i | 0 <= i < ptr.Length {
          grown[i] := ptr[i];
        }
        ptr := grown;
      }
      assert size == old(size) * Power2(k);
    }

    /** Append the first `n` bytes of `data`. */
    method AppendData(data: array<Byte>, n: nat)
      requires Valid() && n <= data.Length && data != ptr
      modifies this, ptr
      ensures Valid() && Contents() == old(Contents()) + old(data[..n])
      ensures ptr == old(ptr) || fresh(ptr)
    {
      Extend(n);
      forall i | 0 <= i < n {
        ptr[len + i] := data[i];
      }
      len := len + n;
    }

    /** Split off the first `n` bytes; the rest moves to the front. */
    method Consume(n: nat) returns (output: Buf)
      requires Valid() && n <= len
      modifies this`len, ptr
      ensures Valid() && fresh(output) && fresh(output.ptr) && output.Valid()
      ensures output.Contents() == old(Contents())[..n] && Contents() == old(Contents())[n..]
    {
      output := new Buf();
      output.Extend(n);
      output.AppendData(ptr, n);
      forall i | 0 <= i < len - n {
        ptr[i] := ptr[n + i];
      }
      len := len - n;
    }
  }
}
