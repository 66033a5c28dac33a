/** The update partition both firmware receivers write to. */
module FlashDevices {
  import opened Bytes

  function Least(a: nat, b: nat): nat {
    if a < b then a else b
  }

  /** How many bytes one write takes: never past the announced size, and possibly fewer. */
  function Taken(size: nat, written: nat, length: nat, limit: nat): (n: nat)
    requires written <= size
    ensures n <= length && written + n <= size
  {
    Least(Least(length, limit), size - written)
  }

  class FlashDevice {
    var size: nat
    var contents: seq<byte>

    method Begin(newSize: nat, ok: bool) returns (began: bool)
      modifies this
      ensures began == ok
      ensures if ok then size == newSize && contents == [] else size == old(size) && contents == old(contents)
    {
      if ok {
        size, contents := newSize, [];
      }
      return ok;
    }

    method Write(data: array<byte>, length: nat, limit: nat) returns (written: nat)
      requires length <= data.Length && |contents| <= size
      modifies this`contents
      ensures written == Taken(size, |old(contents)|, length, limit)
      ensures contents == old(contents) + data[..written]
    {
      written := Taken(size, |contents|, length, limit);
      contents := contents + data[..written];
    }

    method Abort()
      modifies this`contents
      ensures contents == []
    {
      contents := [];
    }
  }
}
