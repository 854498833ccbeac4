/** Memory with a size and a capacity, as the relay uses it to hold what could not be sent. */
module MemoryBuffers {
  import opened Octets

  class MemoryBuffer {
    var mPtr: array?<byte>
    var mSize: nat

    ghost predicate Valid()
      reads this
    {
      mSize <= Capacity()
    }

    function Capacity(): nat
      reads this
    {
      if mPtr == null then 0 else mPtr.Length
    }

    ghost function Repr(): set<object>
      reads this
    {
      if mPtr == null then {this} else {this, mPtr}
    }

    ghost function Contents(): seq<byte>
      reads this, Repr()
    {
      if mSize > Capacity() || mPtr == null then [] else mPtr[..mSize]
    }

    constructor ()
      ensures Valid() && mPtr == null && Contents() == []
    {
      mPtr, mSize := null, 0;
    }

    method Allocate(capacity: nat)
      modifies this
      ensures Valid() && mPtr != null && fresh(mPtr) && Capacity() == capacity && Contents() == []
    {
      mPtr := new byte[capacity];
      mSize := 0;
    }

    /** Copies as much as there is room for. */
    method CopyFrom(octets: seq<byte>) returns (copySize: nat)
      requires Valid()
      modifies Repr()
      ensures Valid() && mPtr == old(mPtr)
      ensures copySize == if Capacity() > |octets| then |octets| else Capacity()
      ensures Contents() == octets[..copySize]
    {
      copySize := if Capacity() > |octets| then |octets| else Capacity();
      if mPtr != null {
        forall i | 0 <= i < copySize {
          mPtr[i] := octets[i];
        }
      }
      mSize := copySize;
    }

    method SetSize(size: nat)
      requires Valid() && size <= mSize
      modifies this`mSize
      ensures Valid() && Contents() == old(Contents())[..size]
    {
      mSize := size;
    }
  }
}
