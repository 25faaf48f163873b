/**
 * The forward-only byte reader (Loader/Loader/DataContainer.cs).
 *
 * The buffer never changes; only `offset` moves, and only forward. A read
 * past the end raises in C# (IndexOutOfRangeException from the array index,
 * ArgumentOutOfRangeException from the Span constructor) before `offset`
 * is touched; here it is `Err(OutOfData)` with `offset` unchanged.
 */
module Cursor {
  import opened Failures
  import opened Helper

  class DataContainer {
    const bytes: seq<byte>
    var offset: nat

    /** The offset stays within the buffer. */
    ghost predicate Valid()
      reads this
    {
      offset <= |bytes|
    }

    constructor (data: seq<byte>)
      ensures bytes == data && offset == 0 && Valid()
    {
      bytes := data;
      offset := 0;
    }

    /** The count of unread bytes; zero once the offset has reached the end. */
    function GetAvailable(): (n: nat)
      reads this
      ensures offset < |bytes| ==> n == |bytes| - offset
      ensures offset >= |bytes| ==> n == 0
      ensures n <= |bytes|
    {
      if offset < |bytes| then |bytes| - offset else 0
    }

    /** The byte at the offset, which then advances by exactly one. */
    method PopByte() returns (r: Result<byte>)
      requires Valid()
      modifies this
      ensures Valid()
      ensures old(offset) < |bytes| ==> r == Ok(bytes[old(offset)]) && offset == old(offset) + 1
      ensures old(offset) >= |bytes| ==> r == Err(OutOfData) && offset == old(offset)
    {
      if offset >= |bytes| {
        return Err(OutOfData);
      }
      r := Ok(bytes[offset]);
      offset := offset + 1;
    }

    /** The next content tag: the same read as PopByte. */
    method PopNextControl() returns (r: Result<byte>)
      requires Valid()
      modifies this
      ensures Valid()
      ensures old(offset) < |bytes| ==> r == Ok(bytes[old(offset)]) && offset == old(offset) + 1
      ensures old(offset) >= |bytes| ==> r == Err(OutOfData) && offset == old(offset)
    {
      r := PopByte();
    }

    /** The byte at the offset, without moving. */
    method PeekByte() returns (r: Result<byte>)
      requires Valid()
      ensures offset < |bytes| ==> r == Ok(bytes[offset])
      ensures offset >= |bytes| ==> r == Err(OutOfData)
    {
      if offset >= |bytes| {
        return Err(OutOfData);
      }
      r := Ok(bytes[offset]);
    }

    /** The next count bytes, without moving; a negative or too large count fails. */
    method PeekBytes(count: int) returns (r: Result<seq<byte>>)
      requires Valid()
      ensures 0 <= count && offset + count <= |bytes| ==> r == Ok(bytes[offset..offset + count])
      ensures !(0 <= count && offset + count <= |bytes|) ==> r == Err(OutOfData)
    {
      if count < 0 || offset + count > |bytes| {
        return Err(OutOfData);
      }
      r := Ok(bytes[offset..offset + count]);
    }

    /** The next count bytes; the offset advances by count, or not at all when they are not there. */
    method PopBytes(count: int) returns (r: Result<seq<byte>>)
      requires Valid()
      modifies this
      ensures Valid()
      ensures 0 <= count && old(offset) + count <= |bytes| ==>
        r == Ok(bytes[old(offset)..old(offset) + count]) && offset == old(offset) + count
      ensures !(0 <= count && old(offset) + count <= |bytes|) ==>
        r == Err(OutOfData) && offset == old(offset)
    {
      if count < 0 || offset + count > |bytes| {
        return Err(OutOfData);
      }
      r := Ok(bytes[offset..offset + count]);
      offset := offset + count;
    }

    /**
     * PopBytes with a 64-bit count. A count with the high bit set yields an
     * empty slice (the C# `null` span) without moving; any other count is
     * cast unchecked to a 32-bit int before PopBytes.
     */
    method PopAlotOfBytes(count: nat) returns (r: Result<seq<byte>>)
      requires Valid()
      requires count < TWO_64
      modifies this
      ensures Valid()
      ensures count >= TWO_63 ==> r == Ok([]) && offset == old(offset)
      ensures count < TWO_63 ==>
        var n := UncheckedToInt32(count);
        if 0 <= n && old(offset) + n <= |bytes|
        then r == Ok(bytes[old(offset)..old(offset) + n]) && offset == old(offset) + n
        else r == Err(OutOfData) && offset == old(offset)
    {
      if count >= TWO_63 {
        return Ok([]);
      }
      r := PopBytes(UncheckedToInt32(count));
    }
  }
}
