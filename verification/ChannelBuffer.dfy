/**
 The byte buffer of xchannel.c (xBuffer): valid bytes are data[off..len], space at the front is
 reclaimed by compacting, and the capacity grows by doubling.
 */
module ChannelBuffer {
  import opened Common
  import opened ChannelFraming

  const SIZE_MAX := 0xffff_ffff_ffff_ffff
  const INT_MAX := 0x7fff_ffff
  const FIRST_CAPACITY := 4096

  class Buffer {
    var data: array<Byte>
    var off: nat
    var len: nat

    ghost predicate Valid()
      reads this
    {
      off <= len <= data.Length <= SIZE_MAX
    }

    ghost function Contents(): (c: Bytes)
      requires Valid()
      reads this, data
      ensures |c| == len - off
    {
      data[off..len]
    }

    constructor ()
      ensures Valid() && fresh(data) && data.Length == 0 && Contents() == []
    {
      data, off, len := new Byte[0], 0, 0;
    }

    function Size(): (n: nat)
      requires Valid()
      reads this
    {
      len - off
    }

    // xbuf_consume
    method Consume(n: nat)
      requires Valid()
      modifies this`off, this`len
      ensures Valid()
      ensures Contents() == old(Contents())[if n <= |old(Contents())| then n else |old(Contents())|..]
    {
      if n >= len - off {
        off, len := 0, 0;
      } else {
        off := off + n;
      }
    }

    // The memmove of xbuf_reserve: the valid bytes go to the front of the same block.
    method Compact()
      requires Valid()
      modifies this`off, this`len, data
      ensures Valid() && off == 0 && Contents() == old(Contents())
    {
      var used := len - off;
      forall i | 0 <= i < used {
        data[i] := data[off + i];
      }
      off, len := 0, used;
      assert forall i :: 0 <= i < used ==> Contents()[i] == old(Contents())[i];
    }

    // xbuf_reserve.  It fails only when the doubled capacity would not fit a size_t.
    method Reserve(need: nat) returns (ok: bool)
      requires Valid()
      modifies this`off, this`len, this`data, data
      ensures Valid() && Contents() == old(Contents())
      ensures data == old(data) || fresh(data)
      ensures ok ==> data.Length - len >= need
      ensures !ok ==> |Contents()| + need > (SIZE_MAX + 1) / 2
      ensures data != old(data) ==> data.Length < 2 * (|Contents()| + need) || data.Length == FIRST_CAPACITY
    {
      if need == 0 || data.Length - len >= need {
        return true;
      }
      var used := len - off;
      if off > 0 {
        Compact();
        if data.Length - len >= need {
          return true;
        }
      }
      if used + need > SIZE_MAX {
        return false;
      }
      var cap := if data.Length > 0 then data.Length else FIRST_CAPACITY;
      while cap < used + need
        invariant 0 < cap <= SIZE_MAX
        invariant data.Length <= cap
        invariant cap == data.Length || cap < 2 * (used + need) || cap == FIRST_CAPACITY
        decreases used + need - cap
      {
        if cap > SIZE_MAX / 2 {
          return false;
        }
        cap := cap * 2;
      }
      Grow(cap);
      return true;
    }

    // The realloc of xbuf_reserve.
    method Grow(cap: nat)
      requires Valid() && data.Length <= cap <= SIZE_MAX
      modifies this`data
      ensures Valid() && fresh(data) && data.Length == cap && Contents() == old(Contents())
    {
      var block := new Byte[cap];
      forall i | 0 <= i < data.Length {
        block[i] := data[i];
      }
      data := block;
      assert forall i :: off <= i < len ==> data[i] == old(data[i]);
    }

    // xbuf_append
    method Append(bytes: Bytes) returns (ok: bool)
      requires Valid()
      modifies this`off, this`len, this`data, data
      ensures Valid() && (data == old(data) || fresh(data))
      ensures ok ==> Contents() == old(Contents()) + bytes
      ensures !ok ==> Contents() == old(Contents()) && |Contents()| + |bytes| > (SIZE_MAX + 1) / 2
    {
      if bytes == [] {
        return true;
      }
      ok := Reserve(|bytes|);
      if ok {
        Put(bytes);
      }
    }

    // Bytes written behind the valid ones, by memcpy or by recv.
    method Put(bytes: Bytes)
      requires Valid() && data.Length - len >= |bytes|
      modifies this`len, data
      ensures Valid() && Contents() == old(Contents()) + bytes
    {
      forall i | 0 <= i < |bytes| {
        data[len + i] := bytes[i];
      }
      len := len + |bytes|;
      assert Contents() == old(Contents()) + bytes by {
        assert forall i :: off <= i < old(len) ==> data[i] == old(data[i]);
        assert data[old(len)..len] == bytes;
      }
    }
  }
}
