/** The growable byte buffer that the writer appends to and the parser decodes into. */
module Buffers {
  import opened Bytes

  const BUFFER_MIN_CAP: nat := 128
  const SIZE_MAX: nat := 0xFFFF_FFFF_FFFF_FFFF

  /** A text for which doubling the capacity could overflow. */
  predicate Huge(n: nat) { n >= SIZE_MAX / 2 }

  /** Memory, as far as it matters here: each request is granted or refused, by a schedule that nobody in the program decides. */
  class Allocator {
    const grants: nat -> bool
    var requests: nat

    constructor (grants: nat -> bool)
      ensures this.grants == grants && requests == 0
    {
      this.grants := grants;
      requests := 0;
    }

    method Request() returns (granted: bool)
      modifies this
      ensures requests == old(requests) + 1 && granted == grants(old(requests))
    {
      granted := grants(requests);
      requests := requests + 1;
    }

    /** No request has been refused since the one with this number. */
    ghost predicate Granted(from: nat)
      reads this
    {
      forall i :: from <= i < requests ==> grants(i)
    }
  }

  class Buffer {
    const heap: Allocator
    var data: array?<byte>
    var len: nat
    var cap: nat

    /** Once memory exists it is always a NUL-terminated C string of length `len` or more. */
    ghost predicate Valid()
      reads this, data
    {
      if data == null then len == 0 && cap == 0
      else data.Length == cap && len < cap && data[len] == NUL
    }

    ghost function Contents(): (c: bytes)
      reads this, data
      requires Valid()
      ensures |c| == len
    {
      if data == null then [] else data[..len]
    }

    constructor (heap: Allocator)
      ensures Valid() && Contents() == [] && data == null && this.heap == heap
    {
      this.heap := heap;
      data, len, cap := null, 0, 0;
    }

    /** `buffer_reset`: forgets the text, keeps the memory. */
    method Reset()
      requires Valid()
      modifies this, data
      ensures Valid() && Contents() == []
      ensures data == old(data) && cap == old(cap)
    {
      len := 0;
      if data != null {
        data[0] := NUL;
      }
    }

    /** `buffer_reserve`. The allocator may refuse, or the size overflow; then nothing has changed. */
    method Reserve(extra: nat) returns (ok: bool)
      requires Valid()
      modifies this, heap
      ensures heap.requests >= old(heap.requests)
      ensures !ok ==> !heap.Granted(old(heap.requests)) || Huge(len + extra)
      ensures Valid() && Contents() == old(Contents())
      ensures data == old(data) || fresh(data)
      ensures ok ==> data != null && len + extra < cap
      ensures !ok ==> data == old(data) && cap == old(cap)
      ensures cap == old(cap) || cap == BUFFER_MIN_CAP || cap < 2 * (len + extra + 1)
    {
      var needed := len + extra + 1;
      if needed <= cap {
        return true;
      }
      var newCap := if cap == 0 then BUFFER_MIN_CAP else cap;
      while newCap < needed
        invariant newCap > 0 && newCap >= cap
        invariant newCap == cap || newCap == BUFFER_MIN_CAP || newCap < 2 * needed
      {
        if newCap > SIZE_MAX / 2 {
          return false;
        }
        newCap := newCap * 2;
      }
      var granted := heap.Request();
      if !granted {
        return false;
      }
      var grown := new byte[newCap];
      if data != null {
        forall i | 0 <= i < len {
          grown[i] := data[i];
        }
      }
      grown[len] := NUL;
      data := grown;
      cap := newCap;
      return true;
    }

    /** `buffer_append`: all of the bytes, or none of them. */
    method Append(b: bytes) returns (ok: bool)
      requires Valid()
      modifies this, data, heap
      ensures Valid()
      ensures data == old(data) || fresh(data)
      ensures heap.requests >= old(heap.requests)
      ensures !ok ==> !heap.Granted(old(heap.requests)) || Huge(old(len) + |b|)
      ensures ok ==> data != null && Contents() == old(Contents()) + b
      ensures !ok ==> Contents() == old(Contents())
    {
      if |b| == 0 {
        ok := Reserve(0);
        return;
      }
      ok := Reserve(|b|);
      if !ok {
        return;
      }
      forall i | 0 <= i < |b| {
        data[len + i] := b[i];
      }
      len := len + |b|;
      data[len] := NUL;
    }

    /** `buffer_append_str`. */
    method AppendStr(text: bytes) returns (ok: bool)
      requires Valid()
      modifies this, data, heap
      ensures Valid()
      ensures data == old(data) || fresh(data)
      ensures heap.requests >= old(heap.requests)
      ensures !ok ==> !heap.Granted(old(heap.requests)) || Huge(old(len) + |CStr(text)|)
      ensures ok ==> data != null && Contents() == old(Contents()) + CStr(text)
      ensures !ok ==> Contents() == old(Contents())
    {
      ok := Append(CStr(text));
    }
  }
}
