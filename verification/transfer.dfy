/** The bounded copy primitives `read` and `write` of userspace/xzminidec.c.
    Buffers are values: each method returns the buffer it writes into, so the
    source and the destination are distinct by construction (the C code
    assumes its pointers do not alias). */
module Transfer {
  import opened Bytes

  /** `read`: copies up to `length` bytes of `src` from `offset` on into the
      start of `ptr`, stopping as soon as `offset + i` reaches `srcLen`.
      The count is the only sign that the source ran out. */
  method Read(ptr: seq<byte>, offset: nat, length: nat, src: seq<byte>, srcLen: nat)
    returns (n: nat, ptr': seq<byte>)
    requires length <= |ptr|
    requires srcLen <= |src|
    ensures n == Clamp(offset, length, srcLen)
    ensures n > 0 ==> offset + n <= srcLen
    ensures n == 0 ==> ptr' == ptr
    ensures n > 0 ==> ptr' == Patch(ptr, 0, src[offset..offset + n])
  {
    ptr' := ptr;
    var i: nat := 0;
    while i < length
      invariant i <= length
      invariant i > 0 ==> offset + i <= srcLen
      invariant |ptr'| == |ptr|
      invariant forall j :: 0 <= j < i ==> ptr'[j] == src[offset + j]
      invariant ptr'[i..] == ptr[i..]
    {
      if i + offset >= srcLen {
        break;
      }
      ptr' := ptr'[i := src[i + offset]];
      i := i + 1;
    }
    n := i;
    if n > 0 {
      assert ptr'[..n] == src[offset..offset + n];
      assert ptr' == ptr'[..n] + ptr'[n..];
    }
  }

  /** `write`: copies up to `length` bytes from the start of `ptr` into
      `target` from `offset` on, stopping as soon as `offset + i` reaches
      `targetLen`; nothing at or beyond `targetLen` is touched. */
  method Write(ptr: seq<byte>, offset: nat, length: nat, target: seq<byte>, targetLen: nat)
    returns (n: nat, target': seq<byte>)
    requires length <= |ptr|
    requires targetLen <= |target|
    ensures n == Clamp(offset, length, targetLen)
    ensures n > 0 ==> offset + n <= targetLen
    ensures n == 0 ==> target' == target
    ensures n > 0 ==> target' == Patch(target, offset, ptr[..n])
  {
    target' := target;
    var i: nat := 0;
    while i < length
      invariant i <= length
      invariant i > 0 ==> offset + i <= targetLen
      invariant |target'| == |target|
      invariant forall j :: 0 <= j < |target| && !(offset <= j < offset + i) ==> target'[j] == target[j]
      invariant forall j :: 0 <= j < i ==> target'[offset + j] == ptr[j]
    {
      if i + offset >= targetLen {
        break;
      }
      target' := target'[i + offset := ptr[i]];
      i := i + 1;
    }
    n := i;
    if n > 0 {
      assert target'[..offset] == target[..offset];
      assert target'[offset..offset + n] == ptr[..n];
      assert target'[offset + n..] == target[offset + n..];
      assert target' == target'[..offset] + target'[offset..offset + n] + target'[offset + n..];
    }
  }
}
