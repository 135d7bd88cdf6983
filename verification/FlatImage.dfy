/** A block device seen as one flat array of bytes.

    This is the abstract value against which the deblocking code of bio.c is
    specified: a read is a slice of the image, a write splices bytes into it. */
module FlatImage {
  type byte = x: int | 0 <= x < 256

  /** `image` with `data` laid over it from position `at`. */
  function Splice(image: seq<byte>, at: nat, data: seq<byte>): (r: seq<byte>)
    requires at + |data| <= |image|
    ensures |r| == |image|
    ensures forall i :: 0 <= i < |image| ==> r[i] == if at <= i < at + |data| then data[i - at] else image[i]
  {
    image[..at] + data + image[at + |data|..]
  }

  function Zeros(n: nat): (r: seq<byte>)
    ensures |r| == n && forall i :: 0 <= i < n ==> r[i] == 0
  {
    seq(n, _ => 0)
  }

  lemma SpliceWhole(image: seq<byte>, data: seq<byte>)
    requires |image| == |data|
    ensures Splice(image, 0, data) == data
  {
  }

  lemma SliceOfSlice(s: seq<byte>, first: nat, end: nat, from: nat, to: nat)
    requires first <= end <= |s| && from <= to <= end - first
    ensures s[first..end][from..to] == s[first + from..first + to]
  {
    forall i | 0 <= i < to - from
      ensures s[first..end][from..to][i] == s[first + from..first + to][i]
    {
    }
  }

  /** Read, modify, write back: patching a copy of a window and putting the
      window back is patching the image. */
  lemma SpliceWindow(image: seq<byte>, first: nat, end: nat, skip: nat, data: seq<byte>)
    requires first + skip + |data| <= end <= |image|
    ensures Splice(image, first, Splice(image[first..end], skip, data)) == Splice(image, first + skip, data)
  {
  }

  /** One successful request on the flat image. */
  datatype Op =
    | Read(offset: nat, len: nat)
    | Write(offset: nat, data: seq<byte>)
    | Erase(offset: nat, len: nat)
  {
    /** The number of bytes asked for. */
    function Asked(): nat {
      if Write? then |data| else len
    }

    /** The number of bytes a device of `size` bytes handles for this request: as
        many of those asked for as the device has from the offset on. */
    function Handled(size: nat): (n: nat)
      ensures n <= Asked() && (n == 0 || offset + n <= size)
      ensures n == Asked() || offset + n >= size
    {
      var len := Asked();
      if offset >= size then 0 else if offset + len > size then size - offset else len
    }

    predicate Covers(size: nat, i: nat) {
      !Read? && offset <= i < offset + Handled(size)
    }

    /** The byte this request leaves at a position that it covers. */
    function ByteAt(size: nat, i: nat): byte
      requires Covers(size, i)
    {
      if Write? then data[i - offset] else 0
    }

    function Apply(image: seq<byte>): (r: seq<byte>)
      ensures |r| == |image|
    {
      var n := Handled(|image|);
      if n == 0 then image
      else match this
        case Read(_, _) => image
        case Write(offset, data) => Splice(image, offset, data[..n])
        case Erase(offset, _) => Splice(image, offset, Zeros(n))
    }
  }

  /** A request reaches exactly the bytes it asks for that the device has: it
      leaves the data there or zeros, and reading and all else change nothing. */
  lemma ApplyAt(op: Op, image: seq<byte>, i: nat)
    requires i < |image|
    ensures op.Covers(|image|, i) <==> !op.Read? && op.offset <= i < op.offset + op.Asked()
    ensures op.Read? ==> op.Apply(image) == image
    ensures op.Write? ==>
      op.Apply(image)[i] == if op.offset <= i < op.offset + |op.data| then op.data[i - op.offset] else image[i]
    ensures op.Erase? ==>
      op.Apply(image)[i] == if op.offset <= i < op.offset + op.len then 0 else image[i]
  {
  }

  function ApplyAll(image: seq<byte>, ops: seq<Op>): (r: seq<byte>)
    ensures |r| == |image|
  {
    if ops == [] then image else ops[|ops| - 1].Apply(ApplyAll(image, ops[..|ops| - 1]))
  }

  lemma ApplyOneMore(image: seq<byte>, ops: seq<Op>, op: Op)
    ensures ApplyAll(image, ops + [op]) == op.Apply(ApplyAll(image, ops))
  {
    assert (ops + [op])[..|ops|] == ops;
  }

  /** The index of the last request that covers byte `i`, or -1. */
  function LastCover(size: nat, ops: seq<Op>, i: nat): (k: int)
    ensures -1 <= k < |ops|
    ensures k >= 0 ==> ops[k].Covers(size, i)
    ensures forall j :: k < j < |ops| ==> !ops[j].Covers(size, i)
  {
    if ops == [] then -1
    else if ops[|ops| - 1].Covers(size, i) then |ops| - 1
    else LastCover(size, ops[..|ops| - 1], i)
  }

  /** After any run of requests every byte holds what the last request that
      covered it put there, and its first value when none did. */
  lemma {:induction false} LastWriteWins(image: seq<byte>, ops: seq<Op>, i: nat)
    requires i < |image|
    ensures var k := LastCover(|image|, ops, i);
            ApplyAll(image, ops)[i] == if k < 0 then image[i] else ops[k].ByteAt(|image|, i)
  {
    if ops != [] {
      LastWriteWins(image, ops[..|ops| - 1], i);
    }
  }
}
