/** Byte-granular access to a block device: reading, writing and erasing any
    byte range with whole-block transfers only (bio.c).

    The driver below is abstract.  Its block hooks either move whole blocks or
    fail and leave the medium alone; which call fails, and how, is the
    arbitrary function `outcome` of the call number. */
module BlockDevice {
  import opened FlatImage

  datatype Request = ReadBlocks(block: nat, count: nat) | WriteBlocks(block: nat, count: nat)

  /** The byte-level write hook: the deblocking default, or a driver's own hook
      that on its n-th call accepts at most `accept(n)` bytes or fails. */
  datatype WriteHook = Deblock | Own(accept: nat -> int)

  const ERASE_BUF_SIZE: nat := 4096

  function Min(a: nat, b: nat): (r: nat)
    ensures r <= a && r <= b && (r == a || r == b)
  {
    if a < b then a else b
  }

  /** The first byte of a block, for blocks of `bs` bytes. */
  function Start(bs: nat, block: nat): nat {
    block * bs
  }

  lemma StartAdds(bs: nat, a: nat, b: nat)
    ensures Start(bs, a + b) == Start(bs, a) + Start(bs, b)
    ensures Start(bs, 1) == bs
  {
  }

  lemma StartGrows(bs: nat, a: nat, b: nat)
    ensures a <= b ==> Start(bs, a) <= Start(bs, b)
    ensures bs > 0 && Start(bs, a) <= Start(bs, b) ==> a <= b
  {
    if a <= b {
      StartAdds(bs, a, b - a);
    } else {
      StartAdds(bs, b + 1, a - b - 1);
      StartAdds(bs, b, 1);
    }
  }

  /** A byte position is the start of its block plus its place in the block. */
  lemma StartOf(bs: nat, position: nat)
    requires bs > 0
    ensures position == Start(bs, position / bs) + position % bs && position % bs < bs
  {
  }

  /** Bytes of the request that lie in a first, partly covered block. */
  function HeadBytes(bs: nat, offset: nat, len: nat): (n: nat)
    requires bs > 0
    ensures n <= len
  {
    if offset % bs == 0 then 0 else Min(bs - offset % bs, len)
  }

  /** Bytes of the request that are moved as whole blocks. */
  function MiddleBytes(bs: nat, offset: nat, len: nat): (n: nat)
    requires bs > 0
    ensures HeadBytes(bs, offset, len) + n <= len
  {
    var rest := len - HeadBytes(bs, offset, len);
    StartOf(bs, rest);
    Start(bs, rest / bs)
  }

  /** How many bytes have reached the medium when hook call number `n` of a
      write (counting from one) is the one that fails: nothing, the head
      fragment, or the head and all whole blocks. */
  function Landed(bs: nat, offset: nat, len: nat, n: nat): (k: nat)
    requires bs > 0
    ensures k <= len
  {
    var head, mid := HeadBytes(bs, offset, len), MiddleBytes(bs, offset, len);
    var headCalls := if head > 0 then 2 else 0;
    var midCalls := if mid > 0 then 1 else 0;
    if n <= headCalls then 0 else if n <= headCalls + midCalls then head else head + mid
  }

  /** Hook calls of a complete write: two for each partly covered block, one for
      all whole blocks. */
  function WriteCalls(bs: nat, offset: nat, len: nat): (n: nat)
    requires bs > 0
    ensures n > 0 <==> len > 0
  {
    var head, mid := HeadBytes(bs, offset, len), MiddleBytes(bs, offset, len);
    (if head > 0 then 2 else 0) + (if mid > 0 then 1 else 0) + (if head + mid < len then 2 else 0)
  }

  /** What a driver's own hook returns for `len` bytes. */
  function Taken(verdict: int, len: nat): (r: int)
    ensures r <= len && r <= verdict && (r == verdict || r == len)
  {
    if verdict < 0 then verdict else Min(verdict, len)
  }

  /** `Landed` for a read, whose head takes one hook call. */
  function Fetched(bs: nat, offset: nat, len: nat, n: nat): (k: nat)
    requires bs > 0
    ensures k <= len
  {
    var head, mid := HeadBytes(bs, offset, len), MiddleBytes(bs, offset, len);
    var headCalls := if head > 0 then 1 else 0;
    var midCalls := if mid > 0 then 1 else 0;
    if n <= headCalls then 0 else if n <= headCalls + midCalls then head else head + mid
  }

  /** A request takes at most five hook calls, and a single one if it is made of
      whole blocks; in that one nothing lands before it succeeds. */
  lemma FewCalls(bs: nat, offset: nat, len: nat)
    requires bs > 0
    ensures WriteCalls(bs, offset, len) <= 5
    ensures offset % bs == 0 && len % bs == 0 && len > 0 ==> WriteCalls(bs, offset, len) == 1
  {
    hide Start;
    StartOf(bs, len);
  }

  /** The head of a request ends at a block boundary, and so do its whole blocks. */
  lemma PartsEndBlocks(bs: nat, offset: nat, len: nat)
    requires bs > 0
    ensures var head, mid := HeadBytes(bs, offset, len), MiddleBytes(bs, offset, len);
            var first := if offset % bs == 0 then offset / bs else offset / bs + 1;
            head < len ==>
              && offset + head == Start(bs, first)
              && offset + head + mid == Start(bs, first + (len - head) / bs)
  {
    hide Start;
    var head := HeadBytes(bs, offset, len);
    var first := if offset % bs == 0 then offset / bs else offset / bs + 1;
    StartOf(bs, offset);
    StartAdds(bs, offset / bs, 1);
    StartAdds(bs, first, (len - head) / bs);
  }

  /** What has landed, or been fetched, when a call fails ends at a block boundary. */
  lemma LandsInBlocks(bs: nat, offset: nat, len: nat, n: nat, k: nat)
    requires bs > 0 && 0 < k < len
    requires k == Landed(bs, offset, len, n) || k == Fetched(bs, offset, len, n)
    ensures exists block: nat :: offset + k == Start(bs, block)
  {
    hide Start, HeadBytes, MiddleBytes;
    PartsEndBlocks(bs, offset, len);
  }

  /** A buffer that held `was` after the first `k` bytes of a read of `image` from `offset`. */
  ghost function Filled(was: seq<byte>, image: seq<byte>, offset: nat, k: nat): seq<byte>
    requires k <= |was| && offset + k <= |image|
  {
    Splice(was, 0, image[offset..offset + k])
  }

  lemma FillMore(was: seq<byte>, image: seq<byte>, offset: nat, a: nat, b: nat)
    requires a + b <= |was| && offset + a + b <= |image|
    ensures Splice(Filled(was, image, offset, a), a, image[offset + a..offset + a + b])
         == Filled(was, image, offset, a + b)
    ensures Filled(was, image, offset, 0) == was
  {
    assert image[offset..offset + a + b] == image[offset..offset + a] + image[offset + a..offset + a + b];
  }

  lemma FilledAt(was: seq<byte>, image: seq<byte>, offset: nat, k: nat)
    requires k <= |was| && offset + k <= |image|
    ensures |Filled(was, image, offset, k)| == |was|
    ensures forall i :: 0 <= i < |was| ==>
      Filled(was, image, offset, k)[i] == if i < k then image[offset + i] else was[i]
  {
  }

  /** An image `was` after the first `k` bytes of a write of `data` at `offset`. */
  ghost function Laid(was: seq<byte>, offset: nat, data: seq<byte>, k: nat): seq<byte>
    requires k <= |data| && offset + k <= |was|
  {
    Splice(was, offset, data[..k])
  }

  lemma LayMore(was: seq<byte>, offset: nat, data: seq<byte>, a: nat, b: nat)
    requires a + b <= |data| && offset + a + b <= |was|
    ensures |Laid(was, offset, data, a)| == |was|
    ensures Splice(Laid(was, offset, data, a), offset + a, data[a..a + b]) == Laid(was, offset, data, a + b)
    ensures Laid(was, offset, data, 0) == was
  {
    assert data[..a + b] == data[..a] + data[a..a + b];
  }

  lemma LaidAt(was: seq<byte>, offset: nat, data: seq<byte>, k: nat)
    requires k <= |data| && offset + k <= |was|
    ensures |Laid(was, offset, data, k)| == |was|
    ensures forall i :: 0 <= i < |was| ==>
      Laid(was, offset, data, k)[i] == if offset <= i < offset + k then data[i - offset] else was[i]
  {
  }

  lemma ZeroMore(was: seq<byte>, now: seq<byte>, offset: nat, a: nat, b: nat, zeros: seq<byte>)
    requires offset + a + b <= |was| == |now| && b <= |zeros| && now == Splice(was, offset, Zeros(a))
    requires forall i :: 0 <= i < |zeros| ==> zeros[i] == 0
    ensures Laid(now, offset + a, zeros, b) == Splice(was, offset, Zeros(a + b))
  {
  }

  // ----- Erasing -----

  /** How many of `n` hook calls from number `from` succeed before one fails. */
  function Successes(outcome: nat -> int, from: nat, n: nat): (k: nat)
    ensures k <= n && (k < n ==> outcome(from + k) < 0)
    ensures forall j :: from <= j < from + k ==> outcome(j) >= 0
    decreases n
  {
    if n == 0 || outcome(from) < 0 then 0 else 1 + Successes(outcome, from + 1, n - 1)
  }

  /** A write of `len` bytes at `offset` whose first hook call is number `call`:
      what it returns, the bytes that reach the medium, the number of the next call. */
  datatype Written = Written(ret: int, laid: nat, calls: nat)

  function WriteRun(hook: WriteHook, outcome: nat -> int, bs: nat, offset: nat, len: nat, call: nat): (w: Written)
    requires bs > 0
    ensures w.laid <= len && (w.ret >= 0 ==> w.ret == w.laid) && call <= w.calls
  {
    match hook
    case Own(accept) =>
      var ret := Taken(accept(call), len);
      Written(ret, if ret < 0 then 0 else ret, call + 1)
    case Deblock =>
      var all := WriteCalls(bs, offset, len);
      var k := Successes(outcome, call, all);
      if k == all then Written(len, len, call + all)
      else Written(outcome(call + k), Landed(bs, offset, len, k + 1), call + k + 1)
  }

  /** An erase: the bytes it counts as cleared, those that reached the medium as
      zeros, and the number of the next hook call. */
  datatype Erased = Erased(cleared: nat, laid: nat, calls: nat)
  {
    /** The same erase with `n` bytes cleared before it. */
    function After(n: nat): Erased {
      Erased(n + cleared, n + laid, calls)
    }
  }

  function EraseRun(hook: WriteHook, outcome: nat -> int, bs: nat, offset: nat, len: nat, call: nat): (e: Erased)
    requires bs > 0
    ensures e.cleared <= e.laid <= len && call <= e.calls
    decreases len
  {
    if len == 0 then Erased(0, 0, call) else
      var chunk := Min(len, ERASE_BUF_SIZE);
      var w := WriteRun(hook, outcome, bs, offset, chunk, call);
      if w.ret < 0 then Erased(0, w.laid, w.calls)
      else if w.ret < chunk then Erased(w.laid, w.laid, w.calls)
      else
        EraseRun(hook, outcome, bs, offset + chunk, len - chunk, w.calls).After(chunk)
  }

  /** What an erase of `len` bytes returns after `cleared` of them: the length
      when all are done, else the absolute position it stopped at. */
  function EraseResult(offset: nat, len: nat, cleared: nat): nat {
    if cleared == len then len else offset + cleared
  }

  /** The places at which an erase of `len` bytes can stop early.  The deblocking
      write does all or fails, so there they are the starts of its chunks. */
  predicate StopsAt(own: bool, len: nat, cleared: nat) {
    cleared < len && (own || cleared % ERASE_BUF_SIZE == 0)
  }

  /** The size of the chunk that begins at or before position `done` of `len` bytes. */
  function ChunkAt(len: nat, done: nat): (n: nat)
    requires done < len
  {
    Min(ERASE_BUF_SIZE, len - (done - done % ERASE_BUF_SIZE))
  }

  /** A write falls short right after a hook call that failed, or took less. */
  lemma ShortHasCause(hook: WriteHook, outcome: nat -> int, bs: nat, offset: nat, len: nat, call: nat)
    requires bs > 0 && len > 0
    ensures var w := WriteRun(hook, outcome, bs, offset, len, call);
            && call < w.calls && w.ret <= len
            && (w.ret < len ==> if hook.Own? then hook.accept(w.calls - 1) < len else w.ret == outcome(w.calls - 1) < 0)
            && (hook.Deblock? && w.ret == len ==> forall k :: call <= k < w.calls ==> outcome(k) >= 0)
  {
    hide WriteCalls, Landed;
  }

  lemma ChunkShifts(own: bool, len: nat, done: nat)
    requires done < len
    ensures done < ERASE_BUF_SIZE ==> ChunkAt(len, done) == Min(ERASE_BUF_SIZE, len)
    ensures done < ERASE_BUF_SIZE ==> (StopsAt(own, len, done) <==> own || done == 0)
    ensures ChunkAt(ERASE_BUF_SIZE + len, ERASE_BUF_SIZE + done) == ChunkAt(len, done)
    ensures StopsAt(own, ERASE_BUF_SIZE + len, ERASE_BUF_SIZE + done) == StopsAt(own, len, done)
  {
  }

  /** One chunk of an erase. */
  lemma EraseStep(hook: WriteHook, outcome: nat -> int, bs: nat, offset: nat, len: nat, call: nat)
    requires bs > 0
    ensures var e, chunk := EraseRun(hook, outcome, bs, offset, len, call), Min(len, ERASE_BUF_SIZE);
            var w := WriteRun(hook, outcome, bs, offset, chunk, call);
            && (len == 0 ==> e == Erased(0, 0, call))
            && (len > 0 && w.ret < 0 ==> e == Erased(0, w.laid, w.calls))
            && (0 <= w.ret < chunk ==> e == Erased(w.laid, w.laid, w.calls))
            && (len > 0 && w.ret >= chunk ==>
                  e == EraseRun(hook, outcome, bs, offset + chunk, len - chunk, w.calls).After(chunk))
  {
    hide WriteRun;
  }

  /** An early stop of an erase is at one of those places, right after a hook call
      that failed, or that took less than it was given. */
  lemma {:induction false} StopsHaveCause(
    hook: WriteHook, outcome: nat -> int, bs: nat, offset: nat, len: nat, call: nat)
    requires bs > 0
    ensures var e := EraseRun(hook, outcome, bs, offset, len, call);
            e.cleared < len ==>
              && StopsAt(hook.Own?, len, e.cleared) && call < e.calls
              && (if hook.Own? then hook.accept(e.calls - 1) < ChunkAt(len, e.cleared) else outcome(e.calls - 1) < 0)
    decreases len
  {
    hide WriteRun, EraseRun, StopsAt, ChunkAt;
    var e := EraseRun(hook, outcome, bs, offset, len, call);
    EraseStep(hook, outcome, bs, offset, len, call);
    if len > 0 {
      var chunk := Min(len, ERASE_BUF_SIZE);
      var w := WriteRun(hook, outcome, bs, offset, chunk, call);
      ShortHasCause(hook, outcome, bs, offset, chunk, call);
      if w.ret != chunk {
        ChunkShifts(hook.Own?, len, e.cleared);
      } else if e.cleared < len {
        ChunkShifts(hook.Own?, len - chunk, e.cleared - chunk);
        StopsHaveCause(hook, outcome, bs, offset + chunk, len - chunk, w.calls);
      }
    }
  }

  /** With the deblocking write a complete erase had no failing hook call. */
  lemma {:induction false} CompleteWithoutFailure(outcome: nat -> int, bs: nat, offset: nat, len: nat, call: nat)
    requires bs > 0
    ensures var e := EraseRun(Deblock, outcome, bs, offset, len, call);
            e.cleared == len ==> forall k :: call <= k < e.calls ==> outcome(k) >= 0
    decreases len
  {
    hide WriteRun, EraseRun;
    EraseStep(Deblock, outcome, bs, offset, len, call);
    if len > 0 {
      var chunk := Min(len, ERASE_BUF_SIZE);
      var w := WriteRun(Deblock, outcome, bs, offset, chunk, call);
      ShortHasCause(Deblock, outcome, bs, offset, chunk, call);
      if w.ret == chunk {
        CompleteWithoutFailure(outcome, bs, offset + chunk, len - chunk, w.calls);
      }
    }
  }

  /** Hook calls of erasing the first `c` bytes, where those are whole chunks. */
  function EraseCalls(bs: nat, offset: nat, c: nat): nat
    requires bs > 0
    decreases c
  {
    if c < ERASE_BUF_SIZE then 0
    else WriteCalls(bs, offset, ERASE_BUF_SIZE) + EraseCalls(bs, offset + ERASE_BUF_SIZE, c - ERASE_BUF_SIZE)
  }

  /** Block hooks of which exactly call `n` fails. */
  function FailingAt(n: nat): nat -> int {
    k => if k == n then -1 else 0
  }

  /** A driver's hook that takes everything up to call `n`, which takes `some` bytes. */
  function ShortAt(n: nat, some: nat): WriteHook {
    Own(k => if k == n then some else ERASE_BUF_SIZE)
  }

  lemma WriteBefore(bs: nat, offset: nat, len: nat, call: nat, n: nat)
    requires bs > 0 && len > 0
    ensures var w, all := WriteRun(Deblock, FailingAt(n), bs, offset, len, call), WriteCalls(bs, offset, len);
            && (n >= call + all ==> w == Written(len, len, call + all))
            && (n == call ==> w == Written(-1, 0, call + 1))
  {
    hide WriteCalls;
    assert n == call ==> FailingAt(n)(call) < 0;
  }

  lemma {:induction false} DeblockStops(bs: nat, offset: nat, len: nat, c: nat, call: nat)
    requires bs > 0 && StopsAt(false, len, c)
    ensures var n := call + EraseCalls(bs, offset, c);
            EraseRun(Deblock, FailingAt(n), bs, offset, len, call) == Erased(c, c, n + 1)
    decreases c
  {
    hide WriteCalls, WriteRun, EraseRun;
    var n := call + EraseCalls(bs, offset, c);
    EraseStep(Deblock, FailingAt(n), bs, offset, len, call);
    WriteBefore(bs, offset, Min(len, ERASE_BUF_SIZE), call, n);
    if c > 0 {
      var all := WriteCalls(bs, offset, ERASE_BUF_SIZE);
      DeblockStops(bs, offset + ERASE_BUF_SIZE, len - ERASE_BUF_SIZE, c - ERASE_BUF_SIZE, call + all);
    }
  }

  lemma {:induction false} OwnStops(outcome: nat -> int, bs: nat, offset: nat, len: nat, c: nat, call: nat)
    requires bs > 0 && StopsAt(true, len, c)
    ensures var n := call + c / ERASE_BUF_SIZE;
            EraseRun(ShortAt(n, c % ERASE_BUF_SIZE), outcome, bs, offset, len, call) == Erased(c, c, n + 1)
    decreases c
  {
    if c >= ERASE_BUF_SIZE {
      OwnStops(outcome, bs, offset + ERASE_BUF_SIZE, len - ERASE_BUF_SIZE, c - ERASE_BUF_SIZE, call + 1);
    }
  }

  /** When the returned number tells a finished erase from an unfinished one:
      stopping at the absolute position `len` looks like success. */
  predicate Tells(own: bool, offset: nat, len: nat) {
    offset == 0 || offset > len || (!own && (len - offset) % ERASE_BUF_SIZE != 0)
  }

  /** The returned number is the length for finished erases only, whatever the
      hooks do, exactly when `Tells`; for both kinds of write hook. */
  lemma EraseResultTellsCompletion(own: bool, bs: nat, offset: nat, len: nat)
    requires bs > 0
    ensures Tells(own, offset, len) <==>
      forall hook: WriteHook, outcome: nat -> int, call: nat
        {:trigger EraseRun(hook, outcome, bs, offset, len, call)} ::
        hook.Own? == own ==>
          var cleared := EraseRun(hook, outcome, bs, offset, len, call).cleared;
          EraseResult(offset, len, cleared) == len ==> cleared == len
  {
    hide EraseRun, EraseCalls;
    forall hook: WriteHook, outcome: nat -> int, call: nat | hook.Own? == own {
      StopsHaveCause(hook, outcome, bs, offset, len, call);
    }
    if !Tells(own, offset, len) {
      var c := len - offset;
      if own {
        OwnStops(FailingAt(0), bs, offset, len, c, 0);
      } else {
        DeblockStops(bs, offset, len, c, 0);
      }
    }
  }

  lemma ApplyIsLaid(was: seq<byte>, offset: nat, data: seq<byte>, laid: nat)
    requires 0 < laid <= |data| && offset + laid <= |was|
    ensures Op.Write(offset, data[..laid]).Apply(was) == Laid(was, offset, data, laid)
  {
    assert data[..laid][..laid] == data[..laid];
  }

  lemma SubBuffer(buf: array<byte>, from: nat, n: nat)
    requires from + n <= buf.Length
    ensures buf[..][from..from + n] == buf[from..from + n]
  {
  }

  method MemCopy(dst: array<byte>, at: nat, src: array<byte>, from: nat, n: nat)
    requires dst != src && at + n <= dst.Length && from + n <= src.Length
    modifies dst
    ensures dst[..] == Splice(old(dst[..]), at, src[from..from + n])
  {
    forall i | 0 <= i < n {
      dst[at + i] := src[from + i];
    }
  }

  class Bdev {
    const blockSize: nat
    const blockCount: nat
    const size: nat
    const outcome: nat -> int
    const writeHook: WriteHook
    var image: seq<byte>
    var calls: nat
    var trace: seq<Request>
    // The first image and the requests that changed it since: the bytes that a
    // write or an erase got to the medium.  Reads change nothing and are not kept.
    ghost const first: seq<byte>
    ghost var history: seq<Op>

    ghost predicate Valid()
      reads this
    {
      blockSize > 0 && size == Start(blockSize, blockCount) && |image| == size
    }

    predicate InRange(r: Request) {
      r.count > 0 && r.block + r.count <= blockCount
    }

    /** A transfer of `len` bytes from `offset` stands at `done` bytes, next at `block`. */
    ghost predicate At(offset: nat, len: nat, done: nat, block: nat) {
      done <= len && (done < len ==> offset + done == Start(blockSize, block))
    }

    /** All requests since then are inside the device. */
    ghost predicate Traced(before: seq<Request>)
      reads this`trace
    {
      before <= trace && (forall k :: |before| <= k < |trace| ==> InRange(trace[k]))
    }

    /** Since call number `from` hook calls were made, all inside the device and
        all successful up to the last, which failed with `err` if `err < 0`. */
    ghost predicate Ran(before: seq<Request>, from: nat, err: int)
      reads this`trace, this`calls
    {
      && Traced(before) && from <= calls
      && (err >= 0 ==> forall k :: from <= k < calls ==> outcome(k) >= 0)
      && (err < 0 ==> from < calls && err == outcome(calls - 1))
      && (err < 0 ==> forall k :: from <= k < calls - 1 ==> outcome(k) >= 0)
    }

    /** The image is the first image after all the writes that took place. */
    ghost predicate Flat()
      reads this
    {
      image == ApplyAll(first, history)
    }

    constructor (blockSize: nat, blockCount: nat, outcome: nat -> int, writeHook: WriteHook, image: seq<byte>)
      requires blockSize > 0 && |image| == Start(blockSize, blockCount)
      ensures Valid() && Flat() && history == [] && first == this.image == image && trace == [] && calls == 0
      ensures this.blockSize == blockSize && this.blockCount == blockCount
      ensures this.outcome == outcome && this.writeHook == writeHook
    {
      this.blockSize, this.blockCount, this.size := blockSize, blockCount, Start(blockSize, blockCount);
      this.outcome, this.writeHook := outcome, writeHook;
      this.image, calls, trace := image, 0, [];
      first, history := image, [];
    }

    /** Each byte of the device is what the last write or erase that got to it put there. */
    lemma DeviceIsHistory(i: nat)
      requires Valid() && Flat() && |first| == size && i < size
      ensures var k := LastCover(size, history, i);
              && (k < 0 ==> image[i] == first[i])
              && (k >= 0 ==> image[i] == if history[k].Write? then history[k].data[i - history[k].offset] else 0)
    {
      LastWriteWins(first, history, i);
    }

    /** What the range check of the block entry points leaves of a request. */
    function Clamp(block: nat, count: nat): (n: nat)
      ensures n <= count && (n == 0 || block + n <= blockCount)
      ensures n == count || block + n >= blockCount
    {
      if block > blockCount then 0
      else if block + count > blockCount then blockCount - block
      else count
    }

    /** A run of blocks inside the device is a run of bytes inside the image. */
    lemma BlockBounds(block: nat, count: nat)
      requires Valid() && block + count <= blockCount
      ensures Start(blockSize, block) + Start(blockSize, count) <= size
    {
      StartAdds(blockSize, block, count);
      StartGrows(blockSize, block + count, blockCount);
    }

    /** Whole blocks that end inside the image are blocks of the device. */
    lemma BlocksInside(block: nat, count: nat)
      requires Valid() && Start(blockSize, block) + Start(blockSize, count) <= size
      ensures block + count <= blockCount
    {
      StartAdds(blockSize, block, count);
      StartGrows(blockSize, block + count, blockCount);
    }

    /** A block that starts before the end of the image is a block of the device. */
    lemma FragmentInside(block: nat)
      requires Valid() && Start(blockSize, block) < size
      ensures block < blockCount
    {
      StartGrows(blockSize, blockCount, block);
    }

    /** Reads whole blocks into `buf` from position `at`. */
    method ReadBlock(buf: array<byte>, at: nat, block: nat, count: nat) returns (r: int)
      requires Valid()
      requires at + Start(blockSize, Clamp(block, count)) <= buf.Length
      modifies this`calls, this`trace, buf
      ensures Valid()
      ensures trace == old(trace) + [ReadBlocks(block, count)]
      ensures block > blockCount || count == 0 ==> r == 0 && calls == old(calls) && buf[..] == old(buf[..])
      ensures block <= blockCount && count > 0 ==> calls == old(calls) + 1 && (r < 0 <==> outcome(old(calls)) < 0)
      ensures r < 0 ==> r == outcome(old(calls)) && buf[..] == old(buf[..])
      ensures r >= 0 && block <= blockCount && count > 0 ==>
        (var first, bytes := Start(blockSize, block), Start(blockSize, Clamp(block, count));
         r == bytes && first + bytes <= size && buf[..] == Splice(old(buf[..]), at, image[first..first + bytes]))
    {
      hide Start;
      trace := trace + [ReadBlocks(block, count)];
      if block > blockCount {
        return 0;
      }
      if count == 0 {
        return 0;
      }
      var n := count;
      if block + n > blockCount {
        n := blockCount - block;
      }
      var verdict := outcome(calls);
      calls := calls + 1;
      if verdict < 0 {
        return verdict;
      }
      var first, bytes := Start(blockSize, block), Start(blockSize, n);
      BlockBounds(block, n);
      forall i | 0 <= i < bytes {
        buf[at + i] := image[first + i];
      }
      r := bytes;
    }

    /** Writes whole blocks taken from `buf` at position `at`. */
    method WriteBlock(buf: array<byte>, at: nat, block: nat, count: nat) returns (r: int)
      requires Valid()
      requires at + Start(blockSize, Clamp(block, count)) <= buf.Length
      modifies this`image, this`calls, this`trace
      ensures Valid()
      ensures trace == old(trace) + [WriteBlocks(block, count)]
      ensures block > blockCount || count == 0 ==> r == 0 && calls == old(calls) && image == old(image)
      ensures block <= blockCount && count > 0 ==> calls == old(calls) + 1 && (r < 0 <==> outcome(old(calls)) < 0)
      ensures r < 0 ==> r == outcome(old(calls)) && image == old(image)
      ensures r >= 0 && block <= blockCount && count > 0 ==>
        (var first, bytes := Start(blockSize, block), Start(blockSize, Clamp(block, count));
         r == bytes && first + bytes <= size && image == Splice(old(image), first, buf[at..at + bytes]))
    {
      hide Start;
      trace := trace + [WriteBlocks(block, count)];
      if block > blockCount {
        return 0;
      }
      if count == 0 {
        return 0;
      }
      var n := count;
      if block + n > blockCount {
        n := blockCount - block;
      }
      var verdict := outcome(calls);
      calls := calls + 1;
      if verdict < 0 {
        return verdict;
      }
      var first, bytes := Start(blockSize, block), Start(blockSize, n);
      BlockBounds(block, n);
      image := Splice(image, first, buf[at..at + bytes]);
      r := bytes;
    }

    /** Reads one block into a fresh buffer. */
    method LoadBlock(temp: array<byte>, block: nat) returns (err: int)
      requires Valid() && block < blockCount && temp.Length == blockSize
      modifies this`calls, this`trace, temp
      ensures Valid()
      ensures trace == old(trace) + [ReadBlocks(block, 1)] && calls == old(calls) + 1
      ensures err < 0 <==> outcome(old(calls)) < 0
      ensures err < 0 ==> err == outcome(old(calls))
      ensures Start(blockSize, block) + blockSize <= size
      ensures err >= 0 ==> temp[..] == image[Start(blockSize, block)..Start(blockSize, block) + blockSize]
    {
      hide Start, Splice;
      StartAdds(blockSize, 0, 1);
      BlockBounds(block, 1);
      ghost var first := Start(blockSize, block);
      SpliceWhole(temp[..], image[first..first + blockSize]);
      err := ReadBlock(temp, 0, block, 1);
    }

    /** Copies `n` bytes out of the middle of one block. */
    method ReadFragment(buf: array<byte>, at: nat, block: nat, skip: nat, n: nat) returns (err: int)
      requires Valid() && block < blockCount
      requires skip + n <= blockSize && at + n <= buf.Length
      modifies this`calls, this`trace, buf
      ensures Valid()
      ensures trace == old(trace) + [ReadBlocks(block, 1)] && calls == old(calls) + 1
      ensures err < 0 <==> outcome(old(calls)) < 0
      ensures err < 0 ==> err == outcome(old(calls)) && buf[..] == old(buf[..])
      ensures err >= 0 ==>
        (var first := Start(blockSize, block) + skip;
         first + n <= size && buf[..] == Splice(old(buf[..]), at, image[first..first + n]))
    {
      hide Start, Splice;
      var temp := new byte[blockSize](_ => 0);
      err := LoadBlock(temp, block);
      if err < 0 {
        return;
      }
      ghost var first := Start(blockSize, block);
      SliceOfSlice(image, first, first + blockSize, skip, skip + n);
      SubBuffer(temp, skip, n);
      MemCopy(buf, at, temp, skip, n);
    }

    /** Overwrites `n` bytes in the middle of one block: read, modify, write back. */
    method WriteFragment(buf: array<byte>, at: nat, block: nat, skip: nat, n: nat) returns (err: int)
      requires Valid() && block < blockCount
      requires skip + n <= blockSize && at + n <= buf.Length
      modifies this`image, this`calls, this`trace
      ensures Valid()
      ensures Ran(old(trace), old(calls), err) && calls <= old(calls) + 2
      ensures err < 0 ==> image == old(image)
      ensures err >= 0 ==> calls == old(calls) + 2
      ensures err >= 0 ==>
        (var first := Start(blockSize, block) + skip;
         first + n <= size && image == Splice(old(image), first, buf[at..at + n]))
    {
      hide Start, Splice;
      StartAdds(blockSize, 0, 1);
      var temp := new byte[blockSize](_ => 0);
      err := LoadBlock(temp, block);
      if err < 0 {
        return;
      }
      MemCopy(temp, skip, buf, at, n);
      ghost var first := Start(blockSize, block);
      SpliceWindow(image, first, first + blockSize, skip, buf[at..at + n]);
      assert temp[0..blockSize] == temp[..];
      err := WriteBlock(temp, 0, block, 1);
    }

    /** First partial block of a read. */
    method ReadHead(buf: array<byte>, offset: nat, len: nat) returns (err: int, block: nat, done: nat)
      requires Valid()
      requires 0 < len && offset + len <= size && len <= buf.Length
      modifies this`calls, this`trace, buf
      ensures Valid() && Ran(old(trace), old(calls), err)
      ensures calls - old(calls) == if HeadBytes(blockSize, offset, len) > 0 then 1 else 0
      ensures err < 0 ==> buf[..] == old(buf[..])
      ensures err >= 0 ==> done == HeadBytes(blockSize, offset, len) && At(offset, len, done, block)
      ensures err >= 0 ==> buf[..] == Filled(old(buf[..]), image, offset, done)
    {
      hide Start, Splice, Filled;
      block, done, err := offset / blockSize, 0, 0;
      StartOf(blockSize, offset);
      FillMore(buf[..], image, offset, 0, 0);
      if offset % blockSize != 0 {
        var skip := offset % blockSize;
        var tocopy := Min(blockSize - skip, len);
        FillMore(buf[..], image, offset, 0, tocopy);
        FragmentInside(block);
        err := ReadFragment(buf, 0, block, skip, tocopy);
        if err < 0 {
          return;
        }
        StartAdds(blockSize, block, 1);
        done, block := tocopy, block + 1;
      }
    }

    /** Whole blocks of a read. */
    method ReadMiddle(buf: array<byte>, offset: nat, len: nat, block: nat, done: nat, ghost was: seq<byte>)
      returns (err: int, block': nat, done': nat)
      requires Valid() && At(offset, len, done, block)
      requires offset + len <= size && len <= buf.Length == |was| && buf[..] == Filled(was, image, offset, done)
      modifies this`calls, this`trace, buf
      ensures Valid() && Ran(old(trace), old(calls), err)
      ensures calls - old(calls) == if Start(blockSize, (len - done) / blockSize) > 0 then 1 else 0
      ensures err < 0 ==> buf[..] == old(buf[..])
      ensures err >= 0 ==> done' == done + Start(blockSize, (len - done) / blockSize)
      ensures err >= 0 ==> At(offset, len, done', block') && len - done' < blockSize
      ensures err >= 0 ==> buf[..] == Filled(was, image, offset, done')
    {
      hide Start, Splice, Filled;
      block', done', err := block, done, 0;
      StartOf(blockSize, len - done);
      if len - done >= blockSize {
        var count := (len - done) / blockSize;
        var bytes := Start(blockSize, count);
        BlocksInside(block, count);
        err := ReadBlock(buf, done, block, count);
        if err < 0 {
          return;
        }
        FillMore(was, image, offset, done, bytes);
        StartAdds(blockSize, block, count);
        done', block' := done + bytes, block + count;
      }
    }

    /** Last partial block of a read. */
    method ReadTail(buf: array<byte>, offset: nat, len: nat, block: nat, done: nat, ghost was: seq<byte>)
      returns (err: int)
      requires Valid() && At(offset, len, done, block) && len - done < blockSize
      requires offset + len <= size && len <= buf.Length == |was| && buf[..] == Filled(was, image, offset, done)
      modifies this`calls, this`trace, buf
      ensures Valid() && Ran(old(trace), old(calls), err)
      ensures calls - old(calls) == if done < len then 1 else 0
      ensures err < 0 ==> buf[..] == old(buf[..])
      ensures err >= 0 ==> buf[..] == Filled(was, image, offset, len)
    {
      hide Start, Splice, Filled;
      err := 0;
      if len - done > 0 {
        FragmentInside(block);
        err := ReadFragment(buf, done, block, 0, len - done);
        if err < 0 {
          return;
        }
        FillMore(was, image, offset, done, len - done);
      }
    }

    /** The deblocking read: head fragment, whole blocks, tail fragment. */
    method DefaultRead(buf: array<byte>, offset: nat, len: nat) returns (r: int)
      requires Valid()
      requires 0 < len && offset + len <= size && len <= buf.Length
      modifies this`calls, this`trace, buf
      ensures Valid() && Ran(old(trace), old(calls), r)
      ensures r >= 0 ==> r == len && buf[..] == Filled(old(buf[..]), image, offset, len)
      ensures r < 0 ==>
        buf[..] == Filled(old(buf[..]), image, offset, Fetched(blockSize, offset, len, calls - old(calls)))
    {
      hide Start, Splice, Filled;
      ghost var was := buf[..];
      FillMore(was, image, offset, 0, 0);
      var err, block, done := ReadHead(buf, offset, len);
      if err >= 0 {
        err, block, done := ReadMiddle(buf, offset, len, block, done, was);
        if err >= 0 {
          err := ReadTail(buf, offset, len, block, done, was);
          done := len;
        }
      }
      r := if err >= 0 then done else err;
    }

    /** First partial block of a write. */
    method WriteHead(buf: array<byte>, offset: nat, len: nat) returns (err: int, block: nat, done: nat)
      requires Valid()
      requires 0 < len && offset + len <= size && len <= buf.Length
      modifies this`image, this`calls, this`trace
      ensures Valid() && Ran(old(trace), old(calls), err)
      ensures calls - old(calls) <= if HeadBytes(blockSize, offset, len) > 0 then 2 else 0
      ensures err < 0 ==> image == old(image)
      ensures err >= 0 ==> done == HeadBytes(blockSize, offset, len) && At(offset, len, done, block)
      ensures err >= 0 ==> calls - old(calls) == if done > 0 then 2 else 0
      ensures err >= 0 ==> image == Laid(old(image), offset, buf[..], done)
    {
      hide Start, Splice, Laid;
      block, done, err := offset / blockSize, 0, 0;
      StartOf(blockSize, offset);
      LayMore(image, offset, buf[..], 0, 0);
      if offset % blockSize != 0 {
        var skip := offset % blockSize;
        var tocopy := Min(blockSize - skip, len);
        LayMore(image, offset, buf[..], 0, tocopy);
        assert buf[..][0..tocopy] == buf[0..tocopy];
        FragmentInside(block);
        err := WriteFragment(buf, 0, block, skip, tocopy);
        if err < 0 {
          return;
        }
        StartAdds(blockSize, block, 1);
        done, block := tocopy, block + 1;
      }
    }

    /** Whole blocks of a write. */
    method WriteMiddle(buf: array<byte>, offset: nat, len: nat, block: nat, done: nat, ghost was: seq<byte>)
      returns (err: int, block': nat, done': nat)
      requires Valid() && At(offset, len, done, block)
      requires offset + len <= size == |was| && len <= buf.Length && image == Laid(was, offset, buf[..], done)
      modifies this`image, this`calls, this`trace
      ensures Valid() && Ran(old(trace), old(calls), err)
      ensures calls - old(calls) == if Start(blockSize, (len - done) / blockSize) > 0 then 1 else 0
      ensures err < 0 ==> image == old(image)
      ensures err >= 0 ==> done' == done + Start(blockSize, (len - done) / blockSize)
      ensures err >= 0 ==> At(offset, len, done', block') && len - done' < blockSize
      ensures err >= 0 ==> image == Laid(was, offset, buf[..], done')
    {
      hide Start, Splice, Laid, Clamp;
      block', done', err := block, done, 0;
      StartOf(blockSize, len - done);
      if len - done >= blockSize {
        var count := (len - done) / blockSize;
        var bytes := Start(blockSize, count);
        BlocksInside(block, count);
        StartAdds(blockSize, block, count);
        LayMore(was, offset, buf[..], done, bytes);
        SubBuffer(buf, done, bytes);
        assert Clamp(block, count) == count && InRange(WriteBlocks(block, count));
        err := WriteBlock(buf, done, block, count);
        if err < 0 {
          return;
        }
        done', block' := done + bytes, block + count;
      }
    }

    /** Last partial block of a write. */
    method WriteTail(buf: array<byte>, offset: nat, len: nat, block: nat, done: nat, ghost was: seq<byte>)
      returns (err: int)
      requires Valid() && At(offset, len, done, block) && len - done < blockSize
      requires offset + len <= size == |was| && len <= buf.Length && image == Laid(was, offset, buf[..], done)
      modifies this`image, this`calls, this`trace
      ensures Valid() && Ran(old(trace), old(calls), err)
      ensures calls - old(calls) <= if done < len then 2 else 0
      ensures err >= 0 ==> calls - old(calls) == if done < len then 2 else 0
      ensures err < 0 ==> image == old(image)
      ensures err >= 0 ==> image == Laid(was, offset, buf[..], len)
    {
      hide Start, Splice, Laid;
      err := 0;
      if len - done > 0 {
        FragmentInside(block);
        assert buf[..][done..len] == buf[done..len];
        err := WriteFragment(buf, done, block, 0, len - done);
        if err < 0 {
          return;
        }
        LayMore(was, offset, buf[..], done, len - done);
      }
    }

    /** The deblocking write: head fragment, whole blocks, tail fragment. */
    method DefaultWrite(buf: array<byte>, offset: nat, len: nat) returns (r: int)
      requires Valid()
      requires 0 < len && offset + len <= size && len <= buf.Length
      modifies this`image, this`calls, this`trace
      ensures Valid() && Ran(old(trace), old(calls), r)
      ensures r >= 0 ==> r == len && image == Laid(old(image), offset, buf[..], len)
      ensures r < 0 ==> image == Laid(old(image), offset, buf[..], Landed(blockSize, offset, len, calls - old(calls)))
      ensures calls - old(calls) <= WriteCalls(blockSize, offset, len)
      ensures r >= 0 ==> calls - old(calls) == WriteCalls(blockSize, offset, len)
    {
      hide Start, Splice, Laid;
      ghost var was := image;
      LayMore(was, offset, buf[..], 0, 0);
      var err, block, done := WriteHead(buf, offset, len);
      if err >= 0 {
        err, block, done := WriteMiddle(buf, offset, len, block, done, was);
        if err >= 0 {
          err := WriteTail(buf, offset, len, block, done, was);
          done := len;
        }
      }
      r := if err >= 0 then done else err;
    }

    /** Reads up to `len` bytes; positions outside the device are clamped away. */
    method Read(buf: array<byte>, offset: int, len: nat) returns (r: int)
      requires Valid() && len <= buf.Length
      modifies this`calls, this`trace, buf
      ensures Valid() && (offset >= 0 ==> Ran(old(trace), old(calls), r))
      ensures offset < 0 ==> r == -1 && buf[..] == old(buf[..])
      ensures offset >= 0 && r >= 0 ==>
        r == if offset >= size then 0 else if len <= size - offset then len else size - offset
      ensures r >= 0 ==>
        forall i :: 0 <= i < buf.Length ==> buf[i] == if i < r then image[offset + i] else old(buf[i])
      ensures offset >= 0 ==> (r >= 0 <==> forall k :: old(calls) <= k < calls ==> outcome(k) >= 0)
      ensures offset >= 0 && r >= 0 ==> r == Op.Read(offset, len).Handled(size)
      ensures r == 0 ==> buf[..] == old(buf[..])
      ensures offset >= 0 && r > 0 ==> buf[..] == Filled(old(buf[..]), image, offset, r)
      ensures offset >= 0 && r < 0 ==>
        (var n := Op.Read(offset, len).Handled(size);
         0 < n && buf[..] == Filled(old(buf[..]), image, offset, Fetched(blockSize, offset, n, calls - old(calls))))
    {
      hide Start, Splice, Filled;
      if offset < 0 {
        return -1;
      }
      if offset >= size {
        return 0;
      }
      if len == 0 {
        return 0;
      }
      var n := len;
      if offset + len > size {
        n := size - offset;
      }
      r := DefaultRead(buf, offset, n);
      if r >= 0 {
        FilledAt(old(buf[..]), image, offset, r);
        assert forall i :: 0 <= i < buf.Length ==> buf[i] == buf[..][i];
      }
    }

    /** The device's byte-level write: the deblocking default or the driver's own.
        `laid` is the number of bytes that reached the medium. */
    method WriteBytes(buf: array<byte>, offset: nat, len: nat) returns (r: int, ghost laid: nat)
      requires Valid()
      requires 0 < len && offset + len <= size && len <= buf.Length
      modifies this`image, this`calls, this`trace
      ensures Valid() && Traced(old(trace))
      ensures laid <= len && image == Laid(old(image), offset, buf[..], laid)
      ensures r >= 0 ==> laid == r
      ensures writeHook.Deblock? ==> Ran(old(trace), old(calls), r)
      ensures writeHook.Deblock? ==>
        if r >= 0 then r == len else laid == Landed(blockSize, offset, len, calls - old(calls))
      ensures writeHook.Deblock? ==> calls - old(calls) <= WriteCalls(blockSize, offset, len)
      ensures writeHook.Deblock? && r >= 0 ==> calls - old(calls) == WriteCalls(blockSize, offset, len)
      ensures writeHook.Own? ==> calls == old(calls) + 1 && r == Taken(writeHook.accept(old(calls)), len)
      ensures writeHook.Own? && r < 0 ==> laid == 0
    {
      hide Start, Splice, Laid;
      if writeHook.Deblock? {
        r := DefaultWrite(buf, offset, len);
        laid := if r >= 0 then r else Landed(blockSize, offset, len, calls - old(calls));
      } else {
        LayMore(image, offset, buf[..], 0, 0);
        var verdict := writeHook.accept(calls);
        calls := calls + 1;
        if verdict < 0 {
          return verdict, 0;
        }
        r := Min(verdict, len);
        laid := r;
        LayMore(image, offset, buf[..], 0, r);
        assert buf[..r] == buf[..][0..0 + r];
        image := Splice(image, offset, buf[..r]);
      }
    }

    /** Writes up to `len` bytes; positions outside the device are clamped away. */
    method Write(buf: array<byte>, offset: int, len: nat) returns (r: int, ghost laid: nat)
      requires Valid() && Flat() && len <= buf.Length
      modifies this`image, this`calls, this`trace, this`history
      ensures Valid() && Flat()
      ensures Traced(old(trace))
      ensures offset < 0 ==> r == -1 && laid == 0
      ensures writeHook.Deblock? && offset >= 0 ==>
        (r >= 0 <==> forall k :: old(calls) <= k < calls ==> outcome(k) >= 0)
      ensures writeHook.Deblock? && offset >= 0 && r >= 0 ==>
        r == if offset >= size then 0 else if len <= size - offset then len else size - offset
      ensures offset >= 0 ==> laid <= Op.Write(offset, buf[..len]).Handled(size)
      ensures forall i :: 0 <= i < size ==>
        image[i] == if offset <= i < offset + laid then buf[i - offset] else old(image[i])
      ensures r >= 0 ==> laid == r
      ensures laid == 0 ==> image == old(image) && history == old(history)
      ensures laid > 0 ==> image == Laid(old(image), offset, buf[..], laid)
      ensures laid > 0 ==> history == old(history) + [Op.Write(offset, buf[..laid])]
      ensures writeHook.Deblock? && offset >= 0 ==> Ran(old(trace), old(calls), r)
      ensures writeHook.Deblock? && offset >= 0 ==>
        (var n := Op.Write(offset, buf[..len]).Handled(size);
         if r >= 0 then r == n else laid == Landed(blockSize, offset, n, calls - old(calls)))
      ensures writeHook.Deblock? && offset >= 0 ==>
        (var all := WriteCalls(blockSize, offset, Op.Write(offset, buf[..len]).Handled(size));
         calls - old(calls) <= all && (r >= 0 ==> calls - old(calls) == all))
      ensures writeHook.Own? && offset >= 0 ==>
        (var n := Op.Write(offset, buf[..len]).Handled(size);
         if n == 0 then r == 0 && calls == old(calls)
         else calls == old(calls) + 1 && r == Taken(writeHook.accept(old(calls)), n) && (r < 0 ==> laid == 0))
    {
      hide Start, Splice, Laid, ApplyAll, InRange;
      laid := 0;
      if offset < 0 {
        return -1, 0;
      }
      if offset >= size {
        return 0, 0;
      }
      if len == 0 {
        return 0, 0;
      }
      var n := len;
      if offset + len > size {
        n := size - offset;
      }
      LayMore(image, offset, buf[..], 0, 0);
      r, laid := WriteBytes(buf, offset, n);
      assert buf[..][..laid] == buf[..laid];
      Record(old(image), offset, buf[..], laid);
      LaidAt(old(image), offset, buf[..], laid);
    }

    /** Adds the bytes that reached the medium to the history. */
    ghost method Record(was: seq<byte>, offset: nat, data: seq<byte>, laid: nat)
      requires laid <= |data| && offset + laid <= |was|
      requires was == ApplyAll(first, history) && image == Laid(was, offset, data, laid)
      modifies this`history
      ensures Flat()
      ensures laid == 0 ==> history == old(history)
      ensures laid > 0 ==> history == old(history) + [Op.Write(offset, data[..laid])]
    {
      hide Splice, Laid, ApplyAll;
      LayMore(was, offset, data, 0, 0);
      if laid > 0 {
        var op := Op.Write(offset, data[..laid]);
        ApplyOneMore(first, history, op);
        ApplyIsLaid(was, offset, data, laid);
        history := history + [op];
      }
    }

    /** One chunk of zeros, after `cleared` bytes from `offset` on. */
    method EraseChunk(zeroBuf: array<byte>, pos: nat, towrite: nat, ghost was: seq<byte>, ghost offset: nat)
      returns (written: int, ghost laid: nat)
      requires Valid() && Flat() && 0 < towrite <= zeroBuf.Length && pos + towrite <= size == |was| && offset <= pos
      requires zeroBuf[..] == Zeros(ERASE_BUF_SIZE) && image == Splice(was, offset, Zeros(pos - offset))
      modifies this`image, this`calls, this`trace, this`history
      ensures Valid() && Flat() && Traced(old(trace))
      ensures Written(written, laid, calls) == WriteRun(writeHook, outcome, blockSize, pos, towrite, old(calls))
      ensures image == Splice(was, offset, Zeros(pos - offset + laid))
    {
      hide Start, Laid, Splice, WriteCalls, Landed, ApplyAll, InRange;
      LayMore(image, pos, zeroBuf[..], 0, 0);
      assert Op.Write(pos, zeroBuf[..towrite]).Handled(size) == towrite;
      written, laid := Write(zeroBuf, pos, towrite);
      ZeroMore(was, old(image), offset, pos - offset, laid, zeroBuf[..]);
    }

    /** Enters the bytes that an erase has zeroed as one request. */
    ghost method RecordErase(was: seq<byte>, before: seq<Op>, offset: nat, laid: nat)
      requires offset + laid <= |was| && was == ApplyAll(first, before) && image == Splice(was, offset, Zeros(laid))
      modifies this`history
      ensures Flat()
      ensures history == if laid > 0 then before + [Op.Erase(offset, laid)] else before
    {
      hide ApplyAll;
      ApplyOneMore(first, before, Op.Erase(offset, laid));
      history := if laid > 0 then before + [Op.Erase(offset, laid)] else before;
    }

    /** Zeros the range by repeated writes; a failed or short write stops it. */
    method DefaultErase(offset: nat, len: nat) returns (r: int, ghost cleared: nat, ghost laid: nat)
      requires Valid() && Flat() && offset + len <= size
      modifies this`image, this`calls, this`trace, this`history
      ensures Valid() && Flat() && Traced(old(trace))
      ensures Erased(cleared, laid, calls) == EraseRun(writeHook, outcome, blockSize, offset, len, old(calls))
      ensures image == Splice(old(image), offset, Zeros(laid))
      ensures history == if laid > 0 then old(history) + [Op.Erase(offset, laid)] else old(history)
      ensures r == EraseResult(offset, len, cleared)
    {
      hide Start, Laid, WriteRun, EraseRun, Splice, ApplyAll, InRange;
      var zeroBuf := new byte[ERASE_BUF_SIZE](_ => 0);
      var remaining, pos := len, offset;
      cleared, laid := 0, 0;
      ghost var was, before := image, history;
      assert image == Splice(was, offset, Zeros(0));
      while remaining > 0
        invariant Valid() && Flat() && zeroBuf[..] == Zeros(ERASE_BUF_SIZE) && Traced(old(trace))
        invariant 0 <= remaining && pos == offset + cleared && cleared + remaining == len
        invariant cleared == laid && image == Splice(was, offset, Zeros(laid))
        invariant EraseRun(writeHook, outcome, blockSize, offset, len, old(calls))
               == EraseRun(writeHook, outcome, blockSize, pos, remaining, calls).After(cleared)
      {
        var towrite := Min(remaining, ERASE_BUF_SIZE);
        EraseStep(writeHook, outcome, blockSize, pos, remaining, calls);
        var written;
        ghost var n;
        written, n := EraseChunk(zeroBuf, pos, towrite, was, offset);
        laid := cleared + n;
        if written < 0 {
          RecordErase(was, before, offset, laid);
          return pos, cleared, laid;
        }
        pos := pos + written;
        remaining := remaining - written;
        cleared := laid;
        if written < towrite {
          RecordErase(was, before, offset, laid);
          return pos, cleared, laid;
        }
      }
      EraseStep(writeHook, outcome, blockSize, pos, 0, calls);
      RecordErase(was, before, offset, laid);
      r := len;
    }

    /** Erases up to `len` bytes; positions outside the device are clamped away. */
    method Erase(offset: int, len: nat) returns (r: int, ghost cleared: nat, ghost laid: nat)
      requires Valid() && Flat()
      modifies this`image, this`calls, this`trace, this`history
      ensures Valid() && Flat() && Traced(old(trace))
      ensures offset < 0 ==> r == -1 && image == old(image) && history == old(history)
      ensures offset >= 0 ==>
        (var n := Op.Erase(offset, len).Handled(size);
         && Erased(cleared, laid, calls) == EraseRun(writeHook, outcome, blockSize, offset, n, old(calls))
         && n == (if offset >= size then 0 else if len <= size - offset then len else size - offset)
         && r == (if cleared == n then n else offset + cleared)
         && image == (if laid > 0 then Op.Erase(offset, laid).Apply(old(image)) else old(image))
         && history == (if laid > 0 then old(history) + [Op.Erase(offset, laid)] else old(history))
         && (cleared == n ==> image == Op.Erase(offset, len).Apply(old(image)))
         && (forall i :: 0 <= i < size ==> image[i] == if offset <= i < offset + laid then 0 else old(image[i]))
         && (cleared < n ==> StopsAt(writeHook.Own?, n, cleared) && old(calls) < calls)
         && (cleared < n && writeHook.Deblock? ==> cleared % 4096 == 0)
         && (cleared < n && writeHook.Own? ==> writeHook.accept(calls - 1) < ChunkAt(n, cleared))
         && (cleared < n && writeHook.Deblock? ==> outcome(calls - 1) < 0)
         && (writeHook.Deblock? ==> (cleared == n <==> forall k :: old(calls) <= k < calls ==> outcome(k) >= 0))
         && (Tells(writeHook.Own?, offset, n) ==> (r == n <==> cleared == n)))
    {
      hide Start, Splice, EraseRun;
      cleared, laid := 0, 0;
      if offset < 0 {
        return -1, 0, 0;
      }
      EraseStep(writeHook, outcome, blockSize, offset, 0, calls);
      if offset >= size {
        return 0, 0, 0;
      }
      if len == 0 {
        return 0, 0, 0;
      }
      var n := len;
      if offset + len > size {
        n := size - offset;
      }
      StopsHaveCause(writeHook, outcome, blockSize, offset, n, calls);
      CompleteWithoutFailure(outcome, blockSize, offset, n, calls);
      r, cleared, laid := DefaultErase(offset, n);
    }
  }

  /** A run whose returned number misleads: of 4608 bytes to be erased from 512 on,
      in blocks of 512 bytes, the second hook call fails.  The length comes back,
      but the last 512 bytes have kept their contents. */
  method AmbiguousErase(ones: seq<byte>) returns (dev: Bdev, r: int)
    requires |ones| == 5120 && forall i :: 0 <= i < |ones| ==> ones[i] == 1
    ensures fresh(dev) && dev.writeHook.Deblock? && dev.blockSize == 512 && dev.first == ones
    ensures dev.history == [Op.Erase(512, 4096)] && dev.calls == 2
    ensures r == 4608 && |dev.image| == 5120
    ensures forall i :: 4608 <= i < 5120 ==> dev.image[i] == 1
  {
    hide EraseRun;
    assert WriteCalls(512, 512, ERASE_BUF_SIZE) == 1;
    dev := new Bdev(512, 10, FailingAt(1), Deblock, ones);
    DeblockStops(512, 512, 4608, 4096, 0);
    ghost var cleared, laid;
    r, cleared, laid := dev.Erase(512, 4608);
  }
}
