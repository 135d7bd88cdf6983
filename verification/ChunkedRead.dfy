/** Reading blocks from a memory card in chunks the host can transfer, each
    retried a fixed number of times (mmc_core.c).

    The host below is abstract.  Which transfers fail, and what a failed transfer
    leaves in its part of the buffer, are arbitrary functions of the call number. */
module ChunkedRead {
  import opened Arithmetic
  import opened MmcErrors
  import opened FlatImage
  import opened BlockDevice

  const MMC_BLOCK_SIZE: nat := 512

  class Host {
    const blksz: nat
    const maxPhysSegs: nat
    const highcaps: bool
    const nblks: nat
    const storage: seq<byte>
    const outcome: nat -> int
    const debris: (nat, nat) -> byte
    var calls: nat

    ghost predicate Valid() {
      blksz > 0 && maxPhysSegs > 0 && |storage| == nblks * MMC_BLOCK_SIZE
    }

    /** The card address of a block: a block number or a byte position. */
    function Address(blknr: nat): nat {
      if highcaps then blknr else Start(blksz, blknr)
    }

    ghost predicate InCard(blknr: nat, blkcnt: nat) {
      Start(blksz, blknr) + Start(blksz, blkcnt) <= |storage|
    }

    /** The transfers numbered `from..to` all fail. */
    ghost predicate AllFail(from: nat, to: nat) {
      forall k :: from <= k < to ==> outcome(k) != MMC_ERR_NONE
    }

    /** Outside `[at, at + n)` the buffer is as it was. */
    ghost predicate Around(was: seq<byte>, now: seq<byte>, at: nat, n: nat) {
      |now| == |was| && forall i :: 0 <= i < |was| && !(at <= i < at + n) ==> now[i] == was[i]
    }

    /** One transfer of `blkcnt` blocks from card address `src`. */
    method BlkRead(buf: array<byte>, at: nat, src: nat, blkcnt: nat) returns (err: int)
      requires Valid() && at + Start(blksz, blkcnt) <= buf.Length
      modifies this`calls, buf
      ensures calls == old(calls) + 1
      ensures Around(old(buf[..]), buf[..], at, Start(blksz, blkcnt))
      ensures var first, n := if highcaps then Start(blksz, src) else src, Start(blksz, blkcnt);
              if first + n > |storage| then err != MMC_ERR_NONE
              else
                && err == outcome(old(calls))
                && (err == MMC_ERR_NONE ==> buf[..] == Splice(old(buf[..]), at, storage[first..first + n]))
    {
      hide Start;
      var first, n := if highcaps then Start(blksz, src) else src, Start(blksz, blkcnt);
      var call := calls;
      calls := calls + 1;
      err := outcome(call);
      if err == MMC_ERR_NONE && first + n > |storage| {
        err := MMC_ERR_OUT_OF_RANGE;
      }
      if err == MMC_ERR_NONE {
        forall i | 0 <= i < n {
          buf[at + i] := storage[first + i];
        }
      } else {
        forall i | 0 <= i < n {
          buf[at + i] := debris(call, i);
        }
      }
    }

    /** Reads one chunk with up to three retries. */
    method DevBread(blknr: nat, blkcnt: nat, buf: array<byte>, at: nat) returns (err: int)
      requires Valid() && at + Start(blksz, blkcnt) <= buf.Length
      modifies this`calls, buf
      ensures old(calls) < calls <= old(calls) + 4
      ensures Around(old(buf[..]), buf[..], at, Start(blksz, blkcnt))
      ensures !InCard(blknr, blkcnt) ==> err != MMC_ERR_NONE
      ensures InCard(blknr, blkcnt) ==> AllFail(old(calls), calls - 1) && err == outcome(calls - 1)
      ensures err != MMC_ERR_NONE ==> calls == old(calls) + 4
      ensures err == MMC_ERR_NONE ==>
        (var first, n := Start(blksz, blknr), Start(blksz, blkcnt);
         first + n <= |storage| && buf[..] == Splice(old(buf[..]), at, storage[first..first + n]))
    {
      hide Start;
      var retry := 3;
      var src := Address(blknr);
      ghost var was := buf[..];
      err := MMC_ERR_INVALID;
      while true
        invariant -1 < retry <= 3 && calls == old(calls) + 3 - retry
        invariant Around(was, buf[..], at, Start(blksz, blkcnt))
        invariant InCard(blknr, blkcnt) ==> AllFail(old(calls), calls)
        decreases retry
      {
        ghost var before := buf[..];
        err := BlkRead(buf, at, src, blkcnt);
        if err == MMC_ERR_NONE {
          ghost var data := storage[Start(blksz, blknr)..Start(blksz, blknr) + Start(blksz, blkcnt)];
          assert Splice(before, at, data) == Splice(was, at, data);
          return;
        }
        if retry == 0 {
          return;
        }
        retry := retry - 1;
      }
    }

    /** The buffer holds the first `d` blocks of a read from `blknr`, and else what it held. */
    ghost predicate Got(was: seq<byte>, now: seq<byte>, blknr: nat, d: nat) {
      if d == 0 then now == was else
        && InCard(blknr, d) && Start(blksz, d) <= |was|
        && now == Filled(was, storage, Start(blksz, blknr), Start(blksz, d))
    }

    lemma GotMore(was: seq<byte>, now: seq<byte>, after: seq<byte>, blknr: nat, d: nat, m: nat)
      requires Valid() && m > 0 && Got(was, now, blknr, d) && Start(blksz, d) + Start(blksz, m) <= |was| == |now|
      requires InCard(blknr + d, m)
      requires var first, n := Start(blksz, blknr + d), Start(blksz, m);
               after == Splice(now, Start(blksz, d), storage[first..first + n])
      ensures Got(was, after, blknr, d + m)
    {
      hide Start, Splice, Filled;
      StartAdds(blksz, d, m);
      StartAdds(blksz, blknr, d);
      StartAdds(blksz, 0, 0);
      FillMore(was, storage, Start(blksz, blknr), 0, Start(blksz, m));
      FillMore(was, storage, Start(blksz, blknr), Start(blksz, d), Start(blksz, m));
    }

    /** A read gave up: everything before block `d` has arrived, only the `m` blocks
        after that may be damaged, and the last four transfers failed. */
    ghost predicate GaveUp(was: seq<byte>, now: seq<byte>, blknr: nat, d: nat, m: nat, from: nat, to: nat, ret: int) {
      var a, b := Start(blksz, d), Start(blksz, d + m);
      && InCard(blknr, d) && a <= b <= |was| == |now|
      && now[..a] == storage[Start(blksz, blknr)..Start(blksz, blknr) + a]
      && now[b..] == was[b..]
      && from + 4 <= to && AllFail(to - 4, to) && ret == outcome(to - 1)
    }

    lemma ChunkFailed(
      was: seq<byte>, now: seq<byte>, after: seq<byte>, blknr: nat, d: nat, m: nat, from: nat, to: nat, ret: int)
      requires Valid() && Got(was, now, blknr, d) && Start(blksz, d) + Start(blksz, m) <= |was| == |now|
      requires InCard(blknr, d) && Around(now, after, Start(blksz, d), Start(blksz, m))
      requires from + 4 <= to && AllFail(to - 4, to) && ret == outcome(to - 1)
      ensures GaveUp(was, after, blknr, d, m, from, to, ret)
    {
      hide Start;
      StartAdds(blksz, d, m);
      StartAdds(blksz, 0, 0);
    }

    lemma PartInCard(blknr: nat, blkcnt: nat, d: nat, m: nat)
      requires InCard(blknr, blkcnt) && d + m <= blkcnt
      ensures InCard(blknr, d) && InCard(blknr + d, m)
    {
      StartAdds(blksz, d, m);
      StartAdds(blksz, blknr, d);
      StartGrows(blksz, d, blkcnt);
      StartGrows(blksz, d + m, blkcnt);
    }

    lemma WithinBuffer(blkcnt: nat, d: nat, m: nat)
      requires d + m <= blkcnt
      ensures Start(blksz, d) + Start(blksz, m) == Start(blksz, d + m) <= Start(blksz, blkcnt)
    {
      StartAdds(blksz, d, m);
      StartGrows(blksz, d + m, blkcnt);
    }

    /** The range check lets every read inside the card pass. */
    lemma RangeCheckPasses(blknr: nat, blkcnt: nat)
      requires Valid() && InCard(blknr, blkcnt)
      ensures blknr * (blksz / MMC_BLOCK_SIZE) <= nblks
    {
      var units := blksz / MMC_BLOCK_SIZE;
      assert blknr * units * MMC_BLOCK_SIZE == blknr * (units * MMC_BLOCK_SIZE);
      assert blknr * blksz == blknr * (units * MMC_BLOCK_SIZE) + blknr * (blksz - units * MMC_BLOCK_SIZE);
    }

    /** The range check on the first block. */
    method StartInRange(blknr: nat) returns (ok: bool)
      ensures ok <==> blknr * (blksz / 512) <= nblks
      ensures Valid() ==> forall blkcnt: nat :: InCard(blknr, blkcnt) ==> ok
    {
      ok := blknr * (blksz / MMC_BLOCK_SIZE) <= nblks;
      if Valid() {
        forall blkcnt: nat | InCard(blknr, blkcnt) {
          RangeCheckPasses(blknr, blkcnt);
        }
      }
    }

    /** The chunks of a read: `chunks` of them were started and `d` blocks have arrived. */
    method ReadChunks(blknr: nat, blkcnt: nat, buf: array<byte>) returns (ret: int, ghost chunks: nat, ghost d: nat)
      requires Valid() && 0 < blkcnt && Start(blksz, blkcnt) <= buf.Length
      modifies this`calls, buf
      ensures old(calls) <= calls <= old(calls) + 4 * chunks && chunks <= CeilDiv(blkcnt, maxPhysSegs)
      ensures ret == MMC_ERR_NONE ==> d == blkcnt && Got(old(buf[..]), buf[..], blknr, blkcnt)
      ensures ret != MMC_ERR_NONE && InCard(blknr, blkcnt) ==>
        && chunks > 0 && d < blkcnt && d == Start(maxPhysSegs, chunks - 1)
        && GaveUp(old(buf[..]), buf[..], blknr, d, Min(maxPhysSegs, blkcnt - d), old(calls), calls, ret)
    {
      hide Start, Splice, Got, InCard, Around, CeilDiv, GaveUp;
      chunks, d := 0, 0;
      ghost var was := buf[..];
      NothingGot(was, blknr);
      CeilCovers(0, blkcnt, maxPhysSegs);
      StartAdds(blksz, 0, 0);
      StartAdds(maxPhysSegs, 0, 0);
      ret := MMC_ERR_NONE;
      var left, block, at := blkcnt, blknr, 0;
      while left != 0
        invariant 0 <= left && left + d == blkcnt && block == blknr + d && ret == MMC_ERR_NONE
        invariant left != 0 ==> d == Start(maxPhysSegs, chunks) && at == Start(blksz, d)
        invariant chunks <= CeilDiv(blkcnt, maxPhysSegs)
        invariant old(calls) <= calls <= old(calls) + 4 * chunks
        invariant |buf[..]| == |was| && Got(was, buf[..], blknr, d)
        decreases left
      {
        var leftblks := Min(left, maxPhysSegs);
        ghost var before, callsBefore := buf[..], calls;
        WithinBuffer(blkcnt, d, leftblks);
        ret := DevBread(block, leftblks, buf, at);
        CeilCovers(chunks + 1, blkcnt, maxPhysSegs);
        StartAdds(maxPhysSegs, chunks, 1);
        chunks := chunks + 1;
        if ret != MMC_ERR_NONE {
          if InCard(blknr, blkcnt) {
            PartInCard(blknr, blkcnt, d, leftblks);
            ChunkFailed(was, before, buf[..], blknr, d, leftblks, old(calls), calls, ret);
          }
          return;
        }
        SuccessInCard(block, leftblks);
        GotMore(was, before, buf[..], blknr, d, leftblks);
        block := block + leftblks;
        StartAdds(blksz, d, maxPhysSegs);
        at := at + Start(blksz, maxPhysSegs);
        left := left - leftblks;
        d := d + leftblks;
      }
    }

    /** Reads `blkcnt` blocks in chunks; `chunks` of them were started and `d` blocks have arrived. */
    method BlockRead(blknr: nat, blkcnt: nat, buf: array<byte>) returns (ret: int, ghost chunks: nat, ghost d: nat)
      requires Valid() && Start(blksz, blkcnt) <= buf.Length
      modifies this`calls, buf
      ensures blkcnt == 0 ==> ret == MMC_ERR_NONE
      ensures blkcnt > 0 && blknr * (blksz / 512) > nblks ==>
        ret == MMC_ERR_INVALID && calls == old(calls) && buf[..] == old(buf[..])
      ensures ret == MMC_ERR_NONE ==> blkcnt == 0 || Start(blksz, blknr) + Start(blksz, blkcnt) <= |storage|
      ensures ret == MMC_ERR_NONE ==> forall i :: 0 <= i < buf.Length ==>
        buf[i] == if i < Start(blksz, blkcnt) then storage[Start(blksz, blknr) + i] else old(buf[i])
      ensures old(calls) <= calls <= old(calls) + 4 * chunks && chunks <= CeilDiv(blkcnt, maxPhysSegs)
      ensures ret == MMC_ERR_NONE ==> d == blkcnt
      ensures ret != MMC_ERR_NONE && Start(blksz, blknr) + Start(blksz, blkcnt) <= |storage| ==>
        && chunks > 0 && d < blkcnt && d == Start(maxPhysSegs, chunks - 1)
        && old(calls) + 4 <= calls && ret == outcome(calls - 1)
        && (forall k :: calls - 4 <= k < calls ==> outcome(k) != MMC_ERR_NONE)
        && Start(blksz, blknr) + Start(blksz, d) <= |storage| && Start(blksz, d) <= buf.Length
        && (forall i :: 0 <= i < Start(blksz, d) ==> buf[i] == storage[Start(blksz, blknr) + i])
        && (forall i :: Start(blksz, d + Min(maxPhysSegs, blkcnt - d)) <= i < buf.Length ==> buf[i] == old(buf[i]))
    {
      hide Start, Splice, Got, Around, CeilDiv, GaveUp;
      chunks, d := 0, 0;
      StartAdds(blksz, 0, 0);
      CeilCovers(0, blkcnt, maxPhysSegs);
      if blkcnt == 0 {
        return MMC_ERR_NONE, 0, 0;
      }
      var ok := StartInRange(blknr);
      if !ok {
        if InCard(blknr, blkcnt) {
          RangeCheckPasses(blknr, blkcnt);
        }
        return MMC_ERR_INVALID, 0, 0;
      }
      ret, chunks, d := ReadChunks(blknr, blkcnt, buf);
      if ret == MMC_ERR_NONE {
        GotAt(old(buf[..]), buf[..], blknr, blkcnt);
      } else if InCard(blknr, blkcnt) {
        GaveUpAt(old(buf[..]), buf[..], blknr, d, Min(maxPhysSegs, blkcnt - d), old(calls), calls, ret);
      }
      assert forall i :: 0 <= i < buf.Length ==> buf[i] == buf[..][i] && old(buf[i]) == old(buf[..])[i];
    }

    lemma GotAt(was: seq<byte>, now: seq<byte>, blknr: nat, d: nat)
      requires Valid() && d > 0 && Got(was, now, blknr, d)
      ensures Start(blksz, blknr) + Start(blksz, d) <= |storage| && |now| == |was| && Start(blksz, d) <= |was|
      ensures forall i :: 0 <= i < |was| ==>
        now[i] == if i < Start(blksz, d) then storage[Start(blksz, blknr) + i] else was[i]
    {
      hide Start, Filled;
      FilledAt(was, storage, Start(blksz, blknr), Start(blksz, d));
    }

    lemma GaveUpAt(
      was: seq<byte>, now: seq<byte>, blknr: nat, d: nat, m: nat, from: nat, to: nat, ret: int)
      requires GaveUp(was, now, blknr, d, m, from, to, ret)
      ensures var a, b := Start(blksz, d), Start(blksz, d + m);
              && from + 4 <= to && ret == outcome(to - 1)
              && (forall k :: to - 4 <= k < to ==> outcome(k) != MMC_ERR_NONE)
              && Start(blksz, blknr) + a <= |storage| && a <= |now| == |was|
              && (forall i :: 0 <= i < a ==> now[i] == storage[Start(blksz, blknr) + i])
              && (forall i :: b <= i < |now| ==> now[i] == was[i])
    {
      hide Start;
      var a, b := Start(blksz, d), Start(blksz, d + m);
      forall i | 0 <= i < a ensures now[i] == storage[Start(blksz, blknr) + i] {
        assert now[..a][i] == storage[Start(blksz, blknr)..Start(blksz, blknr) + a][i];
      }
      forall i | b <= i < |now| ensures now[i] == was[i] {
        assert now[b..][i - b] == was[b..][i - b];
      }
    }

    lemma NothingGot(was: seq<byte>, blknr: nat)
      ensures Got(was, was, blknr, 0)
    {
    }

    lemma SuccessInCard(block: nat, m: nat)
      requires Start(blksz, block) + Start(blksz, m) <= |storage|
      ensures InCard(block, m)
    {
    }

    /** Chunks that start before the end number at most the rounded-up quotient. */
    lemma CeilCovers(c: nat, n: nat, d: nat)
      requires d > 0 && (c > 0 ==> Start(d, c - 1) < n)
      ensures c <= CeilDiv(n, d)
    {
      if c > 0 {
        CeilDivCovers(n, d);
        StartGrows(d, CeilDiv(n, d), c - 1);
      }
    }
  }
}
