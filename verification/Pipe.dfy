/** pipe.c: a ring of PIPESIZE bytes between 32-bit counters that wrap. */
module PipeFile {
  import opened Params
  import opened Options

  const PIPESIZE: nat := 512
  /** Counting modulo 2^32 does not disturb the place in the ring, since 512 divides 2^32. */
  lemma SamePlace(n: nat)
    ensures n % UINT % PIPESIZE == n % PIPESIZE
  {
    var q, r := n / UINT, n % UINT;
    assert n == (q * 0x80_0000) * PIPESIZE + r;
    assert ((q * 0x80_0000) * PIPESIZE + r) % PIPESIZE == r % PIPESIZE by { AddMultiple(q * 0x80_0000, r); }
  }

  lemma AddMultiple(k: nat, r: nat)
    ensures (k * PIPESIZE + r) % PIPESIZE == r % PIPESIZE
  {
    var a := r / PIPESIZE;
    assert k * PIPESIZE + r == (k + a) * PIPESIZE + r % PIPESIZE;
  }

  lemma {:induction false} CountersTell(read: nat, written: nat, gap: nat)
    requires read <= written <= read + PIPESIZE && gap <= PIPESIZE
    ensures written % UINT == (read % UINT + gap) % UINT <==> written == read + gap
  {
    var q, r := read / UINT, read % UINT;
    assert read == q * UINT + r;
    var w, g := written - read, gap;
    assert written == q * UINT + (r + w) && w < UINT && g < UINT;
    ModShift(q, r + w);
    ModShift(0, r + g);
    if r + w < UINT { assert (r + w) % UINT == r + w; } else { assert (r + w) % UINT == r + w - UINT; }
    if r + g < UINT { assert (r + g) % UINT == r + g; } else { assert (r + g) % UINT == r + g - UINT; }
  }

  lemma ModShift(q: nat, r: nat)
    ensures (q * UINT + r) % UINT == r % UINT
  {
    var a := r / UINT;
    assert q * UINT + r == (q + a) * UINT + r % UINT;
  }

  /** Two places in the ring that are less than its size apart are different. */
  lemma PlacesApart(i: nat, j: nat)
    requires i < j < i + PIPESIZE
    ensures i % PIPESIZE != j % PIPESIZE
  {
  }

  class Pipe {
    const data: array<int>
    var nread: nat
    var nwrite: nat
    var readopen: bool
    var writeopen: bool
    ghost var accepted: seq<int>
    ghost var delivered: seq<int>

    constructor ()
      ensures Valid() && accepted == delivered == [] && readopen && writeopen
    {
      data := new int[PIPESIZE];
      nread, nwrite, readopen, writeopen, accepted, delivered := 0, 0, true, true, [], [];
    }

    /** What was read is a prefix of what was written, and the ring holds the rest. */
    ghost predicate Valid()
      reads this, data
    {
      && data.Length == PIPESIZE && delivered <= accepted && |accepted| <= |delivered| + PIPESIZE
      && nread == |delivered| % UINT && nwrite == |accepted| % UINT
      && (forall k :: |delivered| <= k < |accepted| ==> data[k % PIPESIZE] == accepted[k])
    }

    /** One byte into the ring. */
    method Put(c: int)
      requires Valid() && |accepted| < |delivered| + PIPESIZE
      modifies this`nwrite, this`accepted, data
      ensures Valid() && accepted == old(accepted) + [c]
    {
      SamePlace(|accepted|);
      forall k: nat | |delivered| <= k < |accepted| ensures k % PIPESIZE != |accepted| % PIPESIZE {
        PlacesApart(k, |accepted|);
      }
      CountersTell(|accepted|, |accepted| + 1, 1);
      data[nwrite % PIPESIZE] := c;
      nwrite := (nwrite + 1) % UINT;
      accepted := accepted + [c];
    }

    /** One byte out of it. */
    method Get() returns (c: int)
      requires Valid() && |delivered| < |accepted|
      modifies this`nread, this`delivered
      ensures Valid() && delivered == old(delivered) + [c]
    {
      SamePlace(|delivered|);
      CountersTell(|delivered|, |delivered| + 1, 1);
      c := data[nread % PIPESIZE];
      nread := (nread + 1) % UINT;
      delivered := delivered + [c];
    }

    /** pipewrite from byte `i` of `addr` to its end or until it has to sleep, which is `None`. */
    method Write(addr: seq<int>, i0: nat, killed: bool) returns (i: nat, r: Option<int>)
      requires Valid() && i0 <= |addr|
      modifies this`nwrite, this`accepted, data
      ensures Valid() && i0 <= i <= |addr| && accepted == old(accepted) + addr[i0..i]
      ensures i < |addr| ==> |accepted| == |delivered| + PIPESIZE
      ensures r == if i == |addr| then Option<int>.Some(|addr|) else if !readopen || killed then Option<int>.Some(-1) else None
    {
      i := i0;
      CountersTell(|delivered|, |accepted|, PIPESIZE);
      while i < |addr| && nwrite != (nread + PIPESIZE) % UINT
        invariant Valid() && i0 <= i <= |addr| && accepted == old(accepted) + addr[i0..i]
        invariant nwrite == (nread + PIPESIZE) % UINT <==> |accepted| == |delivered| + PIPESIZE
      {
        Put(addr[i]);
        CountersTell(|delivered|, |accepted|, PIPESIZE);
        assert addr[i0..i + 1] == addr[i0..i] + [addr[i]];
        i := i + 1;
      }
      if i == |addr| {
        return i, Some(|addr|);
      }
      if !readopen || killed {
        return i, Some(-1);
      }
      return i, None;
    }

    /** piperead: up to `n` bytes, -1, or `None` for sleep. */
    method Read(n: nat, killed: bool) returns (bytes: seq<int>, r: Option<int>)
      requires Valid()
      modifies this`nread, this`delivered
      ensures Valid() && delivered == old(delivered) + bytes
      ensures old(|delivered| == |accepted|) && writeopen ==> bytes == [] && r == if killed then Some(-1) else None
      ensures old(|delivered| < |accepted|) || !writeopen ==> r == Option<int>.Some(|bytes|)
      ensures old(|delivered| < |accepted|) || !writeopen ==> |bytes| == if n < old(|accepted| - |delivered|) then n else old(|accepted| - |delivered|)
    {
      bytes := [];
      CountersTell(|delivered|, |accepted|, 0);
      if nread == nwrite && writeopen {
        return [], if killed then Some(-1) else None;
      }
      var i := 0;
      while i < n && nread != nwrite
        invariant 0 <= i <= n && Valid() && |bytes| == i && delivered == old(delivered) + bytes
        invariant nread == nwrite <==> |delivered| == |accepted|
      {
        var c := Get();
        CountersTell(|delivered|, |accepted|, 0);
        assert old(delivered) + (bytes + [c]) == old(delivered) + bytes + [c];
        bytes := bytes + [c];
        i := i + 1;
      }
      return bytes, Some(i);
    }

    /** pipeclose: true when both ends are closed and the page is freed. */
    method Close(writable: bool) returns (freed: bool)
      requires Valid()
      modifies this`readopen, this`writeopen
      ensures Valid() && writeopen == (old(writeopen) && !writable) && readopen == (old(readopen) && writable)
      ensures freed <==> !readopen && !writeopen
    {
      if writable {
        writeopen := false;
      } else {
        readopen := false;
      }
      freed := !readopen && !writeopen;
    }
  }
}
