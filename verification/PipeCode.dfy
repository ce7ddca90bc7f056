/** pipe.c over its ring buffer, with 32-bit counters that wrap.  Each method is proved to perform its step
    of the pipe machine. */
module PipeCode {
  import opened PipeModel

  /** Where byte number k of the pipe's history is kept: wrapping the counters does not move it. */
  lemma SlotOf(k: nat)
    ensures (k % WORD) % PIPESIZE == k % PIPESIZE
  {
    assert k == WORD * (k / WORD) + k % WORD && WORD == PIPESIZE * 0x80_0000;
    SlotSplit(k % WORD, 0x80_0000 * (k / WORD));
  }

  lemma SlotSplit(a: nat, m: nat)
    ensures (PIPESIZE * m + a) % PIPESIZE == a % PIPESIZE
  {
  }

  class RingPipe {
    var data: seq<nat>
    var nread: nat
    var nwrite: nat
    var readopen: bool
    var writeopen: bool
    var procs: seq<Proc>
    var killed: seq<bool>
    ghost var stored: seq<nat>
    ghost var delivered: seq<nat>

    ghost function S(): Pipe reads this { Pipe(stored, delivered, readopen, writeopen, procs, killed) }

    /** The counters are the lengths of the history, wrapped; the ring holds what is inside. */
    ghost predicate Ring() reads this {
      && |data| == PIPESIZE && InOrder(S()) && nread == |delivered| % WORD && nwrite == |stored| % WORD
      && forall k :: |delivered| <= k < |stored| ==> data[k % PIPESIZE] == stored[k]
    }

    ghost predicate Valid() reads this { Ring() && Inv(S()) }

    constructor (n: nat)
      ensures Valid() && Init(S()) && |procs| == n
    {
      data, nread, nwrite, readopen, writeopen := seq(PIPESIZE, i => 0), 0, 0, true, true;
      procs, killed, stored, delivered := seq(n, i => Idle), seq(n, i => false), [], [];
    }

    lemma FullWhen()
      requires Ring()
      ensures nwrite == (nread + PIPESIZE) % WORD <==> |stored| - |delivered| == PIPESIZE
      ensures nwrite == nread <==> |stored| == |delivered|
    {
      var d, c := |delivered|, |stored| - |delivered|;
      assert |stored| == d + c;
      WrapDiff(d, c, PIPESIZE);
      WrapDiff(d, c, 0);
    }

    /** data[nwrite++ % PIPESIZE] = b, when there is room. */
    method Put(b: nat)
      requires Ring() && |stored| < |delivered| + PIPESIZE
      modifies this`data, this`nwrite, this`stored
      ensures Ring() && stored == old(stored) + [b]
    {
      SlotOf(|stored|);
      WrapInc(|stored|);
      ghost var at := |stored| % PIPESIZE;
      forall k | |delivered| <= k < |stored| ensures k % PIPESIZE != at { Apart(k, |stored|); }
      data := data[nwrite % PIPESIZE := b];
      nwrite := (nwrite + 1) % WORD;
      stored := stored + [b];
    }

    /** data[nread++ % PIPESIZE], when there is one. */
    method Get() returns (b: nat)
      requires Ring() && |delivered| < |stored|
      modifies this`nread, this`delivered
      ensures Ring() && b == stored[|old(delivered)|] && delivered == old(delivered) + [b]
    {
      SlotOf(|delivered|);
      WrapInc(|delivered|);
      b := data[nread % PIPESIZE];
      nread := (nread + 1) % WORD;
      delivered := delivered + [b];
    }

    /** The turns of pipewrite's loop up to a full pipe, or all of them. */
    method Fill(rest: seq<nat>) returns (i: nat)
      requires Ring()
      modifies this`data, this`nwrite, this`stored
      ensures Ring() && i == Min(|rest|, PIPESIZE - (|old(stored)| - |delivered|)) && stored == old(stored) + rest[..i]
    {
      ghost var room := PIPESIZE - (|stored| - |delivered|);
      i := 0;
      while i < |rest|
        invariant i <= |rest| && i <= room && Ring() && stored == old(stored) + rest[..i]
      {
        FullWhen();
        if nwrite == (nread + PIPESIZE) % WORD { return; }
        Put(rest[i]);
        i := i + 1;
        assert stored == old(stored) + rest[..i];
      }
    }

    /** The loop of piperead. */
    method Drain(n: nat) returns (addr: seq<nat>)
      requires Ring()
      modifies this`nread, this`delivered
      ensures Ring() && |addr| == Min(n, |stored| - |old(delivered)|)
      ensures addr == stored[|old(delivered)|..|old(delivered)| + |addr|] && delivered == old(delivered) + addr
    {
      ghost var inside := |stored| - |delivered|;
      addr := [];
      var i := 0;
      while i < n
        invariant i <= n && i <= inside && Ring() && |addr| == i
        invariant addr == stored[|old(delivered)|..|old(delivered)| + i] && delivered == old(delivered) + addr
      {
        FullWhen();
        if nread == nwrite { return; }
        var b := Get();
        addr := addr + [b];
        i := i + 1;
      }
    }

    /** pipewrite from acquire, or from waking up, to its return or to sleep; `ok` is false where it returns -1. */
    method Pipewrite(p: nat) returns (ok: bool)
      requires Valid() && p < |procs| && procs[p].Writing?
      modifies this`data, this`nwrite, this`procs, this`stored
      ensures Valid() && S() == Do(old(S()), Write(p)) && |procs| == |old(procs)|
      ensures (var rest, room := old(procs)[p].rest, PIPESIZE - (|old(stored)| - |delivered|);
        && (|rest| <= room ==> ok && stored == old(stored) + rest && procs[p] == Idle)
        && (|rest| > room ==> stored == old(stored) + rest[..room] && (ok <==> readopen && !killed[p]))
        && (|rest| > room ==> procs[p] == if ok then WSleep(rest[room..]) else Idle))
      ensures forall i :: 0 <= i < |procs| && i != p ==>
        procs[i] == if ok && old(procs)[i].RSleep? then Reading(old(procs)[i].n) else old(procs)[i]
    {
      hide Inv, Do, Enabled;
      StepKeepsInv(S(), Write(p));
      Writes(S(), p);
      var rest := procs[p].rest;
      var i := Fill(rest);
      if i < |rest| {
        if !readopen || killed[p] {
          procs := procs[p := Idle];
          return false;
        }
        procs := WakeReaders(procs);
        procs := procs[p := WSleep(rest[i..])];
        return true;
      }
      assert rest[..i] == rest;
      procs := WakeReaders(procs);
      procs := procs[p := Idle];
      return true;
    }

    /** piperead from acquire, or from waking up, to its return or to sleep: what it returns, and the bytes that
        go to addr. */
    method Piperead(p: nat) returns (r: int, addr: seq<nat>)
      requires Valid() && p < |procs| && procs[p].Reading?
      modifies this`nread, this`procs, this`delivered
      ensures Valid() && S() == Do(old(S()), Read(p)) && |procs| == |old(procs)|
      ensures (var inside, n := |stored| - |old(delivered)|, old(procs)[p].n;
        && |addr| == (if n < inside then n else inside) && addr == stored[|old(delivered)|..|old(delivered)| + |addr|]
        && (procs[p] == RSleep(n) <==> inside == 0 && writeopen && !killed[p])
        && (procs[p] != RSleep(n) ==> procs[p] == Idle && r == if inside == 0 && writeopen then -1 else |addr|))
      ensures delivered == old(delivered) + addr
      ensures forall i :: 0 <= i < |procs| && i != p ==>
        procs[i] == if (|stored| > |old(delivered)| || !writeopen) && old(procs)[i].WSleep?
        then Writing(old(procs)[i].rest) else old(procs)[i]
    {
      StepKeepsInv(S(), Read(p));
      hide Inv;
      FullWhen();
      addr := [];
      var n := procs[p].n;
      if nread == nwrite && writeopen {
        if killed[p] {
          procs := procs[p := Idle];
          return -1, [];
        }
        procs := procs[p := RSleep(n)];
        return 0, [];
      }
      addr := Drain(n);
      procs := WakeWriters(procs);
      procs := procs[p := Idle];
      r := |addr|;
    }

    /** pipeclose of one end. */
    method Pipeclose(writable: bool)
      requires Valid() && forall i :: 0 <= i < |procs| ==>
        if writable then !procs[i].Writing? && !procs[i].WSleep? else !procs[i].Reading? && !procs[i].RSleep?
      modifies this`readopen, this`writeopen, this`procs
      ensures Valid() && S() == Do(old(S()), Close(writable)) && |procs| == |old(procs)|
      ensures readopen == (old(readopen) && writable) && writeopen == (old(writeopen) && !writable)
      ensures forall i :: 0 <= i < |procs| ==>
        procs[i] == if writable && old(procs)[i].RSleep? then Reading(old(procs)[i].n)
        else if !writable && old(procs)[i].WSleep? then Writing(old(procs)[i].rest) else old(procs)[i]
    {
      StepKeepsInv(S(), Close(writable));
      hide Inv;
      if writable {
        writeopen := false;
        procs := WakeReaders(procs);
      } else {
        readopen := false;
        procs := WakeWriters(procs);
      }
    }
  }

  lemma WrapInc(n: nat)
    ensures (n % WORD + 1) % WORD == (n + 1) % WORD
  {
  }

  /** Numbers less than 512 apart are told apart by their remainders. */
  lemma Apart(k: nat, n: nat)
    requires k < n < k + PIPESIZE
    ensures k % PIPESIZE != n % PIPESIZE
  {
  }

  lemma WrapDiff(d: nat, c: nat, m: nat)
    requires c <= PIPESIZE && m <= PIPESIZE
    ensures (d + c) % WORD == (d % WORD + m) % WORD <==> c == m
  {
  }
}
