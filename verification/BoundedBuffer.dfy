/** The diagnostic buffer of basekite/cmd/exec.go: a writer that keeps the newest bytes. */
module BoundedBuffer {

  type byte = b: int | 0 <= b < 256

  /** The last `n` elements, all of them if there are fewer; none for a negative `n`. */
  function Last(s: seq<byte>, n: int): seq<byte> {
    if n <= 0 then [] else if |s| <= n then s else s[|s| - n..]
  }

  /** Keeping the tail after every write is keeping the tail of everything. */
  lemma LastOfLast(a: seq<byte>, b: seq<byte>, n: int)
    ensures Last(Last(a, n) + b, n) == Last(a + b, n)
  {
  }

  /** It is the end of the sequence, as long as `n` allows. */
  lemma LastIs(s: seq<byte>, n: int)
    ensures |Last(s, n)| == if n <= 0 then 0 else if |s| < n then |s| else n
    ensures Last(s, n) == s[|s| - |Last(s, n)|..]
  {
  }

  lemma Grouped(a: seq<byte>, b: seq<byte>, c: seq<byte>)
    ensures a + b + c == a + (b + c)
  {
  }

  class Buffer {
    var buf: seq<byte>
    const maxCap: int
    /** Everything written so far. */
    ghost var written: seq<byte>

    ghost predicate Valid()
      reads this
    {
      buf == Last(written, maxCap)
    }

    /** newBoundedBuffer: making a slice of negative capacity would panic. */
    constructor (maxCap: int)
      requires maxCap >= 0
      ensures Valid() && this.maxCap == maxCap && written == []
    {
      this.maxCap, buf, written := maxCap, [], [];
    }

    /** Every write reports its full length. When it overflows, the kept bytes are shifted to the
        front, the slice is cut, and the new bytes are appended. */
    method Write(p: seq<byte>) returns (n: nat)
      requires Valid()
      modifies this
      ensures Valid() && n == |p| && written == old(written) + p
      ensures |buf| <= |written| && buf == written[|written| - |buf|..]
      ensures |buf| == if maxCap <= 0 then 0 else if |written| < maxCap then |written| else maxCap
    {
      n := |p|;
      LastIs(written + p, maxCap);
      LastOfLast(written, p, maxCap);
      written := written + p;
      if maxCap <= 0 {
        return;
      }
      if |p| >= maxCap {
        buf := p[|p| - maxCap..];
        return;
      }
      var overflow := |buf| + |p| - maxCap;
      if overflow > 0 {
        var cut := |buf| - overflow;
        buf := buf[overflow..] + buf[cut..];
        buf := buf[..cut];
      }
      buf := buf + p;
    }

    /** Any sequence of writes leaves the last bytes of all of them. */
    method WriteAll(chunks: seq<seq<byte>>)
      requires Valid()
      modifies this
      ensures var all := old(written) + Concat(chunks);
        && |buf| == (if maxCap <= 0 then 0 else if |all| < maxCap then |all| else maxCap)
        && buf == all[|all| - |buf|..]
    {
      assert old(written) + Concat(chunks[..0]) == old(written);
      for i := 0 to |chunks|
        invariant Valid() && written == old(written) + Concat(chunks[..i])
      {
        var n := Write(chunks[i]);
        assert chunks[..i + 1][..i] == chunks[..i];
        Grouped(old(written), Concat(chunks[..i]), chunks[i]);
      }
      assert chunks[..|chunks|] == chunks;
      LastIs(old(written) + Concat(chunks), maxCap);
    }
  }

  function Concat(chunks: seq<seq<byte>>): seq<byte> {
    if chunks == [] then [] else Concat(chunks[..|chunks| - 1]) + chunks[|chunks| - 1]
  }
}
