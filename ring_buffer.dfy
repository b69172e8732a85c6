/**
 * A fixed-size byte ring buffer: a write index `w`, a read index `r` and a
 * full flag over an array of `size` bytes. The readable bytes start at `r`
 * and run, wrapping past the end, up to `w`; when `w == r` the buffer is
 * either empty or, with the full flag set, full.
 */
module RingBuffers {

  import opened Common

  datatype RingError = ErrIsFull | ErrTooManyDataToWrite

  /** Index `x` of a doubled buffer folded back into `[0, size)`. */
  function Wrap(x: int, size: int): (i: int)
    requires 0 <= x < 2 * size
    ensures 0 <= i < size
  {
    if x < size then x else x - size
  }

  /** Wrap is reduction modulo `size`. */
  lemma WrapIsMod(x: int, size: int)
    requires 0 <= x < 2 * size
    ensures Wrap(x, size) == x % size
  {
  }

  /** Distance from `from` forward to `i`, wrapping at `size`. */
  function Offset(i: int, from: int, size: int): (d: int)
    requires 0 <= i < size && 0 <= from < size
    ensures 0 <= d < size
    ensures Wrap(from + d, size) == i
  {
    if i >= from then i - from else i - from + size
  }

  /**
   * Free space when the buffer is not full: everything but the stretch from
   * `r` up to `w`.
   */
  function FreeSpace(size: int, r: int, w: int): (avail: int)
    requires 0 <= size && 0 <= r && 0 <= w
    requires size > 0 ==> r < size && w < size
    requires size == 0 ==> r == 0 && w == 0
    ensures size == 0 ==> avail == 0
    ensures size > 0 ==> 0 < avail <= size
    ensures avail == size <==> w == r
  {
    if w >= r then size - w + r else r - w
  }

  /** Number of readable bytes. */
  function Used(size: int, r: int, w: int, isFull: bool): (used: int)
    requires 0 <= size && 0 <= r && 0 <= w
    requires size > 0 ==> r < size && w < size
    requires size == 0 ==> r == 0 && w == 0
    ensures 0 <= used <= size
    ensures !isFull ==> used + FreeSpace(size, r, w) == size
  {
    if isFull then size else if w >= r then w - r else size - r + w
  }

  /** The `used` bytes of `buf` starting at position `r`, wrapping at the end. */
  function ContentsOf(buf: seq<bv8>, r: int, used: int): (c: seq<bv8>)
    requires 0 <= used <= |buf|
    requires |buf| > 0 ==> 0 <= r < |buf|
    ensures |c| == used
    ensures forall j :: 0 <= j < used ==> c[j] == buf[Wrap(r + j, |buf|)]
  {
    if |buf| == 0 then [] else seq(used, j requires 0 <= j < used => buf[Wrap(r + j, |buf|)])
  }

  /**
   * `b` is `buf` with the first `n` bytes of `p` copied in from position `w0`
   * onwards, wrapping at the end; every other position keeps its byte.
   */
  ghost predicate CopiedAround(b: seq<bv8>, buf: seq<bv8>, w0: int, p: seq<bv8>, n: nat)
    requires n <= |p| && n <= |buf|
    requires |buf| > 0 ==> 0 <= w0 < |buf|
  {
    && |b| == |buf|
    && forall i {:trigger b[i]} :: 0 <= i < |buf| ==>
         b[i] == (if Offset(i, w0, |buf|) < n then p[Offset(i, w0, |buf|)] else buf[i])
  }

  /** Byte `j` of the copied prefix lands at position `(w0 + j) mod size`. */
  lemma CopiedAroundAt(b: seq<bv8>, buf: seq<bv8>, w0: int, p: seq<bv8>, n: nat, j: nat)
    requires n <= |p| && n <= |buf| && 0 <= w0 < |buf|
    requires CopiedAround(b, buf, w0, p, n)
    requires j < n
    ensures b[(w0 + j) % |buf|] == p[j]
  {
    var i := Wrap(w0 + j, |buf|);
    WrapIsMod(w0 + j, |buf|);
    assert Offset(i, w0, |buf|) == j;
  }

  /** A write that does not reach the end of the buffer is one straight copy. */
  lemma StraightWrite(buf: seq<bv8>, w0: int, p: seq<bv8>, n: nat)
    requires n <= |p| && 0 <= w0 && w0 + n <= |buf|
    requires |buf| > 0 ==> w0 < |buf|
    ensures CopiedAround(buf[..w0] + p[..n] + buf[w0 + n..], buf, w0, p, n)
  {
    var c := buf[..w0] + p[..n] + buf[w0 + n..];
    forall i | 0 <= i < |buf|
      ensures c[i] == (if Offset(i, w0, |buf|) < n then p[Offset(i, w0, |buf|)] else buf[i])
    {
      if i < w0 {
        assert Offset(i, w0, |buf|) == i - w0 + |buf|;
      }
    }
  }

  /**
   * A write that runs past the end is two copies: the first `c1` bytes of `p`
   * at `w0` up to the end (giving `b1`), then the remaining ones at 0 (giving `b2`).
   */
  lemma WrappedWrite(buf: seq<bv8>, b1: seq<bv8>, b2: seq<bv8>, w0: int, p: seq<bv8>)
    requires |p| <= |buf| && 0 <= w0 < |buf| && w0 + |p| > |buf|
    requires b1 == buf[..w0] + p[..|buf| - w0] + buf[|buf|..]
    requires b2 == b1[..0] + p[|buf| - w0..] + b1[|p| - (|buf| - w0)..]
    ensures CopiedAround(b2, buf, w0, p, |p|)
  {
    var c1 := |buf| - w0;
    var n := |p|;
    forall i | 0 <= i < |buf|
      ensures b2[i] == (if Offset(i, w0, |buf|) < n then p[Offset(i, w0, |buf|)] else buf[i])
    {
      if i < n - c1 {
        assert b2[i] == p[c1 + i];
        assert Offset(i, w0, |buf|) == i + c1;
      } else if i < w0 {
        assert b2[i] == buf[i];
        assert Offset(i, w0, |buf|) == i + c1;
      } else {
        assert b2[i] == p[i - w0];
      }
    }
  }

  /**
   * Appending through the write index: when `w0` is the position just past
   * the `used` readable bytes and `n` bytes fit in the free space, the
   * readable bytes afterwards are the old ones followed by the first `n`
   * bytes of `p`.
   */
  lemma WriteAppends(b: seq<bv8>, buf: seq<bv8>, r: int, used: int, w0: int, p: seq<bv8>, n: nat)
    requires 0 <= r < |buf| && 0 <= used < |buf| && used + n <= |buf| && n <= |p|
    requires w0 == Wrap(r + used, |buf|)
    requires CopiedAround(b, buf, w0, p, n)
    ensures ContentsOf(b, r, used + n) == ContentsOf(buf, r, used) + p[..n]
  {
    var size := |buf|;
    var lhs := ContentsOf(b, r, used + n);
    var rhs := ContentsOf(buf, r, used) + p[..n];
    forall j | 0 <= j < used + n
      ensures lhs[j] == rhs[j]
    {
      var i := Wrap(r + j, size);
      if j < used {
        assert Offset(i, w0, size) == j - used + size;
      } else {
        assert Offset(i, w0, size) == j - used;
      }
    }
  }

  /** Go's built-in `copy(dst[at:], src)` when `src` fits: the bytes at `at` onwards become `src`. */
  method CopyInto(dst: array<bv8>, at: int, src: seq<bv8>)
    requires 0 <= at && at + |src| <= dst.Length
    modifies dst
    ensures dst[..] == old(dst[..])[..at] + src + old(dst[..])[at + |src|..]
  {
    forall i | at <= i < at + |src| {
      dst[i] := src[i - at];
    }
    assert dst[..] == old(dst[..])[..at] + src + old(dst[..])[at + |src|..];
  }

  class RingBuffer {
    var buf: array<bv8>
    var size: int
    var r: int      // next position to read
    var w: int      // next position to write
    var isFull: bool

    ghost predicate Valid()
      reads this
    {
      && buf.Length == size
      && 0 <= size && 0 <= r && 0 <= w
      && (size > 0 ==> r < size && w < size)
      && (size == 0 ==> r == 0 && w == 0)
      && (isFull ==> w == r)
    }

    /** The bytes that a reader would read next, in order. */
    ghost function Contents(): seq<bv8>
      reads this, buf
      requires Valid()
    {
      ContentsOf(buf[..], r, Used(size, r, w, isFull))
    }

    /** New: an empty buffer of `size` zero bytes. */
    constructor New(size: nat)
      ensures Valid() && fresh(buf)
      ensures this.size == size && buf.Length == size
      ensures r == 0 && w == 0 && !isFull
      ensures forall i :: 0 <= i < size ==> buf[i] == 0
      ensures Contents() == []
    {
      buf := new bv8[size](_ => 0);
      this.size := size;
      r, w, isFull := 0, 0, false;
    }

    /**
     * Copies as much of `p` as fits into the free space at the write index,
     * wrapping around the end; reports a full buffer, or that `p` was cut short.
     */
    method Write(p: seq<bv8>) returns (n: nat, err: Option<RingError>)
      requires Valid()
      modifies this, buf
      ensures Valid() && buf == old(buf) && size == old(size) && r == old(r)
      ensures |p| == 0 ==>
        n == 0 && err == None && w == old(w) && isFull == old(isFull) && buf[..] == old(buf[..])
      ensures |p| > 0 && old(isFull) ==>
        n == 0 && err == Some(ErrIsFull) && w == old(w) && isFull && buf[..] == old(buf[..])
      ensures |p| > 0 && !old(isFull) ==>
        var avail := FreeSpace(size, r, old(w));
        && n == (if |p| > avail then avail else |p|)
        && (err == Some(ErrTooManyDataToWrite) <==> |p| > avail)
        && (err == None <==> |p| <= avail)
        && w == (if size == 0 then 0 else Wrap(old(w) + n, size))
        && isFull == (w == r)
        && isFull == (n == avail)
        && CopiedAround(buf[..], old(buf[..]), old(w), p, n)
      ensures Contents() == old(Contents()) + p[..n]
    {
      if |p| == 0 {
        return 0, None;
      }
      if isFull {
        return 0, Some(ErrIsFull);
      }
      var avail: int;
      if w >= r {
        avail := size - w + r;
      } else {
        avail := r - w;
      }
      var q := p;
      err := None;
      if |q| > avail {
        err := Some(ErrTooManyDataToWrite);
        q := q[..avail];
      }
      n := |q|;

      ghost var b0, used0 := buf[..], Used(size, r, w, isFull);
      ghost var w0 := w;
      assert q == p[..n];
      Place(q);
      if size > 0 {
        WriteAppends(buf[..], b0, r, used0, w0, p, n);
      }
    }

    /**
     * The copying part of Write: `q`, which fits in the free space, goes in at
     * the write index, wrapping at the end; then the index advances and the
     * full flag is raised when it meets the read index.
     */
    method Place(q: seq<bv8>)
      requires Valid() && !isFull && |q| <= FreeSpace(size, r, w)
      requires |q| > 0 || size == 0
      modifies this, buf
      ensures Valid() && buf == old(buf) && size == old(size) && r == old(r)
      ensures CopiedAround(buf[..], old(buf[..]), old(w), q, |q|)
      ensures w == (if size == 0 then 0 else Wrap(old(w) + |q|, size))
      ensures isFull == (w == r)
      ensures isFull == (|q| == FreeSpace(size, r, old(w)))
    {
      ghost var w0, b0 := w, buf[..];
      var n := |q|;
      assert q[..n] == q;
      if w >= r {
        var c1 := size - w;
        if c1 >= n {
          CopyInto(buf, w, q);
          StraightWrite(b0, w0, q, n);
          w := w + n;
        } else {
          CopyInto(buf, w, q[..c1]);
          ghost var b1 := buf[..];
          var c2 := n - c1;
          CopyInto(buf, 0, q[c1..]);
          WrappedWrite(b0, b1, buf[..], w0, q);
          w := c2;
        }
      } else {
        CopyInto(buf, w, q);
        StraightWrite(b0, w0, q, n);
        w := w + n;
      }
      if w == size {
        w := 0;
      }
      if w == r {
        isFull := true;
      }
    }
  }
}
