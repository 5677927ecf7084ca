/**
 The circular byte buffer behind terminal replay (internal/terminal/ringbuf.go).
 The class keeps the source's fields and in-place copies; the specification is
 "the last `size` elements of everything written so far".
 */
module RingBuffers {

  type Byte = b: int | 0 <= b < 256 witness 0

  /** The last n elements of s, or all of s when it is shorter. */
  function LastN<T>(n: nat, s: seq<T>): (r: seq<T>)
    ensures |r| == if |s| <= n then |s| else n
    ensures r == s[|s| - |r|..]
  {
    if |s| <= n then s else s[|s| - n..]
  }

  function Flatten<T>(chunks: seq<seq<T>>): (r: seq<T>) {
    if chunks == [] then [] else Flatten(chunks[..|chunks| - 1]) + chunks[|chunks| - 1]
  }

  /** What a buffer of the given size holds after the writes, one step per write. */
  function AfterWrites(size: nat, writes: seq<seq<Byte>>): (r: seq<Byte>) {
    if writes == [] then []
    else LastN(size, AfterWrites(size, writes[..|writes| - 1]) + writes[|writes| - 1])
  }

  /** Dropping early, then appending and dropping again, loses nothing that a single late drop keeps. */
  lemma LastNAbsorbs<T>(n: nat, s: seq<T>, t: seq<T>)
    ensures LastN(n, LastN(n, s) + t) == LastN(n, s + t)
  {
    hide LastN;
    var d := |s| - |LastN(n, s)|;
    assert (s + t)[d..] == LastN(n, s) + t;
    DropDrop(s + t, d, |LastN(n, s + t)|);
  }

  lemma DropDrop<T>(s: seq<T>, d: nat, k: nat)
    requires d + k <= |s|
    ensures s[d..][|s| - d - k..] == s[|s| - k..]
  {
  }

  lemma LastNOfAppend<T>(n: nat, s: seq<T>, t: seq<T>)
    requires n <= |t|
    ensures LastN(n, s + t) == t[|t| - n..]
  {
  }

  /** For every sequence of writes, the buffer holds the last min(size, total) bytes of their concatenation. */
  lemma {:induction false} HoldsTailOfAllWrites(size: nat, writes: seq<seq<Byte>>)
    ensures AfterWrites(size, writes) == LastN(size, Flatten(writes))
  {
    if writes != [] {
      var init := writes[..|writes| - 1];
      HoldsTailOfAllWrites(size, init);
      LastNAbsorbs(size, Flatten(init), writes[|writes| - 1]);
    }
  }

  /** Go's built-in copy of src into cells[at..], as far as it fits. */
  function Copied(cells: seq<Byte>, at: nat, src: seq<Byte>): (r: seq<Byte>)
    requires at <= |cells|
    ensures |r| == |cells|
  {
    var n := if |src| <= |cells| - at then |src| else |cells| - at;
    cells[..at] + src[..n] + cells[at + n..]
  }

  method Copy(dst: array<Byte>, at: nat, src: seq<Byte>) returns (n: nat)
    requires at <= dst.Length
    modifies dst
    ensures n == if |src| <= dst.Length - at then |src| else dst.Length - at
    ensures dst[..] == Copied(old(dst[..]), at, src)
  {
    n := if |src| <= dst.Length - at then |src| else dst.Length - at;
    forall i | 0 <= i < n {
      dst[at + i] := src[i];
    }
  }

  /** Cells read oldest first: from the write position around to it, or the unwrapped prefix. */
  function Unrolled(cells: seq<Byte>, w: nat, full: bool): (r: seq<Byte>)
    requires w <= |cells|
    ensures |r| <= |cells|
  {
    if full then cells[w..] + cells[..w] else cells[..w]
  }

  /** Data at least as long as the buffer replaces it entirely by its own tail. */
  lemma OversizedWrite(cells: seq<Byte>, w: nat, full: bool, data: seq<Byte>)
    requires w <= |cells| <= |data|
    ensures
      var after := Copied(cells, 0, data[|data| - |cells|..]);
      Unrolled(after, 0, true) == LastN(|cells|, Unrolled(cells, w, full) + data)
  {
    var d := |data| - |cells|;
    assert Copied(cells, 0, data[d..]) == data[d..];
    assert Unrolled(data[d..], 0, true) == data[d..];
    hide Copied, Unrolled;
    LastNOfAppend(|cells|, Unrolled(cells, w, full), data);
  }

  /** A write that reaches past the end keeps the newest cells before the old write position, then the data. */
  lemma WrappingWrite(cells: seq<Byte>, w: nat, full: bool, data: seq<Byte>)
    requires w < |cells| && |cells| - w < |data| < |cells|
    ensures
      var n := |cells| - w;
      var after := Copied(Copied(cells, w, data), 0, data[n..]);
      Unrolled(after, |data| - n, true) == LastN(|cells|, Unrolled(cells, w, full) + data)
  {
    var n := |cells| - w;
    var w' := |data| - n;
    hide Copied, Unrolled, LastN;
    CopiedTwice(cells, w, data);
    KeepsNewest(cells, w, full, data);
    Rotated(data[n..], cells[w'..w], data[..n]);
    assert data[..n] + data[n..] == data;
    assert cells[w'..w] + data[..n] + data[n..] == cells[w'..w] + (data[..n] + data[n..]);
  }

  lemma CopiedTwice(cells: seq<Byte>, w: nat, data: seq<Byte>)
    requires w < |cells| && |cells| - w < |data| < |cells|
    ensures
      var n := |cells| - w;
      Copied(Copied(cells, w, data), 0, data[n..]) == data[n..] + cells[|data| - n..w] + data[..n]
  {
  }

  lemma Rotated(a: seq<Byte>, b: seq<Byte>, c: seq<Byte>)
    ensures Unrolled(a + b + c, |a|, true) == b + c + a
  {
  }

  lemma KeepsNewest(cells: seq<Byte>, w: nat, full: bool, data: seq<Byte>)
    requires w < |cells| && |cells| - w < |data| < |cells|
    ensures LastN(|cells|, Unrolled(cells, w, full) + data) == cells[|data| - (|cells| - w)..w] + data
  {
    var k := |data| - (|cells| - w);
    var older := if full then cells[w..] else [];
    assert Unrolled(cells, w, full) == older + cells[..w];
    hide Unrolled;
    DropInto(older, cells[..w], data, k);
    assert cells[..w][k..] == cells[k..w];
  }

  lemma DropInto<T>(a: seq<T>, b: seq<T>, c: seq<T>, k: nat)
    requires k <= |b|
    ensures (a + b + c)[|a| + k..] == b[k..] + c
  {
  }

  /** A write that stays before the end (or just reaches it) overwrites only the oldest cells. */
  lemma FittingWrite(cells: seq<Byte>, w: nat, full: bool, data: seq<Byte>)
    requires w < |cells| && |data| <= |cells| - w && |data| < |cells|
    ensures
      var w' := w + |data|;
      var after := Copied(cells, w, data);
      LastN(|cells|, Unrolled(cells, w, full) + data)
      == if w' == |cells| then Unrolled(after, 0, true) else Unrolled(after, w', full)
  {
    var before := Unrolled(cells, w, full);
    var after := Copied(cells, w, data);
    assert data[..|data|] == data;
    if full {
      assert before + data == cells[w..] + cells[..w] + data;
      assert (before + data)[|data|..] == cells[w + |data|..] + cells[..w] + data;
      assert after[w + |data|..] == cells[w + |data|..];
      assert after[..w + |data|] == cells[..w] + data;
    } else {
      assert after[..w + |data|] == cells[..w] + data;
    }
  }

  class RingBuffer {
    const size: nat
    var buf: array<Byte>
    var w: nat
    var full: bool

    ghost predicate Valid()
      reads this, buf
    {
      && buf.Length == size
      && (if size == 0 then w == 0 else w < size)
    }

    /** The buffered bytes, oldest first. */
    ghost function Contents(): (r: seq<Byte>)
      requires Valid()
      reads this, buf
      ensures |r| <= size
    {
      Unrolled(buf[..], w, full)
    }

    constructor (size: nat)
      ensures Valid() && fresh(buf)
      ensures this.size == size && Contents() == []
    {
      this.size := size;
      buf := new Byte[size];
      w := 0;
      full := false;
    }

    method Write(data: seq<Byte>)
      requires Valid()
      modifies this`w, this`full, buf
      ensures Valid() && buf == old(buf)
      ensures Contents() == LastN(size, old(Contents()) + data)
    {
      hide Unrolled, Copied, LastN;
      ghost var cells := buf[..];
      if |data| >= size {
        OversizedWrite(cells, w, full, data);
        var _ := Copy(buf, 0, data[|data| - size..]);
        w := 0;
        full := true;
        return;
      }
      var n := Copy(buf, w, data);
      if n < |data| {
        WrappingWrite(cells, w, full, data);
        var _ := Copy(buf, 0, data[n..]);
        w := |data| - n;
        full := true;
      } else {
        FittingWrite(cells, w, full, data);
        w := w + n;
        if w == size {
          w := 0;
          full := true;
        }
      }
    }

    /** One write after the other: whatever their sizes, a fresh buffer ends with the tail of them all. */
    method WriteAll(writes: seq<seq<Byte>>)
      requires Valid() && Contents() == []
      modifies this`w, this`full, buf
      ensures Valid() && buf == old(buf)
      ensures Contents() == LastN(size, Flatten(writes))
    {
      hide Unrolled, LastN;
      for i := 0 to |writes|
        invariant Valid() && buf == old(buf)
        invariant Contents() == AfterWrites(size, writes[..i])
      {
        assert writes[..i + 1][..i] == writes[..i];
        Write(writes[i]);
      }
      assert writes[..|writes|] == writes;
      HoldsTailOfAllWrites(size, writes);
    }

    method Bytes() returns (out: seq<Byte>)
      requires Valid()
      ensures out == Contents()
    {
      if !full {
        return buf[..w];
      }
      return buf[w..] + buf[..w];
    }
  }
}
