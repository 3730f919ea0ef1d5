/** Circular buffers of frames, as the two handles of an alsaloop job see them: a window of
    frames that starts at some position and wraps at the end of the buffer, and a store of
    frames that wraps in the same way. */
module Ring {

  /** A position that may have run past the end once, brought back into the buffer. */
  function Wrap(i: nat, size: nat): (w: nat)
    requires 0 < size && i < 2 * size
    ensures w < size
  {
    if i < size then i else i - size
  }

  /** The C code reduces positions with `%`; up to one turn past the end this is `Wrap`. */
  lemma ModIsWrap(i: nat, size: nat)
    requires 0 < size && i < 2 * size
    ensures i % size == Wrap(i, size)
  {
    if i < size {
    } else {
      assert i == size * 1 + (i - size);
      assert i / size == 1;
    }
  }

  /** How far `i` lies after `pos`, going forward around the ring. */
  function Ahead(i: nat, pos: nat, size: nat): (d: nat)
    requires i < size && pos < size
    ensures d < size && Wrap(pos + d, size) == i
  {
    if pos <= i then i - pos else i + size - pos
  }

  /** The `count` frames found from `pos` on, in ring order. */
  function Window<T>(buf: seq<T>, pos: nat, count: nat): (w: seq<T>)
    requires pos < |buf| && count <= |buf|
    ensures |w| == count
  {
    seq(count, i requires 0 <= i < count => buf[Wrap(pos + i, |buf|)])
  }

  /** The buffer after `data` has been stored from `pos` on, in ring order. */
  function Put<T>(buf: seq<T>, pos: nat, data: seq<T>): (r: seq<T>)
    requires pos < |buf| && |data| <= |buf|
    ensures |r| == |buf|
  {
    seq(|buf|, i requires 0 <= i < |buf| =>
      var d := Ahead(i, pos, |buf|); if d < |data| then data[d] else buf[i])
  }

  /** A store that begins where a window ends, and fits into what the window leaves free,
      does not disturb the window and extends it. */
  lemma PutExtendsWindow<T>(buf: seq<T>, start: nat, count: nat, data: seq<T>)
    requires start < |buf| && count + |data| <= |buf|
    ensures var pos := Wrap(start + count, |buf|);
            Window(Put(buf, pos, data), start, count + |data|) == Window(buf, start, count) + data
  {
    var pos := Wrap(start + count, |buf|);
    var after := Put(buf, pos, data);
    forall i | 0 <= i < count + |data|
      ensures after[Wrap(start + i, |buf|)] == (Window(buf, start, count) + data)[i]
    {
      var at := Wrap(start + i, |buf|);
      if i < count {
        assert Ahead(at, pos, |buf|) >= |data|;
      } else {
        assert Ahead(at, pos, |buf|) == i - count;
      }
    }
  }

  lemma SplitWindow<T>(buf: seq<T>, pos: nat, a: nat, b: nat)
    requires pos < |buf| && a + b <= |buf|
    ensures Window(buf, pos, a + b)
         == Window(buf, pos, a) + Window(buf, Wrap(pos + a, |buf|), b)
  {
    var whole, parts := Window(buf, pos, a + b), Window(buf, pos, a) + Window(buf, Wrap(pos + a, |buf|), b);
    forall i | 0 <= i < a + b
      ensures whole[i] == parts[i]
    {
      assert whole[i] == buf[Wrap(pos + i, |buf|)];
      if a <= i {
        assert parts[i] == buf[Wrap(Wrap(pos + a, |buf|) + (i - a), |buf|)];
      }
    }
  }

  /** Two stores in a row are one longer store. */
  lemma PutPut<T>(buf: seq<T>, pos: nat, a: seq<T>, b: seq<T>)
    requires pos < |buf| && |a| + |b| <= |buf|
    ensures Put(Put(buf, pos, a), Wrap(pos + |a|, |buf|), b) == Put(buf, pos, a + b)
  {
    forall i | 0 <= i < |buf|
      ensures Put(Put(buf, pos, a), Wrap(pos + |a|, |buf|), b)[i] == Put(buf, pos, a + b)[i]
    {
      var d := Ahead(i, pos, |buf|);
      var e := Ahead(i, Wrap(pos + |a|, |buf|), |buf|);
      assert d >= |a| ==> e == d - |a|;
      assert d < |a| ==> e >= |b|;
    }
  }

  /** While nothing wraps, a window is a slice and a store replaces a slice. */
  lemma Straight<T>(buf: seq<T>, pos: nat, data: seq<T>)
    requires pos < |buf| && pos + |data| <= |buf|
    ensures Window(buf, pos, |data|) == buf[pos..pos + |data|]
    ensures Put(buf, pos, data) == buf[..pos] + data + buf[pos + |data|..]
  {
    forall i | 0 <= i < |data|
      ensures Window(buf, pos, |data|)[i] == buf[pos..pos + |data|][i]
    {
      assert Wrap(pos + i, |buf|) == pos + i;
    }
  }

  /** The next position after a step that does not pass the end of the buffer. */
  lemma StepAround(first: nat, pos: nat, chunk: nat, size: nat)
    requires 0 < size && first < size && pos + chunk <= size && pos < size
    requires Wrap(first + pos, size) + chunk <= size
    ensures (Wrap(first + pos, size) + chunk) % size == Wrap(first + pos + chunk, size)
  {
    ModIsWrap(Wrap(first + pos, size) + chunk, size);
  }

  /** Walking along a window in chunks that stop at the end of the buffer: where the next chunk
      begins, and which slice of the buffer this one is. */
  lemma ChunkOfWindow<T>(buf: seq<T>, first: nat, count: nat, pos: nat, chunk: nat)
    requires first < |buf| && pos + chunk <= count <= |buf| && pos < |buf|
    requires Wrap(first + pos, |buf|) + chunk <= |buf|
    ensures var p := Wrap(first + pos, |buf|);
            && Window(buf, first, count)[pos..pos + chunk] == buf[p..p + chunk]
            && (p + chunk) % |buf| == Wrap(first + pos + chunk, |buf|)
  {
    var p := Wrap(first + pos, |buf|);
    StepAround(first, pos, chunk, |buf|);
    var a, b := Window(buf, first, count)[pos..pos + chunk], buf[p..p + chunk];
    forall i | 0 <= i < chunk
      ensures a[i] == b[i]
    {
      assert a[i] == buf[Wrap(first + (pos + i), |buf|)];
    }
  }

  /** Storing a sequence in two goes. */
  lemma PutGrow<T>(buf: seq<T>, start: nat, out: seq<T>, done: nat, chunk: nat)
    requires start < |buf| && done + chunk <= |out| && done + chunk <= |buf|
    ensures Put(Put(buf, start, out[..done]), Wrap(start + done, |buf|), out[done..done + chunk])
         == Put(buf, start, out[..done + chunk])
  {
    PutPut(buf, start, out[..done], out[done..done + chunk]);
    assert out[..done] + out[done..done + chunk] == out[..done + chunk];
  }
}
