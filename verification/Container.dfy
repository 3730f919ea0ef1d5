/** The file behind an axfer container, and the two loops that read and write it although every
    single system call may be short or ask to try again. */
module Container {
  import opened Bytes

  const EIO := 5
  const EAGAIN := 11
  const EINVAL := 22

  /** Error numbers other than the one that asks to try again. */
  type Errno = x: int | 0 < x && x != EAGAIN witness EIO

  /** What one read or write call does: it transfers at most `limit` bytes, or it fails. Calls
      behind the end of a script transfer as much as they can. */
  datatype IoEvent = Short(limit: nat) | Again | Fail(errno: Errno)

  /** No call fails for good. Any number of short transfers and EAGAINs is allowed. */
  predicate Benign(script: seq<IoEvent>) {
    forall e :: e in script ==> !e.Fail?
  }

  /** File contents after `data` was written at `pos`. */
  function Overwrite(bytes: seq<Byte>, pos: nat, data: seq<Byte>): (r: seq<Byte>)
    requires pos <= |bytes|
    ensures |r| >= |bytes| && pos + |data| <= |r|
  {
    bytes[..pos] + data + if pos + |data| < |bytes| then bytes[pos + |data|..] else []
  }

  class Context {
    var bytes: seq<Byte>
    var pos: nat
    var script: seq<IoEvent>
    var eof: bool

    constructor (bytes: seq<Byte>, script: seq<IoEvent>)
      ensures this.bytes == bytes && this.script == script && pos == 0 && !eof
    {
      this.bytes, this.script, pos, eof := bytes, script, 0, false;
    }

    predicate Valid()
      reads this
    {
      pos <= |bytes|
    }

    function Rest(): seq<Byte>
      requires Valid()
      reads this
    {
      bytes[pos..]
    }

    /** read(2); a negative result is the negated error number. */
    method SysRead(buf: array<Byte>, off: nat, count: nat) returns (result: int)
      requires Valid() && 0 < count && off + count <= buf.Length
      modifies this`pos, this`script, buf
      ensures Valid() && result <= count && result <= |old(Rest())|
      ensures result == 0 ==> old(Rest()) == []
      ensures 0 <= result ==> pos == old(pos) + result
      ensures 0 <= result ==> buf[..] == old(buf[..off]) + old(Rest())[..result] + old(buf[off + result..])
      ensures result < 0 ==> pos == old(pos) && buf[..] == old(buf[..]) && |script| < |old(script)|
      ensures |script| <= |old(script)| && (Benign(old(script)) ==> Benign(script))
      ensures Benign(old(script)) && result < 0 ==> result == -EAGAIN
    {
      var n := count;
      if script != [] {
        var e := script[0];
        assert e in script;
        script := script[1..];
        match e
        case Short(limit) => if limit < n { n := if limit == 0 then 1 else limit; }
        case Again => return -EAGAIN;
        case Fail(errno) =>
          var code: int := errno;
          return -code;
      }
      if n > |bytes| - pos { n := |bytes| - pos; }
      assert bytes[pos..pos + n] == Rest()[..n];
      StoreBytes(buf, off, bytes[pos..pos + n]);
      pos := pos + n;
      result := n;
    }

    method StoreBytes(buf: array<Byte>, off: nat, data: seq<Byte>)
      requires off + |data| <= buf.Length
      modifies buf
      ensures buf[..] == old(buf[..off]) + data + old(buf[off + |data|..])
    {
      for i := 0 to |data|
        invariant forall k :: 0 <= k < buf.Length ==>
                    buf[k] == if off <= k < off + i then data[k - off] else old(buf[k])
      {
        buf[off + i] := data[i];
      }
    }

    /** container_recursive_read: either the whole range is filled from the file, or the file is
        too short and the end-of-file flag is set, or a call failed. How the transfer was cut
        into pieces cannot be seen. */
    method RecursiveRead(buf: array<Byte>, off: nat, count: nat) returns (err: int)
      requires Valid() && off + count <= buf.Length
      modifies this`pos, this`script, this`eof, buf
      ensures Valid() && err <= 0 && (Benign(old(script)) ==> err == 0 && Benign(script))
      ensures buf[..off] == old(buf[..off]) && buf[off + count..] == old(buf[off + count..])
      ensures err == 0 && count <= |old(Rest())| ==>
                Rest() == old(Rest())[count..] && buf[off..off + count] == old(Rest())[..count] && eof == old(eof)
      ensures err == 0 && count > |old(Rest())| ==> eof && Rest() == []
    {
      var consumed := 0;
      err := 0;
      while consumed < count
        invariant Valid() && consumed <= count && consumed <= |old(Rest())|
        invariant pos == old(pos) + consumed && eof == old(eof)
        invariant buf[off..off + consumed] == old(Rest())[..consumed]
        invariant buf[..off] == old(buf[..off]) && buf[off + count..] == old(buf[off + count..])
        invariant Benign(old(script)) ==> Benign(script)
        decreases |script|, count - consumed
      {
        ghost var before, rest := buf[..], Rest();
        var result := SysRead(buf, off + consumed, count - consumed);
        if result < 0 {
          if result == -EAGAIN { continue; }
          err := result;
          return;
        }
        if result == 0 {
          eof := true;
          return;
        }
        assert buf[off..off + consumed + result] == before[off..off + consumed] + rest[..result];
        assert old(Rest())[..consumed] + rest[..result] == old(Rest())[..consumed + result];
        assert buf[..off] == before[..off] && buf[off + count..] == before[off + count..];
        consumed := consumed + result;
      }
    }

    /** write(2) */
    method SysWrite(buf: array<Byte>, off: nat, count: nat) returns (result: int)
      requires Valid() && off + count <= buf.Length
      modifies this`pos, this`script, this`bytes
      ensures Valid() && result <= count && |script| <= |old(script)|
      ensures 0 <= result ==> bytes == Overwrite(old(bytes), old(pos), buf[off..off + result])
      ensures 0 <= result ==> pos == old(pos) + result
      ensures result < 0 ==> bytes == old(bytes) && pos == old(pos)
      ensures result <= 0 && 0 < count ==> |script| < |old(script)|
      ensures Benign(old(script)) ==> Benign(script) && (result < 0 ==> result == -EAGAIN)
    {
      result := count;
      if script != [] {
        var e := script[0];
        assert e in script;
        script := script[1..];
        match e
        case Short(limit) => if limit < result { result := limit; }
        case Again => return -EAGAIN;
        case Fail(errno) =>
          var code: int := errno;
          return -code;
      }
      bytes := Overwrite(bytes, pos, buf[off..off + result]);
      pos := pos + result;
    }

    /** container_recursive_write of the first `count` bytes of `buf`. */
    method RecursiveWrite(buf: array<Byte>, count: nat) returns (err: int)
      requires Valid() && count <= buf.Length
      modifies this`pos, this`script, this`bytes
      ensures Valid() && err <= 0 && (Benign(old(script)) ==> err == 0 && Benign(script))
      ensures err == 0 ==> bytes == Overwrite(old(bytes), old(pos), buf[..count]) && pos == old(pos) + count
    {
      var consumed := 0;
      err := 0;
      assert Overwrite(bytes, pos, buf[..0]) == bytes;
      while consumed < count
        invariant Valid() && consumed <= count && pos == old(pos) + consumed
        invariant bytes == Overwrite(old(bytes), old(pos), buf[..consumed])
        invariant Benign(old(script)) ==> Benign(script)
        decreases |script|, count - consumed
      {
        var result := SysWrite(buf, consumed, count - consumed);
        if result < 0 {
          if result == -EAGAIN { continue; }
          err := result;
          return;
        }
        OverwriteTwice(old(bytes), old(pos), buf[..consumed], buf[consumed..consumed + result]);
        assert buf[..consumed] + buf[consumed..consumed + result] == buf[..consumed + result];
        consumed := consumed + result;
      }
    }

    /** Writing a structure: its bytes are laid out in a buffer, then written. */
    method WriteBytes(data: seq<Byte>) returns (err: int)
      requires Valid()
      modifies this`pos, this`script, this`bytes
      ensures Valid() && err <= 0 && (Benign(old(script)) ==> err == 0 && Benign(script))
      ensures err == 0 ==> bytes == Overwrite(old(bytes), old(pos), data) && pos == old(pos) + |data|
    {
      var buf := new Byte[|data|](i requires 0 <= i < |data| => data[i]);
      assert buf[..] == data;
      err := RecursiveWrite(buf, |data|);
    }

    /** container_seek_offset inside the file. */
    method Seek(offset: nat)
      requires offset <= |bytes|
      modifies this`pos
      ensures Valid() && pos == offset
    {
      pos := offset;
    }
  }

  lemma OverwriteTwice(bytes: seq<Byte>, pos: nat, a: seq<Byte>, b: seq<Byte>)
    requires pos <= |bytes|
    ensures Overwrite(Overwrite(bytes, pos, a), pos + |a|, b) == Overwrite(bytes, pos, a + b)
  {
  }
}
