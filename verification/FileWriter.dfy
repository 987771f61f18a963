/**
 The buffered direct-I/O writer of src/qp_file.c: a fixed buffer, refilled and flushed to a device
 that may take less than it is offered, or fail.
 */
module FileWriter {
  import opened Common

  class File {
    const size: nat
    const wrbuf: array<byte>
    var offset: nat
    var offsetLast: nat

    // Not in the source: what the device has taken, how often it took nothing, and what the callers have written.
    ghost var device: seq<byte>
    ghost var refusals: nat
    ghost var written: seq<byte>

    /** Nothing is lost: what is not on the device yet is in the buffer, in order. */
    ghost predicate Valid()
      reads this, wrbuf
    {
      wrbuf.Length == size && 0 < size && offset <= size && device + wrbuf[..offset] == written
    }

    /** `qp_file_init` with QP_FILE_DIRECTIO and a buffer size above 0. */
    constructor (size: nat)
      requires 0 < size
      ensures Valid() && device == [] && written == [] && refusals == 0 && offset == 0 && this.size == size
    {
      this.size := size;
      wrbuf := new byte[size];
      offset, offsetLast := 0, 0;
      device, written, refusals := [], [], 0;
    }

    /**
     `write`: the device takes a part of the first `n` bytes, from its front, or fails. It refuses when it is
     offered something and takes nothing.
     */
    method DeviceWrite(n: nat) returns (ret: int)
      requires n <= wrbuf.Length
      modifies this`device, this`refusals
      ensures -1 <= ret <= n
      ensures device == if 0 < ret then old(device) + wrbuf[..ret] else old(device)
      ensures refusals == if 0 < n && ret < 1 then old(refusals) + 1 else old(refusals)
    {
      ret := *;
      if ret < -1 || n < ret {
        ret := -1;
      }
      if 0 < ret {
        device := device + wrbuf[..ret];
      } else if 0 < n {
        refusals := refusals + 1;
      }
    }

    /** `memcpy` of the first `n` bytes of `data` to position `at`. */
    method CopyIn(at: nat, data: seq<byte>, n: nat)
      requires at + n <= wrbuf.Length && n <= |data|
      modifies wrbuf
      ensures wrbuf[..] == old(wrbuf[..at]) + data[..n] + old(wrbuf[at + n..])
    {
      for i := 0 to n
        invariant forall j :: 0 <= j < wrbuf.Length ==>
                    wrbuf[j] == if at <= j < at + i then data[j - at] else old(wrbuf[j])
      {
        wrbuf[at + i] := data[i];
      }
    }

    /** The overlapping `memcpy`, as a move: `n` bytes from position `from` to the front. */
    method MoveDown(from: nat, n: nat)
      requires from + n <= wrbuf.Length
      modifies wrbuf
      ensures wrbuf[..n] == old(wrbuf[from..from + n])
    {
      for i := 0 to n
        invariant forall j :: 0 <= j < i ==> wrbuf[j] == old(wrbuf[from + j])
        invariant forall j :: i <= j < wrbuf.Length ==> wrbuf[j] == old(wrbuf[j])
      {
        wrbuf[i] := wrbuf[from + i];
      }
    }

    /** `qp_file_flush`: what the device takes leaves the buffer from its front; a failure changes neither. */
    method Flush(full: bool) returns (ret: int)
      requires wrbuf.Length == size && offset <= size
      modifies this`offset, this`offsetLast, this`device, this`refusals, wrbuf
      ensures offsetLast == if full then size else old(offset)
      ensures 0 < ret ==>
                && 0 <= offset < offsetLast && ret == size - offset
                && device + wrbuf[..offset] == old(device) + old(wrbuf[..])[..offsetLast]
      ensures ret <= 0 ==> offset == old(offset) && device == old(device) && wrbuf[..] == old(wrbuf[..])
      ensures refusals == if 0 < offsetLast && ret < 1 then old(refusals) + 1 else old(refusals)
      ensures old(device) <= device && (0 < ret ==> |old(device)| < |device|)
    {
      offsetLast := if full then size else offset;
      ret := DeviceWrite(offsetLast);
      if 0 < ret {
        ghost var before, buf := old(device), wrbuf[..];
        CutAt(buf, ret, offsetLast);
        Assoc(before, buf[..ret], buf[ret..offsetLast]);
        offset := offsetLast - ret;
        if offset != 0 {
          MoveDown(ret, offset);
        }
        assert wrbuf[..offset] == buf[ret..offsetLast];
        return size - offset;
      }
    }

    /** Less than the buffer can take is only copied. */
    method Append(data: seq<byte>)
      requires wrbuf.Length == size && offset + |data| < size
      modifies this`offset, this`offsetLast, wrbuf
      ensures offset == old(offset) + |data| && wrbuf[..offset] == old(wrbuf[..offset]) + data
    {
      offsetLast := offset;
      offset := offset + |data|;
      CopyIn(offsetLast, data, |data|);
      assert data[..|data|] == data;
    }

    /** Otherwise the buffer is filled; `offset` counts what was copied for it. */
    method Fill(data: seq<byte>)
      requires wrbuf.Length == size && offset <= size <= offset + |data|
      modifies this`offset, this`offsetLast, wrbuf
      ensures offset == size - old(offset) && wrbuf[..] == old(wrbuf[..offset]) + data[..offset]
    {
      offsetLast := offset;
      offset := size - offsetLast;
      CopyIn(offsetLast, data, offset);
    }

    /** One turn that fills the buffer and flushes it; `all` is what was written before. */
    method Turn(data: seq<byte>, ghost all: seq<byte>) returns (n: nat, ret: int)
      requires wrbuf.Length == size && 0 < size && offset <= size <= offset + |data| && device + wrbuf[..offset] == all
      modifies this`offset, this`offsetLast, this`device, this`refusals, wrbuf
      ensures n == size - old(offset)
      ensures 0 < ret ==> offset < size && device + wrbuf[..offset] == all + data[..n]
      ensures 0 < ret ==> |old(device)| < |device|
      ensures ret <= 0 ==> offset == n && device + wrbuf[..] == all + data[..n]
      ensures ret <= 0 ==> device == old(device) && device + wrbuf[..old(offset)] == all
      ensures refusals == if ret < 1 then old(refusals) + 1 else old(refusals)
    {
      ghost var buffered := wrbuf[..offset];
      Fill(data);
      n := offset;
      Assoc(device, buffered, data[..n]);
      assert wrbuf[..][..size] == wrbuf[..];
      ret := Flush(true);
    }

    /**
     `qp_file_write`. Unless the device refuses, all of `data` is written; the result is what was left to copy in the
     last turn, so it is |data| only if one turn was enough or the last one filled the buffer. When the device refuses,
     the buffer is full, `copied` bytes of `data` are on the device or in it, and `offset` counts only those the last
     turn added to the `buffered` bytes that were there before it.
     */
    method Write(data: seq<byte>) returns (ret: int, ghost copied: nat, ghost buffered: nat)
      requires Valid()
      modifies this, wrbuf
      ensures wrbuf.Length == size && copied <= |data| && old(refusals) <= refusals <= old(refusals) + 1
      ensures refusals == old(refusals) ==> Valid() && copied == |data| && written == old(written) + data
      ensures refusals == old(refusals) ==> ret <= |data| && (data != [] ==> 0 < ret)
      ensures refusals == old(refusals) && old(offset) + |data| <= size ==> ret == |data|
      ensures refusals > old(refusals) ==>
                && device + wrbuf[..] == old(written) + data[..copied]
                && (if copied < |data| then ret <= 0 else ret == |data|)
      ensures refusals > old(refusals) ==>
                && buffered <= size && offset == size - buffered <= copied
                && device + wrbuf[..buffered] == old(written) + data[..copied - offset]
                && (device == old(device) ==> buffered == old(offset))
    {
      ghost var all := written;
      var rest, len, done := data, |data|, |data|;
      ret, copied, buffered := 0, 0, 0;
      while true
        invariant copied <= |data| && len == |data| - copied && rest == data[copied..] && done == |data|
        invariant wrbuf.Length == size && 0 < size && offset <= size && refusals == old(refusals)
        invariant device + wrbuf[..offset] == all + data[..copied] && written == all
        invariant if copied == 0 && ret == 0 then offset == old(offset) && device == old(device)
                  else 0 < len && 0 < ret && offset < size && |old(device)| < |device|
        invariant old(offset) + |data| <= size ==> copied == 0 && ret == 0
        decreases len, offset == size
      {
        if size > offset + len {
          LastPart(all, data, copied);
          Assoc(device, wrbuf[..offset], rest);
          Append(rest);
          ret, copied, written := len, |data|, all + data;
          return;
        }
        ghost var before := copied;
        buffered := offset;
        var n;
        n, ret := Turn(rest, all + data[..copied]);
        NextPart(all, data, before, n);
        rest, len, copied := rest[n..], len - n, copied + n;
        if ret < 1 {
          break;
        }
        if len == 0 {
          written := all + data;
          assert data[..copied] == data;
          break;
        }
      }
      if len == 0 {
        ret := done;
      }
    }

    /**
     After a refusal, the bytes that were buffered before the last turn are what is forgotten: nothing is
     exactly when there were none.
     */
    lemma RefusalForgetsBuffered(all: seq<byte>, buffered: nat)
      requires wrbuf.Length == size && buffered <= size && offset == size - buffered && device + wrbuf[..] == all
      ensures device + wrbuf[..offset] == all <==> buffered == 0
      ensures |all| == |device + wrbuf[..offset]| + buffered
    {
      assert |device + wrbuf[..]| == |device| + size && |device + wrbuf[..offset]| == |device| + offset;
      if offset == size {
        assert wrbuf[..offset] == wrbuf[..];
      }
    }

    /** `qp_file_close`: flushes until nothing is left, unless the device refuses. */
    method Close()
      requires Valid()
      modifies this`offset, this`offsetLast, this`device, this`refusals, wrbuf
      ensures Valid() && written == old(written) && old(refusals) <= refusals <= old(refusals) + 1
      ensures refusals == old(refusals) ==> offset == 0 && device == written
      ensures refusals > old(refusals) ==> 0 < offset && old(device) <= device
    {
      if 0 < offset {
        var ret := 1;
        while ret > 0
          invariant Valid() && written == old(written) && old(device) <= device
          invariant if ret <= 0 && 0 < offset then refusals == old(refusals) + 1 else refusals == old(refusals)
          decreases offset, ret
        {
          ret := Flush(false);
        }
      }
      assert offset == 0 ==> wrbuf[..offset] == [];
    }
  }

  lemma Assoc(a: seq<byte>, b: seq<byte>, c: seq<byte>)
    ensures a + (b + c) == (a + b) + c
  {
  }

  lemma CutAt(s: seq<byte>, i: nat, j: nat)
    requires i <= j <= |s|
    ensures s[..i] + s[i..j] == s[..j]
  {
  }

  lemma NextPart(all: seq<byte>, data: seq<byte>, i: nat, n: nat)
    requires i + n <= |data|
    ensures all + data[..i + n] == all + data[..i] + data[i..][..n] && data[i..][n..] == data[i + n..]
  {
    assert data[..i + n] == data[..i] + data[i..][..n];
  }

  lemma LastPart(all: seq<byte>, data: seq<byte>, i: nat)
    requires i <= |data|
    ensures all + data[..i] + data[i..] == all + data
  {
    assert data[..i] + data[i..] == data;
  }
}
