/** `Comms`: sending and receiving with system calls that transfer less than asked for, or fail. */
module Comms {
  import opened Wire

  const EINTR := 4
  const EBADF := 9
  const EAGAIN := 11   // also EWOULDBLOCK
  const ENOMEM := 12
  const EFAULT := 14
  const EINVAL := 22
  const EPIPE := 32

  datatype ConnState = Unconnected | Connected | Terminated

  predicate IsFatalError(errno: int) {
    errno != EAGAIN && errno != EFAULT && errno != EINTR && errno != EINVAL && errno != ENOMEM
  }

  /** The errors after which a connection can go on. */
  const PASSING := {EAGAIN, EFAULT, EINTR, EINVAL, ENOMEM}

  /** One direction of a stream socket: everything written to it, how much has been read, and how
      the last system call on it ended. */
  class Socket {
    var written: seq<Byte>
    var consumed: nat
    var last: int    // what the last call returned
    var errno: int
    ghost var stalls: nat    // how many calls have transferred nothing

    ghost predicate Valid()
      reads this
    {
      consumed <= |written|
    }

    constructor ()
      ensures Valid() && written == [] && consumed == 0
    {
      written, consumed, last, errno, stalls := [], 0, 0, 0, 0;
    }

    /** `write`: some prefix of the data, or an error; always an error on a closed descriptor. */
    method Write(fd: int, data: seq<Byte>)
      requires Valid()
      modifies this
      ensures Valid() && consumed == old(consumed) && -1 <= last <= |data|
      ensures written == old(written) + data[..if last > 0 then last else 0]
      ensures stalls == old(stalls) + if last > 0 then 0 else 1
      ensures fd == -1 ==> last == -1 && errno == EBADF
    {
      last := -1;
      errno := EBADF;
      if fd != -1 {
        var e, n :| -1 <= n <= |data| && e > 0;
        last, errno := n, e;
        if n > 0 {
          written := written + data[..n];
        }
      }
      stalls := stalls + if last > 0 then 0 else 1;
    }

    /** `read`: at most `max` of the bytes that have arrived, the end of the stream, or an error;
        always an error on a closed descriptor. */
    method Read(fd: int, max: nat) returns (data: seq<Byte>)
      requires Valid()
      modifies this
      ensures Valid() && written == old(written) && -1 <= last <= max
      ensures |data| == (if last > 0 then last else 0) && consumed == old(consumed) + |data|
      ensures data == written[old(consumed)..consumed]
      ensures stalls == old(stalls) + if last > 0 then 0 else 1
      ensures fd == -1 ==> last == -1 && errno == EBADF
    {
      last := -1;
      errno := EBADF;
      data := [];
      if fd != -1 {
        var e, n :| -1 <= n <= max && n <= |written| - consumed && e > 0;
        last, errno := n, e;
        if n > 0 {
          data := written[consumed..consumed + n];
          consumed := consumed + n;
        }
      }
      stalls := stalls + if last > 0 then 0 else 1;
    }
  }

  class Connection {
    const output: Socket
    const input: Socket
    var state: ConnState
    var bindFd: int
    var connectionFd: int

    ghost predicate Valid()
      reads this, output, input
    {
      && output != input && output.Valid() && input.Valid()
      && (state.Terminated? ==> connectionFd == -1)
    }

    /** What has been read since `from` bytes had been. */
    ghost function Taken(from: nat): seq<Byte>
      requires Valid() && from <= input.consumed
      reads this, output, input
    {
      input.written[from..input.consumed]
    }

    constructor (fd: int, output: Socket, input: Socket)
      requires output != input && output.Valid() && input.Valid()
      ensures Valid() && this.output == output && this.input == input
      ensures state == Connected && connectionFd == fd && bindFd == -1
    {
      this.output, this.input, state, bindFd, connectionFd := output, input, Connected, -1, fd;
    }

    method Terminate()
      modifies this
      ensures state == Terminated && connectionFd == -1 && bindFd == -1
    {
      state := Terminated;
      bindFd := -1;
      connectionFd := -1;
    }

    /** All of the data is written, or a proper prefix of length `n` and the call fails. It goes on
        after short writes and fails exactly at the first write that transfers nothing. The connection ends
        exactly when it fails with a fatal error, and then nothing is ever sent. */
    method Send(data: seq<Byte>) returns (ok: bool, ghost n: nat)
      requires Valid()
      modifies this, output
      ensures Valid() && n <= |data| && output.written == old(output.written) + data[..n]
      ensures ok <==> n == |data|
      ensures output.consumed == old(output.consumed)
      ensures if !ok && output.last == -1 && output.errno !in PASSING then state == Terminated
              else state == old(state) && connectionFd == old(connectionFd)
      ensures old(connectionFd) == -1 && data != [] ==> n == 0
      ensures !ok ==> output.last <= 0
      ensures output.stalls == old(output.stalls) + if ok then 0 else 1
    {
      var totalSent := 0;
      n := 0;
      while totalSent < |data|
        invariant Valid() && 0 <= totalSent <= |data| && output.consumed == old(output.consumed)
        invariant output.written == old(output.written) + data[..totalSent]
        invariant state == old(state) && connectionFd == old(connectionFd)
        invariant connectionFd == -1 ==> totalSent == 0
        invariant output.stalls == old(output.stalls)
      {
        output.Write(connectionFd, data[totalSent..]);
        if output.last == -1 && output.errno == EPIPE {
          Terminate();
          return false, totalSent;
        }
        if output.last == -1 {
          if IsFatalError(output.errno) {
            Terminate();
          }
          return false, totalSent;
        }
        if output.last == 0 {
          return false, totalSent;
        }
        assert data[..totalSent] + data[totalSent..][..output.last] == data[..totalSent + output.last];
        totalSent := totalSent + output.last;
      }
      return true, totalSent;
    }

    /** The next `len` bytes, or fewer were read and the call fails. It goes on after short reads
        and fails exactly at the first read that transfers nothing. The connection ends exactly when it fails at
        the end of the stream or with a fatal error. */
    method Recv(len: nat) returns (ok: bool, data: seq<Byte>)
      requires Valid()
      modifies this, input
      ensures Valid() && old(input.consumed) <= input.consumed && input.written == old(input.written)
      ensures |data| <= len && data == Taken(old(input.consumed))
      ensures ok <==> |data| == len
      ensures if !ok && (input.last == 0 || (input.last == -1 && input.errno !in PASSING))
              then state == Terminated
              else state == old(state) && connectionFd == old(connectionFd)
      ensures old(connectionFd) == -1 && len > 0 ==> data == []
      ensures !ok ==> input.last <= 0
      ensures input.stalls == old(input.stalls) + if ok then 0 else 1
    {
      data := [];
      while |data| < len
        invariant Valid() && |data| <= len && input.written == old(input.written)
        invariant old(input.consumed) <= input.consumed && data == Taken(old(input.consumed))
        invariant state == old(state) && connectionFd == old(connectionFd)
        invariant connectionFd == -1 ==> data == []
        invariant input.stalls == old(input.stalls)
        decreases len - |data|
      {
        var more := input.Read(connectionFd, len - |data|);
        data := data + more;
        if input.last == -1 {
          if IsFatalError(input.errno) {
            Terminate();
          }
          return false, data;
        }
        if input.last == 0 {
          Terminate();
          return false, data;
        }
      }
      return true, data;
    }

    /** The next part of some data, of which `front` has been written behind `base`. */
    method SendPart(ghost base: seq<Byte>, ghost front: seq<Byte>, part: seq<Byte>, ghost all: seq<Byte>)
      returns (ok: bool, ghost n: nat)
      requires Valid() && output.written == base + front && front + part <= all
      modifies this, output
      ensures Valid() && |front| <= n <= |front + part| && output.written == base + all[..n]
      ensures ok <==> n == |front + part|
      ensures ok ==> output.written == base + (front + part)
      ensures output.consumed == old(output.consumed)
      ensures ok ==> state == old(state) && connectionFd == old(connectionFd)
      ensures old(connectionFd) == -1 && part != [] ==> n == |front|
      ensures !ok ==> output.last <= 0
      ensures output.stalls == old(output.stalls) + if ok then 0 else 1
    {
      ok, n := Send(part);
      assert all[..|front| + n] == front + part[..n];
      assert base + front + part[..n] == base + (front + part[..n]);
      assert ok ==> part[..n] == part;
      n := |front| + n;
    }

    /** The whole encoding is written, or a proper prefix of it; nothing if the value is too long
        or the connection has ended. A message within the limit fails only by a failing write. */
    method SendTLV(tag: Tag, value: seq<Byte>) returns (ok: bool, ghost n: nat)
      requires Valid()
      modifies this, output
      ensures Valid() && n <= |Encode(Msg(tag, value))|
      ensures output.written == old(output.written) + Encode(Msg(tag, value))[..n]
      ensures ok <==> n == |Encode(Msg(tag, value))|
      ensures !Sendable(Msg(tag, value)) || old(connectionFd) == -1 ==> n == 0
      ensures !ok && Sendable(Msg(tag, value)) ==> output.last <= 0
      ensures output.stalls == old(output.stalls) + if ok || !Sendable(Msg(tag, value)) then 0 else 1
      ensures output.consumed == old(output.consumed)
      ensures ok ==> state == old(state) && connectionFd == old(connectionFd)
    {
      ghost var e, base := Encode(Msg(tag, value)), output.written;
      var t, l := ToBytes(tag, TAG_BYTES), ToBytes(|value|, LENGTH_BYTES);
      assert e == t + l + value;
      if |value| > MAX_MSG_SIZE {
        return false, 0;
      }
      ok, n := SendPart(base, [], t, e);
      if !ok {
        return;
      }
      ok, n := SendPart(base, t, l, e);
      if !ok {
        return;
      }
      if |value| > 0 {
        ok, n := SendPart(base, t + l, value, e);
      }
    }

    /** Tag and length: succeeds exactly when a whole header within the limit was taken, and fails
        only by a failing read or a length above the limit. */
    method RecvTL() returns (ok: bool, tag: Tag, length: nat)
      requires Valid()
      modifies this, input
      ensures Valid() && old(input.consumed) <= input.consumed && input.written == old(input.written)
      ensures |Taken(old(input.consumed))| <= HEADER
      ensures ok <==> HeaderOk(Taken(old(input.consumed)))
      ensures !ok ==> input.last <= 0 || OverLimit(Taken(old(input.consumed)))
      ensures input.stalls == old(input.stalls) + if ok || OverLimit(Taken(old(input.consumed))) then 0 else 1
      ensures ok ==> Taken(old(input.consumed)) == ToBytes(tag, TAG_BYTES) + ToBytes(length, LENGTH_BYTES)
      ensures ok ==> length == LengthOf(Taken(old(input.consumed)))
    {
      tag, length := 0, 0;
      var data, more;
      ok, data := Recv(TAG_BYTES);
      if !ok {
        return;
      }
      FromToBytes(data);
      CapacityOf4();
      tag := FromBytes(data);
      ok, more := Recv(LENGTH_BYTES);
      ghost var taken := Taken(old(input.consumed));
      assert taken == data + more;
      if !ok {
        return;
      }
      FromToBytes(more);
      assert taken[TAG_BYTES..HEADER] == more;
      length := FromBytes(more);
      if length > MAX_MSG_SIZE {
        ok := false;
      }
    }

    /** Succeeds exactly when the bytes taken from the stream are a whole message within the limit,
        and then they are the encoding of the message returned. Fails only by a failing read or a
        length above the limit. */
    method RecvTLV() returns (ok: bool, tag: Tag, value: seq<Byte>)
      requires Valid()
      modifies this, input
      ensures Valid() && old(input.consumed) <= input.consumed && input.written == old(input.written)
      ensures ok <==> HeaderOk(Taken(old(input.consumed))) && Wanted(Taken(old(input.consumed))) == 0
      ensures !ok ==> input.last <= 0 || OverLimit(Taken(old(input.consumed)))
      ensures input.stalls == old(input.stalls) + if ok || OverLimit(Taken(old(input.consumed))) then 0 else 1
      ensures ok ==> Sendable(Msg(tag, value)) && Taken(old(input.consumed)) == Encode(Msg(tag, value))
    {
      value := [];
      var length;
      ok, tag, length := RecvTL();
      ghost var header := Taken(old(input.consumed));
      if !ok || length == 0 {
        return;
      }
      ok, value := Recv(length);
      assert Taken(old(input.consumed)) == header + value;
      assert (header + value)[TAG_BYTES..HEADER] == header[TAG_BYTES..HEADER];
    }

    /** Into a buffer of a given size: as before, except that a message that does not fit is left
        in the stream without its header. */
    method RecvTLVInto(bufferSize: nat) returns (ok: bool, tag: Tag, length: nat, value: seq<Byte>)
      requires Valid()
      modifies this, input
      ensures Valid() && old(input.consumed) <= input.consumed && input.written == old(input.written)
      ensures var taken := Taken(old(input.consumed));
              && (ok <==> HeaderOk(taken) && Wanted(taken) == 0 && LengthOf(taken) <= bufferSize)
              && (HeaderOk(taken) && LengthOf(taken) > bufferSize ==> |taken| == HEADER)
              && (!ok ==> input.last <= 0 || OverLimit(taken) || (HeaderOk(taken) && LengthOf(taken) > bufferSize))
              && input.stalls == old(input.stalls)
                                 + if ok || OverLimit(taken) || (HeaderOk(taken) && LengthOf(taken) > bufferSize)
                                   then 0 else 1
      ensures ok ==> length == |value| <= bufferSize && Taken(old(input.consumed)) == Encode(Msg(tag, value))
    {
      value := [];
      ok, tag, length := RecvTL();
      ghost var header := Taken(old(input.consumed));
      if !ok || length == 0 {
        return;
      }
      if length > bufferSize {
        ok := false;
        return;
      }
      ok, value := Recv(length);
      assert Taken(old(input.consumed)) == header + value;
      assert (header + value)[TAG_BYTES..HEADER] == header[TAG_BYTES..HEADER];
    }
  }

  /** A whole header whose length is within the limit. */
  predicate HeaderOk(taken: seq<Byte>) { |taken| >= HEADER && LengthOf(taken) <= MAX_MSG_SIZE }

  /** Exactly a header, with a length above the limit. */
  predicate OverLimit(taken: seq<Byte>) { |taken| == HEADER && LengthOf(taken) > MAX_MSG_SIZE }

  /** A message received from a stream of sent messages is the first of them. */
  lemma ReceivedIsSent(m: Msg, ms: seq<Msg>)
    requires Sendable(m) && Encode(m) <= Stream(ms) && forall x :: x in ms ==> Sendable(x)
    ensures ms != [] && m == ms[0]
  {
    assert ms[0] in ms;
    DecodeEncode(m);
    DecodeEncode(ms[0]);
    BeginningOfStream(Encode(m), ms);
  }
}
