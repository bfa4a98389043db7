/** The connection record of the embedded web server and the one primitive through
    which every protocol reader obtains bytes from the peer. */
module Connections {
  import opened Bytes

  const INT_MAX := 0x7FFF_FFFF

  predicate Suffix(s: seq<byte>, t: seq<byte>) {
    |s| <= |t| && s == t[|t| - |s|..]
  }

  /** The part of a connection that the protocol readers and writers touch.
      `incoming` is every byte the peer will still deliver; `interrupted` records that a
      receive failed although bytes were still due (error, timeout, stop), after which the
      connection is dead. */
  class Connection {
    const buf: array<byte>
    const tls: bool
    var requestLen: nat
    var dataLen: nat
    var incoming: seq<byte>
    var outgoing: seq<byte>
    var interrupted: bool
    var consumedContent: int
    var contentLen: int
    var isChunked: int
    var chunkRemainder: nat
    /** Every body byte not yet handed out, kept up to date by the body reader. */
    ghost var unread: seq<byte>

    ghost predicate Valid()
      reads `requestLen, `dataLen
    {
      requestLen <= dataLen <= buf.Length
    }

    /** The bytes received after the request head and not yet taken out of the buffer. */
    ghost function Queue(): seq<byte>
      requires Valid()
      reads `requestLen, `dataLen, buf
    {
      buf[requestLen..dataLen]
    }

    constructor (capacity: nat, stream: seq<byte>, tls: bool)
      ensures Valid() && fresh(buf) && buf.Length == capacity && this.tls == tls
      ensures requestLen == dataLen == 0 && incoming == stream && outgoing == []
      ensures !interrupted && consumedContent == contentLen == isChunked == 0 && chunkRemainder == 0
    {
      buf, this.tls := new byte[capacity], tls;
      requestLen, dataLen, incoming, outgoing, interrupted := 0, 0, stream, [], false;
      consumedContent, contentLen, isChunked, chunkRemainder := 0, 0, 0, 0;
    }

    /** The most bytes a request can yield.  A negative length reaches the plain socket as a huge
        unsigned one, of which the system serves at most INT_MAX bytes; TLS refuses it. */
    function Asked(len: int): nat {
      if len >= 0 then len else if tls then 0 else INT_MAX
    }

    /** Receives at least one and at most as many bytes as asked for, cutting the stream at a point
        of the transport's choosing, or reports a failure with a result that is not positive.  A
        server stop is noticed only after the bytes were received, which are then lost. */
    method Pull(dst: array<byte>, off: nat, len: int) returns (n: int)
      requires off + Asked(len) <= dst.Length
      modifies this`incoming, this`interrupted, dst
      ensures n > 0 ==> n <= Asked(len) && n <= |old(incoming)| && incoming == old(incoming)[n..]
      ensures n > 0 ==> dst[..off + n] == old(dst[..off]) + old(incoming)[..n]
      ensures n > 0 ==> interrupted == old(interrupted)
      ensures n <= 0 ==> dst[..off] == old(dst[..off]) && Suffix(incoming, old(incoming))
      ensures n <= 0 && !interrupted ==> incoming == old(incoming) && (Asked(len) == 0 || incoming == [])
      ensures old(interrupted) ==> interrupted && n <= 0
    {
      var fails: bool := *;
      if interrupted || (fails && len != 0) {
        interrupted := true;
        var dropped :| 0 <= dropped <= Asked(len) && dropped <= |incoming|;
        CopyTo(dst, off, incoming[..dropped]);
        assert dst[..off] == dst[..off + dropped][..off];
        incoming := incoming[dropped..];
        return -1;
      }
      if Asked(len) == 0 || |incoming| == 0 {
        return if len == 0 then 0 else -1;
      }
      n :| 1 <= n <= Asked(len) && n <= |incoming|;
      CopyTo(dst, off, incoming[..n]);
      incoming := incoming[n..];
    }

    /** Queues bytes for the peer. */
    method Write(data: seq<byte>)
      modifies this`outgoing
      ensures outgoing == old(outgoing) + data
    {
      outgoing := outgoing + data;
    }
  }
}
