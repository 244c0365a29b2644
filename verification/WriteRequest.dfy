/** How netconn_write_vectors_partly sets up a write: the 32-bit sum of the sizes, and the message. */
module WriteRequest {
  import opened Words
  import opened Vectors
  import opened Netconn

  const SSIZE_MAX: u32 := 0x7FFF_FFFF

  /** ERR_VAL, ERR_OK with nothing sent, or a message for that many bytes. */
  datatype Prepared = Refused | Nothing | Send(size: u32)

  /** The sum of the sizes; it wraps around exactly when the exact sum does not fit. */
  method SumSizes(vectors: seq<seq<byte>>) returns (overflow: bool, size: u32)
    requires forall k | 0 <= k < |vectors| :: |vectors[k]| <= 0xFFFF_FFFF
    ensures overflow <==> |Concat(vectors)| > 0xFFFF_FFFF
    ensures !overflow ==> size == |Concat(vectors)|
  {
    overflow, size := false, 0;
    ConcatLength(vectors);
    for i := 0 to |vectors|
      invariant size == Before(vectors, i)
    {
      size := Add32(size, |vectors[i]|);
      BeforeMonotone(vectors, i + 1, |vectors|);
      if size < |vectors[i]| {
        return true, size;
      }
    }
  }

  /** netconn_write_vectors_partly before the message is handed over. `hasCount` tells whether the caller takes the
      number of bytes written. */
  method PrepareWrite(vectors: seq<seq<byte>>, dontblock: bool, hasCount: bool) returns (r: Prepared)
    requires forall k | 0 <= k < |vectors| :: |vectors[k]| <= 0xFFFF_FFFF
    ensures r.Refused? <==>
      |Concat(vectors)| > 0xFFFF_FFFF || (!hasCount && (dontblock || |Concat(vectors)| > SSIZE_MAX))
    ensures r.Nothing? <==> Concat(vectors) == [] && !(dontblock && !hasCount)
    ensures r.Send? ==>
      0 < r.size == if |Concat(vectors)| > SSIZE_MAX then SSIZE_MAX else |Concat(vectors)|
  {
    if dontblock && !hasCount {
      return Refused;
    }
    var overflow, size := SumSizes(vectors);
    if overflow {
      return Refused;
    }
    if size == 0 {
      return Nothing;
    } else if size > SSIZE_MAX {
      if !hasCount {
        return Refused;
      }
      size := SSIZE_MAX;
    }
    r := Send(size);
  }

  /** The message, cut at SSIZE_MAX or not: it starts out as the protocol asks, for the size that was
      summed up, with all the vectors, and with the caller's flag; the mode of the netconn only matters to
      whether the write is refused here, and is read again when it begins. */
  method MessageFor(conn: Conn, vectors: seq<seq<byte>>, dontblock: bool, hasCount: bool)
      returns (r: Prepared, msg: ApiMsg?)
    requires forall k | 0 <= k < |vectors| :: |vectors[k]| <= 0xFFFF_FFFF
    ensures r.Refused? <==>
      || |Concat(vectors)| > 0xFFFF_FFFF
      || (!hasCount && (conn.nonBlocking || dontblock || |Concat(vectors)| > SSIZE_MAX))
    ensures r.Nothing? <==> Concat(vectors) == [] && !((conn.nonBlocking || dontblock) && !hasCount)
    ensures msg != null <==> r.Send?
    ensures msg != null ==>
      && fresh(msg) && msg.request == WriteVectors(vectors, r.size, dontblock)
      && r.size == (if |Concat(vectors)| > SSIZE_MAX then SSIZE_MAX else |Concat(vectors)|)
      && msg.Unfinished() && msg.offset == 0 && msg.signals == 0
  {
    msg := null;
    r := PrepareWrite(vectors, conn.nonBlocking || dontblock, hasCount);
    if r.Send? {
      msg := new ApiMsg.ForWrite(vectors, r.size, dontblock);
    }
  }
}
