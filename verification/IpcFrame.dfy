/** internal/ipcframe: length-prefixed frames over a byte stream. */
module IpcFrame {
  import opened Protocol

  const HEADER_BYTES := 4
  const MAX_FRAME_BYTES := MAX_REPORT_BYTES

  /** binary.BigEndian.PutUint32 */
  function BigEndian(n: nat): (header: bytes)
    requires n < 0x1_0000_0000
    ensures |header| == HEADER_BYTES
  {
    [(n / 0x100_0000) as byte, (n / 0x1_0000 % 0x100) as byte, (n / 0x100 % 0x100) as byte, (n % 0x100) as byte]
  }

  /** binary.BigEndian.Uint32 */
  function Uint32(header: bytes): (n: nat)
    requires |header| == HEADER_BYTES
    ensures n < 0x1_0000_0000
  {
    header[0] as nat * 0x100_0000 + header[1] as nat * 0x1_0000 + header[2] as nat * 0x100 + header[3] as nat
  }

  lemma HeaderRoundTrip(n: nat)
    requires n < 0x1_0000_0000
    ensures Uint32(BigEndian(n)) == n
  {
    assert n == n / 0x100_0000 * 0x100_0000 + n / 0x1_0000 % 0x100 * 0x1_0000 + n / 0x100 % 0x100 * 0x100 + n % 0x100;
  }

  function FrameBytes(payload: bytes): bytes
    requires |payload| <= MAX_FRAME_BYTES
  {
    BigEndian(|payload|) + payload
  }

  /** Reading from the front of a stream: done with the rest left over, out of bytes, or refused. */
  datatype Parse<+T> = Done(value: T, rest: bytes) | Starved | Denied

  function ReadFrame(stream: bytes, maximum: int): (r: Parse<bytes>)
    ensures r.Done? ==> 0 < |r.value| <= maximum && |r.rest| < |stream|
  {
    if maximum <= 0 || maximum > MAX_FRAME_BYTES then Denied
    else if |stream| < HEADER_BYTES then Starved
    else
      var size := Uint32(stream[..HEADER_BYTES]);
      if size == 0 || size > maximum then Denied
      else if |stream| - HEADER_BYTES < size then Starved
      else Done(stream[HEADER_BYTES..HEADER_BYTES + size], stream[HEADER_BYTES + size..])
  }

  /** A legal payload reads back, whatever follows it. */
  lemma FrameRoundTrip(payload: bytes, tail: bytes, maximum: int)
    requires 0 < |payload| <= maximum <= MAX_FRAME_BYTES
    ensures ReadFrame(FrameBytes(payload) + tail, maximum) == Done(payload, tail)
  {
    HeaderRoundTrip(|payload|);
    var stream := FrameBytes(payload) + tail;
    assert stream[..HEADER_BYTES] == BigEndian(|payload|);
    assert stream[HEADER_BYTES..HEADER_BYTES + |payload|] == payload;
    assert stream[HEADER_BYTES + |payload|..] == tail;
  }

  /** Whatever was decided on a stream stays decided when more bytes arrive. */
  lemma FrameDecided(stream: bytes, more: bytes, maximum: int)
    ensures ReadFrame(stream, maximum).Done? ==>
              ReadFrame(stream + more, maximum) ==
                Done(ReadFrame(stream, maximum).value, ReadFrame(stream, maximum).rest + more)
    ensures ReadFrame(stream, maximum).Denied? ==> ReadFrame(stream + more, maximum).Denied?
  {
    if |stream| >= HEADER_BYTES {
      assert (stream + more)[..HEADER_BYTES] == stream[..HEADER_BYTES];
      var size := Uint32(stream[..HEADER_BYTES]);
      if |stream| - HEADER_BYTES >= size {
        assert (stream + more)[HEADER_BYTES..HEADER_BYTES + size] == stream[HEADER_BYTES..HEADER_BYTES + size];
        assert (stream + more)[HEADER_BYTES + size..] == stream[HEADER_BYTES + size..] + more;
      }
    }
  }

  // ----- The two ends of a stream -----

  /** The receiving end. `unread` is all that will ever arrive; then the stream ends or breaks. */
  class ByteReader {
    var unread: bytes
    const endsCleanly: bool

    constructor (unread: bytes, endsCleanly: bool)
      ensures this.unread == unread && this.endsCleanly == endsCleanly
    {
      this.unread, this.endsCleanly := unread, endsCleanly;
    }

    /** io.ReadFull: a truncated read consumes what there is. */
    method ReadFull(count: nat) returns (content: bytes, complete: bool)
      modifies this
      ensures complete <==> |old(unread)| >= count
      ensures complete ==> |content| == count && content == old(unread)[..count] && unread == old(unread)[count..]
      ensures !complete ==> unread == []
    {
      if |unread| < count {
        content, complete, unread := unread, false, [];
      } else {
        content, complete, unread := unread[..count], true, unread[count..];
      }
    }

    method Read(maximum: int) returns (payload: Option<bytes>)
      modifies this
      ensures payload.Some? <==> ReadFrame(old(unread), maximum).Done?
      ensures payload.Some? ==> ReadFrame(old(unread), maximum) == Done(payload.value, unread)
    {
      if maximum <= 0 || maximum > MAX_FRAME_BYTES { return None; }
      ghost var stream := unread;
      var header, headerComplete := ReadFull(HEADER_BYTES);
      if !headerComplete { return None; }
      var size := Uint32(header);
      if size == 0 || size > maximum { return None; }
      var content, complete := ReadFull(size);
      if !complete { return None; }
      assert stream[HEADER_BYTES..][..size] == stream[HEADER_BYTES..HEADER_BYTES + size];
      assert stream[HEADER_BYTES..][size..] == stream[HEADER_BYTES + size..];
      payload := Some(content);
    }

    /** expectEOF: nothing left, and the stream ended rather than broke. */
    method ExpectEof() returns (ok: bool)
      modifies this
      ensures ok <==> old(unread) == [] && endsCleanly
    {
      var _, complete := ReadFull(1);
      ok := !complete && endsCleanly;
    }
  }

  /** Exactly the first k bytes of `content` went out. */
  ghost predicate Sent(before: bytes, content: bytes, k: nat, after: bytes)
  {
    k <= |content| && after == before + content[..k]
  }

  /** The sending end: each write may be short, may fail, or may report a nonsensical count. */
  class ByteWriter {
    var written: bytes
    const faulty: bool

    constructor (faulty: bool)
      ensures written == [] && this.faulty == faulty
    {
      written, this.faulty := [], faulty;
    }

    method WriteOnce(content: bytes) returns (count: int, failed: bool)
      modifies this
      ensures 0 <= count <= |content| ==> written == old(written) + content[..count]
      ensures exists k: nat :: Sent(old(written), content, k, written)
      ensures !faulty && content != [] ==> 0 < count <= |content| && !failed
    {
      if faulty || content == [] {
        count, failed := *, *;
      } else {
        var shortBy: nat :| shortBy < |content|;
        count, failed := |content| - shortBy, false;
      }
      var moved := if 0 <= count <= |content| then count else 0;
      assert Sent(written, content, moved, written + content[..moved]);
      written := written + content[..moved];
    }

    /** The partial-write loop: success means the whole frame went out, failure at most a part of it. */
    method Write(payload: bytes, maximum: int) returns (ok: bool)
      modifies this
      ensures ok ==> 0 < |payload| <= maximum <= MAX_FRAME_BYTES && written == old(written) + FrameBytes(payload)
      ensures !ok && 0 < |payload| <= maximum <= MAX_FRAME_BYTES ==>
                exists k: nat :: Sent(old(written), FrameBytes(payload), k, written)
      ensures !ok && !(0 < |payload| <= maximum <= MAX_FRAME_BYTES) ==> written == old(written)
      ensures !faulty && 0 < |payload| <= maximum <= MAX_FRAME_BYTES ==> ok
    {
      if maximum <= 0 || maximum > MAX_FRAME_BYTES { return false; }
      if |payload| == 0 || |payload| > maximum { return false; }
      var frame := FrameBytes(payload);
      var sent := 0;
      assert frame[..0] == [];
      while sent < |frame|
        invariant 0 <= sent <= |frame|
        invariant written == old(written) + frame[..sent]
      {
        var count, failed := WriteOnce(frame[sent..]);
        ghost var k: nat :| Sent(old(written) + frame[..sent], frame[sent..], k, written);
        assert frame[..sent] + frame[sent..][..k] == frame[..sent + k];
        assert Sent(old(written), frame, sent + k, written);
        if count < 0 || count > |frame| - sent { return false; }
        assert frame[..sent] + frame[sent..][..count] == frame[..sent + count];
        sent := sent + count;
        if failed { return false; }
        if count == 0 { return false; }
      }
      assert frame[..|frame|] == frame;
      ok := true;
    }
  }
}
