/** Frames of the control protocol, as they are written to and read from a
    byte stream. Models `Frame::write_to` and `Frame::read_from` of
    src/lingcage/src/lcp/mod.rs. */
module Frames {
  import opened Wrappers
  import opened Bytes

  /** Bytes of the header, and those of it which the length counts. */
  const HEADER := 11
  const COUNTED := 7

  /** Limit of the length field. */
  const MAX_FRAME := 0x1_0000

  datatype Frame = Frame(id: nat, kind: nat, flags: Byte, payload: seq<Byte>)

  datatype Error = Truncated | Overfull(length: nat) | Io

  /** The fields fit their integers. */
  predicate Typed(f: Frame) {
    f.id < U32_LIMIT && f.kind < U16_LIMIT
  }

  predicate Writable(f: Frame) {
    |f.payload| + COUNTED <= MAX_FRAME
  }

  /** Length field of a frame, which saturates. */
  function Length(f: Frame): nat {
    if |f.payload| >= U32_LIMIT then MAX_FRAME + COUNTED
    else if |f.payload| + COUNTED >= U32_LIMIT then U32_LIMIT - 1
    else |f.payload| + COUNTED
  }

  function Header(f: Frame): (s: seq<Byte>)
    ensures |s| == HEADER
  {
    BigEndian(Length(f), 4) + BigEndian(f.id, 4) + BigEndian(f.kind, 2) + [f.flags]
  }

  function Encoding(f: Frame): (s: seq<Byte>)
    ensures |s| == HEADER + |f.payload|
  {
    Header(f) + f.payload
  }

  /** The bytes on the wire: a length which counts the seven header bytes after it
      and the payload, the id, the kind, each highest byte first, the flags, and
      the payload. */
  lemma WireLayout(f: Frame)
    requires Typed(f) && Writable(f)
    ensures var s, length := Encoding(f), |f.payload| + 7;
            && |s| == 11 + |f.payload| && length <= 65536
            && s[0] == length / 0x100_0000 % 256 && s[1] == length / 0x1_0000 % 256
            && s[2] == length / 0x100 % 256 && s[3] == length % 256
            && s[4] == f.id / 0x100_0000 % 256 && s[5] == f.id / 0x1_0000 % 256
            && s[6] == f.id / 0x100 % 256 && s[7] == f.id % 256
            && s[8] == f.kind / 0x100 % 256 && s[9] == f.kind % 256 && s[10] == f.flags
            && s[11..] == f.payload
  {
    FourBytes(Length(f));
    FourBytes(f.id);
    TwoBytes(f.kind);
    hide BigEndian;
    assert Encoding(f)[11..] == f.payload;
  }

  /** Payloads up to 65529 bytes are written, and a length field is read exactly
      from 7 to 65536. */
  lemma PayloadLimit(f: Frame, s: seq<Byte>)
    ensures Writable(f) <==> |f.payload| <= 65529
    ensures |s| >= 11 ==>
              (Decode(s).Err? && Decode(s).error.Overfull? <==> !(7 <= FromBigEndian(s[..4]) <= 65536))
  {
  }

  lemma FourBytes(v: nat)
    ensures var s := BigEndian(v, 4);
            && s[0] == v / 0x100_0000 % 256 && s[1] == v / 0x1_0000 % 256
            && s[2] == v / 0x100 % 256 && s[3] == v % 256
  {
    Widths();
    BigEndianDigit(v, 4, 0);
    BigEndianDigit(v, 4, 1);
    BigEndianDigit(v, 4, 2);
    BigEndianDigit(v, 4, 3);
    hide BigEndian;
    assert Pow256(0) == 1 && Pow256(1) == 256 && Pow256(3) == 0x100_0000;
  }

  lemma TwoBytes(v: nat)
    ensures BigEndian(v, 2)[0] == v / 0x100 % 256 && BigEndian(v, 2)[1] == v % 256
  {
    BigEndianDigit(v, 2, 0);
    BigEndianDigit(v, 2, 1);
    hide BigEndian;
    assert Pow256(0) == 1 && Pow256(1) == 256;
  }

  /** The frame `s` begins with and the bytes it takes. */
  function Decode(s: seq<Byte>): (r: Result<(Frame, nat), Error>)
    ensures r.Ok? ==> HEADER <= r.value.1 <= |s|
  {
    if |s| < HEADER then Err(Truncated)
    else
      var length := FromBigEndian(s[..4]);
      if length < COUNTED || length > MAX_FRAME then Err(Overfull(length))
      else
        var end := HEADER + (length - COUNTED);
        if |s| < end then Err(Truncated)
        else Ok((Frame(FromBigEndian(s[4..8]), FromBigEndian(s[8..10]), s[10], s[HEADER..end]), end))
  }

  lemma Slices(s: seq<Byte>, a: seq<Byte>, b: seq<Byte>, c: seq<Byte>, d: Byte)
    requires |a| == 4 && |b| == 4 && |c| == 2 && HEADER <= |s| && s[..HEADER] == a + b + c + [d]
    ensures s[..4] == a && s[4..8] == b && s[8..10] == c && s[10] == d
  {
    var h := a + b + c + [d];
    assert forall i :: 0 <= i < HEADER ==> s[i] == h[i];
  }

  lemma HeaderFields(f: Frame, s: seq<Byte>)
    requires Typed(f) && HEADER <= |s| && s[..HEADER] == Header(f)
    ensures FromBigEndian(s[..4]) == Length(f) && FromBigEndian(s[4..8]) == f.id
    ensures FromBigEndian(s[8..10]) == f.kind && s[10] == f.flags
  {
    Widths();
    BigEndianRoundTrip(Length(f), 4);
    BigEndianRoundTrip(f.id, 4);
    BigEndianRoundTrip(f.kind, 2);
    hide BigEndian, FromBigEndian, Pow256, Length;
    Slices(s, BigEndian(Length(f), 4), BigEndian(f.id, 4), BigEndian(f.kind, 2), f.flags);
  }

  /** A frame comes back from its encoding, whatever follows it. */
  lemma DecodeEncoding(f: Frame, rest: seq<Byte>)
    requires Typed(f) && Writable(f)
    ensures Decode(Encoding(f) + rest) == Ok((f, |Encoding(f)|))
  {
    var s := Encoding(f) + rest;
    assert s[..HEADER] == Header(f);
    HeaderFields(f, s);
    hide FromBigEndian, Header;
    assert s[HEADER..|Encoding(f)|] == f.payload;
  }

  /** Cut short anywhere, an encoding reads as truncated. */
  lemma PrefixIsTruncated(f: Frame, n: nat)
    requires Typed(f) && Writable(f) && n < |Encoding(f)|
    ensures Decode(Encoding(f)[..n]) == Err(Truncated)
  {
    if HEADER <= n {
      var s := Encoding(f)[..n];
      assert s[..HEADER] == Header(f);
      HeaderFields(f, s);
    }
  }

  /** What is read as a frame is its encoding, so the reader takes the payload
      sizes the writer does, and no other. */
  lemma DecodedIsEncoding(s: seq<Byte>)
    requires Decode(s).Ok?
    ensures var (f, n) := Decode(s).value;
            Typed(f) && Writable(f) && s[..n] == Encoding(f)
  {
    Widths();
    var (f, n) := Decode(s).value;
    BigEndianInverse(s[..4]);
    BigEndianInverse(s[4..8]);
    BigEndianInverse(s[8..10]);
    hide FromBigEndian, BigEndian, Pow256;
    assert s[..n] == s[..4] + s[4..8] + s[8..10] + [s[10]] + s[HEADER..n];
  }

  // ---- Streams of frames ----

  function EncodeAll(frames: seq<Frame>): seq<Byte> {
    if frames == [] then [] else Encoding(frames[0]) + EncodeAll(frames[1..])
  }

  /** Frames read one after another until a read does not return one. */
  function DecodeAll(s: seq<Byte>): (seq<Frame>, Error)
    decreases |s|
  {
    match Decode(s)
    case Err(e) => ([], e)
    case Ok((f, n)) =>
      var (frames, e) := DecodeAll(s[n..]);
      ([f] + frames, e)
  }

  lemma {:induction false} StreamThenTail(frames: seq<Frame>, tail: seq<Byte>)
    requires forall k :: 0 <= k < |frames| ==> Typed(frames[k]) && Writable(frames[k])
    requires DecodeAll(tail) == ([], Truncated)
    ensures DecodeAll(EncodeAll(frames) + tail) == (frames, Truncated)
    decreases |frames|
  {
    hide DecodeAll, Encoding;
    if frames == [] {
      assert EncodeAll(frames) + tail == tail;
    } else {
      StreamThenTail(frames[1..], tail);
      var rest := EncodeAll(frames[1..]) + tail;
      DecodeAllStep(frames[0], rest);
      assert EncodeAll(frames) + tail == Encoding(frames[0]) + rest;
      assert frames == [frames[0]] + frames[1..];
    }
  }

  /** Any frames which could be written come back in order from the bytes one
      after another, then the end of the stream is seen. A last frame cut short
      is lost, and no other. */
  lemma StreamRoundTrip(frames: seq<Frame>, last: Frame, n: nat)
    requires forall k :: 0 <= k < |frames| ==> Typed(frames[k]) && Writable(frames[k])
    requires Typed(last) && Writable(last) && n < |Encoding(last)|
    ensures DecodeAll(EncodeAll(frames) + Encoding(last)[..n]) == (frames, Truncated)
  {
    PrefixIsTruncated(last, n);
    hide Decode, Encoding, EncodeAll;
    StreamThenTail(frames, Encoding(last)[..n]);
  }

  lemma DecodeAllStep(f: Frame, rest: seq<Byte>)
    requires Typed(f) && Writable(f)
    ensures DecodeAll(Encoding(f) + rest) == ([f] + DecodeAll(rest).0, DecodeAll(rest).1)
  {
    DecodeEncoding(f, rest);
    hide Decode, Encoding;
    assert (Encoding(f) + rest)[|Encoding(f)|..] == rest;
  }

  /** No two streams of frames are written as the same bytes. */
  lemma {:induction false} StreamsDiffer(a: seq<Frame>, b: seq<Frame>)
    requires forall k :: 0 <= k < |a| ==> Typed(a[k]) && Writable(a[k])
    requires forall k :: 0 <= k < |b| ==> Typed(b[k]) && Writable(b[k])
    ensures EncodeAll(a) == EncodeAll(b) <==> a == b
  {
    var f := Frame(0, 0, 0, []);
    assert EncodeAll(a) + Encoding(f)[..0] == EncodeAll(a) && EncodeAll(b) + Encoding(f)[..0] == EncodeAll(b);
    StreamRoundTrip(a, f, 0);
    StreamRoundTrip(b, f, 0);
  }

  // ---- Writing ----

  class Sink {
    var written: seq<Byte>

    /** All of `data`, or a failure with a part of it written. */
    method WriteAll(data: seq<Byte>) returns (ok: bool)
      modifies this
      ensures ok ==> written == old(written) + data
      ensures exists n: nat :: n <= |data| && written == old(written) + data[..n]
    {
      var n: nat :| n <= |data|;
      ok := n == |data|;
      written := written + data[..n];
    }

    method Flush() returns (ok: bool)
    {
      ok := *;
    }
  }

  /** Write the frame. One which is too long writes nothing. */
  method WriteTo(f: Frame, out: Sink) returns (r: Result<(), Error>)
    requires Typed(f)
    modifies out
    ensures r.Ok? ==> out.written == old(out.written) + Encoding(f)
    ensures !Writable(f) <==> r == Err(Overfull(Length(f)))
    ensures !Writable(f) ==> out.written == old(out.written)
    ensures r.Err? && Writable(f) ==> r == Err(Io)
  {
    var small := if |f.payload| < U32_LIMIT then |f.payload| else MAX_FRAME;
    var length := if small + COUNTED < U32_LIMIT then small + COUNTED else U32_LIMIT - 1;
    if length > MAX_FRAME {
      return Err(Overfull(length));
    }
    var header := BigEndian(length, 4) + BigEndian(f.id, 4) + BigEndian(f.kind, 2) + [f.flags];
    hide BigEndian;
    var ok := out.WriteAll(header);
    if !ok {
      return Err(Io);
    }
    ok := out.WriteAll(f.payload);
    if !ok {
      return Err(Io);
    }
    ok := out.Flush();
    if !ok {
      return Err(Io);
    }
    assert (old(out.written) + header) + f.payload == old(out.written) + Encoding(f);
    r := Ok(());
  }

  // ---- Reading ----

  datatype ReadIo = Data(bytes: seq<Byte>) | Interrupted | Fault

  /** A connection with the bytes it will carry before it is closed. Reads may
      return any part of those left and may be interrupted, finitely often. */
  class Source {
    var content: seq<Byte>
    var at: nat
    var interrupts: nat

    ghost predicate Valid()
      reads this
    {
      at <= |content|
    }

    method Read(count: nat) returns (io: ReadIo)
      requires Valid() && count > 0
      modifies this`at, this`interrupts
      ensures Valid() && old(at) <= at
      ensures io.Data? ==> && |io.bytes| <= count && at == old(at) + |io.bytes| && io.bytes == content[old(at)..at]
                           && (io.bytes == [] <==> old(at) == |content|) && interrupts == old(interrupts)
      ensures io.Interrupted? ==> at == old(at) && interrupts < old(interrupts)
      ensures io.Fault? ==> at == old(at)
    {
      io := *;
      if io.Interrupted? && interrupts > 0 {
        interrupts := interrupts - 1;
      } else if !io.Fault? {
        var left := |content| - at;
        var most := if count <= left then count else left;
        var taken: nat :| taken <= most && (taken == 0 ==> most == 0);
        io := Data(content[at..at + taken]);
        at := at + taken;
      }
    }

    /** Fill `count` bytes, in as many reads as it takes. */
    method Fill(count: nat) returns (r: Result<seq<Byte>, Error>)
      requires Valid()
      modifies this`at, this`interrupts
      ensures Valid()
      ensures r.Ok? ==> |r.value| == count && at == old(at) + count && r.value == content[old(at)..at]
      ensures r.Err? ==> r.error == Truncated || r.error == Io
      ensures r == Err(Truncated) ==> |content| < old(at) + count && at == |content|
    {
      var got := [];
      while |got| < count
        invariant Valid() && |got| <= count && at == old(at) + |got| && got == content[old(at)..at]
        decreases count - |got|, interrupts
      {
        var io := Read(count - |got|);
        match io {
          case Data(bytes) =>
            if bytes == [] {
              return Err(Truncated);
            }
            got := got + bytes;
          case Interrupted =>
          case Fault =>
            return Err(Io);
        }
      }
      r := Ok(got);
    }
  }

  /** Read one frame, the same for any way the bytes come in. */
  method ReadFrom(from: Source) returns (r: Result<Frame, Error>)
    requires from.Valid()
    modifies from`at, from`interrupts
    ensures from.Valid()
    ensures r != Err(Io) ==>
              r == match Decode(from.content[old(from.at)..]) case Ok((f, _)) => Ok(f) case Err(e) => Err(e)
    ensures r.Ok? ==> from.at == old(from.at) + Decode(from.content[old(from.at)..]).value.1
    ensures r == Err(Truncated) ==> from.at == |from.content|
  {
    ghost var s := from.content[from.at..];
    var header := from.Fill(HEADER);
    if header.Err? {
      return Err(header.error);
    }
    var h := header.value;
    assert h == s[..HEADER];
    HeadOf(s, h);
    hide FromBigEndian;
    var length := FromBigEndian(h[..4]);
    if length < COUNTED || length > MAX_FRAME {
      return Err(Overfull(length));
    }
    var payload := from.Fill(length - COUNTED);
    if payload.Err? {
      return Err(payload.error);
    }
    assert payload.value == s[HEADER..HEADER + (length - COUNTED)];
    r := Ok(Frame(FromBigEndian(h[4..8]), FromBigEndian(h[8..10]), h[10], payload.value));
  }

  lemma HeadOf(s: seq<Byte>, h: seq<Byte>)
    requires HEADER <= |s| && h == s[..HEADER]
    ensures h[..4] == s[..4] && h[4..8] == s[4..8] && h[8..10] == s[8..10] && h[10] == s[10]
  {
  }

  /** Read frames until a read does not return one, as the reader of a connection
      does. For any chunking these are the frames of the bytes, with what ended
      them, unless a read faults, and then they are the first of them. */
  method ReadAll(from: Source) returns (frames: seq<Frame>, error: Error)
    requires from.Valid()
    modifies from`at, from`interrupts
    ensures from.Valid()
    ensures frames <= DecodeAll(from.content[old(from.at)..]).0
    ensures error != Io ==> (frames, error) == DecodeAll(from.content[old(from.at)..])
  {
    hide Decode;
    frames := [];
    ghost var all := DecodeAll(from.content[from.at..]);
    while true
      invariant from.Valid()
      invariant all.0 == frames + DecodeAll(from.content[from.at..]).0
      invariant all.1 == DecodeAll(from.content[from.at..]).1
      decreases |from.content| - from.at
    {
      ghost var s, at := from.content[from.at..], from.at;
      var r := ReadFrom(from);
      if r.Err? {
        assert r.error != Io ==> DecodeAll(s) == ([], r.error) && frames + [] == frames;
        return frames, r.error;
      }
      assert s[from.at - at..] == from.content[from.at..];
      frames := frames + [r.value];
    }
  }
}
