// The framing of network messages (src/protocol.h, src/net.h, src/net.cpp): a byte stream is a
// list of 24-byte headers, each followed by as many bytes as it declares.
module Wire {

  type byte = x: int | 0 <= x < 256

  const HEADER_SIZE: nat := 24
  const MESSAGE_SIZE_OFFSET: nat := 16
  const CHECKSUM_OFFSET: nat := 20
  const MAX_SIZE: nat := 0x02000000

  // Four bytes, least significant first.
  function LE32(n: nat): (s: seq<byte>)
    ensures |s| == 4
  {
    [n % 0x100, n / 0x100 % 0x100, n / 0x10000 % 0x100, n / 0x1000000 % 0x100]
  }

  function FromLE32(s: seq<byte>): nat
    requires |s| == 4
  {
    (s[0] as int) + 0x100 * (s[1] as int) + 0x10000 * (s[2] as int) + 0x1000000 * (s[3] as int)
  }

  lemma LE32RoundTrip(n: nat)
    requires n < 0x1_0000_0000
    ensures FromLE32(LE32(n)) == n
  {
    assert n / 0x10000 == n / 0x100 / 0x100 && n / 0x1000000 == n / 0x10000 / 0x100;
  }

  // The size a complete header declares.
  function Declared(header: seq<byte>): nat
    requires |header| == HEADER_SIZE
  {
    FromLE32(header[MESSAGE_SIZE_OFFSET..MESSAGE_SIZE_OFFSET + 4])
  }

  datatype Message = Message(header: seq<byte>, payload: seq<byte>)

  // The messages of a stream and the bytes of one not complete yet, or a header that is refused.
  datatype Parse = Parsed(messages: seq<Message>, rest: seq<byte>) | Rejected(messages: seq<Message>)

  function Prepend(m: Message, p: Parse): Parse { p.(messages := [m] + p.messages) }

  function Frames(stream: seq<byte>): Parse
    decreases |stream|
  {
    if |stream| < HEADER_SIZE then Parsed([], stream)
    else
      var size := Declared(stream[..HEADER_SIZE]);
      if size > MAX_SIZE then Rejected([])
      else if |stream| < HEADER_SIZE + size then Parsed([], stream)
      else Prepend(Message(stream[..HEADER_SIZE], stream[HEADER_SIZE..HEADER_SIZE + size]),
                   Frames(stream[HEADER_SIZE + size..]))
  }

  // ---------------------------------------------------------------- the stream of a parse

  predicate WellFramed(m: Message) { |m.header| == HEADER_SIZE && |m.payload| == Declared(m.header) <= MAX_SIZE }

  function Bytes(m: Message): seq<byte> { m.header + m.payload }

  function Stream(ms: seq<Message>): seq<byte> {
    if ms == [] then [] else Stream(ms[..|ms| - 1]) + Bytes(ms[|ms| - 1])
  }

  lemma FramesStep(m: Message, tail: seq<byte>)
    requires WellFramed(m)
    ensures Frames(Bytes(m) + tail) == Prepend(m, Frames(tail))
  {
    var s := Bytes(m) + tail;
    assert s[..HEADER_SIZE] == m.header;
    assert s[HEADER_SIZE..HEADER_SIZE + |m.payload|] == m.payload;
    assert s[HEADER_SIZE + |m.payload|..] == tail;
  }

  function After(ms: seq<Message>, p: Parse): Parse { p.(messages := ms + p.messages) }

  lemma AfterPrepend(init: seq<Message>, last: Message, p: Parse)
    ensures After(init, Prepend(last, p)) == After(init + [last], p)
  {
    assert init + ([last] + p.messages) == init + [last] + p.messages;
  }

  // Complete messages first, then whatever the rest parses to.
  lemma {:induction false} FramesOf(ms: seq<Message>, tail: seq<byte>)
    requires forall i :: 0 <= i < |ms| ==> WellFramed(ms[i])
    ensures Frames(Stream(ms) + tail) == After(ms, Frames(tail))
  {
    hide Frames, Bytes, WellFramed;
    if ms == [] {
      assert Stream(ms) + tail == tail;
      assert ms + Frames(tail).messages == Frames(tail).messages;
    } else {
      var init, last := ms[..|ms| - 1], ms[|ms| - 1];
      assert Stream(ms) + tail == Stream(init) + (Bytes(last) + tail);
      FramesOf(init, Bytes(last) + tail);
      FramesStep(last, tail);
      AfterPrepend(init, last, Frames(tail));
      assert init + [last] == ms;
    }
  }

  // The first frame of a stream that holds one.
  lemma FirstFrame(stream: seq<byte>) returns (m: Message, tail: seq<byte>)
    requires Frames(stream).Parsed? && Frames(stream).messages != []
    ensures WellFramed(m) && stream == Bytes(m) + tail && Frames(stream) == Prepend(m, Frames(tail))
            && |tail| < |stream|
  {
    var size := Declared(stream[..HEADER_SIZE]);
    m := Message(stream[..HEADER_SIZE], stream[HEADER_SIZE..HEADER_SIZE + size]);
    tail := stream[HEADER_SIZE + size..];
  }

  lemma NoFrame(stream: seq<byte>)
    requires Frames(stream).Parsed? && Frames(stream).messages == []
    ensures Frames(stream).rest == stream
  {
  }

  // Parsing is the inverse of writing: the messages and the rest give the stream back.
  lemma {:induction false} FramesExact(stream: seq<byte>)
    requires Frames(stream).Parsed?
    ensures Stream(Frames(stream).messages) + Frames(stream).rest == stream
    ensures forall i :: 0 <= i < |Frames(stream).messages| ==> WellFramed(Frames(stream).messages[i])
    decreases |stream|
  {
    hide Frames, Bytes, WellFramed;
    if Frames(stream).messages == [] {
      NoFrame(stream);
      assert Stream([]) + stream == stream;
    } else {
      var m, tail := FirstFrame(stream);
      FramesExact(tail);
      StreamCons(m, Frames(tail).messages);
    }
  }

  lemma {:induction false} StreamCons(m: Message, ms: seq<Message>)
    ensures Stream([m] + ms) == Bytes(m) + Stream(ms)
  {
    var all := [m] + ms;
    if ms == [] {
      assert all[..|all| - 1] == [];
    } else {
      assert all[..|all| - 1] == [m] + ms[..|ms| - 1];
      StreamCons(m, ms[..|ms| - 1]);
    }
  }

  // A refused header stays refused, whatever follows.
  lemma {:induction false} RejectedStays(stream: seq<byte>, tail: seq<byte>)
    requires Frames(stream).Rejected?
    ensures Frames(stream + tail).Rejected?
    decreases |stream|
  {
    var s := stream + tail;
    assert s[..HEADER_SIZE] == stream[..HEADER_SIZE];
    var size := Declared(stream[..HEADER_SIZE]);
    if size <= MAX_SIZE {
      assert s[HEADER_SIZE + size..] == stream[HEADER_SIZE + size..] + tail;
      RejectedStays(stream[HEADER_SIZE + size..], tail);
    }
  }

  // ---------------------------------------------------------------- what a receiver can see

  // Of a stream of messages in transit, the bytes arrived so far parse to a prefix of them.
  lemma {:induction false} PrefixArrives(ms: seq<Message>, arrived: seq<byte>) returns (k: nat)
    requires forall i :: 0 <= i < |ms| ==> WellFramed(ms[i])
    requires arrived <= Stream(ms)
    ensures k <= |ms| && Frames(arrived).Parsed? && Frames(arrived).messages == ms[..k]
    ensures k < |ms| ==> Frames(arrived).rest < Bytes(ms[k])
    ensures k == |ms| ==> Frames(arrived).rest == []
  {
    hide Frames, Bytes, WellFramed, Stream;
    if ms == [] {
      k := 0;
      NoStream(arrived);
      return;
    }
    StreamLast(ms);
    var init, last := ms[..|ms| - 1], ms[|ms| - 1];
    if |arrived| < |Stream(init)| {
      assert arrived == Stream(init)[..|arrived|];
      k := PrefixArrives(init, arrived);
      AllArrived(init, arrived, k);
      assert init[..k] == ms[..k];
    } else {
      k := LastArrives(init, last, arrived);
      assert init + [last] == ms && init == ms[..|init|] && ms[..|ms|] == ms;
    }
  }

  lemma NoStream(arrived: seq<byte>)
    requires arrived <= Stream([])
    ensures arrived == [] && Frames(arrived) == Parsed([], [])
  {
  }

  lemma StreamLast(ms: seq<Message>)
    requires ms != []
    ensures Stream(ms) == Stream(ms[..|ms| - 1]) + Bytes(ms[|ms| - 1])
  {
  }

  lemma LastArrives(init: seq<Message>, last: Message, arrived: seq<byte>) returns (k: nat)
    requires (forall i :: 0 <= i < |init| ==> WellFramed(init[i])) && WellFramed(last)
    requires |arrived| >= |Stream(init)| && arrived <= Stream(init) + Bytes(last)
    ensures (k == |init| && Frames(arrived).Parsed? && Frames(arrived).messages == init
             && Frames(arrived).rest < Bytes(last))
            || (k == |init| + 1 && Frames(arrived) == Parsed(init + [last], []))
  {
    hide Frames, Bytes, WellFramed, Stream;
    var tail := arrived[|Stream(init)|..];
    assert arrived == Stream(init) + tail;
    FramesOf(init, tail);
    assert tail == Bytes(last)[..|tail|];
    k := if tail == Bytes(last) then |init| + 1 else |init|;
    LastFrame(init, last, tail);
    assert init + [] == init;
  }

  // Fewer bytes than the messages have means fewer messages.
  lemma AllArrived(ms: seq<Message>, arrived: seq<byte>, k: nat)
    requires k <= |ms| && |arrived| < |Stream(ms)| && Frames(arrived).Parsed?
    requires Frames(arrived).messages == ms[..k] && (k == |ms| ==> Frames(arrived).rest == [])
    ensures k < |ms|
  {
    FramesExact(arrived);
    assert ms[..|ms|] == ms;
    assert Stream(ms) + [] == Stream(ms);
  }

  lemma LastFrame(init: seq<Message>, last: Message, tail: seq<byte>)
    requires WellFramed(last) && tail <= Bytes(last)
    ensures After(init, Frames(tail)) == if tail == Bytes(last) then Parsed(init + [last], [])
            else Parsed(init + [], tail)
  {
    if tail == Bytes(last) {
      FramesStep(last, []);
      assert tail + [] == tail;
    } else {
      PartialFrame(last, tail);
    }
  }

  lemma PartialFrame(m: Message, part: seq<byte>)
    requires WellFramed(m) && part <= Bytes(m) && part != Bytes(m)
    ensures Frames(part) == Parsed([], part)
  {
    if |part| >= HEADER_SIZE {
      assert part[..HEADER_SIZE] == Bytes(m)[..HEADER_SIZE] == m.header;
    }
  }

  // ---------------------------------------------------------------- in bytes

  // The size stands in bytes 16 to 19 of the 24 of a header, least significant first.
  lemma DeclaredExactly(header: seq<byte>)
    requires |header| == 24
    ensures Declared(header) == (header[16] as int) + 256 * (header[17] as int) + 65536 * (header[18] as int)
                                + 16777216 * (header[19] as int)
  {
  }

  // A stream is refused exactly when, after complete messages of at most 32 MiB each, a header declares
  // more than that.
  lemma {:induction false} RejectedExactly(stream: seq<byte>, ms: seq<Message>, tail: seq<byte>)
    requires stream == Stream(ms) + tail && |tail| >= 24
    requires forall i :: 0 <= i < |ms| ==>
               |ms[i].header| == 24 && |ms[i].payload| == Declared(ms[i].header) <= 33554432
    ensures Declared(tail[..24]) > 33554432 ==> Frames(stream).Rejected?
    ensures Declared(tail[..24]) <= 33554432 && |tail| < 24 + Declared(tail[..24])
            ==> Frames(stream) == Parsed(ms, tail)
  {
    FramesOf(ms, tail);
    assert ms + [] == ms;
  }

  lemma {:induction false} RejectedOnlyThen(stream: seq<byte>) returns (ms: seq<Message>, tail: seq<byte>)
    requires Frames(stream).Rejected?
    ensures stream == Stream(ms) + tail && |tail| >= 24 && Declared(tail[..24]) > 33554432
    ensures forall i :: 0 <= i < |ms| ==>
              |ms[i].header| == 24 && |ms[i].payload| == Declared(ms[i].header) <= 33554432
    decreases |stream|
  {
    hide Declared;
    var size := Declared(stream[..24]);
    if size > 33554432 {
      ms, tail := [], stream;
      assert Stream([]) + stream == stream;
    } else {
      var m := Message(stream[..24], stream[24..24 + size]);
      var more;
      more, tail := RejectedOnlyThen(stream[24 + size..]);
      ms := [m] + more;
      StreamCons(m, more);
      assert stream == Bytes(m) + stream[24 + size..];
      assert Bytes(m) + (Stream(more) + tail) == Bytes(m) + Stream(more) + tail;
    }
  }
}
