// A peer's receive and send queues (src/net.h, src/net.cpp): CNetMessage, ReceiveMsgBytes,
// BeginMessage and EndMessage, SocketSendData.
module Net {
  import opened Common
  import opened Wire

  function Zeros(n: nat): (s: seq<byte>)
    ensures |s| == n
  {
    seq(n, _ => 0)
  }

  // `part` written over `buf` from position `at` on.
  function Overwrite(buf: seq<byte>, at: nat, part: seq<byte>): (r: seq<byte>)
    requires at + |part| <= |buf|
    ensures |r| == |buf| && r[..at] == buf[..at] && r[..at + |part|] == buf[..at] + part
  {
    buf[..at] + part + buf[at + |part|..]
  }

  // ---------------------------------------------------------------- one message

  // A message received in part or in full.
  predicate Receivable(m: Message) {
    && |m.header| <= HEADER_SIZE && (|m.header| < HEADER_SIZE ==> m.payload == [])
    && (|m.header| == HEADER_SIZE ==> |m.payload| <= Declared(m.header) <= MAX_SIZE)
  }

  // With `part` added, the header is complete and declares too much.
  predicate Refused(m: Message, part: seq<byte>) {
    && m.payload == [] && |m.header + part| == HEADER_SIZE && Declared(m.header + part) > MAX_SIZE
  }

  // CNetMessage: one message being received.
  class NetMessage {
    var inData: bool
    var hdrbuf: seq<byte>
    var nHdrPos: nat
    var nMessageSize: nat
    var vRecv: seq<byte>
    var nDataPos: nat

    constructor ()
      ensures Is(Message([], [])) && !inData
    {
      inData, hdrbuf, nHdrPos, nMessageSize, vRecv, nDataPos := false, Zeros(HEADER_SIZE), 0, 0, [], 0;
    }

    // The bytes absorbed are those of m.  The buffer for the data is never longer than the size
    // the header declares.
    ghost predicate Is(m: Message)
      reads this
    {
      && |hdrbuf| == HEADER_SIZE && nHdrPos <= HEADER_SIZE
      && (inData <==> nHdrPos == HEADER_SIZE)
      && (if inData then nMessageSize == Declared(hdrbuf) <= MAX_SIZE && nDataPos <= |vRecv| <= nMessageSize
          else nDataPos == 0 && vRecv == [])
      && m == Message(hdrbuf[..nHdrPos], vRecv[..nDataPos])
    }

    predicate Complete()
      reads this
    {
      inData && nMessageSize == nDataPos
    }

    lemma IsReceivable(m: Message)
      requires Is(m)
      ensures Receivable(m) && (Complete() <==> WellFramed(m)) && (inData <==> |m.header| == HEADER_SIZE)
    {
      assert hdrbuf[..HEADER_SIZE] == hdrbuf;
    }

    // The number of bytes taken, or None for a header that is refused.
    method ReadHeader(pch: seq<byte>, ghost m: Message) returns (handled: Option<nat>, ghost n: nat)
      requires Is(m) && !inData && pch != []
      modifies this
      ensures n == Min(HEADER_SIZE - |m.header|, |pch|) && 0 < n
      ensures handled.None? <==> Refused(m, pch[..n])
      ensures handled.Some? ==> handled.value == n && Is(Message(m.header + pch[..n], []))
    {
      var nRemaining := HEADER_SIZE - nHdrPos;
      var nCopy := Min(nRemaining, |pch|);
      n := nCopy;
      hdrbuf := Overwrite(hdrbuf, nHdrPos, pch[..nCopy]);
      nHdrPos := nHdrPos + nCopy;
      assert hdrbuf[..nHdrPos] == m.header + pch[..nCopy];
      if nHdrPos < HEADER_SIZE {
        return Some(nCopy), n;
      }
      assert hdrbuf[..nHdrPos] == hdrbuf;
      nMessageSize := Declared(hdrbuf);
      if nMessageSize > MAX_SIZE {
        return None, n;
      }
      inData := true;
      handled := Some(nCopy);
    }

    // The number of bytes taken.  The buffer grows up to 256 KiB ahead.
    method ReadData(pch: seq<byte>, ghost m: Message) returns (handled: nat)
      requires Is(m) && inData && !Complete() && pch != []
      modifies this`vRecv, this`nDataPos
      ensures handled == Min(Declared(m.header) - |m.payload|, |pch|) && 0 < handled
      ensures Is(Message(m.header, m.payload + pch[..handled]))
      ensures |vRecv| <= Max(|old(vRecv)|, nDataPos + 256 * 1024)
    {
      assert hdrbuf[..HEADER_SIZE] == hdrbuf;
      var nRemaining := nMessageSize - nDataPos;
      var nCopy := Min(nRemaining, |pch|);
      if |vRecv| < nDataPos + nCopy {
        var size := Min(nMessageSize, nDataPos + nCopy + 256 * 1024);
        vRecv := vRecv + Zeros(size - |vRecv|);
      }
      assert vRecv[..nDataPos] == m.payload;
      vRecv := Overwrite(vRecv, nDataPos, pch[..nCopy]);
      nDataPos := nDataPos + nCopy;
      handled := nCopy;
    }

    // Takes what it can of a chunk.
    method Absorb(pch: seq<byte>, ghost m: Message) returns (handled: Option<nat>, ghost n: nat, ghost now: Message)
      requires Is(m) && !Complete() && pch != []
      modifies this
      ensures 0 < n <= |pch| && (handled.None? ==> Refused(m, pch[..n]))
      ensures handled.Some? ==> handled.value == n && Is(now) && Bytes(now) == Bytes(m) + pch[..n]
    {
      IsReceivable(m);
      now := m;
      if !inData {
        handled, n := ReadHeader(pch, m);
        now := Message(m.header + pch[..n], []);
      } else {
        var taken := ReadData(pch, m);
        handled, n, now := Some(taken), taken, Message(m.header, m.payload + pch[..taken]);
      }
    }
  }

  // ---------------------------------------------------------------- the queue of messages

  // All messages but the last are complete.
  predicate Queued(ms: seq<Message>) {
    && (forall i :: 0 <= i < |ms| ==> Receivable(ms[i]))
    && (forall i :: 0 <= i < |ms| - 1 ==> WellFramed(ms[i]))
  }

  // The complete messages of a queue.
  function Finished(ms: seq<Message>): seq<Message> {
    if ms != [] && !WellFramed(ms[|ms| - 1]) then ms[..|ms| - 1] else ms
  }

  lemma IncompleteFrame(m: Message)
    requires Receivable(m) && !WellFramed(m)
    ensures Frames(Bytes(m)) == Parsed([], Bytes(m))
  {
    if |m.header| == HEADER_SIZE {
      assert Bytes(m)[..HEADER_SIZE] == m.header;
    }
  }

  // A receive queue is the parse of the bytes it absorbed, however they were cut up.
  lemma QueueIsParse(ms: seq<Message>)
    requires Queued(ms)
    ensures Frames(Stream(ms)).Parsed? && Frames(Stream(ms)).messages == Finished(ms)
    ensures Stream(ms) == Stream(Finished(ms)) + Frames(Stream(ms)).rest
  {
    hide Frames, Bytes;
    var done := Finished(ms);
    if done == ms {
      assert Stream(ms) + [] == Stream(ms);
      FramesOf(ms, []);
      NothingReceived();
      assert ms + [] == ms;
    } else {
      var last := ms[|ms| - 1];
      FramesOf(done, Bytes(last));
      IncompleteFrame(last);
      assert done + [] == done;
    }
  }

  lemma NothingReceived()
    ensures Frames([]) == Parsed([], [])
  {
  }

  // The last message of the queue grows by `part`.
  lemma LastGrows(ms: seq<Message>, m: Message, part: seq<byte>)
    requires ms != [] && Bytes(m) == Bytes(ms[|ms| - 1]) + part
    ensures Stream(ms[..|ms| - 1] + [m]) == Stream(ms) + part
  {
    hide *;
    var init, last := ms[..|ms| - 1], ms[|ms| - 1];
    assert ms == init + [last];
    StreamSnoc(init, last);
    StreamSnoc(init, m);
    Associative(Stream(init), Bytes(last), part);
  }

  lemma Associative(a: seq<byte>, b: seq<byte>, c: seq<byte>)
    ensures a + b + c == a + (b + c)
  {
  }

  lemma EmptyMessage(ms: seq<Message>)
    requires Queued(ms) && (ms != [] ==> WellFramed(ms[|ms| - 1]))
    ensures Queued(ms + [Message([], [])]) && Stream(ms + [Message([], [])]) == Stream(ms)
  {
    hide *;
    StreamSnoc(ms, Message([], []));
    NoBytes();
    QueuedSnoc(ms);
  }

  lemma NoBytes()
    ensures Bytes(Message([], [])) == []
  {
  }

  lemma QueuedSnoc(ms: seq<Message>)
    requires Queued(ms) && (ms != [] ==> WellFramed(ms[|ms| - 1]))
    ensures Queued(ms + [Message([], [])])
  {
    assert Receivable(Message([], []));
    hide Receivable, WellFramed;
  }

  lemma StreamSnoc(ms: seq<Message>, m: Message)
    ensures Stream(ms + [m]) == Stream(ms) + Bytes(m)
  {
    assert (ms + [m])[..|ms|] == ms;
  }

  lemma StillQueued(ms: seq<Message>, m: Message)
    requires Queued(ms) && ms != [] && Receivable(m)
    ensures Queued(ms[..|ms| - 1] + [m])
  {
  }

  // A header that is refused makes the whole stream refused.
  lemma HeaderRefused(ms: seq<Message>, part: seq<byte>, tail: seq<byte>)
    requires Queued(ms) && ms != [] && Refused(ms[|ms| - 1], part)
    ensures Frames(Stream(ms) + (part + tail)).Rejected?
  {
    var init, last := ms[..|ms| - 1], ms[|ms| - 1];
    var header := last.header + part;
    BadFrame(header);
    hide Frames, Declared, WellFramed, Stream;
    FramesOf(init, header);
    RejectedStays(Stream(init) + header, tail);
    StreamSnoc(init, last);
    assert init + [last] == ms && Bytes(last) == last.header;
    RegroupFour(Stream(init), last.header, part, tail);
  }

  lemma BadFrame(header: seq<byte>)
    requires |header| == HEADER_SIZE && Declared(header) > MAX_SIZE
    ensures Frames(header) == Rejected([])
  {
    assert header[..HEADER_SIZE] == header;
  }

  lemma RegroupFour(a: seq<byte>, b: seq<byte>, c: seq<byte>, d: seq<byte>)
    ensures a + b + (c + d) == a + (b + c) + d
  {
  }

  lemma {:induction false} StreamConcat(a: seq<Message>, b: seq<Message>)
    ensures Stream(a + b) == Stream(a) + Stream(b)
  {
    if b == [] {
      assert a + b == a;
    } else {
      var init, last := b[..|b| - 1], b[|b| - 1];
      hide Bytes;
      assert a + b == a + init + [last];
      StreamSnoc(a + init, last);
      StreamConcat(a, init);
      Regroup(Stream(a), Stream(init), Bytes(last));
    }
  }

  // The first k complete messages change sides.
  lemma HandedOn(handed: seq<Message>, ms: seq<Message>, k: nat)
    requires Queued(ms) && k <= |Finished(ms)|
    ensures Stream(handed + ms[..k]) + Stream(ms[k..]) == Stream(handed) + Stream(ms)
    ensures k <= |ms| && Queued(ms[k..]) && forall i :: 0 <= i < k ==> WellFramed(ms[i])
  {
    hide Stream, WellFramed, Receivable;
    StreamConcat(ms[..k], ms[k..]);
    StreamConcat(handed, ms[..k]);
    assert ms[..k] + ms[k..] == ms;
    assert Stream(handed) + (Stream(ms[..k]) + Stream(ms[k..])) == Stream(handed) + Stream(ms[..k]) + Stream(ms[k..]);
  }

  class Receiver {
    var vRecvMsg: seq<NetMessage>
    ghost var messages: seq<Message>   // what they have absorbed
    ghost var handed: seq<Message>     // what was handed on before

    constructor ()
      ensures Valid() && messages == [] && handed == [] && Repr() == {}
    {
      vRecvMsg, messages, handed := [], [], [];
    }

    ghost function Repr(): set<NetMessage>
      reads this
    {
      set m | m in vRecvMsg
    }

    ghost predicate Valid()
      reads this, Repr()
    {
      && |messages| == |vRecvMsg| && Queued(messages) && (forall i :: 0 <= i < |handed| ==> WellFramed(handed[i]))
      && (forall i, j :: 0 <= i < j < |vRecvMsg| ==> vRecvMsg[i] != vRecvMsg[j])
      && (forall i :: 0 <= i < |vRecvMsg| ==> vRecvMsg[i].Is(messages[i]))
    }

    // Every byte taken from the socket so far.
    ghost function Absorbed(): seq<byte>
      reads this
    {
      Stream(handed) + Stream(messages)
    }

    // The current incomplete message, or a new one.
    method Current() returns (msg: NetMessage)
      requires Valid()
      modifies this
      ensures Valid() && Stream(messages) == Stream(old(messages)) && handed == old(handed)
              && fresh(Repr() - old(Repr()))
      ensures vRecvMsg != [] && msg == vRecvMsg[|vRecvMsg| - 1] && !msg.Complete()
    {
      hide Stream, Queued, NetMessage.Is;
      if vRecvMsg != [] {
        vRecvMsg[|vRecvMsg| - 1].IsReceivable(messages[|vRecvMsg| - 1]);
        if !vRecvMsg[|vRecvMsg| - 1].Complete() {
          return vRecvMsg[|vRecvMsg| - 1];
        }
      }
      EmptyMessage(messages);
      msg := new NetMessage();
      vRecvMsg, messages := vRecvMsg + [msg], messages + [Message([], [])];
      msg.IsReceivable(Message([], []));
      assert !msg.Complete();
    }

    // Gives the current message as many bytes as it wants.
    method Absorb(pch: seq<byte>) returns (handled: Option<nat>)
      requires Valid() && pch != []
      modifies this, Repr()
      ensures fresh(Repr() - old(Repr())) && handed == old(handed)
      ensures handled.Some? ==>
                0 < handled.value <= |pch| && Valid()
                && Stream(messages) == Stream(old(messages)) + pch[..handled.value]
      ensures handled.None? ==> Frames(Stream(old(messages)) + pch).Rejected?
    {
      hide Stream, Queued, NetMessage.Is, Frames, Refused, Bytes;
      var msg := Current();
      assert msg in Repr();
      ghost var last := |messages| - 1;
      ghost var n, now;
      handled, n, now := msg.Absorb(pch, messages[last]);
      if handled.None? {
        HeaderRefused(messages, pch[..n], pch[n..]);
        assert pch[..n] + pch[n..] == pch;
        return;
      }
      msg.IsReceivable(now);
      LastGrows(messages, now, pch[..n]);
      StillQueued(messages, now);
      messages := messages[..last] + [now];
    }

    // Absorbs a chunk of the stream; false if the stream has a header that is refused.
    method ReceiveMsgBytes(pch: seq<byte>) returns (ok: bool)
      requires Valid()
      modifies this, Repr()
      ensures ok <==> Frames(Stream(old(messages)) + pch).Parsed?
      ensures ok ==> Valid() && Stream(messages) == Stream(old(messages)) + pch && Absorbed() == old(Absorbed()) + pch
      ensures ok ==> Finished(messages) == Frames(Stream(old(messages)) + pch).messages
      ensures fresh(Repr() - old(Repr())) && handed == old(handed)
    {
      hide Stream, Queued, NetMessage.Is, Frames, Finished;
      ghost var start := Stream(messages);
      var pos := 0;
      assert start + pch[..0] == start;
      while pos < |pch|
        invariant pos <= |pch| && Valid() && Stream(messages) == start + pch[..pos]
        invariant fresh(Repr() - old(Repr())) && handed == old(handed)
      {
        var handled := Absorb(pch[pos..]);
        assert start + pch[..pos] + pch[pos..] == start + pch;
        if handled.None? {
          return false;
        }
        assert pch[..pos] + pch[pos..][..handled.value] == pch[..pos + handled.value];
        assert start + (pch[..pos] + pch[pos..][..handled.value]) == start + pch[..pos] + pch[pos..][..handled.value];
        pos := pos + handled.value;
      }
      assert pch[..pos] == pch;
      QueueIsParse(messages);
      ok := true;
    }

    // Hands the first k complete messages on to the caller.
    method EraseProcessed(k: nat)
      requires Valid() && k <= |Finished(messages)|
      modifies this
      ensures Valid() && messages == old(messages)[k..] && handed == old(handed) + old(messages)[..k]
      ensures Absorbed() == old(Absorbed()) && Repr() <= old(Repr())
    {
      hide Stream, Queued, Finished, WellFramed, NetMessage.Is;
      HandedOn(handed, messages, k);
      handed := handed + messages[..k];
      vRecvMsg, messages := vRecvMsg[k..], messages[k..];
    }
  }

  // ---------------------------------------------------------------- sending

  function Flat(queue: seq<seq<byte>>): seq<byte> {
    if queue == [] then [] else queue[0] + Flat(queue[1..])
  }

  lemma {:induction false} FlatSnoc(queue: seq<seq<byte>>, data: seq<byte>)
    ensures Flat(queue + [data]) == Flat(queue) + data
  {
    if queue == [] {
      assert [data][1..] == [];
      assert queue + [data] == [data];
    } else {
      assert (queue + [data])[1..] == queue[1..] + [data];
      FlatSnoc(queue[1..], data);
    }
  }

  // The queue holds no empty block, and the offset is inside the first one.
  predicate QueueOk(queue: seq<seq<byte>>, offset: nat) {
    && (forall i :: 0 <= i < |queue| ==> queue[i] != [])
    && offset <= |Flat(queue)| && (if queue == [] then offset == 0 else offset < |queue[0]|)
  }

  // What is sent and what is queued together are the messages, in order; the size agrees.
  ghost predicate SendState(queue: seq<seq<byte>>, offset: nat, size: nat, wire: seq<byte>, log: seq<Message>) {
    QueueOk(queue, offset) && size == |Flat(queue)| && wire + Flat(queue)[offset..] == Stream(log)
  }

  // The socket took n more bytes of the first block.
  lemma SentPart(queue: seq<seq<byte>>, offset: nat, size: nat, wire: seq<byte>, log: seq<Message>, n: nat)
    requires SendState(queue, offset, size, wire, log) && queue != [] && 0 < n && offset + n <= |queue[0]|
    ensures var more := wire + queue[0][offset..offset + n];
            if offset + n == |queue[0]| then size >= |queue[0]|
                && SendState(queue[1..], 0, size - |queue[0]|, more, log)
            else SendState(queue, offset + n, size, more, log)
  {
    var data, rest := queue[0], Flat(queue[1..]);
    assert Flat(queue) == data + rest;
    hide Flat, Stream;
    Regrouped(wire, data, rest, offset, n);
    if offset + n == |data| {
      QueueTail(queue);
    }
  }

  lemma Regrouped(wire: seq<byte>, data: seq<byte>, rest: seq<byte>, offset: nat, n: nat)
    requires offset + n <= |data|
    ensures wire + (data + rest)[offset..] == wire + data[offset..offset + n] + (data + rest)[offset + n..]
    ensures offset + n == |data| ==> (data + rest)[offset + n..] == rest[0..]
  {
    assert (data + rest)[offset..] == data[offset..offset + n] + (data + rest)[offset + n..];
  }

  lemma QueueTail(queue: seq<seq<byte>>)
    requires queue != [] && forall i :: 0 <= i < |queue| ==> queue[i] != []
    ensures QueueOk(queue[1..], 0)
  {
  }

  lemma Appends(queue: seq<seq<byte>>, offset: nat, size: nat, wire: seq<byte>, log: seq<Message>, m: Message)
    requires SendState(queue, offset, size, wire, log) && Bytes(m) != []
    ensures SendState(queue + [Bytes(m)], offset, size + |Bytes(m)|, wire, log + [m])
  {
    FlatSnoc(queue, Bytes(m));
    StreamSnoc(log, m);
    hide Flat, Stream, Bytes;
    assert (Flat(queue) + Bytes(m))[offset..] == Flat(queue)[offset..] + Bytes(m);
    assert wire + (Flat(queue)[offset..] + Bytes(m)) == wire + Flat(queue)[offset..] + Bytes(m);
    NothingFlat(queue);
  }

  lemma NothingFlat(queue: seq<seq<byte>>)
    ensures queue == [] ==> Flat(queue) == []
  {
  }

  lemma InFirst(queue: seq<seq<byte>>, offset: nat, size: nat, wire: seq<byte>, log: seq<Message>)
    requires SendState(queue, offset, size, wire, log) && queue != []
    ensures offset < |queue[0]|
  {
  }

  lemma NothingQueued(queue: seq<seq<byte>>, offset: nat, size: nat, wire: seq<byte>, log: seq<Message>)
    requires SendState(queue, offset, size, wire, log) && queue == []
    ensures offset == 0 && size == 0
  {
  }

  lemma OverwritePart(before: seq<byte>, old_: seq<byte>, after: seq<byte>, part: seq<byte>)
    requires |part| == |old_|
    ensures Overwrite(before + old_ + after, |before|, part) == before + part + after
  {
    var buf := before + old_ + after;
    assert buf[..|before|] == before && buf[|before| + |part|..] == after;
  }

  const MAGIC_SIZE: nat := 4
  const COMMAND_SIZE: nat := 12

  function HeaderOf(magic: seq<byte>, command: seq<byte>, size: nat, checksum: seq<byte>): (h: seq<byte>)
    requires |magic| == MAGIC_SIZE && |command| == COMMAND_SIZE && |checksum| == 4
    ensures |h| == HEADER_SIZE
  {
    magic + command + LE32(size) + checksum
  }

  lemma HeaderDeclares(magic: seq<byte>, command: seq<byte>, size: nat, checksum: seq<byte>)
    requires |magic| == MAGIC_SIZE && |command| == COMMAND_SIZE && |checksum| == 4 && size < 0x1_0000_0000
    ensures Declared(HeaderOf(magic, command, size, checksum)) == size
  {
    var h := HeaderOf(magic, command, size, checksum);
    assert h[MESSAGE_SIZE_OFFSET..MESSAGE_SIZE_OFFSET + 4] == LE32(size);
    LE32RoundTrip(size);
  }

  // Size and checksum, written into the header of the message under construction.
  lemma HeaderFilled(magic: seq<byte>, command: seq<byte>, payload: seq<byte>, size: nat, checksum: seq<byte>)
    requires |magic| == MAGIC_SIZE && |command| == COMMAND_SIZE && |checksum| == 4
    ensures var sized := Overwrite(HeaderOf(magic, command, 0, LE32(0)) + payload, MESSAGE_SIZE_OFFSET, LE32(size));
            && sized[HEADER_SIZE..] == payload
            && Overwrite(sized, CHECKSUM_OFFSET, checksum) == HeaderOf(magic, command, size, checksum) + payload
  {
    var zero, front := LE32(0), magic + command;
    OverwritePart(front, zero, zero + payload, LE32(size));
    OverwritePart(front + LE32(size), zero, payload, checksum);
    assert front + zero + (zero + payload) == front + zero + zero + payload;
    assert front + LE32(size) + (zero + payload) == front + LE32(size) + zero + payload;
  }

  // The header declares the payload's length.
  predicate Declares(m: Message) { |m.header| == HEADER_SIZE && |m.payload| == Declared(m.header) }

  class Sender {
    const magic: seq<byte>
    const hash: seq<byte> -> nat         // the first 32 bits of the payload's hash
    var ssSend: seq<byte>
    var vSendMsg: seq<seq<byte>>
    var nSendOffset: nat
    var nSendSize: nat
    var fDisconnect: bool
    ghost var log: seq<Message>          // every message queued so far
    ghost var wire: seq<byte>            // every byte handed to the socket so far

    constructor (magic: seq<byte>, hash: seq<byte> -> nat)
      requires |magic| == MAGIC_SIZE
      ensures Valid() && log == [] && wire == [] && ssSend == [] && vSendMsg == []
      ensures this.magic == magic && this.hash == hash
    {
      this.magic, this.hash := magic, hash;
      ssSend, vSendMsg, nSendOffset, nSendSize, fDisconnect, log, wire := [], [], 0, 0, false, [], [];
    }

    ghost predicate Valid()
      reads this
    {
      && |magic| == MAGIC_SIZE && (ssSend == [] || HEADER_SIZE <= |ssSend|)
      && SendState(vSendMsg, nSendOffset, nSendSize, wire, log) && (forall i :: 0 <= i < |log| ==> Declares(log[i]))
    }

    method BeginMessage(command: seq<byte>)
      requires Valid() && ssSend == [] && |command| == COMMAND_SIZE
      modifies this`ssSend
      ensures Valid() && ssSend == HeaderOf(magic, command, 0, LE32(0))
    {
      ssSend := magic + command + LE32(0) + LE32(0);
    }

    // Appends serialized arguments to the message under construction.
    method Write(bytes: seq<byte>)
      requires Valid() && ssSend != []
      modifies this`ssSend
      ensures Valid() && ssSend == old(ssSend) + bytes
    {
      ssSend := ssSend + bytes;
    }

    method AbortMessage()
      requires Valid()
      modifies this`ssSend
      ensures Valid() && ssSend == []
    {
      ssSend := [];
    }

    // Fills in size and checksum and queues the message, if one was begun; an idle socket is tried at
    // once.  `drop` is the choice made under -dropmessagestest.
    method EndMessage(drop: bool, ghost command: seq<byte>, ghost payload: seq<byte>)
      requires Valid() && |command| == COMMAND_SIZE && |payload| < 0x1_0000_0000
      requires ssSend == [] || ssSend == HeaderOf(magic, command, 0, LE32(0)) + payload
      modifies this
      ensures Valid() && ssSend == []
      ensures log == if drop || old(ssSend) == [] then old(log) else
                old(log) + [Message(HeaderOf(magic, command, |payload|, LE32(hash(payload))), payload)]
      ensures old(wire) <= wire
      ensures !drop && old(ssSend) != [] && old(vSendMsg) == [] ==> vSendMsg == [] || fDisconnect || nSendOffset > 0
    {
      hide HeaderOf, LE32, Bytes, SendState;
      if drop {
        AbortMessage();
        return;
      }
      if |ssSend| == 0 {
        return;
      }
      FillHeader(command, payload);
      HeaderDeclares(magic, command, |payload|, LE32(hash(payload)));
      Enqueue(Message(HeaderOf(magic, command, |payload|, LE32(hash(payload))), payload));
      if |vSendMsg| == 1 {
        SocketSendData();
      }
    }

    // Puts size and checksum into the header that a message was begun with.
    method FillHeader(ghost command: seq<byte>, ghost payload: seq<byte>)
      requires |magic| == MAGIC_SIZE && |command| == COMMAND_SIZE && |payload| < 0x1_0000_0000
      requires ssSend == HeaderOf(magic, command, 0, LE32(0)) + payload
      modifies this`ssSend
      ensures |ssSend| >= HEADER_SIZE
      ensures ssSend == Bytes(Message(HeaderOf(magic, command, |payload|, LE32(hash(payload))), payload))
    {
      hide HeaderOf, Overwrite, LE32;
      var nSize := |ssSend| - HEADER_SIZE;
      HeaderFilled(magic, command, payload, |payload|, LE32(hash(payload)));
      ssSend := Overwrite(ssSend, MESSAGE_SIZE_OFFSET, LE32(nSize));
      ssSend := Overwrite(ssSend, CHECKSUM_OFFSET, LE32(hash(ssSend[HEADER_SIZE..])));
    }

    method Enqueue(ghost message: Message)
      requires Valid() && ssSend == Bytes(message) && ssSend != [] && Declares(message)
      modifies this
      ensures Valid() && ssSend == [] && log == old(log) + [message] && wire == old(wire)
      ensures vSendMsg == old(vSendMsg) + [old(ssSend)]
    {
      Appends(vSendMsg, nSendOffset, nSendSize, wire, log, message);
      log := log + [message];
      nSendSize := nSendSize + |ssSend|;
      vSendMsg := vSendMsg + [ssSend];
      ssSend := [];
    }

    // What the socket takes of `length` bytes: any number of them, zero, or an error below zero.
    method Send(length: nat) returns (nBytes: int)
      ensures nBytes <= length
    {
      nBytes := *;
      if nBytes > length {
        nBytes := length;
      }
    }

    // Sends from the front of the queue until the socket takes less than a whole message.
    method SocketSendData()
      requires Valid()
      modifies this`vSendMsg, this`nSendOffset, this`nSendSize, this`fDisconnect, this`wire
      ensures Valid() && old(wire) <= wire
      ensures vSendMsg != [] ==> fDisconnect || nSendOffset > 0
    {
      hide SendState, Stream;
      var it := 0;
      assert vSendMsg[0..] == vSendMsg;
      while it < |vSendMsg|
        invariant it <= |vSendMsg| && vSendMsg == old(vSendMsg)
        invariant SendState(vSendMsg[it..], nSendOffset, nSendSize, wire, log) && old(wire) <= wire
        decreases |vSendMsg| - it
      {
        var data := vSendMsg[it];
        assert vSendMsg[it..][0] == data && vSendMsg[it..][1..] == vSendMsg[it + 1..];
        InFirst(vSendMsg[it..], nSendOffset, nSendSize, wire, log);
        assert |data| > nSendOffset;
        var nBytes := Send(|data| - nSendOffset);
        if nBytes > 0 {
          SentPart(vSendMsg[it..], nSendOffset, nSendSize, wire, log, nBytes);
          wire := wire + data[nSendOffset..nSendOffset + nBytes];
          nSendOffset := nSendOffset + nBytes;
          if nSendOffset == |data| {
            nSendOffset := 0;
            nSendSize := nSendSize - |data|;
            it := it + 1;
          } else {
            break;
          }
        } else {
          fDisconnect := true;
          break;
        }
      }
      if it == |vSendMsg| {
        NothingQueued(vSendMsg[it..], nSendOffset, nSendSize, wire, log);
        assert nSendOffset == 0;
        assert nSendSize == 0;
      }
      vSendMsg := vSendMsg[it..];
    }
  }

  // ---------------------------------------------------------------- from one end to the other

  // Of messages within the limit, a receiver that took what the socket delivered of a sender's bytes
  // has handed on and queued exactly the first ones, in order; all of them, once it has every byte.
  // It refuses none of the bytes still to come.
  lemma Delivery(s: Sender, r: Receiver)
    requires s.Valid() && r.Valid() && r.Absorbed() <= s.wire
    requires forall i :: 0 <= i < |s.log| ==> |s.log[i].payload| <= MAX_SIZE
    ensures r.handed + Finished(r.messages) <= s.log
    ensures s.vSendMsg == [] && r.Absorbed() == s.wire ==> r.handed + Finished(r.messages) == s.log
    ensures forall pch :: r.Absorbed() + pch <= s.wire ==> Frames(Stream(r.messages) + pch).Parsed?
  {
    hide Frames, Stream;
    var all := r.handed + r.messages;
    WholeQueue(r.handed, r.messages);
    QueueIsParse(all);
    StreamConcat(r.handed, r.messages);
    var k := PrefixArrives(s.log, r.Absorbed());
    if s.vSendMsg == [] && r.Absorbed() == s.wire {
      assert Flat(s.vSendMsg)[s.nSendOffset..] == [];
      assert r.Absorbed() == Stream(s.log) + [];
      FramesOf(s.log, []);
      NothingReceived();
    }
    forall pch | r.Absorbed() + pch <= s.wire ensures Frames(Stream(r.messages) + pch).Parsed? {
      var n := PrefixArrives(s.log, r.Absorbed() + pch);
      assert r.Absorbed() + pch == Stream(r.handed) + (Stream(r.messages) + pch);
      FramesOf(r.handed, Stream(r.messages) + pch);
    }
  }

  lemma WholeQueue(handed: seq<Message>, ms: seq<Message>)
    requires Queued(ms) && forall i :: 0 <= i < |handed| ==> WellFramed(handed[i])
    ensures Queued(handed + ms) && Finished(handed + ms) == handed + Finished(ms)
  {
    hide Receivable, WellFramed;
    forall i | 0 <= i < |handed| ensures Receivable(handed[i]) { FramedIsReceivable(handed[i]); }
    assert ms == [] ==> handed + ms == handed;
    assert ms != [] ==> (handed + ms)[..|handed + ms| - 1] == handed + ms[..|ms| - 1];
  }

  lemma FramedIsReceivable(m: Message)
    requires WellFramed(m)
    ensures Receivable(m)
  {
  }

  // A message longer than the limit ends the connection as soon as its header has arrived.
  lemma TooLong(log: seq<Message>, i: nat, arrived: seq<byte>)
    requires i < |log| && (forall j :: 0 <= j < i ==> WellFramed(log[j]))
    requires |log[i].header| == HEADER_SIZE && Declared(log[i].header) > MAX_SIZE
    requires arrived <= Stream(log) && |arrived| >= |Stream(log[..i])| + HEADER_SIZE
    ensures Frames(arrived).Rejected?
  {
    var before, header := log[..i], log[i].header;
    StreamGrows(log, i);
    assert log[..i + 1][..i] == before && log[..i + 1] == before + [log[i]];
    StreamSnoc(before, log[i]);
    var tail := arrived[|Stream(before)| + HEADER_SIZE..];
    assert arrived == Stream(before) + header + tail;
    BadFrame(header);
    hide Frames, Declared, WellFramed;
    FramesOf(before, header);
    RejectedStays(Stream(before) + header, tail);
  }

  lemma {:induction false} StreamGrows(log: seq<Message>, i: nat)
    requires i < |log|
    ensures Stream(log[..i + 1]) <= Stream(log)
    decreases |log|
  {
    if i + 1 == |log| {
      assert log[..i + 1] == log;
    } else {
      var init := log[..|log| - 1];
      StreamGrows(init, i);
      assert init[..i + 1] == log[..i + 1];
    }
  }
}
