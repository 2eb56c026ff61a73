// speakeasy/gdb.py: the packets of the GDB Remote Serial Protocol, and the reader of the stream.

module GdbProtocol {
  import opened Options
  import opened Bytes
  import opened Sequences

  const PACKET_SIZE: nat := 0x10000

  const DOLLAR: byte := 0x24
  const HASH: byte := 0x23
  const BRACE: byte := 0x7D
  const STAR: byte := 0x2A
  const PLUS: byte := 0x2B
  const MINUS: byte := 0x2D
  const CTRL_C: byte := 3

  // -- Escaping

  // v ^ 0x20
  function Flip(v: byte): (r: byte)
    ensures r != v && Abs(r - v) == 0x20
  {
    if v / 0x20 % 2 == 1 then v - 0x20 else v + 0x20
  }

  function Abs(x: int): int {
    if x < 0 then -x else x
  }

  lemma FlipTwice(v: byte)
    ensures Flip(Flip(v)) == v
  {
  }

  predicate Special(v: byte) {
    v == DOLLAR || v == HASH || v == BRACE || v == STAR
  }

  function Escape(data: seq<byte>): seq<byte> {
    if data == [] then []
    else (if Special(data[0]) then [BRACE, Flip(data[0])] else [data[0]]) + Escape(data[1..])
  }

  function Unescape(data: seq<byte>): seq<byte> {
    if data == [] then []
    else if data[0] == BRACE && |data| > 1 then [Flip(data[1])] + Unescape(data[2..])
    else [data[0]] + Unescape(data[1..])
  }

  // Unescaping undoes escaping, for every payload.
  lemma {:induction false} UnescapeEscape(data: seq<byte>)
    ensures Unescape(Escape(data)) == data
  {
    if data != [] {
      UnescapeEscape(data[1..]);
      var first, rest := if Special(data[0]) then [BRACE, Flip(data[0])] else [data[0]], Escape(data[1..]);
      assert (first + rest)[|first|..] == rest;
      FlipTwice(data[0]);
      assert data == [data[0]] + data[1..];
    }
  }

  predicate EndsInBrace(data: seq<byte>) {
    data != [] && data[|data| - 1] == BRACE
  }

  // An escaped payload has no byte that ends or starts a packet, and does not end in the middle of an escape.
  lemma {:induction false} EscapeClean(data: seq<byte>)
    ensures HASH !in Escape(data) && DOLLAR !in Escape(data) && !EndsInBrace(Escape(data))
    ensures |data| <= |Escape(data)| <= 2 * |data|
  {
    if data != [] {
      EscapeClean(data[1..]);
      var first, rest := if Special(data[0]) then [BRACE, Flip(data[0])] else [data[0]], Escape(data[1..]);
      assert rest == [] ==> first + rest == first;
      assert rest != [] ==> (first + rest)[|first + rest| - 1] == rest[|rest| - 1];
    }
  }

  method EscapeLoop(data: seq<byte>) returns (result: seq<byte>)
    ensures result == Escape(data)
  {
    assert Escape([]) == [];
    hide Escape, Flip, Special;
    result := [];
    assert data[0..] == data;
    for i := 0 to |data|
      invariant Escape(data) == result + Escape(data[i..])
    {
      var value := data[i];
      EscapeFirst(data, i);
      if Special(value) {
        Regroup(result, [BRACE, Flip(value)], Escape(data[i + 1..]));
        result := result + [BRACE, Flip(value)];
      } else {
        Regroup(result, [value], Escape(data[i + 1..]));
        result := result + [value];
      }
    }
    assert data[|data|..] == [];
  }

  lemma EscapeFirst(data: seq<byte>, i: nat)
    requires i < |data|
    ensures Escape(data[i..])
         == (if Special(data[i]) then [BRACE, Flip(data[i])] else [data[i]]) + Escape(data[i + 1..])
  {
    hide Flip, Special;
    assert data[i..][1..] == data[i + 1..];
  }

  method UnescapeLoop(data: seq<byte>) returns (result: seq<byte>)
    ensures result == Unescape(data)
  {
    assert Unescape([]) == [];
    hide Unescape, Flip;
    result := [];
    var index := 0;
    assert data[0..] == data;
    while index < |data|
      invariant index <= |data|
      invariant Unescape(data) == result + Unescape(data[index..])
    {
      UnescapeFirst(data, index);
      if data[index] == BRACE && index + 1 < |data| {
        Regroup(result, [Flip(data[index + 1])], Unescape(data[index + 2..]));
        result := result + [Flip(data[index + 1])];
        index := index + 2;
      } else {
        Regroup(result, [data[index]], Unescape(data[index + 1..]));
        result := result + [data[index]];
        index := index + 1;
      }
    }
    assert data[|data|..] == [];
  }

  lemma UnescapeFirst(data: seq<byte>, i: nat)
    requires i < |data|
    ensures Unescape(data[i..])
         == if data[i] == BRACE && i + 1 < |data| then [Flip(data[i + 1])] + Unescape(data[i + 2..])
            else [data[i]] + Unescape(data[i + 1..])
  {
    hide Flip;
    var left := data[i..];
    assert left[1..] == data[i + 1..];
    assert i + 1 < |data| ==> left[2..] == data[i + 2..];
  }

  // -- Packets

  function Sum(data: seq<byte>): nat {
    if data == [] then 0 else data[0] + Sum(data[1..])
  }

  function Digit(n: nat): byte
    requires n < 16
  {
    if n < 10 then 0x30 + n else 0x61 + n - 10
  }

  // _rsp_packet
  function Packet(payload: seq<byte>): seq<byte> {
    var checksum := Sum(payload) % 256;
    [DOLLAR] + payload + [HASH, Digit(checksum / 16), Digit(checksum % 16)]
  }

  function DigitValue(c: byte): Option<nat> {
    if 0x30 <= c <= 0x39 then Some(c - 0x30)
    else if 0x41 <= c <= 0x46 then Some(c - 0x41 + 10)
    else if 0x61 <= c <= 0x66 then Some(c - 0x61 + 10)
    else None
  }

  predicate IsSpace(c: byte) {
    c == 0x20 || 9 <= c <= 13
  }

  // int(bytes, 16) of two bytes: Python also takes a sign before the digit, and white space around it.
  function ParseHex(a: byte, b: byte): Option<int> {
    match (DigitValue(a), DigitValue(b))
    case (Some(x), Some(y)) => Some(16 * x + y)
    case (None, Some(y)) => if a == MINUS then Some(-(y as int)) else if a == PLUS || IsSpace(a) then Some(y) else None
    case (Some(x), None) => if IsSpace(b) then Some(x) else None
    case _ => None
  }

  lemma ParseDigits(n: nat)
    requires n < 256
    ensures ParseHex(Digit(n / 16), Digit(n % 16)) == Some(n)
  {
  }

  // The first # from index i on
  function FindHash(buffer: seq<byte>, i: nat): (r: Option<nat>)
    ensures r.Some? ==> i <= r.value < |buffer| && buffer[r.value] == HASH
    ensures r.Some? ==> forall j :: i <= j < r.value ==> buffer[j] != HASH
    ensures r.None? ==> forall j :: i <= j < |buffer| ==> buffer[j] != HASH
    decreases |buffer| - i
  {
    if i >= |buffer| then None else if buffer[i] == HASH then Some(i) else FindHash(buffer, i + 1)
  }

  predicate ValidPacket(encoded: seq<byte>, c1: byte, c2: byte) {
    && ParseHex(c1, c2) == Some(Sum(encoded) % 256)
    && |encoded| <= PACKET_SIZE && !EndsInBrace(encoded)
  }

  // Two hexadecimal digits with value n: the checksum field of the protocol
  predicate TwoDigits(c1: byte, c2: byte, n: nat) {
    DigitValue(c1).Some? && DigitValue(c2).Some? && 16 * DigitValue(c1).value + DigitValue(c2).value == n
  }

  // One digit with value n, and a sign before it or white space on one side of it
  predicate OneDigit(c1: byte, c2: byte, n: nat) {
    || ((c1 == PLUS || IsSpace(c1)) && DigitValue(c2) == Some(n))
    || (IsSpace(c2) && DigitValue(c1) == Some(n))
    || (c1 == MINUS && n == 0 && DigitValue(c2) == Some(0))
  }

  // Which checksum fields are accepted. If the checksum is 16 or more, it is only the field of the protocol.
  lemma AcceptedFields(encoded: seq<byte>, c1: byte, c2: byte)
    ensures var n := Sum(encoded) % 256;
            && (ValidPacket(encoded, c1, c2) <==>
                  |encoded| <= PACKET_SIZE && !EndsInBrace(encoded) && (TwoDigits(c1, c2, n) || OneDigit(c1, c2, n)))
            && (OneDigit(c1, c2, n) ==> n < 16 && !TwoDigits(c1, c2, n))
  {
  }

  // A packet at the start of the buffer: its payload, whether it is valid, and what follows it.
  datatype Extracted = Extracted(payload: seq<byte>, valid: bool, rest: seq<byte>)

  // _extract_packet
  function Extract(buffer: seq<byte>): (r: Option<Extracted>)
    ensures r.Some? ==> |r.value.rest| < |buffer|
  {
    if buffer == [] || buffer[0] != DOLLAR then None
    else
      var marker :- FindHash(buffer, 1);
      if |buffer| < marker + 3 then None
      else
        var encoded := buffer[1..marker];
        Some(Extracted(Unescape(encoded), ValidPacket(encoded, buffer[marker + 1], buffer[marker + 2]),
          buffer[marker + 3..]))
  }

  // A frame of the protocol: any bytes but # between $ and #, and two bytes of checksum.
  function FrameBytes(encoded: seq<byte>, c1: byte, c2: byte): seq<byte> {
    [DOLLAR] + encoded + [HASH, c1, c2]
  }

  lemma ExtractFrame(encoded: seq<byte>, c1: byte, c2: byte, rest: seq<byte>)
    requires HASH !in encoded
    ensures Extract(FrameBytes(encoded, c1, c2) + rest)
         == Some(Extracted(Unescape(encoded), ValidPacket(encoded, c1, c2), rest))
  {
    hide Unescape, ValidPacket;
    var buffer := FrameBytes(encoded, c1, c2) + rest;
    var marker := 1 + |encoded|;
    assert buffer[marker] == HASH;
    assert forall j :: 1 <= j < marker ==> buffer[j] == encoded[j - 1];
    assert FindHash(buffer, 1) == Some(marker);
    assert buffer[1..marker] == encoded && buffer[marker + 3..] == rest;
  }

  // A packet that the protocol does not allow and the reader accepts: a space and one digit
  lemma LooseChecksum(five: seq<byte>, rest: seq<byte>)
    requires five == [5]
    ensures Extract(FrameBytes(five, 0x20, 0x35) + rest) == Some(Extracted(five, true, rest))
    ensures !TwoDigits(0x20, 0x35, Sum(five) % 256)
  {
    assert five[1..] == [];
    assert Sum(five) == 5 + Sum(five[1..]) && Unescape(five) == [5] + Unescape(five[1..]);
    ExtractFrame(five, 0x20, 0x35, rest);
    hide Extract, FrameBytes;
    assert Unescape(five) == five && Sum(five) == 5;
  }

  // A payload that is escaped and framed comes out again, before anything that follows it. It is valid exactly when
  // its escaped form fits in a packet.
  lemma FrameRoundTrip(data: seq<byte>, rest: seq<byte>)
    ensures var r := Extract(Packet(Escape(data)) + rest);
            r.Some? && r.value.payload == data && r.value.rest == rest
            && (r.value.valid <==> |Escape(data)| <= PACKET_SIZE)
  {
    var checksum := Sum(Escape(data)) % 256;
    EscapeClean(data);
    UnescapeEscape(data);
    ParseDigits(checksum);
    ExtractFrame(Escape(data), Digit(checksum / 16), Digit(checksum % 16), rest);
    hide Extract, Escape, Unescape, Sum, Digit, ParseHex;
  }

  // -- The reader

  // What the reader does: an interrupt, sending the last packet again, a command, or refusing a packet.
  datatype Event = Interrupt | Resend | Command(payload: seq<byte>) | Refuse

  function EventOf(x: Extracted): Event {
    if x.valid then Command(x.payload) else Refuse
  }

  // A byte between packets: an interrupt, a refusal of the last packet, or an acknowledgement or noise.
  function EventAt(v: byte): seq<Event> {
    if v == CTRL_C then [Interrupt] else if v == MINUS then [Resend] else []
  }

  // All that can be read from a buffer, and what is left of it.
  function Drain(buffer: seq<byte>): (seq<Event>, seq<byte>) {
    if buffer == [] then ([], [])
    else if buffer[0] != DOLLAR then
      var (events, rest) := Drain(buffer[1..]);
      (EventAt(buffer[0]) + events, rest)
    else
      match Extract(buffer)
      case None => ([], buffer)
      case Some(x) =>
        var (events, rest) := Drain(x.rest);
        ([EventOf(x)] + events, rest)
  }

  lemma ExtractMore(a: seq<byte>, b: seq<byte>)
    requires Extract(a).Some?
    ensures Extract(a + b) == Some(Extract(a).value.(rest := Extract(a).value.rest + b))
  {
    hide Unescape, ValidPacket;
    var marker := FindHash(a, 1).value;
    assert FindHash(a + b, 1) == Some(marker) by {
      assert forall j :: 0 <= j < |a| ==> (a + b)[j] == a[j];
    }
    assert (a + b)[1..marker] == a[1..marker];
    assert (a + b)[marker + 3..] == a[marker + 3..] + b;
  }

  // Reading in two steps is reading in one.
  lemma {:induction false} DrainConcat(a: seq<byte>, b: seq<byte>)
    ensures var (events, rest) := Drain(a);
            var (more, end) := Drain(rest + b);
            Drain(a + b) == (events + more, end)
    decreases |a|
  {
    hide Extract;
    if a == [] {
      assert a + b == b;
    } else if a[0] != DOLLAR {
      assert (a + b)[1..] == a[1..] + b;
      DrainConcat(a[1..], b);
      var (events, rest) := Drain(a[1..]);
      assert EventAt(a[0]) + (events + Drain(rest + b).0) == (EventAt(a[0]) + events) + Drain(rest + b).0;
    } else if Extract(a).Some? {
      ExtractMore(a, b);
      var x := Extract(a).value;
      DrainConcat(x.rest, b);
      var (events, rest) := Drain(x.rest);
      assert [EventOf(x)] + (events + Drain(rest + b).0) == ([EventOf(x)] + events) + Drain(rest + b).0;
    } else {
      assert [] + Drain(a + b).0 == Drain(a + b).0;
    }
  }

  // -- Chunks

  const MAX_PENDING: nat := PACKET_SIZE + 4

  function Concat(chunks: seq<seq<byte>>): seq<byte> {
    if chunks == [] then [] else chunks[0] + Concat(chunks[1..])
  }

  // The reader closes the connection when a chunk leaves more than a packet unread.
  function ReadChunks(buffer: seq<byte>, chunks: seq<seq<byte>>): (seq<Event>, seq<byte>, bool)
    decreases |chunks|
  {
    if chunks == [] then ([], buffer, true)
    else
      var (events, rest) := Drain(buffer + chunks[0]);
      if |rest| > MAX_PENDING then (events, rest, false)
      else
        var (more, end, open) := ReadChunks(rest, chunks[1..]);
        (events + more, end, open)
  }

  // No chunk boundary leaves more than a packet unread.
  ghost predicate NeverOverfull(stream: seq<byte>) {
    forall n :: 0 <= n <= |stream| ==> |Drain(stream[..n]).1| <= MAX_PENDING
  }

  lemma {:induction false} ReadChunksOn(before: seq<byte>, chunks: seq<seq<byte>>)
    requires NeverOverfull(before + Concat(chunks))
    ensures var (events, rest) := Drain(before);
            var (more, end, open) := ReadChunks(rest, chunks);
            open && (events + more, end) == Drain(before + Concat(chunks))
    decreases |chunks|
  {
    hide Drain;
    var (events, rest) := Drain(before);
    if chunks == [] {
      assert before + Concat(chunks) == before && events + [] == events;
    } else {
      var now := before + chunks[0];
      assert before + Concat(chunks) == now + Concat(chunks[1..]);
      assert (before + Concat(chunks))[..|now|] == now;
      DrainConcat(before, chunks[0]);
      ReadChunksOn(now, chunks[1..]);
      var (first, left) := Drain(rest + chunks[0]);
      var (more, _, _) := ReadChunks(left, chunks[1..]);
      assert (events + first) + more == events + (first + more);
    }
  }

  // What is read does not depend on how the stream is split into receives.
  lemma SplitIndependent(chunks: seq<seq<byte>>)
    requires NeverOverfull(Concat(chunks))
    ensures var (events, rest) := Drain(Concat(chunks));
            ReadChunks([], chunks) == (events, rest, true)
  {
    assert [] + Concat(chunks) == Concat(chunks);
    ReadChunksOn([], chunks);
    assert [] + ReadChunks([], chunks).0 == ReadChunks([], chunks).0;
  }

  // -- Streams of the protocol

  datatype Item = Frame(encoded: seq<byte>, c1: byte, c2: byte) | Between(value: byte)

  // Packets within the limit, and acknowledgements, interrupts and noise between them.
  predicate ItemOk(i: Item) {
    match i
    case Frame(encoded, _, _) => HASH !in encoded && |encoded| <= PACKET_SIZE
    case Between(v) => v != DOLLAR
  }

  function ItemBytes(i: Item): seq<byte> {
    match i
    case Frame(encoded, c1, c2) => FrameBytes(encoded, c1, c2)
    case Between(v) => [v]
  }

  function ItemEvents(i: Item): seq<Event> {
    match i
    case Frame(encoded, c1, c2) => [EventOf(Extracted(Unescape(encoded), ValidPacket(encoded, c1, c2), []))]
    case Between(v) => EventAt(v)
  }

  function Stream(items: seq<Item>): seq<byte> {
    if items == [] then [] else ItemBytes(items[0]) + Stream(items[1..])
  }

  function EventsOf(items: seq<Item>): seq<Event> {
    if items == [] then [] else ItemEvents(items[0]) + EventsOf(items[1..])
  }

  lemma DrainItem(i: Item, rest: seq<byte>)
    requires ItemOk(i)
    ensures Drain(ItemBytes(i) + rest) == (ItemEvents(i) + Drain(rest).0, Drain(rest).1)
  {
    hide Extract, ValidPacket, Unescape;
    match i
    case Frame(encoded, c1, c2) => ExtractFrame(encoded, c1, c2, rest);
    case Between(v) =>
      assert ([v] + rest)[1..] == rest;
  }

  // A part of one item leaves less than a packet unread.
  lemma DrainPartOfItem(i: Item, n: nat)
    requires ItemOk(i) && n < |ItemBytes(i)|
    ensures |Drain(ItemBytes(i)[..n]).1| <= MAX_PENDING
  {
    DrainShrinks(ItemBytes(i)[..n]);
  }

  lemma {:induction false} DrainShrinks(buffer: seq<byte>)
    ensures |Drain(buffer).1| <= |buffer|
    decreases |buffer|
  {
    hide Extract;
    if buffer != [] {
      DrainShrinks(buffer[1..]);
      if Extract(buffer).Some? {
        DrainShrinks(Extract(buffer).value.rest);
      }
    }
  }

  lemma {:induction false} StreamNeverOverfull(items: seq<Item>, n: nat)
    requires (forall i :: i in items ==> ItemOk(i)) && n <= |Stream(items)|
    ensures |Drain(Stream(items)[..n]).1| <= MAX_PENDING
    decreases |items|
  {
    hide Drain, ItemBytes;
    if items != [] {
      var first, rest := ItemBytes(items[0]), Stream(items[1..]);
      if n < |first| {
        assert Stream(items)[..n] == first[..n];
        DrainPartOfItem(items[0], n);
      } else {
        assert Stream(items)[..n] == first + rest[..n - |first|];
        DrainItem(items[0], rest[..n - |first|]);
        StreamNeverOverfull(items[1..], n - |first|);
      }
    } else {
      DrainShrinks([]);
    }
  }

  lemma {:induction false} DrainStream(items: seq<Item>)
    requires forall i :: i in items ==> ItemOk(i)
    ensures Drain(Stream(items)) == (EventsOf(items), [])
    decreases |items|
  {
    hide ItemBytes, ItemEvents;
    if items != [] {
      DrainStream(items[1..]);
      DrainItem(items[0], Stream(items[1..]));
    }
  }

  // However a stream of packets, acknowledgements, interrupts and noise is split, the reader finds exactly its
  // commands and interrupts, and stays open.
  lemma ReaderExact(items: seq<Item>, chunks: seq<seq<byte>>)
    requires forall i :: i in items ==> ItemOk(i)
    requires Concat(chunks) == Stream(items)
    ensures ReadChunks([], chunks) == (EventsOf(items), [], true)
  {
    hide Drain, ItemOk, ItemBytes, ItemEvents;
    forall n | 0 <= n <= |Stream(items)| ensures |Drain(Stream(items)[..n]).1| <= MAX_PENDING {
      StreamNeverOverfull(items, n);
    }
    SplitIndependent(chunks);
    DrainStream(items);
  }

  // The reader thread's buffer.
  class Reader {
    var buffer: seq<byte>
    var events: seq<Event>

    method ExtractPacket() returns (x: Option<(seq<byte>, bool)>)
      modifies this`buffer
      ensures var r := Extract(old(buffer));
              if r.None? then x == None && buffer == old(buffer)
              else x == Some((r.value.payload, r.value.valid)) && buffer == r.value.rest
    {
      hide Unescape, ValidPacket;
      if buffer == [] || buffer[0] != DOLLAR {
        return None;
      }
      var marker := FindHash(buffer, 1);
      if marker.None? || |buffer| < marker.value + 3 {
        return None;
      }
      var encoded := buffer[1..marker.value];
      var valid := ValidPacket(encoded, buffer[marker.value + 1], buffer[marker.value + 2]);
      buffer := buffer[marker.value + 3..];
      var payload := UnescapeLoop(encoded);
      return Some((payload, valid));
    }

    // Receive a chunk; the result is whether the connection stays open.
    method Receive(chunk: seq<byte>) returns (open: bool)
      modifies this
      ensures var (found, rest) := Drain(old(buffer) + chunk);
              && events == old(events) + found && buffer == rest
              && (open <==> |rest| <= MAX_PENDING)
    {
      hide Extract;
      buffer := buffer + chunk;
      ghost var all, before := Drain(buffer), events;
      assert before + all.0 == events + Drain(buffer).0;
      while buffer != []
        invariant before + all.0 == events + Drain(buffer).0 && all.1 == Drain(buffer).1
        decreases |buffer|
      {
        ghost var buffer0, events0 := buffer, events;
        var value := buffer[0];
        if value != DOLLAR {
          buffer := buffer[1..];
          events := events + EventAt(value);
          assert events0 + (EventAt(value) + Drain(buffer).0) == events + Drain(buffer).0;
        } else {
          var packet := ExtractPacket();
          if packet.None? {
            break;
          }
          var (payload, valid) := packet.value;
          events := events + [if valid then Command(payload) else Refuse];
          assert events0 + ([events[|events0|]] + Drain(buffer).0) == events + Drain(buffer).0;
        }
      }
      open := |buffer| <= MAX_PENDING;
    }
  }
}
