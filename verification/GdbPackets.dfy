/** The packet layer of the gdb stub, gdbstub.c, for the format of the "Overview" section of
the GDB Remote Serial Protocol appendix of "Debugging with GDB".

Received bytes are fed one at a time to a state machine that fills a line buffer.  Packets
to send are escaped by memtox and framed by put_packet_binary.  gdb_handle_packet is an
arbitrary function from packets to what it puts into its reply, if it sends one. */
module GdbPackets {
  import opened Bytes

  const MAX_PACKET_LENGTH: nat := 4096

  // '$' '#' '*' '}' ' ' '+' '-'
  const START: Byte := 0x24
  const END: Byte := 0x23
  const REPEAT: Byte := 0x2A
  const ESCAPE: Byte := 0x7D
  const SPACE: Byte := 0x20
  const ACK: Byte := 0x2B
  const NAK: Byte := 0x2D

  // ---------------------------------------------------------------- digits

  function FromHex(v: Byte): (r: nat)
    ensures r < 16
  {
    if 0x30 <= v <= 0x39 then (v - 0x30) as nat
    else if 0x41 <= v <= 0x46 then (v - 0x41 + 10) as nat
    else if 0x61 <= v <= 0x66 then (v - 0x61 + 10) as nat
    else 0
  }

  function ToHex(v: nat): Byte
    requires v < 16
  {
    if v < 10 then v as Byte + 0x30 else (v - 10) as Byte + 0x61
  }

  predicate IsHexDigit(v: Byte) {
    0x30 <= v <= 0x39 || 0x41 <= v <= 0x46 || 0x61 <= v <= 0x66
  }

  lemma HexDigit(v: nat)
    requires v < 16
    ensures IsHexDigit(ToHex(v)) && FromHex(ToHex(v)) == v
  {
  }

  method MemToHex(mem: seq<Byte>) returns (buf: seq<Byte>)
    ensures |buf| == 2 * |mem|
    ensures forall i :: 0 <= i < |mem| ==>
              IsHexDigit(buf[2 * i]) && IsHexDigit(buf[2 * i + 1])
              && 16 * FromHex(buf[2 * i]) + FromHex(buf[2 * i + 1]) == mem[i] as nat
  {
    buf := [];
    for i := 0 to |mem|
      invariant |buf| == 2 * i
      invariant forall j :: 0 <= j < i ==>
                  IsHexDigit(buf[2 * j]) && IsHexDigit(buf[2 * j + 1])
                  && 16 * FromHex(buf[2 * j]) + FromHex(buf[2 * j + 1]) == mem[j] as nat
    {
      var c := mem[i] as nat;
      HexDigit(c / 16);
      HexDigit(c % 16);
      buf := buf + [ToHex(c / 16), ToHex(c % 16)];
    }
  }

  /** The inverse of MemToHex on what that produces. */
  method HexToMem(buf: seq<Byte>, len: nat) returns (mem: seq<Byte>)
    requires 2 * len <= |buf|
    ensures |mem| == len
    ensures forall i :: 0 <= i < len ==> mem[i] as nat == 16 * FromHex(buf[2 * i]) + FromHex(buf[2 * i + 1])
  {
    mem := [];
    for i := 0 to len
      invariant |mem| == i
      invariant forall j :: 0 <= j < i ==> mem[j] as nat == 16 * FromHex(buf[2 * j]) + FromHex(buf[2 * j + 1])
    {
      mem := mem + [(16 * FromHex(buf[2 * i]) + FromHex(buf[2 * i + 1])) as Byte];
    }
  }

  // ---------------------------------------------------------------- encoding

  /** c ^ 0x20. */
  function Flip(c: Byte): Byte {
    if c as nat / 32 % 2 == 0 then c + 0x20 else c - 0x20
  }

  predicate Special(c: Byte) {
    c == END || c == START || c == REPEAT || c == ESCAPE
  }

  function EscapeByte(c: Byte): seq<Byte> {
    if Special(c) then [ESCAPE, Flip(c)] else [c]
  }

  function Escaped(mem: seq<Byte>): seq<Byte> {
    if mem == [] then [] else EscapeByte(mem[0]) + Escaped(mem[1..])
  }

  function Sum(s: seq<Byte>): nat {
    if s == [] then 0 else s[0] as nat + Sum(s[1..])
  }

  /** A packet around a body: '$', the body, '#' and two digits of checksum. */
  function Frame(body: seq<Byte>): seq<Byte> {
    [START] + body + [END, ToHex(Sum(body) / 16 % 16), ToHex(Sum(body) % 16)]
  }

  lemma {:induction false} EscapedAppend(a: seq<Byte>, c: Byte)
    ensures Escaped(a + [c]) == Escaped(a) + EscapeByte(c)
  {
    if a == [] {
      assert [] + [c] == [c] && [c][1..] == [];
      Unit(EscapeByte(c));
    } else {
      EscapedAppend(a[1..], c);
      assert (a + [c])[1..] == a[1..] + [c];
      Associative(EscapeByte(a[0]), Escaped(a[1..]), EscapeByte(c));
    }
  }

  lemma {:induction false} SumAppend(a: seq<Byte>, b: seq<Byte>)
    ensures Sum(a + b) == Sum(a) + Sum(b)
  {
    if a == [] {
      assert a + b == b;
    } else {
      SumAppend(a[1..], b);
      assert (a + b)[1..] == a[1..] + b;
    }
  }

  method MemToX(mem: seq<Byte>) returns (buf: seq<Byte>)
    ensures buf == Escaped(mem)
  {
    buf := [];
    for i := 0 to |mem|
      invariant buf == Escaped(mem[..i])
    {
      var c := mem[i];
      assert mem[..i + 1] == mem[..i] + [c];
      EscapedAppend(mem[..i], c);
      if c == END || c == START || c == REPEAT || c == ESCAPE {
        buf := buf + [ESCAPE] + [Flip(c)];
      } else {
        buf := buf + [c];
      }
    }
    assert mem[..|mem|] == mem;
  }

  // ---------------------------------------------------------------- the receiver as a function

  /** The parsing state with the bytes of the line buffer that count. */
  datatype Receiver =
    | Idle
    | GetLine(line: seq<Byte>, sum: nat)
    | GetLineEsc(line: seq<Byte>, sum: nat)
    | GetLineRle(line: seq<Byte>, sum: nat)
    | Checksum1(line: seq<Byte>, sum: nat)
    | Checksum2(line: seq<Byte>, sum: nat, high: nat)

  const FRESH: Receiver := GetLine([], 0)

  datatype Event = Nothing | Refused | Accepted(packet: seq<Byte>)

  datatype Fed = Fed(receiver: Receiver, event: Event)

  function Copies(c: Byte, n: nat): (r: seq<Byte>)
    ensures |r| == n
  {
    seq(n, i => c)
  }

  function Receive(r: Receiver, ch: Byte): Fed {
    match r
    case Idle => Fed(if ch == START then FRESH else Idle, Nothing)
    case GetLine(line, sum) =>
      if ch == ESCAPE then Fed(GetLineEsc(line, sum + ch as nat), Nothing)
      else if ch == REPEAT then Fed(GetLineRle(line, sum + ch as nat), Nothing)
      else if ch == END then Fed(Checksum1(line, sum), Nothing)
      else if |line| >= MAX_PACKET_LENGTH - 1 then Fed(Idle, Nothing)
      else Fed(GetLine(line + [ch], sum + ch as nat), Nothing)
    case GetLineEsc(line, sum) =>
      if ch == END then Fed(Checksum1(line, sum), Nothing)
      else if |line| >= MAX_PACKET_LENGTH - 1 then Fed(Idle, Nothing)
      else Fed(GetLine(line + [Flip(ch)], sum + ch as nat), Nothing)
    case GetLineRle(line, sum) =>
      if ch < SPACE then Fed(GetLine(line, sum), Nothing)
      else
        var repeat := (ch - SPACE) as nat + 3;
        if |line| + repeat >= MAX_PACKET_LENGTH - 1 then Fed(Idle, Nothing)
        else if |line| < 1 then Fed(GetLine(line, sum), Nothing)
        else Fed(GetLine(line + Copies(line[|line| - 1], repeat), sum + ch as nat), Nothing)
    case Checksum1(line, sum) =>
      if !IsHexDigit(ch) then Fed(GetLine(line, sum), Nothing)
      else Fed(Checksum2(line, sum, FromHex(ch)), Nothing)
    case Checksum2(line, sum, high) =>
      if !IsHexDigit(ch) then Fed(GetLine(line, sum), Nothing)
      else if 16 * high + FromHex(ch) != sum % 256 then Fed(Idle, Refused)
      else Fed(Idle, Accepted(line))
  }

  /** A byte stream, from the first byte on. */
  function ReceiveAll(r: Receiver, s: seq<Byte>): Receiver
    decreases |s|
  {
    if s == [] then r else ReceiveAll(Receive(r, s[0]).receiver, s[1..])
  }

  /** The events of a stream that are not Nothing. */
  function Events(r: Receiver, s: seq<Byte>): seq<Event>
    decreases |s|
  {
    if s == [] then []
    else
      var fed := Receive(r, s[0]);
      Seen(fed.event) + Events(fed.receiver, s[1..])
  }

  function Seen(e: Event): seq<Event> {
    if e == Nothing then [] else [e]
  }

  lemma ReceiveTwo(r: Receiver, a: Byte, b: Byte)
    ensures var one := Receive(r, a);
            && ReceiveAll(r, [a, b]) == Receive(one.receiver, b).receiver
            && Events(r, [a, b]) == Seen(one.event) + Seen(Receive(one.receiver, b).event)
  {
    var one := Receive(r, a);
    var two := Receive(one.receiver, b);
    assert [a, b][1..] == [b] && [b][1..] == [];
    assert Events(two.receiver, []) == [] && Seen(two.event) + [] == Seen(two.event);
    assert Events(one.receiver, [b]) == Seen(two.event) + Events(two.receiver, []);
    assert ReceiveAll(one.receiver, [b]) == ReceiveAll(two.receiver, []);
  }

  lemma ReceiveThree(r: Receiver, a: Byte, b: Byte, c: Byte)
    ensures var two := Receive(Receive(r, a).receiver, b);
            && ReceiveAll(r, [a, b, c]) == Receive(two.receiver, c).receiver
            && Events(r, [a, b, c])
               == Seen(Receive(r, a).event) + (Seen(two.event) + Seen(Receive(two.receiver, c).event))
  {
    assert [a, b, c][1..] == [b, c];
    ReceiveTwo(Receive(r, a).receiver, b, c);
  }

  predicate Fits(r: Receiver) {
    r.Idle? || |r.line| <= MAX_PACKET_LENGTH - 1
  }

  /** Whatever is received, the line never outgrows the buffer less its terminator. */
  lemma {:induction false} LineStaysShort(r: Receiver, s: seq<Byte>)
    requires Fits(r)
    ensures Fits(ReceiveAll(r, s))
    decreases |s|
  {
    if s != [] {
      LineStaysShort(Receive(r, s[0]).receiver, s[1..]);
    }
  }

  lemma {:induction false} ReceiveSplit(r: Receiver, a: seq<Byte>, b: seq<Byte>)
    ensures ReceiveAll(r, a + b) == ReceiveAll(ReceiveAll(r, a), b)
    ensures Events(r, a + b) == Events(r, a) + Events(ReceiveAll(r, a), b)
    decreases |a|
  {
    if a == [] {
      assert a + b == b;
    } else {
      var fed := Receive(r, a[0]);
      ReceiveSplit(fed.receiver, a[1..], b);
      SumTail(a, b);
      AssociativeEvents(Seen(fed.event), Events(fed.receiver, a[1..]), Events(ReceiveAll(r, a), b));
    }
  }

  lemma AssociativeEvents(a: seq<Event>, b: seq<Event>, c: seq<Event>)
    ensures (a + b) + c == a + (b + c)
  {
  }

  function Reply(e: Event): seq<Byte> {
    match e case Nothing => [] case Refused => [NAK] case Accepted(_) => [ACK]
  }

  // ---------------------------------------------------------------- round trip

  lemma ReceiveEscapedByte(line: seq<Byte>, sum: nat, c: Byte)
    requires |line| < MAX_PACKET_LENGTH - 1
    ensures ReceiveAll(GetLine(line, sum), EscapeByte(c)) == GetLine(line + [c], sum + Sum(EscapeByte(c)))
    ensures Events(GetLine(line, sum), EscapeByte(c)) == []
  {
    if Special(c) {
      ReceiveTwo(GetLine(line, sum), ESCAPE, Flip(c));
      assert [ESCAPE, Flip(c)][1..] == [Flip(c)] && [Flip(c)][1..] == [];
      assert Sum([Flip(c)]) == Flip(c) as nat;
      assert Flip(Flip(c)) == c && Flip(c) != END;
    } else {
      assert [c][1..] == [];
    }
  }

  /** The bytes are received as `mem`, at the end of the line, and nothing else happens. */
  ghost predicate Takes(line: seq<Byte>, sum: nat, bytes: seq<Byte>, mem: seq<Byte>) {
    && ReceiveAll(GetLine(line, sum), bytes) == GetLine(line + mem, sum + Sum(bytes))
    && Events(GetLine(line, sum), bytes) == []
  }

  lemma TakesNothing(line: seq<Byte>, sum: nat)
    ensures Takes(line, sum, [], [])
  {
    Unit(line);
  }

  /** An escaped payload is received as the payload itself. */
  lemma {:induction false} ReceiveEscaped(line: seq<Byte>, sum: nat, mem: seq<Byte>)
    requires |line| + |mem| <= MAX_PACKET_LENGTH - 1
    ensures Takes(line, sum, Escaped(mem), mem)
    decreases |mem|
  {
    if mem == [] {
      TakesNothing(line, sum);
    } else {
      var c, rest := mem[0], mem[1..];
      ReceiveEscaped(line + [c], sum + Sum(EscapeByte(c)), rest);
      TakesNext(line, sum, c, rest);
      assert [c] + rest == mem && EscapeByte(c) + Escaped(rest) == Escaped(mem);
    }
  }

  lemma TakesNext(line: seq<Byte>, sum: nat, c: Byte, rest: seq<Byte>)
    requires |line| < MAX_PACKET_LENGTH - 1
    requires Takes(line + [c], sum + Sum(EscapeByte(c)), Escaped(rest), rest)
    ensures Takes(line, sum, EscapeByte(c) + Escaped(rest), [c] + rest)
  {
    ReceiveEscapedByte(line, sum, c);
    ReceiveSplit(GetLine(line, sum), EscapeByte(c), Escaped(rest));
    SumAppend(EscapeByte(c), Escaped(rest));
    Associative(line, [c], rest);
  }

  /** Framing round trip: from idle, a packet with an escaped payload is accepted, once, as
      that payload, and nothing else happens. */
  lemma FrameRoundTrip(mem: seq<Byte>)
    requires |mem| <= MAX_PACKET_LENGTH - 1
    ensures ReceiveAll(Idle, Frame(Escaped(mem))) == Idle
    ensures Events(Idle, Frame(Escaped(mem))) == [Accepted(mem)]
  {
    ReceivePayload(FRESH, mem);
    ReceiveFramed(mem, Escaped(mem));
  }

  lemma ReceivePayload(r: Receiver, mem: seq<Byte>)
    requires |mem| <= MAX_PACKET_LENGTH - 1 && r.GetLine? && r.line == [] && r.sum == 0
    ensures ReceiveAll(r, Escaped(mem)) == GetLine(mem, Sum(Escaped(mem)))
    ensures Events(r, Escaped(mem)) == []
  {
    Unit(mem);
    ReceiveEscaped(r.line, r.sum, mem);
  }

  /** A framed body that is received as a line is accepted as that line. */
  lemma ReceiveFramed(line: seq<Byte>, body: seq<Byte>)
    requires ReceiveAll(FRESH, body) == GetLine(line, Sum(body)) && Events(FRESH, body) == []
    ensures ReceiveAll(Idle, Frame(body)) == Idle && Events(Idle, Frame(body)) == [Accepted(line)]
  {
    var sum := Sum(body);
    var tail := [END, ToHex(sum / 16 % 16), ToHex(sum % 16)];
    ReceiveSplit(FRESH, body, tail);
    ReceiveTail(line, sum);
    ReceiveStart(body + tail);
    Associative([START], body, tail);
  }

  lemma ReceiveStart(s: seq<Byte>)
    ensures ReceiveAll(Idle, [START] + s) == ReceiveAll(FRESH, s)
    ensures Events(Idle, [START] + s) == Events(FRESH, s)
  {
    assert ([START] + s)[1..] == s;
  }

  lemma {:induction false} AcceptedAreShort(r: Receiver, s: seq<Byte>, i: nat)
    requires Fits(r) && i < |Events(r, s)| && Events(r, s)[i].Accepted?
    ensures |Events(r, s)[i].packet| <= MAX_PACKET_LENGTH - 1
    decreases |s|
  {
    var fed := Receive(r, s[0]);
    if i >= |Seen(fed.event)| {
      AcceptedAreShort(fed.receiver, s[1..], i - |Seen(fed.event)|);
    }
  }

  /** The round trip works exactly for the payloads that leave room for the terminator. */
  lemma RoundTripBound(mem: seq<Byte>)
    ensures Events(Idle, Frame(Escaped(mem))) == [Accepted(mem)] <==> |mem| <= MAX_PACKET_LENGTH - 1
  {
    if |mem| <= MAX_PACKET_LENGTH - 1 {
      FrameRoundTrip(mem);
    } else if Events(Idle, Frame(Escaped(mem))) == [Accepted(mem)] {
      AcceptedAreShort(Idle, Frame(Escaped(mem)), 0);
    }
  }

  lemma TwoDigits(sum: nat)
    ensures 16 * (sum / 16 % 16) + sum % 16 == sum % 256
  {
  }

  /** The end of a packet with the right checksum. */
  lemma ReceiveTail(line: seq<Byte>, sum: nat)
    ensures var tail := [END, ToHex(sum / 16 % 16), ToHex(sum % 16)];
            && ReceiveAll(GetLine(line, sum), tail) == Idle
            && Events(GetLine(line, sum), tail) == [Accepted(line)]
  {
    HexDigit(sum / 16 % 16);
    HexDigit(sum % 16);
    TwoDigits(sum);
    ReceiveThree(GetLine(line, sum), END, ToHex(sum / 16 % 16), ToHex(sum % 16));
  }

  /** A wrong checksum is refused: of the 256 pairs of digits exactly one is accepted. */
  lemma WrongChecksum(line: seq<Byte>, sum: nat, h: Byte, l: Byte)
    requires IsHexDigit(h) && IsHexDigit(l)
    ensures Events(GetLine(line, sum), [END, h, l])
         == [if 16 * FromHex(h) + FromHex(l) == sum % 256 then Accepted(line) else Refused]
  {
    ReceiveThree(GetLine(line, sum), END, h, l);
  }

  /** Run-length encoding: a character and a count stand for the character and that many
      copies, as long as they fit. */
  lemma RunLength(line: seq<Byte>, sum: nat, c: Byte, n: nat)
    requires !Special(c) && 3 <= n <= 226 && |line| + 1 + n < MAX_PACKET_LENGTH - 1
    ensures ReceiveAll(GetLine(line, sum), [c, REPEAT, (n + 29) as Byte])
         == GetLine(line + Copies(c, n + 1), sum + Sum([c, REPEAT, (n + 29) as Byte]))
  {
    RunBytes(line, sum, c, n, (n + 29) as Byte);
  }

  lemma RunBytes(line: seq<Byte>, sum: nat, c: Byte, n: nat, count: Byte)
    requires !Special(c) && 3 <= n && count as nat == n + 29 && |line| + 1 + n < MAX_PACKET_LENGTH - 1
    ensures ReceiveAll(GetLine(line, sum), [c, REPEAT, count])
         == GetLine(line + Copies(c, n + 1), sum + Sum([c, REPEAT, count]))
  {
    ReceiveThree(GetLine(line, sum), c, REPEAT, count);
    SumThree(c, REPEAT, count);
    RunSteps(line, sum, c, n, count);
  }

  lemma RunSteps(line: seq<Byte>, sum: nat, c: Byte, n: nat, count: Byte)
    requires !Special(c) && 3 <= n && count as nat == n + 29 && |line| + 1 + n < MAX_PACKET_LENGTH - 1
    ensures var one := Receive(GetLine(line, sum), c).receiver;
            var two := Receive(one, REPEAT).receiver;
            Receive(two, count).receiver
            == GetLine(line + Copies(c, n + 1), sum + c as nat + REPEAT as nat + count as nat)
  {
    var one := line + [c];
    assert one[|one| - 1] == c && one + Copies(c, n) == line + Copies(c, n + 1);
  }

  lemma SumThree(a: Byte, b: Byte, c: Byte)
    ensures Sum([a, b, c]) == a as nat + b as nat + c as nat
  {
    assert [a, b, c][1..] == [b, c] && [b, c][1..] == [c] && [c][1..] == [];
    assert Sum([c]) == c as nat;
  }

  // ---------------------------------------------------------------- the stub as a function

  /** What gdb_handle_packet replies. */
  datatype Answer = Silent | Body(bytes: seq<Byte>)

  type Handler = seq<Byte> -> Answer

  /** The receiver, and the packet sent last if its acknowledgement is awaited. */
  datatype Stub = Stub(receiver: Receiver, waiting: seq<Byte>)

  datatype Served = Served(stub: Stub, sent: seq<Byte>, packets: seq<seq<Byte>>)

  function Packet(a: Answer): seq<Byte> {
    match a case Silent => [] case Body(bytes) => Frame(bytes)
  }

  /** A byte of a stream, on a stopped machine. */
  function Serve(handler: Handler, s: Stub, ch: Byte): Served {
    if s.waiting != [] && ch != START then
      Served(s.(waiting := if ch == ACK then [] else s.waiting), if ch == NAK then s.waiting else [], [])
    else
      var fed := Receive(s.receiver, ch);
      var answer := if fed.event.Accepted? then Packet(handler(fed.event.packet)) else [];
      Served(Stub(fed.receiver, answer), Reply(fed.event) + answer,
             if fed.event.Accepted? then [fed.event.packet] else [])
  }

  function Then(a: Served, b: Served): Served {
    Served(b.stub, a.sent + b.sent, a.packets + b.packets)
  }

  function ServeAll(handler: Handler, s: Stub, bytes: seq<Byte>): Served
    decreases |bytes|
  {
    if bytes == [] then Served(s, [], [])
    else
      var first := Serve(handler, s, bytes[0]);
      Then(first, ServeAll(handler, first.stub, bytes[1..]))
  }

  lemma ThenAssociative(a: Served, b: Served, c: Served)
    ensures Then(Then(a, b), c) == Then(a, Then(b, c))
  {
    Associative(a.sent, b.sent, c.sent);
    AssociativePackets(a.packets, b.packets, c.packets);
  }

  lemma ThenNothing(a: Served, s: Stub)
    ensures Then(a, Served(s, [], [])) == Served(s, a.sent, a.packets)
    ensures Then(Served(s, [], []), a) == a
  {
    Unit(a.sent);
    assert a.packets + [] == a.packets == [] + a.packets;
  }

  lemma {:induction false} ServeSplit(handler: Handler, s: Stub, a: seq<Byte>, b: seq<Byte>)
    ensures var before := ServeAll(handler, s, a);
            ServeAll(handler, s, a + b) == Then(before, ServeAll(handler, before.stub, b))
    decreases |a|
  {
    if a == [] {
      assert a + b == b;
      ThenNothing(ServeAll(handler, s, b), s);
    } else {
      var first := Serve(handler, s, a[0]);
      ServeSplit(handler, first.stub, a[1..], b);
      SumTail(a, b);
      var before := ServeAll(handler, first.stub, a[1..]);
      ThenAssociative(first, before, ServeAll(handler, before.stub, b));
    }
  }

  lemma ServeOne(handler: Handler, s: Stub, ch: Byte)
    ensures ServeAll(handler, s, [ch]) == Serve(handler, s, ch)
  {
    assert [ch][1..] == [];
    ThenNothing(Serve(handler, s, ch), Serve(handler, s, ch).stub);
  }

  lemma ServeNext(handler: Handler, s: Stub, bytes: seq<Byte>, ch: Byte)
    ensures var before := ServeAll(handler, s, bytes);
            ServeAll(handler, s, bytes + [ch]) == Then(before, Serve(handler, before.stub, ch))
  {
    ServeSplit(handler, s, bytes, [ch]);
    ServeOne(handler, ServeAll(handler, s, bytes).stub, ch);
  }

  /** While nothing is accepted, refused or awaited, serving is receiving. */
  lemma {:induction false} ServeQuiet(handler: Handler, r: Receiver, bytes: seq<Byte>)
    requires Events(r, bytes) == []
    ensures ServeAll(handler, Stub(r, []), bytes) == Served(Stub(ReceiveAll(r, bytes), []), [], [])
    decreases |bytes|
  {
    if bytes != [] {
      var fed := Receive(r, bytes[0]);
      assert Seen(fed.event) == [];
      ServeQuiet(handler, fed.receiver, bytes[1..]);
    }
  }

  predicate Short(packets: seq<seq<Byte>>) {
    forall i :: 0 <= i < |packets| ==> |packets[i]| <= MAX_PACKET_LENGTH - 1
  }

  lemma ServedIsShort(handler: Handler, s: Stub, ch: Byte)
    requires Fits(s.receiver)
    ensures Fits(Serve(handler, s, ch).stub.receiver) && Short(Serve(handler, s, ch).packets)
  {
  }

  lemma {:induction false} ServedAreShort(handler: Handler, s: Stub, bytes: seq<Byte>)
    requires Fits(s.receiver)
    ensures Fits(ServeAll(handler, s, bytes).stub.receiver) && Short(ServeAll(handler, s, bytes).packets)
    decreases |bytes|
  {
    if bytes != [] {
      ServedIsShort(handler, s, bytes[0]);
      ServedAreShort(handler, Serve(handler, s, bytes[0]).stub, bytes[1..]);
    }
  }

  /** All but the last byte of a packet. */
  function FrameFront(body: seq<Byte>): seq<Byte> {
    [START] + (body + [END, ToHex(Sum(body) / 16 % 16)])
  }

  lemma Regroup(a: Byte, body: seq<Byte>, b: Byte, c: Byte, d: Byte)
    ensures [a] + body + [b, c, d] == ([a] + (body + [b, c])) + [d]
  {
  }

  lemma FrontReceived(mem: seq<Byte>)
    requires |mem| <= MAX_PACKET_LENGTH - 1
    ensures var body := Escaped(mem);
            && Events(Idle, FrameFront(body)) == []
            && ReceiveAll(Idle, FrameFront(body)) == Checksum2(mem, Sum(body), Sum(body) / 16 % 16)
  {
    var body := Escaped(mem);
    var high := Sum(body) / 16 % 16;
    ReceivePayload(FRESH, mem);
    ReceiveSplit(FRESH, body, [END, ToHex(high)]);
    FirstDigit(mem, Sum(body), high);
    ReceiveStart(body + [END, ToHex(high)]);
  }

  lemma FirstDigit(line: seq<Byte>, sum: nat, high: nat)
    requires high < 16
    ensures ReceiveAll(GetLine(line, sum), [END, ToHex(high)]) == Checksum2(line, sum, high)
    ensures Events(GetLine(line, sum), [END, ToHex(high)]) == []
  {
    HexDigit(high);
    ReceiveTwo(GetLine(line, sum), END, ToHex(high));
  }

  lemma LastDigit(handler: Handler, line: seq<Byte>, sum: nat)
    ensures Serve(handler, Stub(Checksum2(line, sum, sum / 16 % 16), []), ToHex(sum % 16))
         == Served(Stub(Idle, Packet(handler(line))), [ACK] + Packet(handler(line)), [line])
  {
    HexDigit(sum % 16);
    TwoDigits(sum);
  }

  lemma AckServed(handler: Handler, waiting: seq<Byte>)
    ensures Serve(handler, Stub(Idle, waiting), ACK) == Served(Stub(Idle, []), [], [])
  {
    assert Receive(Idle, ACK) == Fed(Idle, Nothing);
  }

  /** A packet sent to an idle stub is handled as its payload, acknowledged and answered. */
  lemma PacketIsServed(handler: Handler, mem: seq<Byte>)
    requires |mem| <= MAX_PACKET_LENGTH - 1
    ensures ServeAll(handler, Stub(Idle, []), Frame(Escaped(mem)))
         == Served(Stub(Idle, Packet(handler(mem))), [ACK] + Packet(handler(mem)), [mem])
  {
    var body := Escaped(mem);
    var sum := Sum(body);
    FrontReceived(mem);
    ServeQuiet(handler, Idle, FrameFront(body));
    ServeNext(handler, Stub(Idle, []), FrameFront(body), ToHex(sum % 16));
    LastDigit(handler, mem, sum);
    var before := Stub(Checksum2(mem, sum, sum / 16 % 16), []);
    ThenNothing(Serve(handler, before, ToHex(sum % 16)), before);
    Regroup(START, body, END, ToHex(sum / 16 % 16), ToHex(sum % 16));
  }

  /** What a debugger sends that acknowledges every answer. */
  function Dialogue(mems: seq<seq<Byte>>): seq<Byte> {
    if mems == [] then [] else (Frame(Escaped(mems[0])) + [ACK]) + Dialogue(mems[1..])
  }

  function Answers(handler: Handler, mems: seq<seq<Byte>>): seq<Byte> {
    if mems == [] then [] else ([ACK] + Packet(handler(mems[0]))) + Answers(handler, mems[1..])
  }

  lemma OneExchange(handler: Handler, mem: seq<Byte>)
    requires |mem| <= MAX_PACKET_LENGTH - 1
    ensures ServeAll(handler, Stub(Idle, []), Frame(Escaped(mem)) + [ACK])
         == Served(Stub(Idle, []), [ACK] + Packet(handler(mem)), [mem])
  {
    PacketIsServed(handler, mem);
    ServeNext(handler, Stub(Idle, []), Frame(Escaped(mem)), ACK);
    AckServed(handler, Packet(handler(mem)));
    ThenNothing(ServeAll(handler, Stub(Idle, []), Frame(Escaped(mem))), Stub(Idle, []));
  }

  /** A whole conversation: whatever the payloads and whatever the answers, the stub handles
      exactly the payloads, in order, and sends exactly their answers. */
  lemma {:induction false} ConversationRoundTrip(handler: Handler, mems: seq<seq<Byte>>)
    requires forall i :: 0 <= i < |mems| ==> |mems[i]| <= MAX_PACKET_LENGTH - 1
    ensures ServeAll(handler, Stub(Idle, []), Dialogue(mems)) == Served(Stub(Idle, []), Answers(handler, mems), mems)
  {
    if mems != [] {
      ConversationRoundTrip(handler, mems[1..]);
      OneExchange(handler, mems[0]);
      ServeSplit(handler, Stub(Idle, []), Frame(Escaped(mems[0])) + [ACK], Dialogue(mems[1..]));
      assert [mems[0]] + mems[1..] == mems;
    }
  }

  // ---------------------------------------------------------------- the stub

  datatype Phase = RsIdle | RsGetLine | RsGetLineEsc | RsGetLineRle | RsChecksum1 | RsChecksum2

  ghost predicate AnswersFit(handler: Handler) {
    forall p :: handler(p).Body? ==> |handler(p).bytes| <= MAX_PACKET_LENGTH
  }

  class GdbState {
    var state: Phase
    const lineBuf: array<Byte>
    var lineBufIndex: nat
    var lineSum: nat
    var lineCsum: nat
    const lastPacket: array<Byte>
    var lastPacketLen: nat
    const handler: Handler
    var running: bool
    var sent: seq<Byte>
    var packets: seq<seq<Byte>>

    ghost predicate Valid()
      reads this, lineBuf
    {
      && AnswersFit(handler)
      && lineBuf.Length == MAX_PACKET_LENGTH && lineBufIndex <= MAX_PACKET_LENGTH - 1
      && lastPacket.Length == MAX_PACKET_LENGTH + 4 && lastPacketLen <= lastPacket.Length
      && lineBuf != lastPacket
      && (state.RsChecksum2? ==> lineCsum < 256 && lineCsum % 16 == 0 && lineBuf[lineBufIndex] == 0)
    }

    ghost function Value(): Receiver
      reads this, lineBuf
      requires Valid()
    {
      var line := lineBuf[..lineBufIndex];
      match state
      case RsIdle => Idle
      case RsGetLine => GetLine(line, lineSum)
      case RsGetLineEsc => GetLineEsc(line, lineSum)
      case RsGetLineRle => GetLineRle(line, lineSum)
      case RsChecksum1 => Checksum1(line, lineSum)
      case RsChecksum2 => Checksum2(line, lineSum, lineCsum / 16)
    }

    /** With the packet sent last. */
    ghost function Stubbed(): Stub
      reads this, lineBuf, lastPacket
      requires Valid()
    {
      Stub(Value(), lastPacket[..lastPacketLen])
    }

    constructor (handler: Handler)
      requires AnswersFit(handler)
      ensures Valid() && Stubbed() == Stub(Idle, []) && !running && sent == [] && packets == []
      ensures fresh(lineBuf) && fresh(lastPacket) && this.handler == handler
    {
      this.handler := handler;
      lineBuf := new Byte[MAX_PACKET_LENGTH](i => 0);
      lastPacket := new Byte[MAX_PACKET_LENGTH + 4](i => 0);
      state, lineBufIndex, lineSum, lineCsum, lastPacketLen := RsIdle, 0, 0, 0, 0;
      running, sent, packets := false, [], [];
    }

    /** gdb_handle_packet. */
    method Handle(packet: seq<Byte>)
      requires Valid() && lastPacketLen == 0
      modifies this`sent, this`lastPacketLen, lastPacket
      ensures Valid() && Value() == old(Value())
      ensures lastPacket[..lastPacketLen] == Packet(handler(packet)) && sent == old(sent) + Packet(handler(packet))
    {
      match handler(packet)
      case Silent =>
      case Body(bytes) => PutPacketBinary(bytes);
    }

    /** The last case of the switch of gdb_read_byte: the packet is refused, or acknowledged
        and handled. */
    method ParseChecksum(ch: Byte)
      requires Valid() && state.RsChecksum2? && IsHexDigit(ch) && lastPacketLen == 0
      modifies this`state, this`lineCsum, this`sent, this`packets, this`lastPacketLen, lastPacket
      ensures Valid() && var served := Serve(handler, old(Stubbed()), ch);
              Stubbed() == served.stub && sent == old(sent) + served.sent && packets == old(packets) + served.packets
    {
      lineCsum := lineCsum + FromHex(ch);
      state := RsIdle;
      if lineCsum != lineSum % 256 {
        sent := sent + [NAK];
      } else {
        sent := sent + [ACK];
        var packet := lineBuf[..lineBufIndex];
        packets := packets + [packet];
        Associative(old(sent), [ACK], Packet(handler(packet)));
        Handle(packet);
      }
    }

    /** The switch of gdb_read_byte: only the second digit of a checksum ends a packet. */
    method Parse(ch: Byte)
      requires Valid() && lastPacketLen == 0
      modifies this`state, this`lineBufIndex, this`lineSum, this`lineCsum, this`sent, this`packets, this`lastPacketLen
      modifies lineBuf, lastPacket
      ensures Valid() && var served := Serve(handler, old(Stubbed()), ch);
              Stubbed() == served.stub && sent == old(sent) + served.sent && packets == old(packets) + served.packets
    {
      if state.RsChecksum2? && IsHexDigit(ch) {
        ParseChecksum(ch);
      } else {
        ParseInside(ch);
      }
    }

    /** The cases that do not end a packet. */
    method ParseInside(ch: Byte)
      requires Valid() && !(state.RsChecksum2? && IsHexDigit(ch))
      modifies this`state, this`lineBufIndex, this`lineSum, this`lineCsum, lineBuf
      ensures Valid() && Fed(Value(), Nothing) == Receive(old(Value()), ch)
    {
      match state
      case RsIdle =>
        if ch == START {
          lineBufIndex, lineSum, state := 0, 0, RsGetLine;
        }
      case RsGetLine => ParseLine(ch);
      case RsGetLineEsc => ParseEscape(ch);
      case RsGetLineRle => ParseRepeat(ch);
      case RsChecksum1 =>
        if !IsHexDigit(ch) {
          state := RsGetLine;
        } else {
          lineBuf[lineBufIndex] := 0;
          lineCsum := FromHex(ch) * 16;
          state := RsChecksum2;
        }
      case RsChecksum2 => state := RsGetLine;
    }

    method ParseLine(ch: Byte)
      requires Valid() && state.RsGetLine?
      modifies this`state, this`lineBufIndex, this`lineSum, lineBuf
      ensures Valid() && Value() == Receive(old(Value()), ch).receiver
    {
      if ch == ESCAPE {
        state := RsGetLineEsc;
        lineSum := lineSum + ch as nat;
      } else if ch == REPEAT {
        state := RsGetLineRle;
        lineSum := lineSum + ch as nat;
      } else if ch == END {
        state := RsChecksum1;
      } else if lineBufIndex >= lineBuf.Length - 1 {
        state := RsIdle;
      } else {
        lineBuf[lineBufIndex] := ch;
        lineBufIndex := lineBufIndex + 1;
        lineSum := lineSum + ch as nat;
      }
    }

    method ParseEscape(ch: Byte)
      requires Valid() && state.RsGetLineEsc?
      modifies this`state, this`lineBufIndex, this`lineSum, lineBuf
      ensures Valid() && Value() == Receive(old(Value()), ch).receiver
    {
      if ch == END {
        state := RsChecksum1;
      } else if lineBufIndex >= lineBuf.Length - 1 {
        state := RsIdle;
      } else {
        lineBuf[lineBufIndex] := Flip(ch);
        lineBufIndex := lineBufIndex + 1;
        lineSum := lineSum + ch as nat;
        state := RsGetLine;
      }
    }

    /** memset of the line buffer. */
    method Fill(c: Byte, n: nat)
      requires Valid() && lineBufIndex + n <= lineBuf.Length
      modifies lineBuf
      ensures lineBuf[..lineBufIndex + n] == old(lineBuf[..lineBufIndex]) + Copies(c, n)
    {
      ghost var line := lineBuf[..lineBufIndex];
      for i := 0 to n
        invariant lineBuf[..lineBufIndex + i] == line + Copies(c, i)
      {
        lineBuf[lineBufIndex + i] := c;
        assert lineBuf[..lineBufIndex + i + 1] == lineBuf[..lineBufIndex + i] + [c];
        assert Copies(c, i + 1) == Copies(c, i) + [c];
      }
    }

    method ParseRepeat(ch: Byte)
      requires Valid() && state.RsGetLineRle?
      modifies this`state, this`lineBufIndex, this`lineSum, lineBuf
      ensures Valid() && Value() == Receive(old(Value()), ch).receiver
    {
      if ch < SPACE {
        state := RsGetLine;
      } else {
        var repeat := (ch - SPACE) as nat + 3;
        if lineBufIndex + repeat >= lineBuf.Length - 1 {
          state := RsIdle;
        } else if lineBufIndex < 1 {
          state := RsGetLine;
        } else {
          Fill(lineBuf[lineBufIndex - 1], repeat);
          lineBufIndex := lineBufIndex + repeat;
          lineSum := lineSum + ch as nat;
          state := RsGetLine;
        }
      }
    }

    /** gdb_read_byte.  While a sent packet awaits its acknowledgement, a NAK sends it again,
        an ACK or the start of a packet ends the wait, and only the latter is parsed.  A byte
        that would be parsed while the machine runs only stops it. */
    method ReadByte(ch: Byte)
      requires Valid()
      modifies this, lineBuf, lastPacket
      ensures Valid()
      ensures var served := Serve(handler, old(Stubbed()), ch);
              if old(running) && (old(lastPacketLen) == 0 || ch == START)
              then Stubbed() == Stub(old(Value()), []) && sent == old(sent) && packets == old(packets) && !running
              else && Stubbed() == served.stub && sent == old(sent) + served.sent
                   && packets == old(packets) + served.packets
                   && running == old(running)
    {
      if lastPacketLen != 0 {
        if ch == NAK {
          sent := sent + lastPacket[..lastPacketLen];
        }
        if ch == ACK || ch == START {
          lastPacketLen := 0;
        }
        if ch != START {
          return;
        }
      }
      if running {
        running := false;
      } else {
        Parse(ch);
      }
    }

    /** gdb_chr_receive on a stopped machine: what the stub sends and handles is what the
        stream makes it. */
    method ReadAll(bytes: seq<Byte>)
      requires Valid() && !running
      modifies this, lineBuf, lastPacket
      ensures Valid() && !running
      ensures var served := ServeAll(handler, old(Stubbed()), bytes);
              Stubbed() == served.stub && sent == old(sent) + served.sent && packets == old(packets) + served.packets
    {
      ghost var s, sent0, packets0 := Stubbed(), sent, packets;
      for i := 0 to |bytes|
        invariant Valid() && !running
        invariant var served := ServeAll(handler, s, bytes[..i]);
                  Stubbed() == served.stub && sent == sent0 + served.sent && packets == packets0 + served.packets
      {
        ghost var before := ServeAll(handler, s, bytes[..i]);
        ghost var now := Serve(handler, before.stub, bytes[i]);
        NextPrefix(bytes, i);
        ServeNext(handler, s, bytes[..i], bytes[i]);
        Associative(sent0, before.sent, now.sent);
        AssociativePackets(packets0, before.packets, now.packets);
        ReadByte(bytes[i]);
      }
      assert bytes[..|bytes|] == bytes;
    }

    /** The memcpy and the checksum loop of put_packet_binary. */
    method FillPacket(buf: seq<Byte>) returns (csum: nat)
      requires |buf| + 1 <= lastPacket.Length
      modifies lastPacket
      ensures lastPacket[..|buf| + 1] == [START] + buf && csum == Sum(buf)
    {
      lastPacket[0] := START;
      csum := 0;
      for i := 0 to |buf|
        invariant lastPacket[..i + 1] == [START] + buf[..i] && csum == Sum(buf[..i])
      {
        lastPacket[i + 1] := buf[i];
        assert lastPacket[..i + 2] == lastPacket[..i + 1] + [buf[i]];
        assert buf[..i + 1] == buf[..i] + [buf[i]];
        Associative([START], buf[..i], [buf[i]]);
        SumAppend(buf[..i], [buf[i]]);
        csum := csum + buf[i] as nat;
      }
      assert buf[..|buf|] == buf;
    }

    /** put_packet_binary: sends the frame around the bytes and keeps it for a repeat. */
    method PutPacketBinary(buf: seq<Byte>)
      requires Valid() && |buf| <= MAX_PACKET_LENGTH
      modifies this`lastPacketLen, this`sent, lastPacket
      ensures Valid() && Value() == old(Value()) && lastPacket[..lastPacketLen] == Frame(buf)
      ensures sent == old(sent) + Frame(buf)
    {
      var csum := FillPacket(buf);
      var p := 1 + |buf|;
      ghost var filled := lastPacket[..p];
      lastPacket[p], lastPacket[p + 1], lastPacket[p + 2] := END, ToHex(csum / 16 % 16), ToHex(csum % 16);
      lastPacketLen := p + 3;
      assert lastPacket[..p] == filled;
      assert lastPacket[p..p + 3] == [END, ToHex(csum / 16 % 16), ToHex(csum % 16)];
      assert lastPacket[..p + 3] == lastPacket[..p] + lastPacket[p..p + 3];
      sent := sent + lastPacket[..lastPacketLen];
    }
  }

  lemma AssociativePackets(a: seq<seq<Byte>>, b: seq<seq<Byte>>, c: seq<seq<Byte>>)
    ensures (a + b) + c == a + (b + c)
  {
  }

  /** A payload is escaped and sent by one stub and received by another, which handles exactly
      that payload if and only if it leaves room for the terminator. */
  method SendAndReceive(sender: GdbState, receiver: GdbState, mem: seq<Byte>)
    requires sender != receiver && sender.Valid() && receiver.Valid() && |Escaped(mem)| <= MAX_PACKET_LENGTH
    requires receiver.Stubbed() == Stub(Idle, []) && !receiver.running
    requires sender.lastPacket != receiver.lastPacket && sender.lastPacket != receiver.lineBuf
    modifies sender`lastPacketLen, sender`sent, sender.lastPacket, receiver, receiver.lineBuf, receiver.lastPacket
    ensures receiver.packets == old(receiver.packets) + [mem] <==> |mem| <= MAX_PACKET_LENGTH - 1
    ensures |mem| <= MAX_PACKET_LENGTH - 1 ==>
              receiver.sent == old(receiver.sent) + ([ACK] + Packet(receiver.handler(mem)))
  {
    var buf := MemToX(mem);
    sender.PutPacketBinary(buf);
    var bytes := sender.lastPacket[..sender.lastPacketLen];
    ghost var h := receiver.handler;
    ServedAreShort(h, Stub(Idle, []), bytes);
    if |mem| <= MAX_PACKET_LENGTH - 1 {
      PacketIsServed(h, mem);
    }
    ghost var packets, served := receiver.packets, ServeAll(h, Stub(Idle, []), bytes);
    receiver.ReadAll(bytes);
    if receiver.packets == packets + [mem] {
      assert (packets + served.packets)[|packets|] == served.packets[0];
    }
  }
}
