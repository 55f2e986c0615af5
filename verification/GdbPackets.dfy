/**
 The GDB remote protocol: hexadecimal digits, packet frames, the receiver and the register dump.
 */
module GdbPackets {
  import opened Common

  const DOLLAR: Byte := 36
  const HASH: Byte := 35
  const PLUS: Byte := 43
  const MINUS: Byte := 45
  const CTRL_C: Byte := 3

  // ------------------------------------------------------------------ digits

  /** `hex_to_int`: -1 for anything but a digit. */
  function HexValue(c: Byte): (v: int)
    ensures -1 <= v < 16
  {
    if 48 <= c <= 57 then c - 48
    else if 97 <= c <= 102 then c - 87
    else if 65 <= c <= 70 then c - 55
    else -1
  }

  function HexChar(n: nat): Byte
    requires n < 16
  {
    if n < 10 then 48 + n else 87 + n
  }

  /** `hex_chars` and `hex_to_int` are inverse, and the digits are exactly the characters with a value. */
  lemma HexInverse(c: Byte, n: nat)
    requires n < 16
    ensures HexValue(HexChar(n)) == n
    ensures HexValue(c) >= 0 <==> 48 <= c <= 57 || 65 <= c <= 70 || 97 <= c <= 102
  {
  }

  /** Digits are sent in lower case and read in either. */
  lemma HexTable(n: nat)
    requires n < 16
    ensures HexChar(n) == "0123456789abcdef"[n] as int
    ensures HexValue("0123456789ABCDEF"[n] as int) == n
  {
  }

  /** `(hex_to_int(a) << 4) | hex_to_int(b)` on 32-bit integers, where -1 has every bit set. */
  function Pair(a: Byte, b: Byte): (v: int)
    ensures -16 <= v < 256
  {
    if HexValue(b) < 0 then -1 else 16 * HexValue(a) + HexValue(b)
  }

  /** The same on C's own operators. */
  lemma PairIsShiftOr(hi: bv32, lo: bv32)
    requires (hi < 16 || hi == 0xFFFF_FFFF) && (lo < 16 || lo == 0xFFFF_FFFF)
    ensures (hi << 4) | lo == if lo == 0xFFFF_FFFF then 0xFFFF_FFFF else 16 * hi + lo
  {
  }

  /** A bad second digit leaves all bits set, a bad first one all but the last four. */
  lemma BadDigits(a: Byte, b: Byte)
    ensures HexValue(b) == -1 ==> Pair(a, b) == -1
    ensures HexValue(a) == -1 && HexValue(b) >= 0 ==> Pair(a, b) == HexValue(b) - 16
  {
  }

  function TwoDigits(b: Byte): (s: seq<Byte>)
    ensures |s| == 2
  {
    [HexChar(b / 16), HexChar(b % 16)]
  }

  lemma PairOfDigits(b: Byte)
    ensures Pair(TwoDigits(b)[0], TwoDigits(b)[1]) == b
  {
    HexInverse(0, b / 16);
    HexInverse(0, b % 16);
  }

  // ------------------------------------------------------------------ frames

  /** The sum of all bytes modulo 256. */
  function Checksum(data: seq<Byte>): Byte {
    if data == [] then 0 else Plus(Checksum(data[..|data| - 1]), data[|data| - 1])
  }

  /** Addition on bytes. */
  function Plus(x: Byte, y: Byte): Byte { (x + y) % 256 }

  lemma {:induction false} ChecksumAppend(a: seq<Byte>, b: seq<Byte>)
    ensures Checksum(a + b) == Plus(Checksum(a), Checksum(b))
  {
    PlusZero(Checksum(a));
    hide Plus;
    if b == [] {
      assert a + b == a;
    } else {
      var init, last := b[..|b| - 1], b[|b| - 1];
      ChecksumAppend(a, init);
      assert (a + b)[..|a + b| - 1] == a + init && (a + b)[|a + b| - 1] == last;
      PlusAssociates(Checksum(a), Checksum(init), last);
    }
  }

  lemma PlusZero(x: Byte)
    ensures Plus(x, 0) == x
  {
  }

  lemma PlusAssociates(x: Byte, y: Byte, z: Byte)
    ensures Plus(Plus(x, y), z) == Plus(x, Plus(y, z))
  {
    var j, k := (x + y) / 256, (y + z) / 256;
    assert (x + y) % 256 == x + y - 256 * j && (y + z) % 256 == y + z - 256 * k;
    Around(x + y + z, -j);
    Around(x + y + z, -k);
  }

  lemma Around(x: int, k: int)
    ensures (x + 256 * k) % 256 == x % 256
  {
  }

  /** `gdb_checksum`. */
  method ComputeChecksum(data: seq<Byte>) returns (sum: Byte)
    ensures sum == Checksum(data)
  {
    sum := 0;
    for i := 0 to |data|
      invariant sum == Checksum(data[..i])
    {
      sum := (sum + data[i]) % 256;
      assert data[..i + 1][..i] == data[..i];
    }
    assert data[..|data|] == data;
  }

  function Frame(data: seq<Byte>): seq<Byte> { [DOLLAR] + data + [HASH] + TwoDigits(Checksum(data)) }

  /** `gdb_send_packet`: what goes out on the line. */
  method SendPacket(data: seq<Byte>) returns (line: seq<Byte>)
    ensures line == Frame(data)
  {
    var checksum := ComputeChecksum(data);
    line := [DOLLAR];
    for i := 0 to |data|
      invariant line == [DOLLAR] + data[..i]
    {
      line := line + [data[i]];
    }
    line := line + [HASH];
    line := line + [HexChar(checksum / 16)];
    line := line + [HexChar(checksum % 16)];
    assert [DOLLAR] + data + [HASH] + [HexChar(checksum / 16)] + [HexChar(checksum % 16)] == Frame(data);
  }

  /** For instance, the answer OK goes out as `$OK#9a`. */
  lemma FrameOfOk()
    ensures Frame(['O' as int, 'K' as int]) == ['$' as int, 'O' as int, 'K' as int, '#' as int, '9' as int, 'a' as int]
  {
    var data: seq<Byte> := [79, 75];
    assert data[..1] == [79] && data[..1][..0] == [];
    assert Checksum([]) == 0 && Checksum([79]) == 79;
  }

  // ------------------------------------------------------------------ the receiver

  /** The receiver's state, with what has been stored and summed since the last start character. */
  datatype Rx =
    | Idle
    | Reading(buf: seq<Byte>, sum: Byte)
    | First(buf: seq<Byte>, sum: Byte)
    | Second(buf: seq<Byte>, sum: Byte, digit: Byte)

  /** How a call ends: with a packet or a break after `used` bytes, or still waiting. `acks` is sent back. */
  datatype Reception =
    | Waiting(rx: Rx, acks: seq<Byte>)
    | Packet(data: seq<Byte>, used: nat, acks: seq<Byte>)
    | Break(used: nat, acks: seq<Byte>)

  function WithAck(ack: Byte, r: Reception): Reception {
    match r
    case Waiting(rx, acks) => Waiting(rx, [ack] + acks)
    case Packet(data, used, acks) => Packet(data, used, [ack] + acks)
    case Break(used, acks) => Break(used, [ack] + acks)
  }

  /** `(uint8_t)` of the two checksum digits. */
  function Expected(a: Byte, b: Byte): Byte { Pair(a, b) % 256 }

  /** One byte in a state that does not end the call. */
  function Take(rx: Rx, c: Byte, max: nat): Rx {
    match rx
    case Idle => if c == DOLLAR then Reading([], 0) else Idle
    case Reading(buf, sum) =>
      if c == HASH then First(buf, sum)
      else if c == DOLLAR then Reading([], 0)
      else if |buf| + 1 < max then Reading(buf + [c], (sum + c) % 256)
      else rx
    case First(buf, sum) => Second(buf, sum, c)
    case Second(_, _, _) => Idle
  }

  /** `gdb_receive_packet` on the bytes from `pos` on. */
  function Receive(input: seq<Byte>, pos: nat, rx: Rx, max: nat): Reception
    requires pos <= |input|
    decreases |input| - pos
  {
    if pos == |input| then Waiting(rx, [])
    else
      var c := input[pos];
      if rx.Idle? && c == CTRL_C then Break(pos + 1, [])
      else if rx.Second? && rx.sum == Expected(rx.digit, c) then Packet(rx.buf, pos + 1, [PLUS])
      else if rx.Second? then WithAck(MINUS, Receive(input, pos + 1, Idle, max))
      else Receive(input, pos + 1, Take(rx, c, max), max)
  }

  /** The loop itself, over the caller's buffer. */
  method ReceivePacket(input: seq<Byte>, buf: array<Byte>) returns (r: Reception)
    requires buf.Length > 0
    modifies buf
    ensures r == Receive(input, 0, Idle, buf.Length)
    ensures r.Packet? ==> |r.data| < buf.Length && buf[..|r.data|] == r.data && buf[|r.data|] == 0
    ensures r.Break? ==> buf[0] == CTRL_C
  {
    var len, state, pos := 0, 0, 0;
    var checksum: int, cs1: Byte, acks: seq<Byte> := 0, 0, [];
    while pos < |input|
      invariant pos <= |input| && len < buf.Length && 0 <= state <= 3 && 0 <= checksum < 256
      invariant WithAcks(acks, Receive(input, pos, RxOf(state, buf[..len], checksum, cs1), buf.Length))
             == Receive(input, 0, Idle, buf.Length)
    {
      var c := input[pos];
      ghost var before := buf[..len];
      pos := pos + 1;
      if state == 0 {
        if c == DOLLAR {
          state, len, checksum := 1, 0, 0;
        } else if c == CTRL_C {
          buf[0] := CTRL_C;
          return Break(pos, acks);
        }
      } else if state == 1 {
        if c == HASH {
          state := 2;
        } else if c == DOLLAR {
          len, checksum := 0, 0;
        } else if len < buf.Length - 1 {
          buf[len] := c;
          len := len + 1;
          checksum := (checksum + c) % 256;
          assert buf[..len] == before + [c];
        }
      } else if state == 2 {
        cs1 := c;
        state := 3;
      } else {
        buf[len] := 0;
        assert buf[..len] == before;
        if checksum == Expected(cs1, c) {
          WithAcksOne(acks, PLUS, Packet(before, pos, []));
          return Packet(buf[..len], pos, acks + [PLUS]);
        }
        WithAcksOne(acks, MINUS, Receive(input, pos, Idle, buf.Length));
        acks := acks + [MINUS];
        state := 0;
      }
    }
    r := Waiting(RxOf(state, buf[..len], checksum, cs1), acks);
  }

  function RxOf(state: int, buf: seq<Byte>, sum: Byte, digit: Byte): Rx {
    if state == 0 then Idle
    else if state == 1 then Reading(buf, sum)
    else if state == 2 then First(buf, sum)
    else Second(buf, sum, digit)
  }

  ghost function WithAcks(acks: seq<Byte>, r: Reception): Reception {
    match r
    case Waiting(rx, more) => Waiting(rx, acks + more)
    case Packet(data, used, more) => Packet(data, used, acks + more)
    case Break(used, more) => Break(used, acks + more)
  }

  lemma WithAcksOne(acks: seq<Byte>, ack: Byte, r: Reception)
    ensures WithAcks(acks + [ack], r) == WithAcks(acks, WithAck(ack, r))
  {
    assert forall more: seq<Byte> :: acks + [ack] + more == acks + ([ack] + more);
  }

  // ------------------------------------------------------------------ what is sent is received

  predicate Quiet(s: seq<Byte>) { DOLLAR !in s && CTRL_C !in s }
  predicate Payload(s: seq<Byte>) { DOLLAR !in s && HASH !in s }

  /** What fits in a buffer of `max` bytes with its terminator. */
  function Clip(s: seq<Byte>, max: nat): seq<Byte>
    requires max > 0
  {
    if |s| < max then s else s[..max - 1]
  }

  lemma {:induction false} NoiseIsSkipped(input: seq<Byte>, pos: nat, noise: seq<Byte>, max: nat)
    requires At(input, pos, noise) && Quiet(noise)
    ensures Receive(input, pos, Idle, max) == Receive(input, pos + |noise|, Idle, max)
    decreases |noise|
  {
    if noise != [] {
      assert input[pos] == noise[0] && noise[0] in noise && forall b :: b in noise[1..] ==> b in noise;
      AtSplit(input, pos, [noise[0]], noise[1..]);
      NoiseIsSkipped(input, pos + 1, noise[1..], max);
    }
  }

  /** The state after the bytes `got` have followed a start character. */
  function Got(got: seq<Byte>, max: nat): Rx
    requires max > 0
  {
    Reading(Clip(got, max), Checksum(Clip(got, max)))
  }

  lemma NothingGot(max: nat)
    requires max > 0
    ensures Got([], max) == Reading([], 0)
  {
  }

  lemma OneMore(got: seq<Byte>, c: Byte, max: nat)
    requires max > 0 && c != HASH && c != DOLLAR
    ensures Take(Got(got, max), c, max) == Got(got + [c], max)
  {
    var more := got + [c];
    assert more[..|got|] == got;
    if |got| + 1 >= max { assert more[..max - 1] == got[..max - 1] && (|got| + 1 == max ==> got[..max - 1] == got); }
  }

  /** Payload is stored and summed as far as it fits. */
  lemma {:induction false} PayloadIsStored(input: seq<Byte>, pos: nat, got: seq<Byte>, payload: seq<Byte>, max: nat)
    requires max > 0 && At(input, pos, payload) && Payload(payload)
    ensures Receive(input, pos, Got(got, max), max) == Receive(input, pos + |payload|, Got(got + payload, max), max)
    decreases |payload|
  {
    hide Got, Take, Payload;
    if payload == [] {
      assert got + payload == got;
    } else {
      var c, rest := payload[0], payload[1..];
      assert payload == [c] + rest && got + payload == (got + [c]) + rest;
      PayloadTail(c, rest);
      AtSplit(input, pos, [c], rest);
      AtOne(input, pos, c);
      PayloadIsStored(input, pos + 1, got + [c], rest, max);
      OneMore(got, c, max);
      ReadOne(input, pos, got, max);
    }
  }

  lemma PayloadTail(c: Byte, rest: seq<Byte>)
    requires Payload([c] + rest)
    ensures c != HASH && c != DOLLAR && Payload(rest)
  {
    assert c == ([c] + rest)[0] && forall b :: b in rest ==> b in [c] + rest;
  }

  lemma AtOne(input: seq<Byte>, pos: nat, c: Byte)
    requires At(input, pos, [c])
    ensures pos < |input| && input[pos] == c
  {
    assert input[pos..pos + 1][0] == input[pos];
  }

  lemma GotReads(got: seq<Byte>, max: nat)
    requires max > 0
    ensures Got(got, max).Reading?
  {
  }

  lemma ReadOne(input: seq<Byte>, pos: nat, got: seq<Byte>, max: nat)
    requires max > 0 && pos < |input|
    ensures Got(got, max).Reading?
    ensures Receive(input, pos, Got(got, max), max)
         == Receive(input, pos + 1, Take(Got(got, max), input[pos], max), max)
  {
    hide Take, Clip;
  }

  /** One attempt of the sender: noise, starts that are abandoned by a new start, a payload, and two
      checksum characters, right or wrong. */
  datatype Attempt = Attempt(noise: seq<Byte>, cuts: seq<seq<Byte>>, payload: seq<Byte>, a: Byte, b: Byte)

  predicate WellFormed(t: Attempt) {
    Quiet(t.noise) && Payload(t.payload) && forall i :: 0 <= i < |t.cuts| ==> Payload(t.cuts[i])
  }

  function Starts(cuts: seq<seq<Byte>>): seq<Byte> {
    if cuts == [] then [] else [DOLLAR] + cuts[0] + Starts(cuts[1..])
  }

  function Line(t: Attempt): seq<Byte> { t.noise + (Starts(t.cuts) + [DOLLAR] + (t.payload + [HASH, t.a, t.b])) }

  function Lines(ts: seq<Attempt>): seq<Byte> { if ts == [] then [] else Line(ts[0]) + Lines(ts[1..]) }

  /** Whether the receiver, which sums only what fits, finds the checksum right. */
  predicate Accepted(t: Attempt, max: nat)
    requires max > 0
  {
    Checksum(Clip(t.payload, max)) == Expected(t.a, t.b)
  }

  lemma StartRead(input: seq<Byte>, pos: nat, rx: Rx, max: nat)
    requires pos < |input| && input[pos] == DOLLAR && (rx.Idle? || rx.Reading?)
    ensures Receive(input, pos, rx, max) == Receive(input, pos + 1, Reading([], 0), max)
  {
  }

  /** In the two states that accept a start character the outcome of a start is the same. */
  lemma {:induction false} StartsRestart(input: seq<Byte>, pos: nat, rx: Rx, cuts: seq<seq<Byte>>, max: nat)
    requires max > 0 && (rx.Idle? || rx.Reading?) && At(input, pos, Starts(cuts) + [DOLLAR])
    requires forall i :: 0 <= i < |cuts| ==> Payload(cuts[i])
    ensures Receive(input, pos, rx, max) == Receive(input, pos + |Starts(cuts)| + 1, Reading([], 0), max)
    decreases |cuts|
  {
    hide Got, Payload, Receive;
    if cuts == [] {
      assert Starts(cuts) + [DOLLAR] == [DOLLAR] && input[pos..pos + 1][0] == input[pos];
      StartRead(input, pos, rx, max);
    } else {
      var rest := Starts(cuts[1..]) + [DOLLAR];
      assert Starts(cuts) + [DOLLAR] == [DOLLAR] + (cuts[0] + rest);
      AtSplit(input, pos, [DOLLAR], cuts[0] + rest);
      assert input[pos..pos + 1][0] == input[pos];
      StartRead(input, pos, rx, max);
      AtSplit(input, pos + 1, cuts[0], rest);
      NothingGot(max);
      PayloadIsStored(input, pos + 1, [], cuts[0], max);
      GotReads([] + cuts[0], max);
      StartsRestart(input, pos + 1 + |cuts[0]|, Got([] + cuts[0], max), cuts[1..], max);
    }
  }

  /** One attempt, from the idle state. */
  lemma AttemptOutcome(input: seq<Byte>, pos: nat, t: Attempt, max: nat)
    requires max > 0 && WellFormed(t) && At(input, pos, Line(t))
    ensures Receive(input, pos, Idle, max)
         == if Accepted(t, max) then Packet(Clip(t.payload, max), pos + |Line(t)|, [PLUS])
            else WithAck(MINUS, Receive(input, pos + |Line(t)|, Idle, max))
  {
    hide Payload, Quiet, Expected, Line, Take, At;
    var start := AttemptOpened(input, pos, t, max);
    AttemptClosed(input, start, t.payload, t.a, t.b, max);
  }

  /** From the last start character of an attempt to its end. */
  lemma AttemptClosed(input: seq<Byte>, start: nat, payload: seq<Byte>, a: Byte, b: Byte, max: nat)
    requires max > 0 && Payload(payload) && At(input, start, payload + [HASH, a, b])
    ensures Receive(input, start, Reading([], 0), max)
         == if Checksum(Clip(payload, max)) == Expected(a, b)
           then Packet(Clip(payload, max), start + |payload| + 3, [PLUS])
            else WithAck(MINUS, Receive(input, start + |payload| + 3, Idle, max))
  {
    hide Got, Payload, Expected, Take, At, Clip, Receive, WithAck;
    NothingGot(max);
    AtSplit(input, start, payload, [HASH, a, b]);
    PayloadIsStored(input, start, [], payload, max);
    assert [] + payload == payload;
    Trailer(input, start + |payload|, payload, a, b, max);
  }

  /** Up to the last start character of an attempt. */
  lemma AttemptOpened(input: seq<Byte>, pos: nat, t: Attempt, max: nat) returns (start: nat)
    requires max > 0 && WellFormed(t) && At(input, pos, Line(t))
    ensures start + |t.payload| + 3 == pos + |Line(t)| && At(input, start, t.payload + [HASH, t.a, t.b])
    ensures Receive(input, pos, Idle, max) == Receive(input, start, Reading([], 0), max)
  {
    hide Payload, Quiet, At, Take, WithAck, Expected;
    var tail := t.payload + [HASH, t.a, t.b];
    var open := Starts(t.cuts) + [DOLLAR];
    AtSplit(input, pos, t.noise, open + tail);
    NoiseIsSkipped(input, pos, t.noise, max);
    AtSplit(input, pos + |t.noise|, open, tail);
    StartsRestart(input, pos + |t.noise|, Idle, t.cuts, max);
    start := pos + |t.noise| + |open|;
  }

  lemma Trailer(input: seq<Byte>, pos: nat, got: seq<Byte>, a: Byte, b: Byte, max: nat)
    requires max > 0 && At(input, pos, [HASH, a, b])
    ensures Receive(input, pos, Got(got, max), max)
         == if Checksum(Clip(got, max)) == Expected(a, b) then Packet(Clip(got, max), pos + 3, [PLUS])
            else WithAck(MINUS, Receive(input, pos + 3, Idle, max))
  {
    hide Expected;
    var s := input[pos..pos + 3];
    assert s[0] == input[pos] == HASH && s[1] == input[pos + 1] == a && s[2] == input[pos + 2] == b;
    var buf := Clip(got, max);
    var sum := Checksum(buf);
    assert Receive(input, pos, Reading(buf, sum), max) == Receive(input, pos + 1, First(buf, sum), max);
    assert Receive(input, pos + 1, First(buf, sum), max) == Receive(input, pos + 2, Second(buf, sum, a), max);
  }

  /** A sender that sees a '-' for every bad attempt and goes on to a good one is understood: the
      receiver rejects exactly the bad attempts and returns the good payload. */
  lemma {:induction false} Recovery(input: seq<Byte>, pos: nat, bad: seq<Attempt>, good: Attempt, max: nat)
    requires max > 0 && At(input, pos, Lines(bad) + Line(good)) && WellFormed(good) && Accepted(good, max)
    requires forall i :: 0 <= i < |bad| ==> WellFormed(bad[i]) && !Accepted(bad[i], max)
    ensures Receive(input, pos, Idle, max)
         == Packet(Clip(good.payload, max), pos + |Lines(bad)| + |Line(good)|, seq(|bad|, _ => MINUS) + [PLUS])
    decreases |bad|
  {
    hide Accepted, WellFormed, Line;
    if bad == [] {
      assert Lines(bad) + Line(good) == Line(good);
      AttemptOutcome(input, pos, good, max);
      assert seq(0, _ => MINUS) + [PLUS] == [PLUS];
    } else {
      assert Lines(bad) + Line(good) == Line(bad[0]) + (Lines(bad[1..]) + Line(good));
      AtSplit(input, pos, Line(bad[0]), Lines(bad[1..]) + Line(good));
      AttemptOutcome(input, pos, bad[0], max);
      Recovery(input, pos + |Line(bad[0])|, bad[1..], good, max);
      assert [MINUS] + (seq(|bad| - 1, _ => MINUS) + [PLUS]) == seq(|bad|, _ => MINUS) + [PLUS];
    }
  }

  /** What the sender's own frames look like to the receiver. */
  function Sent(noise: seq<Byte>, cuts: seq<seq<Byte>>, data: seq<Byte>): Attempt {
    Attempt(noise, cuts, data, TwoDigits(Checksum(data))[0], TwoDigits(Checksum(data))[1])
  }

  /** A frame that fits is always accepted. One that does not is cut to the buffer without notice
      exactly when the bytes that did not fit sum to a multiple of 256, and refused otherwise. */
  lemma SentAcceptedIff(noise: seq<Byte>, cuts: seq<seq<Byte>>, data: seq<Byte>, max: nat)
    requires max > 0
    ensures Accepted(Sent(noise, cuts, data), max) <==> |data| < max || Checksum(data[max - 1..]) == 0
  {
    PairOfDigits(Checksum(data));
    hide Pair, TwoDigits;
    assert Expected(Sent(noise, cuts, data).a, Sent(noise, cuts, data).b) == Checksum(data);
    if |data| >= max {
      var kept, lost := data[..max - 1], data[max - 1..];
      assert data == kept + lost;
      ChecksumAppend(kept, lost);
      SameSumIff(Checksum(kept), Checksum(lost));
    }
  }

  /** For instance: a buffer for one byte and its terminator receives the three bytes 65, 128, 128 as
      the packet [65], and acknowledges it. */
  lemma SilentlyCut()
    ensures Receive(Frame([65, 128, 128]), 0, Idle, 2) == Packet([65], 7, [PLUS])
  {
    CutSums();
    var line := Frame([65, 128, 128]);
    assert line == [DOLLAR, 65, 128, 128, HASH, 52, 49];
    hide Checksum;
    assert Receive(line, 6, Second([65], 65, 52), 2) == Packet([65], 7, [PLUS]);
    assert Receive(line, 4, Reading([65], 65), 2) == Packet([65], 7, [PLUS]);
    assert Receive(line, 2, Reading([65], 65), 2) == Packet([65], 7, [PLUS]);
  }

  lemma CutSums()
    ensures Checksum([65, 128, 128]) == 65
  {
    var data: seq<Byte> := [65, 128, 128];
    assert data[..2] == [65, 128] && data[..2][..1] == [65] && data[..2][..1][..0] == [];
    assert Checksum([]) == 0 && Checksum([65]) == 65 && Checksum(data[..2]) == 193;
  }

  lemma SameSumIff(x: Byte, y: Byte)
    ensures x == (x + y) % 256 <==> y == 0
  {
  }

  /** gdb_receive_packet recovers what gdb_send_packet sent, through noise, abandoned starts and any
      number of frames with a wrong checksum, each of which it answers with a '-'. */
  lemma ReceiveRecoversSend(bad: seq<Attempt>, noise: seq<Byte>, data: seq<Byte>, rest: seq<Byte>, max: nat)
    requires |data| < max && Payload(data) && Quiet(noise)
    requires forall i :: 0 <= i < |bad| ==> WellFormed(bad[i]) && !Accepted(bad[i], max)
    ensures Receive(Lines(bad) + noise + Frame(data) + rest, 0, Idle, max)
         == Packet(data, |Lines(bad)| + |noise| + |Frame(data)|, seq(|bad|, _ => MINUS) + [PLUS])
  {
    hide Receive, Accepted;
    var good := Sent(noise, [], data);
    SentAcceptedIff(noise, [], data, max);
    var input := Lines(bad) + noise + Frame(data) + rest;
    assert TwoDigits(Checksum(data)) == [good.a, good.b];
    assert noise + Frame(data) == Line(good);
    assert Lines(bad) + Line(good) == input[0..|Lines(bad) + Line(good)|];
    Recovery(input, 0, bad, good, max);
  }

  // ------------------------------------------------------------------ what is received was sent

  /** What a state says about the bytes read so far. */
  ghost predicate Explains(input: seq<Byte>, pos: nat, rx: Rx, start: nat, max: nat)
    requires max > 0
  {
    pos <= |input| &&
    match rx
    case Idle => true
    case Reading(buf, sum) => Since(input, start, pos, buf, sum, max)
    case First(buf, sum) => pos > 0 && Since(input, start, pos - 1, buf, sum, max) && input[pos - 1] == HASH
    case Second(buf, sum, digit) =>
      pos > 1 && Since(input, start, pos - 2, buf, sum, max) && input[pos - 2] == HASH && input[pos - 1] == digit
  }

  ghost predicate Since(input: seq<Byte>, start: nat, end: nat, buf: seq<Byte>, sum: Byte, max: nat)
    requires max > 0
  {
    && start < end <= |input| && input[start] == DOLLAR && Payload(input[start + 1..end])
    && buf == Clip(input[start + 1..end], max) && sum == Checksum(buf)
  }

  lemma SinceNext(input: seq<Byte>, start: nat, end: nat, buf: seq<Byte>, sum: Byte, max: nat)
    requires max > 0 && Since(input, start, end, buf, sum, max)
    requires end < |input| && input[end] != HASH && input[end] != DOLLAR
    ensures var rx := Take(Reading(buf, sum), input[end], max);
      rx.Reading? && Since(input, start, end + 1, rx.buf, rx.sum, max)
  {
    var s := input[start + 1..end];
    assert input[start + 1..end + 1] == s + [input[end]];
    OneMore(s, input[end], max);
  }

  /** Every packet the receiver returns ended in '#' and two characters that match the sum of the
      returned bytes, which are what followed the last '$', as far as they fit; and all it sent
      back before its '+' were '-'. */
  lemma {:induction false} ReceivedWasFramed(input: seq<Byte>, pos: nat, rx: Rx, start: nat, max: nat)
    returns (from: nat)
    requires max > 0 && Explains(input, pos, rx, start, max)
    requires Receive(input, pos, rx, max).Packet?
    ensures var r := Receive(input, pos, rx, max);
      && 3 <= r.used <= |input| && input[r.used - 3] == HASH
      && Since(input, from, r.used - 3, r.data, Expected(input[r.used - 2], input[r.used - 1]), max)
      && r.acks != [] && r.acks[|r.acks| - 1] == PLUS && (forall i :: 0 <= i < |r.acks| - 1 ==> r.acks[i] == MINUS)
    decreases |input| - pos
  {
    hide Expected, Since;
    var c := input[pos];
    if rx.Second? && rx.sum == Expected(rx.digit, c) {
      from := start;
    } else if rx.Second? {
      from := ReceivedWasFramed(input, pos + 1, Idle, start, max);
    } else {
      var next := Take(rx, c, max);
      if c == DOLLAR && !rx.First? {
        JustStarted(input, pos, max);
        from := ReceivedWasFramed(input, pos + 1, next, pos, max);
      } else {
        if rx.Reading? && c != HASH { SinceNext(input, start, pos, rx.buf, rx.sum, max); }
        from := ReceivedWasFramed(input, pos + 1, next, start, max);
      }
    }
  }

  /** The sender escapes nothing, so for data that fits, its frame comes back as the data, through noise
      and bad frames, if and only if the data holds neither '$' nor '#'. */
  lemma FrameReceivedIff(bad: seq<Attempt>, noise: seq<Byte>, data: seq<Byte>, rest: seq<Byte>, max: nat)
    requires |data| < max && Quiet(noise)
    requires forall i :: 0 <= i < |bad| ==> WellFormed(bad[i]) && !Accepted(bad[i], max)
    ensures var r := Receive(Lines(bad) + noise + Frame(data) + rest, 0, Idle, max);
      r.Packet? && r.data == data <==> Payload(data)
  {
    hide Receive, Accepted, Since, Frame, Lines;
    var input := Lines(bad) + noise + Frame(data) + rest;
    if Payload(data) { ReceiveRecoversSend(bad, noise, data, rest, max); }
    var r := Receive(input, 0, Idle, max);
    if r.Packet? {
      var from := ReceivedWasFramed(input, 0, Idle, 0, max);
      SincePayload(input, from, r.used - 3, r.data, Expected(input[r.used - 2], input[r.used - 1]), max);
    }
  }

  lemma SincePayload(input: seq<Byte>, start: nat, end: nat, buf: seq<Byte>, sum: Byte, max: nat)
    requires max > 0 && Since(input, start, end, buf, sum, max)
    ensures Payload(buf)
  {
    var payload := input[start + 1..end];
    assert forall i :: 0 <= i < |buf| ==> buf[i] == payload[i] && payload[i] in payload;
  }

  lemma JustStarted(input: seq<Byte>, pos: nat, max: nat)
    requires max > 0 && pos < |input| && input[pos] == DOLLAR
    ensures Since(input, pos, pos + 1, [], 0, max)
  {
    assert input[pos + 1..pos + 1] == [];
  }
}
