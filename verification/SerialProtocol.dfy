/** The serial framing codec of bsp/stm32f40x/TOOLS/serial_protocol.c.

    A frame is SOM, the payload with every SOM doubled, and a checksum byte
    (doubled when it equals SOM). The decoder is a byte-at-a-time state machine
    that restarts whenever it sees SOM followed by another byte.
  */
module SerialProtocol {

  type Byte = x: int | 0 <= x < 256

  const SOM: Byte := 0x2a
  const RX_BUFFER_SIZE := 512
  const TX_BUFFER_SIZE := 10240
  const UINT32_SPAN := 0x1_0000_0000

  /** What the installed callbacks are told. */
  datatype Event = Message(payload: seq<Byte>) | IllegalLength | ChecksumFailure

  /** The value of the decoder: the three status bits, the running checksum, the
      bytes stored so far (next_position is their number) and rx_length. */
  datatype Decoder = Decoder(lastSom: bool, started: bool, lengthKnown: bool,
                             checksum: nat, rx: seq<Byte>, rxLength: nat)

  // ---------------------------------------------------------------- frames

  /** Number of payload bytes announced by a header byte of 0xc0 and above. */
  function ShortLength(c: Byte): nat {
    (c / 16) % 4 * 2 + 1
  }

  /** 1, 3, 5 or 7 bytes, by the range of the header. */
  lemma ShortLengths(c: Byte)
    requires c >= 0xc0
    ensures ShortLength(c) == if c < 0xd0 then 1 else if c < 0xe0 then 3 else if c < 0xf0 then 5 else 7
  {
    assert 0xc <= c / 16 <= 0xf;
  }

  /** A payload whose length is the one its own header announces. */
  predicate WellFormed(p: seq<Byte>) {
    && |p| >= 1
    && p[0] != SOM
    && if p[0] >= 0xc0 then |p| == ShortLength(p[0]) else |p| >= 2 && |p| == p[1] as int + 2
  }

  function Stuff(p: seq<Byte>): seq<Byte> {
    if p == [] then []
    else (if p[0] == SOM then [SOM, SOM] else [p[0]]) + Stuff(p[1..])
  }

  function Sum(p: seq<Byte>): nat {
    if p == [] then 0 else p[0] + Sum(p[1..])
  }

  function Checksum(p: seq<Byte>): Byte {
    var sum: int := Sum(p);
    (-sum) % 256
  }

  function Frame(p: seq<Byte>): seq<Byte> {
    [SOM] + Stuff(p + [Checksum(p)])
  }

  // ---------------------------------------------------------------- decoder

  function StartNewMessage(d: Decoder, c: Byte): Decoder {
    d.(started := true, checksum := c, rx := [c],
       rxLength := if c >= 0xc0 then ShortLength(c) else 2,
       lengthKnown := c >= 0xc0)
  }

  function GetNewByte(d: Decoder, c: Byte): (Decoder, seq<Event>) {
    if !d.started then (d, [])
    else
      var sum := (d.checksum + c) % UINT32_SPAN;
      if |d.rx| != d.rxLength then
        var stored := d.(rx := d.rx + [c], checksum := sum);
        if d.lengthKnown then (stored, [])
        else
          var sized := stored.(rxLength := c + 2, lengthKnown := true);
          if c + 2 > RX_BUFFER_SIZE then (sized.(started := false, lastSom := false), [IllegalLength])
          else (sized, [])
      else
        (d.(checksum := sum, started := false, lastSom := false),
         [if sum % 256 == 0 then Message(d.rx) else ChecksumFailure])
  }

  function PutChar(d: Decoder, c: Byte): (Decoder, seq<Event>) {
    if !d.lastSom then
      if c == SOM then (d.(lastSom := true), []) else GetNewByte(d, c)
    else if c == SOM then
      var (e, out) := GetNewByte(d, c);
      (e.(lastSom := false), out)
    else (StartNewMessage(d, c).(lastSom := false), [])
  }

  /** Feeding a buffer, as put_buffer does. */
  function Feed(d: Decoder, bytes: seq<Byte>): (Decoder, seq<Event>)
    decreases |bytes|
  {
    if bytes == [] then (d, [])
    else
      var (e, out) := PutChar(d, bytes[0]);
      var (f, more) := Feed(e, bytes[1..]);
      (f, out + more)
  }

  // ---------------------------------------------------------------- invariant

  /** Holds of every decoder that started idle: what is stored is a proper part of
      a well-formed payload and fits the buffer, and the checksum is its sum. */
  ghost predicate Consistent(d: Decoder) {
    d.started ==>
      && 1 <= |d.rx| <= d.rxLength <= 257
      && d.rx[0] != SOM
      && d.checksum == Sum(d.rx)
      && (d.rx[0] >= 0xc0 ==> d.lengthKnown && d.rxLength == ShortLength(d.rx[0]))
      && (d.rx[0] < 0xc0 ==> if d.lengthKnown then |d.rx| >= 2 && d.rxLength == d.rx[1] as int + 2
                             else |d.rx| == 1 && d.rxLength == 2)
  }

  ghost predicate Acceptable(e: Event) {
    e.Message? ==> WellFormed(e.payload)
  }

  lemma {:induction false} SumAppend(p: seq<Byte>, q: seq<Byte>)
    ensures Sum(p + q) == Sum(p) + Sum(q)
  {
    if p == [] {
      assert p + q == q;
    } else {
      assert (p + q)[1..] == p[1..] + q;
      SumAppend(p[1..], q);
    }
  }

  lemma {:induction false} SumBound(p: seq<Byte>)
    ensures Sum(p) <= 255 * |p|
  {
    if p != [] { SumBound(p[1..]); }
  }

  lemma SomIsNoMatter(d: Decoder)
    ensures forall som :: Consistent(d.(lastSom := som)) <==> Consistent(d)
  {
  }

  lemma StartKeeps(d: Decoder, c: Byte)
    requires c != SOM
    ensures Consistent(StartNewMessage(d, c)) && Consistent(StartNewMessage(d, c).(lastSom := false))
  {
    assert Sum([c]) == c;
  }

  lemma GetKeeps(d: Decoder, c: Byte)
    requires Consistent(d)
    ensures var (e, out) := GetNewByte(d, c);
            && Consistent(e) && Consistent(e.(lastSom := false))
            && |out| <= 1 && forall x <- out :: Acceptable(x) && x != IllegalLength
  {
    if d.started {
      hide Sum;
      SumAppend(d.rx, [c]);
      SumOne(c);
      SumBound(d.rx);
    }
  }

  lemma SumOne(c: Byte)
    ensures Sum([c]) == c
  {
  }

  /** Any byte keeps the invariant, and whatever is delivered is well formed. The write
      index never passes rx_length nor the end of the buffer, and the illegal-length
      report can never be made: a length byte announces at most 257 bytes. */
  lemma PutCharKeepsConsistent(d: Decoder, c: Byte)
    requires Consistent(d)
    ensures Consistent(PutChar(d, c).0)
    ensures |PutChar(d, c).1| <= 1
    ensures forall e <- PutChar(d, c).1 :: Acceptable(e) && e != IllegalLength
  {
    hide GetNewByte, StartNewMessage, Consistent, Acceptable;
    if c != SOM { StartKeeps(d, c); }
    GetKeeps(d, c);
    SomIsNoMatter(d);
  }

  lemma {:induction false} FeedKeepsConsistent(d: Decoder, bytes: seq<Byte>)
    requires Consistent(d)
    ensures Consistent(Feed(d, bytes).0)
    ensures forall e <- Feed(d, bytes).1 :: Acceptable(e) && e != IllegalLength
    decreases |bytes|
  {
    if bytes != [] {
      PutCharKeepsConsistent(d, bytes[0]);
      FeedKeepsConsistent(PutChar(d, bytes[0]).0, bytes[1..]);
    }
  }

  // ---------------------------------------------------------------- round trip

  lemma {:induction false} FeedAppend(d: Decoder, a: seq<Byte>, b: seq<Byte>)
    ensures Feed(d, a + b) == (Feed(Feed(d, a).0, b).0, Feed(d, a).1 + Feed(Feed(d, a).0, b).1)
    decreases |a|
  {
    if a == [] {
      assert a + b == b;
      assert [] + Feed(d, b).1 == Feed(d, b).1;
    } else {
      var (e, out) := PutChar(d, a[0]);
      assert (a + b)[1..] == a[1..] + b;
      FeedAppend(e, a[1..], b);
      var (f, more) := Feed(e, a[1..]);
      assert out + (more + Feed(f, b).1) == (out + more) + Feed(f, b).1;
    }
  }

  lemma FeedOne(d: Decoder, c: Byte)
    ensures Feed(d, [c]) == PutChar(d, c)
  {
    var (e, out) := PutChar(d, c);
    assert Feed(e, []) == (e, []);
    assert out + [] == out;
  }

  lemma {:induction false} StuffAppend(a: seq<Byte>, b: seq<Byte>)
    ensures Stuff(a + b) == Stuff(a) + Stuff(b)
  {
    if a == [] {
      assert a + b == b;
    } else {
      assert (a + b)[1..] == a[1..] + b;
      StuffAppend(a[1..], b);
    }
  }

  lemma StuffOne(c: Byte)
    ensures Stuff([c]) == if c == SOM then [SOM] + [SOM] else [c]
  {
  }

  lemma FeedEscaped(d: Decoder)
    requires d.started && !d.lastSom
    ensures Feed(d, [SOM] + [SOM]) == GetNewByte(d, SOM)
  {
    var e := d.(lastSom := true);
    FeedAppend(d, [SOM], [SOM]);
    FeedOne(d, SOM);
    FeedOne(e, SOM);
    EscapedByte(d, SOM);
    assert [] + PutChar(e, SOM).1 == PutChar(e, SOM).1;
  }

  /** One stuffed byte reaches the decoder as that byte. */
  lemma FeedStuffedByte(d: Decoder, c: Byte)
    requires d.started && !d.lastSom
    ensures Feed(d, Stuff([c])) == GetNewByte(d, c)
  {
    StuffOne(c);
    if c == SOM {
      FeedEscaped(d);
    } else {
      FeedOne(d, c);
    }
  }

  lemma EscapedByte(d: Decoder, c: Byte)
    requires d.started && !d.lastSom && c == SOM
    ensures PutChar(d.(lastSom := true), c) == GetNewByte(d, c)
  {
  }

  ghost predicate Receiving(d: Decoder, p: seq<Byte>, k: nat)
    requires k <= |p|
  {
    Consistent(d) && d.started && !d.lastSom && d.rx == p[..k]
  }

  /** While a well-formed payload is incomplete its next byte is stored. */
  lemma StoreByte(d: Decoder, p: seq<Byte>, k: nat)
    requires WellFormed(p) && 1 <= k < |p| && Receiving(d, p, k)
    ensures var (e, out) := GetNewByte(d, p[k]);
            out == [] && Receiving(e, p, k + 1)
  {
    SumAppend(d.rx, [p[k]]);
    SumBound(d.rx);
    assert Sum([p[k]]) == p[k];
    assert p[..k + 1] == d.rx + [p[k]];
    assert d.rx[0] == p[0] && (k >= 2 ==> d.rx[1] == p[1]);
  }

  lemma NothingFed(d: Decoder)
    ensures Feed(d, Stuff([])) == (d, [])
  {
  }

  /** Payload bytes up to the announced length are stored one by one. */
  lemma {:induction false} FeedBody(d: Decoder, p: seq<Byte>, k: nat)
    requires WellFormed(p) && 1 <= k <= |p| && Receiving(d, p, k)
    ensures var (e, out) := Feed(d, Stuff(p[k..]));
            out == [] && Receiving(e, p, |p|)
    decreases |p| - k
  {
    hide Stuff, Feed, GetNewByte, WellFormed, Consistent;
    if k == |p| {
      assert p[k..] == [];
      NothingFed(d);
    } else {
      var rest := p[k + 1..];
      assert p[k..] == [p[k]] + rest;
      StuffAppend([p[k]], rest);
      FeedStuffedByte(d, p[k]);
      FeedAppend(d, Stuff([p[k]]), Stuff(rest));
      StoreByte(d, p, k);
      FeedBody(GetNewByte(d, p[k]).0, p, k + 1);
    }
  }

  /** What the decoder says when c stands where the checksum of p belongs. */
  function Answer(p: seq<Byte>, c: Byte): Event {
    if c == Checksum(p) then Message(p) else ChecksumFailure
  }

  /** The byte behind a complete payload. */
  lemma LastByte(d: Decoder, p: seq<Byte>, c: Byte)
    requires WellFormed(p) && Receiving(d, p, |p|)
    ensures var (e, out) := GetNewByte(d, c);
            out == [Answer(p, c)] && !e.started && !e.lastSom
  {
    hide Sum, Checksum;
    assert p[..|p|] == p;
    SumTest(p, c);
  }

  /** The test of the running checksum. */
  lemma SumTest(p: seq<Byte>, c: Byte)
    requires |p| <= 257
    ensures (Sum(p) + c) % UINT32_SPAN % 256 == 0 <==> c == Checksum(p)
  {
    SumBound(p);
    var n: int := Sum(p);
    hide Sum;
    assert (n + c) % UINT32_SPAN == n + c;
    LowByte(n, c);
  }

  lemma LowByte(n: int, c: Byte)
    ensures (n + c) % 256 == 0 <==> c == (-n) % 256
  {
  }

  lemma NotEmpty(p: seq<Byte>)
    requires WellFormed(p)
    ensures |p| >= 1
  {
  }

  /** The stuffed body and the byte behind it, after the first byte. */
  lemma BodyDecodes(d: Decoder, p: seq<Byte>, c: Byte)
    requires WellFormed(p) && Receiving(d, p, 1)
    ensures var (e, out) := Feed(d, Stuff(p[1..] + [c]));
            out == [Answer(p, c)] && !e.started && !e.lastSom
  {
    hide Feed, Stuff, Consistent, WellFormed, GetNewByte, Sum, Answer;
    NotEmpty(p);
    var (e, out) := Feed(d, Stuff(p[1..]));
    FeedBody(d, p, 1);
    StuffAppend(p[1..], [c]);
    FeedAppend(d, Stuff(p[1..]), Stuff([c]));
    FeedStuffedByte(e, c);
    LastByte(e, p, c);
  }

  /** Whatever a decoder was doing, unless its last byte was a lone SOM: a payload sent with the byte c
      where its checksum belongs is delivered if c is the checksum, and is a checksum failure otherwise.
      Either way the decoder becomes idle. */
  lemma ChecksumDecides(d: Decoder, p: seq<Byte>, c: Byte)
    requires WellFormed(p) && !d.lastSom
    ensures Feed(d, [SOM] + Stuff(p + [c])).1 == if c == Checksum(p) then [Message(p)] else [ChecksumFailure]
    ensures var e := Feed(d, [SOM] + Stuff(p + [c])).0; !e.started && !e.lastSom
  {
    var d1 := d.(lastSom := true);
    var d2 := StartNewMessage(d1, p[0]).(lastSom := false);
    assert Sum([p[0]]) == p[0] && p[..1] == [p[0]];
    BodyDecodes(d2, p, c);
    var body := p + [c];
    var rest := Stuff(body[1..]);
    assert body[1..] == p[1..] + [c];
    assert [SOM] + Stuff(body) == [SOM] + ([p[0]] + rest);
    FeedOne(d, SOM);
    FeedOne(d1, p[0]);
    hide Feed;
    hide Stuff;
    FeedAppend(d, [SOM], [p[0]] + rest);
    FeedAppend(d1, [p[0]], rest);
  }

  /** So the frame of a well-formed payload makes it deliver that payload, nothing else, and become idle. */
  lemma FrameDecodes(d: Decoder, p: seq<Byte>)
    requires WellFormed(p) && !d.lastSom
    ensures Feed(d, Frame(p)).1 == [Message(p)]
    ensures !Feed(d, Frame(p)).0.started && !Feed(d, Frame(p)).0.lastSom
  {
    ChecksumDecides(d, p, Checksum(p));
  }

  // ---------------------------------------------------------------- nothing but frames

  /** The bytes end with SOM, the stuffed bytes that are stored, and a lone SOM if there has been one. */
  ghost predicate Heard(d: Decoder, bytes: seq<Byte>) {
    d.started ==> exists pre: seq<Byte> :: bytes == pre + Begun(d)
  }

  function Begun(d: Decoder): seq<Byte> {
    [SOM] + Stuff(d.rx) + if d.lastSom then [SOM] else []
  }

  /** The bytes end with the frame of p. */
  ghost predicate EndsWithFrame(bytes: seq<Byte>, p: seq<Byte>) {
    exists pre: seq<Byte> :: bytes == pre + Frame(p)
  }

  /** The next byte of the message, when it comes alone, or as the second SOM. */
  lemma NextHeard(d: Decoder, bytes: seq<Byte>, c: Byte)
    requires Consistent(d) && d.started && Heard(d, bytes) && (d.lastSom <==> c == SOM)
    ensures exists pre: seq<Byte> :: bytes + [c] == pre + ([SOM] + Stuff(d.rx + [c]))
  {
    var pre: seq<Byte> :| bytes == pre + Begun(d);
    StuffAppend(d.rx, [c]);
    StuffOne(c);
    hide Stuff;
    assert bytes + [c] == pre + ([SOM] + Stuff(d.rx + [c]));
  }

  /** A message is delivered behind its checksum only. */
  lemma DeliveryIsChecked(d: Decoder, c: Byte)
    requires Consistent(d)
    ensures var (e, out) := GetNewByte(d, c);
            out != [] && out[0].Message? ==> d.started && |d.rx| == d.rxLength && out[0].payload == d.rx && c == Checksum(d.rx)
  {
    hide Sum, Checksum;
    if d.started { SumTest(d.rx, c); }
  }

  lemma GetHeard(d: Decoder, bytes: seq<Byte>, c: Byte)
    requires Consistent(d) && Heard(d, bytes) && (d.lastSom <==> c == SOM)
    ensures var (e, out) := GetNewByte(d, c);
            && Heard(e.(lastSom := false), bytes + [c])
            && (out != [] && out[0].Message? ==> WellFormed(out[0].payload) && EndsWithFrame(bytes + [c], out[0].payload))
  {
    hide Consistent, Stuff, Sum, Checksum, WellFormed;
    if d.started {
      NextHeard(d, bytes, c);
      var pre: seq<Byte> :| bytes + [c] == pre + ([SOM] + Stuff(d.rx + [c]));
      GetKeeps(d, c);
      DeliveryIsChecked(d, c);
      var (e, out) := GetNewByte(d, c);
      if |d.rx| != d.rxLength {
        var f := e.(lastSom := false);
        assert f.started ==> Begun(f) == [SOM] + Stuff(d.rx + [c]);
      } else if out != [] && out[0].Message? {
        assert out[0] in out && Frame(d.rx) == [SOM] + Stuff(d.rx + [c]);
        assert bytes + [c] == pre + Frame(d.rx);
      }
    }
  }

  lemma ByteHeard(d: Decoder, bytes: seq<Byte>, c: Byte)
    requires Consistent(d) && Heard(d, bytes) && (d.lastSom ==> bytes != [] && bytes[|bytes| - 1] == SOM)
    ensures var (e, out) := PutChar(d, c);
            && Heard(e, bytes + [c]) && (e.lastSom ==> c == SOM)
            && (out != [] && out[0].Message? ==> WellFormed(out[0].payload) && EndsWithFrame(bytes + [c], out[0].payload))
  {
    var e := PutChar(d, c).0;
    if d.lastSom == (c == SOM) {
      hide GetNewByte, StartNewMessage, Consistent, Stuff, WellFormed, EndsWithFrame;
      GetHeard(d, bytes, c);
      LastSomOff(d, c);
    } else if c == SOM {
      if d.started {
        var pre: seq<Byte> :| bytes == pre + Begun(d);
        hide Stuff;
        assert bytes + [c] == pre + Begun(e);
      }
    } else {
      StuffOne(c);
      var pre := bytes[..|bytes| - 1];
      assert bytes + [c] == pre + Begun(e);
    }
  }

  lemma LastSomOff(d: Decoder, c: Byte)
    ensures !d.lastSom ==> !GetNewByte(d, c).0.lastSom
    ensures !d.lastSom ==> GetNewByte(d, c).0.(lastSom := false) == GetNewByte(d, c).0
  {
  }

  lemma {:induction false} FeedHeard(d: Decoder, bytes: seq<Byte>, more: seq<Byte>, p: seq<Byte>)
    requires Consistent(d) && Heard(d, bytes) && (d.lastSom ==> bytes != [] && bytes[|bytes| - 1] == SOM)
    requires Message(p) in Feed(d, more).1
    ensures WellFormed(p) && exists n: nat :: n <= |more| && EndsWithFrame(bytes + more[..n], p)
    decreases |more|
  {
    hide Consistent, Heard, WellFormed, EndsWithFrame, PutChar;
    if more != [] {
      var c, rest := more[0], more[1..];
      PutCharKeepsConsistent(d, c);
      ByteHeard(d, bytes, c);
      var (e, out) := PutChar(d, c);
      if Message(p) in out {
        assert out[0] == Message(p) && more[..1] == [c];
      } else {
        FeedHeard(e, bytes + [c], rest, p);
        var n: nat :| n <= |rest| && EndsWithFrame(bytes + [c] + rest[..n], p);
        assert bytes + [c] + rest[..n] == bytes + more[..n + 1];
      }
    }
  }

  /** Over any bytes, an idle decoder delivers nothing but what it has been sent: a payload that comes out is well
      formed, and its frame, checksum and all, stands in the bytes. */
  lemma OnlyFramesDeliver(d: Decoder, bytes: seq<Byte>, p: seq<Byte>)
    requires !d.started && !d.lastSom && Message(p) in Feed(d, bytes).1
    ensures WellFormed(p) && exists n: nat :: n <= |bytes| && EndsWithFrame(bytes[..n], p)
  {
    hide EndsWithFrame, Feed, WellFormed;
    FeedHeard(d, [], bytes, p);
    var n: nat :| n <= |bytes| && EndsWithFrame([] + bytes[..n], p);
    assert [] + bytes[..n] == bytes[..n];
  }

  /** Outside a frame, stuffed bytes mean nothing. */
  lemma {:induction false} IdleFeed(d: Decoder, bytes: seq<Byte>)
    requires !d.started && !d.lastSom
    ensures Feed(d, Stuff(bytes)) == (d, [])
  {
    if bytes != [] {
      var c, rest := bytes[0], bytes[1..];
      assert bytes == [c] + rest;
      StuffAppend([c], rest);
      IdleByte(d, c);
      hide Stuff, Feed;
      FeedAppend(d, Stuff([c]), Stuff(rest));
      IdleFeed(d, rest);
    }
  }

  lemma IdleByte(d: Decoder, c: Byte)
    requires !d.started && !d.lastSom
    ensures Feed(d, Stuff([c])) == (d, [])
  {
    StuffOne(c);
    if c == SOM {
      FeedAppend(d, [SOM], [SOM]);
      FeedOne(d, SOM);
      FeedOne(d.(lastSom := true), SOM);
    } else {
      FeedOne(d, c);
    }
  }

  /** Just after a lone SOM an idle decoder takes the first byte of a frame for the second half of an escape,
      and the frame is lost. */
  lemma LoneSomLosesFrame(d: Decoder, p: seq<Byte>)
    requires !d.started && d.lastSom
    ensures Feed(d, Frame(p)) == (d.(lastSom := false), [])
  {
    var e := d.(lastSom := false);
    FeedOne(d, SOM);
    IdleFeed(e, p + [Checksum(p)]);
    hide Stuff, Feed;
    FeedAppend(d, [SOM], Stuff(p + [Checksum(p)]));
  }

  /** So an idle decoder delivers the frame of a well-formed payload exactly if it has not just seen a lone
      SOM. */
  lemma IdleDecodesIff(d: Decoder, p: seq<Byte>)
    requires !d.started && WellFormed(p)
    ensures Feed(d, Frame(p)).1 == [Message(p)] <==> !d.lastSom
  {
    if d.lastSom { LoneSomLosesFrame(d, p); } else { FrameDecodes(d, p); }
  }

  /** The frame of a payload is decoded to exactly that payload if and only if the payload is
      well formed. */
  lemma FrameDecodesIff(d: Decoder, p: seq<Byte>)
    requires Consistent(d) && !d.lastSom
    ensures Feed(d, Frame(p)).1 == [Message(p)] <==> WellFormed(p)
  {
    if WellFormed(p) {
      FrameDecodes(d, p);
    }
    FeedKeepsConsistent(d, Frame(p));
    if Feed(d, Frame(p)).1 == [Message(p)] {
      assert Message(p) in Feed(d, Frame(p)).1;
    }
  }

  function Frames(ps: seq<seq<Byte>>): seq<Byte> {
    if ps == [] then [] else Frame(ps[0]) + Frames(ps[1..])
  }

  function Messages(ps: seq<seq<Byte>>): (es: seq<Event>)
    ensures |es| == |ps| && forall i :: 0 <= i < |ps| ==> es[i] == Message(ps[i])
  {
    if ps == [] then [] else [Message(ps[0])] + Messages(ps[1..])
  }

  /** A stream of frames decodes to the sequence of their payloads. */
  lemma {:induction false} StreamDecodes(d: Decoder, ps: seq<seq<Byte>>)
    requires !d.lastSom && forall p <- ps :: WellFormed(p)
    ensures Feed(d, Frames(ps)).1 == Messages(ps)
    ensures !Feed(d, Frames(ps)).0.lastSom
    decreases |ps|
  {
    if ps != [] {
      FrameDecodes(d, ps[0]);
      StreamDecodes(Feed(d, Frame(ps[0])).0, ps[1..]);
      FeedAppend(d, Frame(ps[0]), Frames(ps[1..]));
    }
  }

  /** Resynchronisation: noise not ending in a lone SOM costs no frame that follows it. */
  lemma StreamDecodesAfterNoise(d: Decoder, noise: seq<Byte>, ps: seq<seq<Byte>>)
    requires !Feed(d, noise).0.lastSom && forall p <- ps :: WellFormed(p)
    ensures Feed(d, noise + Frames(ps)).1 == Feed(d, noise).1 + Messages(ps)
  {
    FeedAppend(d, noise, Frames(ps));
    StreamDecodes(Feed(d, noise).0, ps);
  }

  lemma {:induction false} StuffedEndsApart(d: Decoder, bytes: seq<Byte>)
    requires !d.lastSom
    ensures !Feed(d, Stuff(bytes)).0.lastSom
    decreases |bytes|
  {
    if bytes != [] {
      var c, rest := bytes[0], bytes[1..];
      assert bytes == [c] + rest;
      StuffAppend([c], rest);
      StuffedByteEndsApart(d, c);
      hide Stuff, Feed;
      FeedAppend(d, Stuff([c]), Stuff(rest));
      StuffedEndsApart(Feed(d, Stuff([c])).0, rest);
    }
  }

  lemma StuffedByteEndsApart(d: Decoder, c: Byte)
    requires !d.lastSom
    ensures !Feed(d, Stuff([c])).0.lastSom
  {
    StuffOne(c);
    if c == SOM {
      FeedAppend(d, [SOM], [SOM]);
      FeedOne(d, SOM);
      FeedOne(d.(lastSom := true), SOM);
    } else {
      FeedOne(d, c);
    }
  }

  /** In whatever state a frame meets the decoder, it does not end just after a lone SOM. */
  lemma FrameEndsApart(d: Decoder, p: seq<Byte>)
    requires WellFormed(p)
    ensures !Feed(d, Frame(p)).0.lastSom
  {
    if !d.lastSom {
      FrameDecodes(d, p);
    } else {
      FeedOne(d, SOM);
      var e := Feed(d, [SOM]).0;
      StuffedEndsApart(e, p + [Checksum(p)]);
      hide Stuff, Feed;
      FeedAppend(d, [SOM], Stuff(p + [Checksum(p)]));
    }
  }

  /** Whatever the noise, and whatever the decoder was doing, no more than the first frame behind it is lost. */
  lemma StreamDecodesAfterAnyNoise(d: Decoder, noise: seq<Byte>, p: seq<Byte>, ps: seq<seq<Byte>>)
    requires WellFormed(p) && forall q <- ps :: WellFormed(q)
    ensures Feed(d, noise + Frame(p) + Frames(ps)).1 == Feed(d, noise + Frame(p)).1 + Messages(ps)
  {
    hide Stuff, Feed, WellFormed, Frame;
    FeedAppend(d, noise, Frame(p));
    FrameEndsApart(Feed(d, noise).0, p);
    StreamDecodesAfterNoise(d, noise + Frame(p), ps);
  }

  /** What one turn of the encoder's loop adds, and that it still fits. */
  lemma StuffPrefix(p: seq<Byte>, i: nat)
    requires i < |p|
    ensures Stuff(p[..i + 1]) == Stuff(p[..i]) + Stuff([p[i]])
    ensures Sum(p[..i + 1]) == Sum(p[..i]) + p[i]
    ensures |Stuff(p[..i])| + |Stuff([p[i]])| < |Frame(p)|
  {
    assert p[..i + 1] == p[..i] + [p[i]];
    StuffAppend(p[..i], [p[i]]);
    SumAppend(p[..i], [p[i]]);
    assert Sum([p[i]]) == p[i];
    assert p + [Checksum(p)] == p[..i + 1] + (p[i + 1..] + [Checksum(p)]);
    StuffAppend(p[..i + 1], p[i + 1..] + [Checksum(p)]);
  }

  lemma ReceivingFits(d: Decoder)
    requires Consistent(d)
    ensures d.started ==> |d.rx| <= d.rxLength < RX_BUFFER_SIZE
  {
  }

  // ---------------------------------------------------------------- the object

  class Protocol {
    const rxBuffer: array<Byte>
    const txBuffer: array<Byte>
    var checksum: nat
    var nextPosition: nat
    var rxLength: nat
    var lastSom: bool
    var started: bool
    var lengthKnown: bool
    var events: seq<Event>       // calls made to call_back and except

    ghost predicate Valid()
      reads this, rxBuffer, txBuffer
    {
      Layout() && txBuffer[0] == SOM && Consistent(Value())
    }

    ghost predicate Layout()
      reads this, rxBuffer, txBuffer
    {
      && rxBuffer.Length == RX_BUFFER_SIZE
      && txBuffer.Length == TX_BUFFER_SIZE
      && rxBuffer != txBuffer
      && nextPosition <= RX_BUFFER_SIZE
    }

    ghost function Value(): Decoder
      reads this, rxBuffer
      requires nextPosition <= rxBuffer.Length
    {
      Decoder(lastSom, started, lengthKnown, checksum, rxBuffer[..nextPosition], rxLength)
    }

    constructor ()
      ensures Valid() && fresh(rxBuffer) && fresh(txBuffer)
      ensures !started && !lastSom && events == []
    {
      rxBuffer := new Byte[RX_BUFFER_SIZE];
      var tx := new Byte[TX_BUFFER_SIZE];
      tx[0] := SOM;
      txBuffer := tx;
      checksum, nextPosition, rxLength := 0, 0, 0;
      lastSom, started, lengthKnown := false, false, false;
      events := [];
    }

    method StartMessage(c: Byte)
      requires Layout()
      modifies this, rxBuffer
      ensures Layout()
      ensures Value() == StartNewMessage(old(Value()), c) && events == old(events)
    {
      started := true;
      checksum := c;
      rxBuffer[0] := c;
      nextPosition := 1;
      rxLength := 2;
      if c >= 0xc0 {
        rxLength := c / 16 % 4 * 2 + 1;
        lengthKnown := true;
      } else {
        lengthKnown := false;
      }
      assert rxBuffer[..nextPosition] == [c];
    }

    method TakeByte(c: Byte)
      requires Layout() && (started ==> nextPosition <= rxLength < RX_BUFFER_SIZE)
      modifies this, rxBuffer
      ensures Layout()
      ensures Value() == GetNewByte(old(Value()), c).0
      ensures events == old(events) + GetNewByte(old(Value()), c).1
    {
      if started {
        if nextPosition != rxLength {
          ghost var rx := rxBuffer[..nextPosition];
          rxBuffer[nextPosition] := c;
          nextPosition := nextPosition + 1;
          assert rxBuffer[..nextPosition] == rx + [c];
          checksum := (checksum + c) % UINT32_SPAN;
          if !lengthKnown {
            // a length byte announces at most 257 bytes, so the source's test of
            // rx_length against the buffer size never succeeds here
            rxLength := c + 2;
            lengthKnown := true;
          }
        } else {
          checksum := (checksum + c) % UINT32_SPAN;
          if checksum % 256 == 0 {
            events := events + [Message(rxBuffer[..rxLength])];
          } else {
            events := events + [ChecksumFailure];
          }
          started, lastSom := false, false;
        }
      }
    }

    method Put(c: Byte)
      requires Valid()
      modifies this, rxBuffer
      ensures Valid()
      ensures Value() == PutChar(old(Value()), c).0
      ensures events == old(events) + PutChar(old(Value()), c).1
    {
      hide GetNewByte, StartNewMessage, Consistent;
      PutCharKeepsConsistent(Value(), c);
      ReceivingFits(Value());
      if !lastSom {
        if c == SOM {
          lastSom := true;
        } else {
          TakeByte(c);
        }
      } else {
        if c == SOM {
          TakeByte(c);
        } else {
          StartMessage(c);
        }
        lastSom := false;
      }
    }

    method PutBuffer(buffer: seq<Byte>)
      requires Valid()
      modifies this, rxBuffer
      ensures Valid()
      ensures Value() == Feed(old(Value()), buffer).0
      ensures events == old(events) + Feed(old(Value()), buffer).1
    {
      var i := 0;
      while i < |buffer|
        invariant 0 <= i <= |buffer|
        invariant Valid()
        invariant Value() == Feed(old(Value()), buffer[..i]).0
        invariant events == old(events) + Feed(old(Value()), buffer[..i]).1
      {
        ghost var before := Value();
        Put(buffer[i]);
        i := i + 1;
        assert buffer[..i] == buffer[..i - 1] + [buffer[i - 1]];
        FeedAppend(old(Value()), buffer[..i - 1], [buffer[i - 1]]);
        FeedOne(before, buffer[i - 1]);
      }
      assert buffer[..i] == buffer;
    }

    /** Writes one byte of a frame, doubled when it is SOM. */
    method Emit(at: nat, c: Byte) returns (rtn: nat)
      requires Layout() && at + |Stuff([c])| <= TX_BUFFER_SIZE
      modifies txBuffer
      ensures rtn == at + |Stuff([c])|
      ensures txBuffer[..rtn] == old(txBuffer[..at]) + Stuff([c])
    {
      rtn := at;
      txBuffer[rtn] := c;
      rtn := rtn + 1;
      if c == SOM {
        txBuffer[rtn] := c;
        rtn := rtn + 1;
      }
    }

    /** The encoder. The frame must fit the transmit buffer. */
    method GetOutputData(source: seq<Byte>) returns (rtn: nat)
      requires Valid() && |Frame(source)| <= TX_BUFFER_SIZE
      modifies txBuffer
      ensures Valid() && rtn == |Frame(source)| && txBuffer[..rtn] == Frame(source)
    {
      rtn := 1;
      var sum: int := 0;
      var i := 0;
      assert source[..0] == [] && txBuffer[..1] == [SOM];
      while i < |source|
        invariant 0 <= i <= |source|
        invariant rtn == 1 + |Stuff(source[..i])| <= TX_BUFFER_SIZE
        invariant txBuffer[..rtn] == [SOM] + Stuff(source[..i])
        invariant sum == Sum(source[..i])
      {
        StuffPrefix(source, i);
        rtn := Emit(rtn, source[i]);
        sum := sum + source[i];
        i := i + 1;
      }
      assert source[..i] == source;
      StuffAppend(source, [Checksum(source)]);
      rtn := Emit(rtn, (-sum) % 256);
      assert txBuffer[0] == txBuffer[..rtn][0];
    }
  }
}
