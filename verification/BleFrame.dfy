/** BLE frames: 19 bytes and their checksum, and the line-continuation framing of longer payloads. */
module BleFrame {
  import opened Options

  type Byte = bv8

  const LINE := 19
  const FRAME := 20

  // ----- checksum -----

  function Xor(s: seq<Byte>): Byte {
    if s == [] then 0 else Xor(s[..|s| - 1]) ^ s[|s| - 1]
  }

  const POWERS: seq<Byte> := [1, 2, 4, 8, 16, 32, 64, 128]

  /** How many of the bytes have the bit. */
  function Ones(s: seq<Byte>, bit: nat): nat
    requires bit < 8
  {
    if s == [] then 0 else Ones(s[..|s| - 1], bit) + (if s[|s| - 1] & POWERS[bit] != 0 then 1 else 0)
  }

  /** A bit of the checksum is set exactly when an odd number of bytes have it. */
  lemma {:induction false} ChecksumIsParity(s: seq<Byte>, bit: nat)
    requires bit < 8
    ensures Xor(s) & POWERS[bit] != 0 <==> Ones(s, bit) % 2 == 1
  {
    if s == [] {
      NoBitIsSet(POWERS[bit]);
    } else {
      ChecksumIsParity(s[..|s| - 1], bit);
      BitOfXor(Xor(s[..|s| - 1]), s[|s| - 1], bit);
    }
  }

  lemma NoBitIsSet(power: Byte)
    ensures 0 & power == 0
  {
  }

  lemma BitOfXor(a: Byte, b: Byte, bit: nat)
    requires bit < 8
    ensures (a ^ b) & POWERS[bit] != 0 <==> (a & POWERS[bit] != 0) != (b & POWERS[bit] != 0)
  {
    XorDiffers(a, b, POWERS[bit]);
    OneBitOrNone(a, bit);
    OneBitOrNone(b, bit);
  }

  lemma XorDiffers(a: Byte, b: Byte, power: Byte)
    ensures (a ^ b) & power != 0 <==> a & power != b & power
  {
  }

  lemma OneBitOrNone(a: Byte, bit: nat)
    requires bit < 8
    ensures a & POWERS[bit] == 0 || a & POWERS[bit] == POWERS[bit]
    ensures POWERS[bit] != 0
  {
    assert bit == 0 || bit == 1 || bit == 2 || bit == 3 || bit == 4 || bit == 5 || bit == 6 || bit == 7;
  }

  /** The loop of `xorChecksum` over the first `end` bytes. */
  method XorChecksum(data: seq<Byte>, end: nat) returns (checksum: Byte)
    requires end <= |data|
    ensures checksum == Xor(data[..end])
  {
    checksum := 0;
    for i := 0 to end
      invariant checksum == Xor(data[..i])
    {
      checksum := checksum ^ data[i];
      assert data[..i + 1][..i] == data[..i];
    }
  }

  /** A received frame is accepted: exactly 20 bytes, the last one the checksum of the others. */
  predicate Accepts(bytes: seq<Byte>) {
    |bytes| == FRAME && Xor(bytes[..LINE]) == bytes[LINE]
  }

  method DecodeBleFrame(bytes: seq<Byte>) returns (frame: Option<seq<Byte>>)
    ensures frame == if |bytes| == 20 && Xor(bytes[..19]) == bytes[19] then Some(bytes) else None
  {
    if |bytes| != FRAME { return None; }
    var checksum := XorChecksum(bytes, FRAME - 1);
    if checksum != bytes[FRAME - 1] { return None; }
    frame := Some(bytes);
  }

  lemma {:induction false} XorUpdate(s: seq<Byte>, i: nat, v: Byte)
    requires i < |s|
    ensures Xor(s[i := v]) == Xor(s) ^ s[i] ^ v
  {
    var n := |s| - 1;
    if i < n {
      XorUpdate(s[..n], i, v);
      assert s[i := v][..n] == s[..n][i := v];
    } else {
      assert s[i := v][..n] == s[..n];
    }
  }

  /** Changing one byte of an accepted frame makes it refused, whichever byte it is. */
  lemma OneByteChangeIsRefused(frame: seq<Byte>, i: nat, v: Byte)
    requires Accepts(frame) && i < FRAME && v != frame[i]
    ensures !Accepts(frame[i := v])
  {
    if i < LINE {
      XorUpdate(frame[..LINE], i, v);
      assert frame[i := v][..LINE] == frame[..LINE][i := v];
    } else {
      assert frame[i := v][..LINE] == frame[..LINE];
    }
  }

  // ----- padding -----

  function Zeros(n: nat): seq<Byte> {
    seq(n, _ => 0)
  }

  function Padded(data: seq<Byte>): seq<Byte> {
    if |data| < LINE then data + Zeros(LINE - |data|) else data
  }

  function Finished(data: seq<Byte>): seq<Byte> {
    Padded(data) + [Xor(Padded(data))]
  }

  /** Pad to 19 bytes with zeros, append the checksum. */
  method FinishPacket(data: seq<Byte>) returns (packet: seq<Byte>)
    ensures data <= packet && |packet| == (if |data| < 19 then 19 else |data|) + 1
    ensures forall i | |data| <= i < |packet| - 1 :: packet[i] == 0
    ensures packet[|packet| - 1] == Xor(packet[..|packet| - 1])
    ensures packet == Finished(data)
  {
    packet := data;
    while |packet| < LINE
      invariant |data| <= |packet| && |packet| <= (if |data| < LINE then LINE else |data|)
      invariant packet == data + Zeros(|packet| - |data|)
    {
      packet := packet + [0];
    }
    var checksum := XorChecksum(packet, |packet|);
    assert packet[..|packet|] == packet;
    assert packet == Padded(data);
    packet := packet + [checksum];
    assert packet[..|packet| - 1] == Padded(data);
  }

  lemma FinishedIsAccepted(data: seq<Byte>)
    requires |data| <= LINE
    ensures Accepts(Finished(data)) && Finished(data)[..|data|] == data
  {
    assert Finished(data)[..LINE] == Padded(data);
  }

  // ----- line-continuation framing -----

  /** A framing: the bytes a first line opens with, those of every further line, and where a lone line is marked. */
  datatype Layout = Layout(header: seq<Byte>, prefix: seq<Byte>, marker: nat) {
    predicate Valid() {
      4 <= |header| < LINE && |prefix| + 1 < LINE && marker < |header| && marker != 3
    }

    /** Where the payload of a further line starts: behind the prefix and the line number. */
    function Start(): nat {
      |prefix| + 1
    }
  }

  const SCENE := Layout([0xa3, 0x00, 0x01, 0x00, 0x02], [0xa3], 1)
  const DIY := Layout([0xa1, 0x02, 0x00, 0x00], [0xa1, 0x02], 2)

  /** What is left of a number in a byte buffer. */
  function ToByte(n: nat): Byte {
    (n % 256) as bv8
  }

  /** The stream of lines before marking: header, payload, and at each line's end the opening of the next one. */
  function Stream(l: Layout, payload: seq<Byte>): seq<Byte>
    decreases |payload|
  {
    if payload == [] then l.header
    else
      var before := Stream(l, payload[..|payload| - 1]);
      before + Opening(l, |before|) + [payload[|payload| - 1]]
  }

  /** What opens a line at stream position `at`, nothing within a line. */
  function Opening(l: Layout, at: nat): seq<Byte> {
    if at % LINE == 0 then l.prefix + [ToByte(at / LINE)] else []
  }

  /** The number of lines of a stream of `n` bytes. */
  function Lines(n: nat): nat {
    if n == 0 then 0 else (n - 1) / LINE + 1
  }

  /** Where the last line is marked. */
  function MarkAt(l: Layout, stream: seq<Byte>): nat {
    if Lines(|stream|) <= 1 then l.marker else LINE * (Lines(|stream|) - 1) + |l.prefix|
  }

  function Chunks(stream: seq<Byte>): seq<seq<Byte>>
    decreases |stream|
  {
    if |stream| <= LINE then [stream] else [stream[..LINE]] + Chunks(stream[LINE..])
  }

  /** The stream with its two marks. */
  function Marked(l: Layout, payload: seq<Byte>): (marked: seq<Byte>)
    requires l.Valid()
  {
    var stream := Stream(l, payload);
    StreamLength(l, payload);
    MarkInside(l, payload);
    stream[MarkAt(l, stream) := 0xff][3 := ToByte(Lines(|stream|))]
  }

  function Framed(l: Layout, payload: seq<Byte>): seq<seq<Byte>>
    requires l.Valid()
  {
    var chunks := Chunks(Marked(l, payload));
    seq(|chunks|, i requires 0 <= i < |chunks| => Finished(chunks[i]))
  }

  /** Stream positions between two payload bytes: a line is never left with only its opening. */
  predicate Between(n: nat, start: nat) {
    n < LINE || n % LINE == 0 || n % LINE > start
  }

  lemma DivMod(n: int, q: int, r: nat)
    requires n == LINE * q + r && r < LINE
    ensures n / LINE == q && n % LINE == r
  {
  }

  lemma NextPosition(n: nat, start: nat)
    requires 0 < n && Between(n, start) && start < LINE
    ensures n % LINE != 0 ==> Between(n + 1, start) && Lines(n + 1) == Lines(n)
    ensures n % LINE == 0 ==> Between(n + start + 1, start) && Lines(n + start + 1) == Lines(n) + 1 == n / LINE + 1
  {
    var q, r := n / LINE, n % LINE;
    assert n == LINE * q + r;
    if r != 0 {
      DivMod(n - 1, q, r - 1);
      if r + 1 < LINE { DivMod(n + 1, q, r + 1); } else { DivMod(n + 1, q + 1, 0); }
    } else {
      DivMod(n - 1, q - 1, LINE - 1);
      DivMod(n + start, q, start);
      if start + 1 < LINE { DivMod(n + start + 1, q, start + 1); } else { DivMod(n + start + 1, q + 1, 0); }
    }
  }

  lemma {:induction false} StreamLength(l: Layout, payload: seq<Byte>)
    requires l.Valid()
    ensures |Stream(l, payload)| >= |l.header| && Between(|Stream(l, payload)|, l.Start())
    ensures l.header <= Stream(l, payload)
    decreases |payload|
  {
    hide ToByte;
    if payload != [] {
      var before := Stream(l, payload[..|payload| - 1]);
      StreamLength(l, payload[..|payload| - 1]);
      NextPosition(|before|, l.Start());
      hide Between, Lines;
    }
  }

  lemma MarkInside(l: Layout, payload: seq<Byte>)
    requires l.Valid()
    ensures MarkAt(l, Stream(l, payload)) < |Stream(l, payload)|
  {
    StreamLength(l, payload);
    var n := |Stream(l, payload)|;
    LastLine(n);
  }

  /** The last line starts where the earlier ones end. */
  lemma LastLine(n: nat)
    requires n > 0
    ensures LINE * (Lines(n) - 1) < n <= LINE * Lines(n)
    ensures n % LINE == if n == LINE * Lines(n) then 0 else n - LINE * (Lines(n) - 1)
  {
    var q, r := (n - 1) / LINE, (n - 1) % LINE;
    assert n - 1 == LINE * q + r;
  }

  /** The loop over the payload. */
  method BuildStream(l: Layout, payload: seq<Byte>) returns (rawData: seq<Byte>, numLines: nat, lastLineMarker: nat)
    requires l.Valid()
    ensures rawData == Stream(l, payload) && numLines + 1 == Lines(|rawData|) && lastLineMarker == MarkAt(l, rawData)
  {
    hide ToByte;
    rawData, numLines, lastLineMarker := l.header, 0, l.marker;
    for i := 0 to |payload|
      invariant rawData == Stream(l, payload[..i])
      invariant numLines + 1 == Lines(|rawData|)
      invariant lastLineMarker == MarkAt(l, rawData)
    {
      StreamLength(l, payload[..i]);
      NextPosition(|rawData|, l.Start());
      assert payload[..i + 1][..i] == payload[..i];
      hide Lines, Between;
      if |rawData| % LINE == 0 {
        numLines := numLines + 1;
        rawData := rawData + l.prefix;
        lastLineMarker := |rawData|;
        rawData := rawData + [ToByte(numLines)];
      }
      rawData := rawData + [payload[i]];
    }
    assert payload[..|payload|] == payload;
  }

  /** The split into packets of 19 bytes. */
  method Split(rawData: seq<Byte>) returns (packets: seq<seq<Byte>>)
    requires rawData != []
    ensures |packets| == |Chunks(rawData)| && forall k | 0 <= k < |packets| ::
            packets[k] == Finished(Chunks(rawData)[k])
  {
    hide Finished;
    ChunkCount(rawData);
    LastLine(|rawData|);
    hide Lines;
    packets := [];
    var i := 0;
    while i < |rawData|
      invariant i == LINE * |packets| && |packets| <= |Chunks(rawData)|
      invariant forall k | 0 <= k < |packets| :: packets[k] == Finished(Chunks(rawData)[k])
      decreases |rawData| - i
    {
      ChunkAt(rawData, |packets|);
      var packet := FinishPacket(rawData[i..if i + LINE <= |rawData| then i + LINE else |rawData|]);
      packets := packets + [packet];
      i := i + LINE;
    }
  }

  /** The whole framing: stream, the two marks, split. */
  method BuildAFramedPackets(l: Layout, payload: seq<Byte>) returns (packets: seq<seq<Byte>>)
    requires l.Valid()
    ensures packets == Framed(l, payload)
  {
    var rawData, numLines, lastLineMarker := BuildStream(l, payload);
    StreamLength(l, payload);
    MarkInside(l, payload);
    rawData := rawData[lastLineMarker := 0xff];
    rawData := rawData[3 := ToByte(numLines + 1)];
    packets := Split(rawData);
  }

  lemma {:induction false} ChunkCount(stream: seq<Byte>)
    requires stream != []
    ensures |Chunks(stream)| == Lines(|stream|)
    decreases |stream|
  {
    if |stream| > LINE { ChunkCount(stream[LINE..]); }
  }

  lemma {:induction false} ChunkAt(stream: seq<Byte>, k: nat)
    requires k * LINE < |stream|
    ensures k < |Chunks(stream)|
    ensures Chunks(stream)[k] == LineAt(stream, k)
    decreases |stream|
  {
    if |stream| > LINE && k > 0 {
      ChunkAt(stream[LINE..], k - 1);
      LineBehind(stream, k);
    }
  }

  /** Line `k` of a stream. */
  function LineAt(stream: seq<Byte>, k: nat): seq<Byte>
    requires k * LINE < |stream|
  {
    stream[k * LINE..if k * LINE + LINE <= |stream| then k * LINE + LINE else |stream|]
  }

  lemma LineBehind(stream: seq<Byte>, k: nat)
    requires 0 < k && k * LINE < |stream|
    ensures LineAt(stream[LINE..], k - 1) == LineAt(stream, k)
  {
  }

  // ----- the round trip -----

  /** What the lines of a stream carry: everything but the opening of each line. */
  function Carried(stream: seq<Byte>, start: nat, again: nat): seq<Byte>
    requires start <= LINE && again <= LINE
    decreases |stream|
  {
    if |stream| <= LINE then (if start <= |stream| then stream[start..] else [])
    else stream[start..LINE] + Carried(stream[LINE..], again, again)
  }

  /** What a receiver puts together: of each packet the bytes between the opening of the line and the checksum. */
  function Unframed(packets: seq<seq<Byte>>, start: nat, again: nat): seq<Byte>
    requires start <= LINE && again <= LINE
    requires forall i | 0 <= i < |packets| :: |packets[i]| == FRAME
  {
    if packets == [] then [] else packets[0][start..LINE] + Unframed(packets[1..], again, again)
  }

  lemma {:induction false} CarriedByte(r: seq<Byte>, start: nat, again: nat, b: Byte)
    requires start <= |r| && start <= LINE && again <= LINE && |r| % LINE != 0 && Between(|r|, again)
    ensures Carried(r + [b], start, again) == Carried(r, start, again) + [b]
    decreases |r|
  {
    if |r| > LINE {
      CarriedByte(r[LINE..], again, again, b);
      assert (r + [b])[LINE..] == r[LINE..] + [b];
      assert (r + [b])[start..LINE] == r[start..LINE];
    }
  }

  lemma {:induction false} CarriedLine(r: seq<Byte>, start: nat, again: nat, opening: seq<Byte>, b: Byte)
    requires start <= LINE && |opening| == again < LINE && |r| % LINE == 0 && r != []
    ensures Carried(r + opening + [b], start, again) == Carried(r, start, again) + [b]
    decreases |r|
  {
    var more := r + opening + [b];
    assert more[LINE..] == r[LINE..] + opening + [b];
    assert more[start..LINE] == r[start..LINE];
    if |r| > LINE {
      CarriedLine(r[LINE..], again, again, opening, b);
    } else {
      assert more[LINE..][again..] == [b];
    }
  }

  /** One more payload byte in the stream is one more byte carried, whether it opens a line or not. */
  lemma CarriedStep(l: Layout, r: seq<Byte>, b: Byte)
    requires l.Valid() && |l.header| <= |r| && Between(|r|, l.Start())
    ensures Carried(r + Opening(l, |r|) + [b], |l.header|, l.Start()) == Carried(r, |l.header|, l.Start()) + [b]
  {
    hide ToByte, Carried;
    if |r| % LINE == 0 {
      CarriedLine(r, |l.header|, l.Start(), Opening(l, |r|), b);
    } else {
      assert r + [] == r;
      CarriedByte(r, |l.header|, l.Start(), b);
    }
  }

  /** The lines carry the payload, in order and whole. */
  lemma {:induction false} StreamCarries(l: Layout, payload: seq<Byte>)
    requires l.Valid()
    ensures Carried(Stream(l, payload), |l.header|, l.Start()) == payload
    decreases |payload|
  {
    hide Lines, Between, Opening;
    if payload == [] {
      assert l.header[|l.header|..] == [];
    } else {
      hide Carried;
      var n := |payload| - 1;
      StreamCarries(l, payload[..n]);
      StreamLength(l, payload[..n]);
      CarriedStep(l, Stream(l, payload[..n]), payload[n]);
      assert payload[..n] + [payload[n]] == payload;
    }
  }

  /** The marks stand in the openings only. */
  lemma {:induction false} CarriedUpdate(r: seq<Byte>, start: nat, again: nat, p: nat, v: Byte)
    requires start <= LINE && again <= LINE && p < |r| && (if p < LINE then p < start else p % LINE < again)
    ensures Carried(r[p := v], start, again) == Carried(r, start, again)
    decreases |r|
  {
    if |r| > LINE {
      if p >= LINE {
        CarriedUpdate(r[LINE..], again, again, p - LINE, v);
        assert r[p := v][LINE..] == r[LINE..][p - LINE := v];
      } else {
        assert r[p := v][LINE..] == r[LINE..];
      }
    }
  }

  lemma FinishedOpens(data: seq<Byte>)
    requires |data| <= LINE
    ensures |Finished(data)| == FRAME && Finished(data)[..LINE] == data + Zeros(LINE - |data|)
  {
  }

  lemma {:induction false} ChunksCarry(r: seq<Byte>, start: nat, again: nat, packets: seq<seq<Byte>>)
    requires start <= |r| && start <= LINE && again <= LINE && r != [] && Between(|r|, again)
    requires |packets| == |Chunks(r)| && forall i | 0 <= i < |packets| ::
             packets[i] == Finished(Chunks(r)[i]) && |packets[i]| == FRAME
    ensures LINE * |packets| - LINE < |r| <= LINE * |packets|
    ensures Unframed(packets, start, again) == Carried(r, start, again) + Zeros(LINE * |packets| - |r|)
    decreases |r|
  {
    hide Finished;
    FinishedOpens(Chunks(r)[0]);
    var first := packets[0];
    if |r| <= LINE {
      assert first[start..LINE] == first[..LINE][start..];
      assert Unframed(packets[1..], again, again) == [];
    } else {
      ChunksCarry(r[LINE..], again, again, packets[1..]);
      assert first[start..LINE] == first[..LINE][start..] == r[start..LINE];
    }
  }

  lemma InLine(n: nat, p: nat)
    requires p < LINE
    ensures (LINE * n + p) % LINE == p
  {
  }

  /** The mark stands in the opening of the last line. */
  lemma MarkInOpening(l: Layout, payload: seq<Byte>)
    requires l.Valid()
    ensures var stream := Stream(l, payload);
            var at := MarkAt(l, stream);
            && at < |stream| && at != 3
            && (if at < LINE then at < |l.header| else at % LINE == |l.prefix|)
            && (Lines(|stream|) > 1 ==> at == LINE * (Lines(|stream|) - 1) + |l.prefix| >= LINE)
  {
    MarkInside(l, payload);
    var n := Lines(|Stream(l, payload)|) - 1;
    hide Stream, Lines;
    InLine(n, |l.prefix|);
  }

  lemma MarkedCarries(l: Layout, payload: seq<Byte>)
    requires l.Valid()
    ensures Carried(Marked(l, payload), |l.header|, l.Start()) == payload
  {
    var stream := Stream(l, payload);
    StreamLength(l, payload);
    MarkInOpening(l, payload);
    StreamCarries(l, payload);
    hide ToByte, Stream, Lines, MarkAt, Carried, Between;
    CarriedUpdate(stream, |l.header|, l.Start(), MarkAt(l, stream), 0xff);
    CarriedUpdate(stream[MarkAt(l, stream) := 0xff], |l.header|, l.Start(), 3, ToByte(Lines(|stream|)));
  }

  /**
   * Framing round trip: every packet is an accepted frame, and stripping openings and checksums gives the payload back,
   * followed by the zero bytes that fill the last packet, fewer than 19.
   */
  lemma FramingRoundTrip(l: Layout, payload: seq<Byte>)
    requires l.Valid()
    ensures var packets := Framed(l, payload);
            && |packets| == Lines(|Stream(l, payload)|) >= 1
            && (forall i | 0 <= i < |packets| :: Accepts(packets[i]))
            && payload <= Unframed(packets, |l.header|, l.Start())
            && |Unframed(packets, |l.header|, l.Start())| < |payload| + 19
            && forall i | |payload| <= i < |Unframed(packets, |l.header|, l.Start())| ::
                 Unframed(packets, |l.header|, l.Start())[i] == 0
  {
    hide ToByte, Carried, Stream, Accepts, Unframed;
    var packets, marked := Framed(l, payload), Marked(l, payload);
    StreamLength(l, payload);
    ChunkCount(marked);
    forall i | 0 <= i < |packets| ensures Accepts(packets[i]) && |packets[i]| == FRAME {
      LastLine(|marked|);
      ChunkAt(marked, i);
      FinishedIsAccepted(Chunks(marked)[i]);
      FinishedLength(Chunks(marked)[i]);
    }
    MarkedCarries(l, payload);
    ChunksCarry(marked, |l.header|, l.Start(), packets);
  }

  lemma FinishedLength(data: seq<Byte>)
    requires |data| <= LINE
    ensures |Finished(data)| == FRAME
  {
  }

  // ----- counts and numbers -----

  /** One more payload byte: on the line, or behind the opening of the next line. */
  lemma StreamStep(l: Layout, payload: seq<Byte>)
    requires l.Valid() && payload != []
    ensures var before, stream, b := Stream(l, payload[..|payload| - 1]), Stream(l, payload), payload[|payload| - 1];
            var n := Lines(|before|);
            || (stream == before + [b] && Lines(|stream|) == n)
            || (stream == before + (l.prefix + [ToByte(n)]) + [b] && |before| == LINE * n && Lines(|stream|) == n + 1)
  {
    hide ToByte;
    var before := Stream(l, payload[..|payload| - 1]);
    StreamLength(l, payload[..|payload| - 1]);
    NextPosition(|before|, l.Start());
    LastLine(|before|);
    assert before + [] == before;
    hide Between, Lines;
    assert |before| % LINE == 0 ==> |before| / LINE == Lines(|before|);
  }

  /** A line starts as the stream opened it: the k-th further one with prefix and number k. */
  lemma {:induction false} OpeningAt(l: Layout, payload: seq<Byte>, k: nat)
    requires l.Valid() && 0 < k < Lines(|Stream(l, payload)|)
    ensures var stream := Stream(l, payload);
            LINE * k + l.Start() <= |stream| && stream[LINE * k..LINE * k + l.Start()] == l.prefix + [ToByte(k)]
    decreases |payload|
  {
    hide ToByte, Lines, Stream;
    if payload == [] {
      StreamOfNothing(l);
    } else {
      StreamStep(l, payload);
      var before, stream := Stream(l, payload[..|payload| - 1]), Stream(l, payload);
      if k < Lines(|before|) {
        OpeningAt(l, payload[..|payload| - 1], k);
        SliceStays(before, stream, LINE * k, LINE * k + l.Start());
      } else {
        SliceBehind(before, l.prefix + [ToByte(k)], payload[|payload| - 1]);
      }
    }
  }

  lemma StreamOfNothing(l: Layout)
    requires l.Valid()
    ensures Lines(|Stream(l, [])|) == 1
  {
  }

  lemma SliceStays(before: seq<Byte>, stream: seq<Byte>, i: nat, j: nat)
    requires before <= stream && i <= j <= |before|
    ensures stream[i..j] == before[i..j]
  {
  }

  lemma SliceBehind(before: seq<Byte>, opening: seq<Byte>, b: Byte)
    ensures (before + opening + [b])[|before|..|before| + |opening|] == opening
  {
  }

  /** Byte `i` of packet `k` is byte `i` of line `k` of the marked stream. */
  lemma PacketByte(l: Layout, payload: seq<Byte>, k: nat, i: nat)
    requires l.Valid() && i < LINE && LINE * k + i < |Marked(l, payload)|
    ensures k < |Framed(l, payload)| && |Framed(l, payload)[k]| == FRAME
    ensures Framed(l, payload)[k][i] == Marked(l, payload)[LINE * k + i]
  {
    var marked := Marked(l, payload);
    hide Marked;
    ChunkAt(marked, k);
    FinishedIsAccepted(Chunks(marked)[k]);
    assert Finished(Chunks(marked)[k])[..|Chunks(marked)[k]|][i] == Chunks(marked)[k][i];
  }

  /** The marked stream: the count in byte 3, 0xff at the mark, all else as opened or carried. */
  lemma MarkedBytes(l: Layout, payload: seq<Byte>, p: nat)
    requires l.Valid() && p < |Stream(l, payload)|
    ensures |Marked(l, payload)| == |Stream(l, payload)|
    ensures var stream := Stream(l, payload);
            Marked(l, payload)[p] ==
            if p == 3 then ToByte(Lines(|stream|)) else if p == MarkAt(l, stream) then 0xff else stream[p]
  {
    hide ToByte, Stream, Lines;
    StreamLength(l, payload);
    MarkInside(l, payload);
  }

  /** The first packet opens with the header, except for the count, and for the mark when it is the only one. */
  lemma FirstPacket(l: Layout, payload: seq<Byte>, i: nat)
    requires l.Valid() && i < |l.header|
    ensures var packets := Framed(l, payload);
            && packets != [] && |packets[0]| == FRAME
            && packets[0][i] == if i == 3 then ToByte(|packets|) else if i == l.marker && |packets| == 1 then 0xff
               else l.header[i]
  {
    FramingRoundTrip(l, payload);
    StreamLength(l, payload);
    MarkInOpening(l, payload);
    MarkedBytes(l, payload, i);
    PacketByte(l, payload, 0, i);
  }

  /** Every further packet opens with the prefix and its number, the last one with the prefix and 0xff. */
  lemma FurtherPacket(l: Layout, payload: seq<Byte>, k: nat, i: nat)
    requires l.Valid() && 0 < k < |Framed(l, payload)| && i < l.Start()
    ensures var packets := Framed(l, payload);
            && |packets[k]| == FRAME
            && packets[k][i] == if i < |l.prefix| then l.prefix[i] else if k == |packets| - 1 then 0xff else ToByte(k)
  {
    FramingRoundTrip(l, payload);
    OpeningAt(l, payload, k);
    var stream := Stream(l, payload);
    assert stream[LINE * k + i] == stream[LINE * k..LINE * k + l.Start()][i];
    MarkInOpening(l, payload);
    MarkedBytes(l, payload, LINE * k + i);
    PacketByte(l, payload, k, i);
  }

  /** Byte 3 is the number of packets exactly up to 255 of them; with 256 it reads 0. */
  lemma CountIsExact(l: Layout, payload: seq<Byte>)
    requires l.Valid()
    ensures Framed(l, payload) != [] && |Framed(l, payload)[0]| == FRAME
    ensures Framed(l, payload)[0][3] as nat == |Framed(l, payload)| <==> |Framed(l, payload)| <= 255
  {
    hide Framed, ToByte;
    FirstPacket(l, payload, 3);
    ByteOfNat(|Framed(l, payload)|);
  }

  /** Up to 255 packets the further ones are numbered in order and only the last one is marked. */
  lemma NumbersInOrder(l: Layout, payload: seq<Byte>, k: nat)
    requires l.Valid() && 0 < k < |Framed(l, payload)| <= 255
    ensures |Framed(l, payload)[k]| == FRAME
    ensures Framed(l, payload)[k][|l.prefix|] == 0xff <==> k == |Framed(l, payload)| - 1
    ensures k < |Framed(l, payload)| - 1 ==> Framed(l, payload)[k][|l.prefix|] as nat == k
  {
    hide Framed, ToByte;
    FurtherPacket(l, payload, k, |l.prefix|);
    if k < |Framed(l, payload)| - 1 { ByteIsNoMark(k); }
  }

  lemma ByteOfNat(n: nat)
    ensures ToByte(n) as nat == n % 256
  {
    var m := n % 256;
    SmallByte(m);
  }

  lemma SmallByte(m: nat)
    requires m < 256
    ensures (m as bv8) as nat == m
  {
    // the quarters one by one: the solver is quick on a small range
    if m < 128 {
      if m < 64 {} else {}
    } else {
      if m < 192 {} else {}
    }
  }

  /** A number below 255 is its own byte and not the mark. */
  lemma ByteIsNoMark(n: nat)
    requires n < 255
    ensures ToByte(n) as nat == n && ToByte(n) != 0xff
  {
    hide ToByte;
    ByteOfNat(n);
    MarkIs255(ToByte(n));
  }

  lemma MarkIs255(b: Byte)
    ensures b == 0xff ==> b as nat == 255
  {
  }
}
