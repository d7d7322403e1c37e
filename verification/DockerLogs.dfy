/** Container logs: standard output and error multiplexed in frames, read up to a limit. */
module DockerLogs {
  type Byte = x: int | 0 <= x < 256

  type Bytes = seq<Byte>

  const HEADER: nat := 8

  datatype Streams = Streams(out: Bytes, err: Bytes)

  // ---------------------------------------------------------------- frames

  function BigEndian(b: Bytes): nat
    requires |b| == 4
  {
    (((b[0] as nat) * 0x100 + b[1] as nat) * 0x100 + b[2] as nat) * 0x100 + b[3] as nat
  }

  function FourBytes(n: nat): (b: Bytes)
    requires n < 0x1_0000_0000
    ensures |b| == 4 && BigEndian(b) == n
  {
    var high: nat := n / 0x100;
    var higher: nat := high / 0x100;
    [higher / 0x100, higher % 0x100, high % 0x100, n % 0x100]
  }

  datatype Frame = Frame(stream: Byte, padding: Bytes, payload: Bytes)

  predicate WellFormed(f: Frame) {
    |f.padding| == 3 && |f.payload| < 0x1_0000_0000
  }

  predicate AllWellFormed(frames: seq<Frame>) {
    forall i :: 0 <= i < |frames| ==> WellFormed(frames[i])
  }

  function Encode(f: Frame): Bytes
    requires WellFormed(f)
  {
    [f.stream] + f.padding + FourBytes(|f.payload|) + f.payload
  }

  function EncodeAll(frames: seq<Frame>): Bytes
    requires AllWellFormed(frames)
  {
    if frames == [] then [] else Encode(frames[0]) + EncodeAll(frames[1..])
  }

  function Put(stream: Byte, payload: Bytes, s: Streams): Streams {
    if stream == 2 then Streams(s.out, payload + s.err) else Streams(payload + s.out, s.err)
  }

  /** What was written to each stream, in order. */
  function Written(frames: seq<Frame>): Streams {
    if frames == [] then Streams([], []) else Put(frames[0].stream, frames[0].payload, Written(frames[1..]))
  }

  // -------------------------------------------------------------- decoding

  function Least(a: nat, b: nat): nat {
    if a < b then a else b
  }

  /** Where the frame at the head of `data` ends, within the data there is. */
  function FrameEnd(data: Bytes): (n: nat)
    requires |data| >= HEADER
    ensures HEADER <= n <= |data|
  {
    Least(HEADER + BigEndian(data[4..8]), |data|)
  }

  function Demux(data: Bytes): Streams {
    if |data| < HEADER then Streams([], [])
    else Put(data[0], data[HEADER..FrameEnd(data)], Demux(data[FrameEnd(data)..]))
  }

  /** Data too short for one header is shown as it is. */
  function Decoded(data: Bytes): Streams {
    if |data| < HEADER then Streams(data, []) else Demux(data)
  }

  function Append(a: Streams, b: Streams): Streams {
    Streams(a.out + b.out, a.err + b.err)
  }

  lemma AppendPut(a: Streams, stream: Byte, payload: Bytes, b: Streams)
    ensures Append(a, Put(stream, payload, b)) ==
            Append(if stream == 2 then Streams(a.out, a.err + payload) else Streams(a.out + payload, a.err), b)
  {
    assert a.err + (payload + b.err) == a.err + payload + b.err;
    assert a.out + (payload + b.out) == a.out + payload + b.out;
  }

  method DecodeDockerStream(data: Bytes) returns (stdout: Bytes, stderr: Bytes)
    ensures Streams(stdout, stderr) == Decoded(data)
  {
    hide BigEndian;
    stdout, stderr := [], [];
    var position := 0;
    while position + 8 <= |data|
      invariant Append(Streams(stdout, stderr), Demux(data[Least(position, |data|)..])) == Demux(data)
      invariant position == 0 ==> stdout == [] && stderr == []
      invariant position == 0 || |data| >= HEADER
      decreases |data| - position
    {
      ghost var rest := data[position..];
      assert rest[4..8] == data[position + 4..position + 8];
      var streamType := data[position];
      var length := BigEndian(data[position + 4..position + 8]);
      position := position + 8;
      var payload := data[position..Least(position + length, |data|)];
      assert payload == rest[HEADER..FrameEnd(rest)];
      position := position + length;
      assert rest[FrameEnd(rest)..] == data[Least(position, |data|)..];
      AppendPut(Streams(stdout, stderr), streamType, payload, Demux(rest[FrameEnd(rest)..]));
      if streamType == 2 {
        stderr := stderr + payload;
      } else {
        stdout := stdout + payload;
      }
    }
    if position == 0 && data != [] {
      stdout := stdout + data;
    }
  }

  // ------------------------------------------------------------ properties

  lemma FirstFrame(f: Frame, rest: Bytes)
    requires WellFormed(f)
    ensures |Encode(f) + rest| >= HEADER
    ensures Demux(Encode(f) + rest) == Put(f.stream, f.payload, Demux(rest))
  {
    var data := Encode(f) + rest;
    assert data[4..8] == FourBytes(|f.payload|);
    assert FrameEnd(data) == HEADER + |f.payload|;
    assert data[HEADER..FrameEnd(data)] == f.payload;
    assert data[FrameEnd(data)..] == rest;
  }

  /** Taking frames apart gives each stream what was written to it. */
  lemma {:induction false} FramesComeApart(frames: seq<Frame>)
    requires AllWellFormed(frames)
    ensures Demux(EncodeAll(frames)) == Decoded(EncodeAll(frames)) == Written(frames)
  {
    if frames != [] {
      FramesComeApart(frames[1..]);
      FirstFrame(frames[0], EncodeAll(frames[1..]));
    }
  }

  predicate IsPrefix(a: Streams, b: Streams) {
    a.out <= b.out && a.err <= b.err
  }

  lemma PutKeepsPrefix(stream: Byte, shorter: Bytes, payload: Bytes, a: Streams, b: Streams)
    requires (shorter == payload && IsPrefix(a, b)) || (shorter <= payload && a == Streams([], []))
    ensures IsPrefix(Put(stream, shorter, a), Put(stream, payload, b))
  {
  }

  /** Cutting the data anywhere only cuts the streams short. */
  lemma {:induction false} CutDataCutStreams(data: Bytes, n: nat)
    requires n <= |data|
    ensures IsPrefix(Demux(data[..n]), Demux(data))
    decreases |data|
  {
    if n >= HEADER {
      var cut := data[..n];
      assert cut[4..8] == data[4..8];
      var finish := FrameEnd(data);
      if finish <= n {
        assert FrameEnd(cut) == finish;
        assert cut[finish..] == data[finish..][..n - finish];
        CutDataCutStreams(data[finish..], n - finish);
        assert cut[HEADER..finish] == data[HEADER..finish];
        PutKeepsPrefix(data[0], cut[HEADER..finish], data[HEADER..finish], Demux(cut[finish..]), Demux(data[finish..]));
      } else {
        assert FrameEnd(cut) == n;
        assert cut[HEADER..n] <= data[HEADER..finish];
        assert cut[n..] == [];
        PutKeepsPrefix(data[0], cut[HEADER..n], data[HEADER..finish], Demux(cut[n..]), Demux(data[finish..]));
      }
    }
  }

  /**
   A log cut after any number of bytes shows a prefix of each stream, unless the
   cut is inside the first header: those bytes are shown raw on standard output.
   */
  lemma CutLogs(frames: seq<Frame>, n: nat)
    requires AllWellFormed(frames) && n <= |EncodeAll(frames)|
    ensures var shown := Decoded(EncodeAll(frames)[..n]);
            if 0 < n < HEADER then shown == Streams(EncodeAll(frames)[..n], [])
            else IsPrefix(shown, Written(frames))
  {
    FramesComeApart(frames);
    CutDataCutStreams(EncodeAll(frames), n);
  }

  /**
   A cut log shows a prefix of what was written exactly when the cut is outside
   the first header or happens to show bytes that output starts with.
   */
  lemma CutIsPrefixExactlyWhen(frames: seq<Frame>, n: nat)
    requires AllWellFormed(frames) && n <= |EncodeAll(frames)|
    ensures IsPrefix(Decoded(EncodeAll(frames)[..n]), Written(frames)) <==>
              n == 0 || n >= HEADER || EncodeAll(frames)[..n] <= Written(frames).out
  {
    CutLogs(frames, n);
  }

  /** Inside the first header the bytes shown need not be a prefix of what was written. */
  lemma CutHeaderIsShown()
    ensures var frames := [Frame(1, [0, 0, 0], [65])];
            && |EncodeAll(frames)| > 1
            && !IsPrefix(Decoded(EncodeAll(frames)[..1]), Written(frames))
  {
    var frames := [Frame(1, [0, 0, 0], [65])];
    assert EncodeAll(frames[1..]) == [];
    assert Written(frames[1..]) == Streams([], []);
    var data := EncodeAll(frames);
    assert data[..1] == [1];
    assert Decoded(data[..1]).out[0] == 1;
    assert Written(frames).out == [65];
  }

  // ------------------------------------------------------------- the limit

  function Flatten(chunks: seq<Bytes>): Bytes {
    if chunks == [] then [] else Flatten(chunks[..|chunks| - 1]) + chunks[|chunks| - 1]
  }

  function RawLimit(maximum: nat): nat {
    2 * maximum + 65_536
  }

  /** What the reader keeps of a response. */
  function Kept(maximum: nat, all: Bytes): Bytes {
    all[..Least(RawLimit(maximum), |all|)]
  }

  /** Both streams cut at the maximum, and whether anything may be missing. */
  function Reported(maximum: nat, all: Bytes): (Streams, bool) {
    var shown := Decoded(Kept(maximum, all));
    (Streams(shown.out[..Least(maximum, |shown.out|)], shown.err[..Least(maximum, |shown.err|)]),
     |all| >= RawLimit(maximum) || |shown.out| > maximum || |shown.err| > maximum)
  }

  lemma {:induction false} FlattenGrows(chunks: seq<Bytes>, n: nat)
    requires n <= |chunks|
    ensures Flatten(chunks[..n]) <= Flatten(chunks)
    decreases |chunks|
  {
    if n == |chunks| {
      assert chunks[..n] == chunks;
    } else {
      FlattenGrows(chunks[..|chunks| - 1], n);
      assert chunks[..|chunks| - 1][..n] == chunks[..n];
    }
  }

  method Logs(maximum: nat, chunks: seq<Bytes>) returns (stdout: Bytes, stderr: Bytes, truncated: bool)
    ensures (Streams(stdout, stderr), truncated) == Reported(maximum, Flatten(chunks))
  {
    var rawLimit := 2 * maximum + 65_536;
    var data: Bytes := [];
    var capped := false;
    ghost var all := Flatten(chunks);
    for i := 0 to |chunks|
      invariant !capped && data == Flatten(chunks[..i]) && |data| < rawLimit
    {
      var chunk := chunks[i];
      var available := rawLimit - |data|;
      assert chunks[..i + 1][..i] == chunks[..i];
      FlattenGrows(chunks, i + 1);
      data := data + chunk[..Least(available, |chunk|)];
      if |chunk| >= available {
        capped := true;
        break;
      }
    }
    assert chunks[..|chunks|] == chunks;
    assert data == Kept(maximum, all) && (capped <==> |all| >= rawLimit);
    stdout, stderr := DecodeDockerStream(data);
    truncated := capped || |stdout| > maximum || |stderr| > maximum;
    stdout := stdout[..Least(maximum, |stdout|)];
    stderr := stderr[..Least(maximum, |stderr|)];
  }

  /**
   For a log of well-formed frames: what is returned is a prefix of each stream;
   it is marked complete exactly when the raw log is below the limit and both
   streams fit, and then it is both streams in full.
   */
  lemma CompleteLogs(maximum: nat, frames: seq<Frame>)
    requires AllWellFormed(frames)
    ensures var (streams, truncated) := Reported(maximum, EncodeAll(frames));
            && IsPrefix(streams, Written(frames))
            && (!truncated <==> |EncodeAll(frames)| < RawLimit(maximum)
                                && |Written(frames).out| <= maximum && |Written(frames).err| <= maximum)
            && (!truncated ==> streams == Written(frames))
  {
    var all := EncodeAll(frames);
    FramesComeApart(frames);
    CutLogs(frames, Least(RawLimit(maximum), |all|));
    if |all| < RawLimit(maximum) {
      assert Kept(maximum, all) == all;
    }
  }

  // ------------------------------------------------------ the bytes, exactly

  /** The payloads of the frames that belong to standard error, or to everything else. */
  function PayloadsOf(frames: seq<Frame>, error: bool): Bytes {
    if frames == [] then []
    else (if (frames[0].stream == 2) == error then frames[0].payload else []) + PayloadsOf(frames[1..], error)
  }

  /** Stream 2 is standard error; every other stream is standard output. */
  lemma {:induction false} StreamsAreToldApart(frames: seq<Frame>)
    ensures Written(frames) == Streams(PayloadsOf(frames, false), PayloadsOf(frames, true))
  {
    if frames != [] {
      StreamsAreToldApart(frames[1..]);
      assert [] + PayloadsOf(frames[1..], false) == PayloadsOf(frames[1..], false);
      assert [] + PayloadsOf(frames[1..], true) == PayloadsOf(frames[1..], true);
    }
  }

  /** A frame is its stream, three bytes of padding, its length with the highest byte first, and its payload. */
  lemma FramesAreWrittenExactly(f: Frame)
    requires WellFormed(f)
    ensures var b := Encode(f);
            && |b| == 8 + |f.payload| && b[0] == f.stream && b[1..4] == f.padding && b[8..] == f.payload
            && |f.payload| == 0x100_0000 * (b[4] as int) + 0x1_0000 * (b[5] as int) + 0x100 * (b[6] as int) + b[7] as int
  {
    var b := Encode(f);
    var four := FourBytes(|f.payload|);
    assert b[4..8] == four && b[8..] == f.payload;
    assert four[0] == b[4] && four[1] == b[5] && four[2] == b[6] && four[3] == b[7];
    hide FourBytes;
  }

  /** Of any log, the first `maximum` bytes of each stream are returned, out of at most twice that and 64 KiB. */
  lemma LogsAreCutExactly(maximum: nat, all: Bytes)
    ensures var (streams, truncated) := Reported(maximum, all);
            var raw := Decoded(if |all| <= 2 * maximum + 65536 then all else all[..2 * maximum + 65536]);
            && streams.out <= raw.out && |streams.out| == Least(maximum, |raw.out|)
            && streams.err <= raw.err && |streams.err| == Least(maximum, |raw.err|)
            && (truncated <==> |all| >= 2 * maximum + 65536 || |raw.out| > maximum || |raw.err| > maximum)
  {
    hide Decoded;
    if |all| <= 2 * maximum + 65536 {
      assert Kept(maximum, all) == all;
    }
  }
}
