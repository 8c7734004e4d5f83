/** Godot IMA ADPCM: decoding a payload in chunks with carried state is decoding it in one go. */
module Ima {
  import opened Bytes

  const CHUNK := 2048
  const SEED := 4
  const RIFF_PAYLOAD := 0xFFFF_FFFF - 36

  const STEPS: seq<nat> := [
    7, 8, 9, 10, 11, 12, 13, 14, 16, 17, 19, 21, 23, 25, 28, 31, 34, 37, 41, 45, 50, 55, 60, 66, 73, 80, 88, 97, 107,
    118, 130, 143, 157, 173, 190, 209, 230, 253, 279, 307, 337, 371, 408, 449, 494, 544, 598, 658, 724, 796, 876, 963,
    1060, 1166, 1282, 1411, 1552, 1707, 1878, 2066, 2272, 2499, 2749, 3024, 3327, 3660, 4026, 4428, 4871, 5358, 5894,
    6484, 7132, 7845, 8630, 9493, 10442, 11487, 12635, 13899, 15289, 16818, 18500, 20350, 22385, 24623, 27086, 29794,
    32767]

  const MOVES: seq<int> := [-1, -1, -1, -1, 2, 4, 6, 8, -1, -1, -1, -1, 2, 4, 6, 8]

  /** A lane's predictor and step index, which never leave 16 bits and the step table. */
  datatype Lane = Lane(predictor: int, step: int)

  predicate Bounded(lane: Lane)
  {
    -0x8000 <= lane.predictor <= 0x7FFF && 0 <= lane.step <= 88
  }

  const START := Lane(0, 0)

  function Clamp(value: int, low: int, high: int): (r: int)
    requires low <= high
    ensures low <= r <= high
  {
    if value < low then low else if value > high then high else value
  }

  function Difference(step: nat, nibble: nat): int
  {
    var size := step / 8 + (if nibble % 2 == 1 then step / 4 else 0) + (if nibble / 2 % 2 == 1 then step / 2 else 0)
                + (if nibble / 4 % 2 == 1 then step else 0);
    if nibble / 8 % 2 == 1 then -size else size
  }

  lemma TableSizes()
    ensures |STEPS| == 89 && |MOVES| == 16
  {
  }

  /** One nibble moves the lane; the step is read before its index moves. */
  function Advance(lane: Lane, nibble: nat): (r: Lane)
    requires Bounded(lane) && nibble < 16
    ensures Bounded(r)
  {
    TableSizes();
    Lane(Clamp(lane.predictor + Difference(STEPS[lane.step], nibble), -0x8000, 0x7FFF),
         Clamp(lane.step + MOVES[nibble], 0, 88))
  }

  /** A byte carries two frames of a lane, the low nibble first. */
  function Nibble(packed: byte, frame: nat): (n: nat)
    ensures n < 16
  {
    if frame % 2 == 1 then packed / 16 else packed % 16
  }

  /** Where a lane's byte of a frame lies among the interleaved bytes. */
  function At(frame: nat, channels: nat, lane: nat): nat
  {
    frame / 2 * channels + lane
  }

  /** The payload holds every nibble of the first `frames` frames. */
  predicate Holds(packed: seq<byte>, channels: nat, frames: nat)
  {
    (frames + 1) / 2 * channels <= |packed|
  }

  lemma InPayload(packed: seq<byte>, channels: nat, frames: nat, frame: nat, lane: nat)
    requires Holds(packed, channels, frames) && frame < frames && lane < channels
    ensures At(frame, channels, lane) < |packed|
  {
    MulMonotone(frame / 2 + 1, (frames + 1) / 2, channels);
  }

  lemma FewerFrames(packed: seq<byte>, channels: nat, frames: nat, n: nat)
    requires Holds(packed, channels, frames) && n <= frames
    ensures Holds(packed, channels, n)
  {
    MulMonotone((n + 1) / 2, (frames + 1) / 2, channels);
  }

  /** A lane's state after `frames` frames, from a given state and with no other lane in sight. */
  function After(start: Lane, packed: seq<byte>, channels: nat, lane: nat, frames: nat): (r: Lane)
    requires Bounded(start) && lane < channels && Holds(packed, channels, frames)
    ensures Bounded(r)
    decreases frames
  {
    if frames == 0 then start
    else
      FewerFrames(packed, channels, frames, frames - 1);
      InPayload(packed, channels, frames, frames - 1, lane);
      Advance(After(start, packed, channels, lane, frames - 1), Nibble(packed[At(frames - 1, channels, lane)], frames - 1))
  }

  /** Decoding on from an even frame is decoding the bytes behind it from the state reached. */
  lemma {:induction false} AfterChunks(start: Lane, packed: seq<byte>, channels: nat, lane: nat, n: nat, more: nat)
    requires Bounded(start) && lane < channels && n % 2 == 0 && Holds(packed, channels, n + more)
    ensures n / 2 * channels <= |packed| && Holds(packed, channels, n)
    ensures Holds(packed[n / 2 * channels..], channels, more)
    ensures After(After(start, packed, channels, lane, n), packed[n / 2 * channels..], channels, lane, more)
         == After(start, packed, channels, lane, n + more)
    decreases more
  {
    hide Advance, Nibble, At, Holds, After;
    FewerFrames(packed, channels, n + more, n);
    ChunkHolds(packed, channels, n, more);
    AfterStep(start, packed, channels, lane, n + more);
    AfterStep(After(start, packed, channels, lane, n), packed[n / 2 * channels..], channels, lane, more);
    if more > 0 {
      FewerFrames(packed, channels, n + more, n + more - 1);
      AfterChunks(start, packed, channels, lane, n, more - 1);
      ChunkByte(packed, channels, lane, n, more - 1);
      InPayload(packed[n / 2 * channels..], channels, more, more - 1, lane);
      InPayload(packed, channels, n + more, n + more - 1, lane);
      NibbleParity(packed[At(n + more - 1, channels, lane)], n, more - 1);
    }
  }

  lemma AfterStep(start: Lane, packed: seq<byte>, channels: nat, lane: nat, frames: nat)
    requires Bounded(start) && lane < channels && Holds(packed, channels, frames)
    ensures frames == 0 ==> After(start, packed, channels, lane, frames) == start
    ensures frames > 0 ==> Holds(packed, channels, frames - 1) && At(frames - 1, channels, lane) < |packed|
    ensures frames > 0 ==>
      After(start, packed, channels, lane, frames)
      == Advance(After(start, packed, channels, lane, frames - 1), Nibble(packed[At(frames - 1, channels, lane)], frames - 1))
  {
    hide Advance, Nibble;
    if frames > 0 {
      FewerFrames(packed, channels, frames, frames - 1);
      InPayload(packed, channels, frames, frames - 1, lane);
    }
  }

  lemma NibbleParity(b: byte, n: nat, more: nat)
    requires n % 2 == 0
    ensures Nibble(b, n + more) == Nibble(b, more)
  {
  }

  lemma ChunkHolds(packed: seq<byte>, channels: nat, n: nat, more: nat)
    requires n % 2 == 0 && Holds(packed, channels, n + more)
    ensures n / 2 * channels <= |packed| && Holds(packed[n / 2 * channels..], channels, more)
  {
    assert (n + more + 1) / 2 == n / 2 + (more + 1) / 2;
    Distribute(n / 2, (more + 1) / 2, channels);
  }

  lemma Distribute(a: nat, b: nat, c: nat)
    ensures (a + b) * c == a * c + b * c && b * c >= 0 && a * c >= 0
  {
  }

  lemma ChunkByte(packed: seq<byte>, channels: nat, lane: nat, n: nat, frame: nat)
    requires n % 2 == 0 && lane < channels && Holds(packed, channels, n + frame + 1)
    ensures n / 2 * channels <= |packed| && At(frame, channels, lane) < |packed| - n / 2 * channels
    ensures packed[n / 2 * channels..][At(frame, channels, lane)] == packed[At(n + frame, channels, lane)]
  {
    InPayload(packed, channels, n + frame + 1, n + frame, lane);
    ChunkHolds(packed, channels, n, frame + 1);
    InPayload(packed[n / 2 * channels..], channels, frame + 1, frame, lane);
    assert (n + frame) / 2 == n / 2 + frame / 2;
    Distribute(n / 2, frame / 2, channels);
  }

  // ---- samples

  /** Frame by frame, each lane's predictor in turn. */
  function Samples(packed: seq<byte>, channels: nat, from: nat, frames: nat): (r: seq<int>)
    requires channels > 0 && Holds(packed, channels, from + frames)
    ensures |r| == frames * channels
    decreases frames
  {
    if frames == 0 then []
    else
      FewerFrames(packed, channels, from + frames, from + frames - 1);
      Samples(packed, channels, from, frames - 1) + Frame(packed, channels, from + frames - 1, channels)
  }

  /** The samples of the first `lanes` lanes of one frame. */
  function Frame(packed: seq<byte>, channels: nat, frame: nat, lanes: nat): (r: seq<int>)
    requires lanes <= channels && Holds(packed, channels, frame + 1)
    ensures |r| == lanes && forall i :: 0 <= i < lanes ==> -0x8000 <= r[i] <= 0x7FFF
  {
    seq(lanes, lane requires 0 <= lane < lanes => After(START, packed, channels, lane, frame + 1).predictor)
  }

  lemma {:induction false} SamplesSplit(packed: seq<byte>, channels: nat, from: nat, a: nat, b: nat)
    requires channels > 0 && Holds(packed, channels, from + a + b)
    ensures Holds(packed, channels, from + a)
    ensures Samples(packed, channels, from, a + b) == Samples(packed, channels, from, a) + Samples(packed, channels, from + a, b)
    decreases b
  {
    hide Frame;
    FewerFrames(packed, channels, from + a + b, from + a);
    if b > 0 {
      FewerFrames(packed, channels, from + a + b, from + a + b - 1);
      SamplesSplit(packed, channels, from, a, b - 1);
    }
  }

  // ---- the decoders

  /** Advances one lane by one nibble, in place. */
  method DecodeNibble(packed: byte, high: bool, state: array<Lane>, lane: nat)
    requires lane < state.Length && Bounded(state[lane])
    modifies state
    ensures state[lane] == Advance(old(state[lane]), if high then packed / 16 else packed % 16)
    ensures forall i :: 0 <= i < state.Length && i != lane ==> state[i] == old(state[i])
  {
    TableSizes();
    var nibble: nat := if high then packed / 16 else packed % 16;
    var step := STEPS[state[lane].step];
    var index := state[lane].step + MOVES[nibble];
    index := if index < 0 then 0 else if index > 88 then 88 else index;
    var difference: int := step / 8;
    if nibble % 2 == 1 { difference := difference + step / 4; }
    if nibble / 2 % 2 == 1 { difference := difference + step / 2; }
    if nibble / 4 % 2 == 1 { difference := difference + step; }
    if nibble / 8 % 2 == 1 { difference := -difference; }
    var predictor := state[lane].predictor + difference;
    if predictor < -0x8000 { predictor := -0x8000; } else if predictor > 0x7FFF { predictor := 0x7FFF; }
    state[lane] := Lane(predictor, index);
  }

  /** The lanes after `frames` frames of a payload. */
  ghost predicate Stands(lanes: seq<Lane>, packed: seq<byte>, channels: nat, frames: nat)
    requires Holds(packed, channels, frames)
  {
    |lanes| >= channels && forall i :: 0 <= i < channels ==> lanes[i] == After(START, packed, channels, i, frames)
  }

  lemma StandsIsBounded(lanes: seq<Lane>, packed: seq<byte>, channels: nat, frames: nat)
    requires Holds(packed, channels, frames) && Stands(lanes, packed, channels, frames)
    ensures forall i :: 0 <= i < channels ==> Bounded(lanes[i])
  {
  }

  /**
   Decodes one frame of every lane. `packed` is a window of the whole payload that starts at frame
   `from`; both decoders run this loop.
   */
  method DecodeFrame(packed: seq<byte>, channels: nat, frame: nat, state: array<Lane>, ghost whole: seq<byte>, ghost from: nat)
    returns (samples: seq<int>)
    requires (channels == 1 || channels == 2) && state.Length == 2
    requires Holds(packed, channels, frame + 1) && from % 2 == 0 && Holds(whole, channels, from + frame + 1)
    requires from / 2 * channels <= |whole| && packed <= whole[from / 2 * channels..]
    requires Holds(whole, channels, from + frame) && Stands(state[..], whole, channels, from + frame)
    modifies state
    ensures Stands(state[..], whole, channels, from + frame + 1)
    ensures samples == Frame(whole, channels, from + frame, channels)
  {
    hide Advance, After, Holds, At;
    samples := [];
    var base := frame / 2 * channels;
    for lane := 0 to channels
      invariant forall i :: 0 <= i < lane ==> state[i] == After(START, whole, channels, i, from + frame + 1)
      invariant forall i :: lane <= i < channels ==> state[i] == After(START, whole, channels, i, from + frame)
      invariant samples == Frame(whole, channels, from + frame, lane)
    {
      InPayload(packed, channels, frame + 1, frame, lane);
      WindowNibble(packed, whole, channels, from, frame, lane);
      AfterStep(START, whole, channels, lane, from + frame + 1);
      DecodeNibble(packed[base + lane], frame % 2 == 1, state, lane);
      samples := samples + [state[lane].predictor];
    }
  }

  /** The nibble a window shows is the payload's. */
  lemma WindowNibble(packed: seq<byte>, whole: seq<byte>, channels: nat, from: nat, frame: nat, lane: nat)
    requires lane < channels && Holds(packed, channels, frame + 1) && from % 2 == 0
    requires Holds(whole, channels, from + frame + 1)
    requires from / 2 * channels <= |whole| && packed <= whole[from / 2 * channels..]
    ensures frame / 2 * channels + lane < |packed| && At(from + frame, channels, lane) < |whole|
    ensures (if frame % 2 == 1 then packed[frame / 2 * channels + lane] / 16 else packed[frame / 2 * channels + lane] % 16)
         == Nibble(whole[At(from + frame, channels, lane)], from + frame)
  {
    InPayload(packed, channels, frame + 1, frame, lane);
    InPayload(whole, channels, from + frame + 1, from + frame, lane);
    ChunkByte(whole, channels, lane, from, frame);
    NibbleParity(whole[At(from + frame, channels, lane)], from, frame);
  }

  /** A chunk decodes when its geometry is exact; the carried lanes go on from where they stand. */
  method DecodeChunk(packed: seq<byte>, channels: nat, frames: nat, outputSize: nat, state: array<Lane>,
                     ghost whole: seq<byte>, ghost from: nat)
    returns (r: Option<seq<int>>)
    requires state.Length == 2
    requires channels > 0 && from % 2 == 0 && Holds(whole, channels, from + frames) && Holds(whole, channels, from)
    requires from / 2 * channels <= |whole| && packed <= whole[from / 2 * channels..]
    requires (channels == 1 || channels == 2) ==> Stands(state[..], whole, channels, from)
    modifies state
    ensures r.Some? <==> (channels == 1 || channels == 2) && frames > 0 && outputSize == frames * channels
                         && |packed| == (frames + 1) / 2 * channels
    ensures r.Some? ==> r.value == Samples(whole, channels, from, frames)
    ensures r.Some? ==> Stands(state[..], whole, channels, from + frames)
  {
    hide Stands, Frame;
    if (channels != 1 && channels != 2) || frames == 0 || outputSize != frames * channels
       || |packed| != (frames + 1) / 2 * channels {
      return None;
    }
    var output, frame := [], 0;
    while frame < frames
      invariant frame <= frames && Holds(whole, channels, from + frame) && Stands(state[..], whole, channels, from + frame)
      invariant output == Samples(whole, channels, from, frame)
    {
      FewerFrames(whole, channels, from + frames, from + frame + 1);
      FewerFrames(packed, channels, frames, frame + 1);
      var samples := DecodeFrame(packed, channels, frame, state, whole, from);
      output := output + samples;
      frame := frame + 1;
    }
    return Some(output);
  }

  // ---- geometry

  const MAX_SIZE := 0xFFFF_FFFF_FFFF_FFFF

  datatype Limits = Limits(input: nat, frames: nat, output: nat)

  /** Two nibbles a byte, spread over the lanes. */
  function Capacity(length: nat, channels: nat): nat
    requires channels > 0
  {
    2 * length / channels
  }

  /** What the one-shot decoder demands of a payload of some length. */
  predicate Decodable(length: nat, channels: nat, rate: nat, declared: Option<nat>, limits: Limits)
  {
    && (channels == 1 || channels == 2) && rate > 0 && length <= limits.input
    && length >= channels && (channels == 2 ==> length % 2 == 0) && 2 * length <= MAX_SIZE
    && (declared.Some? ==> 0 < declared.value <= Capacity(length, channels) <= declared.value + 1)
    && var frames := if declared.Some? then declared.value else Capacity(length, channels);
       frames <= limits.frames && frames * channels <= limits.output / 2
  }

  lemma CapacityHolds(packed: seq<byte>, channels: nat, frames: nat)
    requires (channels == 1 || channels == 2) && (channels == 2 ==> |packed| % 2 == 0)
    requires frames <= Capacity(|packed|, channels)
    ensures Holds(packed, channels, frames)
  {
  }

  /** Decodes a payload in one go, from zero lanes. */
  method DecodeIma(input: seq<byte>, channels: nat, rate: nat, declared: Option<nat>, limits: Limits)
    returns (r: Option<seq<int>>)
    ensures r.Some? <==> Decodable(|input|, channels, rate, declared, limits)
    ensures r.Some? ==>
      var frames := if declared.Some? then declared.value else Capacity(|input|, channels);
      channels > 0 && Holds(input, channels, frames) && r.value == Samples(input, channels, 0, frames)
  {
    hide Stands, Frame, Holds, Samples;
    if channels != 1 && channels != 2 { return None; }
    if rate == 0 || |input| > limits.input || |input| < channels { return None; }
    if channels == 2 && |input| % 2 != 0 { return None; }
    if 2 * |input| > MAX_SIZE { return None; }
    var capacity := Capacity(|input|, channels);
    var frames := capacity;
    if declared.Some? {
      if declared.value == 0 { return None; }
      if declared.value > capacity || declared.value + 1 < capacity { return None; }
      frames := declared.value;
    }
    if frames > limits.frames || frames * channels > limits.output / 2 { return None; }
    CapacityHolds(input, channels, frames);
    var samples := DecodeFrom(input, channels, frames);
    return Some(samples);
  }

  method DecodeFrom(input: seq<byte>, channels: nat, frames: nat) returns (samples: seq<int>)
    requires (channels == 1 || channels == 2) && Holds(input, channels, frames)
    ensures samples == Samples(input, channels, 0, frames)
  {
    hide Stands, Frame;
    var state := new Lane[2](_ => START);
    FewerFrames(input, channels, frames, 0);
    StartStands(state[..], input, channels);
    samples := [];
    var frame := 0;
    while frame < frames
      invariant frame <= frames && Holds(input, channels, frame) && Stands(state[..], input, channels, frame)
      invariant samples == Samples(input, channels, 0, frame)
    {
      FewerFrames(input, channels, frames, frame + 1);
      assert input[0..] == input;
      var decoded := DecodeFrame(input, channels, frame, state, input, 0);
      samples := samples + decoded;
      frame := frame + 1;
    }
  }

  lemma StartStands(lanes: seq<Lane>, packed: seq<byte>, channels: nat)
    requires |lanes| == 2 && lanes[0] == START && lanes[1] == START && channels <= 2 && Holds(packed, channels, 0)
    ensures Stands(lanes, packed, channels, 0)
  {
  }

  // ---- the sample resolver and the streaming writer

  predicate AllZero(bytes: seq<byte>)
  {
    forall b :: b in bytes ==> b == 0
  }

  /** The budgets of PCM16 output in a RIFF container. */
  predicate PcmFits(frames: nat, channels: nat, limits: Limits)
  {
    && frames <= limits.frames && frames * channels <= MAX_SIZE && 2 * (frames * channels) <= RIFF_PAYLOAD
    && 44 + 2 * (frames * channels) <= limits.output
  }

  /** The seed bytes before the nibble stream, given the declared length: none, or four a channel. */
  predicate Seeded(length: nat, channels: nat, frames: nat)
    requires channels > 0
  {
    Capacity(length, channels) == frames + 8 || Capacity(length, channels) == frames + 9
  }

  /** Accepts a legacy sample and says how many zero seed bytes to strip; `kept` is the payload's prefix. */
  method ResolveSampleIma(kept: seq<byte>, length: nat, channels: nat, frames: nat, limits: Limits)
    returns (seed: Option<nat>)
    requires (channels == 1 || channels == 2) && |kept| <= length
    ensures seed.Some? <==>
      && length >= channels && (channels == 2 ==> length % 2 == 0) && 2 * length <= MAX_SIZE
      && frames > 0 && PcmFits(frames, channels, limits)
      && if Seeded(length, channels, frames) then SEED * channels <= |kept| && AllZero(kept[..SEED * channels])
         else frames <= Capacity(length, channels) <= frames + 1
    ensures seed.Some? ==> seed.value == if Seeded(length, channels, frames) then SEED * channels else 0
  {
    hide PcmFits;
    if length < channels || (channels == 2 && length % 2 != 0) || 2 * length > MAX_SIZE { return None; }
    var capacity := Capacity(length, channels);
    if frames > capacity || frames == 0 { return None; }
    var surplus, prefix := capacity - frames, 0;
    if surplus == 8 || surplus == 9 {
      prefix := SEED * channels;
      if |kept| < prefix { return None; }
      if exists b :: b in kept[..prefix] && b != 0 { return None; }
    } else if surplus > 1 {
      return None;
    }
    if !PcmFits(frames, channels, limits) { return None; }
    return Some(prefix);
  }

  /** What the resolver accepts, less its seed, is what the decoder demands, and it holds every frame. */
  lemma ResolvedIsDecodable(length: nat, channels: nat, rate: nat, frames: nat, limits: Limits)
    requires (channels == 1 || channels == 2) && rate > 0 && length <= limits.input
    requires length >= channels && (channels == 2 ==> length % 2 == 0) && 2 * length <= MAX_SIZE
    requires frames > 0 && PcmFits(frames, channels, limits)
    requires Seeded(length, channels, frames) || frames <= Capacity(length, channels) <= frames + 1
    ensures var seed := if Seeded(length, channels, frames) then SEED * channels else 0;
            seed <= length && Decodable(length - seed, channels, rate, Some(frames), limits)
  {
  }

  /** The bytes of one pull lie inside the payload and fit the read buffer. */
  lemma PullBounds(payload: seq<byte>, channels: nat, produced: nat, count: nat)
    requires (channels == 1 || channels == 2) && produced % 2 == 0 && count <= CHUNK
    requires Holds(payload, channels, produced + count)
    ensures var (at, size) := (produced / 2 * channels, (count + 1) / 2 * channels);
            at >= 0 && 0 <= size <= 2048 && at + size <= |payload|
  {
    ChunkHolds(payload, channels, produced, count);
  }

  /** One pull: a bounded read inside the payload, decoded from the carried lanes. */
  method Pull(source: seq<byte>, base: nat, end: nat, channels: nat, produced: nat, count: nat, state: array<Lane>)
    returns (samples: seq<int>)
    requires (channels == 1 || channels == 2) && base <= end <= |source| && state.Length == 2
    requires produced % 2 == 0 && 0 < count <= CHUNK && Holds(source[base..end], channels, produced + count)
    requires Holds(source[base..end], channels, produced) && Stands(state[..], source[base..end], channels, produced)
    modifies state
    ensures samples == Samples(source[base..end], channels, produced, count)
    ensures Stands(state[..], source[base..end], channels, produced + count)
  {
    hide Stands, Samples, Frame, Holds;
    ghost var payload := source[base..end];
    PullBounds(payload, channels, produced, count);
    var at: nat, size: nat := produced / 2 * channels, (count + 1) / 2 * channels;
    var packed := source[base + at..base + at + size];
    SliceOfSlice(source, base, end, at, at + size);
    Prefix(payload, at, size);
    var decoded := DecodeChunk(packed, channels, count, count * channels, state, payload, produced);
    samples := decoded.value;
  }

  /** Pulls at most 2048 frames at a time and emits what the one-shot decoder would. */
  method WriteImaStreaming(source: seq<byte>, offset: nat, length: nat, seed: nat, channels: nat, frames: nat)
    returns (output: seq<int>)
    requires (channels == 1 || channels == 2) && offset + length <= |source| && seed <= length
    requires Holds(source[offset + seed..offset + length], channels, frames)
    ensures output == Samples(source[offset + seed..offset + length], channels, 0, frames)
  {
    hide Stands, Samples, Frame, Holds;
    ghost var payload := source[offset + seed..offset + length];
    var state := new Lane[2](_ => START);
    FewerFrames(payload, channels, frames, 0);
    StartStands(state[..], payload, channels);
    output := [];
    NoSamples(payload, channels);
    var produced := 0;
    while produced < frames
      invariant produced <= frames && Holds(payload, channels, produced) && Stands(state[..], payload, channels, produced)
      invariant produced % 2 == 0 || produced == frames
      invariant output == Samples(payload, channels, 0, produced)
    {
      var count := Min(frames - produced, CHUNK);
      FewerFrames(payload, channels, frames, produced + count);
      var samples := Pull(source, offset + seed, offset + length, channels, produced, count, state);
      SamplesSplit(payload, channels, 0, produced, count);
      output := output + samples;
      produced := produced + count;
    }
  }

  lemma NoSamples(packed: seq<byte>, channels: nat)
    requires channels > 0 && Holds(packed, channels, 0)
    ensures Samples(packed, channels, 0, 0) == []
  {
  }

  lemma Prefix(s: seq<byte>, at: nat, count: nat)
    requires at + count <= |s|
    ensures s[at..at + count] <= s[at..]
  {
    assert s[at..][..count] == s[at..at + count];
  }
}
