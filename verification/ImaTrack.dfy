/** One lane of an IMA ADPCM payload as a track of predictors and step indices, and the samples as those tracks interleaved. */
module ImaTrack {
  import opened Bytes
  import opened Ima

  /** The nibble of a frame: the low half of the lane's byte for even frames, the high half for odd ones. */
  function NibbleAt(packed: seq<byte>, channels: nat, lane: nat, frame: nat): nat
    requires frame / 2 * channels + lane >= 0 && frame / 2 * channels + lane < |packed|
  {
    packed[frame / 2 * channels + lane] / (if frame % 2 == 0 then 1 else 16) % 16
  }

  /** An eighth of a step, and a quarter, a half and a whole one for the bits of the nibble, each rounded down. */
  function Magnitude(step: nat, nibble: nat): nat
  {
    step / 8 + nibble % 2 * (step / 4) + nibble / 2 % 2 * (step / 2) + nibble / 4 % 2 * step
  }

  /** The predictor moves by the magnitude, down when the top bit is set; the index moves by the other three bits. */
  predicate Moves(p: int, s: int, nibble: nat, q: int, t: int)
    requires 0 <= s <= 88
  {
    TableSizes();
    var size, turn := Magnitude(STEPS[s], nibble % 8), if nibble % 8 < 4 then -1 else 2 * (nibble % 8 - 3);
    && q == Max(-0x8000, Min(0x7FFF, if nibble < 8 then p + size else p - size))
    && t == Max(0, Min(88, s + turn))
  }

  /** The magnitude is the odd multiple of an eighth of the step that the three bits name, but for rounding. */
  lemma MagnitudeIsOddEighths(step: nat, nibble: nat)
    requires nibble < 8
    ensures 8 * Magnitude(step, nibble) <= (2 * nibble + 1) * step <= 8 * Magnitude(step, nibble) + 17
  {
    var (a, b, c) := (nibble % 2, nibble / 2 % 2, nibble / 4 % 2);
    assert nibble == a + 2 * b + 4 * c;
    assert a < 2 && b < 2 && c < 2;
    assert nibble == 0 || nibble == 1 || nibble == 2 || nibble == 3 || nibble == 4 || nibble == 5 || nibble == 6 || nibble == 7;
  }

  /** A lane from the start: frame `f` leads from entry `f` to entry `f + 1`. */
  ghost predicate Track(packed: seq<byte>, channels: nat, lane: nat, ps: seq<int>, ss: seq<int>)
  {
    && |ps| == |ss| > 0 && ps[0] == 0 && ss[0] == 0
    && (forall f :: 0 <= f < |ps| ==> 0 <= ss[f] <= 88)
    && forall f: nat :: f < |ps| - 1 ==>
         0 <= f / 2 * channels + lane < |packed| && Moves(ps[f], ss[f], NibbleAt(packed, channels, lane, f), ps[f + 1], ss[f + 1])
  }

  lemma AdvanceMoves(lane: Lane, nibble: nat)
    requires Bounded(lane) && nibble < 16
    ensures var r := Advance(lane, nibble); Moves(lane.predictor, lane.step, nibble, r.predictor, r.step)
  {
    hide Magnitude, Difference;
    TableSizes();
    DifferenceIs(STEPS[lane.step], nibble);
    MoveOf(nibble);
  }

  lemma BitTimes(b: nat, x: nat)
    requires b < 2
    ensures b * x == if b == 1 then x else 0
  {
  }

  lemma BitsOf(nibble: nat)
    requires nibble < 16
    ensures var low := nibble % 8;
            low % 2 == nibble % 2 && low / 2 % 2 == nibble / 2 % 2 && low / 4 % 2 == nibble / 4 % 2
            && (nibble / 8 % 2 == 1 <==> nibble >= 8)
  {
    if nibble >= 8 { assert nibble % 8 == nibble - 8; }
  }

  lemma DifferenceIs(step: nat, nibble: nat)
    requires nibble < 16
    ensures nibble < 8 ==> Difference(step, nibble) == Magnitude(step, nibble % 8)
    ensures nibble >= 8 ==> Difference(step, nibble) + Magnitude(step, nibble % 8) == 0
  {
    BitsOf(nibble);
    var low := nibble % 8;
    BitTimes(low % 2, step / 4);
    BitTimes(low / 2 % 2, step / 2);
    BitTimes(low / 4 % 2, step);
  }

  lemma MoveOf(nibble: nat)
    requires nibble < 16
    ensures |MOVES| == 16 && MOVES[nibble] == if nibble % 8 < 4 then -1 else 2 * (nibble % 8 - 3)
  {
    TableSizes();
    assert nibble == 0 || nibble == 1 || nibble == 2 || nibble == 3 || nibble == 4 || nibble == 5 || nibble == 6 || nibble == 7
        || nibble == 8 || nibble == 9 || nibble == 10 || nibble == 11 || nibble == 12 || nibble == 13 || nibble == 14 || nibble == 15;
  }

  lemma {:induction false} LaneTracks(packed: seq<byte>, channels: nat, lane: nat, frames: nat) returns (ps: seq<int>, ss: seq<int>)
    requires lane < channels && Holds(packed, channels, frames)
    ensures Track(packed, channels, lane, ps, ss) && |ps| == frames + 1
    ensures ps[frames] == After(START, packed, channels, lane, frames).predictor && ss[frames] == After(START, packed, channels, lane, frames).step
    ensures forall f: nat :: f <= frames ==> Holds(packed, channels, f) && ps[f] == After(START, packed, channels, lane, f).predictor
    decreases frames
  {
    hide Advance, Moves, Holds, After, Magnitude;
    AfterStep(START, packed, channels, lane, frames);
    if frames == 0 {
      ps, ss := [0], [0];
    } else {
      FewerFrames(packed, channels, frames, frames - 1);
      ps, ss := LaneTracks(packed, channels, lane, frames - 1);
      InPayload(packed, channels, frames, frames - 1, lane);
      var before, after := After(START, packed, channels, lane, frames - 1), After(START, packed, channels, lane, frames);
      AdvanceMoves(before, NibbleAt(packed, channels, lane, frames - 1));
      ps, ss := ps + [after.predictor], ss + [after.step];
    }
  }

  lemma {:induction false} SampleOfFrame(packed: seq<byte>, channels: nat, frames: nat, frame: nat, lane: nat)
    requires Holds(packed, channels, frames) && frame < frames && lane < channels
    ensures Holds(packed, channels, frame + 1) && 0 <= frame * channels + lane < |Samples(packed, channels, 0, frames)|
    ensures Samples(packed, channels, 0, frames)[frame * channels + lane] == After(START, packed, channels, lane, frame + 1).predictor
    decreases frames
  {
    hide After, Holds;
    FewerFrames(packed, channels, frames, frame + 1);
    FewerFrames(packed, channels, frames, frames - 1);
    MulMonotone(frame + 1, frames, channels);
    Distribute(frame, 1, channels);
    Distribute(frames - 1, 1, channels);
    if frame < frames - 1 {
      SampleOfFrame(packed, channels, frames - 1, frame, lane);
    }
  }

  /** Every lane has a track, and sample `frame * channels + lane` is where the lane stands behind that frame. */
  lemma SamplesAreTracks(packed: seq<byte>, channels: nat, frames: nat, lane: nat) returns (ps: seq<int>, ss: seq<int>)
    requires Holds(packed, channels, frames) && lane < channels
    ensures Track(packed, channels, lane, ps, ss) && |ps| == frames + 1
    ensures forall frame: nat :: frame < frames ==>
              && 0 <= frame * channels + lane < |Samples(packed, channels, 0, frames)|
              && Samples(packed, channels, 0, frames)[frame * channels + lane] == ps[frame + 1]
  {
    hide After, Holds, Track, Samples;
    ps, ss := LaneTracks(packed, channels, lane, frames);
    forall frame: nat | frame < frames
      ensures 0 <= frame * channels + lane < |Samples(packed, channels, 0, frames)|
      ensures Samples(packed, channels, 0, frames)[frame * channels + lane] == ps[frame + 1]
    {
      SampleOfFrame(packed, channels, frames, frame, lane);
    }
  }
}
