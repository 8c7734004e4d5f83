/**
 The resumable FastLZ decoder: a 64 KiB input window, a 64 KiB output window and a ring of
 the last 73,728 output bytes, read at random offsets. It is proved to serve slices of
 FastLz.Decode, and to serve exactly the reads that `Readable` names.
 */
module FastLzStream {
  import opened Bytes
  import opened FastLz

  const WINDOW := 65536
  const HISTORY := 73728

  /** The end of the output window that holds byte `position - 1`. */
  function WindowEnd(position: nat): nat
  {
    (position + WINDOW - 1) / WINDOW * WINDOW
  }

  /**
   The reads that succeed. Output is decoded a window at a time, so a read needs every window it
   touches intact; a read that reaches the logical end needs the whole block.
   */
  predicate Readable(whole: Outcome, logical: nat, offset: nat, count: nat)
  {
    && offset + count <= logical
    && (count == 0 || whole.Whole? || (offset + count < logical && WindowEnd(offset + count) <= |whole.out|))
  }

  /** A point at which a decode can be interrupted. */
  datatype Stage =
    | Fresh
    | Boundary(level: nat, ip: nat)
    | Control(level: nat, ctrl: byte, ip: nat)
    | Run(level: nat, ip: nat, count: nat)
    | Copy(level: nat, ip: nat, distance: nat, count: nat)

  /** What the reference decode yields when it carries on from an interruption. */
  ghost function Resume(block: seq<byte>, padded: nat, stage: Stage, out: seq<byte>): (r: Outcome)
    requires !stage.Fresh? ==> stage.ip <= |block|
    requires stage.Fresh? ==> out == []
    requires stage.Copy? ==> 1 <= stage.distance <= |out|
    ensures out <= r.out
  {
    match stage
    case Fresh => Decode(block, padded)
    case Boundary(level, ip) => AtBoundary(block, level, padded, ip, out)
    case Control(level, ctrl, ip) => AtControl(block, level, padded, ctrl, ip, out)
    case Run(level, ip, count) => InLiteral(block, level, padded, ip, count, out)
    case Copy(level, ip, distance, count) => AtBoundary(block, level, padded, ip, Expand(out, distance, count))
  }

  /** Emitting one literal byte leaves what the decode yields unchanged. */
  lemma RunStep(block: seq<byte>, padded: nat, level: nat, ip: nat, count: nat, out: seq<byte>)
    requires ip <= |block| && count > 0
    ensures ip == |block| ==> Resume(block, padded, Run(level, ip, count), out) == Broken(out)
    ensures ip < |block| ==>
              Resume(block, padded, Run(level, ip, count), out)
              == Resume(block, padded, if count == 1 then Boundary(level, ip + 1) else Run(level, ip + 1, count - 1),
                        out + [block[ip]])
  {
    if ip == |block| {
      assert out + block[ip..] == out;
    } else {
      LiteralStep(block, level, padded, ip, count, out);
      LiteralDone(block, level, padded, ip + 1, out + [block[ip]]);
    }
  }

  /** Emitting one byte of a match leaves what the decode yields unchanged. */
  lemma CopyStep(block: seq<byte>, padded: nat, level: nat, ip: nat, distance: nat, count: nat, out: seq<byte>)
    requires ip <= |block| && count > 0 && 1 <= distance <= |out|
    ensures Resume(block, padded, Copy(level, ip, distance, count), out)
         == Resume(block, padded, if count == 1 then Boundary(level, ip) else Copy(level, ip, distance, count - 1),
                   out + [out[|out| - distance]])
  {
    assert Expand(out, distance, count) == Expand(out + [out[|out| - distance]], distance, count - 1);
  }

  lemma LiteralToken(block: seq<byte>, level: nat, ctrl: byte, ip: nat)
    requires ctrl < 32 && ip <= |block|
    ensures ReadToken(block, level, ctrl, ip) == Literal(ctrl + 1)
  {
  }

  /** Reading one control byte and its operands leaves what the decode yields unchanged. */
  lemma ControlStep(block: seq<byte>, padded: nat, level: nat, ctrl: byte, ip: nat, out: seq<byte>)
    requires ip <= |block|
    ensures var rest := Resume(block, padded, Control(level, ctrl, ip), out);
            match ReadToken(block, level, ctrl, ip)
            case Malformed => rest == Broken(out)
            case Literal(count) =>
              if count + |out| > padded then rest == Broken(out)
              else rest == Resume(block, padded, Run(level, ip, count), out)
            case Match(count, distance, next) =>
              if distance > |out| || count + |out| > padded then rest == Broken(out)
              else rest == Resume(block, padded, Copy(level, next, distance, count), out)
  {
  }

  /** An escape whose earlier bytes already sum to `extra`. */
  ghost function Shifted(escape: Option<(nat, nat)>, extra: nat): Option<(nat, nat)>
  {
    match escape
    case None => None
    case Some((sum, next)) => Some((sum + extra, next))
  }

  lemma ReadableRange(whole: Outcome, logical: nat, offset: nat, count: nat)
    ensures offset + count > logical ==> !Readable(whole, logical, offset, count)
    ensures offset + count <= logical && count == 0 ==> Readable(whole, logical, offset, count)
  {
  }

  lemma WindowEndBounds(position: nat, boundary: nat)
    requires boundary % WINDOW == 0
    ensures position > boundary ==> WindowEnd(position) >= boundary + WINDOW
    ensures position <= boundary ==> WindowEnd(position) <= boundary
  {
  }

  /** Ring slots of positions less than one ring apart never coincide. */
  lemma RingSlotsDiffer(p: nat, q: nat)
    requires p < q < p + HISTORY
    ensures p % HISTORY != q % HISTORY
  {
  }

  class Decoder {
    const block: seq<byte>
    const logical: nat
    const input: array<byte>
    const output: array<byte>
    const history: array<byte>
    var inputCount: nat
    var inputPos: nat
    var physicalRead: nat
    var decoded: nat
    var windowStart: nat
    var windowSize: nat
    var complete: bool
    var pending: nat
    var distance: nat
    var ctrl: byte
    var level: nat
    var literal: bool
    var started: bool
    var needCtrl: bool
    ghost var produced: seq<byte>  // every byte emitted since the last restart

    /** Input bytes consumed so far: the cursor of the reference decode. */
    function Consumed(): int
      reads this`inputCount, this`inputPos, this`physicalRead
    {
      physicalRead - (inputCount - inputPos)
    }

    function OutputSize(): nat
    {
      Padded(logical)
    }

    ghost function Whole(): Outcome
    {
      Decode(block, OutputSize())
    }

    ghost predicate Shape()
    {
      && input != output && input != history && output != history
      && input.Length == WINDOW && output.Length == WINDOW && history.Length == HISTORY
    }

    /** The input window holds the bytes before `physicalRead`. */
    ghost predicate InputOk()
      requires Shape()
      reads this`inputCount, this`inputPos, this`physicalRead, input
    {
      && inputPos <= inputCount <= WINDOW
      && inputCount <= physicalRead <= |block|
      && input[..inputCount] == block[physicalRead - inputCount..physicalRead]
    }

    /** The ring holds the last 73,728 bytes of output. */
    ghost predicate HistoryOk()
      requires Shape()
      reads this`produced, history
    {
      && forall p :: 0 <= p < |produced| && |produced| <= p + HISTORY ==> history[p % HISTORY] == produced[p]
    }

    ghost predicate WindowOk()
      requires Shape()
      reads this`windowStart, this`windowSize, this`produced, output
    {
      && windowSize <= WINDOW
      && windowStart + windowSize == |produced|
      && output[..windowSize] == produced[windowStart..]
    }

    /** Where in the reference decode the machine stands. */
    ghost function Stage(): Stage
      requires 0 <= Consumed() <= |block|
      reads this`inputCount, this`inputPos, this`physicalRead, this`started, this`pending, this`needCtrl
      reads this`level, this`ctrl, this`literal, this`distance
    {
      if !started then Fresh
      else if pending == 0 then
        if needCtrl then Boundary(level, Consumed()) else Control(level, ctrl, Consumed())
      else if literal then Run(level, Consumed(), pending)
      else Copy(level, Consumed(), distance, pending)
    }

    ghost predicate MachineOk()
      reads this
    {
      && 0 <= Consumed() <= |block|
      && decoded == |produced| <= OutputSize()
      && (!started ==> produced == [] && Consumed() == 0 && pending == 0 && !complete)
      && (started ==> |block| >= 2 && 1 <= level <= 2)
      && (pending > 0 ==> needCtrl && started && pending + |produced| <= OutputSize())
      && (pending > 0 && !literal ==> 1 <= distance <= |produced| && distance < HISTORY)
      && Resume(block, OutputSize(), Stage(), produced) == Whole()
    }

    /** What holds between the steps of a fill. */
    ghost predicate Steady()
      reads this, input, output, history
    {
      && Shape() && InputOk() && HistoryOk() && WindowOk() && MachineOk()
    }

    /** What holds between reads: windows start on multiples of 64 KiB and are full or last. */
    ghost predicate Valid()
      reads this, input, output, history
    {
      && Steady()
      && windowStart % WINDOW == 0
      && (complete || decoded % WINDOW == 0)
      && (complete ==> Whole() == FastLz.Whole(produced))
    }

    constructor (block: seq<byte>, logical: nat)
      ensures Valid() && this.block == block && this.logical == logical
      ensures fresh(input) && fresh(output) && fresh(history)
    {
      this.block, this.logical := block, logical;
      input := new byte[WINDOW](_ => 0);
      output := new byte[WINDOW](_ => 0);
      history := new byte[HISTORY](_ => 0);
      inputCount, inputPos, physicalRead := 0, 0, 0;
      decoded, windowStart, windowSize, complete := 0, 0, 0, false;
      pending, distance, ctrl, level := 0, 0, 0, 0;
      literal, started, needCtrl := false, false, false;
      produced := [];
    }

    method ResetWindows()
      modifies this`inputCount, this`inputPos, this`physicalRead, this`decoded, this`windowStart, this`windowSize
      ensures inputCount == inputPos == physicalRead == decoded == windowStart == windowSize == 0
    {
      inputCount, inputPos, physicalRead := 0, 0, 0;
      decoded, windowStart, windowSize := 0, 0, 0;
    }

    method ResetToken()
      modifies this`complete, this`pending, this`literal, this`started, this`needCtrl, this`produced
      modifies this`distance, this`ctrl, this`level
      ensures !complete && pending == 0 && !started && produced == []
    {
      complete, pending, produced := false, 0, [];
      distance, ctrl, level := 0, 0, 0;
      literal, started, needCtrl := false, false, false;
    }

    method Restart()
      requires Shape()
      modifies this
      ensures Valid() && decoded == 0 && windowStart == 0
    {
      hide Decode;
      ResetWindows();
      ResetToken();
      assert InputOk() && HistoryOk() && WindowOk();
      assert Stage() == Fresh;
    }

    method Refill()
      requires Shape() && InputOk()
      modifies this`inputCount, this`inputPos, this`physicalRead, input
      ensures InputOk() && Consumed() == old(Consumed())
      ensures inputPos == inputCount ==> physicalRead == |block|
    {
      if inputPos != inputCount || physicalRead == |block| { return; }
      inputCount := Min(|block| - physicalRead, WINDOW);
      var from := physicalRead;
      forall i | 0 <= i < inputCount { input[i] := block[from + i]; }
      physicalRead := physicalRead + inputCount;
      inputPos := 0;
    }

    /** The next byte of the block, or None at its end. */
    method FastByte() returns (b: Option<byte>)
      requires Shape() && InputOk()
      modifies this`inputCount, this`inputPos, this`physicalRead, input
      ensures InputOk()
      ensures b.Some? <==> old(Consumed()) < |block|
      ensures b.Some? ==> b.value == block[old(Consumed())] && Consumed() == old(Consumed()) + 1
      ensures b.None? ==> Consumed() == old(Consumed())
    {
      Refill();
      if inputPos == inputCount { return None; }
      assert input[..inputCount][inputPos] == block[physicalRead - inputCount..physicalRead][inputPos];
      b := Some(input[inputPos]);
      inputPos := inputPos + 1;
    }

    method FastEmit(value: byte)
      requires Shape() && HistoryOk() && WindowOk() && windowSize < WINDOW && decoded == |produced|
      modifies this`windowSize, this`decoded, this`produced, output, history
      ensures HistoryOk() && WindowOk() && decoded == |produced|
      ensures produced == old(produced) + [value] && windowSize == old(windowSize) + 1
    {
      output[windowSize] := value;
      windowSize := windowSize + 1;
      forall p | 0 <= p < |produced| && |produced| + 1 <= p + HISTORY
        ensures p % HISTORY != decoded % HISTORY
      {
        RingSlotsDiffer(p, decoded);
      }
      history[decoded % HISTORY] := value;
      decoded := decoded + 1;
      produced := produced + [value];
    }

    /** The header byte: the level, and the first control byte in its low five bits. */
    method Start() returns (ok: bool)
      requires Steady() && !started
      modifies this, input
      ensures ok ==> Steady() && started && !complete && Window() == old(Window())
      ensures !ok ==> Whole() == Broken([]) && produced == []
      ensures windowStart == old(windowStart) && windowSize == old(windowSize)
    {
      hide AtControl, HistoryOk, WindowOk;
      if |block| < 2 { return false; }
      var first := FastByte();
      level := Level(first.value);
      if level != 1 && level != 2 { return false; }
      ctrl := first.value % 32;
      started, needCtrl := true, false;
      assert MachineOk();
      return true;
    }

    /** The output already decoded: where the window starts and how far it reaches. */
    ghost function Window(): (nat, nat)
      reads this`windowStart, this`windowSize
    {
      (windowStart, windowSize)
    }

    /** One byte of a literal run, straight from the input. */
    method EmitLiteral() returns (ok: bool)
      requires Steady() && pending > 0 && literal && !complete && windowSize < WINDOW
      modifies this, input, output, history
      ensures ok ==> Steady() && started && !complete && pending == old(pending) - 1
      ensures ok ==> Window() == (old(windowStart), old(windowSize) + 1)
      ensures !ok ==> Whole() == Broken(old(produced)) && Window() == old(Window())
    {
      hide Resume, Decode, InputOk, HistoryOk, WindowOk;
      RunStep(block, OutputSize(), level, Consumed(), pending, produced);
      var b := FastByte();
      if b.None? { return false; }
      FastEmit(b.value);
      pending := pending - 1;
      return true;
    }

    /** One byte of a match, taken from the ring. */
    method EmitCopy()
      requires Steady() && pending > 0 && !literal && !complete && windowSize < WINDOW
      modifies this, input, output, history
      ensures Steady() && started && !complete && pending == old(pending) - 1
      ensures Window() == (old(windowStart), old(windowSize) + 1)
    {
      hide Resume, Decode, InputOk, WindowOk;
      CopyStep(block, OutputSize(), level, Consumed(), distance, pending, produced);
      var origin := decoded - distance;
      assert history[origin % HISTORY] == produced[|produced| - distance];
      FastEmit(history[origin % HISTORY]);
      pending := pending - 1;
    }

    /** Sums a level-2 length escape, giving up once the match cannot fit the output. */
    method LengthExtension() returns (total: Option<nat>)
      requires Shape() && InputOk() && decoded <= OutputSize()
      modifies this`inputCount, this`inputPos, this`physicalRead, input
      ensures InputOk() && Consumed() >= old(Consumed())
      ensures total.Some? ==> Extension(block, old(Consumed())) == Some((total.value, Consumed()))
      ensures total.None? ==> var escape := Extension(block, old(Consumed()));
                              escape.None? || 6 + escape.value.0 > OutputSize() - decoded
    {
      ghost var start := Consumed();
      var extension: nat, sum: nat := 255, 0;
      while extension == 255
        invariant InputOk() && start <= Consumed()
        invariant extension == 255 ==> Extension(block, start) == Shifted(Extension(block, Consumed()), sum)
        invariant extension != 255 ==> Extension(block, start) == Some((sum, Consumed()))
        decreases |block| - Consumed(), extension
      {
        var b := FastByte();
        if b.None? { return None; }
        extension := b.value;
        sum := sum + extension;
        if 6 + sum > OutputSize() - decoded { return None; }
      }
      return Some(sum);
    }

    /** The length of a match: its field, plus the escape bytes when the field is full. */
    method MatchLength(field: nat) returns (len: Option<nat>)
      requires Shape() && InputOk() && 1 <= level <= 2 && decoded <= OutputSize()
      modifies this`inputCount, this`inputPos, this`physicalRead, input
      ensures InputOk() && Consumed() >= old(Consumed())
      ensures var escape := LengthEscape(block, level, field, old(Consumed()));
              match len
              case None => escape.None? || field + escape.value.0 > OutputSize() - decoded
              case Some(n) => n >= field && escape == Some((n - field, Consumed()))
    {
      if field != 6 { return Some(field); }
      if level == 1 {
        var b := FastByte();
        if b.None? { return None; }
        return Some(field + b.value);
      }
      var total := LengthExtension();
      if total.None? { return None; }
      return Some(field + total.value);
    }

    /** The distance of a match, with the two extra bytes of a level-2 far reference. */
    method MatchDistance() returns (far: Option<nat>)
      requires Shape() && InputOk() && 32 <= ctrl && 1 <= level <= 2
      modifies this`inputCount, this`inputPos, this`physicalRead, input
      ensures InputOk()
      ensures var at := old(Consumed());
              match far
              case None => at >= |block| || (level == 2 && block[at] == 255 && ctrl % 32 == 31 && at + 3 > |block|)
              case Some(d) =>
                at < |block| &&
                if level == 2 && block[at] == 255 && ctrl % 32 == 31 then
                  at + 3 <= |block| && d == FarDistance(block[at + 1], block[at + 2]) && Consumed() == at + 3
                else d == ctrl % 32 * 256 + block[at] + 1 && Consumed() == at + 1
    {
      var code := FastByte();
      if code.None? { return None; }
      var ofs: nat := ctrl % 32 * 256;
      if level == 2 && code.value == 255 && ofs == 31 * 256 {
        var high := FastByte();
        if high.None? { return None; }
        var low := FastByte();
        if low.None? { return None; }
        return Some(FarDistance(high.value, low.value));
      }
      return Some(ofs + code.value + 1);
    }

    /** The count and distance of a match, or None when the reference decode rejects it too. */
    method ReadMatch() returns (m: Option<(nat, nat)>)
      requires Shape() && InputOk() && 32 <= ctrl && 1 <= level <= 2 && decoded <= OutputSize()
      modifies this`inputCount, this`inputPos, this`physicalRead, input
      ensures InputOk()
      ensures var token := ReadToken(block, level, ctrl, old(Consumed()));
              match m
              case None => token.Malformed? || (token.Match? && token.count > OutputSize() - decoded)
              case Some((count, distance)) => token == Match(count, distance, Consumed())
    {
      hide LengthEscape;
      var len := MatchLength(ctrl / 32 - 1);
      if len.None? { return None; }
      var far := MatchDistance();
      if far.None? { return None; }
      return Some((len.value + 3, far.value));
    }

    /** Turns the control byte and its operands into a pending run or copy. */
    method BeginToken() returns (ok: bool)
      requires Steady() && started && !complete && pending == 0 && !needCtrl
      modifies this, input
      ensures ok ==> Steady() && started && !complete && pending > 0
      ensures !ok ==> Whole() == Broken(produced)
      ensures produced == old(produced) && Window() == old(Window())
    {
      hide Resume, Decode, ReadToken, InputOk, HistoryOk, WindowOk;
      ControlStep(block, OutputSize(), level, ctrl, Consumed(), produced);
      if ctrl < 32 {
        LiteralToken(block, level, ctrl, Consumed());
        literal, pending := true, ctrl + 1;
      } else {
        var m := ReadMatch();
        if m.None? { return false; }
        literal := false;
        pending, distance := m.value.0, m.value.1;
        if distance > decoded { return false; }
      }
      if pending > OutputSize() - decoded { return false; }
      needCtrl := true;
      return true;
    }

    /** At a token boundary: the end of the block, or its next control byte. */
    method NextControl() returns (ok: bool)
      requires Steady() && started && !complete && pending == 0 && needCtrl
      modifies this, input
      ensures ok && !complete ==> Steady() && started && pending == 0 && !needCtrl
      ensures ok && complete ==> Steady() && Whole() == FastLz.Whole(produced)
      ensures !ok ==> Whole() == Broken(produced)
      ensures produced == old(produced) && Window() == old(Window())
    {
      hide Decode, AtControl, HistoryOk, WindowOk;
      var used := Consumed();
      if if level == 1 then used > |block| - 2 else used >= |block| {
        if used != |block| || decoded != OutputSize() { return false; }
        complete := true;
        return true;
      }
      var b := FastByte();
      ctrl := b.value;
      needCtrl := false;
      return true;
    }

    /** Steps left before the decode must end. */
    ghost function Measure(): int
      reads this`pending, this`needCtrl, this`produced
    {
      3 * (OutputSize() - |produced|) + if pending > 0 then 0 else if needCtrl then 2 else 1
    }

    /** One turn of the fill loop: emit a byte, or turn the next control byte into a token. */
    method Turn() returns (ok: bool)
      requires Steady() && started && !complete && windowSize < WINDOW
      modifies this, input, output, history
      ensures ok ==> Steady() && started && windowStart == old(windowStart)
      ensures ok && !complete ==> Measure() < old(Measure())
      ensures ok && complete ==> Whole() == FastLz.Whole(produced)
      ensures !ok ==> Whole().Broken? && |Whole().out| < windowStart + WINDOW && windowStart == old(windowStart)
    {
      hide Resume, Decode, InputOk, HistoryOk;
      if pending > 0 {
        if literal {
          ok := EmitLiteral();
          return;
        }
        EmitCopy();
        return true;
      }
      if needCtrl {
        ok := NextControl();
        if !ok || complete { return; }
      }
      ok := BeginToken();
    }

    /** Decodes the next output window. It fails exactly when the block breaks inside that window. */
    method Fill() returns (ok: bool)
      requires Valid() && !complete
      modifies this, input, output, history
      ensures ok ==> Valid() && windowStart == old(decoded) && (complete || windowSize == WINDOW)
      ensures !ok ==> Whole().Broken? && |Whole().out| < old(decoded) + WINDOW
    {
      hide Resume, Decode, InputOk, HistoryOk, Stage;
      windowStart, windowSize := decoded, 0;
      assert WindowOk();
      if !started {
        ok := Start();
        if !ok { return; }
      }
      while windowSize < WINDOW && !complete
        invariant Steady() && started && windowStart == old(decoded)
        invariant complete ==> Whole() == FastLz.Whole(produced)
        decreases !complete, Measure()
      {
        ok := Turn();
        if !ok { return; }
      }
      return true;
    }

    /** Drains the block; it succeeds exactly when the whole block is well formed. */
    method Finish() returns (ok: bool)
      requires Valid()
      modifies this, input, output, history
      ensures ok <==> Whole().Whole?
      ensures ok ==> Valid() && complete
    {
      hide Decode;
      while !complete
        invariant Valid()
        decreases OutputSize() - |produced|, !complete
      {
        ok := Fill();
        if !ok { return; }
      }
      return true;
    }

    lemma ShapeHolds()
      requires Valid()
      ensures Shape()
    {
    }

    /** Between reads the decoded bytes start the whole decode, and each full window is readable. */
    lemma ProducedIsReadable(offset: nat, count: nat)
      requires Valid()
      ensures produced <= Whole().out && |produced| <= OutputSize()
      ensures decoded == |produced| == windowStart + windowSize
      ensures if complete then |produced| == OutputSize() && Whole().Whole? else decoded % WINDOW == 0
      ensures 0 < count && offset + count <= |produced| && (offset + count < logical || (offset + count == logical && complete))
              ==> Readable(Whole(), logical, offset, count)
    {
      hide Decode;
      WindowEndBounds(offset + count, if complete then 0 else decoded);
    }

    /** A window that breaks makes every read that reaches it fail. */
    lemma BrokenWindowIsUnreadable(boundary: nat, offset: nat, count: nat)
      requires Whole().Broken? && |Whole().out| < boundary + WINDOW && boundary % WINDOW == 0
      requires boundary < offset + count || offset + count == logical
      requires 0 < count
      ensures !Readable(Whole(), logical, offset, count)
    {
      WindowEndBounds(offset + count, boundary);
    }

    lemma SliceJoin(s: seq<byte>, i: nat, j: nat, k: nat)
      requires i <= j <= k <= |s|
      ensures s[i..j] + s[j..k] == s[i..k]
    {
    }

    /** Copies what the present window holds of the bytes at `position`. */
    method CopyWindow(position: nat, count: nat) returns (bytes: seq<byte>)
      requires Valid() && windowStart <= position < windowStart + windowSize && count > 0
      ensures 0 < |bytes| <= count && position + |bytes| <= |produced|
      ensures |produced| <= |Whole().out| && bytes == Whole().out[position..position + |bytes|]
    {
      hide InputOk, HistoryOk, MachineOk, Decode;
      ProducedIsReadable(0, 0);
      var within := position - windowStart;
      var amount := Min(count, windowSize - within);
      SliceOfTake(output[..], windowSize, within, within + amount);
      SliceOfSlice(produced, windowStart, |produced|, within, within + amount);
      bytes := output[within..within + amount];
    }

    /** Decodes the window a read goes on in; when it breaks, the read was not to be had. */
    method FillFor(offset: nat, count: nat) returns (ok: bool)
      requires Valid() && !complete && 0 < count
      requires decoded < offset + count || offset + count == logical
      modifies this, input, output, history
      ensures ok ==> Valid() && windowStart == old(decoded)
      ensures ok ==> OutputSize() - |produced| < old(OutputSize() - |produced|) || complete
      ensures !ok ==> !Readable(Whole(), logical, offset, count)
    {
      hide Readable, Valid, Decode;
      ProducedIsReadable(offset, count);
      ghost var boundary := decoded;
      ok := Fill();
      if !ok {
        BrokenWindowIsUnreadable(boundary, offset, count);
        return;
      }
      ProducedIsReadable(offset, count);
    }

    /** Copies window after window until the read is complete or a window breaks. */
    method Gather(offset: nat, count: nat) returns (r: Option<seq<byte>>)
      requires Valid() && 0 < count && offset + count <= logical && windowStart <= offset
      modifies this, input, output, history
      ensures r.Some? ==> Valid() && offset + count <= |produced| <= |Whole().out|
      ensures r.Some? ==> r.value == Whole().out[offset..offset + count]
      ensures r.None? ==> !Readable(Whole(), logical, offset, count)
    {
      hide Readable, Valid, Decode, Whole;
      ghost var whole := Whole();
      var copied: seq<byte> := [];
      ProducedIsReadable(offset, count);
      while |copied| < count
        invariant Valid() && |copied| <= count && windowStart <= offset + |copied|
        invariant windowStart + windowSize == |produced| <= |whole.out|
        invariant copied != [] ==> offset + |copied| <= |produced| && copied == whole.out[offset..offset + |copied|]
        decreases count - |copied|, OutputSize() - |produced|
      {
        ProducedIsReadable(offset, count);
        var position := offset + |copied|;
        if position < windowStart + windowSize {
          var bytes := CopyWindow(position, count - |copied|);
          SliceJoin(whole.out, offset, position, position + |bytes|);
          copied := copied + bytes;
        } else {
          var ok := FillFor(offset, count);
          if !ok { return None; }
          ProducedIsReadable(offset, count);
        }
      }
      return Some(copied);
    }

    /** Random access: `count` bytes at `offset`, restarting the decode for a backward read. */
    method Read(offset: nat, count: nat) returns (r: Option<seq<byte>>)
      requires Valid()
      modifies this, input, output, history
      ensures r.Some? <==> Readable(Whole(), logical, offset, count)
      ensures r.Some? && count == 0 ==> Valid() && r.value == []
      ensures r.Some? && count > 0 ==> Valid() && offset + count <= |Whole().out|
      ensures r.Some? && count > 0 ==> r.value == Whole().out[offset..offset + count]
      ensures r.Some? && count > 0 && offset + count == logical ==> complete
    {
      hide Readable, Valid, Decode, Whole;
      ReadableRange(Whole(), logical, offset, count);
      if offset + count > logical { return None; }
      if count == 0 { return Some([]); }
      if offset < windowStart { ShapeHolds(); Restart(); }
      r := Gather(offset, count);
      if r.None? { return; }
      ProducedIsReadable(offset, count);
      if offset + count == logical && !complete {
        var ok := FillFor(offset, count);
        if !ok { return None; }
        ProducedIsReadable(offset, count);
      }
    }
  }
}
