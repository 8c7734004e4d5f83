/** The page writer: each packet fills whole pages of 255 segments, and its end closes a page. */
module OggWriter {
  import opened Bytes
  import opened Ogg

  const SEGMENTS := 255
  const BODY := 65025  // 255 segments of 255 bytes

  /** A packet as the caller locates it: its bytes and its granule position, or -1 when unknown. */
  datatype Source = Source(data: seq<byte>, granule: int64)

  type int64 = x: int | -0x8000_0000_0000_0000 <= x < 0x8000_0000_0000_0000

  datatype Limits = Limits(maxInput: nat, maxOutput: nat, maxPackets: nat)

  // ---- the pages a packet list becomes

  /** The lacing values of a page from segment `segments` on, for a packet with `remaining` bytes left. */
  function Lacing(remaining: nat, segments: nat): (l: seq<byte>)
    requires segments <= SEGMENTS
    ensures |l| <= SEGMENTS - segments
    decreases SEGMENTS - segments
  {
    if segments == SEGMENTS then []
    else if remaining < 255 then [remaining]
    else [255] + Lacing(remaining - 255, segments + 1)
  }

  lemma {:induction false} LacingSum(remaining: nat, segments: nat)
    requires segments <= SEGMENTS
    ensures Sum(Lacing(remaining, segments)) == Min(remaining, 255 * (SEGMENTS - segments))
    decreases SEGMENTS - segments
  {
    if segments < SEGMENTS && remaining >= 255 {
      LacingSum(remaining - 255, segments + 1);
    } else if segments < SEGMENTS {
      assert Sum([]) == 0;
    }
  }

  lemma SplitFirst(lacing: seq<byte>, body: seq<byte>, size: byte, ended: seq<seq<byte>>, tail: Option<seq<byte>>)
    requires lacing != [] && lacing[0] == size && |body| == Sum(lacing)
    requires Split(lacing[1..], body[size..]) == (ended, tail)
    ensures Split(lacing, body)
         == if size < 255 then ([body[..size]] + ended, tail)
            else if ended != [] then ([body[..size] + ended[0]] + ended[1..], tail)
            else if tail.Some? then ([], Some(body[..size] + tail.value))
            else ([], Some(body[..size]))
  {
  }

  /** A page either ends its one packet with a segment below 255, or is full and leaves it open. */
  lemma {:induction false} LacingSplits(remaining: nat, segments: nat, body: seq<byte>)
    requires segments < SEGMENTS && |body| == Sum(Lacing(remaining, segments))
    ensures Split(Lacing(remaining, segments), body)
         == if remaining < 255 * (SEGMENTS - segments) then ([body], None) else ([], Some(body))
    decreases SEGMENTS - segments
  {
    LacingSum(remaining, segments);
    var lacing := Lacing(remaining, segments);
    if remaining < 255 {
      assert lacing[1..] == [] && body[..remaining] == body && body[remaining..] == [];
      assert [body] + [] == [body];
      SplitFirst(lacing, body, remaining, [], None);
    } else {
      assert lacing[1..] == Lacing(remaining - 255, segments + 1);
      assert body[..255] + body[255..] == body;
      if segments + 1 < SEGMENTS {
        LacingSplits(remaining - 255, segments + 1, body[255..]);
        if remaining < 255 * (SEGMENTS - segments) {
          SplitFirst(lacing, body, 255, [body[255..]], None);
          assert [body[255..]][1..] == [] && [body] + [] == [body];
        } else {
          SplitFirst(lacing, body, 255, [], Some(body[255..]));
        }
      } else {
        assert body[255..] == [] && body[..255] == body;
        SplitFirst(lacing, body, 255, [], None);
      }
    }
  }

  /** The granule a finished packet carries: the first packet's unknown position becomes zero. */
  function Granule(index: nat, source: Source): int
  {
    if index == 0 && source.granule < 0 then 0 else source.granule
  }

  /** The pages of one packet from `offset` on; the first of them is page `number`. */
  function PacketPages(source: Source, index: nat, final: bool, offset: nat, number: nat): (pages: seq<Page>)
    requires offset <= |source.data|
    ensures |pages| == (|source.data| - offset) / BODY + 1
    decreases |source.data| - offset
  {
    var remaining := |source.data| - offset;
    if remaining < BODY then
      [Page(offset > 0, number == 0, final, Granule(index, source), number, Lacing(remaining, 0), source.data[offset..])]
    else
      [Page(offset > 0, number == 0, false, -1, number, Lacing(remaining, 0), source.data[offset..offset + BODY])]
      + PacketPages(source, index, final, offset + BODY, number + 1)
  }

  /** The pages of packets `index` onward. */
  function Pages(sources: seq<Source>, index: nat, number: nat): (pages: seq<Page>)
    requires index <= |sources|
    ensures index < |sources| ==> pages != []
    decreases |sources| - index
  {
    if index == |sources| then []
    else
      var own := PacketPages(sources[index], index, index + 1 == |sources|, 0, number);
      own + Pages(sources, index + 1, number + |own|)
  }

  /** What a demultiplexer should recover. */
  function Expected(sources: seq<Source>, index: nat): seq<Packet>
    requires index <= |sources|
    decreases |sources| - index
  {
    if index == |sources| then []
    else [Packet(sources[index].data, Granule(index, sources[index]))] + Expected(sources, index + 1)
  }

  // ---- the pages demultiplex to the packets

  lemma {:induction false} OnWireConcat(a: seq<Page>, b: seq<Page>)
    ensures OnWire(a + b) == OnWire(a) + OnWire(b)
  {
    if a == [] {
      assert a + b == b;
    } else {
      assert (a + b)[1..] == a[1..] + b;
      OnWireConcat(a[1..], b);
    }
  }

  lemma {:induction false} OnWireLength(pages: seq<Page>)
    ensures |OnWire(pages)| == |pages|
  {
    if pages != [] { OnWireLength(pages[1..]); }
  }

  /** The bytes of a packet already seen, when it is under way. */
  function Seen(data: seq<byte>, offset: nat): Option<seq<byte>>
    requires offset <= |data|
  {
    if offset == 0 then None else Some(data[..offset])
  }

  lemma OnWireHead(page: Page, rest: seq<Page>)
    ensures OnWire([page] + rest) == [page.(number := page.number % U32_SPAN)] + OnWire(rest)
  {
    assert ([page] + rest)[1..] == rest;
  }

  /** How the demultiplexer takes one page that holds part of one packet. */
  lemma DemuxHead(page: Page, rest: seq<Page>, number: nat, partial: Option<seq<byte>>,
                  joined: (seq<seq<byte>>, Option<seq<byte>>))
    requires page.number == number && page.first == (number == 0) && page.last == (rest == [])
    requires page.continued == partial.Some? && Sum(page.lacing) == |page.body|
    requires var (ended, tail) := Split(page.lacing, page.body); joined == Join(partial, ended, tail)
    requires joined.0 == [] ==> page.granule == -1
    ensures Demux(OnWire([page] + rest), number, partial)
         == match Demux(OnWire(rest), number + 1, joined.1)
            case None => None
            case Some(more) => Some(Stamp(joined.0, page.granule) + more)
  {
    hide Split, Join, Stamp, Sum;
    OnWireHead(page, rest);
    OnWireLength(rest);
    var wire := OnWire([page] + rest);
    assert wire[1..] == OnWire(rest);
  }

  /** A page that ends its packet yields the whole packet. */
  lemma PageEnds(source: Source, index: nat, final: bool, offset: nat, number: nat, rest: seq<Page>)
    requires offset <= |source.data| < offset + BODY && (final <==> rest == [])
    ensures Demux(OnWire(PacketPages(source, index, final, offset, number) + rest), number, Seen(source.data, offset))
         == match Demux(OnWire(rest), number + 1, None)
            case None => None
            case Some(more) => Some([Packet(source.data, Granule(index, source))] + more)
  {
    hide Demux, OnWire, Split, Lacing;
    var data := source.data;
    var page := PacketPages(source, index, final, offset, number)[0];
    LacingSum(|data| - offset, 0);
    LacingSplits(|data| - offset, 0, page.body);
    assert data[..offset] + data[offset..] == data;
    var single, none: seq<seq<byte>> := [data], [];
    assert [page.body][1..] == none && single + none == single;
    var packet := Packet(data, page.granule);
    assert single[1..] == none && Stamp([data], page.granule) == [packet];
    DemuxHead(page, rest, number, Seen(data, offset), ([data], None));
  }

  /** A full page leaves its packet open. */
  lemma PageContinues(source: Source, index: nat, final: bool, offset: nat, number: nat, rest: seq<Page>)
    requires offset + BODY <= |source.data| && (final <==> rest == [])
    ensures Demux(OnWire(PacketPages(source, index, final, offset, number) + rest), number, Seen(source.data, offset))
         == Demux(OnWire(PacketPages(source, index, final, offset + BODY, number + 1) + rest), number + 1,
                  Seen(source.data, offset + BODY))
  {
    hide Demux, OnWire, Split, Lacing;
    var data := source.data;
    var pages := PacketPages(source, index, final, offset, number);
    var page := pages[0];
    var tail := PacketPages(source, index, final, offset + BODY, number + 1) + rest;
    LacingSum(|data| - offset, 0);
    LacingSplits(|data| - offset, 0, page.body);
    assert data[..offset] + page.body == data[..offset + BODY];
    assert pages + rest == [page] + tail;
    DemuxHead(page, tail, number, Seen(data, offset), ([], Some(data[..offset + BODY])));
    var after := Demux(OnWire(tail), number + 1, Some(data[..offset + BODY]));
    assert after.Some? ==> [] + after.value == after.value;
  }

  lemma {:induction false} PacketDemux(source: Source, index: nat, final: bool, offset: nat, number: nat, rest: seq<Page>)
    requires offset <= |source.data| && (final <==> rest == [])
    ensures var pages := PacketPages(source, index, final, offset, number);
            Demux(OnWire(pages + rest), number, Seen(source.data, offset))
            == match Demux(OnWire(rest), number + |pages|, None)
               case None => None
               case Some(more) => Some([Packet(source.data, Granule(index, source))] + more)
    decreases |source.data| - offset
  {
    hide Demux, OnWire, Granule, Lacing;
    if |source.data| - offset < BODY {
      PageEnds(source, index, final, offset, number, rest);
    } else {
      PageContinues(source, index, final, offset, number, rest);
      PacketDemux(source, index, final, offset + BODY, number + 1, rest);
    }
  }

  lemma NoPages(number: nat)
    ensures Demux(OnWire([]), number, None) == Some([])
  {
  }

  lemma {:induction false} PagesDemux(sources: seq<Source>, index: nat, number: nat)
    requires index <= |sources|
    ensures Demux(OnWire(Pages(sources, index, number)), number, None) == Some(Expected(sources, index))
    decreases |sources| - index
  {
    hide PacketPages, Granule, Demux, OnWire;
    if index == |sources| {
      NoPages(number);
    } else {
      var final := index + 1 == |sources|;
      var own := PacketPages(sources[index], index, final, 0, number);
      PacketDemux(sources[index], index, final, 0, number, Pages(sources, index + 1, number + |own|));
      PagesDemux(sources, index + 1, number + |own|);
    }
  }

  // ---- what the writer checks and produces

  function TotalInput(sources: seq<Source>): nat
  {
    if sources == [] then 0 else TotalInput(sources[..|sources| - 1]) + |sources[|sources| - 1].data|
  }

  /** Known granule positions never decrease. */
  predicate Monotonic(sources: seq<Source>)
  {
    && (forall i :: 0 <= i < |sources| ==> sources[i].granule >= -1)
    && forall i, j :: 0 <= i < j < |sources| && sources[i].granule >= 0 && sources[j].granule >= 0 ==>
         sources[i].granule <= sources[j].granule
  }

  predicate Acceptable(sources: seq<Source>, limits: Limits)
  {
    && 0 < |sources| <= limits.maxPackets && sources[0].granule <= 0
    && TotalInput(sources) <= limits.maxInput && Monotonic(sources)
  }

  /** The first page of what is left of a packet, and the pages after it. */
  lemma PageOfPacket(source: Source, index: nat, final: bool, offset: nat, number: nat)
    requires offset <= |source.data| && source.granule >= -1
    ensures var pages := PacketPages(source, index, final, offset, number);
            && PageOk(pages[0])
            && if |source.data| - offset < BODY then pages == [pages[0]]
               else pages == [pages[0]] + PacketPages(source, index, final, offset + BODY, number + 1)
  {
    hide Sum, Lacing;
    LacingSum(|source.data| - offset, 0);
  }

  lemma {:induction false} PacketPagesOk(source: Source, index: nat, final: bool, offset: nat, number: nat)
    requires offset <= |source.data| && source.granule >= -1
    ensures forall p :: p in PacketPages(source, index, final, offset, number) ==> PageOk(p)
    decreases |source.data| - offset
  {
    hide PageOk, PacketPages;
    PageOfPacket(source, index, final, offset, number);
    if |source.data| - offset >= BODY { PacketPagesOk(source, index, final, offset + BODY, number + 1); }
  }

  lemma AllOkConcat(a: seq<Page>, b: seq<Page>)
    requires (forall p :: p in a ==> PageOk(p)) && forall p :: p in b ==> PageOk(p)
    ensures forall p :: p in a + b ==> PageOk(p)
  {
    hide PageOk;
  }

  lemma {:induction false} PagesOk(sources: seq<Source>, index: nat, number: nat)
    requires index <= |sources| && Monotonic(sources)
    ensures forall p :: p in Pages(sources, index, number) ==> PageOk(p)
    decreases |sources| - index
  {
    hide PageOk, PacketPages;
    if index < |sources| {
      var own := PacketPages(sources[index], index, index + 1 == |sources|, 0, number);
      PacketPagesOk(sources[index], index, index + 1 == |sources|, 0, number);
      PagesOk(sources, index + 1, number + |own|);
      AllOkConcat(own, Pages(sources, index + 1, number + |own|));
    }
  }

  /** The stream a list of packets is written as. */
  function Stream(crc: Checksum, sources: seq<Source>): seq<byte>
    requires Monotonic(sources)
  {
    PagesOk(sources, 0, 0);
    EncodePages(crc, Pages(sources, 0, 0))
  }

  lemma {:induction false} ExpectedAt(sources: seq<Source>, index: nat, k: nat)
    requires index <= |sources|
    ensures |Expected(sources, index)| == |sources| - index
    ensures index <= k < |sources| ==>
              Expected(sources, index)[k - index]
              == Packet(sources[k].data, if k == 0 && sources[k].granule < 0 then 0 else sources[k].granule)
    decreases |sources| - index
  {
    if index < |sources| { ExpectedAt(sources, index + 1, k); }
  }

  /**
   A demultiplexer recovers exactly the packets and granules that were written, packet by packet; only
   the first packet's unknown granule reads as zero.
   */
  lemma StreamDemuxes(crc: Checksum, sources: seq<Source>)
    requires Monotonic(sources)
    ensures var r := DemuxStream(crc, Stream(crc, sources));
            && r == Some(Expected(sources, 0)) && |r.value| == |sources|
            && forall k :: 0 <= k < |sources| ==>
                 && r.value[k].data == sources[k].data
                 && r.value[k].granule == if k == 0 && sources[k].granule < 0 then 0 else sources[k].granule
  {
    ExpectedAt(sources, 0, 0);
    forall k | 0 <= k < |sources|
      ensures Expected(sources, 0)[k]
              == Packet(sources[k].data, if k == 0 && sources[k].granule < 0 then 0 else sources[k].granule)
    {
      ExpectedAt(sources, 0, k);
    }
    PagesOk(sources, 0, 0);
    PagesRoundTrip(crc, Pages(sources, 0, 0));
    PagesDemux(sources, 0, 0);
  }

  /** A packet takes one page for each full 65025 bytes and one more, even at an exact multiple. */
  lemma PageCount(source: Source, index: nat, final: bool, number: nat)
    ensures |PacketPages(source, index, final, 0, number)| == |source.data| / BODY + 1
  {
  }

  // ---- framing one page in place

  /** The fields of a header in an array prefix make the header. */
  lemma HeaderFromFields(p: Page, crc: u32, h: seq<byte>)
    requires PageOk(p) && |h| == HEADER + |p.lacing|
    requires h[..4] == MAGIC && h[4] == 0 && h[5] == Flags(p) && h[14..18] == [0, 0, 0, 0]
    requires h[6..14] == LittleEndian(GranuleField(p.granule), 8)
    requires h[18..22] == LittleEndian(p.number % U32_SPAN, 4)
    requires h[22..26] == LittleEndian(crc, 4) && h[26] == |p.lacing| && h[HEADER..] == p.lacing
    ensures h == Header(p, crc)
  {
    hide LittleEndian;
    assert h == h[..4] + [h[4], h[5]] + h[6..14] + h[14..18] + h[18..22] + h[22..26] + [h[26]] + h[HEADER..];
  }

  /** Writes the low bytes of a value, least significant first. */
  method PutLe(header: array<byte>, start: nat, value: nat, count: nat)
    requires start + count <= header.Length
    modifies header
    ensures header[..] == old(header[..start]) + LittleEndian(value, count) + old(header[start + count..])
  {
    var rest, i := value, 0;
    while i < count
      invariant i <= count
      invariant header[start..start + i] + LittleEndian(rest, count - i) == LittleEndian(value, count)
      invariant header[..start] == old(header[..start]) && header[start + count..] == old(header[start + count..])
    {
      ghost var before := header[start..start + i];
      header[start + i] := rest % 256;
      assert header[start..start + i + 1] == before + [rest % 256];
      rest := rest / 256;
      i := i + 1;
    }
    assert header[..] == header[..start] + header[start..start + count] + header[start + count..];
  }

  /** Writes the lacing values of one page; the last is below 255 exactly when the packet ends. */
  method PutLacing(header: array<byte>, remaining: nat) returns (segments: nat, size: nat, complete: bool)
    requires header.Length == HEADER + SEGMENTS
    modifies header
    ensures segments == |Lacing(remaining, 0)| <= SEGMENTS && size == Min(remaining, BODY)
    ensures complete <==> remaining < BODY
    ensures header[HEADER..HEADER + segments] == Lacing(remaining, 0) && header[..HEADER] == old(header[..HEADER])
  {
    hide Sum, Lacing;
    segments, size, complete := 0, 0, false;
    var left: nat := remaining;
    ghost var laced: seq<byte> := [];
    while segments < SEGMENTS
      invariant segments <= SEGMENTS && !complete && size == 255 * segments && size + left == remaining
      invariant header[..HEADER] == old(header[..HEADER]) && header[HEADER..HEADER + segments] == laced
      invariant laced + Lacing(left, segments) == Lacing(remaining, 0)
    {
      LacingStep(left, segments);
      var take: byte := Min(left, 255);
      PutByte(header, HEADER + segments, take);
      LacingMoves(laced, take, left, segments);
      laced := laced + [take];
      segments := segments + 1;
      size := size + take;
      left := left - take;
      if take < 255 {
        complete := true;
        break;
      }
    }
    if !complete { LacingEnd(left); }
  }

  method PutByte(header: array<byte>, at: nat, value: byte)
    requires HEADER <= at < header.Length
    modifies header
    ensures header[..HEADER] == old(header[..HEADER])
    ensures header[HEADER..at + 1] == old(header[HEADER..at]) + [value]
  {
    header[at] := value;
  }

  lemma LacingMoves(laced: seq<byte>, take: byte, left: nat, segments: nat)
    requires segments < SEGMENTS && take == Min(left, 255)
    ensures laced + Lacing(left, segments)
         == if take < 255 then laced + [take] else laced + [take] + Lacing(left - 255, segments + 1)
  {
    LacingStep(left, segments);
  }

  lemma LacingStep(left: nat, segments: nat)
    requires segments < SEGMENTS
    ensures Lacing(left, segments) == if left < 255 then [left] else [255] + Lacing(left - 255, segments + 1)
  {
  }

  lemma LacingEnd(left: nat)
    ensures Lacing(left, SEGMENTS) == []
  {
  }

  /** The fixed fields of a header: what is written around the lacing values. */
  ghost predicate FieldsAre(h: seq<byte>, p: Page, crc: u32)
    requires PageOk(p)
  {
    && |h| >= HEADER
    && h[..4] == MAGIC && h[4] == 0 && h[5] == Flags(p) && h[14..18] == [0, 0, 0, 0]
    && h[6..14] == LittleEndian(GranuleField(p.granule), 8)
    && h[18..22] == LittleEndian(p.number % U32_SPAN, 4)
    && h[22..26] == LittleEndian(crc, 4) && h[26] == |p.lacing|
  }

  method PutMagic(header: array<byte>, flags: byte)
    requires header.Length >= 6 && header[4] == 0
    modifies header
    ensures header[..] == MAGIC + [0, flags] + old(header[6..])
  {
    header[0], header[1], header[2], header[3] := MAGIC[0], MAGIC[1], MAGIC[2], MAGIC[3];
    header[5] := flags;
  }

  /** Fills the fixed fields around the lacing values; the checksum field is left zero. */
  method PutFields(header: array<byte>, ghost p: Page, flags: byte, granule: int, number: nat, segments: byte)
    requires PageOk(p) && header.Length == HEADER + SEGMENTS && header[..HEADER] == seq(HEADER, _ => 0)
    requires flags == Flags(p) && granule == p.granule >= -1 && number == p.number && segments == |p.lacing|
    modifies header
    ensures FieldsAre(header[..], p, 0) && header[HEADER..] == old(header[HEADER..])
  {
    hide LittleEndian, PageOk, Flags;
    ghost var rest := header[HEADER..];
    ghost var zeros := seq(HEADER, _ => 0);
    assert header[4] == header[..HEADER][4] == 0;
    assert header[6..] == zeros[6..] + rest;
    PutMagic(header, flags);
    ghost var h1 := header[..];
    PutLe(header, 6, GranuleField(granule), 8);
    assert header[..] == h1[..6] + LittleEndian(GranuleField(granule), 8) + h1[14..];
    ghost var h2 := header[..];
    PutLe(header, 18, number % U32_SPAN, 4);
    assert header[..] == h2[..18] + LittleEndian(number % U32_SPAN, 4) + h2[22..];
    ghost var h3 := header[..];
    header[26] := segments;
    assert header[..] == h3[26 := segments];
    assert zeros[6..] == seq(21, _ => 0) && h1 == MAGIC + [0, flags] + seq(21, _ => 0) + rest;
    FieldsWritten(p, flags, segments, rest, h1, h2, h3);
  }

  lemma FieldsWritten(p: Page, flags: byte, segments: byte, rest: seq<byte>, h1: seq<byte>, h2: seq<byte>, h3: seq<byte>)
    requires PageOk(p) && p.granule >= -1 && flags == Flags(p) && segments == |p.lacing|
    requires h1 == MAGIC + [0, flags] + seq(21, _ => 0) + rest
    requires h2 == h1[..6] + LittleEndian(GranuleField(p.granule), 8) + h1[14..]
    requires h3 == h2[..18] + LittleEndian(p.number % U32_SPAN, 4) + h2[22..]
    ensures FieldsAre(h3[26 := segments], p, 0) && h3[26 := segments][HEADER..] == rest
  {
    hide LittleEndian, PageOk, Flags, GranuleField;
    ZeroBytes();
    var g, k := LittleEndian(GranuleField(p.granule), 8), LittleEndian(p.number % U32_SPAN, 4);
    assert h2 == MAGIC + [0, flags] + g + seq(13, _ => 0) + rest;
    assert h3 == MAGIC + [0, flags] + g + [0, 0, 0, 0] + k + seq(5, _ => 0) + rest;
    var h := h3[26 := segments];
    assert h == MAGIC + [0, flags] + g + [0, 0, 0, 0] + k + [0, 0, 0, 0] + [segments] + rest;
    assert h[..4] == MAGIC && h[6..14] == g && h[14..18] == [0, 0, 0, 0] && h[18..22] == k;
    assert h[22..26] == [0, 0, 0, 0] && h[HEADER..] == rest;
  }

  /** Sets the checksum of a framed page. */
  method SetChecksum(header: array<byte>, ghost p: Page, crc: Checksum, segments: nat, body: seq<byte>)
    requires PageOk(p) && header.Length == HEADER + SEGMENTS && segments == |p.lacing| && body == p.body
    requires FieldsAre(header[..], p, 0) && header[HEADER..HEADER + segments] == p.lacing
    modifies header
    ensures header[..HEADER + segments] + body == EncodePage(crc, p)
  {
    hide LittleEndian, PageOk, Flags, Sum;
    var n := HEADER + segments;
    PrefixFields(header[..], p, 0, n);
    HeaderFromFields(p, 0, header[..n]);
    var check := crc(header[..n] + body);
    ghost var before := header[..];
    PutLe(header, 22, check, 4);
    ghost var h := header[..];
    assert h == before[..22] + LittleEndian(check, 4) + before[26..];
    FieldsKept(before, h, p, check, n);
    HeaderFromFields(p, check, header[..n]);
  }

  lemma PrefixFields(h: seq<byte>, p: Page, crc: u32, n: nat)
    requires PageOk(p) && FieldsAre(h, p, crc) && HEADER <= n <= |h|
    ensures FieldsAre(h[..n], p, crc) && h[..n][HEADER..] == h[HEADER..n]
  {
    hide LittleEndian, PageOk, Flags, GranuleField;
    var k := h[..n];
    assert k[..4] == h[..4] && k[6..14] == h[6..14] && k[14..18] == h[14..18] && k[18..22] == h[18..22];
    assert k[22..26] == h[22..26];
  }

  /** Replacing the checksum field leaves every other field alone. */
  lemma FieldsKept(before: seq<byte>, h: seq<byte>, p: Page, crc: u32, n: nat)
    requires PageOk(p) && FieldsAre(before, p, 0) && |h| == |before| && HEADER <= n <= |h|
    requires h[22..26] == LittleEndian(crc, 4)
    requires forall i :: 0 <= i < |h| && !(22 <= i < 26) ==> h[i] == before[i]
    ensures FieldsAre(h[..n], p, crc) && h[..n][HEADER..] == before[HEADER..n]
  {
    hide LittleEndian, PageOk, Flags, GranuleField;
    assert h[..4] == before[..4] && h[6..14] == before[6..14] && h[14..18] == before[14..18];
    assert h[18..22] == before[18..22] && h[HEADER..n] == before[HEADER..n];
    PrefixFields(h, p, crc, n);
  }

  /** Frames the next page of a packet in the two fixed buffers. */
  method FramePage(crc: Checksum, header: array<byte>, body: array<byte>, source: Source, index: nat, final: bool,
                   offset: nat, number: nat) returns (segments: nat, size: nat, complete: bool)
    requires header != body && header.Length == HEADER + SEGMENTS && body.Length == BODY
    requires offset <= |source.data| && source.granule >= -1
    modifies header, body
    ensures var page := PacketPages(source, index, final, offset, number)[0];
            && PageOk(page) && segments <= SEGMENTS && size == Min(|source.data| - offset, BODY)
            && (complete <==> |source.data| - offset < BODY)
            && header[..HEADER + segments] + body[..size] == EncodePage(crc, page)
  {
    hide LittleEndian, Sum, Lacing, EncodePage;
    PageOfPacket(source, index, final, offset, number);
    ghost var page := PacketPages(source, index, final, offset, number)[0];
    forall i | 0 <= i < header.Length { header[i] := 0; }
    segments, size, complete := PutLacing(header, |source.data| - offset);
    ghost var lacing := header[HEADER..HEADER + segments];
    var flags: byte := (if offset == 0 then 0 else 1) + (if number == 0 then 2 else 0)
                       + (if complete && final then 4 else 0);
    var granule := if complete then Granule(index, source) else -1;
    PutFields(header, page, flags, granule, number, segments);
    assert header[HEADER..HEADER + segments] == header[HEADER..][..segments] == lacing;
    var data := source.data[offset..offset + size];
    forall i | 0 <= i < size { body[i] := data[i]; }
    assert body[..size] == data;
    SetChecksum(header, page, crc, segments, data);
  }

  // ---- the writer

  datatype Status = Written | BadGeometry | InputOverBudget | BadGranule | OutputOverBudget

  lemma TotalInputGrows(sources: seq<Source>, n: nat)
    requires n < |sources|
    ensures TotalInput(sources[..n + 1]) == TotalInput(sources[..n]) + |sources[n].data|
  {
    assert sources[..n + 1][..n] == sources[..n];
  }

  lemma {:induction false} TotalInputMonotone(sources: seq<Source>, n: nat)
    requires n <= |sources|
    ensures TotalInput(sources[..n]) <= TotalInput(sources)
    decreases |sources| - n
  {
    if n < |sources| {
      TotalInputGrows(sources, n);
      TotalInputMonotone(sources, n + 1);
    } else {
      assert sources[..n] == sources;
    }
  }

  /** Known granules among the first `n` packets are in order and at most `previous`. */
  ghost predicate OrderedTo(sources: seq<Source>, n: nat, previous: int)
    requires n <= |sources|
  {
    && previous >= -1
    && (forall i :: 0 <= i < n ==> -1 <= sources[i].granule <= previous)
    && (forall i, j :: 0 <= i < j < n && sources[i].granule >= 0 && sources[j].granule >= 0 ==>
          sources[i].granule <= sources[j].granule)
    && (previous >= 0 ==> exists i :: 0 <= i < n && sources[i].granule == previous)
  }

  lemma OrderedStep(sources: seq<Source>, n: nat, previous: int)
    requires n < |sources| && OrderedTo(sources, n, previous)
    ensures var granule := sources[n].granule;
            if granule < -1 || (granule >= 0 && previous >= 0 && granule < previous) then !Monotonic(sources)
            else OrderedTo(sources, n + 1, if granule >= 0 then granule else previous)
  {
    var granule := sources[n].granule;
    if granule >= 0 {
      assert 0 <= n < n + 1 && sources[n].granule == granule;
    }
  }

  lemma OrderedToEnd(sources: seq<Source>, previous: int)
    requires OrderedTo(sources, |sources|, previous)
    ensures Monotonic(sources)
  {
  }

  /** Every budget and granule the caller controls, checked before any page is framed. */
  method Validate(sources: seq<Source>, limits: Limits) returns (status: Status)
    ensures status.Written? <==> Acceptable(sources, limits)
    ensures !status.OutputOverBudget?
  {
    hide OrderedTo, Monotonic;
    if |sources| == 0 || |sources| > limits.maxPackets || sources[0].granule > 0 { return BadGeometry; }
    var total := 0;
    var previous := -1;
    var n := 0;
    assert OrderedTo(sources, 0, -1) by { OrderedAtStart(sources); }
    while n < |sources|
      invariant n <= |sources| && total == TotalInput(sources[..n]) <= limits.maxInput
      invariant OrderedTo(sources, n, previous)
    {
      TotalInputGrows(sources, n);
      TotalInputMonotone(sources, n + 1);
      if |sources[n].data| > limits.maxInput - total { return InputOverBudget; }
      total := total + |sources[n].data|;
      var granule := sources[n].granule;
      OrderedStep(sources, n, previous);
      if granule < -1 || (granule >= 0 && previous >= 0 && granule < previous) { return BadGranule; }
      if granule >= 0 { previous := granule; }
      n := n + 1;
    }
    OrderedToEnd(sources, previous);
    assert sources[..n] == sources;
    return Written;
  }

  lemma OrderedAtStart(sources: seq<Source>)
    ensures OrderedTo(sources, 0, -1)
  {
  }

  /** What remains to be written from a point inside packet `index`. */
  ghost function Rest(sources: seq<Source>, index: nat, offset: nat, number: nat): seq<Page>
    requires index < |sources| && offset <= |sources[index].data|
  {
    var own := PacketPages(sources[index], index, index + 1 == |sources|, offset, number);
    own + Pages(sources, index + 1, number + |own|)
  }

  /** The pages behind the next one. */
  ghost function After(sources: seq<Source>, index: nat, offset: nat, number: nat): seq<Page>
    requires index < |sources| && offset <= |sources[index].data|
  {
    if |sources[index].data| - offset < BODY then Pages(sources, index + 1, number + 1) else Rest(sources, index, offset + BODY, number + 1)
  }

  lemma RestOk(sources: seq<Source>, index: nat, offset: nat, number: nat)
    requires index < |sources| && offset <= |sources[index].data| && Monotonic(sources)
    ensures forall p :: p in Rest(sources, index, offset, number) ==> PageOk(p)
  {
    hide PageOk, PacketPages, Pages;
    var final := index + 1 == |sources|;
    var own := PacketPages(sources[index], index, final, offset, number);
    PacketPagesOk(sources[index], index, final, offset, number);
    PagesOk(sources, index + 1, number + |own|);
    AllOkConcat(own, Pages(sources, index + 1, number + |own|));
  }

  /** Writing one page moves on to the rest of the packet, or to the next packet. */
  lemma RestStep(crc: Checksum, sources: seq<Source>, index: nat, offset: nat, number: nat)
    requires index < |sources| && offset <= |sources[index].data| && Monotonic(sources)
    ensures var source := sources[index];
            var page := PacketPages(source, index, index + 1 == |sources|, offset, number)[0];
            var after := After(sources, index, offset, number);
            && (forall p :: p in after ==> PageOk(p)) && (forall p :: p in Rest(sources, index, offset, number) ==> PageOk(p))
            && PageOk(page)
            && EncodePages(crc, Rest(sources, index, offset, number)) == EncodePage(crc, page) + EncodePages(crc, after)
  {
    hide PageOk, PacketPages, Pages, EncodePage, Rest;
    var source, final := sources[index], index + 1 == |sources|;
    RestOk(sources, index, offset, number);
    PageOfPacket(source, index, final, offset, number);
    RestIs(sources, index, offset, number);
    if |source.data| - offset < BODY {
      PagesOk(sources, index + 1, number + 1);
    } else {
      RestOk(sources, index, offset + BODY, number + 1);
    }
  }

  lemma RestIs(sources: seq<Source>, index: nat, offset: nat, number: nat)
    requires index < |sources| && offset <= |sources[index].data| && Monotonic(sources)
    ensures var source := sources[index];
            var page := PacketPages(source, index, index + 1 == |sources|, offset, number)[0];
            Rest(sources, index, offset, number) == [page] + After(sources, index, offset, number)
  {
    hide PageOk, PacketPages, Pages;
    PageOfPacket(sources[index], index, index + 1 == |sources|, offset, number);
  }

  /** The sink holds the stream up to the pages that are left. */
  ghost predicate Sound(crc: Checksum, stream: seq<byte>, sink: seq<byte>, left: seq<Page>)
  {
    (forall p :: p in left ==> PageOk(p)) && stream == sink + EncodePages(crc, left)
  }

  lemma SoundStep(crc: Checksum, sources: seq<Source>, index: nat, offset: nat, number: nat, stream: seq<byte>,
                  sink: seq<byte>, page: seq<byte>)
    requires index < |sources| && offset <= |sources[index].data| && Monotonic(sources)
    requires Sound(crc, stream, sink, Rest(sources, index, offset, number))
    requires var next := PacketPages(sources[index], index, index + 1 == |sources|, offset, number)[0];
             PageOk(next) && page == EncodePage(crc, next)
    ensures Sound(crc, stream, sink + page,
                  if |sources[index].data| - offset < BODY then Pages(sources, index + 1, number + 1)
                  else Rest(sources, index, offset + BODY, number + 1))
    ensures sink + page <= stream
  {
    hide PageOk, Pages, PacketPages, EncodePage, EncodePages, Rest, Monotonic;
    RestStep(crc, sources, index, offset, number);
    var after := if |sources[index].data| - offset < BODY then Pages(sources, index + 1, number + 1)
                 else Rest(sources, index, offset + BODY, number + 1);
    assert stream == sink + page + EncodePages(crc, after);
  }

  lemma SoundAtPacket(crc: Checksum, sources: seq<Source>, index: nat, number: nat, stream: seq<byte>, sink: seq<byte>)
    requires index < |sources| && Sound(crc, stream, sink, Pages(sources, index, number))
    ensures Sound(crc, stream, sink, Rest(sources, index, 0, number))
  {
    assert Pages(sources, index, number) == Rest(sources, index, 0, number);
  }

  lemma SoundAtStart(crc: Checksum, sources: seq<Source>)
    requires Monotonic(sources)
    ensures Sound(crc, Stream(crc, sources), [], Pages(sources, 0, 0))
  {
    hide Pages, EncodePages, PageOk;
    PagesOk(sources, 0, 0);
    assert [] + Stream(crc, sources) == Stream(crc, sources);
  }

  lemma SoundAtEnd(crc: Checksum, sources: seq<Source>, stream: seq<byte>, sink: seq<byte>, number: nat)
    requires Sound(crc, stream, sink, Pages(sources, |sources|, number))
    ensures stream == sink
  {
    assert Pages(sources, |sources|, number) == [] && EncodePages(crc, []) == [];
  }

  lemma GranuleKnown(sources: seq<Source>, index: nat)
    requires Monotonic(sources) && index < |sources|
    ensures sources[index].granule >= -1
  {
  }

  /** Writes the pages of one packet, or stops at the first that would overflow the output budget. */
  method WritePacket(crc: Checksum, header: array<byte>, body: array<byte>, sources: seq<Source>, index: nat,
                     first: nat, maxOutput: nat, before: seq<byte>, ghost stream: seq<byte>)
      returns (ok: bool, sink: seq<byte>, number: nat)
    requires header != body && header.Length == HEADER + SEGMENTS && body.Length == BODY
    requires index < |sources| && Monotonic(sources) && |before| <= maxOutput
    requires Sound(crc, stream, before, Pages(sources, index, first))
    modifies header, body
    ensures |sink| <= maxOutput && sink <= stream
    ensures ok ==> Sound(crc, stream, sink, Pages(sources, index + 1, number))
    ensures !ok ==> |stream| > maxOutput
  {
    hide PageOk, Pages, PacketPages, EncodePage, EncodePages, Rest, Monotonic;
    sink, number := before, first;
    var offset: nat, complete := 0, false;
    SoundAtPacket(crc, sources, index, number, stream, sink);
    GranuleKnown(sources, index);
    while !complete
      invariant offset <= |sources[index].data| && |sink| <= maxOutput && sink <= stream
      invariant complete ==> Sound(crc, stream, sink, Pages(sources, index + 1, number))
      invariant !complete ==> Sound(crc, stream, sink, Rest(sources, index, offset, number))
      decreases !complete, |sources[index].data| - offset
    {
      hide Sound;
      var segments, size;
      segments, size, complete :=
        FramePage(crc, header, body, sources[index], index, index + 1 == |sources|, offset, number);
      var page := header[..HEADER + segments] + body[..size];
      SoundStep(crc, sources, index, offset, number, stream, sink, page);
      if HEADER + segments > maxOutput - |sink| || size > maxOutput - |sink| - (HEADER + segments) {
        return false, sink, number;
      }
      sink := sink + page;
      offset := offset + size;
      number := number + 1;
    }
    ok := true;
  }

  /**
   Writes a stream page by page. It succeeds exactly when the packets are acceptable and the whole
   stream fits; otherwise the sink holds a prefix of the stream within the budget.
   */
  method WriteOggPaged(crc: Checksum, sources: seq<Source>, limits: Limits) returns (status: Status, sink: seq<byte>)
    ensures |sink| <= limits.maxOutput
    ensures status.Written? <==> Acceptable(sources, limits) && |Stream(crc, sources)| <= limits.maxOutput
    ensures status.Written? ==> sink == Stream(crc, sources)
    ensures status.OutputOverBudget? ==> Acceptable(sources, limits) && sink <= Stream(crc, sources)
    ensures !Acceptable(sources, limits) ==> sink == []
  {
    hide Pages, EncodePages, Monotonic, Sound, Stream;
    sink := [];
    status := Validate(sources, limits);
    if !status.Written? { return; }
    var header, body := new byte[HEADER + SEGMENTS], new byte[BODY];
    ghost var stream := Stream(crc, sources);
    SoundAtStart(crc, sources);
    var number: nat, index: nat := 0, 0;
    while index < |sources|
      invariant index <= |sources| && |sink| <= limits.maxOutput
      invariant Sound(crc, stream, sink, Pages(sources, index, number))
    {
      var ok;
      ok, sink, number := WritePacket(crc, header, body, sources, index, number, limits.maxOutput, sink, stream);
      if !ok { return OutputOverBudget, sink; }
      index := index + 1;
    }
    SoundAtEnd(crc, sources, stream, sink, number);
  }
}
