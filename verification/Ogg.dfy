/** Ogg pages (RFC 3533, section 6): the layout of a page, and a demultiplexer for one logical stream. */
module Ogg {
  import opened Bytes

  const MAGIC: seq<byte> := [0x4F, 0x67, 0x67, 0x53]
  const HEADER := 27
  const U32_SPAN := 0x1_0000_0000
  const U64_SPAN := 0x1_0000_0000_0000_0000

  /** The 32-bit page checksum of a page whose checksum field is zero. */
  type Checksum = seq<byte> -> u32

  type u32 = x: int | 0 <= x < 0x1_0000_0000

  datatype Page = Page(
    continued: bool, first: bool, last: bool, granule: int, number: nat, lacing: seq<byte>, body: seq<byte>)

  function Sum(lacing: seq<byte>): nat
  {
    if lacing == [] then 0 else lacing[0] + Sum(lacing[1..])
  }

  predicate PageOk(p: Page)
  {
    -1 <= p.granule < U64_SPAN / 2 && |p.lacing| <= 255 && Sum(p.lacing) == |p.body|
  }

  // ---- the layout

  function Flags(p: Page): byte
  {
    (if p.continued then 1 else 0) + (if p.first then 2 else 0) + (if p.last then 4 else 0)
  }

  /** A granule position on the wire: -1 is all ones. */
  function GranuleField(granule: int): nat
    requires granule >= -1
  {
    if granule == -1 then U64_SPAN - 1 else granule
  }

  /** The header with a given checksum; the stream serial number is zero. */
  function Header(p: Page, crc: u32): (r: seq<byte>)
    requires PageOk(p)
    ensures |r| == HEADER + |p.lacing|
  {
    MAGIC + [0, Flags(p)] + LittleEndian(GranuleField(p.granule), 8) + [0, 0, 0, 0]
    + LittleEndian(p.number % U32_SPAN, 4) + LittleEndian(crc, 4) + [|p.lacing|] + p.lacing
  }

  function EncodePage(crc: Checksum, p: Page): seq<byte>
    requires PageOk(p)
  {
    Header(p, crc(Header(p, 0) + p.body)) + p.body
  }

  function EncodePages(crc: Checksum, pages: seq<Page>): seq<byte>
    requires forall i :: 0 <= i < |pages| ==> PageOk(pages[i])
  {
    if pages == [] then [] else EncodePage(crc, pages[0]) + EncodePages(crc, pages[1..])
  }

  // ---- reading a page

  function SignedGranule(field: nat): int
  {
    if field < U64_SPAN / 2 then field else field - U64_SPAN
  }

  /** The page at the start of `s` and its length, or None when it is malformed or its checksum differs. */
  function ReadPage(crc: Checksum, s: seq<byte>): (r: Option<(Page, nat)>)
    ensures r.Some? ==> HEADER <= r.value.1 <= |s|
  {
    if |s| < HEADER || s[..4] != MAGIC || s[4] != 0 || s[5] >= 8 then None
    else
      var segments: nat := s[26];
      if |s| < HEADER + segments then None
      else
        var lacing := s[HEADER..HEADER + segments];
        var size := HEADER + segments + Sum(lacing);
        if |s| < size || s[14..18] != [0, 0, 0, 0] then None
        else if U32(s, 22) != crc(s[..22] + [0, 0, 0, 0] + s[26..size]) then None
        else
          Some((Page(s[5] % 2 == 1, s[5] / 2 % 2 == 1, s[5] / 4 == 1, SignedGranule(U64(s, 6)), U32(s, 18),
                     lacing, s[HEADER + segments..size]), size))
  }

  function ReadPages(crc: Checksum, s: seq<byte>): Option<seq<Page>>
    decreases |s|
  {
    if s == [] then Some([])
    else match ReadPage(crc, s)
      case None => None
      case Some((page, size)) =>
        match ReadPages(crc, s[size..])
        case None => None
        case Some(rest) => Some([page] + rest)
  }

  // ---- reassembling packets

  datatype Packet = Packet(data: seq<byte>, granule: int)

  /** The packets that end in a page, and the unfinished tail when its last segment is full. */
  function Split(lacing: seq<byte>, body: seq<byte>): (r: (seq<seq<byte>>, Option<seq<byte>>))
    requires Sum(lacing) == |body|
  {
    if lacing == [] then ([], None)
    else
      var size: nat := lacing[0];
      var (ended, tail) := Split(lacing[1..], body[size..]);
      if size < 255 then ([body[..size]] + ended, tail)
      else if ended != [] then ([body[..size] + ended[0]] + ended[1..], tail)
      else if tail.Some? then ([], Some(body[..size] + tail.value))
      else ([], Some(body[..size]))
  }

  /** Packets that end in one page: the page granule belongs to the last of them. */
  function Stamp(ended: seq<seq<byte>>, granule: int): seq<Packet>
  {
    if ended == [] then []
    else [Packet(ended[0], if |ended| == 1 then granule else -1)] + Stamp(ended[1..], granule)
  }

  /**
   Pages in sequence from `number`, continuing the unfinished packet `partial`: numbers count up,
   only page zero begins the stream, only the final page ends it, a page is marked continued exactly
   when a packet is unfinished, and a page on which no packet ends has granule position -1.
   */
  function Demux(pages: seq<Page>, number: nat, partial: Option<seq<byte>>): Option<seq<Packet>>
    decreases |pages|
  {
    if pages == [] then if partial.None? then Some([]) else None
    else
      var p := pages[0];
      if p.number != number % U32_SPAN || p.first != (number == 0) || p.last != (|pages| == 1)
         || p.continued != partial.Some? || Sum(p.lacing) != |p.body| then None
      else
        var (ended, tail) := Split(p.lacing, p.body);
        var joined := Join(partial, ended, tail);
        if joined.0 == [] && p.granule != -1 then None
        else match Demux(pages[1..], number + 1, joined.1)
        case None => None
        case Some(rest) => Some(Stamp(joined.0, p.granule) + rest)
  }

  /** Puts the unfinished packet in front of what the page carries on. */
  function Join(partial: Option<seq<byte>>, ended: seq<seq<byte>>, tail: Option<seq<byte>>): (seq<seq<byte>>, Option<seq<byte>>)
  {
    if partial.None? then (ended, tail)
    else if ended != [] then ([partial.value + ended[0]] + ended[1..], tail)
    else if tail.Some? then ([], Some(partial.value + tail.value))
    else ([], partial)
  }

  /** The packets of a complete stream. */
  function DemuxStream(crc: Checksum, s: seq<byte>): Option<seq<Packet>>
  {
    match ReadPages(crc, s)
    case None => None
    case Some(pages) => Demux(pages, 0, None)
  }

  // ---- a page reads back

  /** The fields of a header, wherever it stands. */
  lemma HeaderFields(p: Page, crc: u32, s: seq<byte>)
    requires PageOk(p) && |s| >= HEADER + |p.lacing| && s[..HEADER + |p.lacing|] == Header(p, crc)
    ensures s[..4] == MAGIC && s[4] == 0 && s[5] == Flags(p) && s[14..18] == [0, 0, 0, 0]
    ensures U64(s, 6) == GranuleField(p.granule) && U32(s, 18) == p.number % U32_SPAN && U32(s, 22) == crc
    ensures s[26] == |p.lacing| && s[HEADER..HEADER + |p.lacing|] == p.lacing
  {
    hide LittleEndian, Flags, GranuleField, U32, U64, Sum;
    var h := Header(p, crc);
    GranuleFits(p);
    assert forall i :: 0 <= i < |h| ==> s[i] == h[i];
    assert s[6..14] == h[6..14] == LittleEndian(GranuleField(p.granule), 8);
    assert s[18..22] == h[18..22] == LittleEndian(p.number % U32_SPAN, 4);
    assert s[22..26] == h[22..26] == LittleEndian(crc, 4);
    assert s[14..18] == h[14..18] && s[..4] == h[..4];
    assert s[HEADER..HEADER + |p.lacing|] == h[HEADER..] == p.lacing;
    U64OfBytes(s, 6, GranuleField(p.granule));
    U32OfBytes(s, 18, p.number % U32_SPAN);
    U32OfBytes(s, 22, crc);
  }

  lemma GranuleFits(p: Page)
    requires PageOk(p)
    ensures GranuleField(p.granule) < U64_SPAN
  {
  }

  lemma Three(a: seq<byte>, b: seq<byte>, c: seq<byte>)
    ensures var s := a + b + c; s[..|a|] == a && s[|a|..|a| + |b|] == b && s[|a| + |b|..] == c
  {
  }

  /** Clearing the checksum field of a header gives the header the checksum was taken over. */
  lemma ClearChecksum(p: Page, crc: u32)
    requires PageOk(p)
    ensures Header(p, crc)[..22] + [0, 0, 0, 0] + Header(p, crc)[26..] == Header(p, 0)
  {
    hide LittleEndian, Flags, Sum;
    ZeroBytes();
    var front := MAGIC + [0, Flags(p)] + LittleEndian(GranuleField(p.granule), 8) + [0, 0, 0, 0] + LittleEndian(p.number % U32_SPAN, 4);
    var back := [|p.lacing|] + p.lacing;
    assert Header(p, crc) == front + LittleEndian(crc, 4) + back;
    assert Header(p, 0) == front + [0, 0, 0, 0] + back;
    Three(front, LittleEndian(crc, 4), back);
  }

  lemma ZeroBytes()
    ensures LittleEndian(0, 4) == [0, 0, 0, 0]
  {
    assert LittleEndian(0, 0) == [] && LittleEndian(0, 1) == [0] && LittleEndian(0, 2) == [0, 0];
    assert LittleEndian(0, 3) == [0, 0, 0];
  }

  /** A page reads back, with its number reduced to the four bytes of the wire. */
  lemma PageRoundTrip(crc: Checksum, p: Page, rest: seq<byte>)
    requires PageOk(p)
    ensures var e := EncodePage(crc, p);
            ReadPage(crc, e + rest) == Some((p.(number := p.number % U32_SPAN), |e|))
  {
    hide LittleEndian, U32, U64, Header;
    var check := crc(Header(p, 0) + p.body);
    var h, e := Header(p, check), EncodePage(crc, p);
    var s, n := e + rest, HEADER + |p.lacing|;
    assert s[..n] == h;
    HeaderFields(p, check, s);
    ClearChecksum(p, check);
    assert s[..22] == h[..22] && s[26..|e|] == h[26..] + p.body && s[n..|e|] == p.body;
    assert s[..22] + [0, 0, 0, 0] + s[26..|e|] == Header(p, 0) + p.body;
  }

  lemma {:induction false} PagesRoundTrip(crc: Checksum, pages: seq<Page>)
    requires forall i :: 0 <= i < |pages| ==> PageOk(pages[i])
    ensures ReadPages(crc, EncodePages(crc, pages)) == Some(OnWire(pages))
  {
    if pages != [] {
      hide PageOk, EncodePage, ReadPage;
      var e, rest := EncodePage(crc, pages[0]), EncodePages(crc, pages[1..]);
      PageRoundTrip(crc, pages[0], rest);
      PagesRoundTrip(crc, pages[1..]);
      assert (e + rest)[|e|..] == rest;
    }
  }

  /** The pages as their four-byte numbers show them. */
  function OnWire(pages: seq<Page>): seq<Page>
  {
    if pages == [] then [] else [pages[0].(number := pages[0].number % U32_SPAN)] + OnWire(pages[1..])
  }
}
