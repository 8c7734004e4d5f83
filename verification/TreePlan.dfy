/**
 What the presentation tree of a PCK archive must be: raw rows for plain files, converted rows for
 recognised media, and generated listings of what was renamed or removed, each named in order.
 */
module TreePlan {
  import opened Bytes
  import opened Decimal
  import opened Placement
  import Manifest
  import Utf8

  const ENTRY_OVERHEAD := 64
  const ROW_OVERHEAD := 64
  const MAP_OVERHEAD := 48
  const ROW_SLOT := 72       // bytes of one retained row
  const MAPPING_SLOT := 96   // bytes of one normalized mapping
  const INDEX_SLOTS := 16    // two retained indices

  datatype Kind = File | Removal

  datatype PckEntry = PckEntry(kind: Kind, path: seq<byte>)

  datatype Mapping = Mapping(logical: seq<byte>, compiled: seq<byte>, variant: seq<byte>)

  datatype Hint = Hint(source: nat, extension: seq<byte>)

  datatype Limits = Limits(maxEntries: nat, maxMetadata: nat, maxChars: nat)

  datatype VirtualEntry = VirtualEntry(path: name, source: Option<nat>, converted: bool, text: seq<byte>)

  datatype Result = Tree(entries: seq<VirtualEntry>) | Fault | Exhausted

  /** The text conversions of the platform, and the escaping built on them. */
  datatype Platform = Platform(
    fold: Fold,
    normalize: seq<byte> -> Option<seq<byte>>,
    escapePath: seq<byte> -> name,
    escapeFragment: seq<byte> -> name,
    unitCount: seq<byte> -> nat,
    encode: name -> seq<byte>)

  /** A row to place: its preferred name, its numeric fallback and its physical entry. */
  datatype ViewRow = ViewRow(effective: name, fallback: name, index: nat)

  const EXTENSIONS: set<seq<byte>> := {
    [46, 112, 110, 103], [46, 119, 101, 98, 112], [46, 119, 97, 118], [46, 109, 112, 51], [46, 111, 103, 103],
    [46, 116, 116, 102], [46, 111, 116, 102], [46, 116, 116, 99], [46, 119, 111, 102, 102], [46, 119, 111, 102, 102, 50]}

  const REMOVALS_FALLBACK: name := [114]
  const MANIFEST_FALLBACK: name := [110]
  const REMOVALS_NAME: name := [112, 97, 116, 99, 104, 45, 114, 101, 109, 111, 118, 97, 108, 115, 46, 116, 115, 118]
  const MANIFEST_NAME: name := [110, 97, 109, 101, 45, 109, 97, 112, 46, 116, 115, 118]

  // ---- what a tree promises

  predicate IsFile(index: seq<PckEntry>, i: nat)
  {
    i < |index| && index[i].kind == File
  }

  /** No two presented paths collide, none overflows, and none equals a directory of another. */
  ghost predicate Presentable(fold: Fold, maxChars: nat, entries: seq<VirtualEntry>)
  {
    && (forall i :: 0 <= i < |entries| ==> Fits(entries[i].path, maxChars))
    && (forall i, j :: 0 <= i < j < |entries| ==> Key(fold, entries[i].path) != Key(fold, entries[j].path))
    && (forall i, j, a :: 0 <= i < |entries| && 0 <= j < |entries| && a in Ancestors(entries[j].path) ==>
          Key(fold, entries[i].path) != Key(fold, a))
  }

  ghost predicate HasRow(entries: seq<VirtualEntry>, source: nat, converted: bool)
  {
    exists k :: 0 <= k < |entries| && entries[k].source == Some(source) && entries[k].converted == converted
  }

  /** Every file is visible, converted exactly when hinted, and nothing else has a source row. */
  ghost predicate Faithful(index: seq<PckEntry>, hinted: set<nat>, entries: seq<VirtualEntry>)
  {
    && (forall i :: IsFile(index, i) ==> HasRow(entries, i, i in hinted))
    && (forall k :: 0 <= k < |entries| && entries[k].source.Some? ==>
          IsFile(index, entries[k].source.value) && (entries[k].converted <==> entries[k].source.value in hinted))
  }

  /** The rows whose presented name differs from the stored one, in listing order. */
  function Renamed(platform: Platform, index: seq<PckEntry>, entries: seq<VirtualEntry>): seq<Manifest.Row>
  {
    if entries == [] then []
    else
      var (init, last) := (entries[..|entries| - 1], entries[|entries| - 1]);
      var rows := Renamed(platform, index, init);
      if last.source.None? || last.source.value >= |index| || platform.encode(last.path) == index[last.source.value].path
      then rows
      else rows + [Manifest.Row(last.source.value, index[last.source.value].path, platform.encode(last.path))]
  }

  /** When anything was renamed, the name map is the last entry and reads back as exactly the renamed rows. */
  ghost predicate MapsRenames(platform: Platform, index: seq<PckEntry>, entries: seq<VirtualEntry>)
  {
    var rows := Renamed(platform, index, entries);
    rows != [] ==>
      && entries != [] && entries[|entries| - 1].source.None?
      && Manifest.ReadRows(entries[|entries| - 1].text) == Some(rows)
  }

  // ---- faults

  ghost predicate BadHint(index: seq<PckEntry>, hints: seq<Hint>)
  {
    exists i :: 0 <= i < |hints| &&
      (!IsFile(index, hints[i].source) || hints[i].extension !in EXTENSIONS
       || exists j :: 0 <= j < |hints| && hints[i].source == hints[j].source && hints[i].extension != hints[j].extension)
  }

  ghost predicate BadMapping(platform: Platform, mappings: seq<Mapping>)
  {
    exists i :: 0 <= i < |mappings| &&
      (platform.normalize(mappings[i].logical).None? || platform.normalize(mappings[i].compiled).None?)
  }

  // ---- the rows to present

  /** The extension each hint gives its file. */
  function HintMap(hints: seq<Hint>): map<nat, seq<byte>>
  {
    if hints == [] then map[]
    else
      var last := hints[|hints| - 1];
      HintMap(hints[..|hints| - 1])[last.source := last.extension]
  }

  lemma NoHints(hints: seq<Hint>)
    requires hints == []
    ensures HintMap(hints) == map[]
  {
  }

  lemma HintStep(hints: seq<Hint>, n: nat)
    requires n < |hints|
    ensures HintMap(hints[..n + 1]) == HintMap(hints[..n])[hints[n].source := hints[n].extension]
  {
    assert hints[..n + 1][..n] == hints[..n];
  }

  function OrEmpty(s: Option<seq<byte>>): seq<byte>
  {
    if s.Some? then s.value else []
  }

  function NormalizedMapping(platform: Platform, m: Mapping): Mapping
  {
    Mapping(OrEmpty(platform.normalize(m.logical)), OrEmpty(platform.normalize(m.compiled)), m.variant)
  }

  function Normalized(platform: Platform, mappings: seq<Mapping>): seq<Mapping>
  {
    seq(|mappings|, i requires 0 <= i < |mappings| => NormalizedMapping(platform, mappings[i]))
  }

  /** The first of the first `n` entries that is a file with that path. */
  function FirstFile(index: seq<PckEntry>, n: nat, path: seq<byte>): (r: Option<nat>)
    requires n <= |index|
    ensures r.Some? ==> r.value < n && IsFile(index, r.value) && index[r.value].path == path
    decreases n
  {
    if n == 0 then None
    else match FirstFile(index, n - 1, path)
      case Some(i) => Some(i)
      case None => if index[n - 1].kind == File && index[n - 1].path == path then Some(n - 1) else None
  }

  /** The first of the first `n` mappings that names a file. */
  function MappingOf(index: seq<PckEntry>, maps: seq<Mapping>, n: nat, i: nat): (r: Option<nat>)
    requires n <= |maps|
    ensures r.Some? ==> r.value < n && FirstFile(index, |index|, maps[r.value].compiled) == Some(i)
    decreases n
  {
    if n == 0 then None
    else match MappingOf(index, maps, n - 1, i)
      case Some(m) => Some(m)
      case None => if FirstFile(index, |index|, maps[n - 1].compiled) == Some(i) then Some(n - 1) else None
  }

  /** The preferred name of a row: escaped, with its extension replaced if asked, unless it overflows. */
  function PresentedPath(platform: Platform, maxChars: nat, path: seq<byte>, variant: seq<byte>,
                         extension: Option<seq<byte>>, fallback: name): name
  {
    if platform.unitCount(path) > maxChars then fallback
    else
      var escaped := platform.escapePath(path);
      var preferred :=
        if extension.None? then escaped
        else
          var stem := escaped[..ExtensionStart(escaped)];
          var middle: name := if variant == [] then [] else [DOT] + platform.escapeFragment(variant);
          stem + middle + platform.escapeFragment(extension.value);
      if Fits(preferred, maxChars) then preferred else fallback
  }

  /** What the rows of a tree are made from. */
  datatype Source = Source(platform: Platform, maxChars: nat, index: seq<PckEntry>, maps: seq<Mapping>, hinted: map<nat, seq<byte>>)

  /** The row of a file without a hint: stored under its own name, or under what its first mapping restores. */
  function RawRow(s: Source, i: nat): (r: ViewRow)
    requires i < |s.index|
    ensures r.index == i
  {
    match MappingOf(s.index, s.maps, |s.maps|, i)
    case None => ViewRow(PresentedPath(s.platform, s.maxChars, s.index[i].path, [], None, Digits(i)), Digits(i), i)
    case Some(m) =>
      var extension := s.maps[m].compiled[ExtensionStart(s.maps[m].compiled)..];
      ViewRow(PresentedPath(s.platform, s.maxChars, s.maps[m].logical, s.maps[m].variant, Some(extension), Digits(i)), Digits(i), i)
  }

  function RawList(s: Source, n: nat): seq<ViewRow>
    requires n <= |s.index|
    decreases n
  {
    if n == 0 then []
    else if s.index[n - 1].kind == File && n - 1 !in s.hinted then RawList(s, n - 1) + [RawRow(s, n - 1)]
    else RawList(s, n - 1)
  }

  /** A converted row; its fallback numbers it after the archive's entries. */
  function ConvertedAs(s: Source, before: nat, i: nat, path: seq<byte>, variant: seq<byte>, extension: seq<byte>): ViewRow
  {
    var fallback: name := Digits(|s.index| + before);
    ViewRow(PresentedPath(s.platform, s.maxChars, path, variant, Some(extension), fallback), fallback, i)
  }

  /** First the hinted files that no mapping names, in archive order. */
  function UnmappedList(s: Source, n: nat): seq<ViewRow>
    requires n <= |s.index|
    decreases n
  {
    if n == 0 then []
    else
      var rows := UnmappedList(s, n - 1);
      if n - 1 in s.hinted && MappingOf(s.index, s.maps, |s.maps|, n - 1).None?
      then rows + [ConvertedAs(s, |rows|, n - 1, s.index[n - 1].path, [], s.hinted[n - 1])]
      else rows
  }

  /** Then every mapping that names a hinted file, in mapping order. */
  function ConvertedList(s: Source, n: nat): seq<ViewRow>
    requires n <= |s.maps|
    decreases n
  {
    if n == 0 then UnmappedList(s, |s.index|)
    else
      var rows, m := ConvertedList(s, n - 1), s.maps[n - 1];
      match FirstFile(s.index, |s.index|, m.compiled)
      case None => rows
      case Some(i) =>
        if i in s.hinted then rows + [ConvertedAs(s, |rows|, i, m.logical, m.variant, s.hinted[i])] else rows
  }

  /** The fallback name of a row is a numeral, so it has no directories. */
  ghost predicate NumericFallback(row: ViewRow)
  {
    exists n: nat :: row.fallback == Digits(n)
  }

  ghost predicate Covered(rows: seq<ViewRow>, i: nat)
  {
    exists k :: 0 <= k < |rows| && rows[k].index == i
  }

  lemma CoveredGrows(rows: seq<ViewRow>, row: ViewRow)
    ensures forall i :: Covered(rows, i) || i == row.index ==> Covered(rows + [row], i)
  {
    forall i | Covered(rows, i) || i == row.index ensures Covered(rows + [row], i) {
      if Covered(rows, i) {
        var k :| 0 <= k < |rows| && rows[k].index == i;
        assert (rows + [row])[k].index == i;
      } else {
        assert (rows + [row])[|rows|].index == i;
      }
    }
  }

  lemma {:induction false} RawListFacts(s: Source, n: nat)
    requires n <= |s.index|
    ensures forall k :: 0 <= k < |RawList(s, n)| ==>
              IsFile(s.index, RawList(s, n)[k].index) && RawList(s, n)[k].index !in s.hinted && NumericFallback(RawList(s, n)[k])
    ensures forall i: nat :: i < n && IsFile(s.index, i) && i !in s.hinted ==> Covered(RawList(s, n), i)
    decreases n
  {
    if n > 0 {
      RawListFacts(s, n - 1);
      CoveredGrows(RawList(s, n - 1), RawRow(s, n - 1));
    }
  }

  lemma {:induction false} UnmappedListFacts(s: Source, n: nat)
    requires n <= |s.index|
    ensures forall k :: 0 <= k < |UnmappedList(s, n)| ==>
              UnmappedList(s, n)[k].index in s.hinted && NumericFallback(UnmappedList(s, n)[k])
    ensures forall i: nat :: i < n && i in s.hinted && MappingOf(s.index, s.maps, |s.maps|, i).None? ==> Covered(UnmappedList(s, n), i)
    decreases n
  {
    if n > 0 {
      var rows := UnmappedList(s, n - 1);
      UnmappedListFacts(s, n - 1);
      if n - 1 in s.hinted {
        CoveredGrows(rows, ConvertedAs(s, |rows|, n - 1, s.index[n - 1].path, [], s.hinted[n - 1]));
      }
    }
  }

  /** Every hinted file gets a converted row: from its mappings, or else under its own name. */
  lemma {:induction false} ConvertedListFacts(s: Source, n: nat)
    requires n <= |s.maps| && forall i :: i in s.hinted ==> i < |s.index|
    ensures forall k :: 0 <= k < |ConvertedList(s, n)| ==>
              ConvertedList(s, n)[k].index in s.hinted && NumericFallback(ConvertedList(s, n)[k])
    ensures forall i :: i in s.hinted && (MappingOf(s.index, s.maps, |s.maps|, i).None? || MappingOf(s.index, s.maps, n, i).Some?)
              ==> Covered(ConvertedList(s, n), i)
    decreases n
  {
    if n == 0 {
      UnmappedListFacts(s, |s.index|);
    } else {
      var rows, m := ConvertedList(s, n - 1), s.maps[n - 1];
      ConvertedListFacts(s, n - 1);
      match FirstFile(s.index, |s.index|, m.compiled)
      case None =>
      case Some(i) => if i in s.hinted { CoveredGrows(rows, ConvertedAs(s, |rows|, i, m.logical, m.variant, s.hinted[i])); }
    }
  }

  // ---- the plan of a tree

  /** The rows of a tree, and where they come from. */
  datatype Plan = Plan(platform: Platform, maxChars: nat, index: seq<PckEntry>, raw: seq<ViewRow>, converted: seq<ViewRow>)

  function PlanOf(platform: Platform, maxChars: nat, index: seq<PckEntry>, mappings: seq<Mapping>, hints: seq<Hint>): Plan
  {
    var s := Source(platform, maxChars, index, Normalized(platform, mappings), HintMap(hints));
    Plan(platform, maxChars, index, RawList(s, |index|), ConvertedList(s, |s.maps|))
  }

  /** An entry to come: its preferred name, its fallback and all it holds but its name. */
  datatype Slot = Slot(preferred: name, fallback: name, source: Option<nat>, converted: bool, text: seq<byte>)

  /** Raw rows first, then the converted ones. */
  function RowSlot(p: Plan, k: nat): Slot
    requires k < |p.raw| + |p.converted|
  {
    var row := (p.raw + p.converted)[k];
    Slot(row.effective, row.fallback, Some(row.index), k >= |p.raw|, [])
  }

  function RemovalLines(index: seq<PckEntry>, count: nat): seq<byte>
    requires count <= |index|
  {
    if count == 0 then []
    else
      var lines := RemovalLines(index, count - 1);
      if index[count - 1].kind == File then lines
      else lines + (Digits(count - 1) + [Manifest.TAB] + Manifest.EscapeField(index[count - 1].path) + [Manifest.NEWLINE])
  }

  lemma RenderIsEmpty(rows: seq<Manifest.Row>)
    ensures Manifest.Render(rows) == [] <==> rows == []
  {
    if rows != [] { assert |Manifest.RowText(rows[0])| > 0; }
  }

  /** The listings behind the file rows: the removals and the name map, each only when it lists something. */
  function Listings(p: Plan, files: seq<VirtualEntry>): seq<Slot>
  {
    var lines, rows := RemovalLines(p.index, |p.index|), Renamed(p.platform, p.index, files);
    (if lines == [] then [] else [Slot(REMOVALS_NAME, REMOVALS_FALLBACK, None, false, lines)])
    + (if rows == [] then [] else [Slot(MANIFEST_NAME, MANIFEST_FALLBACK, None, false, Manifest.Render(rows))])
  }

  /** What follows some entries, until the tree is complete. */
  function NextSlot(p: Plan, before: seq<VirtualEntry>): Option<Slot>
  {
    var n := |p.raw| + |p.converted|;
    if |before| < n then Some(RowSlot(p, |before|))
    else
      var listings := Listings(p, before[..n]);
      if |before| - n < |listings| then Some(listings[|before| - n]) else None
  }

  // ---- the names the rows get

  /** The folded names of the entries placed so far. */
  function PathKeys(fold: Fold, entries: seq<VirtualEntry>): set<name>
  {
    set k | 0 <= k < |entries| :: Key(fold, entries[k].path)
  }

  /** The folded directories of every row. */
  function DirKeys(fold: Fold, rows: seq<ViewRow>): set<name>
  {
    if rows == [] then {}
    else DirKeys(fold, rows[..|rows| - 1]) + set a | a in Ancestors(rows[|rows| - 1].effective) :: Key(fold, a)
  }

  lemma KeysGrow(fold: Fold, entries: seq<VirtualEntry>, entry: VirtualEntry)
    ensures PathKeys(fold, entries + [entry]) == PathKeys(fold, entries) + {Key(fold, entry.path)}
  {
    hide Key;
    var all := entries + [entry];
    forall k | 0 <= k < |entries| ensures Key(fold, entries[k].path) in PathKeys(fold, all) { assert all[k] == entries[k]; }
    assert all[|entries|] == entry;
  }

  lemma {:induction false} DirKeysJoin(fold: Fold, a: seq<ViewRow>, b: seq<ViewRow>)
    ensures DirKeys(fold, a + b) == DirKeys(fold, a) + DirKeys(fold, b)
    decreases |b|
  {
    hide Key, Ancestors;
    if b == [] {
      assert a + b == a;
    } else {
      var init := b[..|b| - 1];
      assert (a + b)[..|a + b| - 1] == a + init;
      DirKeysJoin(fold, a, init);
    }
  }

  /** Every directory of a row and every earlier name is taken. */
  function TakenBefore(p: Plan, before: seq<VirtualEntry>): set<name>
  {
    PathKeys(p.platform.fold, before) + DirKeys(p.platform.fold, p.raw + p.converted)
  }

  ghost predicate Fills(p: Plan, before: seq<VirtualEntry>, slot: Slot, entry: VirtualEntry)
  {
    && entry == VirtualEntry(entry.path, slot.source, slot.converted, slot.text)
    && NameFor(p.platform.fold, p.maxChars, TakenBefore(p, before), slot.preferred, slot.fallback, entry.path)
  }

  ghost predicate Follows(p: Plan, entries: seq<VirtualEntry>, k: nat)
    requires k < |entries|
  {
    NextSlot(p, entries[..k]).Some? && Fills(p, entries[..k], NextSlot(p, entries[..k]).value, entries[k])
  }

  /** Every entry is the next one of the plan, named by a plain scan past all that is taken. */
  ghost predicate Built(p: Plan, entries: seq<VirtualEntry>)
  {
    forall k: nat :: k < |entries| ==> Follows(p, entries, k)
  }

  ghost predicate Complete(p: Plan, entries: seq<VirtualEntry>)
  {
    Built(p, entries) && NextSlot(p, entries).None?
  }

  lemma BuiltGrows(p: Plan, before: seq<VirtualEntry>, entry: VirtualEntry)
    requires Built(p, before) && NextSlot(p, before).Some? && Fills(p, before, NextSlot(p, before).value, entry)
    ensures Built(p, before + [entry])
  {
    hide NextSlot, Fills;
    var all := before + [entry];
    forall k: nat | k < |all| ensures Follows(p, all, k) {
      if k < |before| {
        assert Follows(p, before, k) && all[..k] == before[..k];
      } else {
        assert all[..k] == before;
      }
    }
  }

  lemma BuiltPrefix(p: Plan, entries: seq<VirtualEntry>, n: nat)
    requires Built(p, entries) && n <= |entries|
    ensures Built(p, entries[..n])
  {
    hide NextSlot, Fills;
    forall k: nat | k < n ensures Follows(p, entries[..n], k) {
      assert Follows(p, entries, k) && entries[..n][..k] == entries[..k];
    }
  }

  /** Two builds of one plan agree as far as the shorter goes. */
  lemma {:induction false} BuildsAgree(p: Plan, a: seq<VirtualEntry>, b: seq<VirtualEntry>)
    requires Built(p, a) && Built(p, b) && |a| <= |b|
    ensures a == b[..|a|]
    decreases |a|
  {
    hide NextSlot, NameFor;
    if a != [] {
      var k := |a| - 1;
      BuiltPrefix(p, a, k);
      BuildsAgree(p, a[..k], b);
      assert Follows(p, a, k) && Follows(p, b, k) && a[..k] == b[..k];
      var slot := NextSlot(p, a[..k]).value;
      NameIsDeterministic(p.platform.fold, p.maxChars, TakenBefore(p, a[..k]), slot.preferred, slot.fallback, a[k].path, b[k].path);
      assert a == a[..k] + [a[k]] && b[..|a|] == b[..k] + [b[k]];
    }
  }

  lemma NextIsDue(p: Plan, entries: seq<VirtualEntry>, n: nat)
    requires Built(p, entries) && n < |entries|
    ensures NextSlot(p, entries[..n]).Some? && Fills(p, entries[..n], NextSlot(p, entries[..n]).value, entries[n])
  {
    assert Follows(p, entries, n);
  }

  /** One plan has one complete tree: sources, names, forms, listings and their order. */
  lemma TreeIsDeterministic(p: Plan, a: seq<VirtualEntry>, b: seq<VirtualEntry>)
    requires Complete(p, a) && Complete(p, b)
    ensures a == b
  {
    hide NextSlot, Fills, Built;
    if |a| <= |b| {
      BuildsAgree(p, a, b);
      if |a| < |b| { NextIsDue(p, b, |a|); }
    } else {
      BuildsAgree(p, b, a);
      NextIsDue(p, a, |b|);
    }
  }

  /** An entry is due for which there is no place or no name. */
  ghost predicate Stuck(p: Plan, maxEntries: nat, before: seq<VirtualEntry>)
  {
    && Built(p, before) && NextSlot(p, before).Some?
    && var slot := NextSlot(p, before).value;
       || |before| >= maxEntries
       || (ScanFinds(p.platform.fold, p.maxChars, TakenBefore(p, before), slot.preferred, None)
           && ScanFinds(p.platform.fold, p.maxChars, TakenBefore(p, before), slot.fallback, None))
  }

  /** A plan that gets stuck has no complete tree within the entry limit. */
  lemma StuckHasNoTree(p: Plan, maxEntries: nat, before: seq<VirtualEntry>, entries: seq<VirtualEntry>)
    requires Stuck(p, maxEntries, before) && Complete(p, entries)
    ensures |entries| > maxEntries
  {
    hide NextSlot, ScanFinds, Built, NameFor;
    assert before[..|before|] == before;
    if |entries| <= |before| {
      BuildsAgree(p, entries, before);
      if |entries| < |before| { NextIsDue(p, before, |entries|); }
    } else {
      BuildsAgree(p, before, entries);
      NextIsDue(p, entries, |before|);
      var slot := NextSlot(p, before).value;
      if |before| < maxEntries {
        NameNeedsRoom(p.platform.fold, p.maxChars, TakenBefore(p, before), slot.preferred, slot.fallback, entries[|before|].path);
      }
    }
  }

  lemma NameNeedsRoom(fold: Fold, maxChars: nat, taken: set<name>, preferred: name, fallback: name, path: name)
    requires ScanFinds(fold, maxChars, taken, preferred, None) && ScanFinds(fold, maxChars, taken, fallback, None)
    ensures !NameFor(fold, maxChars, taken, preferred, fallback, path)
  {
    if NameFor(fold, maxChars, taken, preferred, fallback, path) {
      var found, none := Some(path), None;
      if ScanFinds(fold, maxChars, taken, preferred, found) {
        ScanIsDeterministic(fold, maxChars, taken, preferred, found, none);
      } else {
        ScanIsDeterministic(fold, maxChars, taken, fallback, found, none);
      }
    }
  }

  /** What the builder may return: the complete tree of acceptable input, within the entry limit. */
  ghost predicate Admissible(platform: Platform, limits: Limits, index: seq<PckEntry>, mappings: seq<Mapping>, hints: seq<Hint>,
                             entries: seq<VirtualEntry>)
  {
    && |index| <= limits.maxEntries && |mappings| <= limits.maxEntries && |hints| <= limits.maxEntries
    && !BadHint(index, hints) && !BadMapping(platform, mappings)
    && Complete(PlanOf(platform, limits.maxChars, index, mappings, hints), entries) && |entries| <= limits.maxEntries
  }

  // ---- what a complete tree promises

  /** The fallbacks of the rows are numerals, and raw and converted rows divide the files. */
  ghost predicate Sound(p: Plan, hinted: set<nat>)
  {
    && (forall i :: i in hinted ==> IsFile(p.index, i))
    && (forall k :: 0 <= k < |p.raw| ==> IsFile(p.index, p.raw[k].index) && p.raw[k].index !in hinted && NumericFallback(p.raw[k]))
    && (forall k :: 0 <= k < |p.converted| ==> p.converted[k].index in hinted && NumericFallback(p.converted[k]))
    && (forall i: nat :: IsFile(p.index, i) && i !in hinted ==> Covered(p.raw, i))
    && (forall i :: i in hinted ==> Covered(p.converted, i))
  }

  lemma PlanIsSound(platform: Platform, maxChars: nat, index: seq<PckEntry>, mappings: seq<Mapping>, hints: seq<Hint>)
    requires !BadHint(index, hints)
    ensures Sound(PlanOf(platform, maxChars, index, mappings, hints), set h | h in hints :: h.source)
  {
    hide RawList, ConvertedList, NumericFallback, Covered;
    var s := Source(platform, maxChars, index, Normalized(platform, mappings), HintMap(hints));
    HintKeys(hints);
    forall h | h in hints ensures IsFile(index, h.source) {
      var i :| 0 <= i < |hints| && hints[i] == h;
    }
    RawListFacts(s, |index|);
    ConvertedListFacts(s, |s.maps|);
  }

  lemma {:induction false} HintKeys(hints: seq<Hint>)
    ensures HintMap(hints).Keys == set h | h in hints :: h.source
    decreases |hints|
  {
    if hints != [] {
      var init, last := hints[..|hints| - 1], hints[|hints| - 1];
      HintKeys(init);
      assert forall h :: h in hints <==> h in init || h == last;
    }
  }

  lemma SlotOf(p: Plan, entries: seq<VirtualEntry>, k: nat) returns (slot: Slot)
    requires Built(p, entries) && k < |entries|
    ensures Fills(p, entries[..k], slot, entries[k])
    ensures k < |p.raw| + |p.converted| ==> slot == RowSlot(p, k)
    ensures k >= |p.raw| + |p.converted| ==>
      var listings := Listings(p, entries[..|p.raw| + |p.converted|]);
      k - (|p.raw| + |p.converted|) < |listings| && slot == listings[k - (|p.raw| + |p.converted|)]
  {
    hide Fills, RowSlot, Listings;
    assert Follows(p, entries, k);
    slot := NextSlot(p, entries[..k]).value;
    if k >= |p.raw| + |p.converted| {
      assert entries[..k][..|p.raw| + |p.converted|] == entries[..|p.raw| + |p.converted|];
    }
  }

  /** Scanned names are free, fit, and keep the directories of the name they were scanned from. */
  lemma NameIsFree(fold: Fold, maxChars: nat, taken: set<name>, preferred: name, fallback: name, path: name)
    requires NameFor(fold, maxChars, taken, preferred, fallback, path)
    ensures Fits(path, maxChars) && Key(fold, path) !in taken
    ensures Ancestors(path) == Ancestors(preferred) || Ancestors(path) == Ancestors(fallback)
  {
    hide Fits, Key, Ancestors, Candidate;
    var base := if ScanFinds(fold, maxChars, taken, preferred, Some(path)) then preferred else fallback;
    var n: nat :| path == Candidate(base, n) && Fits(path, maxChars) && Key(fold, path) !in taken;
    CandidateKeepsAncestors(base, n);
  }

  /** The directories of a placed entry are all reserved. */
  lemma DirsAreReserved(p: Plan, hinted: set<nat>, entries: seq<VirtualEntry>, k: nat)
    requires Sound(p, hinted) && Built(p, entries) && k < |entries|
    ensures Fits(entries[k].path, p.maxChars) && Key(p.platform.fold, entries[k].path) !in TakenBefore(p, entries[..k])
    ensures forall a :: a in Ancestors(entries[k].path) ==> Key(p.platform.fold, a) in DirKeys(p.platform.fold, p.raw + p.converted)
  {
    hide Fits, Key, NameFor, NextSlot, DirKeys, RemovalLines, Renamed, Covered;
    var slot := SlotOf(p, entries, k);
    NameIsFree(p.platform.fold, p.maxChars, TakenBefore(p, entries[..k]), slot.preferred, slot.fallback, entries[k].path);
    var rows := p.raw + p.converted;
    if k < |rows| {
      NumeralIsFlat(rows[k]);
      RowDirs(p.platform.fold, rows, k);
    }
  }

  lemma {:induction false} RowDirs(fold: Fold, rows: seq<ViewRow>, k: nat)
    requires k < |rows|
    ensures forall a :: a in Ancestors(rows[k].effective) ==> Key(fold, a) in DirKeys(fold, rows)
    decreases |rows|
  {
    hide Key, Ancestors;
    if k < |rows| - 1 { RowDirs(fold, rows[..|rows| - 1], k); }
  }

  lemma NumeralIsFlat(row: ViewRow)
    requires NumericFallback(row)
    ensures SLASH !in row.fallback && Ancestors(row.fallback) == {}
  {
  }

  /** A complete tree has distinct names that fit, none of them a directory of another. */
  lemma TreeIsPresentable(p: Plan, hinted: set<nat>, entries: seq<VirtualEntry>)
    requires Sound(p, hinted) && Built(p, entries)
    ensures Presentable(p.platform.fold, p.maxChars, entries)
  {
    hide Key, Fits, Ancestors, DirKeys, Follows, Sound;
    forall k | 0 <= k < |entries|
      ensures Fits(entries[k].path, p.maxChars) && Key(p.platform.fold, entries[k].path) !in TakenBefore(p, entries[..k])
      ensures forall a :: a in Ancestors(entries[k].path) ==> Key(p.platform.fold, a) in DirKeys(p.platform.fold, p.raw + p.converted)
    {
      DirsAreReserved(p, hinted, entries, k);
    }
    forall i, j | 0 <= i < j < |entries| ensures Key(p.platform.fold, entries[i].path) != Key(p.platform.fold, entries[j].path) {
      assert entries[..j][i] == entries[i];
    }
  }

  /** A complete tree shows every file, converted exactly when hinted, and no removal. */
  lemma TreeIsFaithful(p: Plan, hinted: set<nat>, entries: seq<VirtualEntry>)
    requires Sound(p, hinted) && Complete(p, entries)
    ensures Faithful(p.index, hinted, entries)
  {
    hide NameFor, NumericFallback, RemovalLines, Renamed, Follows, NextSlot;
    var rows := p.raw + p.converted;
    TreeSize(p, entries);
    forall k | 0 <= k < |entries|
      ensures k < |rows| ==> entries[k].source == Some(rows[k].index) && entries[k].converted == (k >= |p.raw|)
      ensures k >= |rows| ==> entries[k].source.None?
    {
      var slot := SlotOf(p, entries, k);
    }
    forall i | IsFile(p.index, i) ensures HasRow(entries, i, i in hinted) {
      if i in hinted {
        var k :| 0 <= k < |p.converted| && p.converted[k].index == i;
        assert rows[|p.raw| + k] == p.converted[k];
        assert entries[|p.raw| + k].source == Some(i);
      } else {
        var k :| 0 <= k < |p.raw| && p.raw[k].index == i;
        assert rows[k] == p.raw[k];
        assert entries[k].source == Some(i);
      }
    }
  }

  /** The entry count of a complete tree is its rows and its listings. */
  lemma TreeSize(p: Plan, entries: seq<VirtualEntry>)
    requires Complete(p, entries)
    ensures |entries| >= |p.raw| + |p.converted|
    ensures |entries| == |p.raw| + |p.converted| + |Listings(p, entries[..|p.raw| + |p.converted|])|
  {
    hide Listings, Fills, RowSlot;
    var n := |p.raw| + |p.converted|;
    if |entries| > n {
      assert Follows(p, entries, |entries| - 1);
      assert entries[..|entries| - 1][..n] == entries[..n];
    }
  }

  /** The name map of a complete tree reads back as its renamed rows. */
  lemma TreeMapsRenames(p: Plan, entries: seq<VirtualEntry>)
    requires Complete(p, entries)
    ensures MapsRenames(p.platform, p.index, entries)
  {
    hide Fills, RemovalLines, Renamed, Manifest.Render, Manifest.ReadRows, Follows, NextSlot;
    var n := |p.raw| + |p.converted|;
    TreeSize(p, entries);
    ListingsRenameNothing(p, entries, |entries|);
    assert entries[..|entries|] == entries;
    var rows := Renamed(p.platform, p.index, entries[..n]);
    if rows != [] {
      Manifest.ManifestRoundTrip(rows);
      var slot := SlotOf(p, entries, |entries| - 1);
      LastListing(p, entries, slot);
    }
  }

  lemma LastListing(p: Plan, entries: seq<VirtualEntry>, slot: Slot)
    requires entries != [] && Fills(p, entries[..|entries| - 1], slot, entries[|entries| - 1])
    ensures entries[|entries| - 1].source == slot.source && entries[|entries| - 1].text == slot.text
  {
  }

  lemma {:induction false} ListingsRenameNothing(p: Plan, entries: seq<VirtualEntry>, m: nat)
    requires Built(p, entries) && |p.raw| + |p.converted| <= m <= |entries|
    ensures Renamed(p.platform, p.index, entries[..m]) == Renamed(p.platform, p.index, entries[..|p.raw| + |p.converted|])
    decreases m
  {
    hide NameFor, RemovalLines, Manifest.Render, Follows, NextSlot;
    if m > |p.raw| + |p.converted| {
      ListingsRenameNothing(p, entries, m - 1);
      var slot := SlotOf(p, entries, m - 1);
      assert entries[..m][..m - 1] == entries[..m - 1] && entries[..m][m - 1] == entries[m - 1];
    }
  }
}
