/** The name each row of a presentation tree gets, spelt out by positions in the archive, the mappings and the name itself. */
module TreeNames {
  import opened Bytes
  import opened Decimal
  import opened Placement
  import opened TreePlan
  import Manifest

  // ---- the extension of a name, by positions

  /** The dot of the last component's extension: not the component's first unit, with no dot or slash behind it. */
  predicate ExtensionDot(path: name, d: int)
  {
    && 0 < d < |path| && path[d] == DOT && path[d - 1] != SLASH
    && forall j :: d < j < |path| ==> path[j] != DOT && path[j] != SLASH
  }

  /** The stem is everything in front of the extension's dot, or all of a path without one. */
  ghost predicate StemEnds(path: name, e: nat)
  {
    ExtensionDot(path, e) || (e == |path| && forall d :: !ExtensionDot(path, d))
  }

  lemma StemIsPrefix(path: name)
    ensures StemEnds(path, ExtensionStart(path))
  {
    var e := ExtensionStart(path);
    if e == |path| {
      forall d ensures !ExtensionDot(path, d) { }
    }
  }

  lemma StemIsUnique(path: name, e: nat, f: nat)
    requires StemEnds(path, e) && StemEnds(path, f)
    ensures e == f
  {
  }

  /** A candidate carries its number behind a tilde, between the stem and the extension. */
  lemma CandidateSpelt(base: name, n: nat, e: nat)
    requires StemEnds(base, e) && n > 0
    ensures Candidate(base, n) == base[..e] + [TILDE] + Digits(n) + base[e..]
  {
    StemIsPrefix(base);
    StemIsUnique(base, e, ExtensionStart(base));
  }

  // ---- the names asked for

  /**
   The escaped path, whole, or with its extension replaced: its stem, then the variant behind a dot
   when there is one, then the escaped extension.
   */
  ghost predicate Spells(platform: Platform, path: seq<byte>, variant: seq<byte>, extension: Option<seq<byte>>, full: name)
  {
    var escaped := platform.escapePath(path);
    match extension
    case None => full == escaped
    case Some(x) => exists e: nat ::
      StemEnds(escaped, e) && full == escaped[..e] + (if variant == [] then [] else [DOT] + platform.escapeFragment(variant)) + platform.escapeFragment(x)
  }

  /** The name a row asks for: what is spelt, or its number when the path or what is spelt overflows. */
  ghost predicate Asks(platform: Platform, maxChars: nat, path: seq<byte>, variant: seq<byte>, extension: Option<seq<byte>>,
                       number: nat, w: name)
  {
    if platform.unitCount(path) > maxChars then w == Digits(number)
    else exists full :: Spells(platform, path, variant, extension, full) && w == Kept(maxChars, full, number)
  }

  function Kept(maxChars: nat, full: name, number: nat): name
  {
    if Fits(full, maxChars) then full else Digits(number)
  }

  lemma PresentedAsks(platform: Platform, maxChars: nat, path: seq<byte>, variant: seq<byte>, extension: Option<seq<byte>>, number: nat)
    ensures Asks(platform, maxChars, path, variant, extension, number,
                 PresentedPath(platform, maxChars, path, variant, extension, Digits(number)))
  {
    hide Fits, Digits;
    var escaped := platform.escapePath(path);
    var w := PresentedPath(platform, maxChars, path, variant, extension, Digits(number));
    if platform.unitCount(path) <= maxChars {
      if extension.None? {
        assert Spells(platform, path, variant, extension, escaped);
        assert w == Kept(maxChars, escaped, number);
      } else {
        StemIsPrefix(escaped);
        var e := ExtensionStart(escaped);
        var middle: name := if variant == [] then [] else [DOT] + platform.escapeFragment(variant);
        var full := escaped[..e] + middle + platform.escapeFragment(extension.value);
        assert Spells(platform, path, variant, extension, full);
        assert w == Kept(maxChars, full, number);
      }
    }
  }

  // ---- the file and the mapping behind a row

  /** The first file stored under a path. */
  ghost predicate FileOf(index: seq<PckEntry>, path: seq<byte>, i: nat)
  {
    IsFile(index, i) && index[i].path == path && forall j: nat :: j < i && IsFile(index, j) ==> index[j].path != path
  }

  /** A mapping whose normalized compiled path is stored in file `i`, and which gives it a logical path. */
  ghost predicate Restores(platform: Platform, index: seq<PckEntry>, m: Mapping, i: nat, logical: seq<byte>, compiled: seq<byte>)
  {
    platform.normalize(m.logical) == Some(logical) && platform.normalize(m.compiled) == Some(compiled) && FileOf(index, compiled, i)
  }

  ghost predicate Restored(platform: Platform, index: seq<PckEntry>, m: Mapping, i: nat)
  {
    exists logical: seq<byte>, compiled: seq<byte> :: Restores(platform, index, m, i, logical, compiled)
  }

  lemma {:induction false} FirstFileIsFirst(index: seq<PckEntry>, n: nat, path: seq<byte>)
    requires n <= |index|
    ensures match FirstFile(index, n, path)
            case Some(i) => FileOf(index, path, i)
            case None => forall j: nat :: j < n && IsFile(index, j) ==> index[j].path != path
    decreases n
  {
    if n > 0 { FirstFileIsFirst(index, n - 1, path); }
  }

  lemma FirstFileIs(index: seq<PckEntry>, path: seq<byte>, i: nat)
    ensures FirstFile(index, |index|, path) == Some(i) <==> FileOf(index, path, i)
  {
    FirstFileIsFirst(index, |index|, path);
  }

  /** With good mappings, a mapping names a file exactly when it restores it. */
  lemma MappingRestores(platform: Platform, index: seq<PckEntry>, mappings: seq<Mapping>, m: nat, i: nat)
    requires !BadMapping(platform, mappings) && m < |mappings|
    ensures var maps := Normalized(platform, mappings);
            && FirstFile(index, |index|, maps[m].compiled) == Some(i) <==> Restored(platform, index, mappings[m], i)
    ensures var maps := Normalized(platform, mappings);
            Restored(platform, index, mappings[m], i) ==> Restores(platform, index, mappings[m], i, maps[m].logical, maps[m].compiled)
  {
    hide FileOf;
    var maps := Normalized(platform, mappings);
    FirstFileIs(index, maps[m].compiled, i);
    assert platform.normalize(mappings[m].logical).Some? && platform.normalize(mappings[m].compiled).Some?;
    if FirstFile(index, |index|, maps[m].compiled) == Some(i) {
      assert Restores(platform, index, mappings[m], i, maps[m].logical, maps[m].compiled);
    }
  }

  /** The mapping behind a file is the first of the first `n` that restores it. */
  ghost predicate FirstToRestore(platform: Platform, index: seq<PckEntry>, mappings: seq<Mapping>, n: nat, i: nat, r: Option<nat>)
    requires n <= |mappings|
  {
    match r
    case None => forall k: nat :: k < n ==> !Restored(platform, index, mappings[k], i)
    case Some(m) => m < n && Restored(platform, index, mappings[m], i) && forall k: nat :: k < m ==> !Restored(platform, index, mappings[k], i)
  }

  lemma {:induction false} MappingOfIsFirst(platform: Platform, index: seq<PckEntry>, mappings: seq<Mapping>, n: nat, i: nat)
    requires !BadMapping(platform, mappings) && n <= |mappings|
    ensures FirstToRestore(platform, index, mappings, n, i, MappingOf(index, Normalized(platform, mappings), n, i))
    decreases n
  {
    hide Restored, FirstFile;
    if n > 0 {
      MappingOfIsFirst(platform, index, mappings, n - 1, i);
      MappingRestores(platform, index, mappings, n - 1, i);
    }
  }

  // ---- the rows, in order

  /** What a converted row comes from: the file itself, or a mapping that restores it. */
  datatype Origin = Own(file: nat) | Through(file: nat, mapping: nat)

  /** Files that nothing maps come first, in archive order, and then the mappings in theirs. */
  predicate Precedes(a: Origin, b: Origin)
  {
    match (a, b)
    case (Own(i), Own(j)) => i < j
    case (Own(_), Through(_, _)) => true
    case (Through(_, m), Through(_, n)) => m < n
    case (Through(_, _), Own(_)) => false
  }

  predicate InOrder(os: seq<Origin>)
  {
    forall a, b :: 0 <= a < b < |os| ==> Precedes(os[a], os[b])
  }

  /** The row of an origin, when it is the row number `a` of its run. */
  ghost predicate RowFrom(s: Source, a: nat, o: Origin, row: ViewRow)
  {
    && o.file in s.hinted && o.file < |s.index| && row.index == o.file
    && match o
       case Own(i) => MappingOf(s.index, s.maps, |s.maps|, i).None? && row == ConvertedAs(s, a, i, s.index[i].path, [], s.hinted[i])
       case Through(i, m) =>
         && m < |s.maps| && FirstFile(s.index, |s.index|, s.maps[m].compiled) == Some(i)
         && row == ConvertedAs(s, a, i, s.maps[m].logical, s.maps[m].variant, s.hinted[i])
  }

  ghost predicate RowsFrom(s: Source, os: seq<Origin>, rows: seq<ViewRow>)
  {
    |os| == |rows| && InOrder(os) && forall a :: 0 <= a < |os| ==> RowFrom(s, a, os[a], rows[a])
  }

  lemma RowsFromMore(s: Source, os: seq<Origin>, rows: seq<ViewRow>, o: Origin, row: ViewRow)
    requires RowsFrom(s, os, rows) && RowFrom(s, |rows|, o, row) && forall a :: 0 <= a < |os| ==> Precedes(os[a], o)
    ensures RowsFrom(s, os + [o], rows + [row])
  {
    hide RowFrom, Precedes;
  }

  lemma {:induction false} UnmappedOrigins(s: Source, n: nat) returns (os: seq<Origin>)
    requires n <= |s.index|
    ensures RowsFrom(s, os, UnmappedList(s, n))
    ensures forall a :: 0 <= a < |os| ==> os[a].Own? && os[a].file < n
    ensures forall i: nat :: i < n && i in s.hinted && MappingOf(s.index, s.maps, |s.maps|, i).None? ==> Own(i) in os
    decreases n
  {
    hide MappingOf, ConvertedAs;
    os := [];
    if n > 0 {
      os := UnmappedOrigins(s, n - 1);
      if n - 1 in s.hinted && MappingOf(s.index, s.maps, |s.maps|, n - 1).None? {
        var rows := UnmappedList(s, n - 1);
        var row := ConvertedAs(s, |rows|, n - 1, s.index[n - 1].path, [], s.hinted[n - 1]);
        ConvertedIndex(s, |rows|, n - 1, s.index[n - 1].path, [], s.hinted[n - 1]);
        RowsFromMore(s, os, rows, Own(n - 1), row);
        os := os + [Own(n - 1)];
      }
    }
  }

  lemma ConvertedIndex(s: Source, before: nat, i: nat, path: seq<byte>, variant: seq<byte>, extension: seq<byte>)
    ensures ConvertedAs(s, before, i, path, variant, extension).index == i
  {
  }

  lemma {:induction false} ConvertedOrigins(s: Source, n: nat) returns (os: seq<Origin>)
    requires n <= |s.maps| && forall i :: i in s.hinted ==> i < |s.index|
    ensures RowsFrom(s, os, ConvertedList(s, n))
    ensures forall a :: 0 <= a < |os| ==> os[a].Through? ==> os[a].mapping < n
    ensures forall i: nat :: i in s.hinted && MappingOf(s.index, s.maps, |s.maps|, i).None? ==> Own(i) in os
    ensures forall m: nat, i :: m < n && FirstFile(s.index, |s.index|, s.maps[m].compiled) == Some(i) && i in s.hinted ==> Through(i, m) in os
    decreases n
  {
    hide MappingOf, FirstFile, ConvertedAs, UnmappedList, RowFrom, RowsFrom, Precedes;
    if n == 0 {
      os := UnmappedOrigins(s, |s.index|);
    } else {
      os := ConvertedOrigins(s, n - 1);
      var rows, m, target := ConvertedList(s, n - 1), s.maps[n - 1], FirstFile(s.index, |s.index|, s.maps[n - 1].compiled);
      if target.Some? && target.value in s.hinted {
        var i := target.value;
        ThroughIsLast(os, i, n - 1);
        ThroughRow(s, |rows|, i, n - 1);
        RowsFromMore(s, os, rows, Through(i, n - 1), ConvertedAs(s, |rows|, i, m.logical, m.variant, s.hinted[i]));
        os := os + [Through(i, n - 1)];
      }
    }
  }

  lemma ThroughIsLast(os: seq<Origin>, i: nat, m: nat)
    requires forall a :: 0 <= a < |os| && os[a].Through? ==> os[a].mapping < m
    ensures forall a :: 0 <= a < |os| ==> Precedes(os[a], Through(i, m))
  {
  }

  lemma ThroughRow(s: Source, a: nat, i: nat, m: nat)
    requires i in s.hinted && i < |s.index| && m < |s.maps| && FirstFile(s.index, |s.index|, s.maps[m].compiled) == Some(i)
    ensures RowFrom(s, a, Through(i, m), ConvertedAs(s, a, i, s.maps[m].logical, s.maps[m].variant, s.hinted[i]))
  {
    hide FirstFile;
  }

  lemma {:induction false} RawRowsFrom(s: Source, n: nat)
    requires n <= |s.index|
    ensures forall k :: 0 <= k < |RawList(s, n)| ==> RawList(s, n)[k].index < n && RawList(s, n)[k] == RawRow(s, RawList(s, n)[k].index)
    ensures forall k, l :: 0 <= k < l < |RawList(s, n)| ==> RawList(s, n)[k].index < RawList(s, n)[l].index
    decreases n
  {
    hide RawRow;
    if n > 0 { RawRowsFrom(s, n - 1); }
  }

  // ---- what each row asks for

  /** A raw row: the file's own path, or what its first mapping restores with the compiled file's extension. */
  ghost predicate RawAsks(platform: Platform, maxChars: nat, index: seq<PckEntry>, mappings: seq<Mapping>, i: nat, w: name)
    requires i < |index|
  {
    exists r :: FirstToRestore(platform, index, mappings, |mappings|, i, r) && RawAsksThrough(platform, maxChars, index, mappings, i, r, w)
  }

  ghost predicate RawAsksThrough(platform: Platform, maxChars: nat, index: seq<PckEntry>, mappings: seq<Mapping>, i: nat, r: Option<nat>, w: name)
    requires i < |index| && (r.Some? ==> r.value < |mappings|)
  {
    match r
    case None => Asks(platform, maxChars, index[i].path, [], None, i, w)
    case Some(m) => exists logical: seq<byte>, compiled: seq<byte>, e: nat ::
      && Restores(platform, index, mappings[m], i, logical, compiled) && StemEnds(compiled, e)
      && Asks(platform, maxChars, logical, mappings[m].variant, Some(compiled[e..]), i, w)
  }

  lemma RawRowAsks(platform: Platform, maxChars: nat, index: seq<PckEntry>, mappings: seq<Mapping>, s: Source, i: nat)
    requires !BadMapping(platform, mappings) && i < |index|
    requires s == Source(platform, maxChars, index, Normalized(platform, mappings), s.hinted)
    ensures RawAsks(platform, maxChars, index, mappings, i, RawRow(s, i).effective) && RawRow(s, i).fallback == Digits(i)
  {
    hide PresentedPath, Asks, Restores, Restored, StemEnds, Digits, MappingOf, FirstToRestore;
    var w, r := RawRow(s, i).effective, MappingOf(index, s.maps, |mappings|, i);
    MappingOfIsFirst(platform, index, mappings, |mappings|, i);
    match r {
      case None =>
        PresentedAsks(platform, maxChars, index[i].path, [], None, i);
      case Some(m) =>
        var compiled := s.maps[m].compiled;
        var e := ExtensionStart(compiled);
        MappingRestores(platform, index, mappings, m, i);
        RestoredByFirst(platform, index, mappings, i, m);
        StemIsPrefix(compiled);
        PresentedAsks(platform, maxChars, s.maps[m].logical, mappings[m].variant, Some(compiled[e..]), i);
        assert s.maps[m].variant == mappings[m].variant;
    }
    assert RawAsksThrough(platform, maxChars, index, mappings, i, r, w);
  }

  lemma RestoredByFirst(platform: Platform, index: seq<PckEntry>, mappings: seq<Mapping>, i: nat, m: nat)
    requires FirstToRestore(platform, index, mappings, |mappings|, i, Some(m))
    ensures m < |mappings| && Restored(platform, index, mappings[m], i)
  {
  }

  /** A converted row: the file's own path or what the mapping restores, with the hinted extension. */
  ghost predicate ConvertedAsks(platform: Platform, maxChars: nat, index: seq<PckEntry>, mappings: seq<Mapping>, o: Origin,
                                extension: seq<byte>, number: nat, w: name)
    requires o.file < |index|
  {
    match o
    case Own(i) =>
      && (forall k: nat :: k < |mappings| ==> !Restored(platform, index, mappings[k], i))
      && Asks(platform, maxChars, index[i].path, [], Some(extension), number, w)
    case Through(i, m) =>
      m < |mappings| && exists logical: seq<byte>, compiled: seq<byte> ::
        && Restores(platform, index, mappings[m], i, logical, compiled)
        && Asks(platform, maxChars, logical, mappings[m].variant, Some(extension), number, w)
  }

  lemma ConvertedRowAsks(platform: Platform, maxChars: nat, index: seq<PckEntry>, mappings: seq<Mapping>, s: Source, a: nat, o: Origin, row: ViewRow)
    requires !BadMapping(platform, mappings) && RowFrom(s, a, o, row)
    requires s == Source(platform, maxChars, index, Normalized(platform, mappings), s.hinted)
    ensures ConvertedAsks(platform, maxChars, index, mappings, o, s.hinted[o.file], |index| + a, row.effective)
    ensures row.fallback == Digits(|index| + a)
  {
    hide PresentedPath, Asks, Restores, Restored, Digits, MappingOf, FirstFile;
    var x := s.hinted[o.file];
    match o
    case Own(i) =>
      MappingOfIsFirst(platform, index, mappings, |mappings|, i);
      PresentedAsks(platform, maxChars, index[i].path, [], Some(x), |index| + a);
    case Through(i, m) =>
      MappingRestores(platform, index, mappings, m, i);
      assert s.maps[m].variant == mappings[m].variant;
      PresentedAsks(platform, maxChars, s.maps[m].logical, mappings[m].variant, Some(x), |index| + a);
  }

  // ---- the entries of a complete tree

  ghost predicate Hinted(hints: seq<Hint>, i: nat)
  {
    exists h :: h in hints && h.source == i
  }

  /** The files that no hint names, in archive order. */
  ghost predicate ListsRaw(index: seq<PckEntry>, hints: seq<Hint>, files: seq<nat>)
  {
    && (forall k, l :: 0 <= k < l < |files| ==> files[k] < files[l])
    && forall i: nat :: i in files <==> IsFile(index, i) && !Hinted(hints, i)
  }

  /** Every hinted file, once for each mapping that restores it, or once itself when none does. */
  ghost predicate ListsConverted(platform: Platform, index: seq<PckEntry>, mappings: seq<Mapping>, hints: seq<Hint>, os: seq<Origin>)
  {
    && InOrder(os)
    && (forall i: nat :: Own(i) in os <==>
          Hinted(hints, i) && forall k: nat :: k < |mappings| ==> !Restored(platform, index, mappings[k], i))
    && forall i: nat, m: nat :: Through(i, m) in os <==>
         Hinted(hints, i) && m < |mappings| && Restored(platform, index, mappings[m], i)
  }

  /** The folded directories of all the names asked for. */
  function Reserved(fold: Fold, asked: seq<name>): set<name>
  {
    set j, a | 0 <= j < |asked| && a in Ancestors(asked[j]) :: Key(fold, a)
  }

  /** Entry `k` is the first free candidate of the name asked for, past the directories and the earlier names; else of its number. */
  ghost predicate NamedAt(fold: Fold, maxChars: nat, asked: seq<name>, entries: seq<VirtualEntry>, k: nat, number: nat)
    requires k < |asked| <= |entries|
  {
    NameFor(fold, maxChars, PathKeys(fold, entries[..k]) + Reserved(fold, asked), asked[k], Digits(number), entries[k].path)
  }

  function Effectives(rows: seq<ViewRow>): (r: seq<name>)
    ensures |r| == |rows| && forall k :: 0 <= k < |r| ==> r[k] == rows[k].effective
  {
    seq(|rows|, k requires 0 <= k < |rows| => rows[k].effective)
  }

  lemma {:induction false} ReservedIsDirKeys(fold: Fold, rows: seq<ViewRow>)
    ensures Reserved(fold, Effectives(rows)) == DirKeys(fold, rows)
    decreases |rows|
  {
    hide Key, Ancestors;
    if rows != [] {
      var init, last := rows[..|rows| - 1], rows[|rows| - 1].effective;
      ReservedIsDirKeys(fold, init);
      ReservedMore(fold, Effectives(init), last);
      assert Effectives(rows) == Effectives(init) + [last];
    }
  }

  lemma ReservedMore(fold: Fold, asked: seq<name>, w: name)
    ensures Reserved(fold, asked + [w]) == Reserved(fold, asked) + set a | a in Ancestors(w) :: Key(fold, a)
  {
    hide Key, Ancestors;
    var all := asked + [w];
    forall key | key in Reserved(fold, all) ensures key in Reserved(fold, asked) + set a | a in Ancestors(w) :: Key(fold, a) {
      var j, a :| 0 <= j < |all| && a in Ancestors(all[j]) && key == Key(fold, a);
      if j < |asked| { assert all[j] == asked[j]; }
    }
    forall key | key in Reserved(fold, asked) ensures key in Reserved(fold, all) {
      var j, a :| 0 <= j < |asked| && a in Ancestors(asked[j]) && key == Key(fold, a);
      assert all[j] == asked[j];
    }
    forall a | a in Ancestors(w) ensures Key(fold, a) in Reserved(fold, all) { assert all[|asked|] == w; }
  }

  /** The entry of a row. */
  lemma RowIsNamed(p: Plan, entries: seq<VirtualEntry>, k: nat, number: nat)
    requires Complete(p, entries) && k < |p.raw + p.converted| <= |entries| && (p.raw + p.converted)[k].fallback == Digits(number)
    ensures var row := (p.raw + p.converted)[k];
            entries[k] == VirtualEntry(entries[k].path, Some(row.index), k >= |p.raw|, [])
    ensures NamedAt(p.platform.fold, p.maxChars, Effectives(p.raw + p.converted), entries, k, number)
  {
    hide PathKeys, DirKeys, Reserved, NameFor, Listings, Digits;
    CompleteBuilds(p, entries);
    var slot := SlotOf(p, entries, k);
    ReservedIsDirKeys(p.platform.fold, p.raw + p.converted);
  }

  lemma CompleteBuilds(p: Plan, entries: seq<VirtualEntry>)
    requires Complete(p, entries)
    ensures Built(p, entries)
  {
  }

  /** Entries behind the rows are listings. */
  lemma ListingsHaveNoSource(p: Plan, entries: seq<VirtualEntry>, k: nat)
    requires Complete(p, entries) && |p.raw + p.converted| <= k < |entries|
    ensures entries[k].source.None? && !entries[k].converted
  {
    hide NameFor, RemovalLines, Renamed, Manifest.Render;
    CompleteBuilds(p, entries);
    var slot := SlotOf(p, entries, k);
  }

  lemma {:induction false} HintMapGives(index: seq<PckEntry>, hints: seq<Hint>, n: nat)
    requires !BadHint(index, hints) && n <= |hints|
    ensures forall h :: h in hints[..n] ==> h.source in HintMap(hints[..n]) && HintMap(hints[..n])[h.source] == h.extension
    ensures forall i :: i in HintMap(hints[..n]) ==> Hinted(hints[..n], i) && IsFile(index, i)
    decreases n
  {
    hide BadHint, IsFile, HintMap;
    if n == 0 {
      NoHints(hints);
    } else {
      HintMapGives(index, hints, n - 1);
      HintStep(hints, n - 1);
      var last := hints[n - 1];
      assert last in hints[..n];
      forall h | h in hints[..n] ensures h.source == last.source ==> h.extension == last.extension {
        var j :| 0 <= j < n && hints[j] == h;
        GoodHints(index, hints, j, n - 1);
      }
      GoodHints(index, hints, n - 1, n - 1);
      forall i | i in HintMap(hints[..n - 1]) ensures Hinted(hints[..n], i) {
        var h :| h in hints[..n - 1] && h.source == i;
        assert h in hints[..n];
      }
    }
  }

  lemma NoHints(hints: seq<Hint>)
    ensures hints[..0] == [] && HintMap(hints[..0]) == map[]
  {
  }

  lemma GoodHints(index: seq<PckEntry>, hints: seq<Hint>, i: nat, j: nat)
    requires !BadHint(index, hints) && i < |hints| && j < |hints|
    ensures IsFile(index, hints[i].source) && (hints[i].source == hints[j].source ==> hints[i].extension == hints[j].extension)
  {
    hide IsFile;
  }

  lemma HintMapIs(index: seq<PckEntry>, hints: seq<Hint>)
    requires !BadHint(index, hints)
    ensures forall h :: h in hints ==> h.source in HintMap(hints) && HintMap(hints)[h.source] == h.extension
    ensures forall i :: i in HintMap(hints) <==> Hinted(hints, i)
    ensures forall i :: i in HintMap(hints) ==> IsFile(index, i)
  {
    hide HintMap, BadHint;
    HintMapGives(index, hints, |hints|);
    assert hints[..|hints|] == hints;
  }

  /** The raw rows list exactly the files no hint names. */
  lemma RawFiles(index: seq<PckEntry>, hints: seq<Hint>, s: Source) returns (files: seq<nat>)
    requires !BadHint(index, hints) && s.index == index && s.hinted == HintMap(hints)
    ensures ListsRaw(index, hints, files) && |files| == |RawList(s, |index|)|
    ensures forall k :: 0 <= k < |files| ==> files[k] == RawList(s, |index|)[k].index < |index|
  {
    hide HintMap, BadHint, RawRow, NumericFallback;
    HintMapIs(index, hints);
    RawListFacts(s, |index|);
    RawRowsFrom(s, |index|);
    var rows := RawList(s, |index|);
    hide RawList;
    files := seq(|rows|, k requires 0 <= k < |rows| => rows[k].index);
    forall i: nat ensures i in files <==> IsFile(index, i) && !Hinted(hints, i) {
      if i in files { var k :| 0 <= k < |files| && files[k] == i; assert rows[k].index == i; }
      if IsFile(index, i) && !Hinted(hints, i) {
        assert Covered(rows, i);
        var k :| 0 <= k < |rows| && rows[k].index == i;
        assert files[k] == i;
      }
    }
  }

  /** The converted rows list exactly what hints and mappings ask for. */
  lemma ConvertedFiles(platform: Platform, index: seq<PckEntry>, mappings: seq<Mapping>, hints: seq<Hint>, s: Source) returns (os: seq<Origin>)
    requires !BadHint(index, hints) && !BadMapping(platform, mappings)
    requires s.index == index && s.hinted == HintMap(hints) && s.maps == Normalized(platform, mappings)
    ensures ListsConverted(platform, index, mappings, hints, os) && RowsFrom(s, os, ConvertedList(s, |s.maps|))
  {
    hide HintMap, BadHint, BadMapping, ConvertedList, Restored, MappingOf, FirstFile, Precedes, ConvertedAs, Hinted;
    HintMapIs(index, hints);
    os := ConvertedOrigins(s, |s.maps|);
    forall i: nat ensures Own(i) in os <==>
        Hinted(hints, i) && forall k: nat :: k < |mappings| ==> !Restored(platform, index, mappings[k], i)
    {
      MappingOfIsFirst(platform, index, mappings, |mappings|, i);
      if Own(i) in os { var a :| 0 <= a < |os| && os[a] == Own(i); assert RowFrom(s, a, os[a], ConvertedList(s, |s.maps|)[a]); }
    }
    forall i: nat, m: nat ensures Through(i, m) in os <==>
        Hinted(hints, i) && m < |mappings| && Restored(platform, index, mappings[m], i)
    {
      if m < |mappings| { MappingRestores(platform, index, mappings, m, i); }
      if Through(i, m) in os {
        var a :| 0 <= a < |os| && os[a] == Through(i, m);
        assert RowFrom(s, a, os[a], ConvertedList(s, |s.maps|)[a]);
      }
    }
  }

  /** What the raw entries are. */
  ghost predicate RawNamed(p: Plan, mappings: seq<Mapping>, files: seq<nat>, asked: seq<name>, entries: seq<VirtualEntry>, k: nat)
    requires k < |files| <= |asked| <= |entries|
  {
    && entries[k] == VirtualEntry(entries[k].path, Some(files[k]), false, []) && files[k] < |p.index|
    && RawAsks(p.platform, p.maxChars, p.index, mappings, files[k], asked[k])
    && NamedAt(p.platform.fold, p.maxChars, asked, entries, k, files[k])
  }

  /** What the converted entries are; converted rows are numbered behind the archive's entries. */
  ghost predicate ConvertedNamed(p: Plan, mappings: seq<Mapping>, hints: seq<Hint>, first: nat, os: seq<Origin>, asked: seq<name>,
                                 entries: seq<VirtualEntry>, a: nat)
    requires a < |os| && first + |os| <= |asked| <= |entries|
  {
    && entries[first + a] == VirtualEntry(entries[first + a].path, Some(os[a].file), true, []) && os[a].file < |p.index|
    && (forall h :: h in hints && h.source == os[a].file ==>
          ConvertedAsks(p.platform, p.maxChars, p.index, mappings, os[a], h.extension, |p.index| + a, asked[first + a]))
    && NamedAt(p.platform.fold, p.maxChars, asked, entries, first + a, |p.index| + a)
  }

  lemma RawEntries(p: Plan, mappings: seq<Mapping>, s: Source, files: seq<nat>, entries: seq<VirtualEntry>, k: nat)
    requires Complete(p, entries) && !BadMapping(p.platform, mappings) && k < |p.raw| && |p.raw + p.converted| <= |entries|
    requires s == Source(p.platform, p.maxChars, p.index, Normalized(p.platform, mappings), s.hinted) && p.raw == RawList(s, |p.index|)
    requires |files| == |p.raw| && files[k] == p.raw[k].index < |p.index|
    ensures RawNamed(p, mappings, files, Effectives(p.raw + p.converted), entries, k)
  {
    hide Complete, BadMapping, RawRow, RawList, Normalized, RawAsks, NamedAt, Digits;
    RawRowsFrom(s, |p.index|);
    RawRowAsks(p.platform, p.maxChars, p.index, mappings, s, files[k]);
    assert (p.raw + p.converted)[k] == p.raw[k] == RawRow(s, files[k]);
    RowIsNamed(p, entries, k, files[k]);
  }

  lemma ConvertedEntries(p: Plan, mappings: seq<Mapping>, hints: seq<Hint>, s: Source, os: seq<Origin>, entries: seq<VirtualEntry>, a: nat)
    requires Complete(p, entries) && !BadHint(p.index, hints) && !BadMapping(p.platform, mappings) && |p.raw + p.converted| <= |entries|
    requires s == Source(p.platform, p.maxChars, p.index, Normalized(p.platform, mappings), HintMap(hints))
    requires RowsFrom(s, os, p.converted) && a < |os|
    ensures ConvertedNamed(p, mappings, hints, |p.raw|, os, Effectives(p.raw + p.converted), entries, a)
  {
    hide Complete, BadHint, BadMapping, Normalized, HintMap, ConvertedAsks, NamedAt, Digits;
    HintMapIs(p.index, hints);
    var row := p.converted[a];
    assert RowFrom(s, a, os[a], row);
    ConvertedRowAsks(p.platform, p.maxChars, p.index, mappings, s, a, os[a], row);
    assert (p.raw + p.converted)[|p.raw| + a] == row;
    RowIsNamed(p, entries, |p.raw| + a, |p.index| + a);
  }

  /**
   Every entry of a complete tree, by what it shows. First the files no hint names, in archive order, then
   the hinted ones, and then listings. Each row gets the first free candidate of the name it asks for.
   */
  lemma TreeIsNamed(platform: Platform, maxChars: nat, index: seq<PckEntry>, mappings: seq<Mapping>, hints: seq<Hint>,
                    entries: seq<VirtualEntry>) returns (files: seq<nat>, os: seq<Origin>, asked: seq<name>)
    requires !BadHint(index, hints) && !BadMapping(platform, mappings)
    requires Complete(PlanOf(platform, maxChars, index, mappings, hints), entries)
    ensures ListsRaw(index, hints, files) && ListsConverted(platform, index, mappings, hints, os)
    ensures |asked| == |files| + |os| <= |entries|
    ensures var p := PlanOf(platform, maxChars, index, mappings, hints);
            && (forall k: nat :: k < |files| ==> RawNamed(p, mappings, files, asked, entries, k))
            && (forall a: nat :: a < |os| ==> ConvertedNamed(p, mappings, hints, |files|, os, asked, entries, a))
    ensures forall k :: |asked| <= k < |entries| ==> entries[k].source.None? && !entries[k].converted
  {
    hide Complete, BadHint, BadMapping, Normalized, HintMap, RawList, ConvertedList, RawNamed, ConvertedNamed, ListsRaw, ListsConverted, RowsFrom;
    var p := PlanOf(platform, maxChars, index, mappings, hints);
    var s := Source(platform, maxChars, index, Normalized(platform, mappings), HintMap(hints));
    TreeSize(p, entries);
    files := RawFiles(index, hints, s);
    os := ConvertedFiles(platform, index, mappings, hints, s);
    OriginCount(s, os, p.converted);
    asked := Effectives(p.raw + p.converted);
    forall k: nat | k < |files| ensures RawNamed(p, mappings, files, asked, entries, k) {
      RawEntries(p, mappings, s, files, entries, k);
    }
    forall a: nat | a < |os| ensures ConvertedNamed(p, mappings, hints, |files|, os, asked, entries, a) {
      ConvertedEntries(p, mappings, hints, s, os, entries, a);
    }
    forall k | |asked| <= k < |entries| ensures entries[k].source.None? && !entries[k].converted {
      ListingsHaveNoSource(p, entries, k);
    }
  }

  lemma OriginCount(s: Source, os: seq<Origin>, rows: seq<ViewRow>)
    requires RowsFrom(s, os, rows)
    ensures |os| == |rows|
  {
  }

  // ---- a consequence

  /** A free name is given as it is. */
  lemma FreeNameIsGiven(fold: Fold, maxChars: nat, asked: seq<name>, entries: seq<VirtualEntry>, k: nat, number: nat)
    requires k < |asked| <= |entries| && NamedAt(fold, maxChars, asked, entries, k, number) && Fits(asked[k], maxChars)
    requires Key(fold, asked[k]) !in PathKeys(fold, entries[..k]) + Reserved(fold, asked)
    ensures entries[k].path == asked[k]
  {
    hide Key, Fits, PathKeys, Reserved;
    var taken := PathKeys(fold, entries[..k]) + Reserved(fold, asked);
    assert Candidate(asked[k], 0) == asked[k];
    assert ScanFinds(fold, maxChars, taken, asked[k], Some(asked[k]));
    NameIsDeterministic(fold, maxChars, taken, asked[k], Digits(number), entries[k].path, asked[k]);
  }

  /**
   A hinted file that no mapping names, that escaping leaves alone and that already ends in its extension
   keeps its name, if it fits and is free: its entry has no row in the name map.
   */
  lemma OwnExtensionStays(platform: Platform, maxChars: nat, index: seq<PckEntry>, i: nat, extension: seq<byte>, number: nat, w: name, e: nat)
    requires i < |index| && platform.unitCount(index[i].path) <= maxChars
    requires Asks(platform, maxChars, index[i].path, [], Some(extension), number, w)
    requires var escaped := platform.escapePath(index[i].path);
             && StemEnds(escaped, e) && escaped[e..] == platform.escapeFragment(extension)
             && Fits(escaped, maxChars) && platform.encode(escaped) == index[i].path
    ensures w == platform.escapePath(index[i].path) && platform.encode(w) == index[i].path
  {
    hide Fits;
    var escaped := platform.escapePath(index[i].path);
    var full :| Spells(platform, index[i].path, [], Some(extension), full) && w == Kept(maxChars, full, number);
    var f: nat :| StemEnds(escaped, f) && full == escaped[..f] + [] + platform.escapeFragment(extension);
    StemIsUnique(escaped, e, f);
    assert full == escaped[..e] + escaped[e..] == escaped;
  }

  lemma HintedFileKeepsItsName(p: Plan, mappings: seq<Mapping>, hints: seq<Hint>, first: nat, os: seq<Origin>, asked: seq<name>,
                               entries: seq<VirtualEntry>, a: nat, h: Hint, e: nat)
    requires a < |os| && first + |os| <= |asked| <= |entries| && ConvertedNamed(p, mappings, hints, first, os, asked, entries, a)
    requires h in hints && os[a] == Own(h.source) && h.source < |p.index| && p.platform.unitCount(p.index[h.source].path) <= p.maxChars
    requires var escaped := p.platform.escapePath(p.index[h.source].path);
             && StemEnds(escaped, e) && escaped[e..] == p.platform.escapeFragment(h.extension)
             && Fits(escaped, p.maxChars) && p.platform.encode(escaped) == p.index[h.source].path
             && Key(p.platform.fold, escaped) !in PathKeys(p.platform.fold, entries[..first + a]) + Reserved(p.platform.fold, asked)
    ensures entries[first + a].path == p.platform.escapePath(p.index[h.source].path)
    ensures p.platform.encode(entries[first + a].path) == p.index[h.source].path
  {
    hide Fits, Key, PathKeys, Reserved, NamedAt, StemEnds, Asks;
    OwnExtensionStays(p.platform, p.maxChars, p.index, h.source, h.extension, |p.index| + a, asked[first + a], e);
    FreeNameIsGiven(p.platform.fold, p.maxChars, asked, entries, first + a, |p.index| + a);
  }

  // ---- the name map

  /** An entry shown under another name than its file has, and the row that says so. */
  ghost predicate RenamesAt(platform: Platform, index: seq<PckEntry>, entries: seq<VirtualEntry>, k: nat, row: Manifest.Row)
  {
    && k < |entries| && entries[k].source == Some(row.index) && row.index < |index|
    && row.physical == index[row.index].path && row.presented == platform.encode(entries[k].path)
    && row.physical != row.presented
  }

  lemma {:induction false} RenamedIsExact(platform: Platform, index: seq<PckEntry>, entries: seq<VirtualEntry>, row: Manifest.Row)
    ensures row in Renamed(platform, index, entries) <==> exists k :: RenamesAt(platform, index, entries, k, row)
    decreases |entries|
  {
    if entries != [] {
      var init, last := entries[..|entries| - 1], |entries| - 1;
      RenamedIsExact(platform, index, init, row);
      if k: nat :| RenamesAt(platform, index, init, k, row) { assert RenamesAt(platform, index, entries, k, row); }
      if RenamesAt(platform, index, entries, last, row) { }
      if k: nat :| RenamesAt(platform, index, entries, k, row) {
        if k < last { assert RenamesAt(platform, index, init, k, row); }
      }
    }
  }
}
