/** Builds the presentation tree of a PCK archive within a metadata budget. */
module VirtualTree {
  import opened Bytes
  import opened Decimal
  import opened Placement
  import opened Placer
  import opened TreeCost
  import opened TreePlan
  import Manifest
  import Utf8

  class Builder {
    const platform: Platform
    const index: seq<PckEntry>
    const limits: Limits
    const pool: Budget

    ghost predicate Ready()
      reads pool
    {
      pool.Valid() && FoldOk(platform.fold)
    }

    constructor (platform: Platform, index: seq<PckEntry>, limits: Limits)
      requires FoldOk(platform.fold)
      ensures Ready() && fresh(pool) && pool.used == 0 && pool.limit == limits.maxMetadata
      ensures this.platform == platform && this.index == index && this.limits == limits
    {
      this.platform, this.index, this.limits := platform, index, limits;
      pool := new Budget(limits.maxMetadata);
    }

    /** The extension chosen for each hinted file. */
    method CollectHints(hints: seq<Hint>) returns (status: Result, chosen: map<nat, seq<byte>>)
      requires Ready()
      modifies pool
      ensures Ready()
      ensures status.Fault? ==> BadHint(index, hints)
      ensures status.Tree? ==> !BadHint(index, hints)
      ensures status.Tree? ==> chosen.Keys == set h | h in hints :: h.source
      ensures status.Tree? ==> chosen == HintMap(hints)
      ensures status.Tree? ==> forall i :: i in chosen ==> IsFile(index, i)
      ensures status.Tree? ==> pool.used == old(pool.used) + HintCost(hints, 0)
      ensures status.Exhausted? ==> old(pool.used) + HintCost(hints, 0) > pool.limit
    {
      hide HintMap, HintsOk, BadHint;
      chosen := map[];
      var n := 0;
      NoHints(hints[..0]);
      NothingChosen(hints);
      while n < |hints|
        invariant n <= |hints| && Ready() && HintsOk(hints, n, chosen) && chosen == HintMap(hints[..n])
        invariant pool.used + HintCost(hints, n) == old(pool.used) + HintCost(hints, 0)
      {
        var hint := hints[n];
        HintStep(hints, n);
        HintChosen(hints, n, chosen);
        if hint.source >= |index| || index[hint.source].kind != File { return Fault, chosen; }
        if hint.extension !in EXTENSIONS { return Fault, chosen; }
        if hint.source !in chosen {
          var ok := pool.Charge(|hint.extension| + MAP_OVERHEAD);
          if !ok { return Exhausted, chosen; }
          chosen := chosen[hint.source := hint.extension];
        } else if chosen[hint.source] != hint.extension {
          return Fault, chosen;
        }
        n := n + 1;
      }
      AllHintsChosen(hints, chosen);
      assert hints[..n] == hints;
      status := Tree([]);
    }

    /** The first `n` hints are good, and each has its extension in the table. */
    ghost predicate HintsOk(hints: seq<Hint>, n: nat, chosen: map<nat, seq<byte>>)
      requires n <= |hints|
    {
      && chosen.Keys == (set i | 0 <= i < n :: hints[i].source)
      && forall i :: 0 <= i < n ==>
           && IsFile(index, hints[i].source) && hints[i].extension in EXTENSIONS
           && hints[i].source in chosen && chosen[hints[i].source] == hints[i].extension
    }

    lemma NothingChosen(hints: seq<Hint>)
      ensures HintsOk(hints, 0, map[])
    {
    }

    lemma HintChosen(hints: seq<Hint>, n: nat, chosen: map<nat, seq<byte>>)
      requires n < |hints| && HintsOk(hints, n, chosen)
      ensures var hint := hints[n];
              if !IsFile(index, hint.source) || hint.extension !in EXTENSIONS
                 || (hint.source in chosen && chosen[hint.source] != hint.extension)
              then BadHint(index, hints)
              else HintsOk(hints, n + 1, chosen[hint.source := hint.extension])
                   && (hint.source in chosen ==> chosen[hint.source := hint.extension] == chosen)
    {
      var hint := hints[n];
      if hint.source in chosen {
        var i :| 0 <= i < n && hints[i].source == hint.source;
      }
    }

    lemma AllHintsChosen(hints: seq<Hint>, chosen: map<nat, seq<byte>>)
      requires HintsOk(hints, |hints|, chosen)
      ensures !BadHint(index, hints) && chosen.Keys == (set h | h in hints :: h.source)
      ensures forall i :: i in chosen ==> IsFile(index, i)
    {
    }

    /** Normalizes the mappings, in order. */
    method CollectMappings(mappings: seq<Mapping>) returns (status: Result, maps: seq<Mapping>)
      requires Ready()
      modifies pool
      ensures Ready()
      ensures status.Fault? ==> BadMapping(platform, mappings)
      ensures status.Tree? ==> !BadMapping(platform, mappings) && maps == Normalized(platform, mappings)
      ensures status.Tree? ==> pool.used == old(pool.used) + MappingCost(mappings, 0)
      ensures status.Exhausted? ==> old(pool.used) + MappingCost(mappings, 0) > pool.limit
    {
      maps := [];
      var n := 0;
      while n < |mappings|
        invariant n <= |mappings| && Ready() && maps == Normalized(platform, mappings)[..n]
        invariant pool.used + MappingCost(mappings, n) == old(pool.used) + MappingCost(mappings, 0)
        invariant forall i :: 0 <= i < n ==>
            platform.normalize(mappings[i].logical).Some? && platform.normalize(mappings[i].compiled).Some?
      {
        var mapping := mappings[n];
        var ok := pool.Charge(|mapping.logical| + |mapping.compiled| + |mapping.variant| + MAPPING_SLOT + ROW_OVERHEAD);
        if !ok { return Exhausted, maps; }
        var logical, compiled := platform.normalize(mapping.logical), platform.normalize(mapping.compiled);
        if logical.None? || compiled.None? { return Fault, maps; }
        maps := maps + [Mapping(logical.value, compiled.value, mapping.variant)];
        n := n + 1;
      }
      status := Tree([]);
    }

    /** A table of the first file under each path, over the first `n` entries. */
    ghost predicate FirstOk(first: map<seq<byte>, nat>, n: nat)
      requires n <= |index|
    {
      forall p :: FirstFile(index, n, p) == if p in first then Some(first[p]) else None
    }

    /** A table of the first mapping that names each file, over the first `n` mappings. */
    ghost predicate MappedOk(mapped: map<nat, nat>, maps: seq<Mapping>, n: nat)
      requires n <= |maps|
    {
      forall i :: MappingOf(index, maps, n, i) == if i in mapped then Some(mapped[i]) else None
    }

    /** The first file stored under each path. */
    method FirstWithPath() returns (ok: bool, first: map<seq<byte>, nat>)
      requires Ready()
      modifies pool
      ensures Ready()
      ensures ok ==> FirstOk(first, |index|)
      ensures ok ==> pool.used == old(pool.used) + PathCost(index, 0)
      ensures !ok ==> old(pool.used) + PathCost(index, 0) > pool.limit
    {
      first := map[];
      ok := true;
      var i := 0;
      while i < |index|
        invariant i <= |index| && Ready() && FirstOk(first, i)
        invariant ok && pool.used + PathCost(index, i) == old(pool.used) + PathCost(index, 0)
      {
        if index[i].kind == File && index[i].path !in first {
          ok := pool.Charge(|index[i].path| + MAP_OVERHEAD);
          if !ok { return; }
          first := first[index[i].path := i];
        }
        i := i + 1;
      }
    }

    /** The first mapping that names each mapped file. */
    method FirstMapping(maps: seq<Mapping>, first: map<seq<byte>, nat>) returns (ok: bool, mapped: map<nat, nat>)
      requires Ready() && FirstOk(first, |index|)
      modifies pool
      ensures Ready()
      ensures ok ==> MappedOk(mapped, maps, |maps|)
      ensures ok ==> pool.used == old(pool.used) + FirstCost(index, maps, 0)
      ensures !ok ==> old(pool.used) + FirstCost(index, maps, 0) > pool.limit
    {
      hide FirstFile, FirstOk, MappedOk;
      mapped := map[];
      ok := true;
      var n := 0;
      NothingMapped(maps);
      while n < |maps|
        invariant n <= |maps| && Ready() && MappedOk(mapped, maps, n)
        invariant ok && pool.used + FirstCost(index, maps, n) == old(pool.used) + FirstCost(index, maps, 0)
      {
        MappingStep(maps, first, mapped, n);
        if maps[n].compiled in first && first[maps[n].compiled] !in mapped {
          ok := pool.Charge(MAP_OVERHEAD + INDEX_SLOTS);
          if !ok { return; }
          mapped := mapped[first[maps[n].compiled] := n];
        }
        n := n + 1;
      }
    }

    lemma NothingMapped(maps: seq<Mapping>)
      ensures MappedOk(map[], maps, 0)
    {
    }

    lemma MappingStep(maps: seq<Mapping>, first: map<seq<byte>, nat>, mapped: map<nat, nat>, n: nat)
      requires FirstOk(first, |index|) && n < |maps| && MappedOk(mapped, maps, n)
      ensures var path := maps[n].compiled;
              if path in first && first[path] !in mapped then MappedOk(mapped[first[path] := n], maps, n + 1)
              else MappedOk(mapped, maps, n + 1)
      ensures FirstFile(index, |index|, maps[n].compiled) == if maps[n].compiled in first then Some(first[maps[n].compiled]) else None
      ensures forall i :: MappingOf(index, maps, n, i).None? <==> i !in mapped
    {
      hide FirstFile;
      assert FirstFile(index, |index|, maps[n].compiled)
          == if maps[n].compiled in first then Some(first[maps[n].compiled]) else None;
    }

    function From(maps: seq<Mapping>, chosen: map<nat, seq<byte>>): Source
    {
      Source(platform, limits.maxChars, index, maps, chosen)
    }

    /** The raw row of one file. */
    method MakeRaw(maps: seq<Mapping>, ghost chosen: map<nat, seq<byte>>, mapped: map<nat, nat>, i: nat)
        returns (ok: bool, row: ViewRow)
      requires Ready() && MappedOk(mapped, maps, |maps|) && i < |index|
      modifies pool
      ensures Ready() && row == RawRow(From(maps, chosen), i)
      ensures ok ==> pool.used == old(pool.used) + RowCost(platform, row)
      ensures !ok ==> old(pool.used) + RowCost(platform, row) > pool.limit
    {
      hide PresentedPath, ExtensionStart, Digits;
      assert MappingOf(index, maps, |maps|, i) == if i in mapped then Some(mapped[i]) else None;
      var fallback: name := Digits(i);
      var effective;
      if i in mapped {
        var mapping := maps[mapped[i]];
        var extension := mapping.compiled[ExtensionStart(mapping.compiled)..];
        effective := PresentedPath(platform, limits.maxChars, mapping.logical, mapping.variant, Some(extension), fallback);
      } else {
        effective := PresentedPath(platform, limits.maxChars, index[i].path, [], None, fallback);
      }
      row := ViewRow(effective, fallback, i);
      ok := pool.Charge(|platform.encode(effective)| + |fallback| + ROW_OVERHEAD);
    }

    /** One raw row for every file without a hint, in archive order. */
    method RawRows(chosen: map<nat, seq<byte>>, maps: seq<Mapping>, mapped: map<nat, nat>)
        returns (ok: bool, rows: seq<ViewRow>)
      requires Ready() && MappedOk(mapped, maps, |maps|)
      modifies pool
      ensures Ready()
      ensures ok ==> rows == RawList(From(maps, chosen), |index|)
      ensures ok ==> pool.used == old(pool.used) + |index| * ROW_SLOT + RawCost(From(maps, chosen), 0)
      ensures !ok ==> old(pool.used) + |index| * ROW_SLOT + RawCost(From(maps, chosen), 0) > pool.limit
    {
      hide RawRow, MappedOk;
      rows := [];
      ok := pool.ReserveSlots(|index|, ROW_SLOT);
      if !ok { return; }
      var i := 0;
      while i < |index|
        invariant i <= |index| && Ready() && rows == RawList(From(maps, chosen), i)
        invariant ok && pool.used + RawCost(From(maps, chosen), i) == old(pool.used) + |index| * ROW_SLOT + RawCost(From(maps, chosen), 0)
      {
        if index[i].kind == File && i !in chosen {
          var row;
          ok, row := MakeRaw(maps, chosen, mapped, i);
          if !ok { return; }
          rows := rows + [row];
        }
        i := i + 1;
      }
    }

    method MakeConverted(ghost s: Source, rows: seq<ViewRow>, i: nat, path: seq<byte>, variant: seq<byte>, extension: seq<byte>)
        returns (ok: bool, row: ViewRow)
      requires Ready() && s.platform == platform && s.maxChars == limits.maxChars && s.index == index
      modifies pool
      ensures Ready() && row == ConvertedAs(s, |rows|, i, path, variant, extension)
      ensures ok ==> pool.used == old(pool.used) + RowCost(platform, row) + ROW_SLOT
      ensures !ok ==> old(pool.used) + RowCost(platform, row) + ROW_SLOT > pool.limit
    {
      hide PresentedPath, Digits;
      var fallback: name := Digits(|index| + |rows|);
      var effective := PresentedPath(platform, limits.maxChars, path, variant, Some(extension), fallback);
      row := ViewRow(effective, fallback, i);
      ok := pool.Charge(|platform.encode(effective)| + |fallback| + ROW_SLOT + ROW_OVERHEAD);
    }

    /** A converted row for every hinted file that nothing maps. */
    method UnmappedConvertedRows(chosen: map<nat, seq<byte>>, maps: seq<Mapping>, mapped: map<nat, nat>)
        returns (ok: bool, rows: seq<ViewRow>)
      requires Ready() && MappedOk(mapped, maps, |maps|)
      modifies pool
      ensures Ready()
      ensures ok ==> rows == UnmappedList(From(maps, chosen), |index|)
      ensures ok ==> pool.used == old(pool.used) + UnmappedCost(From(maps, chosen), 0)
      ensures !ok ==> old(pool.used) + UnmappedCost(From(maps, chosen), 0) > pool.limit
    {
      hide ConvertedAs, MappingOf;
      rows := [];
      ok := true;
      var i := 0;
      while i < |index|
        invariant i <= |index| && Ready() && rows == UnmappedList(From(maps, chosen), i)
        invariant ok && pool.used + UnmappedCost(From(maps, chosen), i) == old(pool.used) + UnmappedCost(From(maps, chosen), 0)
      {
        assert MappingOf(index, maps, |maps|, i) == if i in mapped then Some(mapped[i]) else None;
        if i in chosen && i !in mapped {
          var row;
          ok, row := MakeConverted(From(maps, chosen), rows, i, index[i].path, [], chosen[i]);
          if !ok { return; }
          rows := rows + [row];
        }
        i := i + 1;
      }
    }

    /** Converted rows: hinted files that nothing maps, then one row for each mapping of a hinted file. */
    method ConvertedRows(chosen: map<nat, seq<byte>>, maps: seq<Mapping>, first: map<seq<byte>, nat>,
                         mapped: map<nat, nat>) returns (ok: bool, rows: seq<ViewRow>)
      requires Ready()
      requires FirstOk(first, |index|) && MappedOk(mapped, maps, |maps|)
      modifies pool
      ensures Ready()
      ensures ok ==> rows == ConvertedList(From(maps, chosen), |maps|)
      ensures ok ==> pool.used == old(pool.used) + UnmappedCost(From(maps, chosen), 0) + ConvertedCost(From(maps, chosen), 0)
      ensures !ok ==> old(pool.used) + UnmappedCost(From(maps, chosen), 0) + ConvertedCost(From(maps, chosen), 0) > pool.limit
    {
      hide ConvertedAs, FirstFile, UnmappedList, MappedOk;
      ok, rows := UnmappedConvertedRows(chosen, maps, mapped);
      if !ok { return; }
      var n := 0;
      while n < |maps|
        invariant n <= |maps| && Ready() && rows == ConvertedList(From(maps, chosen), n)
        invariant ok && pool.used + ConvertedCost(From(maps, chosen), n)
                      == old(pool.used) + UnmappedCost(From(maps, chosen), 0) + ConvertedCost(From(maps, chosen), 0)
      {
        assert FirstFile(index, |index|, maps[n].compiled)
            == if maps[n].compiled in first then Some(first[maps[n].compiled]) else None;
        if maps[n].compiled in first && first[maps[n].compiled] in chosen {
          var target := first[maps[n].compiled];
          var row;
          ok, row := MakeConverted(From(maps, chosen), rows, target, maps[n].logical, maps[n].variant, chosen[target]);
          if !ok { return; }
          rows := rows + [row];
        }
        n := n + 1;
      }
    }

    /** Reserves the directories of every row before any row is placed. */
    method ReserveRows(tree: Placer, rows: seq<ViewRow>) returns (ok: bool)
      requires Ready() && tree.Valid() && tree.pool == pool && tree.fold == platform.fold
      modifies tree`dirs, pool
      ensures Ready()
      ensures ok ==> tree.Valid() && tree.dirs == old(tree.dirs) + DirKeys(platform.fold, rows)
      ensures ok ==> pool.used == old(pool.used) + DirCost(platform.fold, rows, 0)
      ensures !ok ==> old(pool.used) + DirCost(platform.fold, rows, 0) > pool.limit
    {
      ok := true;
      var k := 0;
      while k < |rows|
        invariant k <= |rows| && Ready() && tree.Valid()
        invariant ok && pool.used + DirCost(platform.fold, rows, k) == old(pool.used) + DirCost(platform.fold, rows, 0)
        invariant tree.dirs == old(tree.dirs) + DirKeys(platform.fold, rows[..k])
      {
        ok := tree.ReserveAncestors(rows[k].effective);
        if !ok { return; }
        assert rows[..k + 1][..k] == rows[..k];
        k := k + 1;
      }
      assert rows[..k] == rows;
    }

    /** Appends one entry within the entry limit. */
    method AddEntry(entries: seq<VirtualEntry>, entry: VirtualEntry) returns (status: Result)
      requires Ready()
      modifies pool
      ensures Ready()
      ensures status.Fault? ==> |entries| >= limits.maxEntries
      ensures status.Tree? ==> status.entries == entries + [entry] && |entries| < limits.maxEntries
      ensures status.Tree? ==> pool.used == old(pool.used) + KeepCost(platform, entry)
      ensures status.Exhausted? ==> old(pool.used) + KeepCost(platform, entry) > pool.limit
    {
      if |entries| >= limits.maxEntries { return Fault; }
      var ok := pool.Charge(|platform.encode(entry.path)| + |entry.text| + ENTRY_OVERHEAD);
      if !ok { return Exhausted; }
      return Tree(entries + [entry]);
    }

    /** The placer stands behind these entries, which are the plan's so far. */
    ghost predicate TreeOk(p: Plan, start: nat, tree: Placer, entries: seq<VirtualEntry>)
      reads tree, pool
    {
      && Ready() && tree.pool == pool && tree.Valid()
      && tree.fold == platform.fold && tree.maxChars == limits.maxChars
      && p.platform == platform && p.maxChars == limits.maxChars && p.index == index
      && tree.files == PathKeys(platform.fold, entries) && tree.dirs == DirKeys(platform.fold, p.raw + p.converted)
      && Built(p, entries) && |entries| <= limits.maxEntries
      && pool.used == start + EntriesCost(p, entries) && tree.memo.Keys == Collided(p, entries)
    }

    /** The name map so far lists exactly the renamed entries so far. */
    ghost predicate MapOk(entries: seq<VirtualEntry>, text: seq<byte>)
    {
      text == Manifest.Render(Renamed(platform, index, entries))
    }

    /** Places the next name of the plan; when there is none, the plan is stuck. */
    method PlaceName(ghost p: Plan, ghost start: nat, tree: Placer, ghost entries: seq<VirtualEntry>, preferred: name, fallback: name)
        returns (placed: Placed)
      requires TreeOk(p, start, tree, entries) && NextSlot(p, entries).Some?
      requires var slot := NextSlot(p, entries).value; slot.preferred == preferred && slot.fallback == fallback
      modifies tree`memo, tree`files, pool
      ensures Ready()
      ensures placed.NoRoom? ==> Stuck(p, limits.maxEntries, entries)
      ensures placed.Placed? ==> tree.Valid() && tree.files == old(tree.files) + {Key(platform.fold, placed.path)}
      ensures placed.Placed? ==>
                NameFor(platform.fold, limits.maxChars, TakenBefore(p, entries), preferred, fallback, placed.path)
      ensures placed.Placed? ==> pool.used == start + EntriesCost(p, entries) + PlaceCost(p, entries, placed.path)
      ensures placed.Placed? ==> tree.memo.Keys == Collided(p, entries) + Collision(p, entries, placed.path)
      ensures placed.OverBudget? ==> Broke(p, start, pool.limit, entries)
    {
      hide Key, Fits, Ancestors, ScanFinds, MemoOk, PathKeys, DirKeys, NextSlot, Built, EntriesCost, Collided, CollidedBase,
        PlacementCost;
      placed := tree.Place(preferred, fallback);
      if placed.OverBudget? {
        ghost var path :| tree.PassesBudget(TakenBefore(p, entries), Collided(p, entries), start + EntriesCost(p, entries), preferred, fallback, path);
        ghost var slot := NextSlot(p, entries).value;
        assert NextPasses(p, start, pool.limit, entries, VirtualEntry(path, slot.source, slot.converted, slot.text));
      }
    }

    /** The line for a renamed file, charged before it is built. */
    method RenamedLine(row: Manifest.Row) returns (ok: bool, text: seq<byte>)
      requires Ready()
      modifies pool
      ensures Ready() && (ok ==> text == Manifest.RowText(row))
      ensures ok ==> pool.used == old(pool.used) + |Manifest.RowText(row)|
      ensures !ok ==> old(pool.used) + |Manifest.RowText(row)| > pool.limit
    {
      hide Manifest.EscapeField, Utf8.WellFormed, Digits;
      text := [];
      var physical, presented := Utf8.WellFormed(row.physical), Utf8.WellFormed(row.presented);
      var bound := Manifest.RowBound(row, physical, presented);
      ok := pool.Charge(bound);
      if !ok { return; }
      var left := Manifest.WriteField(row.physical, physical);
      var right := Manifest.WriteField(row.presented, presented);
      text := Digits(row.index) + [Manifest.TAB] + left + [Manifest.TAB] + right + [Manifest.NEWLINE];
    }

    lemma MapGrows(entries: seq<VirtualEntry>, text: seq<byte>, entry: VirtualEntry)
      requires MapOk(entries, text) && (entry.source.Some? ==> entry.source.value < |index|)
      ensures var renamed := entry.source.Some? && platform.encode(entry.path) != index[entry.source.value].path;
              if renamed then
                var i := entry.source.value;
                var row := Manifest.Row(i, index[i].path, platform.encode(entry.path));
                MapOk(entries + [entry], text + Manifest.RowText(row))
              else MapOk(entries + [entry], text)
    {
      hide Manifest.RowText;
      var rows, all := Renamed(platform, index, entries), entries + [entry];
      assert all[..|all| - 1] == entries;
      if entry.source.Some? {
        var i := entry.source.value;
        Manifest.RenderAppends(rows, Manifest.Row(i, index[i].path, platform.encode(entry.path)));
      }
    }

    /** Adds the entry whose name was just placed, or finds the entry limit reached. */
    method AddPlaced(ghost p: Plan, ghost start: nat, tree: Placer, entries: seq<VirtualEntry>, entry: VirtualEntry) returns (status: Result)
      requires Ready() && tree.pool == pool && tree.Valid() && tree.fold == platform.fold && tree.maxChars == limits.maxChars
      requires p.platform == platform && p.maxChars == limits.maxChars && p.index == index
      requires tree.dirs == DirKeys(platform.fold, p.raw + p.converted)
      requires tree.files == PathKeys(platform.fold, entries) + {Key(platform.fold, entry.path)}
      requires Built(p, entries) && NextSlot(p, entries).Some? && Fills(p, entries, NextSlot(p, entries).value, entry)
      requires pool.used == start + EntriesCost(p, entries) + PlaceCost(p, entries, entry.path) + RenameCost(platform, index, entry)
      requires tree.memo.Keys == Collided(p, entries) + Collision(p, entries, entry.path)
      modifies pool
      ensures Ready()
      ensures status.Tree? ==> TreeOk(p, start, tree, status.entries) && status.entries == entries + [entry]
      ensures status.Fault? ==> Stuck(p, limits.maxEntries, entries)
      ensures status.Exhausted? ==> Broke(p, start, pool.limit, entries)
    {
      hide Key, PathKeys, DirKeys, NextSlot, Fills, Built, MemoOk, EntriesCost, Collided, Collision, PlaceCost, RenameCost, KeepCost;
      CostOfNext(p, entries, entry);
      KeysGrow(platform.fold, entries, entry);
      BuiltGrows(p, entries, entry);
      status := AddEntry(entries, entry);
      if status.Exhausted? { assert NextPasses(p, start, pool.limit, entries, entry); }
    }

    /** Places one row and, when its name changed, adds it to the name map. */
    method AppendRow(ghost p: Plan, ghost start: nat, tree: Placer, entries: seq<VirtualEntry>, text: seq<byte>, row: ViewRow, converted: bool)
        returns (status: Result, mapText: seq<byte>)
      requires TreeOk(p, start, tree, entries) && MapOk(entries, text) && row.index < |index|
      requires NextSlot(p, entries) == Some(Slot(row.effective, row.fallback, Some(row.index), converted, []))
      modifies tree`memo, tree`files, pool
      ensures Ready()
      ensures status.Tree? ==> TreeOk(p, start, tree, status.entries) && MapOk(status.entries, mapText)
      ensures status.Tree? ==> |status.entries| == |entries| + 1
      ensures status.Fault? ==> Stuck(p, limits.maxEntries, entries)
      ensures status.Exhausted? ==> Broke(p, start, pool.limit, entries)
    {
      hide NameFor, PathKeys, DirKeys, NextSlot, Built, Renamed, Stuck, Key, MemoOk, Manifest.RowText, Manifest.Render, EntriesCost,
        Collided, Collision, PlaceCost, KeepCost;
      mapText := text;
      var placed := PlaceName(p, start, tree, entries, row.effective, row.fallback);
      if placed.NoRoom? { return Fault, text; }
      if placed.OverBudget? { return Exhausted, text; }
      var entry := VirtualEntry(placed.path, Some(row.index), converted, []);
      MapGrows(entries, text, entry);
      var final, physical := platform.encode(placed.path), index[row.index].path;
      if final != physical {
        var ok, line := RenamedLine(Manifest.Row(row.index, physical, final));
        if !ok {
          assert NextPasses(p, start, pool.limit, entries, entry);
          return Exhausted, text;
        }
        mapText := text + line;
      }
      status := AddPlaced(p, start, tree, entries, entry);
    }

    /** Places a run of rows in order. */
    method AppendRows(ghost p: Plan, ghost start: nat, tree: Placer, placed: seq<VirtualEntry>, text: seq<byte>, rows: seq<ViewRow>, converted: bool)
        returns (status: Result, mapText: seq<byte>)
      requires TreeOk(p, start, tree, placed) && MapOk(placed, text) && |placed| + |rows| <= |p.raw| + |p.converted|
      requires forall k :: 0 <= k < |rows| ==> rows[k].index < |index|
      requires rows == (p.raw + p.converted)[|placed|..|placed| + |rows|]
      requires if converted then |p.raw| <= |placed| else |placed| + |rows| <= |p.raw|
      modifies tree`memo, tree`files, pool
      ensures Ready()
      ensures status.Tree? ==> TreeOk(p, start, tree, status.entries) && MapOk(status.entries, mapText)
      ensures status.Tree? ==> |status.entries| == |placed| + |rows|
      ensures status.Fault? ==> exists before :: Stuck(p, limits.maxEntries, before)
      ensures status.Exhausted? ==> exists before :: Broke(p, start, pool.limit, before)
    {
      hide PathKeys, DirKeys, Built, Stuck, Key, MemoOk, MapOk, Listings, EntriesCost, Collided, Broke;
      status, mapText := Tree(placed), text;
      var k := 0;
      while k < |rows|
        invariant k <= |rows| && status.Tree? && tree.dirs == old(tree.dirs) && |status.entries| == |placed| + k
        invariant TreeOk(p, start, tree, status.entries) && MapOk(status.entries, mapText)
      {
        assert rows[k] == (p.raw + p.converted)[|placed| + k];
        status, mapText := AppendRow(p, start, tree, status.entries, mapText, rows[k], converted);
        if !status.Tree? { return; }
        k := k + 1;
      }
    }

    /** One line for every removal record, in archive order. */
    method RemovalText() returns (ok: bool, text: seq<byte>)
      requires Ready()
      modifies pool
      ensures Ready() && (ok ==> text == RemovalLines(index, |index|))
      ensures ok ==> pool.used == old(pool.used) + RemovalCost(index, 0)
      ensures !ok ==> old(pool.used) + RemovalCost(index, 0) > pool.limit
    {
      hide Manifest.EscapeField, Utf8.WellFormed, Digits;
      text := [];
      ok := true;
      var i := 0;
      while i < |index|
        invariant i <= |index| && Ready() && text == RemovalLines(index, i)
        invariant ok && pool.used + RemovalCost(index, i) == old(pool.used) + RemovalCost(index, 0)
      {
        if index[i].kind == Removal {
          var physical := index[i].path;
          var valid := Utf8.WellFormed(physical);
          var size := Manifest.EscapedFieldSize(physical, valid);
          var digits := DigitCount(i);
          ok := pool.Charge(digits + size + 2);
          if !ok { return; }
          var field := Manifest.WriteField(physical, valid);
          text := text + (Digits(i) + [Manifest.TAB] + field + [Manifest.NEWLINE]);
        }
        i := i + 1;
      }
    }

    /** Places and appends the next generated listing of the plan. */
    method AppendGenerated(ghost p: Plan, ghost start: nat, tree: Placer, entries: seq<VirtualEntry>, preferred: name, fallback: name, text: seq<byte>)
        returns (status: Result)
      requires TreeOk(p, start, tree, entries)
      requires NextSlot(p, entries) == Some(Slot(preferred, fallback, None, false, text))
      modifies tree`memo, tree`files, pool
      ensures Ready()
      ensures status.Tree? ==> TreeOk(p, start, tree, status.entries)
      ensures status.Tree? ==> |status.entries| == |entries| + 1 && status.entries[..|entries|] == entries
      ensures status.Fault? ==> Stuck(p, limits.maxEntries, entries)
      ensures status.Exhausted? ==> Broke(p, start, pool.limit, entries)
    {
      hide NameFor, PathKeys, DirKeys, NextSlot, Built, Stuck, Key, MemoOk, EntriesCost, Collided, Collision, PlaceCost, Broke;
      var placed := PlaceName(p, start, tree, entries, preferred, fallback);
      match placed {
        case NoRoom => return Fault;
        case OverBudget => return Exhausted;
        case Placed(path) =>
          var entry := VirtualEntry(path, None, false, text);
          assert (entries + [entry])[..|entries|] == entries;
          status := AddPlaced(p, start, tree, entries, entry);
      }
    }

    /** Appends the listings of removals and of renames, when they list anything; the tree is then complete. */
    method AppendListings(ghost p: Plan, ghost start: nat, ghost spent: nat, tree: Placer, files: seq<VirtualEntry>, mapText: seq<byte>)
        returns (status: Result)
      requires TreeOk(p, start, tree, files) && MapOk(files, mapText) && |files| == |p.raw| + |p.converted|
      requires spent == start + RemovalCost(index, 0)
      modifies tree`memo, tree`files, pool
      ensures status.Tree? ==> Complete(p, status.entries) && |status.entries| <= limits.maxEntries
      ensures status.Tree? ==> Ready() && pool.used == spent + EntriesCost(p, status.entries)
      ensures status.Fault? ==> exists before :: Stuck(p, limits.maxEntries, before)
      ensures status.Exhausted? ==> exists before :: Broke(p, spent, pool.limit, before)
    {
      hide PathKeys, DirKeys, Built, Complete, Stuck, Key, MemoOk, RemovalLines, EntriesCost, Collided, RemovalCost, NextPasses;
      var ok, removals := RemovalText();
      if !ok {
        assert Broke(p, spent, pool.limit, files);
        return Exhausted;
      }
      status := AppendTexts(p, spent, tree, files, removals, mapText);
    }

    method AppendTexts(ghost p: Plan, ghost start: nat, tree: Placer, files: seq<VirtualEntry>, removals: seq<byte>, mapText: seq<byte>)
        returns (status: Result)
      requires TreeOk(p, start, tree, files) && MapOk(files, mapText) && |files| == |p.raw| + |p.converted|
      requires removals == RemovalLines(index, |index|)
      modifies tree`memo, tree`files, pool
      ensures status.Tree? ==> Complete(p, status.entries) && |status.entries| <= limits.maxEntries
      ensures status.Tree? ==> Ready() && pool.used == start + EntriesCost(p, status.entries)
      ensures status.Fault? ==> exists before :: Stuck(p, limits.maxEntries, before)
      ensures status.Exhausted? ==> exists before :: Broke(p, start, pool.limit, before)
    {
      hide PathKeys, DirKeys, Built, Stuck, Key, MemoOk, RemovalLines, Renamed, Manifest.Render, EntriesCost, Collided, Broke;
      status := Tree(files);
      RenderIsEmpty(Renamed(platform, index, files));
      assert files[..|files|] == files;
      if removals != [] {
        status := AppendGenerated(p, start, tree, status.entries, REMOVALS_NAME, REMOVALS_FALLBACK, removals);
        if !status.Tree? { return; }
      }
      if mapText != [] {
        ghost var before := status.entries;
        status := AppendGenerated(p, start, tree, status.entries, MANIFEST_NAME, MANIFEST_FALLBACK, mapText);
        if !status.Tree? { return; }
        assert status.entries[..|files|] == status.entries[..|before|][..|files|];
      }
    }
  }

  /**
   Builds the presentation tree: the one complete tree its input admits, if its cost is within the metadata
   budget. A fault means that no tree is admissible, and exhaustion that an admissible one costs too much.
   */
  method MakeVirtualTree(platform: Platform, index: seq<PckEntry>, mappings: seq<Mapping>, hints: seq<Hint>,
                         limits: Limits) returns (r: Result)
    requires FoldOk(platform.fold)
    ensures r.Tree? ==> Admissible(platform, limits, index, mappings, hints, r.entries)
    ensures r.Tree? ==> Affordable(platform, limits, index, mappings, hints, r.entries)
    ensures r.Fault? ==> forall entries :: !Admissible(platform, limits, index, mappings, hints, entries)
    ensures r.Exhausted? ==> forall entries :: Admissible(platform, limits, index, mappings, hints, entries) ==>
                               !Affordable(platform, limits, index, mappings, hints, entries)
    ensures r.Tree? ==> Presentable(platform.fold, limits.maxChars, r.entries)
    ensures r.Tree? ==> Faithful(index, set h | h in hints :: h.source, r.entries)
    ensures r.Tree? ==> MapsRenames(platform, index, r.entries)
  {
    hide BadHint, BadMapping, Complete, Presentable, Faithful, MapsRenames, RawList, ConvertedList, Normalized, HintMap, HintCost,
      MappingCost, PathCost, FirstCost, RawCost, UnmappedCost, ConvertedCost, DirCost, RemovalCost, EntriesCost;
    if |index| > limits.maxEntries || |mappings| > limits.maxEntries || |hints| > limits.maxEntries { return Fault; }
    if |index| > limits.maxMetadata / ENTRY_OVERHEAD { return Exhausted; }
    var builder := new Builder(platform, index, limits);
    var status, chosen := builder.CollectHints(hints);
    if !status.Tree? { return status; }
    var mapped: map<nat, nat>, maps: seq<Mapping>;
    status, maps := builder.CollectMappings(mappings);
    if !status.Tree? { return status; }
    var ok, first := builder.FirstWithPath();
    if !ok { return Exhausted; }
    ok, mapped := builder.FirstMapping(maps, first);
    if !ok { return Exhausted; }
    var raw, converted;
    ok, raw := builder.RawRows(chosen, maps, mapped);
    if !ok { return Exhausted; }
    ok, converted := builder.ConvertedRows(chosen, maps, first, mapped);
    if !ok { return Exhausted; }
    ghost var p, hinted := PlanOf(platform, limits.maxChars, index, mappings, hints), set h | h in hints :: h.source;
    PlanIsSound(platform, limits.maxChars, index, mappings, hints);
    r := PlaceAll(builder, p, hinted, raw, converted);
    if r.Tree? {
      CompleteIsBuilt(p, r.entries);
      TreeIsPresentable(p, hinted, r.entries);
      TreeIsFaithful(p, hinted, r.entries);
      TreeMapsRenames(p, r.entries);
    }
  }

  /** Reserves every directory, then places the rows and the generated listings. */
  method PlaceAll(builder: Builder, ghost p: Plan, ghost hinted: set<nat>, raw: seq<ViewRow>, converted: seq<ViewRow>)
      returns (r: Result)
    requires builder.Ready() && p.raw == raw && p.converted == converted && Sound(p, hinted)
    requires p.platform == builder.platform && p.maxChars == builder.limits.maxChars && p.index == builder.index
    modifies builder.pool
    ensures r.Tree? ==> Complete(p, r.entries) && |r.entries| <= builder.limits.maxEntries
    ensures r.Fault? ==> forall entries :: Complete(p, entries) ==> |entries| > builder.limits.maxEntries
    ensures r.Tree? ==> FromRows(p, old(builder.pool.used), r.entries) <= builder.pool.limit
    ensures r.Exhausted? ==> forall entries :: Complete(p, entries) ==> FromRows(p, old(builder.pool.used), entries) > builder.pool.limit
  {
    hide Key, PathKeys, DirKeys, NumericFallback, Covered, Stuck, Broke, Complete, Renamed, Manifest.Render, EntriesCost, Collided,
      RemovalCost, DirCost;
    var platform, index := builder.platform, builder.index;
    ghost var used := builder.pool.used;
    ghost var start := used + DirCost(platform.fold, raw, 0) + DirCost(platform.fold, converted, 0);
    var tree := new Placer(builder.pool, platform.fold, builder.limits.maxChars);
    var ok := builder.ReserveRows(tree, raw);
    if !ok { return Exhausted; }
    ok := builder.ReserveRows(tree, converted);
    if !ok { return Exhausted; }
    DirKeysJoin(platform.fold, raw, converted);
    NothingPlaced(p);
    var status, text := builder.AppendRows(p, start, tree, [], [], raw, false);
    if status.Tree? {
      status, text := builder.AppendRows(p, start, tree, status.entries, text, converted, true);
    }
    if status.Exhausted? {
      ghost var before :| Broke(p, start, builder.pool.limit, before);
      TooDear(p, start, builder.pool.limit, before);
      return Exhausted;
    }
    if status.Tree? {
      status := builder.AppendListings(p, start, start + RemovalCost(index, 0), tree, status.entries, text);
      if status.Exhausted? {
        ghost var before :| Broke(p, start + RemovalCost(index, 0), builder.pool.limit, before);
        TooDear(p, start + RemovalCost(index, 0), builder.pool.limit, before);
      }
    }
    if status.Fault? {
      ghost var before :| Stuck(p, builder.limits.maxEntries, before);
      forall entries | Complete(p, entries) ensures |entries| > builder.limits.maxEntries {
        StuckHasNoTree(p, builder.limits.maxEntries, before, entries);
      }
    }
    return status;
  }

  /** What a tree costs once its rows are made. */
  ghost function FromRows(p: Plan, used: nat, entries: seq<VirtualEntry>): nat
  {
    used + DirCost(p.platform.fold, p.raw, 0) + DirCost(p.platform.fold, p.converted, 0) + RemovalCost(p.index, 0) + EntriesCost(p, entries)
  }

  lemma TooDear(p: Plan, start: nat, limit: nat, before: seq<VirtualEntry>)
    requires Broke(p, start, limit, before)
    ensures forall entries :: Complete(p, entries) ==> start + EntriesCost(p, entries) > limit
  {
    hide Broke, Complete, EntriesCost;
    forall entries | Complete(p, entries) ensures start + EntriesCost(p, entries) > limit {
      BrokeIsTooDear(p, start, limit, before, entries);
    }
  }

  lemma CompleteIsBuilt(p: Plan, entries: seq<VirtualEntry>)
    requires Complete(p, entries)
    ensures Built(p, entries)
  {
  }

  lemma NothingPlaced(p: Plan)
    ensures EntriesCost(p, []) == 0 && Collided(p, []) == {}
    ensures PathKeys(p.platform.fold, []) == {} && DirKeys(p.platform.fold, []) == {} && Built(p, [])
    ensures Renamed(p.platform, p.index, []) == [] && Manifest.Render([]) == []
  {
  }
}
