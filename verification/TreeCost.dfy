/** What a presentation tree costs: every charge its builder makes, as a function of the input and the tree. */
module TreeCost {
  import opened Bytes
  import opened Decimal
  import opened Placement
  import opened Placer
  import opened TreePlan
  import Manifest

  // ---- the input, each sum from position `n` on

  function HintCost(hints: seq<Hint>, n: nat): nat
    requires n <= |hints|
    decreases |hints| - n
  {
    if n == |hints| then 0
    else (if hints[n].source in HintMap(hints[..n]) then 0 else |hints[n].extension| + MAP_OVERHEAD) + HintCost(hints, n + 1)
  }

  function MappingCost(mappings: seq<Mapping>, n: nat): nat
    requires n <= |mappings|
    decreases |mappings| - n
  {
    if n == |mappings| then 0
    else
      var m := mappings[n];
      |m.logical| + |m.compiled| + |m.variant| + MAPPING_SLOT + ROW_OVERHEAD + MappingCost(mappings, n + 1)
  }

  /** Each path is retained once, at its first file. */
  function PathCost(index: seq<PckEntry>, n: nat): nat
    requires n <= |index|
    decreases |index| - n
  {
    if n == |index| then 0
    else
      (if index[n].kind == File && FirstFile(index, n, index[n].path).None? then |index[n].path| + MAP_OVERHEAD else 0)
      + PathCost(index, n + 1)
  }

  /** Each mapped file is retained once, at its first mapping. */
  function FirstCost(index: seq<PckEntry>, maps: seq<Mapping>, n: nat): nat
    requires n <= |maps|
    decreases |maps| - n
  {
    if n == |maps| then 0
    else
      var target := FirstFile(index, |index|, maps[n].compiled);
      (if target.Some? && MappingOf(index, maps, n, target.value).None? then MAP_OVERHEAD + INDEX_SLOTS else 0)
      + FirstCost(index, maps, n + 1)
  }

  // ---- the rows

  function RowCost(platform: Platform, row: ViewRow): nat
  {
    |platform.encode(row.effective)| + |row.fallback| + ROW_OVERHEAD
  }

  function RawCost(s: Source, n: nat): nat
    requires n <= |s.index|
    decreases |s.index| - n
  {
    if n == |s.index| then 0
    else
      (if s.index[n].kind == File && n !in s.hinted then RowCost(s.platform, RawRow(s, n)) else 0) + RawCost(s, n + 1)
  }

  function UnmappedCost(s: Source, n: nat): nat
    requires n <= |s.index|
    decreases |s.index| - n
  {
    if n == |s.index| then 0
    else
      (if n in s.hinted && MappingOf(s.index, s.maps, |s.maps|, n).None?
       then RowCost(s.platform, ConvertedAs(s, |UnmappedList(s, n)|, n, s.index[n].path, [], s.hinted[n])) + ROW_SLOT else 0)
      + UnmappedCost(s, n + 1)
  }

  function ConvertedCost(s: Source, n: nat): nat
    requires n <= |s.maps|
    decreases |s.maps| - n
  {
    if n == |s.maps| then 0
    else
      var m := s.maps[n];
      var target := FirstFile(s.index, |s.index|, m.compiled);
      (if target.Some? && target.value in s.hinted
       then RowCost(s.platform, ConvertedAs(s, |ConvertedList(s, n)|, target.value, m.logical, m.variant, s.hinted[target.value])) + ROW_SLOT
       else 0)
      + ConvertedCost(s, n + 1)
  }

  function RowsCost(s: Source): nat
  {
    |s.index| * ROW_SLOT + RawCost(s, 0) + UnmappedCost(s, 0) + ConvertedCost(s, 0)
  }

  // ---- the directories

  function DirCost(fold: Fold, rows: seq<ViewRow>, n: nat): nat
    requires n <= |rows|
    decreases |rows| - n
  {
    if n == |rows| then 0 else AncestorCost(fold, rows[n].effective, 0) + DirCost(fold, rows, n + 1)
  }

  /** What is charged before any row is placed. */
  function Prelude(platform: Platform, maxChars: nat, index: seq<PckEntry>, mappings: seq<Mapping>, hints: seq<Hint>): nat
  {
    var maps := Normalized(platform, mappings);
    var p := PlanOf(platform, maxChars, index, mappings, hints);
    HintCost(hints, 0) + MappingCost(mappings, 0) + PathCost(index, 0) + FirstCost(index, maps, 0)
    + RowsCost(Source(platform, maxChars, index, maps, HintMap(hints)))
    + DirCost(platform.fold, p.raw, 0) + DirCost(platform.fold, p.converted, 0)
  }

  // ---- the entries

  /** The folded bases that have collided: each is remembered, and charged, once. */
  ghost function Collided(p: Plan, entries: seq<VirtualEntry>): set<name>
  {
    if entries == [] then {}
    else
      var (init, last) := (entries[..|entries| - 1], entries[|entries| - 1]);
      Collided(p, init) + if NextSlot(p, init).None? then {} else Collision(p, init, last.path)
  }

  ghost function Collision(p: Plan, before: seq<VirtualEntry>, path: name): set<name>
    requires NextSlot(p, before).Some?
  {
    var slot := NextSlot(p, before).value;
    CollidedBase(p.platform.fold, p.maxChars, TakenBefore(p, before), slot.preferred, slot.fallback, path)
  }

  /** The charges for a name: the memo of a base that collides for the first time, and the name itself. */
  ghost function PlaceCost(p: Plan, before: seq<VirtualEntry>, path: name): nat
    requires NextSlot(p, before).Some?
  {
    var slot := NextSlot(p, before).value;
    PlacementCost(p.platform.fold, p.maxChars, TakenBefore(p, before), Collided(p, before), slot.preferred, slot.fallback, path)
  }

  function RenameCost(platform: Platform, index: seq<PckEntry>, entry: VirtualEntry): nat
  {
    if entry.source.None? || entry.source.value >= |index| then 0
    else
      var (physical, final) := (index[entry.source.value].path, platform.encode(entry.path));
      if final == physical then 0 else |Manifest.RowText(Manifest.Row(entry.source.value, physical, final))|
  }

  function KeepCost(platform: Platform, entry: VirtualEntry): nat
  {
    |platform.encode(entry.path)| + |entry.text| + ENTRY_OVERHEAD
  }

  ghost function EntryCost(p: Plan, before: seq<VirtualEntry>, entry: VirtualEntry): nat
  {
    if NextSlot(p, before).None? then 0 else PlaceCost(p, before, entry.path) + RenameCost(p.platform, p.index, entry) + KeepCost(p.platform, entry)
  }

  ghost function EntriesCost(p: Plan, entries: seq<VirtualEntry>): nat
  {
    if entries == [] then 0
    else
      var (init, last) := (entries[..|entries| - 1], entries[|entries| - 1]);
      EntriesCost(p, init) + EntryCost(p, init, last)
  }

  function RemovalCost(index: seq<PckEntry>, n: nat): nat
    requires n <= |index|
    decreases |index| - n
  {
    if n == |index| then 0
    else (if index[n].kind == Removal then |Digits(n)| + |Manifest.EscapeField(index[n].path)| + 2 else 0) + RemovalCost(index, n + 1)
  }

  /** A removal line is charged, before it is built, exactly what it is long. */
  lemma {:induction false} RemovalCostIsLength(index: seq<PckEntry>, n: nat)
    requires n <= |index|
    ensures |RemovalLines(index, n)| + RemovalCost(index, n) == |RemovalLines(index, |index|)|
    decreases |index| - n
  {
    hide Digits, Manifest.EscapeField;
    if n < |index| { RemovalCostIsLength(index, n + 1); }
  }

  /** The metadata that a complete tree of this input is charged with, map and removal lines included. */
  ghost function TreeCost(platform: Platform, maxChars: nat, index: seq<PckEntry>, mappings: seq<Mapping>, hints: seq<Hint>,
                          entries: seq<VirtualEntry>): nat
  {
    Prelude(platform, maxChars, index, mappings, hints) + RemovalCost(index, 0)
    + EntriesCost(PlanOf(platform, maxChars, index, mappings, hints), entries)
  }

  /** The tree is within the metadata budget, and so is the bound checked before anything is retained. */
  ghost predicate Affordable(platform: Platform, limits: Limits, index: seq<PckEntry>, mappings: seq<Mapping>, hints: seq<Hint>,
                             entries: seq<VirtualEntry>)
  {
    && |index| <= limits.maxMetadata / ENTRY_OVERHEAD
    && TreeCost(platform, limits.maxChars, index, mappings, hints, entries) <= limits.maxMetadata
  }

  // ---- a budget that runs out

  /** After some entries, which cost `start` and their own charges, the budget is passed or the next entry passes it. */
  ghost predicate Broke(p: Plan, start: nat, limit: nat, before: seq<VirtualEntry>)
  {
    Built(p, before) && (start + EntriesCost(p, before) > limit || exists entry :: NextPasses(p, start, limit, before, entry))
  }

  ghost predicate NextPasses(p: Plan, start: nat, limit: nat, before: seq<VirtualEntry>, entry: VirtualEntry)
  {
    && NextSlot(p, before).Some? && Fills(p, before, NextSlot(p, before).value, entry)
    && start + EntriesCost(p, before) + EntryCost(p, before, entry) > limit
  }

  lemma CostOfNext(p: Plan, before: seq<VirtualEntry>, entry: VirtualEntry)
    ensures EntriesCost(p, before + [entry]) == EntriesCost(p, before) + EntryCost(p, before, entry)
    ensures Collided(p, before + [entry]) == Collided(p, before) + if NextSlot(p, before).None? then {} else Collision(p, before, entry.path)
  {
    hide NextSlot, EntryCost, Collision;
    var all := before + [entry];
    assert all[..|all| - 1] == before && all[|all| - 1] == entry;
  }

  lemma {:induction false} CostGrows(p: Plan, entries: seq<VirtualEntry>, n: nat)
    requires n <= |entries|
    ensures EntriesCost(p, entries[..n]) <= EntriesCost(p, entries)
    decreases |entries|
  {
    hide EntryCost;
    if n == |entries| {
      assert entries[..n] == entries;
    } else {
      var init := entries[..|entries| - 1];
      CostGrows(p, init, n);
      assert init[..n] == entries[..n];
    }
  }

  /** Once the budget is passed on the way, every complete tree costs more than it. */
  lemma BrokeIsTooDear(p: Plan, start: nat, limit: nat, before: seq<VirtualEntry>, entries: seq<VirtualEntry>)
    requires Broke(p, start, limit, before) && Complete(p, entries)
    ensures start + EntriesCost(p, entries) > limit
  {
    hide NextSlot, EntriesCost, EntryCost, Built, NameFor;
    var k := |before|;
    if |entries| <= k {
      BuildsAgree(p, entries, before);
      if |entries| < k { NextIsDue(p, before, |entries|); }
      assert before[..k] == before;
    } else {
      BuildsAgree(p, before, entries);
      CostGrows(p, entries, k);
      if start + EntriesCost(p, before) <= limit {
        var entry :| NextPasses(p, start, limit, before, entry);
        NextIsDue(p, entries, k);
        var slot := NextSlot(p, before).value;
        NameIsDeterministic(p.platform.fold, p.maxChars, TakenBefore(p, before), slot.preferred, slot.fallback, entry.path, entries[k].path);
        CostOfNext(p, before, entry);
        assert entries[..k + 1] == before + [entry];
        CostGrows(p, entries, k + 1);
      }
    }
  }
}
