/** The placer: the retained-metadata budget, the collision sets and the memo of searched suffixes. */
module Placer {
  import opened Bytes
  import opened Placement

  const NAME_OVERHEAD := 48
  const MEMO_OVERHEAD := 48

  /** Retained metadata is charged before it is stored; a breach fails the whole tree. */
  class Budget {
    const limit: nat
    var used: nat

    ghost predicate Valid()
      reads this
    {
      used <= limit
    }

    constructor (limit: nat)
      ensures Valid() && this.limit == limit && used == 0
    {
      this.limit, used := limit, 0;
    }

    method Charge(bytes: nat) returns (ok: bool)
      requires Valid()
      modifies this
      ensures Valid() && (ok <==> old(used) + bytes <= limit)
      ensures used == if ok then old(used) + bytes else old(used)
    {
      if bytes > limit - used { return false; }
      used := used + bytes;
      return true;
    }

    /** Charges `count` uniform slots, comparing by division so that no product can overflow. */
    method ReserveSlots(count: nat, slotBytes: nat) returns (ok: bool)
      requires Valid() && slotBytes > 0
      modifies this
      ensures Valid() && (ok <==> old(used) + count * slotBytes <= limit)
      ensures used == if ok then old(used) + count * slotBytes else old(used)
    {
      SlotsFit(count, slotBytes, limit - used);
      if count > (limit - used) / slotBytes { return false; }
      used := used + count * slotBytes;
      return true;
    }
  }

  lemma SlotsFit(count: nat, slot: nat, room: nat)
    requires slot > 0
    ensures count > room / slot <==> count * slot > room
  {
    if count > room / slot {
      assert count * slot >= (room / slot + 1) * slot;
    } else {
      assert count * slot <= room / slot * slot;
    }
  }

  /** Every candidate below a remembered counter has been found to fit and to be taken. */
  ghost predicate MemoOk(memo: map<name, nat>, maxChars: nat, taken: set<name>)
  {
    forall key, i: nat :: key in memo && i < memo[key] ==>
      Fits(Candidate(key, i), maxChars) && Candidate(key, i) in taken
  }

  /** What is charged for the directories of a path whose separators lie at `n` or behind. */
  function AncestorCost(fold: Fold, path: name, n: nat): nat
    requires n <= |path|
    decreases |path| - n
  {
    if n == |path| then 0
    else (if path[n] == SLASH then |Key(fold, path[..n])| * 2 + NAME_OVERHEAD else 0) + AncestorCost(fold, path, n + 1)
  }

  /** What is charged for a search: a base that is not yet remembered is retained when it collides. */
  function SearchCost(fold: Fold, known: set<name>, base: name, path: name): nat
  {
    if path != base && Key(fold, base) !in known then |Key(fold, base)| * 2 + MEMO_OVERHEAD else 0
  }

  ghost function PlacementCost(fold: Fold, maxChars: nat, taken: set<name>, known: set<name>, preferred: name, fallback: name, path: name): nat
  {
    SearchCost(fold, known, BaseOf(fold, maxChars, taken, preferred, fallback, path), path) + |Key(fold, path)| * 2 + NAME_OVERHEAD
  }

  datatype Placed = Placed(path: name) | NoRoom | OverBudget

  class Placer {
    const fold: Fold
    const maxChars: nat
    const pool: Budget
    var files: set<name>         // folded
    var dirs: set<name>          // folded
    var memo: map<name, nat>     // folded base to the next counter to try

    ghost function Taken(): set<name>
      reads this
    {
      files + dirs
    }

    ghost predicate Valid()
      reads this, pool
    {
      FoldOk(fold) && pool.Valid() && MemoOk(memo, maxChars, Taken())
    }

    constructor (pool: Budget, fold: Fold, maxChars: nat)
      requires FoldOk(fold) && pool.Valid()
      ensures Valid() && files == {} && dirs == {} && memo == map[]
      ensures this.pool == pool && this.fold == fold && this.maxChars == maxChars
    {
      this.pool, this.fold, this.maxChars := pool, fold, maxChars;
      files, dirs, memo := {}, {}, map[];
    }

    /** Reserves every proper directory prefix of a path. */
    method ReserveAncestors(path: name) returns (ok: bool)
      requires Valid()
      modifies this`dirs, pool
      ensures pool.Valid()
      ensures ok ==> pool.used == old(pool.used) + AncestorCost(fold, path, 0)
      ensures !ok ==> old(pool.used) + AncestorCost(fold, path, 0) > pool.limit
      ensures ok ==> Valid() && dirs == old(dirs) + set a | a in Ancestors(path) :: Key(fold, a)
    {
      var at := 0;
      while at < |path|
        invariant at <= |path| && Valid()
        invariant pool.used + AncestorCost(fold, path, at) == old(pool.used) + AncestorCost(fold, path, 0)
        invariant dirs == old(dirs) + set i | 0 <= i < at && path[i] == SLASH :: Key(fold, path[..i])
      {
        if path[at] == SLASH {
          var key := Key(fold, path[..at]);
          ok := pool.Charge(|key| * 2 + NAME_OVERHEAD);
          if !ok { return; }
          dirs := dirs + {key};
        }
        at := at + 1;
      }
      ok := true;
    }

    /** The suffix of the first free candidate of `base`, searched from the remembered counter. */
    method Search(base: name) returns (r: Option<nat>)
      requires Valid()
      ensures r.None? ==> ScanFinds(fold, maxChars, Taken(), base, None)
      ensures r.Some? ==> ScanFinds(fold, maxChars, Taken(), base, Some(Candidate(base, r.value)))
      ensures r.Some? ==> forall i :: 0 <= i <= r.value ==>
                Fits(Candidate(Key(fold, base), i), maxChars)
                && Candidate(Key(fold, base), i) in Taken() + {Key(fold, Candidate(base, r.value))}
    {
      hide Candidate, Fits, Key, Ancestors, ScanFinds, FoldOk;
      var key := Key(fold, base);
      var counter: nat := if key in memo then memo[key] else 0;
      while true
        invariant forall i :: 0 <= i < counter ==> Fits(Candidate(key, i), maxChars) && Candidate(key, i) in Taken()
        decreases |Taken()| + 1 - counter
      {
        var candidate := Candidate(base, counter);
        CandidateOfKey(fold, base, counter);
        FitsOfKey(fold, candidate, maxChars);
        ScanReached(fold, maxChars, Taken(), base, counter);
        if !Fits(candidate, maxChars) { return None; }
        if Key(fold, candidate) !in files && Key(fold, candidate) !in dirs { return Some(counter); }
        TakenCandidatesAreFew(key, counter + 1, Taken());
        counter := counter + 1;
      }
    }

    /**
     The first free candidate of `base`. The chosen name is remembered as taken: the caller accepts it at once.
     */
    method Select(base: name) returns (ok: bool, r: Option<name>)
      requires Valid()
      modifies this`memo, pool
      ensures pool.Valid()
      ensures ok && r.None? ==> ScanFinds(fold, maxChars, Taken(), base, r) && memo == old(memo) && pool.used == old(pool.used)
      ensures ok && r.Some? ==> MemoOk(memo, maxChars, Taken() + {Key(fold, r.value)})
      ensures r.Some? ==> ScanFinds(fold, maxChars, Taken(), base, r) && Ancestors(r.value) == Ancestors(base)
      ensures ok && r.Some? ==> memo.Keys == old(memo.Keys) + if r.value == base then {} else {Key(fold, base)}
      ensures ok && r.Some? ==> pool.used == old(pool.used) + SearchCost(fold, old(memo.Keys), base, r.value)
      ensures !ok ==> r.Some? && old(pool.used) + SearchCost(fold, old(memo.Keys), base, r.value) > pool.limit
    {
      hide Candidate, Fits, Key, Ancestors, ScanFinds, FoldOk;
      var found := Search(base);
      if found.None? { return true, None; }
      var counter, key := found.value + 1, Key(fold, base);
      r := Some(Candidate(base, found.value));
      CandidateKeepsAncestors(base, found.value);
      CandidateIsBase(base, found.value);
      if counter > 1 {
        if key !in memo {
          ok := pool.Charge(|key| * 2 + MEMO_OVERHEAD);
          if !ok { return; }
        }
        memo := memo[key := counter];
      }
      ok := true;
    }

    /** The scan gives this name, whose charges pass the budget. */
    ghost predicate PassesBudget(taken: set<name>, known: set<name>, used: nat, preferred: name, fallback: name, path: name)
    {
      && NameFor(fold, maxChars, taken, preferred, fallback, path)
      && used + PlacementCost(fold, maxChars, taken, known, preferred, fallback, path) > pool.limit
    }

    /** Places the preferred name or, when the limits leave it no candidate, the fallback. */
    method Place(preferred: name, fallback: name) returns (r: Placed)
      requires Valid()
      modifies this`memo, this`files, pool
      ensures pool.Valid()
      ensures r.NoRoom? ==> files == old(files)
      ensures r.NoRoom? ==> ScanFinds(fold, maxChars, Taken(), preferred, None)
      ensures r.NoRoom? ==> ScanFinds(fold, maxChars, Taken(), fallback, None)
      ensures r.Placed? ==>
                && Valid() && files == old(files) + {Key(fold, r.path)}
                && Key(fold, r.path) !in old(Taken()) && Fits(r.path, maxChars)
      ensures r.Placed? ==>
                || (ScanFinds(fold, maxChars, old(Taken()), preferred, Some(r.path))
                    && Ancestors(r.path) == Ancestors(preferred))
                || (ScanFinds(fold, maxChars, old(Taken()), preferred, None)
                    && ScanFinds(fold, maxChars, old(Taken()), fallback, Some(r.path))
                    && Ancestors(r.path) == Ancestors(fallback))
      ensures r.Placed? ==> memo.Keys == old(memo.Keys) + CollidedBase(fold, maxChars, old(Taken()), preferred, fallback, r.path)
      ensures r.Placed? ==>
                pool.used == old(pool.used) + PlacementCost(fold, maxChars, old(Taken()), old(memo.Keys), preferred, fallback, r.path)
      ensures r.OverBudget? ==> exists path :: PassesBudget(old(Taken()), old(memo.Keys), old(pool.used), preferred, fallback, path)
    {
      hide ScanFinds, MemoOk, Key, Fits, Ancestors, FoldOk;
      ghost var taken, known, used, base := Taken(), memo.Keys, pool.used, preferred;
      var ok, chosen := Select(preferred);
      if ok && chosen.None? {
        base := fallback;
        ok, chosen := Select(fallback);
        if ok && chosen.None? { return NoRoom; }
        FallbackIsBase(fold, maxChars, taken, preferred, fallback, chosen.value);
      }
      assert NameFor(fold, maxChars, taken, preferred, fallback, chosen.value);
      FoundIsFree(fold, maxChars, taken, base, chosen.value);
      assert BaseOf(fold, maxChars, taken, preferred, fallback, chosen.value) == base;
      if !ok {
        assert PassesBudget(taken, known, used, preferred, fallback, chosen.value);
        return OverBudget;
      }
      var key := Key(fold, chosen.value);
      ok := pool.Charge(|key| * 2 + NAME_OVERHEAD);
      if !ok {
        assert PassesBudget(taken, known, used, preferred, fallback, chosen.value);
        return OverBudget;
      }
      files := files + {key};
      assert Taken() == old(Taken()) + {key};
      return Placed(chosen.value);
    }
  }

  lemma FoundIsFree(fold: Fold, maxChars: nat, taken: set<name>, base: name, c: name)
    requires ScanFinds(fold, maxChars, taken, base, Some(c))
    ensures Fits(c, maxChars) && Key(fold, c) !in taken
  {
  }

  lemma CandidateIsBase(base: name, counter: nat)
    ensures Candidate(base, counter) == base <==> counter == 0
  {
    if counter > 0 { CandidatesDiffer(base, 0, counter); }
  }

  lemma FallbackIsBase(fold: Fold, maxChars: nat, taken: set<name>, preferred: name, fallback: name, path: name)
    requires ScanFinds(fold, maxChars, taken, preferred, None)
    ensures BaseOf(fold, maxChars, taken, preferred, fallback, path) == fallback
  {
    if ScanFinds(fold, maxChars, taken, preferred, Some(path)) {
      ScanIsDeterministic(fold, maxChars, taken, preferred, None, Some(path));
    }
  }

  /** Where the search stands is what a scan from zero reaches. */
  lemma ScanReached(fold: Fold, maxChars: nat, taken: set<name>, base: name, counter: nat)
    requires FoldOk(fold)
    requires forall i :: 0 <= i < counter ==>
               Fits(Candidate(Key(fold, base), i), maxChars) && Candidate(Key(fold, base), i) in taken
    ensures var c := Candidate(base, counter);
            && (!Fits(c, maxChars) ==> ScanFinds(fold, maxChars, taken, base, None))
            && (Fits(c, maxChars) && Key(fold, c) !in taken ==> ScanFinds(fold, maxChars, taken, base, Some(c)))
  {
    forall i | 0 <= i < counter
      ensures Fits(Candidate(base, i), maxChars) && Key(fold, Candidate(base, i)) in taken
    {
      CandidateOfKey(fold, base, i);
      FitsOfKey(fold, Candidate(base, i), maxChars);
    }
  }
}
