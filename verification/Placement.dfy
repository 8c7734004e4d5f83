/**
 Placing presented names so that no two collide under case folding and none shadows a directory.
 Names are UTF-16 code units; `fold` is the ordinal case folding of one unit.
 */
module Placement {
  import opened Bytes
  import opened Decimal

  type unit = x: int | 0 <= x < 0x1_0000
  type name = seq<unit>

  const DOT: unit := 46
  const SLASH: unit := 47
  const TILDE: unit := 126
  const MAX_COMPONENT := 255

  // ---- the shape of a name

  /** The last position of `c`, or -1. */
  function LastIndex(s: name, c: unit): (i: int)
    ensures -1 <= i < |s| && (i >= 0 ==> s[i] == c) && forall j :: i < j < |s| ==> s[j] != c
    decreases |s|
  {
    if s == [] then -1
    else if s[|s| - 1] == c then |s| - 1
    else LastIndex(s[..|s| - 1], c)
  }

  /** Where the extension of the last component starts; the end of the path when it has none. */
  function ExtensionStart(path: name): (e: nat)
    ensures LastIndex(path, SLASH) < e <= |path|
  {
    var slash, dot := LastIndex(path, SLASH), LastIndex(path, DOT);
    if dot < 0 || dot < slash || dot == slash + 1 then |path| else dot
  }

  /** `base`, then `base~1`, `base~2`, ... with the suffix before the extension. */
  function Candidate(base: name, counter: nat): name
  {
    if counter == 0 then base
    else
      var e := ExtensionStart(base);
      base[..e] + [TILDE] + Digits(counter) + base[e..]
  }

  /** The proper directory prefixes of a path. */
  function Ancestors(path: name): set<name>
  {
    set i | 0 <= i < |path| && path[i] == SLASH :: path[..i]
  }

  /** No component is longer than Windows allows; `start` is where the current one begins. */
  predicate ComponentsFit(path: name, start: nat, at: nat)
    requires start <= at <= |path|
    decreases |path| - at
  {
    if at == |path| then at - start <= MAX_COMPONENT
    else if path[at] == SLASH then at - start <= MAX_COMPONENT && ComponentsFit(path, at + 1, at + 1)
    else ComponentsFit(path, start, at + 1)
  }

  predicate Fits(path: name, maxChars: nat)
  {
    |path| <= maxChars && ComponentsFit(path, 0, 0)
  }

  // ---- folding

  type Fold = unit -> unit

  /** Folding leaves the units with a meaning here alone, and maps no other unit onto a separator. */
  ghost predicate FoldOk(fold: Fold)
  {
    && fold(TILDE) == TILDE
    && (forall c: unit :: IsDigit(c) ==> fold(c) == c)
    && (forall c: unit :: fold(c) == DOT <==> c == DOT)
    && (forall c: unit :: fold(c) == SLASH <==> c == SLASH)
  }

  function Key(fold: Fold, path: name): (key: name)
    ensures |key| == |path| && forall i :: 0 <= i < |path| ==> key[i] == fold(path[i])
  {
    seq(|path|, i requires 0 <= i < |path| => fold(path[i]))
  }

  lemma {:induction false} LastIndexOfKey(fold: Fold, path: name, c: unit)
    requires FoldOk(fold) && (c == DOT || c == SLASH)
    ensures LastIndex(Key(fold, path), c) == LastIndex(path, c)
  {
    var key := Key(fold, path);
    assert forall i :: 0 <= i < |path| ==> (key[i] == c <==> path[i] == c);
  }

  lemma KeyOfPieces(fold: Fold, a: name, b: name, c: name)
    ensures Key(fold, a + b + c) == Key(fold, a) + Key(fold, b) + Key(fold, c)
  {
  }

  lemma KeyOfSplit(fold: Fold, path: name, e: nat)
    requires e <= |path|
    ensures Key(fold, path)[..e] == Key(fold, path[..e]) && Key(fold, path)[e..] == Key(fold, path[e..])
  {
  }

  lemma KeyOfSuffix(fold: Fold, counter: nat)
    requires FoldOk(fold)
    ensures Key(fold, [TILDE] + Digits(counter)) == [TILDE] + Digits(counter)
  {
  }

  /** Case variants of a base have case variants of the same candidates. */
  lemma CandidateOfKey(fold: Fold, base: name, counter: nat)
    requires FoldOk(fold)
    ensures Key(fold, Candidate(base, counter)) == Candidate(Key(fold, base), counter)
  {
    hide Key, Digits, LastIndex;
    LastIndexOfKey(fold, base, DOT);
    LastIndexOfKey(fold, base, SLASH);
    if counter > 0 {
      var e := ExtensionStart(base);
      var middle: name := [TILDE] + Digits(counter);
      assert Candidate(base, counter) == base[..e] + middle + base[e..];
      assert Candidate(Key(fold, base), counter) == Key(fold, base)[..e] + middle + Key(fold, base)[e..];
      KeyOfPieces(fold, base[..e], middle, base[e..]);
      KeyOfSplit(fold, base, e);
      KeyOfSuffix(fold, counter);
    }
  }

  lemma {:induction false} ComponentsOfKey(fold: Fold, path: name, start: nat, at: nat)
    requires FoldOk(fold) && start <= at <= |path|
    ensures ComponentsFit(Key(fold, path), start, at) <==> ComponentsFit(path, start, at)
    decreases |path| - at
  {
    if at < |path| {
      ComponentsOfKey(fold, path, at + 1, at + 1);
      ComponentsOfKey(fold, path, start, at + 1);
    }
  }

  lemma FitsOfKey(fold: Fold, path: name, maxChars: nat)
    requires FoldOk(fold)
    ensures Fits(Key(fold, path), maxChars) <==> Fits(path, maxChars)
  {
    ComponentsOfKey(fold, path, 0, 0);
  }

  // ---- candidates

  lemma CandidatesDiffer(base: name, i: nat, j: nat)
    requires i < j
    ensures Candidate(base, i) != Candidate(base, j)
  {
    var e := ExtensionStart(base);
    if Candidate(base, i) == Candidate(base, j) {
      if i > 0 {
        var (a, b) := (Digits(i), Digits(j));
        assert |a| == |b|;
        assert Candidate(base, i)[e + 1..e + 1 + |a|] == a && Candidate(base, j)[e + 1..e + 1 + |b|] == b;
        DigitsInjective(i, j);
      }
    }
  }

  /** A suffix changes only the last component. */
  lemma CandidateKeepsAncestors(base: name, counter: nat)
    ensures Ancestors(Candidate(base, counter)) == Ancestors(base)
  {
    if counter > 0 {
      var c, e := Candidate(base, counter), ExtensionStart(base);
      var middle: name := [TILDE] + Digits(counter);
      assert c == base[..e] + middle + base[e..];
      assert c[..e] == base[..e];
      assert forall i :: e <= i < |base| ==> base[i] != SLASH;
      assert forall i :: e <= i < |c| ==> c[i] != SLASH by {
        forall i | e <= i < |c| ensures c[i] != SLASH {
          if i < e + |middle| { assert c[i] == middle[i - e]; } else { assert c[i] == base[i - |middle|]; }
        }
      }
      assert forall i :: 0 <= i < e ==> c[..i] == base[..i] && c[i] == base[i];
    }
  }

  /** As many distinct candidates as are taken fit in the set of taken names. */
  lemma {:induction false} TakenCandidatesAreFew(base: name, count: nat, taken: set<name>)
    requires forall i :: 0 <= i < count ==> Candidate(base, i) in taken
    ensures count <= |taken|
    decreases count
  {
    if count > 0 {
      forall i | 0 <= i < count - 1 ensures Candidate(base, i) in taken - {Candidate(base, count - 1)} {
        CandidatesDiffer(base, i, count - 1);
      }
      TakenCandidatesAreFew(base, count - 1, taken - {Candidate(base, count - 1)});
    }
  }

  /** What a scan of `base`, `base~1`, ... from zero finds: the first free candidate, unless one overflows first. */
  ghost predicate ScanFinds(fold: Fold, maxChars: nat, taken: set<name>, base: name, r: Option<name>)
  {
    exists n: nat ::
      && (forall i :: 0 <= i < n ==>
            Fits(Candidate(base, i), maxChars) && Key(fold, Candidate(base, i)) in taken)
      && match r
         case Some(c) => c == Candidate(base, n) && Fits(c, maxChars) && Key(fold, c) !in taken
         case None => !Fits(Candidate(base, n), maxChars)
  }

  lemma ScanIsDeterministic(fold: Fold, maxChars: nat, taken: set<name>, base: name, r: Option<name>, q: Option<name>)
    requires ScanFinds(fold, maxChars, taken, base, r) && ScanFinds(fold, maxChars, taken, base, q)
    ensures r == q
  {
  }

  /** A scan of the preferred name's candidates finds this one or, when none fits, the fallback's does. */
  ghost predicate NameFor(fold: Fold, maxChars: nat, taken: set<name>, preferred: name, fallback: name, path: name)
  {
    || ScanFinds(fold, maxChars, taken, preferred, Some(path))
    || (ScanFinds(fold, maxChars, taken, preferred, None) && ScanFinds(fold, maxChars, taken, fallback, Some(path)))
  }

  /** The plain scan leaves no choice of name. */
  lemma NameIsDeterministic(fold: Fold, maxChars: nat, taken: set<name>, preferred: name, fallback: name, p: name, q: name)
    requires NameFor(fold, maxChars, taken, preferred, fallback, p) && NameFor(fold, maxChars, taken, preferred, fallback, q)
    ensures p == q
  {
  }

  /** The base whose scan gives the name. */
  ghost function BaseOf(fold: Fold, maxChars: nat, taken: set<name>, preferred: name, fallback: name, path: name): name
  {
    if ScanFinds(fold, maxChars, taken, preferred, Some(path)) then preferred else fallback
  }

  /** A name that is not its own base has collided. */
  ghost function CollidedBase(fold: Fold, maxChars: nat, taken: set<name>, preferred: name, fallback: name, path: name): set<name>
  {
    var base := BaseOf(fold, maxChars, taken, preferred, fallback, path);
    if path == base then {} else {Key(fold, base)}
  }
}
