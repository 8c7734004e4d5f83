/**
 Values of the pickle reader. Every container caches its nesting depth, and each operation keeps the
 cache up to date without walking the tree. A container owns its children alone, so values are
 modelled as values, and a container that changes is replaced in the slot that owns it.
 */
module PickleValues {
  import opened Bytes

  const MAX_DEPTH := 64

  datatype Value =
    | Nothing
    | Boolean(flag: bool)
    | Integer(number: int)
    | Float(bits: nat)
    | Bytes(data: seq<byte>)
    | Text(data: seq<byte>)
    | List(items: seq<Value>, depth: nat)
    | Tuple(items: seq<Value>, depth: nat)
    | Dict(entries: map<seq<byte>, Value>, depth: nat)

  predicate Container(v: Value)
  {
    v.List? || v.Tuple? || v.Dict?
  }

  /** The cached depth: none for scalars. */
  function Depth(v: Value): nat
  {
    if Container(v) then v.depth else 0
  }

  function Children(v: Value): set<Value>
  {
    match v
    case List(items, _) => set c | c in items
    case Tuple(items, _) => set c | c in items
    case Dict(entries, _) => entries.Values
    case _ => {}
  }

  // ---- the depth a cache should hold

  /** No path into the value crosses more than `levels` containers. Looks at no cache. */
  predicate Within(v: Value, levels: nat)
    decreases levels
  {
    Container(v) ==> levels > 0 && forall c :: c in Children(v) ==> Within(c, levels - 1)
  }

  /** One more than the tallest child, and one where there is none. */
  ghost predicate IsHeight(children: set<Value>, d: nat)
  {
    && d > 0 && (forall c :: c in children ==> Depth(c) < d)
    && (d == 1 || exists c :: c in children && Depth(c) + 1 == d)
  }

  /** Every cache in the value is the height of its children. */
  ghost predicate Measured(v: Value)
    decreases v
  {
    (Container(v) ==> IsHeight(Children(v), Depth(v))) && forall c :: c in Children(v) ==> Measured(c)
  }

  /** Measured caches are exact: they are the least bound on the nesting. */
  lemma {:induction false} CachedDepthIsExact(v: Value, levels: nat)
    requires Measured(v)
    ensures Within(v, levels) <==> Depth(v) <= levels
    decreases levels
  {
    if Container(v) && levels > 0 {
      forall c | c in Children(v) ensures Within(c, levels - 1) <==> Depth(c) <= levels - 1 {
        CachedDepthIsExact(c, levels - 1);
      }
    }
  }

  lemma HeightIsUnique(children: set<Value>, d: nat, e: nat)
    requires IsHeight(children, d) && IsHeight(children, e)
    ensures d == e
  {
  }

  ghost function Height(children: set<Value>): (d: nat)
    ensures IsHeight(children, d)
    decreases children
  {
    if children == {} then 1
    else
      var c :| c in children;
      var rest := Height(children - {c});
      HigherWith(children - {c}, rest, c);
      assert children - {c} + {c} == children;
      Max(rest, Depth(c) + 1)
  }

  lemma HigherWith(children: set<Value>, d: nat, c: Value)
    requires IsHeight(children, d)
    ensures IsHeight(children + {c}, Max(d, Depth(c) + 1))
  {
    if Depth(c) + 1 <= d && d > 1 {
      var w :| w in children && Depth(w) + 1 == d;
      assert w in children + {c};
    } else {
      assert c in children + {c};
    }
  }

  lemma HeightOfUnion(a: set<Value>, d: nat, b: set<Value>, e: nat)
    requires IsHeight(a, d) && IsHeight(b, e)
    ensures IsHeight(a + b, Max(d, e))
  {
    if d > 1 {
      var w :| w in a && Depth(w) + 1 == d;
      assert w in a + b;
    }
    if e > 1 {
      var w :| w in b && Depth(w) + 1 == e;
      assert w in a + b;
    }
  }

  // ---- building

  /** The container with its depth measured afresh, when that depth is allowed. */
  ghost function Build(v: Value): (r: Option<Value>)
    requires Container(v)
  {
    var d := Height(Children(v));
    if d > MAX_DEPTH then None else Some(v.(depth := d))
  }

  /** A measured value within the nesting limit. */
  ghost predicate Sound(v: Value)
  {
    Measured(v) && Depth(v) <= MAX_DEPTH
  }

  ghost predicate AllSound(s: seq<Value>)
  {
    forall v :: v in s ==> Sound(v)
  }

  lemma BuiltIsSound(v: Value)
    requires Container(v) && forall c :: c in Children(v) ==> Measured(c)
    ensures Build(v).Some? ==> Sound(Build(v).value)
    ensures Build(v).Some? <==> forall c :: c in Children(v) ==> Depth(c) < MAX_DEPTH
  {
    assert Children(v.(depth := Height(Children(v)))) == Children(v);
  }

  lemma BuildFrom(v: Value, d: nat)
    requires Container(v) && IsHeight(Children(v), d)
    ensures Build(v) == if d > MAX_DEPTH then None else Some(v.(depth := d))
  {
    HeightIsUnique(Children(v), d, Height(Children(v)));
  }

  /** Building a measured value again gives it back. */
  lemma BuildMeasured(v: Value)
    requires Container(v) && Measured(v)
    ensures Build(v) == if Depth(v) > MAX_DEPTH then None else Some(v)
  {
    BuildFrom(v, Depth(v));
  }

  function CheckedChildDepth(child: Value): Option<nat>
  {
    if Depth(child) >= MAX_DEPTH then None else Some(Depth(child) + 1)
  }

  function Elements(s: seq<Value>): set<Value>
  {
    set c | c in s
  }

  /** The height of a sequence of children; it fails exactly when one of them is too deep. */
  method ContainerDepth(children: seq<Value>) returns (r: Option<nat>)
    ensures r.Some? <==> forall c :: c in children ==> Depth(c) < MAX_DEPTH
    ensures r.Some? ==> r.value <= MAX_DEPTH && IsHeight(Elements(children), r.value)
  {
    var depth: nat, n := 1, 0;
    while n < |children|
      invariant n <= |children| && depth <= MAX_DEPTH && IsHeight(Elements(children[..n]), depth)
      invariant forall i :: 0 <= i < n ==> Depth(children[i]) < MAX_DEPTH
    {
      var child := CheckedChildDepth(children[n]);
      if child.None? {
        assert children[n] in children;
        return None;
      }
      HigherWith(Elements(children[..n]), depth, children[n]);
      assert Elements(children[..n + 1]) == Elements(children[..n]) + {children[n]};
      depth := Max(depth, child.value);
      n := n + 1;
    }
    assert children[..n] == children;
    return Some(depth);
  }

  /** The height of a dictionary's values, in whatever order the table yields its keys. */
  method DictDepth(children: map<seq<byte>, Value>) returns (r: Option<nat>)
    ensures r.Some? <==> forall c :: c in children.Values ==> Depth(c) < MAX_DEPTH
    ensures r.Some? ==> r.value <= MAX_DEPTH && IsHeight(children.Values, r.value)
  {
    var depth: nat, left := 1, children.Keys;
    ghost var seen: set<Value> := {};
    while left != {}
      invariant left <= children.Keys && depth <= MAX_DEPTH && IsHeight(seen, depth)
      invariant seen == set k | k in children.Keys - left :: children[k]
      invariant forall c :: c in seen ==> Depth(c) < MAX_DEPTH
      decreases |left|
    {
      var key :| key in left;
      var child := CheckedChildDepth(children[key]);
      if child.None? {
        assert children[key] in children.Values;
        return None;
      }
      HigherWith(seen, depth, children[key]);
      depth := Max(depth, child.value);
      left := left - {key};
      seen := seen + {children[key]};
    }
    assert seen == children.Values;
    return Some(depth);
  }

  method NewList(items: seq<Value>) returns (r: Option<Value>)
    ensures r == Build(List(items, 0))
  {
    var depth := ContainerDepth(items);
    ShapeOf(List(items, 0), items);
    if depth.None? { return None; }
    BuildFrom(List(items, 0), depth.value);
    return Some(List(items, depth.value));
  }

  method NewTuple(items: seq<Value>) returns (r: Option<Value>)
    ensures r == Build(Tuple(items, 0))
  {
    var depth := ContainerDepth(items);
    ShapeOf(Tuple(items, 0), items);
    if depth.None? { return None; }
    BuildFrom(Tuple(items, 0), depth.value);
    return Some(Tuple(items, depth.value));
  }

  method NewDict(entries: map<seq<byte>, Value>) returns (r: Option<Value>)
    ensures r == Build(Dict(entries, 0))
  {
    var depth := DictDepth(entries);
    if depth.None? { return None; }
    BuildFrom(Dict(entries, 0), depth.value);
    return Some(Dict(entries, depth.value));
  }

  lemma ShapeOf(v: Value, items: seq<Value>)
    requires (v.List? || v.Tuple?) && v.items == items
    ensures Children(v) == Elements(items)
    ensures (exists c :: c in items && Depth(c) >= MAX_DEPTH) ==> Build(v).None?
  {
    if c :| c in items && Depth(c) >= MAX_DEPTH { assert c in Children(v); }
  }

  // ---- changing a container

  /** Appending raises the cached depth to the new child's, which is the depth measured afresh. */
  method Append(target: Value, child: Value) returns (r: Option<Value>)
    requires target.List? && Sound(target)
    ensures r == Build(List(target.items + [child], 0))
  {
    var grown := List(target.items + [child], 0);
    ShapeOf(target, target.items);
    ShapeOf(grown, target.items + [child]);
    assert Elements(grown.items) == Elements(target.items) + {child};
    HigherWith(Elements(target.items), target.depth, child);
    BuildFrom(grown, Max(target.depth, Depth(child) + 1));
    var depth := CheckedChildDepth(child);
    if depth.None? { return None; }
    return Some(List(target.items + [child], Max(target.depth, depth.value)));
  }

  method AppendAll(target: Value, children: seq<Value>) returns (r: Option<Value>)
    requires target.List? && Sound(target)
    ensures r == Build(List(target.items + children, 0))
  {
    var grown := List(target.items + children, 0);
    ShapeOf(target, target.items);
    ShapeOf(grown, target.items + children);
    var depth := ContainerDepth(children);
    if depth.None? { return None; }
    assert Elements(grown.items) == Elements(target.items) + Elements(children);
    HeightOfUnion(Elements(target.items), target.depth, Elements(children), depth.value);
    BuildFrom(grown, Max(target.depth, depth.value));
    return Some(List(target.items + children, Max(target.depth, depth.value)));
  }

  /**
   Replacing an entry measures afresh only when the entry it replaces was a tallest child and the new
   one is shorter; it fails exactly when the new child is too deep.
   */
  method Set(target: Value, key: seq<byte>, child: Value) returns (r: Option<Value>)
    requires target.Dict? && Sound(target)
    ensures r == Build(Dict(target.entries[key := child], 0))
    ensures r.Some? <==> Depth(child) < MAX_DEPTH
  {
    hide Height;
    var entries := target.entries[key := child];
    assert child in entries.Values by { assert key in entries && entries[key] == child; }
    var childDepth := CheckedChildDepth(child);
    if childDepth.None? { return None; }
    var recompute := key in target.entries
                     && Depth(target.entries[key]) + 1 == target.depth && childDepth.value < target.depth;
    ReplacedValues(target.entries, key, child);
    if recompute {
      var depth := DictDepth(entries);
      BuildFrom(Dict(entries, 0), depth.value);
      return Some(Dict(entries, depth.value));
    }
    ReplacedHeight(target, key, child);
    BuildFrom(Dict(entries, 0), Max(target.depth, childDepth.value));
    return Some(Dict(entries, Max(target.depth, childDepth.value)));
  }

  lemma ReplacedValues(entries: map<seq<byte>, Value>, key: seq<byte>, child: Value)
    ensures entries[key := child].Values <= entries.Values + {child}
    ensures forall k :: k in entries && k != key ==> entries[k] in entries[key := child].Values
    ensures child in entries[key := child].Values
  {
    var after := entries[key := child];
    assert key in after && after[key] == child;
    forall k | k in entries && k != key ensures entries[k] in after.Values {
      assert k in after && after[k] == entries[k];
    }
  }

  /** Without a tallest child replaced by a shorter one, the height is the larger of the two. */
  lemma ReplacedHeight(target: Value, key: seq<byte>, child: Value)
    requires target.Dict? && Sound(target)
    requires key in target.entries && Depth(target.entries[key]) + 1 == target.depth ==> Depth(child) + 1 >= target.depth
    ensures IsHeight(target.entries[key := child].Values, Max(target.depth, Depth(child) + 1))
  {
    var after := target.entries[key := child];
    ReplacedValues(target.entries, key, child);
    if target.depth > Depth(child) + 1 {
      var w :| w in target.entries.Values && Depth(w) + 1 == target.depth;
      var k :| k in target.entries && target.entries[k] == w;
      assert k != key && w in after.Values;
    }
  }

  /** Copying a sound value succeeds and gives an equal value, caches included. */
  method Clone(v: Value) returns (r: Option<Value>)
    requires Sound(v)
    ensures r == Some(v)
    decreases v
  {
    if !Container(v) { return Some(v); }
    BuildMeasured(v);
    if v.Dict? {
      var copies, left := map[], v.entries.Keys;
      while left != {}
        invariant left <= v.entries.Keys
        invariant copies == map k | k in v.entries.Keys - left :: v.entries[k]
        decreases |left|
      {
        var key :| key in left;
        ChildIsSound(v, v.entries[key]);
        var copy := Clone(v.entries[key]);
        if copy.None? { return None; }
        copies := copies[key := copy.value];
        left := left - {key};
      }
      assert copies == v.entries;
      r := NewDict(copies);
    } else {
      var copies, n := [], 0;
      while n < |v.items|
        invariant n <= |v.items| && copies == v.items[..n]
      {
        ChildIsSound(v, v.items[n]);
        var copy := Clone(v.items[n]);
        if copy.None? { return None; }
        copies := copies + [copy.value];
        n := n + 1;
      }
      assert copies == v.items;
      if v.List? { r := NewList(copies); } else { r := NewTuple(copies); }
    }
    CacheIsIgnored(v);
  }

  lemma CacheIsIgnored(v: Value)
    requires Container(v)
    ensures Build(v.(depth := 0)) == Build(v)
  {
    assert Children(v.(depth := 0)) == Children(v);
  }

  lemma ChildIsSound(v: Value, c: Value)
    requires Sound(v) && c in Children(v)
    ensures Sound(c)
  {
  }
}
