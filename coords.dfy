/** `flattenCoords` of app.js: the depth-first walk that collects the
    coordinate leaves of a nested GeoJSON-style coordinate structure. */
module Coords {
  import opened JsValues

  /** Sequencing of two evaluations that may throw: the first throw wins,
      otherwise the outputs are concatenated in order. */
  function Then(a: Completion<seq<JVal>>, b: Completion<seq<JVal>>): Completion<seq<JVal>> {
    if a.Throw? || b.Throw? then Throw else Normal(a.value + b.value)
  }

  /** What `flattenCoords(v, [])` pushes, or Throw when it throws.
      Indexing null throws; a leaf is pushed whole; any other array is walked
      child by child; a number, string, boolean or object adds nothing. */
  function Flatten(v: JVal): (r: Completion<seq<JVal>>)
    ensures r.Normal? ==> forall i | 0 <= i < |r.value| :: IsLeaf(r.value[i])
    decreases v, 1
  {
    match v
    case Null => Throw
    case Num(_) => Normal([])
    case Other => Normal([])
    case Arr(s) => if IsLeaf(v) then Normal([v]) else FlattenAll(s)
  }

  /** The `for (const a of arr) flattenCoords(a, out)` loop over children `s`. */
  function FlattenAll(s: seq<JVal>): (r: Completion<seq<JVal>>)
    ensures r.Normal? ==> forall i | 0 <= i < |r.value| :: IsLeaf(r.value[i])
    decreases s, 0
  {
    if s == [] then Normal([]) else Then(Flatten(s[0]), FlattenAll(s[1..]))
  }

  /** A null that the walk reaches: the node itself, or one reached through a
      non-leaf array (the contents of a leaf are never inspected). */
  ghost predicate ReachesNull(v: JVal)
    decreases v
  {
    v.Null? || (v.Arr? && !IsLeaf(v) && exists i | 0 <= i < |v.items| :: ReachesNull(v.items[i]))
  }

  /** `w` is a leaf of `v`: `v` itself when `v` is a leaf, else a leaf of one
      of its children when `v` is an array. */
  ghost predicate HasLeaf(v: JVal, w: JVal)
    decreases v
  {
    if IsLeaf(v) then w == v
    else v.Arr? && exists i | 0 <= i < |v.items| :: HasLeaf(v.items[i], w)
  }

  /** The imperative `flattenCoords(arr, out)`: `out` is the accumulator that
      the recursion appends to. On a normal return the result is the
      accumulator after the walk, which is `out` followed by the leaves of
      `arr`; it throws exactly when the walk meets a null. */
  method FlattenCoords(arr: JVal, out: seq<JVal>) returns (res: Completion<seq<JVal>>)
    ensures res.Throw? <==> Flatten(arr).Throw?
    ensures res.Normal? ==> res.value == out + Flatten(arr).value
    decreases arr
  {
    if arr.Null? {
      // `arr[0]` on null throws before anything is pushed
      return Throw;
    }
    if IsLeaf(arr) {
      return Normal(out + [arr]);
    }
    if !arr.Arr? {
      return Normal(out);
    }
    var children := arr.items;
    var acc := out;
    var i := 0;
    while i < |children|
      invariant 0 <= i <= |children|
      invariant FlattenAll(children[..i]).Normal?
      invariant acc == out + FlattenAll(children[..i]).value
    {
      var r := FlattenCoords(children[i], acc);
      FlattenAllAppend(children[..i], [children[i]]);
      FlattenAllSingleton(children[i]);
      assert children[..i] + [children[i]] == children[..i + 1];
      if r.Throw? {
        FlattenAllAppend(children[..i + 1], children[i + 1..]);
        assert children[..i + 1] + children[i + 1..] == children;
        return Throw;
      }
      acc := r.value;
      i := i + 1;
    }
    assert children[..i] == children;
    return Normal(acc);
  }

  /** A one-element list flattens like its element. */
  lemma FlattenAllSingleton(x: JVal)
    ensures FlattenAll([x]) == Flatten(x)
  {
    assert [x][1..] == [];
    if Flatten(x).Normal? {
      assert Flatten(x).value + [] == Flatten(x).value;
    }
  }

  lemma ThenAssociative(a: Completion<seq<JVal>>, b: Completion<seq<JVal>>, c: Completion<seq<JVal>>)
    ensures Then(a, Then(b, c)) == Then(Then(a, b), c)
  {
    if a.Normal? && b.Normal? && c.Normal? {
      assert a.value + (b.value + c.value) == (a.value + b.value) + c.value;
    }
  }

  /** Depth-first, left to right: the leaves of `a + b` are those of `a`
      followed by those of `b`, and it throws if either part throws. */
  lemma {:induction false} FlattenAllAppend(a: seq<JVal>, b: seq<JVal>)
    ensures FlattenAll(a + b) == Then(FlattenAll(a), FlattenAll(b))
  {
    if a == [] {
      assert a + b == b;
      if FlattenAll(b).Normal? {
        assert [] + FlattenAll(b).value == FlattenAll(b).value;
      }
    } else {
      assert (a + b)[0] == a[0];
      assert (a + b)[1..] == a[1..] + b;
      FlattenAllAppend(a[1..], b);
      ThenAssociative(Flatten(a[0]), FlattenAll(a[1..]), FlattenAll(b));
    }
  }

  /** Fail-safe boundary: the walk throws exactly when a null is reachable. */
  lemma {:induction false} FlattenThrowsIffNull(v: JVal)
    ensures Flatten(v).Throw? <==> ReachesNull(v)
    decreases v, 1
  {
    if v.Arr? && !IsLeaf(v) {
      FlattenAllThrowsIffNull(v.items);
    }
  }

  lemma {:induction false} FlattenAllThrowsIffNull(s: seq<JVal>)
    ensures FlattenAll(s).Throw? <==> exists i | 0 <= i < |s| :: ReachesNull(s[i])
    decreases s, 0
  {
    if s != [] {
      FlattenThrowsIffNull(s[0]);
      FlattenAllThrowsIffNull(s[1..]);
      if exists i | 0 <= i < |s| :: ReachesNull(s[i]) {
        var i :| 0 <= i < |s| && ReachesNull(s[i]);
        if i > 0 {
          assert s[1..][i - 1] == s[i];
        }
      }
      if exists j | 0 <= j < |s[1..]| :: ReachesNull(s[1..][j]) {
        var j :| 0 <= j < |s[1..]| && ReachesNull(s[1..][j]);
        assert s[j + 1] == s[1..][j];
      }
    }
  }

  /** Without de-duplication or invention: when the walk completes, its
      output holds exactly the leaves of `v`. */
  lemma {:induction false} FlattenMembers(v: JVal, w: JVal)
    requires Flatten(v).Normal?
    ensures w in Flatten(v).value <==> HasLeaf(v, w)
    decreases v, 1
  {
    if v.Arr? && !IsLeaf(v) {
      FlattenAllMembers(v.items, w);
    }
  }

  lemma {:induction false} FlattenAllMembers(s: seq<JVal>, w: JVal)
    requires FlattenAll(s).Normal?
    ensures w in FlattenAll(s).value <==> exists i | 0 <= i < |s| :: HasLeaf(s[i], w)
    decreases s, 0
  {
    if s != [] {
      FlattenMembers(s[0], w);
      FlattenAllMembers(s[1..], w);
      assert FlattenAll(s).value == Flatten(s[0]).value + FlattenAll(s[1..]).value;
      if exists i | 0 <= i < |s| :: HasLeaf(s[i], w) {
        var i :| 0 <= i < |s| && HasLeaf(s[i], w);
        if i > 0 {
          assert s[1..][i - 1] == s[i];
        }
      }
      if exists j | 0 <= j < |s[1..]| :: HasLeaf(s[1..][j], w) {
        var j :| 0 <= j < |s[1..]| && HasLeaf(s[1..][j], w);
        assert s[j + 1] == s[1..][j];
      }
    }
  }

  /** A list whose every element is a leaf flattens to itself. */
  lemma {:induction false} FlattenAllOfLeaves(s: seq<JVal>)
    requires forall i | 0 <= i < |s| :: IsLeaf(s[i])
    ensures FlattenAll(s) == Normal(s)
  {
    if s != [] {
      FlattenAllOfLeaves(s[1..]);
      assert [s[0]] + s[1..] == s;
    }
  }

  /** An already-flat list of coordinate pairs comes back unchanged. */
  lemma FlatListUnchanged(s: seq<JVal>)
    requires forall i | 0 <= i < |s| :: IsLeaf(s[i])
    ensures Flatten(Arr(s)) == Normal(s)
  {
    FlattenAllOfLeaves(s);
  }

  /** Flattening the output of a flatten again changes nothing. */
  lemma FlattenIdempotent(v: JVal)
    requires Flatten(v).Normal?
    ensures Flatten(Arr(Flatten(v).value)) == Flatten(v)
  {
    FlatListUnchanged(Flatten(v).value);
  }

  /** A nested number, string, boolean, object or empty array contributes
      nothing and raises nothing, wherever it sits among its siblings. */
  lemma AddsNothing(a: seq<JVal>, x: JVal, b: seq<JVal>)
    requires x.Num? || x.Other? || x == Arr([])
    ensures FlattenAll(a + [x] + b) == FlattenAll(a + b)
  {
    FlattenAllAppend(a + [x], b);
    FlattenAllAppend(a, [x]);
    FlattenAllAppend(a, b);
    FlattenAllSingleton(x);
    assert Flatten(x) == Normal([]);
    if FlattenAll(a).Normal? {
      assert FlattenAll(a).value + [] == FlattenAll(a).value;
    }
  }

  /** `[[1,2],[[3,4],[5,6]]]` flattens to `[[1,2],[3,4],[5,6]]`. */
  lemma NestedExample()
    ensures Flatten(Arr([Arr([Num(1.0), Num(2.0)]), Arr([Arr([Num(3.0), Num(4.0)]), Arr([Num(5.0), Num(6.0)])])]))
         == Normal([Arr([Num(1.0), Num(2.0)]), Arr([Num(3.0), Num(4.0)]), Arr([Num(5.0), Num(6.0)])])
  {
    var p, q, t := Arr([Num(1.0), Num(2.0)]), Arr([Num(3.0), Num(4.0)]), Arr([Num(5.0), Num(6.0)]);
    FlatListUnchanged([q, t]);
    FlattenAllAppend([p], [Arr([q, t])]);
    FlattenAllSingleton(p);
    FlattenAllSingleton(Arr([q, t]));
    assert [p] + [Arr([q, t])] == [p, Arr([q, t])];
    assert Flatten(Arr([q, t])) == Normal([q, t]);
    assert Flatten(p) == Normal([p]);
    assert [p] + [q, t] == [p, q, t];
  }
}
