/**
 * The outline of a triangle mesh: the edges that belong to exactly one triangle,
 * found by one pass over all triangle edges, and the walk that chains those edges
 * into the polygon around the mesh.
 */
module MeshOutline {
  import opened Wrappers
  import opened Vectors
  import opened Triangles

  // ---------------------------------------------------------------------------
  // Counting edges up to orientation
  // ---------------------------------------------------------------------------

  /** Two edges are the same segment, in one direction or the other. */
  predicate SameSegment(e: Edge, f: Edge) {
    e == f || e == f.Reversed()
  }

  /** The edges of the triangles, triangle by triangle, in the order they are visited. */
  function EdgeList(ts: seq<Triangle>): (es: seq<Edge>)
    ensures |es| == 3 * |ts|
  {
    if |ts| == 0 then [] else EdgeList(ts[..|ts| - 1]) + TriangleEdges(ts[|ts| - 1])
  }

  /** How many entries of `es` are the segment `e`, whatever their orientation. */
  function Occurrences(e: Edge, es: seq<Edge>): nat {
    if |es| == 0 then 0
    else Occurrences(e, es[..|es| - 1]) + (if SameSegment(es[|es| - 1], e) then 1 else 0)
  }

  /** The entries of `es` whose segment occurs exactly once. */
  function Once(es: seq<Edge>): set<Edge> {
    set e | e in es && Occurrences(e, es) == 1
  }

  /** The outline edges of a mesh: edges whose segment belongs to a single triangle edge. */
  function BoundaryEdges(ts: seq<Triangle>): set<Edge> {
    Once(EdgeList(ts))
  }

  lemma OccurrencesAppend(e: Edge, es: seq<Edge>, x: Edge)
    ensures Occurrences(e, es + [x]) == Occurrences(e, es) + (if SameSegment(x, e) then 1 else 0)
  {
    assert (es + [x])[..|es|] == es;
  }

  lemma {:induction false} OccurrencesConcat(e: Edge, es: seq<Edge>, fs: seq<Edge>)
    ensures Occurrences(e, es + fs) == Occurrences(e, es) + Occurrences(e, fs)
    decreases |fs|
  {
    if |fs| == 0 {
      assert es + fs == es;
    } else {
      var gs := fs[..|fs| - 1];
      var x := fs[|fs| - 1];
      assert fs == gs + [x];
      assert es + fs == (es + gs) + [x];
      OccurrencesConcat(e, es, gs);
      OccurrencesAppend(e, es + gs, x);
      OccurrencesAppend(e, gs, x);
    }
  }

  /** The count does not depend on the orientation of the segment asked about. */
  lemma {:induction false} OccurrencesSameSegment(e: Edge, f: Edge, es: seq<Edge>)
    requires SameSegment(e, f)
    ensures Occurrences(e, es) == Occurrences(f, es)
    decreases |es|
  {
    if |es| > 0 {
      OccurrencesSameSegment(e, f, es[..|es| - 1]);
    }
  }

  /** A segment has a positive count exactly when some entry is that segment. */
  lemma {:induction false} OccurrencesPositive(e: Edge, es: seq<Edge>)
    ensures Occurrences(e, es) > 0 <==> exists j :: 0 <= j < |es| && SameSegment(es[j], e)
    decreases |es|
  {
    if |es| > 0 {
      var prefix := es[..|es| - 1];
      OccurrencesPositive(e, prefix);
      if exists j :: 0 <= j < |prefix| && SameSegment(prefix[j], e) {
        var j :| 0 <= j < |prefix| && SameSegment(prefix[j], e);
        assert es[j] == prefix[j];
      }
      if exists j :: 0 <= j < |es| && SameSegment(es[j], e) {
        var j :| 0 <= j < |es| && SameSegment(es[j], e);
        if j < |prefix| {
          assert prefix[j] == es[j];
        }
      }
    }
  }

  /** Two different entries that are the same segment make that segment occur twice. */
  lemma {:induction false} OccurrencesTwice(e: Edge, f: Edge, es: seq<Edge>)
    requires e in es && f in es && e != f && SameSegment(e, f)
    ensures Occurrences(e, es) >= 2
    decreases |es|
  {
    var prefix := es[..|es| - 1];
    var x := es[|es| - 1];
    assert es == prefix + [x];
    if x == e {
      assert f in prefix;
      OccurrencesPositive(e, prefix);
      var j :| 0 <= j < |prefix| && prefix[j] == f;
      assert SameSegment(prefix[j], e);
    } else if x == f {
      assert e in prefix;
      OccurrencesPositive(e, prefix);
      var j :| 0 <= j < |prefix| && prefix[j] == e;
      assert SameSegment(prefix[j], e);
    } else {
      assert e in prefix && f in prefix;
      OccurrencesTwice(e, f, prefix);
    }
  }

  // ---------------------------------------------------------------------------
  // First pass: edges appearing once
  // ---------------------------------------------------------------------------

  /**
   * What the two sets of the first pass hold after the edges `seen`: the segments seen
   * once, in the orientation they were seen, and for every segment seen more often at
   * least one of its orientations among the multiples.
   */
  predicate Classified(seen: seq<Edge>, once: set<Edge>, multiples: set<Edge>) {
    once == Once(seen)
    && (forall e :: e in multiples ==> e in seen && Occurrences(e, seen) >= 2)
    && (forall e :: e in seen && Occurrences(e, seen) >= 2 ==> e in multiples || e.Reversed() in multiples)
  }

  /** The tests of the first pass decide how often the segment was already seen. */
  lemma ClassifiedTests(seen: seq<Edge>, once: set<Edge>, multiples: set<Edge>, x: Edge)
    requires Classified(seen, once, multiples)
    ensures (x !in once && x.Reversed() !in once && x !in multiples && x.Reversed() !in multiples)
            <==> Occurrences(x, seen) == 0
    ensures (x in once || x.Reversed() in once) <==> Occurrences(x, seen) == 1
  {
    OccurrencesSameSegment(x.Reversed(), x, seen);
    OccurrencesPositive(x, seen);
    if Occurrences(x, seen) > 0 {
      var j :| 0 <= j < |seen| && SameSegment(seen[j], x);
      var e0 := seen[j];
      OccurrencesSameSegment(e0, x, seen);
      assert e0 == x || e0 == x.Reversed();
      assert e0.Reversed() == x || e0.Reversed() == x.Reversed();
    }
  }

  /** A segment seen for the first time joins `once`. */
  lemma ClassifyNew(seen: seq<Edge>, once: set<Edge>, multiples: set<Edge>, x: Edge)
    requires Classified(seen, once, multiples)
    requires Occurrences(x, seen) == 0
    ensures Classified(seen + [x], once + {x}, multiples)
  {
    var seen' := seen + [x];
    forall e
      ensures Occurrences(e, seen') == Occurrences(e, seen) + (if SameSegment(x, e) then 1 else 0)
    {
      OccurrencesAppend(e, seen, x);
    }
    forall e | SameSegment(x, e)
      ensures Occurrences(e, seen) == 0 && e !in seen
    {
      OccurrencesSameSegment(e, x, seen);
      OccurrencesPositive(e, seen);
    }
    assert Once(seen') == once + {x};
  }

  /** A segment seen for the second time leaves `once`, in whichever orientation it was, and joins the multiples. */
  lemma ClassifySecond(seen: seq<Edge>, once: set<Edge>, multiples: set<Edge>, x: Edge, y: Edge)
    requires Classified(seen, once, multiples)
    requires Occurrences(x, seen) == 1
    requires y in once && SameSegment(y, x)
    ensures Classified(seen + [x], once - {y}, multiples + {x})
  {
    var seen' := seen + [x];
    forall e
      ensures Occurrences(e, seen') == Occurrences(e, seen) + (if SameSegment(x, e) then 1 else 0)
    {
      OccurrencesAppend(e, seen, x);
    }
    forall e | SameSegment(x, e)
      ensures Occurrences(e, seen) == 1
    {
      OccurrencesSameSegment(e, x, seen);
    }
    forall e | e in once && SameSegment(x, e)
      ensures e == y
    {
      if e != y {
        assert SameSegment(e, y);
        OccurrencesTwice(e, y, seen);
      }
    }
    assert Once(seen') == once - {y};
    forall e | e in seen' && Occurrences(e, seen') >= 2
      ensures e in multiples + {x} || e.Reversed() in multiples + {x}
    {
      if SameSegment(x, e) {
        assert e == x || e.Reversed() == x;
      }
    }
  }

  /** A segment seen a third time or more changes neither set. */
  lemma ClassifyRepeat(seen: seq<Edge>, once: set<Edge>, multiples: set<Edge>, x: Edge)
    requires Classified(seen, once, multiples)
    requires Occurrences(x, seen) >= 2
    ensures Classified(seen + [x], once, multiples)
  {
    var seen' := seen + [x];
    forall e
      ensures Occurrences(e, seen') == Occurrences(e, seen) + (if SameSegment(x, e) then 1 else 0)
    {
      OccurrencesAppend(e, seen, x);
    }
    forall e | SameSegment(x, e)
      ensures Occurrences(e, seen) >= 2
    {
      OccurrencesSameSegment(e, x, seen);
    }
    assert Once(seen') == once;
    OccurrencesPositive(x, seen);
    var j :| 0 <= j < |seen| && SameSegment(seen[j], x);
    var e0 := seen[j];
    OccurrencesSameSegment(e0, x, seen);
    assert e0 in multiples || e0.Reversed() in multiples;
    forall e | e in seen' && Occurrences(e, seen') >= 2
      ensures e in multiples || e.Reversed() in multiples
    {
      if e == x && e !in seen {
        assert e0 == x || e0 == x.Reversed();
      }
    }
  }

  /**
   * One step of the first pass: an edge is added to the edges appearing once when
   * neither orientation has been met, moves from there to the multiples when one
   * orientation is already there, and is otherwise ignored.
   */
  method ClassifyEdge(ghost seen: seq<Edge>, once: set<Edge>, multiples: set<Edge>, edge: Edge)
    returns (once': set<Edge>, multiples': set<Edge>)
    requires Classified(seen, once, multiples)
    ensures Classified(seen + [edge], once', multiples')
  {
    ClassifiedTests(seen, once, multiples, edge);
    if edge !in once && edge.Reversed() !in once && edge !in multiples && edge.Reversed() !in multiples {
      ClassifyNew(seen, once, multiples, edge);
      once', multiples' := once + {edge}, multiples;
    } else if edge in once || edge.Reversed() in once {
      var y := if edge in once then edge else edge.Reversed();
      ClassifySecond(seen, once, multiples, edge, y);
      once', multiples' := once - {y}, multiples + {edge};
    } else {
      ClassifyRepeat(seen, once, multiples, edge);
      once', multiples' := once, multiples;
    }
  }

  /** The first pass: every edge of every triangle, in order, goes through one step. */
  method ClassifyEdges(ts: seq<Triangle>) returns (once: set<Edge>)
    ensures once == BoundaryEdges(ts)
  {
    once := {};
    var multiples: set<Edge> := {};
    ghost var seen: seq<Edge> := [];
    for i := 0 to |ts|
      invariant seen == EdgeList(ts[..i])
      invariant Classified(seen, once, multiples)
    {
      var edges := TriangleEdges(ts[i]);
      for j := 0 to 3
        invariant seen == EdgeList(ts[..i]) + edges[..j]
        invariant Classified(seen, once, multiples)
      {
        once, multiples := ClassifyEdge(seen, once, multiples, edges[j]);
        assert edges[..j + 1] == edges[..j] + [edges[j]];
        seen := seen + [edges[j]];
      }
      assert ts[..i + 1][..i] == ts[..i];
      assert edges[..3] == edges;
    }
    assert ts[..|ts|] == ts;
  }

  // ---------------------------------------------------------------------------
  // Boundary edges and triangles
  // ---------------------------------------------------------------------------

  /** How many triangles of `ts` (counted with repetition) have `e` as an edge. */
  function TrianglesWithEdge(e: Edge, ts: seq<Triangle>): nat {
    if |ts| == 0 then 0
    else TrianglesWithEdge(e, ts[..|ts| - 1]) + (if HasEdge(ts[|ts| - 1], e) then 1 else 0)
  }

  /** A triangle with distinct vertices lists each of its segments once. */
  lemma TriangleOccurrences(t: Triangle, e: Edge)
    requires NonDegenerate(t)
    ensures Occurrences(e, TriangleEdges(t)) == if HasEdge(t, e) then 1 else 0
  {
    var es := TriangleEdges(t);
    var b0, b1, b2 := SameSegment(es[0], e), SameSegment(es[1], e), SameSegment(es[2], e);
    assert es[..2][..1][..0] == [];
    assert es[..2][..1] == [es[0]];
    assert es[..2] == [es[0], es[1]];
    assert Occurrences(e, [es[0]]) == (if b0 then 1 else 0);
    assert Occurrences(e, es[..2]) == Occurrences(e, [es[0]]) + (if b1 then 1 else 0);
    assert Occurrences(e, es) == Occurrences(e, es[..2]) + (if b2 then 1 else 0);
    assert !(b0 && b1) && !(b1 && b2) && !(b0 && b2);
    assert HasEdge(t, e) <==> b0 || b1 || b2 by {
      if b0 { assert e == es[0] || e == es[0].Reversed(); }
      if b1 { assert e == es[1] || e == es[1].Reversed(); }
      if b2 { assert e == es[2] || e == es[2].Reversed(); }
    }
  }

  /** For triangles with distinct vertices, the count of a segment is the number of triangles having it. */
  lemma {:induction false} OccurrencesCountTriangles(e: Edge, ts: seq<Triangle>)
    requires forall i :: 0 <= i < |ts| ==> NonDegenerate(ts[i])
    ensures Occurrences(e, EdgeList(ts)) == TrianglesWithEdge(e, ts)
    decreases |ts|
  {
    if |ts| > 0 {
      var prefix := ts[..|ts| - 1];
      OccurrencesCountTriangles(e, prefix);
      OccurrencesConcat(e, EdgeList(prefix), TriangleEdges(ts[|ts| - 1]));
      TriangleOccurrences(ts[|ts| - 1], e);
    }
  }

  /** In a mesh of proper triangles, an outline edge is an edge that exactly one triangle has. */
  lemma BoundaryEdgeOfOneTriangle(ts: seq<Triangle>, e: Edge)
    requires forall i :: 0 <= i < |ts| ==> NonDegenerate(ts[i])
    ensures e in BoundaryEdges(ts) <==> e in EdgeList(ts) && TrianglesWithEdge(e, ts) == 1
  {
    OccurrencesCountTriangles(e, ts);
  }

  // ---------------------------------------------------------------------------
  // Second pass: walking the outline
  // ---------------------------------------------------------------------------

  /** The index after `i` around a cycle of length `n`. */
  function Next(i: nat, n: nat): (j: nat)
    requires i < n
    ensures j < n
  {
    if i + 1 == n then 0 else i + 1
  }

  /** No vertex is listed twice. */
  predicate Distinct(c: seq<Vector2>) {
    forall i, j :: 0 <= i < |c| && 0 <= j < |c| && i != j ==> c[i] != c[j]
  }

  /**
   * `c` is a simple closed polygon of at least three vertices and `es[i]` is its side
   * from `c[i]` to the next vertex, in either orientation.
   */
  predicate IsCycle(c: seq<Vector2>, es: seq<Edge>) {
    3 <= |c| && |es| == |c| && Distinct(c)
    && forall i :: 0 <= i < |c| ==> Joins(es[i], c[i], c[Next(i, |c|)])
  }

  /** Some edge of `edges` runs between `u` and `v`. */
  predicate Linked(edges: set<Edge>, u: Vector2, v: Vector2) {
    Edge(u, v) in edges || Edge(v, u) in edges
  }

  /**
   * `poly` goes once around the closed polygon formed by `edges`: its vertices are
   * distinct, consecutive ones (the last and the first included) are joined by an edge,
   * and every edge joins two consecutive vertices.
   */
  predicate TracesCycle(poly: seq<Vector2>, edges: set<Edge>) {
    3 <= |poly| && Distinct(poly)
    && (forall i :: 0 <= i < |poly| ==> Linked(edges, poly[i], poly[Next(i, |poly|)]))
    && (forall e :: e in edges ==> exists i :: 0 <= i < |poly| && Joins(e, poly[i], poly[Next(i, |poly|)]))
  }

  /** The sides of a simple polygon with at least three vertices are different edges. */
  lemma CycleSidesDistinct(c: seq<Vector2>, es: seq<Edge>)
    requires IsCycle(c, es)
    ensures forall i, j :: 0 <= i < j < |es| ==> es[i] != es[j]
  {
    var n := |c|;
    forall i, j | 0 <= i < j < n
      ensures es[i] != es[j]
    {
      var i', j' := Next(i, n), Next(j, n);
      assert Joins(es[i], c[i], c[i']);
      assert Joins(es[j], c[j], c[j']);
      assert c[i] != c[j];
      assert i' == j || c[i'] != c[j];
      assert j' == i || c[j'] != c[i];
      assert !(i' == j && j' == i);
    }
  }

  /** The index `i` places after `k` around a cycle of length `n`. */
  function Shift(k: nat, i: nat, n: nat): (m: nat)
    requires k < n && i < n
    ensures m < n
  {
    if k + i < n then k + i else k + i - n
  }

  /** The index `i` places before `k` around a cycle of length `n`. */
  function Unshift(k: nat, i: nat, n: nat): (m: nat)
    requires k < n && i < n
    ensures m < n
  {
    if i <= k then k - i else k - i + n
  }

  /** `s` read from position `k` on, wrapping round at the end. */
  function Rotated<T>(s: seq<T>, k: nat): (r: seq<T>)
    requires k < |s|
    ensures |r| == |s|
    ensures forall i :: 0 <= i < |s| ==> r[i] == s[Shift(k, i, |s|)]
  {
    s[k..] + s[..k]
  }

  /** `s` read backwards from position `k`, wrapping round at the start. */
  function Reflected<T>(s: seq<T>, k: nat): (r: seq<T>)
    requires k < |s|
    ensures |r| == |s|
    ensures forall i :: 0 <= i < |s| ==> r[i] == s[Unshift(k, i, |s|)]
  {
    seq(|s|, i requires 0 <= i < |s| => s[Unshift(k, i, |s|)])
  }

  /** Reading around from another position keeps the same entries. */
  lemma RotatedMembers<T>(s: seq<T>, k: nat)
    requires k < |s|
    ensures forall x :: x in Rotated(s, k) <==> x in s
  {
    var n := |s|;
    forall x | x in s
      ensures x in Rotated(s, k)
    {
      var m :| 0 <= m < n && s[m] == x;
      var i := if m >= k then m - k else m + n - k;
      assert Rotated(s, k)[i] == x;
    }
  }

  lemma ReflectedMembers<T>(s: seq<T>, k: nat)
    requires k < |s|
    ensures forall x :: x in Reflected(s, k) <==> x in s
  {
    var n := |s|;
    forall x | x in s
      ensures x in Reflected(s, k)
    {
      var m :| 0 <= m < n && s[m] == x;
      var i := if m <= k then k - m else k - m + n;
      assert Reflected(s, k)[i] == x;
    }
  }

  /** Renumbering keeps vertices distinct. */
  lemma RotatedDistinct(c: seq<Vector2>, k: nat)
    requires Distinct(c) && k < |c|
    ensures Distinct(Rotated(c, k))
  {
    var n := |c|;
    forall i, j | 0 <= i < n && 0 <= j < n && i != j
      ensures Rotated(c, k)[i] != Rotated(c, k)[j]
    {
      assert Shift(k, i, n) != Shift(k, j, n);
    }
  }

  lemma ReflectedDistinct(c: seq<Vector2>, k: nat)
    requires Distinct(c) && k < |c|
    ensures Distinct(Reflected(c, k))
  {
    var n := |c|;
    forall i, j | 0 <= i < n && 0 <= j < n && i != j
      ensures Reflected(c, k)[i] != Reflected(c, k)[j]
    {
      assert Unshift(k, i, n) != Unshift(k, j, n);
    }
  }

  /** The polygon renumbered to start at vertex `k`, keeping its direction. */
  lemma RotatedCycle(c: seq<Vector2>, es: seq<Edge>, k: nat)
    requires IsCycle(c, es) && k < |c|
    ensures IsCycle(Rotated(c, k), Rotated(es, k))
  {
    var n := |c|;
    var d, ds := Rotated(c, k), Rotated(es, k);
    forall i | 0 <= i < n
      ensures Joins(ds[i], d[i], d[Next(i, n)])
    {
      var m := Shift(k, i, n);
      assert Next(m, n) == Shift(k, Next(i, n), n);
      assert Joins(es[m], c[m], c[Next(m, n)]);
    }
    RotatedDistinct(c, k);
  }

  /** The polygon renumbered to start at vertex `Next(k)` and run backwards. */
  lemma ReflectedCycle(c: seq<Vector2>, es: seq<Edge>, k: nat)
    requires IsCycle(c, es) && k < |c|
    ensures IsCycle(Reflected(c, Next(k, |c|)), Reflected(es, k))
  {
    var n := |c|;
    var top := Next(k, n);
    var d, ds := Reflected(c, top), Reflected(es, k);
    forall i | 0 <= i < n
      ensures Joins(ds[i], d[i], d[Next(i, n)])
    {
      var m := Unshift(k, i, n);
      assert Next(m, n) == Unshift(top, i, n);
      assert m == Unshift(top, Next(i, n), n);
      assert Joins(es[m], c[m], c[Next(m, n)]);
    }
    ReflectedDistinct(c, top);
  }

  /**
   * Any side of a simple polygon can be taken as its first side, traversed in the
   * orientation the edge has: the polygon is renumbered from that side on, turning
   * round when the edge runs against the original numbering.
   */
  lemma Renumber(c: seq<Vector2>, es: seq<Edge>, e: Edge) returns (d: seq<Vector2>, ds: seq<Edge>)
    requires IsCycle(c, es) && e in es
    ensures IsCycle(d, ds) && |d| == |c|
    ensures forall x :: x in ds <==> x in es
    ensures ds[0] == e && d[0] == e.p && d[1] == e.q
  {
    var k :| 0 <= k < |c| && es[k] == e;
    if e == Edge(c[k], c[Next(k, |c|)]) {
      d, ds := Rotated(c, k), Rotated(es, k);
      RotatedCycle(c, es, k);
      RotatedMembers(es, k);
    } else {
      d, ds := Reflected(c, Next(k, |c|)), Reflected(es, k);
      ReflectedCycle(c, es, k);
      ReflectedMembers(es, k);
    }
  }

  /** `e` has `v` as one of its endpoints. */
  predicate Touches(e: Edge, v: Vector2) {
    e.p == v || e.q == v
  }

  /** A polygon's sides, listed from a side on, leave exactly that side when it is the last. */
  lemma LastSideLeft(once: set<Edge>, ds: seq<Edge>, k: nat)
    requires k < |ds| && forall x :: x in once <==> x in ds[k..]
    ensures k == |ds| - 1 ==> once == {ds[k]}
  {
  }

  /** ... and at least two when it is not. */
  lemma TwoSidesLeft(once: set<Edge>, ds: seq<Edge>, k: nat)
    requires k + 1 < |ds| && forall x :: x in once <==> x in ds[k..]
    requires forall i, j :: 0 <= i < j < |ds| ==> ds[i] != ds[j]
    ensures |once| >= 2
  {
    assert ds[k] in once && ds[|ds| - 1] in once;
    assert ds[k] != ds[|ds| - 1];
    var rest := once - {ds[k]};
    assert |rest| == |once| - 1;
    assert ds[|ds| - 1] in rest;
  }

  /** Taking the first of the listed sides away leaves the sides after it. */
  lemma DropFirstSide(once: set<Edge>, ds: seq<Edge>, k: nat)
    requires k < |ds| && forall x :: x in once <==> x in ds[k..]
    requires forall i, j :: 0 <= i < j < |ds| ==> ds[i] != ds[j]
    ensures forall x :: x in once - {ds[k]} <==> x in ds[k + 1..]
  {
    assert forall j :: k + 1 <= j < |ds| ==> ds[j] != ds[k];
    assert forall x :: x in ds[k..] <==> x == ds[k] || x in ds[k + 1..] by {
      assert ds[k..] == [ds[k]] + ds[k + 1..];
    }
  }

  /**
   * Walking a simple polygon from vertex `k - 1` after its first `k - 1` sides have been
   * used: the only remaining side touching that vertex is side `k - 1`, and its other
   * endpoint is vertex `k`.
   */
  lemma OnlyWayOn(d: seq<Vector2>, ds: seq<Edge>, k: nat, o: Edge)
    requires IsCycle(d, ds) && 2 <= k < |d|
    requires o in ds[k - 1..] && Touches(o, d[k - 1])
    ensures o == ds[k - 1]
    ensures o.p == d[k - 1] ==> o.q == d[k]
    ensures o.p != d[k - 1] ==> o.p == d[k]
  {
    var n := |d|;
    var j :| k - 1 <= j < n && ds[j] == o;
    assert Joins(ds[j], d[j], d[Next(j, n)]);
    assert Joins(ds[k - 1], d[k - 1], d[k]);
  }

  /** A polygon traces the cycle formed by its own sides. */
  lemma CycleTraced(d: seq<Vector2>, ds: seq<Edge>, edges: set<Edge>)
    requires IsCycle(d, ds) && forall x :: x in edges <==> x in ds
    ensures TracesCycle(d, edges)
  {
    var n := |d|;
    forall i | 0 <= i < n
      ensures Linked(edges, d[i], d[Next(i, n)])
    {
      assert ds[i] in edges;
    }
    forall e | e in edges
      ensures exists i :: 0 <= i < n && Joins(e, d[i], d[Next(i, n)])
    {
      var i :| 0 <= i < n && ds[i] == e;
    }
  }

  /** The outline edges form a single simple polygon. */
  ghost predicate FormsCycle(edges: set<Edge>) {
    exists c, es :: IsCycle(c, es) && forall x :: x in edges <==> x in es
  }

  /** A simple polygon has sides. */
  lemma CycleHasEdges(edges: set<Edge>)
    ensures FormsCycle(edges) ==> edges != {}
  {
    if FormsCycle(edges) {
      var c, es :| IsCycle(c, es) && forall x :: x in edges <==> x in es;
      assert es[0] in edges;
    }
  }

  /** A chain of linked vertices stays one when a vertex linked to its end is appended. */
  lemma ChainAppend(edges: set<Edge>, polygon: seq<Vector2>, next: Vector2)
    requires |polygon| > 0 && forall i :: 0 <= i < |polygon| - 1 ==> Linked(edges, polygon[i], polygon[i + 1])
    requires Linked(edges, polygon[|polygon| - 1], next)
    ensures var p := polygon + [next];
            forall i :: 0 <= i < |p| - 1 ==> Linked(edges, p[i], p[i + 1])
  {
  }

  /**
   * Midway through walking the simple polygon `d` with sides `ds`: the chain built so
   * far is the polygon's first vertices, and the edges left are the sides from the one
   * ending the chain on.
   */
  ghost predicate Walking(d: seq<Vector2>, ds: seq<Edge>, edges: set<Edge>, polygon: seq<Vector2>, once: set<Edge>) {
    IsCycle(d, ds) && (forall x :: x in edges <==> x in ds)
    && (forall i, j :: 0 <= i < j < |ds| ==> ds[i] != ds[j])
    && 2 <= |polygon| <= |d| && polygon == d[..|polygon|]
    && forall x :: x in once <==> x in ds[|polygon| - 1..]
  }

  /** Whatever edge the walk starts from, the polygon can be numbered along the walk. */
  lemma WalkStart(edges: set<Edge>, edge: Edge) returns (d: seq<Vector2>, ds: seq<Edge>)
    requires FormsCycle(edges) && edge in edges
    ensures Walking(d, ds, edges, [edge.p, edge.q], edges - {edge})
  {
    var c, es :| IsCycle(c, es) && forall x :: x in edges <==> x in es;
    d, ds := Renumber(c, es, edge);
    CycleSidesDistinct(d, ds);
    DropFirstSide(edges, ds, 0);
    assert [edge.p, edge.q] == d[..2];
  }

  /** While more than the closing side is left, a side continues from the chain's end. */
  lemma WalkContinues(d: seq<Vector2>, ds: seq<Edge>, edges: set<Edge>, polygon: seq<Vector2>, once: set<Edge>)
    requires Walking(d, ds, edges, polygon, once) && |once| != 1
    ensures |polygon| < |d|
    ensures ds[|polygon| - 1] in once && Touches(ds[|polygon| - 1], polygon[|polygon| - 1])
  {
    var k := |polygon|;
    LastSideLeft(once, ds, k - 1);
    assert Joins(ds[k - 1], d[k - 1], d[Next(k - 1, |d|)]);
  }

  /** Taking any side that continues from the chain's end extends the chain along the polygon. */
  lemma WalkStep(d: seq<Vector2>, ds: seq<Edge>, edges: set<Edge>, polygon: seq<Vector2>, once: set<Edge>, o: Edge)
    requires Walking(d, ds, edges, polygon, once) && |once| != 1
    requires o in once && Touches(o, polygon[|polygon| - 1])
    ensures var last := polygon[|polygon| - 1];
            Walking(d, ds, edges, polygon + [if o.p == last then o.q else o.p], once - {o})
  {
    var k := |polygon|;
    WalkContinues(d, ds, edges, polygon, once);
    OnlyWayOn(d, ds, k, o);
    DropFirstSide(once, ds, k - 1);
    assert d[..k + 1] == d[..k] + [d[k]];
  }

  /** When only the closing side is left, the chain is the whole polygon. */
  lemma WalkEnd(d: seq<Vector2>, ds: seq<Edge>, edges: set<Edge>, polygon: seq<Vector2>, once: set<Edge>)
    requires Walking(d, ds, edges, polygon, once) && |once| == 1
    ensures TracesCycle(polygon, edges)
  {
    if |polygon| < |d| {
      TwoSidesLeft(once, ds, |polygon| - 1);
    }
    assert polygon == d;
    CycleTraced(d, ds, edges);
  }

  /**
   * The second pass: an arbitrary edge starts the polygon, and then an edge continuing
   * from the last vertex is repeatedly taken away, its other endpoint appended, until a
   * single edge (the closing one) is left.  No outline edges give the empty polygon.
   * `None` stands for the case where no remaining edge continues from the last vertex,
   * where the chain cannot grow and the pass never ends; one outline edge alone is such
   * a case.
   */
  method WalkBoundary(edges: set<Edge>) returns (r: Option<seq<Vector2>>)
    ensures edges == {} ==> r == Some([])
    ensures r.Some? && edges != {} ==> |r.value| == |edges|
    ensures r.Some? ==> forall i :: 0 <= i < |r.value| - 1 ==> Linked(edges, r.value[i], r.value[i + 1])
    ensures FormsCycle(edges) ==> r.Some? && TracesCycle(r.value, edges)
  {
    if edges == {} {
      CycleHasEdges(edges);
      return Some([]);
    }
    var once := edges;
    var edge :| edge in once;
    once := once - {edge};
    var polygon := [edge.p, edge.q];
    ghost var cycle := FormsCycle(edges);
    ghost var d: seq<Vector2> := [];
    ghost var ds: seq<Edge> := [];
    if cycle {
      d, ds := WalkStart(edges, edge);
    }
    while |once| != 1
      invariant once <= edges
      invariant 2 <= |polygon| && |once| + |polygon| == |edges| + 1
      invariant forall i :: 0 <= i < |polygon| - 1 ==> Linked(edges, polygon[i], polygon[i + 1])
      invariant cycle ==> Walking(d, ds, edges, polygon, once)
      decreases |once|
    {
      var last := polygon[|polygon| - 1];
      if cycle {
        WalkContinues(d, ds, edges, polygon, once);
      }
      if !exists o :: o in once && Touches(o, last) {
        return None;
      }
      var o :| o in once && Touches(o, last);
      var next := if o.p == last then o.q else o.p;
      if cycle {
        WalkStep(d, ds, edges, polygon, once, o);
      }
      assert o == Edge(last, next) || o == Edge(next, last);
      ChainAppend(edges, polygon, next);
      polygon := polygon + [next];
      once := once - {o};
    }
    if cycle {
      WalkEnd(d, ds, edges, polygon, once);
    }
    return Some(polygon);
  }

  /**
   * The outline polygon of a mesh: the first pass collects the edges that belong to a
   * single triangle, the second chains them into a polygon.
   */
  method MakePolygonFromTriangles(ts: seq<Triangle>) returns (r: Option<seq<Vector2>>)
    ensures BoundaryEdges(ts) == {} ==> r == Some([])
    ensures r.Some? && BoundaryEdges(ts) != {} ==> |r.value| == |BoundaryEdges(ts)|
    ensures r.Some? ==> forall i :: 0 <= i < |r.value| - 1 ==> Linked(BoundaryEdges(ts), r.value[i], r.value[i + 1])
    ensures FormsCycle(BoundaryEdges(ts)) ==> r.Some? && TracesCycle(r.value, BoundaryEdges(ts))
  {
    var once := ClassifyEdges(ts);
    r := WalkBoundary(once);
  }

  /**
   * What a polygon returned for the outline edges `edges` satisfies: empty for no
   * edges, one vertex per edge otherwise, consecutive vertices joined by outline
   * edges, and the whole cycle when the edges form one.
   */
  ghost predicate IsOutline(polygon: seq<Vector2>, edges: set<Edge>) {
    && (edges == {} ==> polygon == [])
    && (edges != {} ==> |polygon| == |edges|)
    && (forall i :: 0 <= i < |polygon| - 1 ==> Linked(edges, polygon[i], polygon[i + 1]))
    && (FormsCycle(edges) ==> TracesCycle(polygon, edges))
  }
}
