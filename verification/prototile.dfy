/** The Krinkle prototile generator of the single-file tiling application:
    two integer direction sequences built from (m, k), and the closed path that
    walks forward along the lower one and back along the reversed upper one.
    The direction-to-vector map (`getVector`, which depends on n through its
    angle) is a parameter of every operation: the model never evaluates a
    cosine or a sine. */
module Prototile {
  import opened Common

  /** `getVector` for the chosen symmetry order n: direction index to step vector. */
  type Directions = int -> Vec

  const PrototileFill: Color := Css("rgba(88, 166, 255, 0.4)")
  const PrototileStroke: string := "#58a6ff"

  /** `(j * m) % k` with JavaScript's remainder. */
  function Residue(j: int, m: int, k: int): int
    requires k != 0
  {
    JsRem(j * m, k)
  }

  /** The residues `(j * m) % k` for `lo <= j < k`, in order of j. */
  function Residues(m: int, k: int, lo: nat): (s: seq<int>)
    requires k >= 1
    ensures |s| == if lo < k then k - lo else 0
    ensures forall j :: 0 <= j < |s| ==> s[j] == Residue(lo + j, m, k)
    decreases k - lo
  {
    if lo >= k then [] else [Residue(lo, m, k)] + Residues(m, k, lo + 1)
  }

  /** `l_seq`: the residues for 0 <= j < k, then the terminal value k. */
  function LowerSeq(m: int, k: int): seq<int> {
    if k <= 0 then [k] else Residues(m, k, 0) + [k]
  }

  /** `u_seq`: k, then the residues for 1 <= j < k, then the terminal value 0. */
  function UpperSeq(m: int, k: int): seq<int> {
    if k <= 0 then [k, 0] else [k] + Residues(m, k, 1) + [0]
  }

  /** Both sequences have k + 1 entries laid out as the generator promises. */
  lemma SequenceContents(m: int, k: int)
    requires k >= 1
    ensures |LowerSeq(m, k)| == k + 1 && |UpperSeq(m, k)| == k + 1
    ensures forall j :: 0 <= j < k ==> LowerSeq(m, k)[j] == Residue(j, m, k)
    ensures LowerSeq(m, k)[k] == k
    ensures UpperSeq(m, k)[0] == k
    ensures forall j :: 1 <= j < k ==> UpperSeq(m, k)[j] == Residue(j, m, k)
    ensures UpperSeq(m, k)[k] == 0
  {
  }

  /** The two sequences are permutations of each other exactly when k >= 1;
      for k <= 0 the loops do not run and the sequences have lengths 1 and 2. */
  lemma LowerUpperPermutation(m: int, k: int)
    ensures multiset(LowerSeq(m, k)) == multiset(UpperSeq(m, k)) <==> k >= 1
  {
    if k >= 1 {
      var mid := Residues(m, k, 1);
      assert Residues(m, k, 0) == [Residue(0, m, k)] + mid;
      assert Residue(0, m, k) == 0;
      assert LowerSeq(m, k) == [0] + mid + [k];
      assert UpperSeq(m, k) == [k] + mid + [0];
    } else {
      assert |multiset(LowerSeq(m, k))| == 1;
      assert |multiset(UpperSeq(m, k))| == 2;
    }
  }

  /** One step of the walk: add the direction vector going forward, subtract it going back. */
  function Step(cur: Vec, d: int, dir: Directions, forward: bool): Vec {
    if forward then cur.Plus(dir(d)) else cur.Minus(dir(d))
  }

  /** The points visited when walking the directions `ds` from `start`
      (the start itself excluded). */
  function Walk(start: Vec, ds: seq<int>, dir: Directions, forward: bool): (pts: seq<Vec>)
    ensures |pts| == |ds|
    decreases |ds|
  {
    if |ds| == 0 then []
    else
      var next := Step(start, ds[0], dir, forward);
      [next] + Walk(next, ds[1..], dir, forward)
  }

  /** The vector sum of the directions in `ds`. */
  function VecSum(ds: seq<int>, dir: Directions): Vec
    decreases |ds|
  {
    if |ds| == 0 then Origin else dir(ds[0]).Plus(VecSum(ds[1..], dir))
  }

  /** The last point of a walk, or the start when nothing was walked. */
  function LastOr(start: Vec, pts: seq<Vec>): Vec {
    if |pts| == 0 then start else pts[|pts| - 1]
  }

  /** Each point of a walk is its predecessor moved by one direction vector. */
  lemma {:induction false} WalkSteps(start: Vec, ds: seq<int>, dir: Directions, forward: bool)
    ensures forall i :: 0 <= i < |ds| ==>
      Walk(start, ds, dir, forward)[i] ==
        Step(if i == 0 then start else Walk(start, ds, dir, forward)[i - 1], ds[i], dir, forward)
    decreases |ds|
  {
    if |ds| > 0 {
      var next := Step(start, ds[0], dir, forward);
      WalkSteps(next, ds[1..], dir, forward);
      var w := Walk(start, ds, dir, forward);
      var rest := Walk(next, ds[1..], dir, forward);
      assert w == [next] + rest;
      forall i | 1 <= i < |ds|
        ensures w[i] == Step(w[i - 1], ds[i], dir, forward)
      {
        assert w[i] == rest[i - 1];
        assert ds[i] == ds[1..][i - 1];
        if i >= 2 {
          assert w[i - 1] == rest[i - 2];
        }
      }
    }
  }

  /** A walk ends at its start displaced by the vector sum of its directions. */
  lemma {:induction false} WalkEnd(start: Vec, ds: seq<int>, dir: Directions, forward: bool)
    ensures LastOr(start, Walk(start, ds, dir, forward)) ==
      (if forward then start.Plus(VecSum(ds, dir)) else start.Minus(VecSum(ds, dir)))
    decreases |ds|
  {
    if |ds| > 0 {
      var next := Step(start, ds[0], dir, forward);
      WalkEnd(next, ds[1..], dir, forward);
      var rest := Walk(next, ds[1..], dir, forward);
      assert LastOr(start, Walk(start, ds, dir, forward)) == LastOr(next, rest);
    }
  }

  /** Summing the directions is insensitive to their order: VecSum splits over concatenation. */
  lemma {:induction false} VecSumConcat(a: seq<int>, b: seq<int>, dir: Directions)
    ensures VecSum(a + b, dir) == VecSum(a, dir).Plus(VecSum(b, dir))
    decreases |a|
  {
    if |a| == 0 {
      assert a + b == b;
    } else {
      VecSumConcat(a[1..], b, dir);
      assert (a + b)[0] == a[0];
      assert (a + b)[1..] == a[1..] + b;
    }
  }

  /** Taking the head off one permutation and an equal element off the other leaves permutations. */
  lemma RemoveOne(a: seq<int>, b: seq<int>, i: int)
    requires 0 <= i < |b| && |a| > 0 && b[i] == a[0]
    requires multiset(a) == multiset(b)
    ensures multiset(a[1..]) == multiset(b[..i] + b[i + 1..])
  {
    var rest := b[..i] + b[i + 1..];
    assert b == b[..i] + [b[i]] + b[i + 1..];
    assert a == [a[0]] + a[1..];
    assert multiset(a) == multiset{a[0]} + multiset(a[1..]);
    assert multiset(b) == multiset(b[..i]) + multiset{b[i]} + multiset(b[i + 1..]);
    assert multiset(rest) == multiset(b[..i]) + multiset(b[i + 1..]);
    assert multiset(b) == multiset(rest) + multiset{b[i]};
    assert multiset(a[1..]) == multiset(a) - multiset{a[0]};
    assert multiset(rest) == multiset(b) - multiset{b[i]};
  }

  /** Two permutations of one multiset of directions have the same vector sum. */
  lemma {:induction false} VecSumPermutation(a: seq<int>, b: seq<int>, dir: Directions)
    requires multiset(a) == multiset(b)
    ensures VecSum(a, dir) == VecSum(b, dir)
    decreases |a|
  {
    if |a| > 0 {
      assert a[0] in multiset(b);
      var i :| 0 <= i < |b| && b[i] == a[0];
      var rest := b[..i] + b[i + 1..];
      RemoveOne(a, b, i);
      VecSumPermutation(a[1..], rest, dir);
      VecSumConcat(b[..i], [b[i]] + b[i + 1..], dir);
      VecSumConcat([b[i]], b[i + 1..], dir);
      VecSumConcat(b[..i], b[i + 1..], dir);
      assert b == b[..i] + ([b[i]] + b[i + 1..]);
      assert VecSum([b[i]], dir) == dir(b[i]);
    }
  }

  /** The reverse of a sequence (`[...s].reverse()`). */
  function Reverse<T>(s: seq<T>): (r: seq<T>)
    ensures |r| == |s|
    ensures forall i :: 0 <= i < |s| ==> r[i] == s[|s| - 1 - i]
    decreases |s|
  {
    if |s| == 0 then [] else Reverse(s[1..]) + [s[0]]
  }

  /** Reversing keeps the multiset of elements. */
  lemma {:induction false} ReversePermutation<T>(s: seq<T>)
    ensures multiset(Reverse(s)) == multiset(s)
    decreases |s|
  {
    if |s| > 0 {
      ReversePermutation(s[1..]);
      assert s == [s[0]] + s[1..];
    }
  }

  /** The prototile boundary: the origin, the forward walk along `l_seq`, then
      the backward walk along the reversed `u_seq` from where the first ended. */
  function PrototilePath(m: int, k: int, dir: Directions): seq<Vec> {
    var forwardPts := Walk(Origin, LowerSeq(m, k), dir, true);
    var tip := LastOr(Origin, forwardPts);
    [Origin] + forwardPts + Walk(tip, Reverse(UpperSeq(m, k)), dir, false)
  }

  /** The path starts at the origin, follows `l_seq` forward and the reversed
      `u_seq` backward, one point per direction. */
  lemma PathStructure(m: int, k: int, dir: Directions)
    ensures var p := PrototilePath(m, k, dir);
            var l := LowerSeq(m, k);
            var ru := Reverse(UpperSeq(m, k));
            && |p| == 1 + |l| + |ru|
            && p[0] == Origin
            && (forall i :: 0 <= i < |l| ==> p[i + 1] == p[i].Plus(dir(l[i])))
            && (forall i :: 0 <= i < |ru| ==> p[|l| + 1 + i] == p[|l| + i].Minus(dir(ru[i])))
  {
    var p := PrototilePath(m, k, dir);
    var l := LowerSeq(m, k);
    var ru := Reverse(UpperSeq(m, k));
    var fw := Walk(Origin, l, dir, true);
    var tip := LastOr(Origin, fw);
    var bw := Walk(tip, ru, dir, false);
    assert p == [Origin] + fw + bw;
    WalkSteps(Origin, l, dir, true);
    WalkSteps(tip, ru, dir, false);
    forall i | 0 <= i < |l|
      ensures p[i + 1] == p[i].Plus(dir(l[i]))
    {
      assert p[i + 1] == fw[i];
      if i > 0 {
        assert p[i] == fw[i - 1];
      }
    }
    forall i | 0 <= i < |ru|
      ensures p[|l| + 1 + i] == p[|l| + i].Minus(dir(ru[i]))
    {
      assert p[|l| + 1 + i] == bw[i];
      if i > 0 {
        assert p[|l| + i] == bw[i - 1];
      } else {
        assert p[|l|] == tip;
      }
    }
  }

  /** The path has 2k + 3 points when k >= 1 (and 4 when k <= 0). */
  lemma PathLength(m: int, k: int, dir: Directions)
    ensures |PrototilePath(m, k, dir)| == if k >= 1 then 2 * k + 3 else 4
  {
  }

  /** With exact arithmetic the path returns to the origin for every k >= 1,
      whatever the direction vectors are, because the two sequences are then
      permutations of each other. */
  lemma {:induction false} PathCloses(m: int, k: int, dir: Directions)
    ensures k >= 1 ==> LastOr(Origin, PrototilePath(m, k, dir)) == Origin
  {
    if k >= 1 {
      var l := LowerSeq(m, k);
      var ru := Reverse(UpperSeq(m, k));
      PathEnd(m, k, dir);
      LowerUpperPermutation(m, k);
      ReversePermutation(UpperSeq(m, k));
      VecSumPermutation(l, ru, dir);
    }
  }

  /** The path ends where the forward walk's displacement is undone by the
      backward walk's. */
  lemma PathEnd(m: int, k: int, dir: Directions)
    ensures LastOr(Origin, PrototilePath(m, k, dir)) ==
      Origin.Plus(VecSum(LowerSeq(m, k), dir)).Minus(VecSum(Reverse(UpperSeq(m, k)), dir))
  {
    var l := LowerSeq(m, k);
    var ru := Reverse(UpperSeq(m, k));
    var fw := Walk(Origin, l, dir, true);
    var tip := LastOr(Origin, fw);
    var bw := Walk(tip, ru, dir, false);
    WalkEnd(Origin, l, dir, true);
    WalkEnd(tip, ru, dir, false);
    assert |bw| > 0;
    assert LastOr(Origin, [Origin] + fw + bw) == LastOr(tip, bw);
  }

  /** For k <= 0 the path is origin, `v(k)`, `v(k) - v(0)`, `-v(0)`: it ends at
      `-v(0)` and so stays open unless direction 0 is the zero vector. */
  lemma PathOpenBelowOne(m: int, k: int, dir: Directions)
    requires k <= 0
    ensures PrototilePath(m, k, dir) ==
      [Origin, dir(k), dir(k).Minus(dir(0)), Origin.Minus(dir(0))]
    ensures LastOr(Origin, PrototilePath(m, k, dir)) == Origin <==> dir(0) == Origin
  {
    var ru := Reverse(UpperSeq(m, k));
    assert ru == [0, k];
    var a := dir(k);
    var fw := Walk(Origin, [k], dir, true);
    assert fw == [Origin.Plus(a)] by {
      assert Walk(Origin.Plus(a), [], dir, true) == [];
    }
    assert Origin.Plus(a) == a;
    var bw := Walk(a, [0, k], dir, false);
    var p1 := a.Minus(dir(0));
    assert bw == [p1, p1.Minus(a)] by {
      assert [0, k][1..] == [k];
      assert Walk(p1, [k], dir, false) == [p1.Minus(a)] by {
        assert Walk(p1.Minus(a), [], dir, false) == [];
      }
    }
    assert p1.Minus(a) == Origin.Minus(dir(0));
  }

  /** The generator object: it keeps the polygons of its last run. */
  datatype Generator = Generator(polygons: seq<Polygon>)

  /** What `generatePrototile` leaves behind: the updated generator, the
      returned polygon list, and whether it logged the `n < k` parameter error. */
  datatype Generated = Generated(generator: Generator, polygons: seq<Polygon>, loggedNBelowK: bool)

  /** `generatePrototile(m, k, n)`: discards the previous polygons and returns
      exactly one, whose path is the prototile path and whose metadata carries
      the end point behind the closure error. `n < k` is only logged. */
  function GeneratePrototile(g: Generator, m: int, k: int, n: int, dir: Directions): (r: Generated)
    ensures r.generator.polygons == r.polygons
    ensures |r.polygons| == 1
    ensures r.loggedNBelowK <==> n < k
    ensures r.polygons[0].path == PrototilePath(m, k, dir)
    ensures r.polygons[0].color == PrototileFill && r.polygons[0].stroke == Some(PrototileStroke)
    ensures r.polygons[0].meta == ClosureMeta(LastOr(Origin, PrototilePath(m, k, dir)))
    ensures k >= 1 ==> r.polygons[0].meta == ClosureMeta(Origin)
  {
    var tile := PrototilePolygon(m, k, dir);
    Generated(Generator([tile]), [tile], n < k)
  }

  /** The one polygon `generatePrototile` pushes. Its metadata records the
      final point of the walk, whose distance to the origin is `closureError`;
      for k >= 1 that point is the origin itself. */
  function PrototilePolygon(m: int, k: int, dir: Directions): (tile: Polygon)
    ensures tile.path == PrototilePath(m, k, dir)
    ensures tile.color == PrototileFill && tile.stroke == Some(PrototileStroke)
    ensures tile.meta == ClosureMeta(LastOr(Origin, tile.path))
    ensures k >= 1 ==> tile.meta == ClosureMeta(Origin)
  {
    var path := PrototilePath(m, k, dir);
    PathCloses(m, k, dir);
    Polygon(path, PrototileFill, Some(PrototileStroke), ClosureMeta(LastOr(Origin, path)))
  }

  /** The symmetry order n derived in `updateTiling`: `k * t`, or
      `2 * (t * k - m)` in offset mode. */
  function DeriveN(k: int, m: int, t: int, isOffset: bool): int {
    if !isOffset then k * t else 2 * (t * k - m)
  }

  /** In normal mode with k >= 1, the validation `n >= k` accepts exactly t >= 1. */
  lemma NormalModeAcceptance(k: int, m: int, t: int)
    requires k >= 1
    ensures DeriveN(k, m, t, false) >= k <==> t >= 1
  {
    if t >= 1 {
      assert k * t >= k * 1;
    } else {
      assert k * t <= k * 0;
    }
  }
}
