/**
 * Orderings and the weight clean-up of the Collada importer's state
 * (editor/collada/collada.h): the document version order, the bone weight
 * order (heaviest first), `Vertex::fix_weights`, which keeps the four
 * heaviest weights of a vertex and makes them add up to one, and the
 * vertex order used to merge equal vertices.
 *
 * Float weights are exact reals, so the rescaling rounds nothing. The
 * orders of `Vector3` and `Color` are not part of this model: the vertex
 * order takes them as parameters.
 */
module Collada {
  import opened Wrappers
  import opened Geometry

  // ---- Versions ----

  datatype Version = Version(major: int, minor: int, rev: int)

  /** `Version::operator<`: major first, then minor, then revision. */
  predicate VersionLess(a: Version, b: Version)
  {
    if a.major == b.major then (if a.minor == b.minor then a.rev < b.rev else a.minor < b.minor) else a.major < b.major
  }

  /** The version order is a strict total order. */
  lemma VersionOrder(a: Version, b: Version, c: Version)
    ensures !VersionLess(a, a)
    ensures VersionLess(a, b) && VersionLess(b, c) ==> VersionLess(a, c)
    ensures a != b ==> VersionLess(a, b) || VersionLess(b, a)
    ensures VersionLess(a, b) ==> !VersionLess(b, a)
  {
  }

  // ---- Bone weights ----

  datatype Weight = Weight(boneIdx: int, weight: real)

  /** `Weight::operator<`: the heavier weight sorts first. */
  predicate WeightLess(a: Weight, b: Weight)
  {
    a.weight > b.weight
  }

  /** No weight sorts before an earlier one: heaviest first. */
  predicate HeaviestFirst(ws: seq<Weight>)
  {
    forall i, j :: 0 <= i < j < |ws| ==> !WeightLess(ws[j], ws[i])
  }

  /** The weights added up from the first, as the loop adds them. */
  function Total(ws: seq<Weight>): real
  {
    if ws == [] then 0.0 else Total(ws[..|ws| - 1]) + ws[|ws| - 1].weight
  }

  /** Every weight divided by `t`, bones unchanged. */
  function Scaled(ws: seq<Weight>, t: real): (r: seq<Weight>)
    requires t != 0.0
    ensures |r| == |ws|
    ensures forall i :: 0 <= i < |ws| ==> r[i] == Weight(ws[i].boneIdx, ws[i].weight / t)
  {
    if ws == [] then [] else Scaled(ws[..|ws| - 1], t) + [Weight(ws[|ws| - 1].boneIdx, ws[|ws| - 1].weight / t)]
  }

  /** Dividing each weight by `t` divides their total by `t`. */
  lemma {:induction false} TotalScaled(ws: seq<Weight>, t: real)
    requires t != 0.0
    ensures Total(Scaled(ws, t)) == Total(ws) / t
  {
    if ws != [] {
      var n := |ws|;
      var r := Scaled(ws, t);
      assert r[..n - 1] == Scaled(ws[..n - 1], t);
      TotalScaled(ws[..n - 1], t);
      assert Total(r) == Total(ws[..n - 1]) / t + ws[n - 1].weight / t;
    }
  }

  /** What `fix_weights` leaves of weights already sorted heaviest first. */
  function Fixed(sorted: seq<Weight>): (r: seq<Weight>)
  {
    if |sorted| <= 4 then sorted
    else if Total(sorted[..4]) == 0.0 then sorted[..4]
    else Scaled(sorted[..4], Total(sorted[..4]))
  }

  /**
   * At most four weights remain; four or fewer are left as they are; of
   * more, the first four keep their bones, and each is divided by their
   * total unless that total is zero.
   */
  lemma FixedKeepsHeaviest(sorted: seq<Weight>)
    ensures |Fixed(sorted)| == if |sorted| <= 4 then |sorted| else 4
    ensures |sorted| <= 4 ==> Fixed(sorted) == sorted
    ensures forall i :: 0 <= i < |Fixed(sorted)| ==> Fixed(sorted)[i].boneIdx == sorted[i].boneIdx
    ensures |sorted| > 4 && Total(sorted[..4]) == 0.0 ==> Fixed(sorted) == sorted[..4]
  {
  }

  /** With more than four weights and a non-zero total, the kept four add up to one. */
  lemma FixedSumsToOne(sorted: seq<Weight>)
    requires |sorted| > 4 && Total(sorted[..4]) != 0.0
    ensures Total(Fixed(sorted)) == 1.0
  {
    TotalScaled(sorted[..4], Total(sorted[..4]));
  }

  /** Non-negative weights sorted heaviest first stay so after `fix_weights`. */
  lemma FixedHeaviestFirst(sorted: seq<Weight>)
    requires HeaviestFirst(sorted)
    requires forall i :: 0 <= i < |sorted| ==> sorted[i].weight >= 0.0
    ensures HeaviestFirst(Fixed(sorted))
  {
    if |sorted| > 4 {
      var kept := sorted[..4];
      var t := Total(kept);
      NonNegativeTotal(kept);
      if t != 0.0 {
        var r := Scaled(kept, t);
        forall i, j | 0 <= i < j < 4
          ensures !WeightLess(r[j], r[i])
        {
          assert kept[j].weight <= kept[i].weight;
          DivideMonotone(kept[j].weight, kept[i].weight, t);
        }
      }
    }
  }

  lemma {:induction false} NonNegativeTotal(ws: seq<Weight>)
    requires forall i :: 0 <= i < |ws| ==> ws[i].weight >= 0.0
    ensures Total(ws) >= 0.0
  {
    if ws != [] {
      NonNegativeTotal(ws[..|ws| - 1]);
    }
  }

  lemma DivideMonotone(a: real, b: real, t: real)
    requires a <= b && t > 0.0
    ensures a / t <= b / t
  {
    assert b / t - a / t == (b - a) / t;
  }

  // ---- Vertices ----

  datatype Color = Color(r: real, g: real, b: real, a: real)

  /** The fields of a `Vertex` that its order looks at. */
  datatype VertexData = VertexData(uid: int, vertex: Vector3, normal: Vector3, uv: Vector3, uv2: Vector3, color: Color, weights: seq<Weight>)

  /**
   * The weight loop of `Vertex::operator<` on equally long lists, from
   * entry `i` on: at the first entry that differs in bone or weight, the
   * smaller bone or weight decides; when none differs there is no decision.
   */
  function WeightsDecide(a: seq<Weight>, b: seq<Weight>, i: nat): (d: Option<bool>)
    requires |a| == |b| && i <= |a|
    ensures d.None? <==> a[i..] == b[i..]
    decreases |a| - i
  {
    if i == |a| then None
    else if a[i].boneIdx != b[i].boneIdx then Some(a[i].boneIdx < b[i].boneIdx)
    else if a[i].weight != b[i].weight then Some(a[i].weight < b[i].weight)
    else
      var rest := WeightsDecide(a, b, i + 1);
      assert a[i..] == [a[i]] + a[i + 1..] && b[i..] == [b[i]] + b[i + 1..];
      rest
  }

  /**
   * `Vertex::operator<` with `vecLess` and `colorLess` for the `Vector3`
   * and `Color` orders: uid, position, normal, uv and uv2 in turn; then, when
   * either has weights, the shorter list, or the first differing weight
   * entry; then the colour.
   */
  predicate VertexLess(p: VertexData, q: VertexData, vecLess: (Vector3, Vector3) -> bool, colorLess: (Color, Color) -> bool)
  {
    if p.uid != q.uid then p.uid < q.uid
    else if p.vertex != q.vertex then vecLess(p.vertex, q.vertex)
    else if p.normal != q.normal then vecLess(p.normal, q.normal)
    else if p.uv != q.uv then vecLess(p.uv, q.uv)
    else if p.uv2 != q.uv2 then vecLess(p.uv2, q.uv2)
    else if (|p.weights| > 0 || |q.weights| > 0) && |p.weights| != |q.weights| then |p.weights| < |q.weights|
    else if |p.weights| == |q.weights| && WeightsDecide(p.weights, q.weights, 0).Some? then WeightsDecide(p.weights, q.weights, 0).value
    else colorLess(p.color, q.color)
  }

  /** An order in which no two elements precede each other. */
  ghost predicate Asymmetric<T(!new)>(lt: (T, T) -> bool)
  {
    forall x, y :: lt(x, y) ==> !lt(y, x)
  }

  /** Swapping the lists turns a decision into its opposite. */
  lemma {:induction false} WeightsDecideSwap(a: seq<Weight>, b: seq<Weight>, i: nat)
    requires |a| == |b| && i <= |a|
    ensures WeightsDecide(a, b, i).Some? ==> WeightsDecide(b, a, i) == Some(!WeightsDecide(a, b, i).value)
    decreases |a| - i
  {
    if i < |a| && a[i].boneIdx == b[i].boneIdx && a[i].weight == b[i].weight {
      WeightsDecideSwap(a, b, i + 1);
    }
  }

  /** With asymmetric vector and colour orders, no two vertices precede each other, and none precedes itself. */
  lemma VertexLessAsymmetric(p: VertexData, q: VertexData, vecLess: (Vector3, Vector3) -> bool, colorLess: (Color, Color) -> bool)
    requires Asymmetric(vecLess) && Asymmetric(colorLess)
    ensures VertexLess(p, q, vecLess, colorLess) ==> !VertexLess(q, p, vecLess, colorLess)
  {
    if |p.weights| == |q.weights| {
      WeightsDecideSwap(p.weights, q.weights, 0);
    }
  }

  /** A vertex of the importer: `fix_weights` rewrites its weight list in place. */
  class Vertex {
    var data: VertexData

    constructor (d: VertexData)
      ensures data == d
    {
      data := d;
    }

    /**
     * `fix_weights`, with `sorted` the order `weights.sort()` puts the
     * weights in (the sort is not stable, so equal weights may come in any
     * order): the weights become `Fixed(sorted)`.
     */
    method FixWeights(sorted: seq<Weight>)
      requires multiset(sorted) == multiset(data.weights) && HeaviestFirst(sorted)
      modifies this
      ensures data == old(data).(weights := Fixed(sorted))
    {
      var ws := sorted;
      if |ws| > 4 {
        ws := ws[..4];
        var total := 0.0;
        var i := 0;
        while i < 4
          invariant 0 <= i <= 4 && total == Total(ws[..i])
        {
          assert ws[..i + 1][..i] == ws[..i];
          total := total + ws[i].weight;
          i := i + 1;
        }
        assert ws[..4] == ws;
        if total != 0.0 {
          var kept := ws;
          i := 0;
          while i < 4
            invariant 0 <= i <= 4 && |ws| == 4
            invariant ws[..i] == Scaled(kept[..i], total) && ws[i..] == kept[i..]
          {
            assert kept[..i + 1][..i] == kept[..i];
            ws := ws[i := Weight(ws[i].boneIdx, ws[i].weight / total)];
            i := i + 1;
          }
          assert ws == ws[..4];
        }
      }
      data := data.(weights := ws);
    }
  }
}
