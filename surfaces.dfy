/** Scene nodes, their materials, and the two routines both viewers share:
    turning the meshes of a loaded model into colourable surfaces, and
    recolouring every registered surface. */
module Surfaces {

  /** A 24-bit RGB colour, 0xRRGGBB. */
  type Rgb = c: int | 0 <= c < 0x100_0000

  /** The colour every colourable mesh starts with. */
  const DefaultColor: Rgb := 0x820300

  datatype Option<T> = None | Some(value: T)

  /** What the renderer sees of a material: its base colour and whether it
      has been flagged for re-upload. */
  datatype Surface = Surface(color: Rgb, needsUpdate: bool)

  /** A material whose base colour can be changed in place. */
  class Material {
    var color: Rgb
    var needsUpdate: bool

    constructor (color: Rgb)
      ensures this.color == color && !needsUpdate
    {
      this.color := color;
      needsUpdate := false;
    }
  }

  /** A node of the scene graph. Whether a node is a mesh is fixed by its kind. */
  class Node {
    const isMesh: bool
    var material: Material?
    var castShadow: bool
    var receiveShadow: bool

    constructor (isMesh: bool, material: Material?)
      ensures this.isMesh == isMesh && this.material == material
      ensures !castShadow && !receiveShadow
    {
      this.isMesh := isMesh;
      this.material := material;
      castShadow, receiveShadow := false, false;
    }
  }

  /** The mesh nodes of a visit order, in that order. */
  function MeshesOf(s: seq<Node>): seq<Node>
  {
    if s == [] then [] else (if s[0].isMesh then [s[0]] else []) + MeshesOf(s[1..])
  }

  /** MeshesOf keeps only mesh nodes of the visit order. */
  lemma {:induction false} MeshesOfMembers(s: seq<Node>)
    ensures forall n :: n in MeshesOf(s) ==> n in s && n.isMesh
  {
    if s != [] {
      MeshesOfMembers(s[1..]);
    }
  }

  /** MeshesOf keeps every mesh node, as often as it is visited, and no other node. */
  lemma {:induction false} MeshesOfCounts(s: seq<Node>)
    ensures forall n: Node :: multiset(MeshesOf(s))[n] == if n.isMesh then multiset(s)[n] else 0
  {
    if s != [] {
      assert s == [s[0]] + s[1..];
      MeshesOfCounts(s[1..]);
    }
  }

  /** Filtering a visit order piece by piece gives the pieces' meshes, in order. */
  lemma {:induction false} MeshesOfAppend(a: seq<Node>, b: seq<Node>)
    ensures MeshesOf(a + b) == MeshesOf(a) + MeshesOf(b)
  {
    if a == [] {
      assert a + b == b;
    } else {
      var head := if a[0].isMesh then [a[0]] else [];
      assert (a + b)[0] == a[0] && (a + b)[1..] == a[1..] + b;
      assert MeshesOf(a + b) == head + MeshesOf(a[1..] + b);
      MeshesOfAppend(a[1..], b);
      assert MeshesOf(a) == head + MeshesOf(a[1..]);
    }
  }

  /** The materials held by a sequence of nodes. */
  ghost function MaterialsOf(ns: seq<Node>): set<Material>
    reads ns
  {
    set n | n in ns && n.material != null :: n.material
  }

  /** The materials of `ns` lie within any set holding every one of them. */
  lemma MaterialsOfWithin(ns: seq<Node>, s: set<Material>)
    requires forall n :: n in ns ==> n.material == null || n.material in s
    ensures MaterialsOf(ns) <= s
  {
  }

  /** A material no node in `ns` holds is not among their materials. */
  lemma MaterialsOfExcludes(ns: seq<Node>, m: Material?)
    requires forall n :: n in ns ==> n.material != m
    ensures m == null || m !in MaterialsOf(ns)
  {
  }

  /** What the renderer sees of one node: nothing when it has no material. */
  ghost function SurfaceOf(n: Node): Option<Surface>
    reads n, n.material
  {
    if n.material == null then None else Some(Surface(n.material.color, n.material.needsUpdate))
  }

  /** What the renderer sees of a sequence of nodes, position by position. */
  ghost function SurfacesOf(ns: seq<Node>): (r: seq<Option<Surface>>)
    reads ns, MaterialsOf(ns)
    ensures |r| == |ns|
    ensures forall i :: 0 <= i < |ns| ==> r[i] == SurfaceOf(ns[i])
  {
    if ns == [] then [] else [SurfaceOf(ns[0])] + SurfacesOf(ns[1..])
  }

  /** The surfaces after painting every one that has a material with `c`. */
  function Recolored(v: seq<Option<Surface>>, c: Rgb): (r: seq<Option<Surface>>)
    ensures |r| == |v|
    ensures forall i :: 0 <= i < |v| && v[i].Some? ==> r[i] == Some(Surface(c, true))
    ensures forall i :: 0 <= i < |v| && v[i].None? ==> r[i] == None
  {
    if v == [] then []
    else [if v[0].Some? then Some(Surface(c, true)) else None] + Recolored(v[1..], c)
  }

  /** Recolouring is idempotent. */
  lemma RecoloredIdempotent(v: seq<Option<Surface>>, c: Rgb)
    ensures Recolored(Recolored(v, c), c) == Recolored(v, c)
  {
  }

  /** Only the most recent colour matters. */
  lemma RecoloredLastWins(v: seq<Option<Surface>>, c1: Rgb, c2: Rgb)
    ensures Recolored(Recolored(v, c1), c2) == Recolored(v, c2)
  {
  }

  /** The body of the recolour handler: every node in `meshes` that has a
      material gets colour `c` and is flagged for re-upload; nothing else,
      not even the nodes themselves, is modified. */
  method RecolorAll(meshes: seq<Node>, c: Rgb)
    modifies MaterialsOf(meshes)
    ensures SurfacesOf(meshes) == Recolored(old(SurfacesOf(meshes)), c)
  {
    var i := 0;
    while i < |meshes|
      invariant 0 <= i <= |meshes|
      invariant forall j :: 0 <= j < i && meshes[j].material != null ==>
                  meshes[j].material.color == c && meshes[j].material.needsUpdate
    {
      var mesh := meshes[i];
      if mesh.material != null {
        mesh.material.color := c;
        mesh.material.needsUpdate := true;
      }
      i := i + 1;
    }
    ghost var before, after := old(SurfacesOf(meshes)), SurfacesOf(meshes);
    assert |after| == |Recolored(before, c)|;
    forall j | 0 <= j < |meshes| ensures after[j] == Recolored(before, c)[j] {
      assert before[j] == old(SurfaceOf(meshes[j]));
    }
  }

  /** A traversal visits every node once. */
  predicate Distinct(visit: seq<Node>)
  {
    forall j, k :: 0 <= j < k < |visit| ==> visit[j] != visit[k]
  }

  /** One step of the colourable model's traverse callback, on a mesh node. */
  method MakeSurface(node: Node, shadows: bool)
    modifies node
    ensures node.material != null && fresh(node.material)
    ensures node.material.color == DefaultColor && !node.material.needsUpdate
    ensures node.castShadow == (shadows || old(node.castShadow))
    ensures node.receiveShadow == (shadows || old(node.receiveShadow))
  {
    node.material := new Material(DefaultColor);
    if shadows {
      node.castShadow := true;
      node.receiveShadow := true;
    }
  }

  /** The traverse callback of the colourable model: each mesh node gets a
      fresh material of the default colour (and, when `shadows` is set, casts
      and receives shadows); the mesh nodes are returned in visit order for
      the registry. Nodes that are not meshes are left alone. */
  method MakeColorable(visit: seq<Node>, shadows: bool) returns (added: seq<Node>)
    requires Distinct(visit)
    modifies visit
    ensures added == MeshesOf(visit)
    ensures forall n :: n in visit && n.isMesh ==>
              n.material != null && fresh(n.material) &&
              n.material.color == DefaultColor && !n.material.needsUpdate
    ensures forall j, k :: 0 <= j < k < |visit| && visit[j].isMesh && visit[k].isMesh ==>
              visit[j].material != visit[k].material
    ensures forall n :: n in visit && n.isMesh ==>
              n.castShadow == (shadows || old(n.castShadow)) &&
              n.receiveShadow == (shadows || old(n.receiveShadow))
    ensures forall n :: n in visit && !n.isMesh ==>
              n.material == old(n.material) &&
              n.castShadow == old(n.castShadow) && n.receiveShadow == old(n.receiveShadow)
  {
    added := [];
    var i := 0;
    while i < |visit|
      invariant 0 <= i <= |visit|
      invariant added == MeshesOf(visit[..i])
      invariant forall j :: 0 <= j < i && visit[j].isMesh ==>
                  visit[j].material != null && fresh(visit[j].material) &&
                  visit[j].material.color == DefaultColor && !visit[j].material.needsUpdate
      invariant forall j, k :: 0 <= j < k < i && visit[j].isMesh && visit[k].isMesh ==>
                  visit[j].material != visit[k].material
      invariant forall j :: i <= j < |visit| ==>
                  visit[j].castShadow == old(visit[j].castShadow) &&
                  visit[j].receiveShadow == old(visit[j].receiveShadow)
      invariant forall j :: 0 <= j < i && visit[j].isMesh ==>
                  visit[j].castShadow == (shadows || old(visit[j].castShadow)) &&
                  visit[j].receiveShadow == (shadows || old(visit[j].receiveShadow))
      invariant forall j :: 0 <= j < |visit| && !visit[j].isMesh ==>
                  visit[j].material == old(visit[j].material) &&
                  visit[j].castShadow == old(visit[j].castShadow) &&
                  visit[j].receiveShadow == old(visit[j].receiveShadow)
    {
      var node := visit[i];
      if node.isMesh {
        MakeSurface(node, shadows);
        added := added + [node];
      }
      MeshesOfAppend(visit[..i], [node]);
      assert visit[..i + 1] == visit[..i] + [node];
      i := i + 1;
    }
    assert visit[..i] == visit;
    forall n | n in visit
      ensures n.isMesh ==>
                n.material != null && fresh(n.material) &&
                n.material.color == DefaultColor && !n.material.needsUpdate &&
                n.castShadow == (shadows || old(n.castShadow)) &&
                n.receiveShadow == (shadows || old(n.receiveShadow))
    {
      var j :| 0 <= j < |visit| && visit[j] == n;
    }
  }
}
