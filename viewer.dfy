/** The state main.js keeps at module level: the registry of colourable
    meshes, the objects added to the scene, and the ground plane; and the
    handlers that change it (the two model-load callbacks and the recolour
    handler the palette buttons call). */
module Viewer {
  import opened Surfaces

  class Showcase {
    /** Meshes of the colourable model, in the order they were registered. */
    var modelMeshes: seq<Node>
    /** Objects added to the scene, in the order they were added. */
    var children: seq<Node>
    /** The circular ground plane. */
    const plane: Node

    /** Every node this viewer holds: the plane and every loaded model's nodes. */
    ghost var Nodes: set<Node>
    /** The nodes of the base model. */
    ghost var BaseNodes: set<Node>
    /** The materials made for registered meshes. */
    ghost var Painted: set<Material>

    ghost predicate Valid()
      reads this, Nodes, modelMeshes
    {
      && plane in Nodes && plane.isMesh && plane !in BaseNodes
      && BaseNodes <= Nodes
      && (forall n :: n in children ==> n in Nodes)
      && (forall n :: n in modelMeshes ==>
            n in Nodes && n.isMesh && n.material != null && n.material in Painted)
      && (plane.material == null || plane.material !in Painted)
      && (forall n :: n in BaseNodes ==> n.material == null || n.material !in Painted)
    }

    /** The start-up state: an empty registry and a scene holding only the
        black ground plane, which receives shadows but casts none. */
    constructor ()
      ensures Valid()
      ensures modelMeshes == [] && children == [plane] && BaseNodes == {}
      ensures plane.material != null && plane.material.color == 0x000000
      ensures plane.receiveShadow && !plane.castShadow
    {
      var planeMaterial := new Material(0x000000);
      var p := new Node(true, planeMaterial);
      p.receiveShadow := true;
      plane := p;
      modelMeshes := [];
      children := [p];
      Nodes := {p};
      BaseNodes := {};
      Painted := {};
    }

    /** The base model has loaded; `visit` is its nodes in traversal order,
        the model itself first. Every mesh casts and receives shadows, no
        material is replaced, the registry is untouched, and the model is
        added to the scene. */
    method OnBaseModelLoaded(model: Node, visit: seq<Node>)
      requires Valid()
      requires visit != [] && visit[0] == model && Distinct(visit)
      requires forall n :: n in visit ==> n !in Nodes
      requires forall n :: n in visit ==> n.material == null || n.material !in Painted
      modifies this, visit
      ensures Valid()
      ensures modelMeshes == old(modelMeshes) && Painted == old(Painted)
      ensures children == old(children) + [model]
      ensures BaseNodes == old(BaseNodes) + set n | n in visit
      ensures forall n :: n in visit ==> n.material == old(n.material)
      ensures forall n :: n in visit && n.isMesh ==> n.castShadow && n.receiveShadow
      ensures forall n :: n in visit && !n.isMesh ==>
                n.castShadow == old(n.castShadow) && n.receiveShadow == old(n.receiveShadow)
    {
      EnableShadows(visit);
      children := children + [model];
      Nodes := Nodes + set n | n in visit;
      BaseNodes := BaseNodes + set n | n in visit;
    }

    /** The colourable model has loaded; `visit` is its nodes in traversal
        order, the model itself first. Its mesh nodes, in visit order, are
        appended to the registry, each with a fresh material of the default
        colour and both shadow flags on; the other nodes are untouched. */
    method OnColorModelLoaded(model: Node, visit: seq<Node>)
      requires Valid()
      requires visit != [] && visit[0] == model && Distinct(visit)
      requires forall n :: n in visit ==> n !in Nodes
      modifies this, visit
      ensures Valid()
      ensures modelMeshes == old(modelMeshes) + MeshesOf(visit)
      ensures old(Painted) <= Painted && fresh(Painted - old(Painted))
      ensures children == old(children) + [model]
      ensures BaseNodes == old(BaseNodes)
      ensures forall n :: n in visit && n.isMesh ==>
                n.material != null && fresh(n.material) &&
                n.material.color == DefaultColor && !n.material.needsUpdate &&
                n.castShadow && n.receiveShadow
      ensures forall n :: n in visit && !n.isMesh ==>
                n.material == old(n.material) &&
                n.castShadow == old(n.castShadow) && n.receiveShadow == old(n.receiveShadow)
    {
      var added := MakeColorable(visit, true);
      MeshesOfMembers(visit);
      forall n | n in BaseNodes || n == plane
        ensures n.material == null || n.material !in MaterialsOf(added)
      {
        MaterialsOfExcludes(added, n.material);
      }
      modelMeshes := modelMeshes + added;
      children := children + [model];
      Nodes := Nodes + set n | n in visit;
      Painted := Painted + MaterialsOf(added);
    }

    /** The recolour handler: every registered mesh gets colour `c` and is
        flagged for re-upload. Only the registered meshes' materials may
        change, so the plane and the base model keep their colours. */
    method ChangeModelColor(c: Rgb)
      requires Valid()
      modifies MaterialsOf(modelMeshes)
      ensures Valid()
      ensures SurfacesOf(modelMeshes) == Recolored(old(SurfacesOf(modelMeshes)), c)
      ensures forall n :: n in modelMeshes ==> n.material.color == c && n.material.needsUpdate
      ensures plane.material == old(plane.material)
      ensures plane.material != null ==>
                plane.material.color == old(plane.material.color) &&
                plane.material.needsUpdate == old(plane.material.needsUpdate)
      ensures forall n :: n in BaseNodes ==> n.material == old(n.material)
      ensures forall n :: n in BaseNodes && n.material != null ==>
                n.material.color == old(n.material.color) &&
                n.material.needsUpdate == old(n.material.needsUpdate)
    {
      MaterialsOfWithin(modelMeshes, Painted);
      RecolorAll(modelMeshes, c);
      forall n | n in modelMeshes ensures n.material.color == c && n.material.needsUpdate {
        var j :| 0 <= j < |modelMeshes| && modelMeshes[j] == n;
        assert SurfaceOf(n) == SurfacesOf(modelMeshes)[j];
      }
    }
  }

  /** The base model's traverse callback: every mesh node casts and receives
      shadows; nothing else changes. */
  method EnableShadows(visit: seq<Node>)
    modifies visit
    ensures forall n :: n in visit ==> n.material == old(n.material)
    ensures forall n :: n in visit && n.isMesh ==> n.castShadow && n.receiveShadow
    ensures forall n :: n in visit && !n.isMesh ==>
              n.castShadow == old(n.castShadow) && n.receiveShadow == old(n.receiveShadow)
  {
    var i := 0;
    while i < |visit|
      invariant 0 <= i <= |visit|
      invariant forall n :: n in visit ==> n.material == old(n.material)
      invariant forall j :: 0 <= j < i && visit[j].isMesh ==>
                  visit[j].castShadow && visit[j].receiveShadow
      invariant forall n :: n in visit && !n.isMesh ==>
                  n.castShadow == old(n.castShadow) && n.receiveShadow == old(n.receiveShadow)
    {
      var node := visit[i];
      if node.isMesh {
        node.castShadow := true;
        node.receiveShadow := true;
      }
      i := i + 1;
    }
  }
}
