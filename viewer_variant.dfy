/** The state main1.js keeps at module level: the registry of colourable
    meshes and the objects added to the scene; and the handlers that change
    it. This variant has no ground plane, never walks the base model, and
    leaves the shadow flags of the colourable model as they were loaded. */
module ViewerVariant {
  import opened Surfaces

  class Showcase {
    /** Meshes of the colourable model, in the order they were registered. */
    var modelMeshes: seq<Node>
    /** Objects added to the scene, in the order they were added. */
    var children: seq<Node>

    /** Every node of every loaded model. */
    ghost var Nodes: set<Node>
    /** The nodes of the base model. */
    ghost var BaseNodes: set<Node>
    /** The materials made for registered meshes. */
    ghost var Painted: set<Material>

    ghost predicate Valid()
      reads this, Nodes, modelMeshes
    {
      && BaseNodes <= Nodes
      && (forall n :: n in children ==> n in Nodes)
      && (forall n :: n in modelMeshes ==>
            n in Nodes && n.isMesh && n.material != null && n.material in Painted)
      && (forall n :: n in BaseNodes ==> n.material == null || n.material !in Painted)
    }

    /** The start-up state: an empty registry and an empty scene. */
    constructor ()
      ensures Valid()
      ensures modelMeshes == [] && children == [] && BaseNodes == {}
    {
      modelMeshes := [];
      children := [];
      Nodes := {};
      BaseNodes := {};
      Painted := {};
    }

    /** The base model has loaded; `nodes` is its nodes, the model itself
        first. It is added to the scene and nothing else happens: no node of
        it is walked, changed or registered. */
    method OnBaseModelLoaded(model: Node, ghost nodes: seq<Node>)
      requires Valid()
      requires nodes != [] && nodes[0] == model
      requires forall n :: n in nodes ==> n !in Nodes
      requires forall n :: n in nodes ==> n.material == null || n.material !in Painted
      modifies this
      ensures Valid()
      ensures modelMeshes == old(modelMeshes) && Painted == old(Painted)
      ensures children == old(children) + [model]
      ensures BaseNodes == old(BaseNodes) + set n | n in nodes
    {
      children := children + [model];
      Nodes := Nodes + set n | n in nodes;
      BaseNodes := BaseNodes + set n | n in nodes;
    }

    /** The colourable model has loaded; `visit` is its nodes in traversal
        order, the model itself first. Its mesh nodes, in visit order, are
        appended to the registry, each with a fresh material of the default
        colour; no shadow flag changes and the other nodes are untouched. */
    method OnColorModelLoaded(model: Node, visit: seq<Node>)
      requires Valid()
      requires visit != [] && visit[0] == model && Distinct(visit)
      requires forall n :: n in visit ==> n !in Nodes
      modifies this, visit
      ensures Valid()
      ensures modelMeshes == old(modelMeshes) + MeshesOf(visit)
      ensures old(Painted) <= Painted && fresh(Painted - old(Painted))
      ensures children == old(children) + [model]
      ensures BaseNodes == old(BaseNodes)
      ensures forall n :: n in visit && n.isMesh ==>
                n.material != null && fresh(n.material) &&
                n.material.color == DefaultColor && !n.material.needsUpdate
      ensures forall n :: n in visit ==>
                n.castShadow == old(n.castShadow) && n.receiveShadow == old(n.receiveShadow)
      ensures forall n :: n in visit && !n.isMesh ==> n.material == old(n.material)
    {
      children := children + [model];
      var added := MakeColorable(visit, false);
      MeshesOfMembers(visit);
      forall n | n in BaseNodes
        ensures n.material == null || n.material !in MaterialsOf(added)
      {
        MaterialsOfExcludes(added, n.material);
      }
      modelMeshes := modelMeshes + added;
      Nodes := Nodes + set n | n in visit;
      Painted := Painted + MaterialsOf(added);
    }

    /** The recolour handler: every registered mesh gets colour `c` and is
        flagged for re-upload. Only the registered meshes' materials may
        change, so the base model keeps its colours. */
    method ChangeModelColor(c: Rgb)
      requires Valid()
      modifies MaterialsOf(modelMeshes)
      ensures Valid()
      ensures SurfacesOf(modelMeshes) == Recolored(old(SurfacesOf(modelMeshes)), c)
      ensures forall n :: n in modelMeshes ==> n.material.color == c && n.material.needsUpdate
      ensures forall n :: n in BaseNodes ==> n.material == old(n.material)
      ensures forall n :: n in BaseNodes && n.material != null ==>
                n.material.color == old(n.material.color) &&
                n.material.needsUpdate == old(n.material.needsUpdate)
    {
      MaterialsOfWithin(modelMeshes, Painted);
      RecolorAll(modelMeshes, c);
      forall n | n in modelMeshes ensures n.material.color == c && n.material.needsUpdate {
        var j :| 0 <= j < |modelMeshes| && modelMeshes[j] == n;
        assert SurfaceOf(n) == SurfacesOf(modelMeshes)[j];
      }
    }
  }
}
