/** Whole-session runs of the two viewers, built from the handlers alone:
    which models loaded, then a palette click. Each load is its own step so
    that a run only sees what the step promises. */
module Scenarios {
  import opened Surfaces
  import Viewer
  import ViewerVariant
  import Palette

  /** main.js: a base model of one grey mesh under a group node loads. */
  method LoadBase(v: Viewer.Showcase) returns (baseMaterial: Material, baseBody: Node)
    requires v.Valid()
    modifies v
    ensures v.Valid() && v.modelMeshes == old(v.modelMeshes)
    ensures fresh(baseMaterial) && fresh(baseBody)
    ensures baseBody in v.BaseNodes && baseBody.material == baseMaterial
    ensures baseMaterial.color == 0x777777
  {
    baseMaterial := new Material(0x777777);
    var root := new Node(false, null);
    baseBody := new Node(true, baseMaterial);
    v.OnBaseModelLoaded(root, [root, baseBody]);
  }

  /** main.js: a colourable model of one mesh under a group node loads into
      a viewer whose registry is empty. */
  method LoadColor(v: Viewer.Showcase) returns (colorBody: Node)
    requires v.Valid() && v.modelMeshes == []
    modifies v
    ensures v.Valid() && v.BaseNodes == old(v.BaseNodes)
    ensures v.modelMeshes == [colorBody]
    ensures colorBody.material != null && fresh(colorBody.material)
  {
    var root := new Node(false, null);
    var loadedMaterial := new Material(0x777777);
    colorBody := new Node(true, loadedMaterial);
    var visit := [root, colorBody];
    assert MeshesOf([colorBody]) == [colorBody] by {
      assert [colorBody][1..] == [];
    }
    assert MeshesOf(visit) == [colorBody] by {
      assert visit[1..] == [colorBody];
    }
    v.OnColorModelLoaded(root, visit);
  }

  /** main.js, base model loaded and colourable model failed: the registry
      stays empty, so a click recolours nothing and nothing fails. */
  method ColorModelMissing() returns (registered: nat, baseColor: Rgb, planeColor: Rgb)
    ensures registered == 0 && baseColor == 0x777777 && planeColor == 0x000000
  {
    var v := new Viewer.Showcase();
    var baseMaterial, baseBody := LoadBase(v);
    assert MaterialsOf(v.modelMeshes) == {};
    v.ChangeModelColor(0x000B58);
    registered := |v.modelMeshes|;
    baseColor := baseMaterial.color;
    planeColor := v.plane.material.color;
  }

  /** main.js, both models loaded, then a click on the palette's Blue button: the colourable
      model's mesh turns blue and the base model keeps its colour. */
  method BothModelsLoaded() returns (surfaceColor: Rgb, baseColor: Rgb)
    ensures surfaceColor == 0x000B58 && baseColor == 0x777777
  {
    var v := new Viewer.Showcase();
    var baseMaterial, baseBody := LoadBase(v);
    var colorBody := LoadColor(v);
    assert MaterialsOf(v.modelMeshes) == {colorBody.material};
    var buttons := Palette.PaletteButtons();
    v.ChangeModelColor(buttons[1].onClick);
    surfaceColor := colorBody.material.color;
    baseColor := baseMaterial.color;
  }

  /** main1.js: a base model of one grey mesh under a group node loads. */
  method LoadVariantBase(v: ViewerVariant.Showcase) returns (baseMaterial: Material, baseBody: Node)
    requires v.Valid()
    modifies v
    ensures v.Valid() && v.modelMeshes == old(v.modelMeshes)
    ensures fresh(baseMaterial) && fresh(baseBody)
    ensures baseBody in v.BaseNodes && baseBody.material == baseMaterial
    ensures baseMaterial.color == 0x777777
  {
    baseMaterial := new Material(0x777777);
    var root := new Node(false, null);
    baseBody := new Node(true, baseMaterial);
    v.OnBaseModelLoaded(root, [root, baseBody]);
  }

  /** main1.js: a colourable model of one mesh under a group node loads into
      a viewer whose registry is empty. */
  method LoadVariantColor(v: ViewerVariant.Showcase) returns (colorBody: Node)
    requires v.Valid() && v.modelMeshes == []
    modifies v
    ensures v.Valid() && v.BaseNodes == old(v.BaseNodes)
    ensures v.modelMeshes == [colorBody]
    ensures colorBody.material != null && fresh(colorBody.material)
  {
    var root := new Node(false, null);
    var loadedMaterial := new Material(0x777777);
    colorBody := new Node(true, loadedMaterial);
    var visit := [root, colorBody];
    assert MeshesOf([colorBody]) == [colorBody] by {
      assert [colorBody][1..] == [];
    }
    assert MeshesOf(visit) == [colorBody] by {
      assert visit[1..] == [colorBody];
    }
    v.OnColorModelLoaded(root, visit);
  }

  /** main1.js, both models loaded, then a click on the palette's Blue button: the colourable
      model's mesh turns blue and the base model keeps its colour. */
  method VariantBothModelsLoaded() returns (surfaceColor: Rgb, baseColor: Rgb)
    ensures surfaceColor == 0x000B58 && baseColor == 0x777777
  {
    var v := new ViewerVariant.Showcase();
    var baseMaterial, baseBody := LoadVariantBase(v);
    var colorBody := LoadVariantColor(v);
    assert MaterialsOf(v.modelMeshes) == {colorBody.material};
    var buttons := Palette.PaletteButtons();
    v.ChangeModelColor(buttons[1].onClick);
    surfaceColor := colorBody.material.color;
    baseColor := baseMaterial.color;
  }
}
