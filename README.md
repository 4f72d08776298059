# 3D-Web-Showcase: the colourable-surface registry

The showcase is two near-identical three.js pages, `main.js` and `main1.js`.
Each shows a base car model and a second, "colourable" model overlaid on it,
plus a row of palette buttons that recolour the second model. This project
models the part of the pages with behaviour of its own:

- the **traverse callback of the colourable model**: every mesh node gets a
  fresh material of colour `0x820300` and is appended to the module-level
  `modelMeshes` registry. In `main.js` the node also casts and receives
  shadows; `main1.js` leaves the shadow flags alone.
- the **traverse callback of the base model** (`main.js` only): every mesh
  node casts and receives shadows. `main1.js` adds the base model to the
  scene without walking it.
- **`changeModelColor`**: every registered mesh that has a material gets the
  new colour and is flagged for re-upload.
- the **palette loop**: one button per palette key, in key order. Its label
  is the key with the first character upper-cased. A click recolours the
  model with the key's colour.

Layout:

- `surfaces.dfy` (module `Surfaces`) holds what both pages share:
  - the `Node` and `Material` classes;
  - the specification functions `MeshesOf` (the mesh nodes of a visit order)
    and `Recolored` (what recolouring does to the surfaces the renderer
    sees), with their lemmas;
  - `MakeColorable`, the colourable traverse callback;
  - `RecolorAll`, the loop of `changeModelColor`.
- `viewer.dfy` (module `Viewer`) is the module-level state of `main.js`, as
  class `Showcase`. It holds the registry, the objects added to the scene
  and the ground plane, with the two load callbacks and `ChangeModelColor`
  as methods.
- `viewer_variant.dfy` (module `ViewerVariant`) is the same for `main1.js`,
  which has no plane.
- `palette.dfy` (module `Palette`) is the palette, the label function and
  the button loop.
- `scenarios.dfy` (module `Scenarios`) holds whole sessions built from the
  handlers: a load sequence followed by a click, with the resulting colours
  proved.

Inputs that come from outside are parameters:

- `Object3D.traverse` is not shown, so the order it visits nodes in is a
  parameter `visit`. The model comes first, and each node appears once
  (`Distinct`).
- A loaded glTF scene is made of new objects. Both load callbacks therefore
  require that the loaded nodes are not yet in the viewer. Only the
  base-model callbacks also require that the loaded materials are not ones
  the colourable callback created. The colourable callbacks replace every
  mesh's material, so they need no such requirement.

Colours are 24-bit integers (`Rgb`). The palette's hex strings appear as the
integers they denote.

## Model

| member | source | states |
|---|---|---|
| Surfaces.MakeSurface | main.js:95-104 | one mesh step: the node gets a fresh material of the default colour `0x820300`, not yet flagged for update; the shadow flags are switched on when the page asks for it and otherwise kept |
| Surfaces.MakeColorable | main.js:93-107 | the colourable traverse returns exactly `MeshesOf(visit)` (the mesh nodes, in visit order) for the registry; each mesh has a fresh default-colour material of its own, distinct from every other mesh's; non-mesh nodes keep their material and flags (shared with main1.js:82-92, where `shadows` is false) |
| Surfaces.MeshesOfMembers | main.js:94-105 | only mesh nodes of the walked model are pushed onto the registry |
| Surfaces.MeshesOfCounts | main.js:93-107 | the registry grows by every mesh node, as often as it is visited, and by no other node: the multiplicity of a node among the additions is its visit count when it is a mesh, else zero |
| Surfaces.MeshesOfAppend | main.js:105 | pushing node by node: the additions of a visit split in two are the additions of the first part followed by those of the second |
| Surfaces.Recolored | main.js:131-136 | recolouring a view of the registry keeps its length; every entry with a material becomes colour `c` flagged for update; an entry without a material stays without one |
| Surfaces.RecolorAll | main.js:131-136 | the `forEach` loop: afterwards, the surfaces of the registry are `Recolored` of the surfaces before; only the registered meshes' materials may change, and the nodes themselves do not |
| Surfaces.RecoloredIdempotent | main.js:133-134 | clicking the same colour twice gives the same surfaces as clicking it once |
| Surfaces.RecoloredLastWins | main.js:153 | after two clicks only the second colour remains, whatever the first was |
| Viewer.EnableShadows | main.js:68-73 | the base traverse turns on both shadow flags of every mesh node, replaces no material, and leaves non-mesh nodes alone |
| Viewer.Showcase.constructor | main.js:114-126 | start-up: an empty registry and a scene holding only the black ground plane, which receives shadows and casts none |
| Viewer.Showcase.OnBaseModelLoaded | main.js:64-74 | base model loaded: every mesh casts and receives shadows, no material is replaced, the registry is unchanged, and the model is added to the scene |
| Viewer.Showcase.OnColorModelLoaded | main.js:89-108 | colourable model loaded: the registry becomes the old registry followed by the model's mesh nodes in visit order; each has a fresh default-colour material and both shadow flags; non-mesh nodes are untouched; the model is added to the scene |
| Viewer.Showcase.ChangeModelColor | main.js:129-137 | the recolour handler: the registry's surfaces become `Recolored` of the old ones; every registered mesh has colour `c` and is flagged for update; it may modify only the registry's materials, so an empty registry changes nothing; the plane's and the base model's materials and colours are unchanged |
| ViewerVariant.Showcase.constructor | main1.js:48 | start-up: an empty registry and no model in the scene |
| ViewerVariant.Showcase.OnBaseModelLoaded | main1.js:64-74 | base model loaded: it is added to the scene; the registry and every node of it are untouched |
| ViewerVariant.Showcase.OnColorModelLoaded | main1.js:78-93 | colourable model loaded: the registry becomes the old registry followed by the model's mesh nodes in visit order, each with a fresh default-colour material; no shadow flag of any node changes; non-mesh nodes are untouched |
| ViewerVariant.Showcase.ChangeModelColor | main1.js:96-104 | the recolour handler: the registry's surfaces become `Recolored` of the old ones; every registered mesh has colour `c` and is flagged for update; an empty registry changes nothing; the base model's materials and colours are unchanged |
| Palette.UpperCase | main.js:151 | a lower-case letter becomes the upper-case letter at the same alphabet position; any other character is unchanged |
| Palette.Capitalize | main.js:151 | the label has the key's length; its first character is `UpperCase` of the key's first character, so a lower-case initial becomes the upper-case letter at the same alphabet position and any other initial is kept; every later character is the key's |
| Palette.CapitalizeIdempotent | main.js:151 | capitalizing a label again changes nothing |
| Palette.CapitalizeInjective | main.js:146-151 | two keys that do not start with an upper-case letter and get the same label are the same key |
| Palette.ColorButtons | main.js:146-155 | one button per palette entry, in palette order, labelled with the capitalized key, with the entry's colour as background and as click colour; distinct well-formed keys give distinct labels (the same loop is main1.js:113-125) |
| Palette.PaletteLabels | main.js:151 | the palette keys red, blue and black are labelled Red, Blue and Black |
| Palette.PaletteButtons | main1.js:113-125 | the palette gives exactly the buttons Red, Blue and Black, with colours `0x820300`, `0x000B58` and `0x000000` |
| Scenarios.ColorModelMissing | main.js:129-137 | the base model loaded and the colourable model did not: a click leaves the registry empty and keeps the base model grey and the plane black |
| Scenarios.BothModelsLoaded | main.js:88-137 | both models loaded, then the blue button: the colourable mesh is `0x000B58` and the base model keeps its own colour |
| Scenarios.VariantBothModelsLoaded | main1.js:64-104 | the same session in main1.js: the colourable mesh turns blue and the base model keeps its colour |

## Left out

- Loading is asynchronous (`GLTFLoader.load`, `RGBELoader.load`), and the
  order in which callbacks complete is not modelled. Each load callback is a
  method that a scenario calls in some order. The error callbacks of
  main.js only log. main1.js's two model loads have no error callback; its
  HDR load's callback only logs (main1.js:59). The HDR environment map is left
  out.
- Scale (`scale.set`) and `rotateY(Math.PI)` are not modelled: they are
  floating-point transforms inside three.js. `rotateY` turns relative to
  the current orientation, so a second call would compound.
- Bounding-box centring, the camera's `lookAt`, and the orbit-control
  target are not modelled (floating-point geometry in the library).
- Resize handling, the renderer and its tone mapping, the lights, and the
  `requestAnimationFrame` loop are left out. They are rendering setup and an
  unbounded event loop. main.js's two lights are added to the scene, but
  `children` in the model lists only the objects the model adds.
- The buttons' DOM styling and their container are left out. A button's
  `addEventListener` wiring is the `onClick` colour of `Palette.Button`. A
  click is a call of `ChangeModelColor` with that colour, as the sessions in
  `Scenarios` do with the Blue button.
- `THREE.Color` parsing of hex strings is library code. Palette colours
  appear as the integers they denote.
- Material properties other than colour (metalness, roughness, clearcoat,
  environment intensity) are not modelled, nor is the material's class
  (`MeshPhysicalMaterial` in main.js, `MeshStandardMaterial` in main1.js).
  `Material` holds only the colour and the update flag.
- Surfaces.Recolored: `needsUpdate = true` is modelled as a boolean that is
  set. In three.js, the setter bumps the material's version counter, so
  every click causes a new upload. The model says only that the flag is
  set, so two identical clicks give the same state.
- Palette.UpperCase: only ASCII letters have a case here. JavaScript's
  `toUpperCase` follows Unicode, where a character such as `ß` can become
  two characters. The palette keys are plain ASCII.
- Viewer.Showcase.OnColorModelLoaded: the loader's guarantees are
  requirements:
  - the loaded nodes are new to the viewer;
  - every node is visited once;
  - the model is visited first.

  The traversal itself (depth first, children in order) is not modelled.
- main1.js sets no shadow flag on either model:
  `ViewerVariant.Showcase.OnColorModelLoaded` keeps every shadow flag, and
  its base model is never walked.
