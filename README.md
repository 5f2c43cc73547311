# Subsurface-scattering material override, modelled in Dafny

This project models the two controllers of the IlluHuman sandbox that carry logic of their own.

- `SSSController` (src/SSS.js) is a reversible material override with a snapshot table behind it.
  `applySSS` walks a model and records each mesh's material in `originalMaterials`, keyed by uuid.
  It then installs one newly built shader material on every mesh.
  `removeSSS` walks the model again and puts back every mesh whose uuid has a truthy snapshot.
  `toggleSSS` chooses between the two.
  `updateUniforms` writes only the uniforms that already exist.
  `dispose` empties the light list.
- `SSSGuiController` (src/SSSGui.js) is a panel of three sliders.
  Each slider broadcasts one property write to the material of every mesh of the current model, and flags that material for update.

Files:

- `scene.dfy` (module `Scene`) holds the scene-graph slice. `Object3D` has a constant `uuid`, a constant `isMesh` and a mutable `material: Material?`. `Material` holds a property map and `needsUpdate`. A model is the sequence of its nodes in `traverse` order. `NodeState`/`StateOf` give the value of a model at one moment.
- `sss.dfy` (module `SSS`) holds the traversals as functions on model values: `RecordSnapshots`, `Override`, `Restore` and `UpdatedUniforms`. It also holds the lemmas about them and the `SSSController` class, whose methods do the traversals in place and are proved against those functions.
- `sss_gui.dfy` (module `SSSGui`) holds the sliders, the initial parameters, the broadcast traversal and the `SSSGuiController` class.
- `wrappers.dfy` (module `Wrappers`) holds `Option`.

One might expect a snapshot to be taken only the first time, so that enable, enable, disable would restore the original materials.
The code at src/SSS.js:68-72 overwrites the snapshot on every apply.
This model follows the code. `SecondApplyLosesOriginal` and `ApplyTwiceThenRemove` prove what that means: after apply, apply, remove, every mesh holds the first call's shader, not its own material. This holds whatever the uuids are.

JavaScript truthiness is modelled explicitly. A snapshot counts only when its key is present and its value is not null (`HasSnapshot`). So a mesh that held no material is snapshotted as null and keeps the shader after a remove. `ApplyThenRemoveRestores` states the round trip with that exception, in both directions.

## Model

| member | source | states |
|---|---|---|
| `SSS.SSSController.constructor` | src/SSS.js:5-11 | The controller starts with the given model and uniform table, no lights and an empty snapshot table. |
| `SSS.SSSController.ApplySSS` | src/SSS.js:66-87 | The table becomes the old table with every mesh's pre-call material written under its uuid, in traversal order. Every mesh then holds one freshly created material and non-mesh nodes are unchanged. That material is not among the snapshots, so the call cannot record its own override. |
| `SSS.SSSController.SaveOriginalMaterials` | src/SSS.js:68-72 | The table becomes the old table with each mesh's material written under its uuid, in traversal order, so a later mesh with the same uuid wins. |
| `SSS.InstallMaterial` | src/SSS.js:82-86 | Every mesh holds the given material afterwards, and every non-mesh node keeps its own. |
| `SSS.SSSController.RemoveSSS` | src/SSS.js:89-99 | Each mesh whose uuid has a non-null snapshot gets that material back. Other meshes and all non-mesh nodes are unchanged, and the snapshot table is not modified. |
| `SSS.SSSController.ToggleSSS` | src/SSS.js:55-63 | `true` has exactly the effect of `ApplySSS` on the controller's model. `false` has exactly the effect of `RemoveSSS` on it. |
| `SSS.SSSController.UpdateUniforms` | src/SSS.js:102-108 | The table becomes `UpdatedUniforms(old table, params)`, whatever order the parameters are visited in. |
| `SSS.SSSController.Dispose` | src/SSS.js:123 | The light list is empty afterwards, and nothing else of the controller changes. |
| `SSS.UpdatedUniforms` | src/SSS.js:102-108 | The key set is unchanged. A key named in `params` takes the parameter's value. Every other key keeps its value, and unknown parameter keys add nothing. |
| `SSS.SnapshotKeys` | src/SSS.js:68-72 | After the snapshot walk, the table's keys are the old keys plus exactly the uuids of the model's meshes. |
| `SSS.SnapshotOutsideModel` | src/SSS.js:68-72 | An entry whose uuid is not a mesh of the model is present afterwards iff it was present before, with the same value. |
| `SSS.SnapshotOfMesh` | src/SSS.js:68-72 | With unique uuids, each mesh's entry is the material the mesh held when the walk ran. |
| `SSS.SnapshotNeverHolds` | src/SSS.js:68-86 | A material held by neither the table nor the model before the walk is never recorded. This is why snapshotting first and overriding afterwards can never capture the override. |
| `SSS.ApplyThenRemoveNodes` | src/SSS.js:66-99 | Apply then remove returns every node to its pre-apply value, except a mesh that held no material, which keeps the shader. |
| `SSS.ApplyThenRemoveRestores` | src/SSS.js:66-99 | Apply then remove restores the model exactly iff every mesh held a material. |
| `SSS.SnapshotOfSharedMaterial` | src/SSS.js:68-72 | When every mesh holds the same material, the snapshot walk records that material under every mesh's uuid, with or without unique uuids. |
| `SSS.SecondApplyLosesOriginal` | src/SSS.js:68-98 | Apply, apply, remove ends with the model as the first apply left it, on any model, because the second snapshot walk overwrote the originals. |
| `SSS.RestoreIdempotent` | src/SSS.js:89-99 | Removing twice has the same effect as removing once. |
| `SSS.OverrideSharesOneMaterial` | src/SSS.js:75-86 | After the override, the set of mesh materials is exactly the one shader material, or empty for a model without meshes. |
| `SSS.UpdateUniformsTwice` | src/SSS.js:102-108 | Two updates equal one update with the later parameters winning. Repeating an update changes nothing. |
| `SSS.UpdateUniformsNoChangeIff` | src/SSS.js:102-108 | An update leaves the table unchanged iff every parameter that names an existing uniform already has that value. |
| `SSS.ApplyThenRemove` | src/SSS.js:66-99 | On a live model with unique uuids whose meshes all hold materials, apply then remove leaves every node as it was. |
| `SSS.ApplyTwiceThenRemove` | src/SSS.js:66-99 | On any live model, whether or not its uuids are unique, apply, apply, remove leaves every mesh holding the first call's shader, a material created during the sequence and so not the original. |
| `SSSGui.SlidersWriteDistinctProperties` | src/SSSGui.js:17-19 | Two sliders write the same property name only if they are the same slider. |
| `SSSGui.InitialParams` | src/SSSGui.js:7-11 | The parameters hold exactly one entry per slider (`reflection`, `roughness`, `metalness`), each starting at 0.5. |
| `SSSGui.FirstNullMesh` | src/SSSGui.js:26-28 | Gives the first traversal position of a mesh without a material, or the model's length if there is none. Every earlier mesh holds a material. |
| `SSSGui.NoThrowIffEveryMeshHasMaterial` | src/SSSGui.js:26-28 | The broadcast walk reaches the end iff every mesh holds a material. |
| `SSSGui.OverrideNeverThrows` | src/SSSGui.js:26-29 | After the shader material is installed, a broadcast over the model never throws. |
| `SSSGui.WriteMeshMaterials` | src/SSSGui.js:26-31 | The walk stops at the first mesh without a material. The material of every mesh before that point gets `property := value`, keeps its other properties, and gets `needsUpdate` set. A mesh material first met at or after that point is unchanged, and so is every node. `thrown` says whether such a mesh stopped the walk. |
| `SSSGui.SSSGuiController.UpdateMaterial` | src/SSSGui.js:24-33 | With no current model nothing changes and nothing is thrown. Otherwise the current model's meshes get the broadcast above, and only their materials may change. |
| `SSSGui.SSSGuiController.OnSliderChange` | src/SSSGui.js:17-19 | A slider stores its new value under its own name in `params` and broadcasts it under that same name. |
| `SSSGui.SSSGuiController.constructor` | src/SSSGui.js:4-11 | The panel starts with the given model and the initial parameters. |

## Left out

- `initMaterial` and `addToGUI` (src/SSS.js:31-52, 126-170) are left out. They load textures, clone the shader's uniforms, convert colours and wire panel callbacks, all through library calls. The uniform table is therefore a constructor parameter. The controller's `params` object (src/SSS.js:16-28), which is derived from those library values, is not modelled.
- SSS.SSSController.ApplySSS: the new material carries no uniforms, shaders or `lights` flag. Only its identity matters to the snapshot logic, and it is modelled as a fresh object with no properties. The shader material also shares the live uniform objects that `updateUniforms` writes; that sharing is not modelled.
- SSS.SSSController.ToggleSSS and SSS.SSSController.RemoveSSS: the `console.log` diagnostics are not modelled.
- SSS.SSSController.Dispose: detaching each light from its parent and disposing its geometry and material are library calls and are not modelled. Only the reset of the list is modelled.
- SSS.SSSController.UpdateUniforms: the presence test is a key lookup. JavaScript would also find keys inherited from the object prototype, such as `constructor`, and that case is not modelled.
- SSS.SSSController.RemoveSSS and SSS.SSSController.ApplySSS: `originalMaterials` is a plain object too, so `originalMaterials[child.uuid]` (src/SSS.js:70, 95) would also find prototype keys. That case is not modelled. It cannot arise in practice because Three.js generates every uuid, and a generated uuid never names a prototype property.
- SSS.SSSController.ToggleSSS: with a null or undefined `model`, the call into `applySSS` or `removeSSS` throws a TypeError at `model.traverse` (src/SSS.js:58, 61, 68, 94). The model's `model` field is always a sequence of nodes, so that error path is not modelled.
- Uuid uniqueness is a Three.js guarantee. The methods do not require it. Only `SnapshotOfMesh`, `ApplyThenRemoveNodes`, `ApplyThenRemoveRestores` and `ApplyThenRemove` need it, and they state it as a precondition.
- The scene graph is a tree walked by `traverse`. Only its traversal order matters to these controllers, so a model is the flattened sequence of nodes. Adding or removing nodes is not modelled.
- Multi-material meshes (an array in `material`) are treated as one opaque material reference.
- SSSGui.SSSGuiController.OnSliderChange: the 0..1 clamping of the slider is done by the panel library and is not modelled. The write into `params` is the library's two-way binding declared at src/SSSGui.js:17-19.
- The `init` folder creation and `open` calls (src/SSSGui.js:15-22) are panel-library calls and are not modelled.
- `needsUpdate` is modelled as a boolean field. In Three.js it is a setter that bumps the material's version.
- src/SpotLight.js, src/main.js, src/Texture.js, src/GUIstyle.js, webpack.config.js and examples/readglb.py are not part of this model. They hold floating-point light animation, the render loop, asset loading, DOM styling and build configuration.
