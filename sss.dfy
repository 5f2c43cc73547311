/**
 The subsurface-scattering controller (`SSSController`): a reversible
 material override backed by a snapshot table.

 `ApplySSS` first records every mesh's current material in
 `originalMaterials`, keyed by uuid, and only then installs one newly built
 shader material on every mesh; `RemoveSSS` puts back every mesh that has a
 snapshot. The first part of this module states what the two traversals do
 as functions on the value of a model (`NodeState`s in traversal order) and
 proves the round trips; the class then performs the traversals in place and
 is proved against those functions.
 */
module SSS {
  import opened Scene

  /** A shader uniform's value: a number, a colour as a hex triple, a texture
      (by an opaque id) or a flag. */
  datatype UniformValue = Number(x: real) | ColorHex(hex: nat) | Texture(id: nat) | Flag(on: bool)

  // ---------------------------------------------------------------------------
  // The traversals as functions on values
  // ---------------------------------------------------------------------------

  /** The snapshot table after the first traversal of `applySSS`: every mesh,
      in traversal order, writes its current material under its uuid,
      overwriting whatever was there. */
  function RecordSnapshots(table: map<Uuid, Material?>, v: seq<NodeState>): map<Uuid, Material?>
    decreases |v|
  {
    if v == [] then table
    else
      var before := RecordSnapshots(table, v[..|v| - 1]);
      var last := v[|v| - 1];
      if last.isMesh then before[last.uuid := last.material] else before
  }

  /** The model after the second traversal of `applySSS`: every mesh holds `m`. */
  function Override(v: seq<NodeState>, m: Material): seq<NodeState>
  {
    seq(|v|, i requires 0 <= i < |v| => if v[i].isMesh then v[i].(material := m) else v[i])
  }

  /** JavaScript's `originalMaterials[uuid]` is truthy: the key is present and
      the stored material is not null. */
  predicate HasSnapshot(table: map<Uuid, Material?>, uuid: Uuid)
  {
    uuid in table && table[uuid] != null
  }

  function RestoreNode(n: NodeState, table: map<Uuid, Material?>): NodeState
  {
    if n.isMesh && HasSnapshot(table, n.uuid) then n.(material := table[n.uuid]) else n
  }

  /** The model after `removeSSS`: meshes with a snapshot get it back. */
  function Restore(v: seq<NodeState>, table: map<Uuid, Material?>): seq<NodeState>
  {
    seq(|v|, i requires 0 <= i < |v| => RestoreNode(v[i], table))
  }

  /** The uniform table after `updateUniforms(params)`: a key already in the
      table takes the value `params` gives it; nothing is added or removed. */
  function UpdatedUniforms(uniforms: map<string, UniformValue>, params: map<string, UniformValue>)
    : (r: map<string, UniformValue>)
    ensures r.Keys == uniforms.Keys
    ensures forall k :: k in r ==> r[k] == if k in params then params[k] else uniforms[k]
  {
    uniforms + map k | k in params && k in uniforms :: params[k]
  }

  // ---------------------------------------------------------------------------
  // Properties of the snapshot table
  // ---------------------------------------------------------------------------

  /** Applying adds exactly the model's mesh uuids to the table's keys. */
  lemma {:induction false} SnapshotKeys(table: map<Uuid, Material?>, v: seq<NodeState>)
    ensures RecordSnapshots(table, v).Keys == table.Keys + MeshUuids(v)
    decreases |v|
  {
    if v != [] {
      var init := v[..|v| - 1];
      SnapshotKeys(table, init);
      assert MeshUuids(v) == MeshUuids(init) + (if v[|v| - 1].isMesh then {v[|v| - 1].uuid} else {}) by {
        forall u | u in MeshUuids(v) ensures u in MeshUuids(init) || (v[|v| - 1].isMesh && u == v[|v| - 1].uuid) {
          var i :| 0 <= i < |v| && v[i].isMesh && v[i].uuid == u;
          if i < |v| - 1 { assert init[i] == v[i]; }
        }
        forall u | u in MeshUuids(init) ensures u in MeshUuids(v) {
          var i :| 0 <= i < |init| && init[i].isMesh && init[i].uuid == u;
          assert v[i] == init[i];
        }
      }
    }
  }

  /** Entries for uuids that are not meshes of the model are left as they were. */
  lemma {:induction false} SnapshotOutsideModel(table: map<Uuid, Material?>, v: seq<NodeState>, u: Uuid)
    requires forall i :: 0 <= i < |v| && v[i].isMesh ==> v[i].uuid != u
    ensures u in RecordSnapshots(table, v) <==> u in table
    ensures u in table ==> RecordSnapshots(table, v)[u] == table[u]
    decreases |v|
  {
    if v != [] {
      SnapshotOutsideModel(table, v[..|v| - 1], u);
    }
  }

  /** With Three.js's unique uuids, each mesh's entry is the material the mesh
      held when the snapshot was taken. */
  lemma {:induction false} SnapshotOfMesh(table: map<Uuid, Material?>, v: seq<NodeState>, i: nat)
    requires UniqueUuids(v)
    requires i < |v| && v[i].isMesh
    ensures v[i].uuid in RecordSnapshots(table, v)
    ensures RecordSnapshots(table, v)[v[i].uuid] == v[i].material
    decreases |v|
  {
    var init := v[..|v| - 1];
    if i < |v| - 1 {
      assert init[i] == v[i];
      SnapshotOfMesh(table, init, i);
    }
  }

  /** The snapshot traversal reads only the materials the nodes hold before the
      override: a material that neither the table nor the model holds (such as
      the one the same call builds afterwards) is never recorded. */
  lemma {:induction false} SnapshotNeverHolds(table: map<Uuid, Material?>, v: seq<NodeState>, m: Material)
    requires m !in table.Values
    requires forall i :: 0 <= i < |v| ==> v[i].material != m
    ensures m !in RecordSnapshots(table, v).Values
    decreases |v|
  {
    if v != [] {
      SnapshotNeverHolds(table, v[..|v| - 1], m);
    }
  }

  // ---------------------------------------------------------------------------
  // Round trips
  // ---------------------------------------------------------------------------

  /** Apply followed by remove, node by node: every node is back to what it
      was, except a mesh that held no material, which keeps the shader
      because its snapshot is null and so not truthy. */
  lemma ApplyThenRemoveNodes(table: map<Uuid, Material?>, v: seq<NodeState>, m: Material)
    requires UniqueUuids(v)
    ensures |Restore(Override(v, m), RecordSnapshots(table, v))| == |v|
    ensures forall i :: 0 <= i < |v| ==>
      Restore(Override(v, m), RecordSnapshots(table, v))[i] ==
        if v[i].isMesh && v[i].material == null then v[i].(material := m) else v[i]
  {
    forall i | 0 <= i < |v| && v[i].isMesh {
      SnapshotOfMesh(table, v, i);
    }
  }

  /** With no intervening change, apply followed by remove restores the model
      exactly when every mesh held a material. */
  lemma ApplyThenRemoveRestores(table: map<Uuid, Material?>, v: seq<NodeState>, m: Material)
    requires UniqueUuids(v)
    ensures Restore(Override(v, m), RecordSnapshots(table, v)) == v
            <==> forall i :: 0 <= i < |v| && v[i].isMesh ==> v[i].material != null
  {
    ApplyThenRemoveNodes(table, v, m);
    var r := Restore(Override(v, m), RecordSnapshots(table, v));
    if r == v {
      forall i | 0 <= i < |v| && v[i].isMesh ensures v[i].material != null {
        assert r[i] == v[i];
      }
    }
  }

  /** When every mesh of the model holds `m`, the snapshot walk records `m`
      under every mesh's uuid, whatever the uuids are. */
  lemma {:induction false} SnapshotOfSharedMaterial(table: map<Uuid, Material?>, w: seq<NodeState>, m: Material, i: nat)
    requires forall j :: 0 <= j < |w| && w[j].isMesh ==> w[j].material == m
    requires i < |w| && w[i].isMesh
    ensures w[i].uuid in RecordSnapshots(table, w)
    ensures RecordSnapshots(table, w)[w[i].uuid] == m
    decreases |w|
  {
    var init := w[..|w| - 1];
    var last := w[|w| - 1];
    if !(last.isMesh && last.uuid == w[i].uuid) {
      assert init[i] == w[i];
      forall j | 0 <= j < |init| && init[j].isMesh ensures init[j].material == m {
        assert init[j] == w[j];
      }
      SnapshotOfSharedMaterial(table, init, m, i);
    }
  }

  /** Snapshots are overwritten unconditionally: applying twice records the
      first call's shader over the original, so a remove then leaves every
      mesh with the first shader, not with its own material. This holds
      whatever the uuids are. */
  lemma SecondApplyLosesOriginal(table: map<Uuid, Material?>, v: seq<NodeState>, first: Material, second: Material)
    ensures Restore(Override(Override(v, first), second), RecordSnapshots(RecordSnapshots(table, v), Override(v, first)))
            == Override(v, first)
  {
    var v1 := Override(v, first);
    forall i | 0 <= i < |v1| && v1[i].isMesh {
      SnapshotOfSharedMaterial(RecordSnapshots(table, v), v1, first, i);
    }
  }

  /** Remove never changes the table, so a second remove changes nothing. */
  lemma RestoreIdempotent(v: seq<NodeState>, table: map<Uuid, Material?>)
    ensures Restore(Restore(v, table), table) == Restore(v, table)
  {
  }

  /** After the override every mesh shares the one shader material. */
  lemma OverrideSharesOneMaterial(v: seq<NodeState>, m: Material)
    ensures MeshMaterials(Override(v, m)) == if MeshUuids(v) == {} then {} else {m}
  {
    var o := Override(v, m);
    if MeshUuids(v) != {} {
      var u :| u in MeshUuids(v);
      var i :| 0 <= i < |v| && v[i].isMesh && v[i].uuid == u;
      assert o[i].material == m;
    } else {
      forall i | 0 <= i < |v| ensures !v[i].isMesh {
        assert v[i].uuid !in MeshUuids(v);
      }
    }
  }

  // ---------------------------------------------------------------------------
  // Properties of the uniform update
  // ---------------------------------------------------------------------------

  /** Two updates in a row are one update with the later parameters winning;
      in particular repeating an update changes nothing. */
  lemma UpdateUniformsTwice(uniforms: map<string, UniformValue>, p: map<string, UniformValue>, q: map<string, UniformValue>)
    ensures UpdatedUniforms(UpdatedUniforms(uniforms, p), q) == UpdatedUniforms(uniforms, p + q)
    ensures UpdatedUniforms(UpdatedUniforms(uniforms, p), p) == UpdatedUniforms(uniforms, p)
  {
    assert p + p == p;
  }

  /** An update leaves the table as it was exactly when every parameter that
      names an existing uniform already holds that uniform's value (in
      particular when no parameter names an existing uniform). */
  lemma UpdateUniformsNoChangeIff(uniforms: map<string, UniformValue>, params: map<string, UniformValue>)
    ensures UpdatedUniforms(uniforms, params) == uniforms <==>
            forall k :: k in params && k in uniforms ==> params[k] == uniforms[k]
  {
  }

  // ---------------------------------------------------------------------------
  // The controller
  // ---------------------------------------------------------------------------

  class SSSController {
    var model: seq<Object3D>
    var uniforms: map<string, UniformValue>
    var lights: seq<Object3D>
    var originalMaterials: map<Uuid, Material?>

    /** `uniforms` is the table the shader set-up builds. */
    constructor (model: seq<Object3D>, uniforms: map<string, UniformValue>)
      ensures this.model == model && this.uniforms == uniforms
      ensures lights == [] && originalMaterials == map[]
    {
      this.model := model;
      this.uniforms := uniforms;
      lights := [];
      originalMaterials := map[];
    }

    method ToggleSSS(enable: bool) returns (ghost sssMaterial: Material?)
      modifies this`originalMaterials, this.model
      ensures enable ==> sssMaterial != null && fresh(sssMaterial)
      ensures enable ==> originalMaterials == RecordSnapshots(old(originalMaterials), old(StateOf(this.model)))
      ensures enable && sssMaterial != null ==> StateOf(this.model) == Override(old(StateOf(this.model)), sssMaterial)
      ensures !enable ==> originalMaterials == old(originalMaterials)
      ensures !enable ==> StateOf(this.model) == Restore(old(StateOf(this.model)), originalMaterials)
    {
      if enable {
        sssMaterial := ApplySSS(this.model);
      } else {
        sssMaterial := null;
        RemoveSSS(this.model);
      }
    }

    /** Snapshot every mesh's material, then install one new shader material
        (returned as a ghost) on every mesh. */
    method ApplySSS(model: seq<Object3D>) returns (ghost sssMaterial: Material)
      modifies this`originalMaterials, model
      ensures fresh(sssMaterial)
      ensures originalMaterials == RecordSnapshots(old(originalMaterials), old(StateOf(model)))
      ensures StateOf(model) == Override(old(StateOf(model)), sssMaterial)
      ensures sssMaterial !in originalMaterials.Values
    {
      SaveOriginalMaterials(model);
      var material := new Material(map[]);
      InstallMaterial(model, material);
      sssMaterial := material;
      SnapshotNeverHolds(old(originalMaterials), old(StateOf(model)), material);
    }

    /** The first traversal of `applySSS`: record each mesh's material under
        its uuid, overwriting any earlier snapshot. */
    method SaveOriginalMaterials(model: seq<Object3D>)
      modifies this`originalMaterials
      ensures originalMaterials == RecordSnapshots(old(originalMaterials), StateOf(model))
    {
      ghost var v := StateOf(model);
      var i := 0;
      while i < |model|
        invariant 0 <= i <= |model|
        invariant originalMaterials == RecordSnapshots(old(originalMaterials), v[..i])
      {
        var child := model[i];
        if child.isMesh {
          originalMaterials := originalMaterials[child.uuid := child.material];
        }
        assert v[..i + 1][..i] == v[..i];
        i := i + 1;
      }
      assert v[..i] == v;
    }

    /** Put back every mesh whose uuid has a truthy snapshot; the table itself
        is left as it is. */
    method RemoveSSS(model: seq<Object3D>)
      modifies model
      ensures StateOf(model) == Restore(old(StateOf(model)), originalMaterials)
    {
      ghost var v0 := StateOf(model);
      var i := 0;
      while i < |model|
        invariant 0 <= i <= |model|
        invariant forall j :: 0 <= j < |model| ==>
          model[j].material == if model[j] in model[..i] then RestoreNode(v0[j], originalMaterials).material else v0[j].material
      {
        var child := model[i];
        if child.isMesh && child.uuid in originalMaterials && originalMaterials[child.uuid] != null {
          child.material := originalMaterials[child.uuid];
        }
        assert model[..i + 1] == model[..i] + [child];
        i := i + 1;
      }
      assert model[..i] == model;
    }

    /** Write each parameter whose key is already a uniform; ignore the rest. */
    method UpdateUniforms(params: map<string, UniformValue>)
      modifies this`uniforms
      ensures uniforms == UpdatedUniforms(old(uniforms), params)
    {
      var pending := params.Keys;
      while pending != {}
        invariant pending <= params.Keys
        invariant uniforms.Keys == old(uniforms).Keys
        invariant forall k :: k in uniforms ==>
          uniforms[k] == if k in params && k !in pending then params[k] else old(uniforms)[k]
        decreases pending
      {
        var key :| key in pending;
        if key in uniforms {
          uniforms := uniforms[key := params[key]];
        }
        pending := pending - {key};
      }
    }

    /** Forget the controller's lights. */
    method Dispose()
      modifies this`lights
      ensures lights == []
    {
      lights := [];
    }
  }

  /** The second traversal of `applySSS`: every mesh gets `material`;
      other nodes keep theirs. */
  method InstallMaterial(model: seq<Object3D>, material: Material)
    modifies model
    ensures StateOf(model) == Override(old(StateOf(model)), material)
  {
    ghost var v := StateOf(model);
    var i := 0;
    while i < |model|
      invariant 0 <= i <= |model|
      invariant forall j :: 0 <= j < i && model[j].isMesh ==> model[j].material == material
      invariant forall j :: 0 <= j < |model| && !model[j].isMesh ==> model[j].material == v[j].material
    {
      var child := model[i];
      if child.isMesh {
        child.material := material;
      }
      i := i + 1;
    }
  }

  // ---------------------------------------------------------------------------
  // Call sequences on a live model
  // ---------------------------------------------------------------------------

  /** Apply then remove on a model with unique uuids whose meshes all hold a
      material puts every node back as it was. */
  method ApplyThenRemove(c: SSSController, model: seq<Object3D>)
    requires UniqueUuids(StateOf(model))
    requires forall n :: n in model && n.isMesh ==> n.material != null
    modifies c`originalMaterials, model
    ensures StateOf(model) == old(StateOf(model))
  {
    ghost var v0 := StateOf(model);
    ghost var t0 := c.originalMaterials;
    ghost var m := c.ApplySSS(model);
    c.RemoveSSS(model);
    ApplyThenRemoveRestores(t0, v0, m);
  }

  /** Apply, apply, remove: every mesh ends up with the shader of the first
      call, a material created by the sequence itself, not its own. */
  method ApplyTwiceThenRemove(c: SSSController, model: seq<Object3D>) returns (ghost first: Material)
    modifies c`originalMaterials, model
    ensures fresh(first)
    ensures StateOf(model) == Override(old(StateOf(model)), first)
    ensures forall n :: n in model && n.isMesh ==> n.material == first
  {
    ghost var v0 := StateOf(model);
    ghost var t0 := c.originalMaterials;
    first := c.ApplySSS(model);
    ghost var second := c.ApplySSS(model);
    c.RemoveSSS(model);
    SecondApplyLosesOriginal(t0, v0, first, second);
    forall n | n in model && n.isMesh ensures n.material == first {
      var j :| 0 <= j < |model| && model[j] == n;
      assert StateOf(model)[j].material == first;
    }
  }
}
