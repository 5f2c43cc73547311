/**
 The material panel (`SSSGuiController`): three sliders, each of which
 broadcasts one property write to the material of every mesh of the current
 model.
 */
module SSSGui {
  import opened Wrappers
  import opened Scene
  import SSS

  /** The panel's sliders, each bound to one material property. */
  datatype Slider = Reflection | Roughness | Metalness

  function PropertyName(s: Slider): string
  {
    match s
    case Reflection => "reflection"
    case Roughness => "roughness"
    case Metalness => "metalness"
  }

  /** Each slider writes a property of its own. */
  lemma SlidersWriteDistinctProperties(s: Slider, t: Slider)
    ensures PropertyName(s) == PropertyName(t) <==> s == t
  {
  }

  /** The panel's starting values: one entry per slider, each at 0.5. */
  function InitialParams(): (params: map<string, real>)
    ensures forall s: Slider :: PropertyName(s) in params && params[PropertyName(s)] == 0.5
    ensures forall name :: name in params ==> exists s: Slider :: PropertyName(s) == name
  {
    assert PropertyName(Reflection) == "reflection";
    assert PropertyName(Roughness) == "roughness";
    assert PropertyName(Metalness) == "metalness";
    map["reflection" := 0.5, "roughness" := 0.5, "metalness" := 0.5]
  }

  /** The traversal position at which a property write would dereference a
      mesh with no material (and throw a TypeError), or the model's length
      when there is no such mesh. */
  function FirstNullMesh(v: seq<NodeState>): (k: nat)
    ensures k <= |v|
    ensures forall i :: 0 <= i < k ==> !(v[i].isMesh && v[i].material == null)
    ensures k < |v| ==> v[k].isMesh && v[k].material == null
  {
    if v == [] then 0
    else if v[0].isMesh && v[0].material == null then 0
    else 1 + FirstNullMesh(v[1..])
  }

  /** The walk runs to the end exactly when every mesh holds a material. */
  lemma NoThrowIffEveryMeshHasMaterial(v: seq<NodeState>)
    ensures FirstNullMesh(v) == |v| <==> forall i :: 0 <= i < |v| && v[i].isMesh ==> v[i].material != null
  {
  }

  /** Once the subsurface-scattering material is installed, every mesh holds
      it, so a broadcast over that model never throws. */
  lemma OverrideNeverThrows(v: seq<NodeState>, m: Material)
    ensures FirstNullMesh(SSS.Override(v, m)) == |v|
  {
    NoThrowIffEveryMeshHasMaterial(SSS.Override(v, m));
  }

  /** No mesh among the first `n` nodes holds `m`. */
  ghost predicate NotHeldBefore(v: seq<NodeState>, n: int, m: Material)
  {
    forall j :: 0 <= j < n && j < |v| && v[j].isMesh ==> v[j].material != m
  }

  /** The outcome of broadcasting `property := value` over `nodes`: the
      material of every mesh before the first mesh without one has the
      property written (all others kept) and is flagged for update; a mesh
      material first met at or after that position is as it was; `thrown` says
      whether such a mesh stopped the walk. */
  twostate predicate Broadcast(nodes: seq<Object3D>, property: string, value: real, thrown: bool)
    reads nodes, MeshMaterials(StateOf(nodes))
  {
    var v := old(StateOf(nodes));
    var k := FirstNullMesh(v);
    && StateOf(nodes) == v
    && thrown == (k < |v|)
    && (forall j :: 0 <= j < k && v[j].isMesh ==>
          v[j].material.props == old(v[j].material.props)[property := value] && v[j].material.needsUpdate)
    && (forall j :: k <= j < |v| && v[j].isMesh && v[j].material != null && NotHeldBefore(v, k, v[j].material) ==>
          v[j].material.props == old(v[j].material.props) && v[j].material.needsUpdate == old(v[j].material.needsUpdate))
  }

  /** The traversal inside `updateMaterial`: visit the nodes in order and, at
      each mesh, write the property on its material and flag the material for
      update. Dereferencing a mesh without a material throws, which ends the
      walk with the writes made so far in place. */
  method WriteMeshMaterials(nodes: seq<Object3D>, property: string, value: real) returns (thrown: bool)
    modifies MeshMaterials(StateOf(nodes))
    ensures Broadcast(nodes, property, value, thrown)
  {
    ghost var v := StateOf(nodes);
    ghost var k := FirstNullMesh(v);
    var i := 0;
    while i < |nodes|
      invariant 0 <= i <= k <= |nodes|
      invariant unchanged(nodes)
      invariant forall j :: 0 <= j < i && v[j].isMesh ==>
        v[j].material.props == old(v[j].material.props)[property := value] && v[j].material.needsUpdate
      invariant forall j :: i <= j < |v| && v[j].isMesh && v[j].material != null && NotHeldBefore(v, i, v[j].material) ==>
        v[j].material.props == old(v[j].material.props) && v[j].material.needsUpdate == old(v[j].material.needsUpdate)
    {
      var child := nodes[i];
      if child.isMesh {
        var material := child.material;
        if material == null {
          // writing a property through a missing material throws a TypeError
          assert k == i;
          return true;
        }
        assert material in MeshMaterials(v) && v[i].material == material;
        assert material.props[property := value] == old(material.props)[property := value];
        material.props := material.props[property := value];
        material.needsUpdate := true;
      }
      i := i + 1;
    }
    return false;
  }

  class SSSGuiController {
    var currentModel: Option<seq<Object3D>>
    var params: map<string, real>

    constructor (currentModel: Option<seq<Object3D>>)
      ensures this.currentModel == currentModel && params == InitialParams()
    {
      this.currentModel := currentModel;
      params := InitialParams();
    }

    /** The nodes the panel walks: none when there is no current model. */
    function Nodes(): seq<Object3D>
      reads this
    {
      if currentModel.Some? then currentModel.value else []
    }

    /** The materials a broadcast may write. */
    ghost function Targets(): set<Material>
      reads this, Nodes()
    {
      MeshMaterials(StateOf(Nodes()))
    }

    /** Write `property := value` and raise `needsUpdate` on the material of
        every mesh of the current model; with no model, do nothing. */
    method UpdateMaterial(property: string, value: real) returns (thrown: bool)
      modifies Targets()
      ensures currentModel.None? ==> !thrown
      ensures Broadcast(Nodes(), property, value, thrown)
    {
      thrown := false;
      if currentModel.Some? {
        thrown := WriteMeshMaterials(currentModel.value, property, value);
      }
    }

    /** A slider's change handler: the panel stores the new value in `params`
        and the handler broadcasts it under the slider's own property name. */
    method OnSliderChange(slider: Slider, value: real) returns (thrown: bool)
      modifies this`params, Targets()
      ensures params == old(params)[PropertyName(slider) := value]
      ensures currentModel.None? ==> !thrown
      ensures Broadcast(Nodes(), PropertyName(slider), value, thrown)
    {
      params := params[PropertyName(slider) := value];
      thrown := UpdateMaterial(PropertyName(slider), value);
    }
  }
}
