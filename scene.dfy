/**
 The slice of the scene graph that the subsurface-scattering controllers touch.

 A loaded model is a tree of `Object3D` nodes; both controllers only ever visit
 it through a depth-first `traverse`, so a model is represented here by the
 sequence of nodes in traversal order. A node's identity is its object
 reference; `uuid` is the key the snapshot table uses. Materials are objects
 too: after the effect is applied every mesh shares one material object.
 */
module Scene {

  type Uuid = string

  /** A material: the numeric properties the panel writes, and the flag that
      tells the renderer to rebuild the material's program. */
  class Material {
    var props: map<string, real>
    var needsUpdate: bool

    constructor (props: map<string, real>)
      ensures this.props == props && !needsUpdate
    {
      this.props := props;
      needsUpdate := false;
    }
  }

  /** A scene-graph node. Only meshes carry a material that matters here; a
      mesh may also hold no material at all (`null`). */
  class Object3D {
    const uuid: Uuid
    const isMesh: bool
    var material: Material?

    constructor (uuid: Uuid, isMesh: bool, material: Material?)
      ensures this.uuid == uuid && this.isMesh == isMesh && this.material == material
    {
      this.uuid := uuid;
      this.isMesh := isMesh;
      this.material := material;
    }
  }

  /** The value of one node at one moment: what the controllers read and write. */
  datatype NodeState = NodeState(uuid: Uuid, isMesh: bool, material: Material?)

  /** The current value of every node of a model, in traversal order. */
  function StateOf(nodes: seq<Object3D>): (v: seq<NodeState>)
    reads nodes
    ensures |v| == |nodes|
    ensures forall i :: 0 <= i < |nodes| ==>
      v[i].uuid == nodes[i].uuid && v[i].isMesh == nodes[i].isMesh && v[i].material == nodes[i].material
  {
    seq(|nodes|, i reads nodes requires 0 <= i < |nodes| =>
      NodeState(nodes[i].uuid, nodes[i].isMesh, nodes[i].material))
  }

  /** Three.js gives every object its own uuid: two nodes of a model that share
      a uuid are the same node. */
  ghost predicate UniqueUuids(v: seq<NodeState>)
  {
    forall i, j :: 0 <= i < |v| && 0 <= j < |v| && v[i].uuid == v[j].uuid ==> v[i] == v[j]
  }

  /** The uuids of the meshes of a model. */
  ghost function MeshUuids(v: seq<NodeState>): set<Uuid>
  {
    set i | 0 <= i < |v| && v[i].isMesh :: v[i].uuid
  }

  /** The material objects held by the meshes of a model. */
  ghost function MeshMaterials(v: seq<NodeState>): set<Material>
  {
    set i | 0 <= i < |v| && v[i].isMesh && v[i].material != null :: v[i].material
  }
}
