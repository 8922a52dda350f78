/**
 * The studio's 3D scene, reduced to what is not rendering: the table of five pods and the
 * one hovered name the pods' pointer callbacks set and clear.
 */
module Studio3D {
  import opened Wrappers

  datatype Shape = Sphere | Box | Torus

  datatype Pod = Pod(name: string, position: (int, int, int), color: string, shape: Shape)

  /** `pods`, in scene order. */
  const ScenePods: seq<Pod> := [
    Pod("Reception", (-4, 0, 2), "#00f0ff", Sphere),
    Pod("Research", (4, 1, 0), "#8b5cf6", Sphere),
    Pod("Workshop", (0, -1, 4), "#00ff88", Box),
    Pod("Nexus", (-3, 1, -3), "#ff00ff", Torus),
    Pod("Learn", (3, 0, -4), "#ffaa00", Box)
  ]

  /** The pods' names are pairwise distinct. */
  lemma PodNamesDistinct()
    ensures |ScenePods| == 5
    ensures forall i, j :: 0 <= i < j < |ScenePods| ==> ScenePods[i].name != ScenePods[j].name
  {
  }

  class Scene {
    var hoveredPod: Option<string>

    constructor()
      ensures hoveredPod == None
    {
      hoveredPod := None;
    }

    /** Pod `i` is drawn highlighted exactly when its name is the hovered one. */
    predicate Highlighted(i: nat)
      requires i < |ScenePods|
      reads this
    {
      hoveredPod == Some(ScenePods[i].name)
    }

    /** The pointer enters pod `i`. */
    method PointerOver(i: nat)
      requires i < |ScenePods|
      modifies this
      ensures hoveredPod == Some(ScenePods[i].name)
    {
      hoveredPod := Some(ScenePods[i].name);
    }

    /** The pointer leaves pod `i`: the hover is cleared, whichever pod held it. */
    method PointerOut(i: nat)
      requires i < |ScenePods|
      modifies this
      ensures hoveredPod == None
    {
      hoveredPod := None;
    }
  }

  /** At most one pod is highlighted at a time. */
  lemma AtMostOneHighlighted(scene: Scene, i: nat, j: nat)
    requires i < |ScenePods| && j < |ScenePods|
    requires scene.Highlighted(i) && scene.Highlighted(j)
    ensures i == j
  {
    PodNamesDistinct();
  }
}
