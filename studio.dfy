/**
 * The studio page: a loading screen, then the scene, the HUD, the chat window and the pod
 * overlay. A click on the reception pod opens the chat; a click on any other pod selects it.
 */
module Studio {
  import opened Wrappers
  import opened Studio3D
  import opened PodOverlay

  /** The HUD shows a hover line only for a hovered pod. */
  predicate HudShowsHover(hoveredPod: Option<string>) {
    hoveredPod.Some?
  }

  class StudioPage {
    var isLoading: bool
    var isChatOpen: bool
    var selectedPod: Option<string>
    /** Its setter is never called, so it keeps its initial value. */
    var hoveredPod: Option<string>

    /**
     * Nothing is open while loading; a selected pod is always one of the scene's pods other
     * than the reception; the hovered pod stays null.
     */
    predicate Valid()
      reads this
    {
      (isLoading ==> !isChatOpen && selectedPod.None?)
      && (selectedPod.Some? ==>
            selectedPod.value != "Reception" && exists i :: 0 <= i < |ScenePods| && ScenePods[i].name == selectedPod.value)
      && hoveredPod.None?
    }

    /** Scene, HUD, chat window and overlay are mounted only once loading is over. */
    predicate ContentMounted()
      reads this
    {
      !isLoading
    }

    constructor()
      ensures isLoading && !isChatOpen && selectedPod.None? && hoveredPod.None?
      ensures Valid()
    {
      isLoading := true;
      isChatOpen := false;
      selectedPod := None;
      hoveredPod := None;
    }

    /** The loading screen's `onComplete`. */
    method LoadingComplete()
      requires Valid()
      modifies this
      ensures !isLoading && ContentMounted()
      ensures isChatOpen == old(isChatOpen) && selectedPod == old(selectedPod) && hoveredPod == old(hoveredPod)
      ensures Valid()
    {
      isLoading := false;
    }

    /** `handlePodClick` for a click on the `i`-th pod of the mounted scene. */
    method ClickPod(i: nat)
      requires Valid() && ContentMounted() && i < |ScenePods|
      modifies this
      ensures ScenePods[i].name == "Reception" ==> isChatOpen && selectedPod == old(selectedPod)
      ensures ScenePods[i].name != "Reception" ==>
                selectedPod == Some(ScenePods[i].name) && isChatOpen == old(isChatOpen)
      ensures isLoading == old(isLoading) && hoveredPod == old(hoveredPod)
      ensures Valid()
    {
      var name := ScenePods[i].name;
      if name == "Reception" {
        isChatOpen := true;
      } else {
        selectedPod := Some(name);
      }
    }

    /** The HUD's chat button. */
    method OpenChat()
      requires Valid() && ContentMounted()
      modifies this
      ensures isChatOpen
      ensures isLoading == old(isLoading) && selectedPod == old(selectedPod) && hoveredPod == old(hoveredPod)
      ensures Valid()
    {
      isChatOpen := true;
    }

    /** The chat window's close callback only closes the chat. */
    method CloseChat()
      requires Valid()
      modifies this
      ensures !isChatOpen
      ensures isLoading == old(isLoading) && selectedPod == old(selectedPod) && hoveredPod == old(hoveredPod)
      ensures Valid()
    {
      isChatOpen := false;
    }

    /** The overlay's close callback only clears the selection. */
    method CloseOverlay()
      requires Valid()
      modifies this
      ensures selectedPod.None?
      ensures isLoading == old(isLoading) && isChatOpen == old(isChatOpen) && hoveredPod == old(hoveredPod)
      ensures Valid()
    {
      selectedPod := None;
    }
  }

  /** Every pod in the scene has an entry in the overlay's table. */
  lemma ScenePodHasEntry(i: nat)
    requires i < |ScenePods|
    ensures LookupPod(ScenePods[i].name).Some?
  {
    assert PodNames() == ["Reception", "Research", "Workshop", "Nexus", "Learn"];
  }

  /**
   * Whatever the visitor has clicked, a selected pod always opens a card, and the HUD
   * never shows a hover line.
   */
  lemma SelectionAlwaysOpensCard(page: StudioPage)
    requires page.Valid()
    ensures page.selectedPod.Some? ==> RenderOverlay(page.selectedPod).Card?
    ensures !HudShowsHover(page.hoveredPod)
  {
    if page.selectedPod.Some? {
      var i :| 0 <= i < |ScenePods| && ScenePods[i].name == page.selectedPod.value;
      ScenePodHasEntry(i);
      OwnKeyGuardMatchesTable(page.selectedPod);
    }
  }
}
