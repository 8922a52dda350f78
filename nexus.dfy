/**
 * The Nexus page: six collaboration hubs shown as cards. Clicking a card selects its hub and
 * opens a dialog that finds the hub by id; any open-change of the dialog clears the selection.
 */
module Nexus {
  import opened Wrappers

  datatype Hub = Hub(id: string, title: string, tagline: string, description: string, initiatives: seq<string>)

  /** `hubs`, in card order; the icons are presentation and are not modelled. */
  const Hubs: seq<Hub> := [
    Hub("opensource", "Open Source", "Building in the open",
        "Join our open-source ecosystem. Contribute to cutting-edge AI tools, frameworks, and research datasets that power innovation worldwide.",
        ["Open AI model repositories", "Community-driven toolkits", "Research dataset contributions", "Developer documentation sprints"]),
    Hub("partners", "Partner Network", "Freelancers & collaborators",
        "Connect with Codmek as a freelance contributor, technical partner, or solution integrator. Let's build the future together.",
        ["Freelance AI engineering projects", "Partnership programs", "Revenue-sharing models", "Co-creation opportunities"]),
    Hub("research", "Research Collaborations", "Universities & startups",
        "Academic partnerships, joint research programs, and startup accelerator initiatives driving breakthrough discoveries.",
        ["University research grants", "Startup co-innovation labs", "PhD collaboration programs", "Shared publication initiatives"]),
    Hub("government", "Government & Public Sector", "Serving the greater good",
        "Strategic partnerships with government bodies and public institutions to deploy AI for societal impact.",
        ["Public policy AI advisory", "Smart city integrations", "Healthcare system automation", "Education transformation programs"]),
    Hub("innovation", "Cross-Lab Innovation", "Boundary-less creation",
        "Interdisciplinary innovation programs connecting researchers, engineers, and visionaries across domains.",
        ["Multi-domain hackathons", "Innovation challenges", "Cross-vertical project teams", "Experimental prototyping grants"]),
    Hub("community", "Contributor Recognition", "Celebrating builders",
        "Recognition programs, leaderboards, and rewards for active contributors to the Codmek ecosystem.",
        ["Monthly contributor awards", "Open-source leaderboards", "Project showcase gallery", "Annual innovation summit invites"])
  ]

  /** The hub ids are pairwise distinct and non-empty. */
  lemma HubIdsDistinct()
    ensures |Hubs| == 6
    ensures forall i, j :: 0 <= i < j < |Hubs| ==> Hubs[i].id != Hubs[j].id
    ensures forall i :: 0 <= i < |Hubs| ==> Hubs[i].id != ""
  {
  }

  /** `hubs.find((h) => h.id === id)`: the first hub with that id, if any. */
  function FindHub(hubs: seq<Hub>, id: string): (r: Option<Hub>)
    ensures r.None? <==> forall i :: 0 <= i < |hubs| ==> hubs[i].id != id
    ensures r.Some? ==> r.value.id == id && r.value in hubs
    ensures r.Some? ==> exists i :: 0 <= i < |hubs| && hubs[i] == r.value
                                    && forall j :: 0 <= j < i ==> hubs[j].id != id
  {
    if hubs == [] then None
    else if hubs[0].id == id then Some(hubs[0])
    else
      var r := FindHub(hubs[1..], id);
      assert r.Some? ==> exists i :: 1 <= i < |hubs| && hubs[i] == r.value && forall j :: 0 <= j < i ==> hubs[j].id != id by {
        if r.Some? {
          var i :| 0 <= i < |hubs[1..]| && hubs[1..][i] == r.value && forall j :: 0 <= j < i ==> hubs[1..][j].id != id;
          assert hubs[i + 1] == r.value;
          forall j | 0 <= j < i + 1 ensures hubs[j].id != id {
            if j > 0 { assert hubs[j] == hubs[1..][j - 1]; }
          }
        }
      }
      r
  }

  /** With distinct ids, a hub's own id finds that hub. */
  lemma FindHubOwnId(k: nat)
    requires k < |Hubs|
    ensures FindHub(Hubs, Hubs[k].id) == Some(Hubs[k])
  {
    HubIdsDistinct();
    var id := Hubs[k].id;
    var r := FindHub(Hubs, id);
    assert r.Some?;
    var i :| 0 <= i < |Hubs| && Hubs[i] == r.value && forall j :: 0 <= j < i ==> Hubs[j].id != id;
    assert i == k;
  }

  class NexusPage {
    var selectedHub: Option<string>

    /** The selection is null or the id of a hub, so the dialog's lookup always succeeds. */
    predicate Valid()
      reads this
    {
      selectedHub.Some? ==> exists i :: 0 <= i < |Hubs| && Hubs[i].id == selectedHub.value
    }

    /** The dialog is open exactly while a hub is selected. */
    predicate DialogOpen()
      reads this
    {
      selectedHub.Some? && selectedHub.value != ""
    }

    constructor()
      ensures selectedHub.None? && !DialogOpen()
      ensures Valid()
    {
      selectedHub := None;
    }

    /** Clicking the `i`-th card selects its hub. */
    method ClickCard(i: nat)
      requires Valid() && i < |Hubs|
      modifies this
      ensures selectedHub == Some(Hubs[i].id) && DialogOpen()
      ensures Valid()
    {
      HubIdsDistinct();
      selectedHub := Some(Hubs[i].id);
    }

    /** The dialog's `onOpenChange`, whatever the new open state: the selection is cleared. */
    method OpenChange(open: bool)
      requires Valid()
      modifies this
      ensures selectedHub.None? && !DialogOpen()
      ensures Valid()
    {
      selectedHub := None;
    }

    /** The hub the open dialog shows: the `find(...)!` cannot fail under the invariant. */
    function DialogHub(): (hub: Hub)
      requires Valid() && selectedHub.Some?
      reads this
      ensures hub.id == selectedHub.value && hub in Hubs
    {
      var r := FindHub(Hubs, selectedHub.value);
      r.value
    }
  }

  /** After clicking a card, the dialog shows exactly that card's hub. */
  lemma DialogShowsClickedHub(page: NexusPage, i: nat)
    requires page.Valid() && i < |Hubs| && page.selectedHub == Some(Hubs[i].id)
    ensures page.DialogHub() == Hubs[i]
  {
    FindHubOwnId(i);
  }
}
