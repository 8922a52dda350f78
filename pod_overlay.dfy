/**
 * The card shown over the studio when a pod is selected: a fixed table of five pods, a
 * guard that hides the card for a missing or unknown name, and a call to action that is
 * disabled for the locked pods.
 */
module PodOverlay {
  import opened Wrappers
  import opened Json

  /** A row of `podContent`; the icon and colour are presentation and are not modelled. */
  datatype PodEntry = PodEntry(title: string, description: string, features: seq<string>, locked: bool)

  /** `podContent`, in declaration order. */
  const PodTable: seq<(string, PodEntry)> := [
    ("Reception", PodEntry("Reception Desk",
       "Welcome to Codmek Studio. Your AI guide is ready to help you navigate our workspace.",
       ["AI Receptionist", "Guided Tours", "Quick Navigation"], false)),
    ("Research", PodEntry("Research Pod", "Pioneering AGI, Cognitive Systems, and Digital Twins.",
       ["AGI Development", "Neural Networks", "Cognitive Computing"], false)),
    ("Workshop", PodEntry("Workshop Pod", "Prototyping intelligent systems. Enter the build zone.",
       ["Rapid Prototyping", "System Testing", "Integration Lab"], false)),
    ("Nexus", PodEntry("Nexus Portal", "Collaborate with Codmek. Portal coming soon.",
       ["Team Collaboration", "Project Sync", "Resource Sharing"], true)),
    ("Learn", PodEntry("Learn Terminal", "Learn, Build, and Grow with Codmek.",
       ["Interactive Courses", "Code Labs", "Certifications"], true))
  ]

  /** The keys of `podContent`. */
  function PodNames(): (names: seq<string>)
    ensures |names| == |PodTable|
    ensures forall i :: 0 <= i < |names| ==> names[i] == PodTable[i].0
  {
    seq(|PodTable|, i requires 0 <= i < |PodTable| => PodTable[i].0)
  }

  /** The entry the table holds under `name` as an own property. */
  function LookupPod(name: string): (r: Option<PodEntry>)
    ensures r.Some? <==> name in PodNames()
    ensures r.Some? ==> exists i :: 0 <= i < |PodTable| && PodTable[i] == (name, r.value)
  {
    Member(PodTable, name)
  }

  /** The card's call to action. */
  datatype Action = ComingSoon | Explore(caption: string)

  datatype Overlay =
    | Hidden
    | Card(title: string, description: string, features: seq<string>, action: Action)

  /** A locked pod gets the disabled "Coming Soon" button; any other invites the visitor in. */
  function ActionFor(entry: PodEntry): (a: Action)
    ensures a.ComingSoon? <==> entry.locked
    ensures a.Explore? ==> a.caption == "Explore " + entry.title
  {
    if entry.locked then ComingSoon else Explore("Explore " + entry.title)
  }

  /**
   * The overlay for the selected pod name. A null or empty name, or one that is not a key
   * of the table, renders nothing; a key renders its entry's title, description and
   * features, one feature per line in table order.
   */
  function RenderOverlay(podName: Option<string>): (v: Overlay)
    ensures v.Hidden? <==> podName.None? || podName.value == "" || podName.value !in PodNames()
    ensures v.Card? ==> podName.Some? && LookupPod(podName.value).Some?
    ensures v.Card? ==>
              var e := LookupPod(podName.value).value;
              v.title == e.title && v.description == e.description && v.features == e.features
              && v.action == ActionFor(e)
  {
    if podName.None? || podName.value == "" then Hidden
    else match LookupPod(podName.value)
      case None => Hidden
      case Some(e) => Card(e.title, e.description, e.features, ActionFor(e))
  }

  /** Exactly Nexus and Learn are locked; every card lists three features. */
  lemma LockedPods()
    ensures forall name :: name in PodNames() ==>
              (RenderOverlay(Some(name)).action.ComingSoon? <==> name == "Nexus" || name == "Learn")
    ensures forall name :: name in PodNames() ==> |RenderOverlay(Some(name)).features| == 3
  {
    assert PodNames() == ["Reception", "Research", "Workshop", "Nexus", "Learn"];
  }

  // ---------------------------------------------------------------------------
  // The guard as written
  // ---------------------------------------------------------------------------

  /** Property names every object literal inherits from `Object.prototype`. */
  const InheritedKeys: seq<string> :=
    ["constructor", "hasOwnProperty", "isPrototypeOf", "propertyIsEnumerable",
     "toLocaleString", "toString", "valueOf", "__proto__",
     "__defineGetter__", "__defineSetter__", "__lookupGetter__", "__lookupSetter__"]

  /**
   * `!podName || !(podName in podContent)` negated: the `in` operator also finds inherited
   * properties, so the guard lets those names through.
   */
  predicate GuardPassesAsWritten(podName: Option<string>) {
    podName.Some? && podName.value != "" && (podName.value in PodNames() || podName.value in InheritedKeys)
  }

  /**
   * "toString" passes the guard as written although the table has no entry for it, so the
   * component would go on to read `icon`, `title` and `features` of a function.
   */
  lemma InheritedKeyPassesGuard()
    ensures GuardPassesAsWritten(Some("toString"))
    ensures LookupPod("toString").None?
  {
    assert InheritedKeys[5] == "toString";
    assert PodNames() == ["Reception", "Research", "Workshop", "Nexus", "Learn"];
  }

  /** With an own-property check, a name passes exactly when the table holds an entry for it. */
  lemma OwnKeyGuardMatchesTable(podName: Option<string>)
    ensures RenderOverlay(podName).Card? <==> podName.Some? && LookupPod(podName.value).Some?
  {
    if podName.Some? && podName.value == "" {
      assert "" !in PodNames();
    }
  }
}
