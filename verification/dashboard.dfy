/** The dashboard's list logic (client/pages/dashboard.js): the trending list without the
    latest projects, the activity icons, and the merge of IPFS metadata into a project card.
    A string field holding "" stands for a missing (undefined, null or empty) value. */
module Dashboard {
  import opened Wrappers
  import opened Text

  const UntitledProject := "Untitled Project"

  /** A project as the subgraph returns it (the fields the dashboard reads). */
  datatype ProjectCard = ProjectCard(
    id: string,
    projectAddress: string,
    owner: string,
    name: string,
    description: string,
    imageCid: string,
    cid: string,
    contributorsCount: nat,
    currentBalance: nat,
    targetContribution: nat,
    deadline: int,
    completed: bool,
    cancelled: bool)

  /** The `properties.json` document stored under a project's cid. */
  datatype Metadata = Metadata(name: string, description: string, imageCid: string)

  /** How the gateway request ended: it threw, it answered with a non-ok status, or it returned a document. */
  datatype FetchOutcome = FetchThrew | NotOk | Fetched(metadata: Metadata)

  // ---------------------------------------------------------------------------
  // Trending without the latest projects
  // ---------------------------------------------------------------------------

  /** The number of trending cards shown. */
  const TrendingSlots: nat := 6

  function IdsOf(projects: seq<ProjectCard>): set<string> {
    set p | p in projects :: p.id
  }

  /** `trending.filter(p => !ids.has(p.id))`. */
  function WithoutIds(projects: seq<ProjectCard>, ids: set<string>): (r: seq<ProjectCard>)
    ensures |r| <= |projects|
    ensures forall p :: p in r <==> p in projects && p.id !in ids
    decreases |projects|
  {
    if |projects| == 0 then []
    else
      var rest := WithoutIds(projects[1..], ids);
      if projects[0].id in ids then rest else [projects[0]] + rest
  }

  /** Filtering distributes over concatenation, so it keeps the relative order of what it keeps. */
  lemma {:induction false} WithoutIdsAppend(a: seq<ProjectCard>, b: seq<ProjectCard>, ids: set<string>)
    ensures WithoutIds(a + b, ids) == WithoutIds(a, ids) + WithoutIds(b, ids)
    decreases |a|
  {
    if |a| == 0 {
      assert a + b == b;
    } else {
      assert (a + b)[1..] == a[1..] + b;
      assert (a + b)[0] == a[0];
      WithoutIdsAppend(a[1..], b, ids);
    }
  }

  /** The trending projects that are not among the latest ones, at most six, in trending order. */
  function UniqueTrending(trending: seq<ProjectCard>, latest: seq<ProjectCard>): (r: seq<ProjectCard>)
    ensures var candidates := WithoutIds(trending, IdsOf(latest));
      && |r| == Min(TrendingSlots, |candidates|)
      && r == candidates[..|r|]
    ensures forall p :: p in r ==> p in trending
    ensures forall p, q :: p in r && q in latest ==> p.id != q.id
  {
    var candidates := WithoutIds(trending, IdsOf(latest));
    var r := candidates[..Min(TrendingSlots, |candidates|)];
    assert forall p :: p in r ==> p in candidates;
    r
  }

  // ---------------------------------------------------------------------------
  // Activity icons
  // ---------------------------------------------------------------------------

  /** The activity types that have an icon of their own. */
  const IconByType: map<string, string> := map[
    "PROJECT_CREATED" := "plus circle",
    "CONTRIBUTION" := "dollar",
    "PROJECT_APPROVAL_SUBMITTED" := "check circle outline",
    "PROJECT_APPROVED" := "check circle",
    "PROJECT_COMPLETED" := "flag checkered",
    "MILESTONE_APPROVAL_SUBMITTED" := "check circle outline",
    "MILESTONE_APPROVED" := "check circle",
    "MILESTONE_COMPLETED" := "flag",
    "REWARD_CLAIMED" := "gift"]

  const DefaultIcon := "bell"

  /** `getActivityIcon`: the icon of the activity-type switch, "bell" for every other type. */
  function ActivityIcon(kind: string): (icon: string)
    ensures kind in IconByType ==> icon == IconByType[kind]
    ensures kind !in IconByType ==> icon == DefaultIcon
  {
    if kind == "PROJECT_CREATED" then "plus circle"
    else if kind == "CONTRIBUTION" then "dollar"
    else if kind == "PROJECT_APPROVAL_SUBMITTED" then "check circle outline"
    else if kind == "PROJECT_APPROVED" then "check circle"
    else if kind == "PROJECT_COMPLETED" then "flag checkered"
    else if kind == "MILESTONE_APPROVAL_SUBMITTED" then "check circle outline"
    else if kind == "MILESTONE_APPROVED" then "check circle"
    else if kind == "MILESTONE_COMPLETED" then "flag"
    else if kind == "REWARD_CLAIMED" then "gift"
    else DefaultIcon
  }

  /** Cancelled and expired projects have activity texts but no icon of their own. */
  lemma TerminalActivitiesUseBell()
    ensures ActivityIcon("PROJECT_CANCELLED") == DefaultIcon
    ensures ActivityIcon("PROJECT_EXPIRED") == DefaultIcon
  {
  }

  // ---------------------------------------------------------------------------
  // IPFS metadata merge
  // ---------------------------------------------------------------------------

  /** A card is looked up on IPFS when it has a cid and lacks an image or a real name. */
  predicate NeedsMetadata(p: ProjectCard) {
    p.cid != "" && (p.imageCid == "" || p.name == UntitledProject)
  }

  /** JavaScript's `a || b` on strings. */
  function OrElse(a: string, b: string): string {
    if a != "" then a else b
  }

  /** The card with the metadata folded in: the placeholder name is replaced, a present
      description or image is kept, and only missing ones are taken from the metadata. */
  function MergeMetadata(p: ProjectCard, m: Metadata): (q: ProjectCard)
    ensures q.(name := p.name, description := p.description, imageCid := p.imageCid) == p
    ensures p.name != UntitledProject ==> q.name == p.name
    ensures p.name == UntitledProject ==> q.name == m.name
    ensures p.description != "" ==> q.description == p.description
    ensures p.description == "" ==> q.description == m.description
    ensures p.imageCid != "" ==> q.imageCid == p.imageCid
    ensures p.imageCid == "" ==> q.imageCid == m.imageCid
  {
    p.(name := if p.name == UntitledProject then m.name else p.name,
       description := OrElse(p.description, m.description),
       imageCid := OrElse(p.imageCid, m.imageCid))
  }

  /** `fetchIpfsMetadataIfNeeded`: the outcome of the gateway request is an input;
      it is only consulted when the card needs metadata. */
  function FetchIpfsMetadataIfNeeded(p: ProjectCard, fetch: FetchOutcome): (q: ProjectCard)
    ensures !NeedsMetadata(p) ==> q == p
    ensures !fetch.Fetched? ==> q == p
    ensures NeedsMetadata(p) && fetch.Fetched? ==> q == MergeMetadata(p, fetch.metadata)
  {
    if NeedsMetadata(p) then
      match fetch
      case Fetched(m) => MergeMetadata(p, m)
      case _ => p
    else p
  }

  /** Merging the same metadata twice is merging it once. */
  lemma MergeIdempotent(p: ProjectCard, m: Metadata)
    ensures MergeMetadata(MergeMetadata(p, m), m) == MergeMetadata(p, m)
  {
  }

  /** After a successful fetch of metadata that has an image and a real name,
      the card needs no further lookup. */
  lemma MergeSettlesCard(p: ProjectCard, m: Metadata)
    requires m.imageCid != "" && m.name != UntitledProject
    ensures !NeedsMetadata(FetchIpfsMetadataIfNeeded(p, Fetched(m)))
  {
  }

  // ---------------------------------------------------------------------------
  // Activity feed: the name lookup for untitled projects
  // ---------------------------------------------------------------------------

  datatype ActivityProject = ActivityProject(id: string, projectAddress: string, name: string, cid: string)

  datatype Activity = Activity(
    id: string,
    kind: string,
    from: string,
    amount: string,
    balance: string,
    timestamp: int,
    project: Option<ActivityProject>)

  /** An activity whose project is untitled and has a cid gets its project name from the
      metadata; the fetch outcome is consulted only then, and nothing else changes. */
  function EnrichActivity(a: Activity, fetch: FetchOutcome): (b: Activity)
    ensures b.(project := a.project) == a
    ensures b.project.Some? <==> a.project.Some?
    ensures a.project.Some? ==> b.project.value.(name := a.project.value.name) == a.project.value
    ensures a.project.Some? && a.project.value.name == UntitledProject && a.project.value.cid != "" && fetch.Fetched?
      ==> b.project.value.name == fetch.metadata.name
    ensures !(a.project.Some? && a.project.value.name == UntitledProject && a.project.value.cid != "" && fetch.Fetched?)
      ==> b == a
  {
    match a.project
    case Some(pr) =>
      if pr.name == UntitledProject && pr.cid != "" then
        match fetch
        case Fetched(m) => a.(project := Some(pr.(name := m.name)))
        case _ => a
      else a
    case None => a
  }
}
