/** Campaign windows and milestones on the shared calendar: the write path, the sweep, and the
    upsert and cancel operations they go through. */
module Calendar {
  import opened Options

  datatype CampaignStatus = Active | Approved | OtherCampaignStatus

  datatype Visibility = Members | Officers | Directors | Restricted

  datatype Tier = MemberTier | OfficerTier | DirectorTier

  datatype MilestoneStatus = Pending | ReadyForReview | Done | Missed

  datatype Milestone = Milestone(id: nat, title: string, dueAt: Option<int>, status: MilestoneStatus)

  datatype Campaign = Campaign(
    id: nat,
    name: string,
    status: CampaignStatus,
    visibility: Visibility,
    startAt: Option<int>,
    targetEndAt: Option<int>,
    milestones: seq<Milestone>)

  /** Provenance of a calendar row: this subsystem's windows and milestones, or another source. */
  datatype Key = Window(campaign: nat) | MilestoneKey(milestone: nat) | Foreign(source: nat, object: nat)

  datatype RowStatus = Cancelled | Synced | OtherRowStatus

  datatype FieldName = TitleField | StartField | EndField | StatusField

  datatype Row = Row(status: RowStatus, title: string, startAt: int, endAt: Option<int>, tier: Tier, locked: set<FieldName>)

  /** What a publish writes. */
  datatype Content = Content(title: string, startAt: int, endAt: Option<int>, tier: Tier)

  type Rows = map<Key, Row>

  // --- Upsert and cancel -----------------------------------------------------

  function Lookup(rows: Rows, k: Key): Option<Row> {
    if k in rows then Some(rows[k]) else None
  }

  /** The row after an upsert: created, left retracted, or updated in its unlocked fields. */
  function PublishedRow(before: Option<Row>, c: Content): Row {
    match before
    case None => Row(Synced, c.title, c.startAt, c.endAt, c.tier, {})
    case Some(r) =>
      if r.status == Cancelled && StatusField in r.locked then r else
        Row(if StatusField in r.locked then r.status else Synced,
            if TitleField in r.locked then r.title else c.title,
            if StartField in r.locked then r.startAt else c.startAt,
            if EndField in r.locked then r.endAt else c.endAt,
            r.tier, r.locked)
  }

  function CancelledRow(before: Option<Row>): Option<Row> {
    if before.Some? then Some(before.value.(status := Cancelled)) else None
  }

  function WithCancelled(rows: Rows, keys: set<Key>): Rows {
    map k | k in rows :: if k in keys then rows[k].(status := Cancelled) else rows[k]
  }

  // --- What a campaign puts on the calendar ----------------------------------

  predicate IsRestricted(c: Campaign) {
    c.visibility == Restricted
  }

  /** Calendar-worthy: ACTIVE, or APPROVED already carrying a date. */
  predicate Publishes(c: Campaign) {
    c.status == Active || (c.status == Approved && (c.startAt.Some? || c.targetEndAt.Some?))
  }

  predicate Qualifies(c: Campaign) {
    Publishes(c) && !IsRestricted(c)
  }

  function TierOf(c: Campaign): Tier {
    match c.visibility
    case Members => MemberTier
    case Directors => DirectorTier
    case _ => OfficerTier
  }

  predicate IsOpenMilestone(m: Milestone) {
    m.dueAt.Some? && m.status != Done && m.status != Missed
  }

  function MilestoneContent(c: Campaign, m: Milestone): Content
    requires m.dueAt.Some?
  {
    Content("Milestone — " + m.title, m.dueAt.value, None, TierOf(c))
  }

  /** What the first `n` milestones put under key `k`. */
  function MilestoneContentAt(c: Campaign, n: nat, k: Key): Option<Content>
    requires n <= |c.milestones|
  {
    if n == 0 then None
    else if IsOpenMilestone(c.milestones[n - 1]) && k == MilestoneKey(c.milestones[n - 1].id)
    then Some(MilestoneContent(c, c.milestones[n - 1]))
    else MilestoneContentAt(c, n - 1, k)
  }

  /** What the campaign puts under key `k`, if anything. */
  function ContentAt(c: Campaign, k: Key): Option<Content> {
    if k == Window(c.id) then
      if c.startAt.Some? then Some(Content(c.name, c.startAt.value, c.targetEndAt, TierOf(c))) else None
    else MilestoneContentAt(c, |c.milestones|, k)
  }

  predicate Owns(c: Campaign, k: Key) {
    k == Window(c.id) || exists i :: 0 <= i < |c.milestones| && k == MilestoneKey(c.milestones[i].id)
  }

  function OwnedKeys(c: Campaign): set<Key> {
    {Window(c.id)} + set i | 0 <= i < |c.milestones| :: MilestoneKey(c.milestones[i].id)
  }

  /** Primary keys: no two campaigns share an id, no milestone appears twice. */
  ghost predicate WellKeyed(campaigns: seq<Campaign>) {
    && (forall i, j, k | 0 <= i < j < |campaigns| && Owns(campaigns[i], k) :: !Owns(campaigns[j], k))
    && (forall i | 0 <= i < |campaigns| :: DistinctMilestones(campaigns[i]))
  }

  predicate DistinctMilestones(c: Campaign) {
    forall i, j | 0 <= i < j < |c.milestones| :: c.milestones[i].id != c.milestones[j].id
  }

  /** What publishing campaign `c` leaves under key `k`. */
  function PublishEffect(before: Option<Row>, c: Campaign, k: Key): Option<Row> {
    if !Owns(c, k) then before
    else if IsRestricted(c) then CancelledRow(before)
    else if ContentAt(c, k).Some? then Some(PublishedRow(before, ContentAt(c, k).value))
    else if k == Window(c.id) then before
    else CancelledRow(before)
  }

  /** `after` is `rows` with the effect applied under every key. */
  ghost predicate PublishedTo(rows: Rows, c: Campaign, after: Rows) {
    forall k :: Lookup(after, k) == PublishEffect(Lookup(rows, k), c, k)
  }

  /** Content under `k` from the qualifying campaigns among the first `n`. */
  function WantedUpTo(campaigns: seq<Campaign>, n: nat, k: Key): Option<Content>
    requires n <= |campaigns|
  {
    if n == 0 then None
    else if Qualifies(campaigns[n - 1]) && ContentAt(campaigns[n - 1], k).Some? then ContentAt(campaigns[n - 1], k)
    else WantedUpTo(campaigns, n - 1, k)
  }

  function WantedAt(campaigns: seq<Campaign>, k: Key): Option<Content> {
    WantedUpTo(campaigns, |campaigns|, k)
  }

  /** What a sweep leaves under key `k`. */
  function SyncEffect(before: Option<Row>, campaigns: seq<Campaign>, k: Key): Option<Row> {
    if k.Foreign? then before
    else if WantedAt(campaigns, k).Some? then Some(PublishedRow(before, WantedAt(campaigns, k).value))
    else CancelledRow(before)
  }

  ghost predicate SyncedTo(rows: Rows, campaigns: seq<Campaign>, after: Rows) {
    forall k :: Lookup(after, k) == SyncEffect(Lookup(rows, k), campaigns, k)
  }

  lemma {:induction false} ContentIsOwned(c: Campaign, k: Key, n: nat)
    requires n <= |c.milestones|
    ensures MilestoneContentAt(c, n, k).Some? ==> exists i :: 0 <= i < n && k == MilestoneKey(c.milestones[i].id)
  {
    if n > 0 && k != MilestoneKey(c.milestones[n - 1].id) {
      ContentIsOwned(c, k, n - 1);
    }
  }

  // --- What a campaign shows, in its own fields --------------------------------

  /** Active, or approved and dated; and not restricted. */
  predicate MayShow(c: Campaign) {
    && (c.status == Active || (c.status == Approved && (c.startAt != None || c.targetEndAt != None)))
    && c.visibility in {Members, Officers, Directors}
  }

  predicate IsDue(m: Milestone) {
    m.dueAt != None && (m.status == Pending || m.status == ReadyForReview)
  }

  /** Members see what members may see, and the same for officers and directors. */
  predicate IsTier(visibility: Visibility, tier: Tier) {
    match visibility
    case Members => tier == MemberTier
    case Officers => tier == OfficerTier
    case Directors => tier == DirectorTier
    case Restricted => tier == OfficerTier
  }

  /** Under its window the campaign's name and dates, under each due milestone that one's title and date. */
  predicate ShowsUnder(c: Campaign, k: Key, content: Content) {
    && IsTier(c.visibility, content.tier)
    && ((k == Window(c.id) && content.title == c.name && c.startAt == Some(content.startAt) && content.endAt == c.targetEndAt)
        || (content.endAt == None && exists i | 0 <= i < |c.milestones| && IsDue(c.milestones[i]) ::
              && k == MilestoneKey(c.milestones[i].id) && c.milestones[i].dueAt == Some(content.startAt)
              && content.title == "Milestone — " + c.milestones[i].title))
  }

  lemma {:induction false} MilestoneShows(c: Campaign, n: nat, k: Key, j: nat)
    requires DistinctMilestones(c) && j < n <= |c.milestones| && IsOpenMilestone(c.milestones[j]) && k == MilestoneKey(c.milestones[j].id)
    ensures MilestoneContentAt(c, n, k) == Some(MilestoneContent(c, c.milestones[j]))
  {
    if j < n - 1 {
      MilestoneShows(c, n - 1, k, j);
    }
  }

  lemma ContentIff(c: Campaign, k: Key, content: Content)
    requires DistinctMilestones(c)
    ensures ContentAt(c, k) == Some(content) <==> ShowsUnder(c, k, content)
  {
    LiveMilestones(c, |c.milestones|);
    forall j | 0 <= j < |c.milestones| && IsOpenMilestone(c.milestones[j]) && k == MilestoneKey(c.milestones[j].id)
      ensures MilestoneContentAt(c, |c.milestones|, k) == Some(MilestoneContent(c, c.milestones[j]))
    {
      MilestoneShows(c, |c.milestones|, k, j);
    }
  }

  /** What an upsert leaves: a new row with the content; of an old row every field an officer has locked, its
      tier and, once retracted for good, all of it. */
  predicate IsUpserted(before: Option<Row>, after: Row, c: Content) {
    match before
    case None => after == Row(Synced, c.title, c.startAt, c.endAt, c.tier, {})
    case Some(r) =>
      var kept := r.status == Cancelled && StatusField in r.locked;
      && after.tier == r.tier && after.locked == r.locked
      && after.status == (if StatusField in r.locked then r.status else Synced)
      && after.title == (if kept || TitleField in r.locked then r.title else c.title)
      && after.startAt == (if kept || StartField in r.locked then r.startAt else c.startAt)
      && after.endAt == (if kept || EndField in r.locked then r.endAt else c.endAt)
  }

  // --- The operations --------------------------------------------------------

  class Board {
    var rows: Rows

    constructor ()
      ensures rows == map[]
    {
      rows := map[];
    }

    method PublishEvent(k: Key, c: Content)
      modifies this
      ensures k in rows && IsUpserted(if k in old(rows) then Some(old(rows)[k]) else None, rows[k], c)
      ensures rows == old(rows)[k := PublishedRow(Lookup(old(rows), k), c)]
    {
      rows := rows[k := PublishedRow(if k in rows then Some(rows[k]) else None, c)];
    }

    method CancelEvent(k: Key)
      modifies this
      ensures rows == WithCancelled(old(rows), {k})
      ensures rows == if k in old(rows) then old(rows)[k := old(rows)[k].(status := Cancelled)] else old(rows)
    {
      if k in rows && rows[k].status != Cancelled {
        rows := rows[k := rows[k].(status := Cancelled)];
      }
    }

    /** Cancel every listed key, one at a time. */
    method CancelEvents(keys: set<Key>)
      modifies this
      ensures rows == WithCancelled(old(rows), keys)
    {
      var todo := keys;
      while todo != {}
        invariant todo <= keys && rows == WithCancelled(old(rows), keys - todo)
        decreases todo
      {
        var k :| k in todo;
        CancelEvent(k);
        todo := todo - {k};
        assert keys - todo == keys - (todo + {k}) + {k};
      }
      assert keys - todo == keys;
    }

    method CancelCampaign(c: Campaign)
      modifies this
      ensures rows == WithCancelled(old(rows), OwnedKeys(c))
      ensures rows.Keys == old(rows).Keys
      ensures forall k | k in rows && (k == Window(c.id) || exists i :: 0 <= i < |c.milestones| && k == MilestoneKey(c.milestones[i].id)) ::
        rows[k] == old(rows)[k].(status := Cancelled)
      ensures forall k | k in rows && k != Window(c.id) && (forall i | 0 <= i < |c.milestones| :: k != MilestoneKey(c.milestones[i].id)) ::
        rows[k] == old(rows)[k]
    {
      CancelEvents(OwnedKeys(c));
    }

    method PublishCampaign(c: Campaign)
      requires DistinctMilestones(c)
      modifies this
      ensures PublishedTo(old(rows), c, rows)
    {
      if IsRestricted(c) {
        CancelCampaign(c);
        return;
      }
      if c.startAt.Some? {
        PublishEvent(Window(c.id), Content(c.name, c.startAt.value, c.targetEndAt, TierOf(c)));
      }
      var live := {Window(c.id)};
      var i := 0;
      while i < |c.milestones|
        invariant 0 <= i <= |c.milestones|
        invariant forall k :: k in live <==> k == Window(c.id) || MilestoneContentAt(c, i, k).Some?
        invariant forall k :: Lookup(rows, k) == Upserted(Lookup(old(rows), k), c, i, k)
      {
        var m := c.milestones[i];
        if IsOpenMilestone(m) {
          ContentIsOwned(c, MilestoneKey(m.id), i);
          PublishEvent(MilestoneKey(m.id), MilestoneContent(c, m));
          live := live + {MilestoneKey(m.id)};
        }
        i := i + 1;
      }
      ghost var upserted := rows;
      CancelEvents(OwnedKeys(c) - live);
      PublishEnds(old(rows), upserted, rows, c, live);
    }

    /** The sweep. `None` when the subsystem is switched off. */
    method Sync(featureOn: bool, campaigns: seq<Campaign>) returns (published: Option<nat>)
      requires WellKeyed(campaigns)
      modifies this
      ensures !featureOn ==> rows == old(rows) && published == None
      ensures featureOn ==> SyncedTo(old(rows), campaigns, rows) && published == Some(|ShownUpTo(campaigns, |campaigns|)|)
    {
      if !featureOn {
        return None;
      }
      var liveKeys: set<Key> := {};
      var i, n := 0, 0;
      while i < |campaigns|
        invariant 0 <= i <= |campaigns| && n == QualifyingCount(campaigns, i)
        invariant forall k :: k in liveKeys <==> WantedUpTo(campaigns, i, k).Some?
        invariant forall k :: AsPublished(Lookup(old(rows), k), Lookup(rows, k), WantedUpTo(campaigns, i, k))
        invariant forall j, k | i <= j < |campaigns| && Owns(campaigns[j], k) :: Lookup(rows, k) == Lookup(old(rows), k)
        invariant forall k: Key | k.Foreign? :: Lookup(rows, k) == Lookup(old(rows), k)
      {
        var c := campaigns[i];
        if Qualifies(c) {
          ghost var before := rows;
          PublishCampaign(c);
          liveKeys := liveKeys + LiveKeys(c);
          n := n + 1;
          PublishStep(old(rows), before, rows, campaigns, i);
        }
        i := i + 1;
      }
      ghost var published' := rows;
      CancelEvents(set k | k in rows && !k.Foreign? && rows[k].status != Cancelled && k !in liveKeys);
      SweepEnds(old(rows), published', rows, campaigns, liveKeys);
      QualifyingCountIs(campaigns, |campaigns|);
      return Some(n);
    }
  }

  /** Rows after the window and the first `n` milestones have been upserted. */
  function Upserted(before: Option<Row>, c: Campaign, n: nat, k: Key): Option<Row>
    requires n <= |c.milestones|
  {
    var content := if k == Window(c.id) then ContentAt(c, k) else MilestoneContentAt(c, n, k);
    if content.Some? then Some(PublishedRow(before, content.value)) else before
  }

  function QualifyingCount(campaigns: seq<Campaign>, n: nat): nat
    requires n <= |campaigns|
  {
    if n == 0 then 0 else QualifyingCount(campaigns, n - 1) + if Qualifies(campaigns[n - 1]) then 1 else 0
  }

  /** Retiring the campaign's other keys completes its publication. */
  lemma PublishEnds(start: Rows, upserted: Rows, after: Rows, c: Campaign, live: set<Key>)
    requires !IsRestricted(c) && after == WithCancelled(upserted, OwnedKeys(c) - live)
    requires forall k :: k in live <==> k == Window(c.id) || MilestoneContentAt(c, |c.milestones|, k).Some?
    requires forall k :: Lookup(upserted, k) == Upserted(Lookup(start, k), c, |c.milestones|, k)
    ensures PublishedTo(start, c, after)
  {
    forall k
      ensures Lookup(after, k) == PublishEffect(Lookup(start, k), c, k)
    {
      ContentIsOwned(c, k, |c.milestones|);
      assert Lookup(upserted, k) == Upserted(Lookup(start, k), c, |c.milestones|, k);
    }
  }

  ghost function ShownUpTo(campaigns: seq<Campaign>, n: nat): set<nat>
    requires n <= |campaigns|
  {
    set i: nat | i < n && MayShow(campaigns[i])
  }

  lemma {:induction false} QualifyingCountIs(campaigns: seq<Campaign>, n: nat)
    requires n <= |campaigns|
    ensures QualifyingCount(campaigns, n) == |ShownUpTo(campaigns, n)|
  {
    if n > 0 {
      QualifyingCountIs(campaigns, n - 1);
      if MayShow(campaigns[n - 1]) {
        assert ShownUpTo(campaigns, n) == ShownUpTo(campaigns, n - 1) + {n - 1};
      } else {
        assert ShownUpTo(campaigns, n) == ShownUpTo(campaigns, n - 1);
      }
    }
  }

  /** The keys a qualifying campaign keeps live. */
  function LiveKeys(c: Campaign): (r: set<Key>)
    ensures forall k :: k in r <==> ContentAt(c, k).Some?
  {
    LiveMilestones(c, |c.milestones|);
    (if c.startAt.Some? then {Window(c.id)} else {})
    + set i | 0 <= i < |c.milestones| && IsOpenMilestone(c.milestones[i]) :: MilestoneKey(c.milestones[i].id)
  }

  lemma {:induction false} LiveMilestones(c: Campaign, n: nat)
    requires n <= |c.milestones|
    ensures forall k :: MilestoneContentAt(c, n, k).Some? <==>
      exists i :: 0 <= i < n && IsOpenMilestone(c.milestones[i]) && k == MilestoneKey(c.milestones[i].id)
  {
    if n > 0 {
      LiveMilestones(c, n - 1);
    }
  }

  /** Wanted keys carry their content; other rows are as before or already cancelled. */
  predicate AsPublished(before: Option<Row>, after: Option<Row>, content: Option<Content>) {
    if content.Some? then after == Some(PublishedRow(before, content.value))
    else after == before || after == CancelledRow(before)
  }

  lemma PublishStep(start: Rows, before: Rows, after: Rows, campaigns: seq<Campaign>, i: nat)
    requires WellKeyed(campaigns) && i < |campaigns| && Qualifies(campaigns[i]) && PublishedTo(before, campaigns[i], after)
    requires forall k :: AsPublished(Lookup(start, k), Lookup(before, k), WantedUpTo(campaigns, i, k))
    requires forall j, k | i <= j < |campaigns| && Owns(campaigns[j], k) :: Lookup(before, k) == Lookup(start, k)
    requires forall k: Key | k.Foreign? :: Lookup(before, k) == Lookup(start, k)
    ensures forall k :: AsPublished(Lookup(start, k), Lookup(after, k), WantedUpTo(campaigns, i + 1, k))
    ensures forall j, k | i < j < |campaigns| && Owns(campaigns[j], k) :: Lookup(after, k) == Lookup(start, k)
    ensures forall k: Key | k.Foreign? :: Lookup(after, k) == Lookup(start, k)
  {
    var c := campaigns[i];
    forall k
      ensures AsPublished(Lookup(start, k), Lookup(after, k), WantedUpTo(campaigns, i + 1, k))
    {
      assert Lookup(after, k) == PublishEffect(Lookup(before, k), c, k);
      ContentIsOwned(c, k, |c.milestones|);
      if Owns(c, k) {
        WantedOnlyByOwner(campaigns, i, i, k);
      }
    }
    forall j, k | i < j < |campaigns| && Owns(campaigns[j], k)
      ensures Lookup(after, k) == Lookup(start, k)
    {
      assert !Owns(c, k);
    }
  }

  /** Earlier campaigns put nothing under a later campaign's key. */
  lemma {:induction false} WantedOnlyByOwner(campaigns: seq<Campaign>, n: nat, j: nat, k: Key)
    requires WellKeyed(campaigns) && n <= j < |campaigns| && Owns(campaigns[j], k)
    ensures WantedUpTo(campaigns, n, k) == None
  {
    if n > 0 {
      WantedOnlyByOwner(campaigns, n - 1, j, k);
      ContentIsOwned(campaigns[n - 1], k, |campaigns[n - 1].milestones|);
    }
  }

  lemma SweepEnds(start: Rows, published: Rows, after: Rows, campaigns: seq<Campaign>, liveKeys: set<Key>)
    requires forall k :: k in liveKeys <==> WantedAt(campaigns, k).Some?
    requires forall k :: AsPublished(Lookup(start, k), Lookup(published, k), WantedAt(campaigns, k))
    requires forall k: Key | k.Foreign? :: Lookup(published, k) == Lookup(start, k)
    requires after == WithCancelled(published, set k | k in published && !k.Foreign? && published[k].status != Cancelled && k !in liveKeys)
    ensures SyncedTo(start, campaigns, after)
  {
    forall k
      ensures Lookup(after, k) == SyncEffect(Lookup(start, k), campaigns, k)
    {
      assert AsPublished(Lookup(start, k), Lookup(published, k), WantedAt(campaigns, k));
    }
  }

  // --- What the calendar then shows ------------------------------------------

  lemma {:induction false} WantedIff(campaigns: seq<Campaign>, n: nat, k: Key)
    requires n <= |campaigns|
    ensures WantedUpTo(campaigns, n, k).Some? <==>
      exists i :: 0 <= i < n && Qualifies(campaigns[i]) && ContentAt(campaigns[i], k).Some?
  {
    if n > 0 {
      WantedIff(campaigns, n - 1, k);
    }
  }

  /** After a sweep the live rows of this source are exactly the windows of qualifying campaigns with
      a start date and their open dated milestones, less what an officer has retracted for good;
      other sources are untouched. */
  lemma LiveAfterSync(rows: Rows, campaigns: seq<Campaign>, after: Rows, k: Key)
    requires SyncedTo(rows, campaigns, after)
    ensures k.Foreign? ==> Lookup(after, k) == Lookup(rows, k)
    ensures !k.Foreign? ==>
      (k in after && after[k].status != Cancelled <==>
        && !(k in rows && rows[k].status == Cancelled && StatusField in rows[k].locked)
        && exists i :: 0 <= i < |campaigns| && MayShow(campaigns[i])
             && ((k == Window(campaigns[i].id) && campaigns[i].startAt != None)
                 || exists j :: 0 <= j < |campaigns[i].milestones| && IsDue(campaigns[i].milestones[j])
                               && k == MilestoneKey(campaigns[i].milestones[j].id)))
  {
    assert Lookup(after, k) == SyncEffect(Lookup(rows, k), campaigns, k);
    WantedIff(campaigns, |campaigns|, k);
    forall i | 0 <= i < |campaigns|
      ensures ContentAt(campaigns[i], k).Some? <==>
        (k == Window(campaigns[i].id) && campaigns[i].startAt.Some?)
        || exists j :: 0 <= j < |campaigns[i].milestones| && IsOpenMilestone(campaigns[i].milestones[j])
                      && k == MilestoneKey(campaigns[i].milestones[j].id)
    {
      LiveMilestones(campaigns[i], |campaigns[i].milestones|);
    }
  }

  /** And they show what the campaign says: after a sweep, and after the campaign's own publish, every key under
      which it shows something has a row upserted with that. */
  lemma RowsShowCampaign(rows: Rows, campaigns: seq<Campaign>, after: Rows, i: nat, k: Key, content: Content)
    requires WellKeyed(campaigns) && i < |campaigns| && MayShow(campaigns[i]) && ShowsUnder(campaigns[i], k, content)
    requires SyncedTo(rows, campaigns, after) || PublishedTo(rows, campaigns[i], after)
    ensures k in after && IsUpserted(if k in rows then Some(rows[k]) else None, after[k], content)
  {
    ContentIff(campaigns[i], k, content);
    ContentIsOwned(campaigns[i], k, |campaigns[i].milestones|);
    WantedFromOwner(campaigns, |campaigns|, i, k);
    if SyncedTo(rows, campaigns, after) {
      assert Lookup(after, k) == SyncEffect(Lookup(rows, k), campaigns, k);
    } else {
      assert Lookup(after, k) == PublishEffect(Lookup(rows, k), campaigns[i], k);
    }
  }

  /** The hard rule: a restricted campaign has nothing live after a sweep, nor after its own publish. */
  lemma RestrictedShowsNothing(rows: Rows, campaigns: seq<Campaign>, after: Rows, i: nat, k: Key)
    requires WellKeyed(campaigns) && i < |campaigns| && campaigns[i].visibility == Restricted
    requires k == Window(campaigns[i].id) || exists j :: 0 <= j < |campaigns[i].milestones| && k == MilestoneKey(campaigns[i].milestones[j].id)
    requires SyncedTo(rows, campaigns, after) || PublishedTo(rows, campaigns[i], after)
    ensures k in after ==> after[k].status == Cancelled
  {
    assert Owns(campaigns[i], k);
    if SyncedTo(rows, campaigns, after) {
      assert Lookup(after, k) == SyncEffect(Lookup(rows, k), campaigns, k);
      WantedIff(campaigns, |campaigns|, k);
      forall j | 0 <= j < |campaigns| && Qualifies(campaigns[j])
        ensures ContentAt(campaigns[j], k).None?
      {
        ContentIsOwned(campaigns[j], k, |campaigns[j].milestones|);
        assert j != i;
      }
    } else {
      assert Lookup(after, k) == PublishEffect(Lookup(rows, k), campaigns[i], k);
    }
  }

  lemma SameRows(a: Rows, b: Rows)
    requires forall k :: Lookup(a, k) == Lookup(b, k)
    ensures a == b
  {
    assert forall k :: k in a <==> Lookup(a, k).Some?;
    assert forall k :: k in b <==> Lookup(b, k).Some?;
    assert forall k | k in a :: Lookup(a, k) == Some(a[k]) && Lookup(b, k) == Some(b[k]);
  }

  /** A second sweep changes nothing. */
  lemma SyncIdempotent(rows: Rows, campaigns: seq<Campaign>, once: Rows, twice: Rows)
    requires SyncedTo(rows, campaigns, once) && SyncedTo(once, campaigns, twice)
    ensures twice == once
  {
    forall k
      ensures Lookup(twice, k) == Lookup(once, k)
    {
      assert Lookup(once, k) == SyncEffect(Lookup(rows, k), campaigns, k);
      assert Lookup(twice, k) == SyncEffect(Lookup(once, k), campaigns, k);
    }
    SameRows(twice, once);
  }

  lemma {:induction false} WantedFromOwner(campaigns: seq<Campaign>, n: nat, i: nat, k: Key)
    requires WellKeyed(campaigns) && i < n <= |campaigns| && Qualifies(campaigns[i]) && Owns(campaigns[i], k)
    ensures WantedUpTo(campaigns, n, k) == ContentAt(campaigns[i], k)
  {
    if n - 1 == i {
      WantedOnlyByOwner(campaigns, i, i, k);
    } else {
      WantedFromOwner(campaigns, n - 1, i, k);
      ContentIsOwned(campaigns[n - 1], k, |campaigns[n - 1].milestones|);
    }
  }

  /** The write path and the sweep converge: publishing a qualifying campaign first makes no
      difference to what the sweep leaves. */
  lemma PublishThenSync(rows: Rows, campaigns: seq<Campaign>, i: nat, published: Rows, a: Rows, b: Rows)
    requires WellKeyed(campaigns) && i < |campaigns| && Qualifies(campaigns[i])
    requires PublishedTo(rows, campaigns[i], published) && SyncedTo(published, campaigns, a) && SyncedTo(rows, campaigns, b)
    ensures a == b
  {
    forall k
      ensures Lookup(a, k) == Lookup(b, k)
    {
      assert Lookup(published, k) == PublishEffect(Lookup(rows, k), campaigns[i], k);
      assert Lookup(a, k) == SyncEffect(Lookup(published, k), campaigns, k);
      assert Lookup(b, k) == SyncEffect(Lookup(rows, k), campaigns, k);
      if Owns(campaigns[i], k) {
        WantedFromOwner(campaigns, |campaigns|, i, k);
      }
    }
    SameRows(a, b);
  }

  /** When a campaign loses its start date, publishing it keeps its old window live; only the sweep
      retires that row. */
  lemma WindowOutlivesStartDate(rows: Rows, campaigns: seq<Campaign>, i: nat, published: Rows, after: Rows)
    requires WellKeyed(campaigns) && i < |campaigns| && Qualifies(campaigns[i]) && campaigns[i].startAt.None?
    requires PublishedTo(rows, campaigns[i], published) && SyncedTo(published, campaigns, after)
    ensures Lookup(published, Window(campaigns[i].id)) == Lookup(rows, Window(campaigns[i].id))
    ensures Window(campaigns[i].id) in after ==> after[Window(campaigns[i].id)].status == Cancelled
  {
    var k := Window(campaigns[i].id);
    assert Lookup(published, k) == PublishEffect(Lookup(rows, k), campaigns[i], k);
    assert Lookup(after, k) == SyncEffect(Lookup(published, k), campaigns, k);
    WantedFromOwner(campaigns, |campaigns|, i, k);
  }

  /** A row shows the tier of the campaign's present visibility exactly when it is new or was
      created under that tier: an upsert never moves an existing row to another tier. */
  lemma TierIsFixedAtCreation(rows: Rows, campaigns: seq<Campaign>, i: nat, after: Rows, k: Key)
    requires WellKeyed(campaigns) && i < |campaigns| && MayShow(campaigns[i])
    requires exists content :: ShowsUnder(campaigns[i], k, content)
    requires SyncedTo(rows, campaigns, after)
    ensures k in after
    ensures IsTier(campaigns[i].visibility, after[k].tier) <==> k !in rows || IsTier(campaigns[i].visibility, rows[k].tier)
  {
    var content :| ShowsUnder(campaigns[i], k, content);
    RowsShowCampaign(rows, campaigns, after, i, k, content);
  }
}
