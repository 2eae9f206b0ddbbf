/**
 * Media mentions (press clippings, reviews, interviews, obituaries) and the
 * link tables tying a mention to members, activities and media items.
 */
module MediaMentionService {
  import opened Wrappers
  import opened Text
  import opened Ordering
  import opened Tables
  import opened Models
  import opened Store

  const RequiredFieldsMessage: string := "source and title are required"
  const MemberLinkMessage: string := "Mention or member not found"
  const ActivityLinkMessage: string := "Mention or activity not found"
  const MediaItemLinkMessage: string := "Mention or media item not found"
  const DuplicateMemberLinkMessage: string := "UNIQUE constraint failed: mention_member.mention_id, mention_member.member_id"
  const DuplicateActivityLinkMessage: string := "UNIQUE constraint failed: mention_activity.mention_id, mention_activity.activity_id"
  const DuplicateMediaItemLinkMessage: string := "UNIQUE constraint failed: mention_media_item.mention_id, mention_media_item.media_item_id"
  /** The page size of `list_media_mentions` when none is given. */
  const DefaultMentionPageSize: int := 50
  /** The limit of the `find_mentions_for_*` searches when none is given. */
  const DefaultSearchLimit: int := 20

  /** The idiom `x.strip().lower() if x else None` for the media type. */
  function MentionTypeOf(mediaType: Option<string>): (r: Option<string>)
    ensures r.Some? <==> Truthy(mediaType)
    ensures r.Some? ==> r.value == PyLower(Strip(mediaType.value))
  {
    if Truthy(mediaType) then Some(PyLower(Strip(mediaType.value))) else None
  }

  // ---------------------------------------------------------------------------
  // create_media_mention, get_media_mention

  /**
   * The row `create_media_mention` adds: a ValueError when the source or the
   * title is empty; otherwise both stripped, the URL stripped or NULL, the
   * media type normalised or NULL, and a fresh id.
   */
  function NewMention(
    mentions: seq<MediaMention>, date: Option<Date>, source: string, title: string, url: Option<string>,
    mediaType: Option<string>, description: Option<string>, notes: Option<string>): (r: Result<MediaMention, ServiceError>)
    ensures r.Failure? <==> source == "" || title == ""
    ensures r.Failure? ==> r.error == ValueError(RequiredFieldsMessage)
    ensures r.Success? ==>
      !HasKey(mentions, MentionKey, r.value.id) && r.value.date == date
      && r.value.source == Some(Strip(source)) && r.value.title == Some(Strip(title))
      && r.value.url == StripOrNone(url) && r.value.mediaType == MentionTypeOf(mediaType)
      && r.value.description == description && r.value.notes == notes
  {
    if source == "" || title == "" then Failure(ValueError(RequiredFieldsMessage))
    else
      NextIdFresh(mentions, MentionKey);
      Success(MediaMention(NextId(mentions, MentionKey), date, Some(Strip(source)), Some(Strip(title)),
        StripOrNone(url), MentionTypeOf(mediaType), description, notes))
  }

  /** `MediaMentionService.create_media_mention`. */
  method CreateMediaMention(
    db: Database, date: Option<Date>, source: string, title: string, url: Option<string>, mediaType: Option<string>,
    description: Option<string>, notes: Option<string>) returns (r: Result<MediaMention, ServiceError>)
    requires db.Valid()
    modifies db`mentions
    ensures db.Valid()
    ensures r == NewMention(old(db.mentions), date, source, title, url, mediaType, description, notes)
    ensures db.mentions == if r.Success? then old(db.mentions) + [r.value] else old(db.mentions)
  {
    r := NewMention(db.mentions, date, source, title, url, mediaType, description, notes);
    if r.Success? {
      AppendUnique(db.mentions, MentionKey, r.value);
      db.mentions := db.mentions + [r.value];
    }
  }

  /** `MediaMentionService.get_media_mention`. */
  function GetMediaMention(mentions: seq<MediaMention>, id: int): (r: Option<MediaMention>)
    ensures r.Some? <==> HasKey(mentions, MentionKey, id)
    ensures r.Some? ==> r.value in mentions && r.value.id == id
  {
    Get(mentions, MentionKey, id)
  }

  /** A mention created and then looked up by its id is the one created. */
  lemma CreateThenGetMention(
    mentions: seq<MediaMention>, date: Option<Date>, source: string, title: string, url: Option<string>,
    mediaType: Option<string>, description: Option<string>, notes: Option<string>)
    requires Unique(mentions, MentionKey)
    requires NewMention(mentions, date, source, title, url, mediaType, description, notes).Success?
    ensures var m := NewMention(mentions, date, source, title, url, mediaType, description, notes).value;
      GetMediaMention(mentions + [m], m.id) == Some(m)
  {
    var m := NewMention(mentions, date, source, title, url, mediaType, description, notes).value;
    AppendUnique(mentions, MentionKey, m);
    GetUnique(mentions + [m], MentionKey, m);
  }

  // ---------------------------------------------------------------------------
  // list_media_mentions

  /**
   * The WHERE clause of `list_media_mentions`: the date bounds (a NULL date
   * fails a comparison), ILIKE on the source when a truthy fragment is given,
   * and the lowercased type when a truthy one is given.
   */
  predicate MentionMatches(
    m: MediaMention, from: Option<Date>, to: Option<Date>, sourceContains: Option<string>, mediaType: Option<string>)
  {
    (from.Some? ==> m.date.Some? && DateOrdinal(m.date.value) >= DateOrdinal(from.value))
    && (to.Some? ==> m.date.Some? && DateOrdinal(m.date.value) <= DateOrdinal(to.value))
    && (Truthy(sourceContains) ==> m.source.Some? && ILike(m.source.value, sourceContains.value))
    && (Truthy(mediaType) ==> m.mediaType == Some(PyLower(mediaType.value)))
  }

  function MentionFilter(
    from: Option<Date>, to: Option<Date>, sourceContains: Option<string>, mediaType: Option<string>): MediaMention -> bool
  {
    (m: MediaMention) => MentionMatches(m, from, to, sourceContains, mediaType)
  }

  /** ORDER BY mention_date DESC NULLS LAST, title. */
  function MentionOrder(m: MediaMention): Key {
    [Desc(DateValue(m.date)), Asc(OptText(m.title))]
  }

  /** `MediaMentionService.list_media_mentions`. */
  function ListMediaMentions(
    mentions: seq<MediaMention>, from: Option<Date>, to: Option<Date>, sourceContains: Option<string>,
    mediaType: Option<string>, limit: int, offset: int): seq<MediaMention>
  {
    Query(mentions, MentionFilter(from, to, sourceContains, mediaType), MentionOrder, limit, offset)
  }

  /**
   * The listing holds only matching mentions, latest first, undated mentions
   * after every dated one, at most `limit` of them; unpaged it holds every
   * matching mention.
   */
  lemma ListMediaMentionsSpec(
    mentions: seq<MediaMention>, from: Option<Date>, to: Option<Date>, sourceContains: Option<string>,
    mediaType: Option<string>, limit: int, offset: int)
    ensures forall m :: m in ListMediaMentions(mentions, from, to, sourceContains, mediaType, limit, offset) ==>
      m in mentions && MentionMatches(m, from, to, sourceContains, mediaType)
    ensures var s := ListMediaMentions(mentions, from, to, sourceContains, mediaType, limit, offset);
      forall i, j :: 0 <= i < j < |s| ==>
        (s[i].date.None? ==> s[j].date.None?)
        && (s[i].date.Some? && s[j].date.Some? ==> DateOrdinal(s[i].date.value) >= DateOrdinal(s[j].date.value))
    ensures limit >= 0 ==> |ListMediaMentions(mentions, from, to, sourceContains, mediaType, limit, offset)| <= limit
    ensures limit < 0 && offset <= 0 ==> forall m ::
      m in mentions && MentionMatches(m, from, to, sourceContains, mediaType) ==>
      m in ListMediaMentions(mentions, from, to, sourceContains, mediaType, limit, offset)
  {
    QuerySpec(mentions, MentionFilter(from, to, sourceContains, mediaType), MentionOrder, limit, offset);
    var s := ListMediaMentions(mentions, from, to, sourceContains, mediaType, limit, offset);
    forall i, j | 0 <= i < j < |s|
      ensures s[i].date.None? ==> s[j].date.None?
      ensures s[i].date.Some? && s[j].date.Some? ==> DateOrdinal(s[i].date.value) >= DateOrdinal(s[j].date.value)
    {
      assert KeyLe(MentionOrder(s[i]), MentionOrder(s[j]));
    }
  }

  /** The listing is exactly the page of the ordered matching mentions that starts at the offset. */
  lemma ListMediaMentionsWindow(mentions: seq<MediaMention>, from: Option<Date>, to: Option<Date>, sourceContains: Option<string>,
    mediaType: Option<string>, limit: int, offset: int)
    ensures var f := SortBy(Filter(mentions, MentionFilter(from, to, sourceContains, mediaType)), MentionOrder);
      var st := PageStart(|f|, offset);
      ListMediaMentions(mentions, from, to, sourceContains, mediaType, limit, offset) == f[st..st + PageLength(|f|, limit, offset)]
  {
    QueryWindow(mentions, MentionFilter(from, to, sourceContains, mediaType), MentionOrder, limit, offset);
  }

  /** With a date range, undated mentions are never listed. */
  lemma ListMediaMentionsDatedOnly(
    mentions: seq<MediaMention>, from: Option<Date>, to: Option<Date>, sourceContains: Option<string>,
    mediaType: Option<string>, limit: int, offset: int)
    requires from.Some? || to.Some?
    ensures forall m :: m in ListMediaMentions(mentions, from, to, sourceContains, mediaType, limit, offset) ==> m.date.Some?
  {
    ListMediaMentionsSpec(mentions, from, to, sourceContains, mediaType, limit, offset);
  }

  // ---------------------------------------------------------------------------
  // update_media_mention

  /** The `values` dictionary of `update_media_mention`; URL and type hold the value to store. */
  datatype MentionValues = MentionValues(
    date: Option<Date>,
    source: Option<string>,
    title: Option<string>,
    url: Option<Option<string>>,
    mediaType: Option<Option<string>>,
    description: Option<string>,
    notes: Option<string>)

  /** The dictionary built from the arguments: source and title stripped, URL and type normalised or NULL. */
  function MentionValuesOf(
    date: Option<Date>, source: Option<string>, title: Option<string>, url: Option<string>, mediaType: Option<string>,
    description: Option<string>, notes: Option<string>): (v: MentionValues)
    ensures v.date == date && v.description == description && v.notes == notes
    ensures v.source == (if source.Some? then Some(Strip(source.value)) else None)
    ensures v.title == (if title.Some? then Some(Strip(title.value)) else None)
    ensures v.url.Some? == url.Some? && v.mediaType.Some? == mediaType.Some?
    ensures url.Some? ==> v.url.value == (if url.value == "" then None else Some(Strip(url.value)))
    ensures mediaType.Some? ==> v.mediaType.value == MentionTypeOf(mediaType)
  {
    MentionValues(date,
      if source.Some? then Some(Strip(source.value)) else None,
      if title.Some? then Some(Strip(title.value)) else None,
      if url.Some? then Some(StripOrNone(url)) else None,
      if mediaType.Some? then Some(MentionTypeOf(mediaType)) else None,
      description, notes)
  }

  predicate NoMentionValues(v: MentionValues) {
    v.date.None? && v.source.None? && v.title.None? && v.url.None? && v.mediaType.None?
    && v.description.None? && v.notes.None?
  }

  function ApplyMentionValues(m: MediaMention, v: MentionValues): (r: MediaMention)
    ensures r.id == m.id
    ensures NoMentionValues(v) ==> r == m
    ensures r.date == (if v.date.Some? then v.date else m.date)
    ensures r.source == (if v.source.Some? then v.source else m.source)
    ensures r.title == (if v.title.Some? then v.title else m.title)
    ensures r.url == v.url.GetOr(m.url) && r.mediaType == v.mediaType.GetOr(m.mediaType)
    ensures r.description == (if v.description.Some? then v.description else m.description)
    ensures r.notes == (if v.notes.Some? then v.notes else m.notes)
  {
    MediaMention(m.id,
      if v.date.Some? then v.date else m.date,
      if v.source.Some? then v.source else m.source,
      if v.title.Some? then v.title else m.title,
      v.url.GetOr(m.url), v.mediaType.GetOr(m.mediaType),
      if v.description.Some? then v.description else m.description,
      if v.notes.Some? then v.notes else m.notes)
  }

  /** Applying the same values twice is applying them once. */
  lemma ApplyMentionValuesIdempotent(m: MediaMention, v: MentionValues)
    ensures ApplyMentionValues(ApplyMentionValues(m, v), v) == ApplyMentionValues(m, v)
  {
  }

  /** What `update_media_mention` returns. */
  function UpdateMentionIn(mentions: seq<MediaMention>, id: int, v: MentionValues): (r: Option<MediaMention>)
    ensures r.Some? <==> !NoMentionValues(v) && HasKey(mentions, MentionKey, id)
    ensures r.Some? ==> r.value == ApplyMentionValues(GetMediaMention(mentions, id).value, v)
  {
    if NoMentionValues(v) then None
    else
      var m := GetMediaMention(mentions, id);
      if m.None? then None else Some(ApplyMentionValues(m.value, v))
  }

  /** An empty URL or type clears the column; with no arguments the call returns None. */
  lemma UpdateMentionClears(mentions: seq<MediaMention>, id: int)
    requires HasKey(mentions, MentionKey, id)
    ensures UpdateMentionIn(mentions, id, MentionValuesOf(None, None, None, Some(""), Some(""), None, None)).value.url.None?
    ensures UpdateMentionIn(mentions, id, MentionValuesOf(None, None, None, Some(""), Some(""), None, None)).value.mediaType.None?
    ensures UpdateMentionIn(mentions, id, MentionValuesOf(None, None, None, None, None, None, None)).None?
  {
  }

  /** `MediaMentionService.update_media_mention`. */
  method UpdateMediaMention(db: Database, id: int, v: MentionValues) returns (r: Option<MediaMention>)
    requires db.Valid()
    modifies db`mentions
    ensures db.Valid()
    ensures r == UpdateMentionIn(old(db.mentions), id, v)
    ensures r.None? ==> db.mentions == old(db.mentions)
    ensures r.Some? ==> db.mentions == old(db.mentions)[IndexOfKey(old(db.mentions), MentionKey, id).value := r.value]
  {
    if NoMentionValues(v) {
      return None;
    }
    var i := IndexOfKey(db.mentions, MentionKey, id);
    if i.None? {
      return None;
    }
    var updated := ApplyMentionValues(db.mentions[i.value], v);
    UpdateUnique(db.mentions, MentionKey, i.value, updated);
    db.mentions := db.mentions[i.value := updated];
    return Some(updated);
  }

  // ---------------------------------------------------------------------------
  // delete_media_mention

  /** The WHERE clause keeping the link rows that do not refer to mention `id`. */
  function KeepMemberLink(id: int): MentionMember -> bool {
    (l: MentionMember) => l.mentionId != id
  }

  function KeepActivityLink(id: int): MentionActivity -> bool {
    (l: MentionActivity) => l.mentionId != id
  }

  function KeepMediaItemLink(id: int): MentionMediaItem -> bool {
    (l: MentionMediaItem) => l.mentionId != id
  }

  /** The link rows that do not refer to mention `id`. */
  function MemberLinksWithout(links: seq<MentionMember>, id: int): (r: seq<MentionMember>)
    ensures forall l :: l in r <==> l in links && l.mentionId != id
  {
    Filter(links, KeepMemberLink(id))
  }

  function ActivityLinksWithout(links: seq<MentionActivity>, id: int): (r: seq<MentionActivity>)
    ensures forall l :: l in r <==> l in links && l.mentionId != id
  {
    Filter(links, KeepActivityLink(id))
  }

  function MediaItemLinksWithout(links: seq<MentionMediaItem>, id: int): (r: seq<MentionMediaItem>)
    ensures forall l :: l in r <==> l in links && l.mentionId != id
  {
    Filter(links, KeepMediaItemLink(id))
  }

  /**
   * `delete_media_mention` as written: a bulk DELETE on the mention table only.
   * The delete-orphan cascade of the mapping applies to `session.delete`, not
   * to a bulk statement, and SQLite does not enforce the foreign keys, so the
   * link rows of the mention stay.
   */
  function DeleteMentionAsWritten(mentions: seq<MediaMention>, memberLinks: seq<MentionMember>, id: int):
    (r: (seq<MediaMention>, seq<MentionMember>))
    ensures r.1 == memberLinks
    ensures forall m :: m in r.0 <==> m in mentions && m.id != id
  {
    (RemoveKey(mentions, MentionKey, id), memberLinks)
  }

  /** Deleting a linked mention as written leaves a link to a mention that no longer exists. */
  lemma DeleteMentionAsWrittenOrphansLinks()
    ensures var mention := MediaMention(1, None, Some("Krant"), Some("Recensie"), None, None, None, None);
      var link := MentionMember(1, "m", None, None);
      var after := DeleteMentionAsWritten([mention], [link], 1);
      link in after.1 && !HasKey(after.0, MentionKey, link.mentionId)
  {
  }

  /** `delete_media_mention` with the cascade the mapping declares: the mention and all its link rows go. */
  method DeleteMediaMention(db: Database, id: int) returns (removed: bool)
    requires db.Valid()
    modifies db`mentions, db`mentionMembers, db`mentionActivities, db`mentionMediaItems
    ensures db.Valid()
    ensures removed <==> HasKey(old(db.mentions), MentionKey, id)
    ensures db.mentions == RemoveKey(old(db.mentions), MentionKey, id)
    ensures db.mentionMembers == MemberLinksWithout(old(db.mentionMembers), id)
    ensures db.mentionActivities == ActivityLinksWithout(old(db.mentionActivities), id)
    ensures db.mentionMediaItems == MediaItemLinksWithout(old(db.mentionMediaItems), id)
  {
    removed := HasKey(db.mentions, MentionKey, id);
    RemoveKeyUnique(db.mentions, MentionKey, id);
    db.mentions := RemoveKey(db.mentions, MentionKey, id);
    DeleteMemberLinks(db, id);
    DeleteActivityLinks(db, id);
    DeleteMediaItemLinks(db, id);
  }

  /** The cascade on `mentioned_members`. */
  method DeleteMemberLinks(db: Database, id: int)
    requires db.Valid()
    modifies db`mentionMembers
    ensures db.Valid()
    ensures db.mentionMembers == MemberLinksWithout(old(db.mentionMembers), id)
  {
    FilterUnique(db.mentionMembers, MentionMemberKey, KeepMemberLink(id));
    db.mentionMembers := MemberLinksWithout(db.mentionMembers, id);
  }

  /** The cascade on `mentioned_activities`. */
  method DeleteActivityLinks(db: Database, id: int)
    requires db.Valid()
    modifies db`mentionActivities
    ensures db.Valid()
    ensures db.mentionActivities == ActivityLinksWithout(old(db.mentionActivities), id)
  {
    FilterUnique(db.mentionActivities, MentionActivityKey, KeepActivityLink(id));
    db.mentionActivities := ActivityLinksWithout(db.mentionActivities, id);
  }

  /** The cascade on `referenced_media_items`. */
  method DeleteMediaItemLinks(db: Database, id: int)
    requires db.Valid()
    modifies db`mentionMediaItems
    ensures db.Valid()
    ensures db.mentionMediaItems == MediaItemLinksWithout(old(db.mentionMediaItems), id)
  {
    FilterUnique(db.mentionMediaItems, MentionMediaItemKey, KeepMediaItemLink(id));
    db.mentionMediaItems := MediaItemLinksWithout(db.mentionMediaItems, id);
  }

  /** After the corrected delete no link of the member table refers to the deleted mention. */
  lemma DeleteMentionLeavesNoOrphans(links: seq<MentionMember>, id: int)
    ensures forall l :: l in MemberLinksWithout(links, id) ==> l.mentionId != id
    ensures forall l :: l in links && l.mentionId != id ==> l in MemberLinksWithout(links, id)
  {
  }

  // ---------------------------------------------------------------------------
  // find_mentions_for_member, find_mentions_for_activity

  /** `column ILIKE '%fragment%'` on a nullable column: a NULL never matches. */
  predicate OptILike(value: Option<string>, fragment: string) {
    value.Some? && ILike(value.value, fragment)
  }

  /** The WHERE clause of `find_mentions_for_member`: the id in the description or the source. */
  function MemberTextFilter(memberId: string): MediaMention -> bool {
    (m: MediaMention) => OptILike(m.description, memberId) || OptILike(m.source, memberId)
  }

  /** The WHERE clause of `find_mentions_for_activity`: the id in the description. */
  function ActivityTextFilter(activityId: string): MediaMention -> bool {
    (m: MediaMention) => OptILike(m.description, activityId)
  }

  /**
   * `MediaMentionService.find_mentions_for_member`: a text search in description
   * or source, in table order; the result is the first `limit` matches, or all
   * of them when the limit is negative.
   */
  function FindMentionsForMember(mentions: seq<MediaMention>, memberId: string, limit: int): (r: seq<MediaMention>)
    ensures forall m :: m in r ==> m in mentions && (OptILike(m.description, memberId) || OptILike(m.source, memberId))
    ensures limit >= 0 ==> |r| <= limit
    ensures limit < 0 ==> forall m ::
      m in mentions && (OptILike(m.description, memberId) || OptILike(m.source, memberId)) ==> m in r
    ensures var found := Filter(mentions, MemberTextFilter(memberId));
      r == found[..PageLength(|found|, limit, 0)]
  {
    var found := Filter(mentions, MemberTextFilter(memberId));
    PageSubset(found, limit, 0);
    assert limit < 0 ==> Page(found, limit, 0) == found by {
      if limit < 0 {
        PageAll(found, limit, 0);
      }
    }
    Page(found, limit, 0)
  }

  /**
   * `MediaMentionService.find_mentions_for_activity`: a text search in the
   * description, in table order; the first `limit` matches, or all of them when
   * the limit is negative.
   */
  function FindMentionsForActivity(mentions: seq<MediaMention>, activityId: string, limit: int): (r: seq<MediaMention>)
    ensures forall m :: m in r ==> m in mentions && OptILike(m.description, activityId)
    ensures limit >= 0 ==> |r| <= limit
    ensures limit < 0 ==> forall m :: m in mentions && OptILike(m.description, activityId) ==> m in r
    ensures var found := Filter(mentions, ActivityTextFilter(activityId));
      r == found[..PageLength(|found|, limit, 0)]
  {
    var found := Filter(mentions, ActivityTextFilter(activityId));
    PageSubset(found, limit, 0);
    assert limit < 0 ==> Page(found, limit, 0) == found by {
      if limit < 0 {
        PageAll(found, limit, 0);
      }
    }
    Page(found, limit, 0)
  }

  /** A member id that occurs in a mention's source, in any letter case, finds it when there is no limit. */
  lemma FindMentionsBySource(mentions: seq<MediaMention>, m: MediaMention)
    requires m in mentions && m.source.Some?
    ensures m in FindMentionsForMember(mentions, m.source.value, -1)
  {
    ILikeSelf(m.source.value);
  }

  // ---------------------------------------------------------------------------
  // link_member_to_mention, link_activity_to_mention, link_media_item_to_mention

  /**
   * `link_member_to_mention`: a ValueError when the mention or the member is
   * missing, the primary-key violation when the pair is already linked,
   * otherwise the new link row.
   */
  function NewMemberLink(
    mentions: seq<MediaMention>, members: seq<Member>, links: seq<MentionMember>, mentionId: int, memberId: string,
    roleContext: Option<string>, notes: Option<string>): (r: Result<MentionMember, ServiceError>)
    ensures !HasKey(mentions, MentionKey, mentionId) || !HasKey(members, MemberKey, memberId) ==>
      r == Failure(ValueError(MemberLinkMessage))
    ensures r.Success? <==>
      HasKey(mentions, MentionKey, mentionId) && HasKey(members, MemberKey, memberId)
      && !HasKey(links, MentionMemberKey, (mentionId, memberId))
    ensures r.Success? ==> r.value == MentionMember(mentionId, memberId, roleContext, notes)
  {
    if !HasKey(mentions, MentionKey, mentionId) || !HasKey(members, MemberKey, memberId) then
      Failure(ValueError(MemberLinkMessage))
    else if HasKey(links, MentionMemberKey, (mentionId, memberId)) then Failure(IntegrityError(DuplicateMemberLinkMessage))
    else Success(MentionMember(mentionId, memberId, roleContext, notes))
  }

  method LinkMemberToMention(db: Database, mentionId: int, memberId: string, roleContext: Option<string>,
    notes: Option<string>) returns (r: Result<MentionMember, ServiceError>)
    requires db.Valid()
    modifies db`mentionMembers
    ensures db.Valid()
    ensures r == NewMemberLink(db.mentions, db.members, old(db.mentionMembers), mentionId, memberId, roleContext, notes)
    ensures db.mentionMembers == if r.Success? then old(db.mentionMembers) + [r.value] else old(db.mentionMembers)
  {
    r := NewMemberLink(db.mentions, db.members, db.mentionMembers, mentionId, memberId, roleContext, notes);
    if r.Success? {
      AppendUnique(db.mentionMembers, MentionMemberKey, r.value);
      db.mentionMembers := db.mentionMembers + [r.value];
    }
  }

  /** `link_activity_to_mention`, as `NewMemberLink` for an activity. */
  function NewActivityLink(
    mentions: seq<MediaMention>, activities: seq<Activity>, links: seq<MentionActivity>, mentionId: int,
    activityId: string, relevance: Option<string>, notes: Option<string>): (r: Result<MentionActivity, ServiceError>)
    ensures !HasKey(mentions, MentionKey, mentionId) || !HasKey(activities, ActivityKey, activityId) ==>
      r == Failure(ValueError(ActivityLinkMessage))
    ensures r.Success? <==>
      HasKey(mentions, MentionKey, mentionId) && HasKey(activities, ActivityKey, activityId)
      && !HasKey(links, MentionActivityKey, (mentionId, activityId))
    ensures r.Success? ==> r.value == MentionActivity(mentionId, activityId, relevance, notes)
  {
    if !HasKey(mentions, MentionKey, mentionId) || !HasKey(activities, ActivityKey, activityId) then
      Failure(ValueError(ActivityLinkMessage))
    else if HasKey(links, MentionActivityKey, (mentionId, activityId)) then
      Failure(IntegrityError(DuplicateActivityLinkMessage))
    else Success(MentionActivity(mentionId, activityId, relevance, notes))
  }

  method LinkActivityToMention(db: Database, mentionId: int, activityId: string, relevance: Option<string>,
    notes: Option<string>) returns (r: Result<MentionActivity, ServiceError>)
    requires db.Valid()
    modifies db`mentionActivities
    ensures db.Valid()
    ensures r == NewActivityLink(db.mentions, db.activities, old(db.mentionActivities), mentionId, activityId,
      relevance, notes)
    ensures db.mentionActivities == if r.Success? then old(db.mentionActivities) + [r.value] else old(db.mentionActivities)
  {
    r := NewActivityLink(db.mentions, db.activities, db.mentionActivities, mentionId, activityId, relevance, notes);
    if r.Success? {
      AppendUnique(db.mentionActivities, MentionActivityKey, r.value);
      db.mentionActivities := db.mentionActivities + [r.value];
    }
  }

  /** `link_media_item_to_mention`, as `NewMemberLink` for a media item. */
  function NewMediaItemLink(
    mentions: seq<MediaMention>, items: seq<MediaItem>, links: seq<MentionMediaItem>, mentionId: int,
    mediaItemId: int, pageNumber: Option<int>, notes: Option<string>): (r: Result<MentionMediaItem, ServiceError>)
    ensures !HasKey(mentions, MentionKey, mentionId) || !HasKey(items, MediaItemKey, mediaItemId) ==>
      r == Failure(ValueError(MediaItemLinkMessage))
    ensures r.Success? <==>
      HasKey(mentions, MentionKey, mentionId) && HasKey(items, MediaItemKey, mediaItemId)
      && !HasKey(links, MentionMediaItemKey, (mentionId, mediaItemId))
    ensures r.Success? ==> r.value == MentionMediaItem(mentionId, mediaItemId, pageNumber, notes)
  {
    if !HasKey(mentions, MentionKey, mentionId) || !HasKey(items, MediaItemKey, mediaItemId) then
      Failure(ValueError(MediaItemLinkMessage))
    else if HasKey(links, MentionMediaItemKey, (mentionId, mediaItemId)) then
      Failure(IntegrityError(DuplicateMediaItemLinkMessage))
    else Success(MentionMediaItem(mentionId, mediaItemId, pageNumber, notes))
  }

  method LinkMediaItemToMention(db: Database, mentionId: int, mediaItemId: int, pageNumber: Option<int>,
    notes: Option<string>) returns (r: Result<MentionMediaItem, ServiceError>)
    requires db.Valid()
    modifies db`mentionMediaItems
    ensures db.Valid()
    ensures r == NewMediaItemLink(db.mentions, db.mediaItems, old(db.mentionMediaItems), mentionId, mediaItemId,
      pageNumber, notes)
    ensures db.mentionMediaItems == if r.Success? then old(db.mentionMediaItems) + [r.value] else old(db.mentionMediaItems)
  {
    r := NewMediaItemLink(db.mentions, db.mediaItems, db.mentionMediaItems, mentionId, mediaItemId, pageNumber, notes);
    if r.Success? {
      AppendUnique(db.mentionMediaItems, MentionMediaItemKey, r.value);
      db.mentionMediaItems := db.mentionMediaItems + [r.value];
    }
  }

  /** Linking a pair twice fails the second time, so a mention and a member are linked at most once. */
  lemma MemberLinkAtMostOnce(
    mentions: seq<MediaMention>, members: seq<Member>, links: seq<MentionMember>, mentionId: int, memberId: string,
    roleContext: Option<string>, notes: Option<string>, again: Option<string>)
    requires NewMemberLink(mentions, members, links, mentionId, memberId, roleContext, notes).Success?
    ensures var l := NewMemberLink(mentions, members, links, mentionId, memberId, roleContext, notes).value;
      NewMemberLink(mentions, members, links + [l], mentionId, memberId, again, notes)
        == Failure(IntegrityError(DuplicateMemberLinkMessage))
  {
    var l := NewMemberLink(mentions, members, links, mentionId, memberId, roleContext, notes).value;
    assert MentionMemberKey((links + [l])[|links|]) == (mentionId, memberId);
  }
}
