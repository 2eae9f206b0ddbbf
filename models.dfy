/**
 * The records of the archive's schema, one datatype per table. Nullable columns
 * are `Option`s and NOT NULL columns plain values, except the three nullable
 * integer columns with a default (`display_priority` of name history and
 * `display_order` of media items and appearances), which are plain `int`s
 * because every writer stores a value. Each table also gets its primary-key
 * function and each column default its constant.
 */
module Models {
  import opened Wrappers
  import Ordering

  /** A calendar date (`datetime.date`). */
  datatype Date = Date(year: int, month: int, day: int)

  /**
   * SQLite stores a date as its ISO text `YYYY-MM-DD` and compares those texts;
   * for four-digit years and valid months and days that is the order of this number.
   */
  function DateOrdinal(d: Date): int {
    d.year * 10000 + d.month * 100 + d.day
  }

  /** A nullable date column as a sort value. */
  function DateValue(d: Option<Date>): Ordering.Value {
    match d
    case None => Ordering.Null
    case Some(x) => Ordering.Int(DateOrdinal(x))
  }

  // ---------------------------------------------------------------------------
  // Tables

  /** `member`: keyed by `id_member`; `gdpr_permission` is NOT NULL, 1 meaning visible. */
  datatype Member = Member(
    id: string,
    firstName: string,
    lastName: string,
    birthDate: Option<Date>,
    gdprPermission: int,
    notes: Option<string>)

  /** `member_name_history`: an earlier or alternative name of a member. */
  datatype NameHistory = NameHistory(
    id: int,
    memberId: string,
    firstName: string,
    lastName: string,
    validFrom: Option<Date>,
    validTo: Option<Date>,
    changeReason: Option<string>,
    source: Option<string>,
    displayPriority: int,
    notes: Option<string>)

  /** `membership_period`. */
  datatype MembershipPeriod = MembershipPeriod(
    id: int,
    memberId: string,
    joinDate: Option<Date>,
    leaveDate: Option<Date>,
    status: Option<string>,
    notes: Option<string>)

  /** `activity`: a performance, event or meeting; `kind` is the `type` column. */
  datatype Activity = Activity(
    id: string,
    title: string,
    kind: string,
    startDate: Option<Date>,
    endDate: Option<Date>,
    year: Option<int>,
    author: Option<string>,
    director: Option<string>,
    folder: Option<string>,
    description: Option<string>)

  /** `location`. */
  datatype Location = Location(
    id: string,
    name: string,
    address: Option<string>,
    city: Option<string>,
    country: Option<string>,
    venueType: Option<string>,
    coordinates: Option<string>)

  /** `activity_location`: keyed by the pair. */
  datatype ActivityLocation = ActivityLocation(activityId: string, locationId: string)

  /** `role`: activity and member are NOT NULL, the role name is nullable. */
  datatype Role = Role(
    id: int,
    activityId: string,
    memberId: string,
    roleName: Option<string>,
    characterName: Option<string>,
    roleType: Option<string>,
    notes: Option<string>)

  /** `media_type`: the lookup table of media type codes. */
  datatype MediaType = MediaType(code: string, description: Option<string>)

  /** `media_item`: filename and type are NOT NULL; the type references a media type code. */
  datatype MediaItem = MediaItem(
    id: int,
    activityId: string,
    filename: string,
    typeMedia: string,
    fileExtension: Option<string>,
    storagePath: Option<string>,
    captureDate: Option<Date>,
    caption: Option<string>,
    credit: Option<string>,
    displayOrder: int)

  /** `media_appearance`: media item, member and activity are NOT NULL, the role is optional. */
  datatype MediaAppearance = MediaAppearance(
    id: int,
    mediaId: int,
    memberId: string,
    roleId: Option<int>,
    activityId: string,
    context: Option<string>,
    displayOrder: int,
    notes: Option<string>)

  /** `media_mention`: a press clipping, review, report or other mention. */
  datatype MediaMention = MediaMention(
    id: int,
    date: Option<Date>,
    source: Option<string>,
    title: Option<string>,
    url: Option<string>,
    mediaType: Option<string>,
    description: Option<string>,
    notes: Option<string>)

  /** `mention_member`: keyed by the pair. */
  datatype MentionMember = MentionMember(
    mentionId: int, memberId: string, roleContext: Option<string>, notes: Option<string>)

  /** `mention_activity`: keyed by the pair. */
  datatype MentionActivity = MentionActivity(
    mentionId: int, activityId: string, relevance: Option<string>, notes: Option<string>)

  /** `mention_media_item`: keyed by the pair. */
  datatype MentionMediaItem = MentionMediaItem(
    mentionId: int, mediaItemId: int, pageNumber: Option<int>, notes: Option<string>)

  // ---------------------------------------------------------------------------
  // Column defaults

  /** `member.gdpr_permission` defaults to 1 (visible). */
  const DefaultGdprPermission: int := 1
  /** `member_name_history.display_priority` defaults to 10. */
  const DefaultDisplayPriority: int := 10
  /** `media_item.display_order` and `media_appearance.display_order` default to 0. */
  const DefaultDisplayOrder: int := 0
  /** The activity type when none is given. */
  const DefaultActivityType: string := "Uitvoering"

  // ---------------------------------------------------------------------------
  // Primary keys

  function MemberKey(m: Member): string { m.id }
  function NameHistoryKey(h: NameHistory): int { h.id }
  function PeriodKey(p: MembershipPeriod): int { p.id }
  function ActivityKey(a: Activity): string { a.id }
  function LocationKey(l: Location): string { l.id }
  function ActivityLocationKey(l: ActivityLocation): (string, string) { (l.activityId, l.locationId) }
  function RoleKey(r: Role): int { r.id }
  function MediaTypeKey(t: MediaType): string { t.code }
  function MediaItemKey(m: MediaItem): int { m.id }
  function AppearanceKey(a: MediaAppearance): int { a.id }
  function MentionKey(m: MediaMention): int { m.id }
  function MentionMemberKey(l: MentionMember): (int, string) { (l.mentionId, l.memberId) }
  function MentionActivityKey(l: MentionActivity): (int, string) { (l.mentionId, l.activityId) }
  function MentionMediaItemKey(l: MentionMediaItem): (int, int) { (l.mentionId, l.mediaItemId) }

  /** ORDER BY role_name: SQLite sorts the roles without a name first. */
  function RoleNameOrder(r: Role): Ordering.Key {
    [Ordering.Asc(Ordering.OptText(r.roleName))]
  }

  // ---------------------------------------------------------------------------
  // Errors

  /** The exceptions a service call can raise. */
  datatype ServiceError =
    | ValueError(message: string)
    | IntegrityError(message: string)
    | TypeError(message: string)
    | AttributeError(message: string)
}
