/**
 * Media: the media type lookup table, media items (photos, videos, posters,
 * programmes) of an activity, and appearances linking members and their roles
 * to a media item.
 */
module MediaService {
  import opened Wrappers
  import opened Text
  import opened Ordering
  import opened Tables
  import opened Models
  import opened Store

  const RequiredFieldsMessage: string := "id_activity, filename and type_media are required"
  const RoleActivityMismatchMessage: string := "Role does not belong to the same activity as the media item"
  const MissingAppearanceActivityMessage: string := "NOT NULL constraint failed: media_appearance.id_activity"
  /** The page size of `list_media_for_activity` when none is given. */
  const DefaultMediaPageSize: int := 50

  // ---------------------------------------------------------------------------
  // create_or_get_media_type

  /** The normal form of a type code: stripped and lowercased. */
  function TypeCode(typeCode: string): string {
    PyLower(Strip(typeCode))
  }

  /** The description of a new type: the given one when it is truthy, else the capitalised code. */
  function NewTypeDescription(code: string, description: Option<string>): string {
    if Truthy(description) then description.value else Capitalize(code)
  }

  /** The row `create_or_get_media_type` returns: the stored one for the code, or the one it inserts. */
  function MediaTypeFor(types: seq<MediaType>, typeCode: string, description: Option<string>): (r: MediaType)
    ensures r.code == TypeCode(typeCode)
    ensures HasKey(types, MediaTypeKey, TypeCode(typeCode)) ==> r in types
    ensures !HasKey(types, MediaTypeKey, TypeCode(typeCode)) ==>
      r.description == Some(NewTypeDescription(TypeCode(typeCode), description))
  {
    var code := TypeCode(typeCode);
    var existing := Get(types, MediaTypeKey, code);
    if existing.Some? then existing.value else MediaType(code, Some(NewTypeDescription(code, description)))
  }

  /** The media type table after `create_or_get_media_type`: unchanged when the code is known, one row more otherwise. */
  function WithMediaType(types: seq<MediaType>, typeCode: string, description: Option<string>): (r: seq<MediaType>)
    ensures HasKey(r, MediaTypeKey, TypeCode(typeCode))
    ensures HasKey(types, MediaTypeKey, TypeCode(typeCode)) ==> r == types
    ensures !HasKey(types, MediaTypeKey, TypeCode(typeCode)) ==> r == types + [MediaTypeFor(types, typeCode, description)]
    ensures Unique(types, MediaTypeKey) ==> Unique(r, MediaTypeKey)
  {
    if HasKey(types, MediaTypeKey, TypeCode(typeCode)) then types
    else
      var t := MediaTypeFor(types, typeCode, description);
      assert MediaTypeKey((types + [t])[|types|]) == TypeCode(typeCode);
      assert Unique(types, MediaTypeKey) ==> Unique(types + [t], MediaTypeKey) by {
        if Unique(types, MediaTypeKey) {
          AppendUnique(types, MediaTypeKey, t);
        }
      }
      types + [t]
  }

  /** A second call with the same code adds nothing and returns the same row, whatever its description. */
  lemma CreateOrGetMediaTypeIdempotent(
    types: seq<MediaType>, typeCode: string, description: Option<string>, again: Option<string>)
    ensures WithMediaType(WithMediaType(types, typeCode, description), typeCode, again)
      == WithMediaType(types, typeCode, description)
    ensures MediaTypeFor(WithMediaType(types, typeCode, description), typeCode, again)
      == MediaTypeFor(types, typeCode, description)
  {
    var code := TypeCode(typeCode);
    if !HasKey(types, MediaTypeKey, code) {
      var t := MediaTypeFor(types, typeCode, description);
      assert MediaTypeKey((types + [t])[|types|]) == code;
      var i := IndexOfKey(types + [t], MediaTypeKey, code).value;
      assert i == |types|;
    }
  }

  /** `MediaService.create_or_get_media_type`. */
  method CreateOrGetMediaType(db: Database, typeCode: string, description: Option<string>) returns (t: MediaType)
    requires db.Valid()
    modifies db`mediaTypes
    ensures db.Valid()
    ensures t == MediaTypeFor(old(db.mediaTypes), typeCode, description)
    ensures db.mediaTypes == WithMediaType(old(db.mediaTypes), typeCode, description)
  {
    t := MediaTypeFor(db.mediaTypes, typeCode, description);
    db.mediaTypes := WithMediaType(db.mediaTypes, typeCode, description);
  }

  // ---------------------------------------------------------------------------
  // create_media_item, get_media_item, list_media_for_activity

  /** The idiom `x.strip().lower() if x else None` for the file extension. */
  function ExtensionOf(fileExtension: Option<string>): (r: Option<string>)
    ensures r.Some? <==> Truthy(fileExtension)
    ensures r.Some? ==> r.value == PyLower(Strip(fileExtension.value))
  {
    if Truthy(fileExtension) then Some(PyLower(Strip(fileExtension.value))) else None
  }

  /**
   * The row `create_media_item` adds: a ValueError when the activity id, the
   * filename or the type is empty, then one when the activity is missing;
   * otherwise the filename stripped, the type stripped and lowercased, the
   * extension stripped and lowercased or NULL.
   */
  function NewMediaItem(
    activities: seq<Activity>, items: seq<MediaItem>, activityId: string, filename: string, typeMedia: string,
    fileExtension: Option<string>, storagePath: Option<string>, captureDate: Option<Date>, caption: Option<string>,
    credit: Option<string>, displayOrder: int): (r: Result<MediaItem, ServiceError>)
    ensures activityId == "" || filename == "" || typeMedia == "" ==> r == Failure(ValueError(RequiredFieldsMessage))
    ensures activityId != "" && filename != "" && typeMedia != "" && !HasKey(activities, ActivityKey, activityId) ==>
      r == Failure(ValueError("Activity " + activityId + " not found"))
    ensures r.Success? <==>
      activityId != "" && filename != "" && typeMedia != "" && HasKey(activities, ActivityKey, activityId)
    ensures r.Success? ==>
      !HasKey(items, MediaItemKey, r.value.id) && r.value.activityId == activityId
      && r.value.filename == Strip(filename) && r.value.typeMedia == TypeCode(typeMedia)
      && r.value.fileExtension == ExtensionOf(fileExtension) && r.value.displayOrder == displayOrder
    ensures r.Success? ==> r.value.storagePath == storagePath && r.value.captureDate == captureDate
    ensures r.Success? ==> r.value.caption == caption && r.value.credit == credit
  {
    if activityId == "" || filename == "" || typeMedia == "" then Failure(ValueError(RequiredFieldsMessage))
    else if !HasKey(activities, ActivityKey, activityId) then Failure(ValueError("Activity " + activityId + " not found"))
    else
      NextIdFresh(items, MediaItemKey);
      Success(MediaItem(NextId(items, MediaItemKey), activityId, Strip(filename), TypeCode(typeMedia),
        ExtensionOf(fileExtension), storagePath, captureDate, caption, credit, displayOrder))
  }

  /** The type is registered once the required fields are present, before the activity is looked up. */
  function TypesAfterCreate(types: seq<MediaType>, activityId: string, filename: string, typeMedia: string): seq<MediaType> {
    if activityId == "" || filename == "" || typeMedia == "" then types else WithMediaType(types, typeMedia, None)
  }

  /** A created item's type is a row of the media type table, so the foreign key on `type_media` holds. */
  lemma CreatedItemTypeRegistered(
    activities: seq<Activity>, types: seq<MediaType>, items: seq<MediaItem>, activityId: string, filename: string,
    typeMedia: string, fileExtension: Option<string>, storagePath: Option<string>, captureDate: Option<Date>,
    caption: Option<string>, credit: Option<string>, displayOrder: int)
    requires NewMediaItem(activities, items, activityId, filename, typeMedia, fileExtension, storagePath, captureDate,
      caption, credit, displayOrder).Success?
    ensures HasKey(TypesAfterCreate(types, activityId, filename, typeMedia), MediaTypeKey,
      NewMediaItem(activities, items, activityId, filename, typeMedia, fileExtension, storagePath, captureDate,
        caption, credit, displayOrder).value.typeMedia)
  {
  }

  /** `MediaService.create_media_item`. */
  method CreateMediaItem(
    db: Database, activityId: string, filename: string, typeMedia: string, fileExtension: Option<string>,
    storagePath: Option<string>, captureDate: Option<Date>, caption: Option<string>, credit: Option<string>,
    displayOrder: int) returns (r: Result<MediaItem, ServiceError>)
    requires db.Valid()
    modifies db`mediaTypes, db`mediaItems
    ensures db.Valid()
    ensures r == NewMediaItem(db.activities, old(db.mediaItems), activityId, filename, typeMedia, fileExtension,
      storagePath, captureDate, caption, credit, displayOrder)
    ensures db.mediaTypes == TypesAfterCreate(old(db.mediaTypes), activityId, filename, typeMedia)
    ensures db.mediaItems == if r.Success? then old(db.mediaItems) + [r.value] else old(db.mediaItems)
  {
    r := NewMediaItem(db.activities, db.mediaItems, activityId, filename, typeMedia, fileExtension, storagePath,
      captureDate, caption, credit, displayOrder);
    if activityId != "" && filename != "" && typeMedia != "" {
      var _ := CreateOrGetMediaType(db, typeMedia, None);
    }
    if r.Success? {
      AppendUnique(db.mediaItems, MediaItemKey, r.value);
      db.mediaItems := db.mediaItems + [r.value];
    }
  }

  /** `MediaService.get_media_item` (loading the appearances does not change the result). */
  function GetMediaItem(items: seq<MediaItem>, id: int): (r: Option<MediaItem>)
    ensures r.Some? <==> HasKey(items, MediaItemKey, id)
    ensures r.Some? ==> r.value in items && r.value.id == id
  {
    Get(items, MediaItemKey, id)
  }

  /** ORDER BY display_order, filename. */
  function MediaOrder(m: MediaItem): Key {
    [Asc(Int(m.displayOrder)), Asc(Text(m.filename))]
  }

  /** The WHERE clause: the activity, and the lowercased type when it is truthy. */
  function MediaFilter(activityId: string, typeMedia: Option<string>): MediaItem -> bool {
    (m: MediaItem) => m.activityId == activityId && (Truthy(typeMedia) ==> m.typeMedia == PyLower(typeMedia.value))
  }

  /** `MediaService.list_media_for_activity`. */
  function ListMediaForActivity(
    items: seq<MediaItem>, activityId: string, typeMedia: Option<string>, limit: int, offset: int): seq<MediaItem>
  {
    Query(items, MediaFilter(activityId, typeMedia), MediaOrder, limit, offset)
  }

  /**
   * The listing holds only the activity's items of the given type, by display
   * order and then filename (code point order), at most `limit` of them; unpaged it holds all of them.
   */
  lemma ListMediaForActivitySpec(
    items: seq<MediaItem>, activityId: string, typeMedia: Option<string>, limit: int, offset: int)
    ensures forall m :: m in ListMediaForActivity(items, activityId, typeMedia, limit, offset) ==>
      m in items && m.activityId == activityId && (Truthy(typeMedia) ==> m.typeMedia == PyLower(typeMedia.value))
    ensures forall i, j :: 0 <= i < j < |ListMediaForActivity(items, activityId, typeMedia, limit, offset)| ==>
      ListMediaForActivity(items, activityId, typeMedia, limit, offset)[i].displayOrder
        <= ListMediaForActivity(items, activityId, typeMedia, limit, offset)[j].displayOrder
    ensures var s := ListMediaForActivity(items, activityId, typeMedia, limit, offset);
      forall i, j :: 0 <= i < j < |s| && s[i].displayOrder == s[j].displayOrder ==>
        CmpStr(s[i].filename, s[j].filename) <= 0
    ensures limit >= 0 ==> |ListMediaForActivity(items, activityId, typeMedia, limit, offset)| <= limit
    ensures limit < 0 && offset <= 0 ==> forall m ::
      (m in items && m.activityId == activityId && (Truthy(typeMedia) ==> m.typeMedia == PyLower(typeMedia.value))) ==>
      m in ListMediaForActivity(items, activityId, typeMedia, limit, offset)
  {
    QuerySpec(items, MediaFilter(activityId, typeMedia), MediaOrder, limit, offset);
    var s := ListMediaForActivity(items, activityId, typeMedia, limit, offset);
    forall i, j | 0 <= i < j < |s|
      ensures s[i].displayOrder <= s[j].displayOrder
      ensures s[i].displayOrder == s[j].displayOrder ==> CmpStr(s[i].filename, s[j].filename) <= 0
    {
      var a, b := MediaOrder(s[i]), MediaOrder(s[j]);
      assert KeyLe(a, b);
      if s[i].displayOrder == s[j].displayOrder {
        assert CmpPart(a[0], b[0]) == 0;
        assert a[1..][1..] == [] && b[1..][1..] == [];
        assert CmpKey(a, b) == CmpKey(a[1..], b[1..]) == CmpPart(a[1], b[1]);
      }
    }
  }

  /** The listing is exactly the page of the ordered matching items that starts at the offset. */
  lemma ListMediaForActivityWindow(items: seq<MediaItem>, activityId: string, typeMedia: Option<string>, limit: int, offset: int)
    ensures var f := SortBy(Filter(items, MediaFilter(activityId, typeMedia)), MediaOrder);
      var st := PageStart(|f|, offset);
      ListMediaForActivity(items, activityId, typeMedia, limit, offset) == f[st..st + PageLength(|f|, limit, offset)]
  {
    QueryWindow(items, MediaFilter(activityId, typeMedia), MediaOrder, limit, offset);
  }

  // ---------------------------------------------------------------------------
  // update_media_item, delete_media_item

  /** The `values` dictionary of `update_media_item`; the extension holds the value to store. */
  datatype MediaValues = MediaValues(
    filename: Option<string>,
    typeMedia: Option<string>,
    fileExtension: Option<Option<string>>,
    storagePath: Option<string>,
    captureDate: Option<Date>,
    caption: Option<string>,
    credit: Option<string>,
    displayOrder: Option<int>)

  /** The dictionary built from the arguments: filename stripped, type normalised, extension normalised or NULL. */
  function MediaValuesOf(
    filename: Option<string>, typeMedia: Option<string>, fileExtension: Option<string>, storagePath: Option<string>,
    captureDate: Option<Date>, caption: Option<string>, credit: Option<string>, displayOrder: Option<int>): (v: MediaValues)
    ensures v.filename == (if filename.Some? then Some(Strip(filename.value)) else None)
    ensures v.typeMedia.Some? == typeMedia.Some? && v.fileExtension.Some? == fileExtension.Some?
    ensures typeMedia.Some? ==> v.typeMedia.value == TypeCode(typeMedia.value)
    ensures fileExtension.Some? ==> v.fileExtension.value == ExtensionOf(fileExtension)
    ensures v.storagePath == storagePath && v.captureDate == captureDate
    ensures v.caption == caption && v.credit == credit && v.displayOrder == displayOrder
  {
    MediaValues(
      if filename.Some? then Some(Strip(filename.value)) else None,
      if typeMedia.Some? then Some(TypeCode(typeMedia.value)) else None,
      if fileExtension.Some? then Some(ExtensionOf(fileExtension)) else None,
      storagePath, captureDate, caption, credit, displayOrder)
  }

  predicate NoMediaValues(v: MediaValues) {
    v.filename.None? && v.typeMedia.None? && v.fileExtension.None? && v.storagePath.None?
    && v.captureDate.None? && v.caption.None? && v.credit.None? && v.displayOrder.None?
  }

  /** The UPDATE: the present fields replace the stored ones, the others stay. */
  function ApplyMediaValues(m: MediaItem, v: MediaValues): (r: MediaItem)
    ensures r.id == m.id && r.activityId == m.activityId
    ensures NoMediaValues(v) ==> r == m
    ensures r.filename == v.filename.GetOr(m.filename) && r.typeMedia == v.typeMedia.GetOr(m.typeMedia)
    ensures r.fileExtension == v.fileExtension.GetOr(m.fileExtension) && r.displayOrder == v.displayOrder.GetOr(m.displayOrder)
    ensures r.storagePath == (if v.storagePath.Some? then v.storagePath else m.storagePath)
    ensures r.captureDate == (if v.captureDate.Some? then v.captureDate else m.captureDate)
    ensures r.caption == (if v.caption.Some? then v.caption else m.caption)
    ensures r.credit == (if v.credit.Some? then v.credit else m.credit)
  {
    MediaItem(m.id, m.activityId, v.filename.GetOr(m.filename), v.typeMedia.GetOr(m.typeMedia),
      v.fileExtension.GetOr(m.fileExtension),
      if v.storagePath.Some? then v.storagePath else m.storagePath,
      if v.captureDate.Some? then v.captureDate else m.captureDate,
      if v.caption.Some? then v.caption else m.caption,
      if v.credit.Some? then v.credit else m.credit,
      v.displayOrder.GetOr(m.displayOrder))
  }

  /** Applying the same values twice is applying them once. */
  lemma ApplyMediaValuesIdempotent(m: MediaItem, v: MediaValues)
    ensures ApplyMediaValues(ApplyMediaValues(m, v), v) == ApplyMediaValues(m, v)
  {
  }

  /** What `update_media_item` returns: None without values or for an unknown id, otherwise the updated row. */
  function UpdateMediaItemIn(items: seq<MediaItem>, id: int, v: MediaValues): (r: Option<MediaItem>)
    ensures r.Some? <==> !NoMediaValues(v) && HasKey(items, MediaItemKey, id)
    ensures r.Some? ==> r.value == ApplyMediaValues(GetMediaItem(items, id).value, v)
  {
    if NoMediaValues(v) then None
    else
      var m := GetMediaItem(items, id);
      if m.None? then None else Some(ApplyMediaValues(m.value, v))
  }

  /** A given type is registered even when no item has the id. */
  function TypesAfterUpdate(types: seq<MediaType>, typeMedia: Option<string>): seq<MediaType> {
    if typeMedia.Some? then WithMediaType(types, typeMedia.value, None) else types
  }

  /** `MediaService.update_media_item`. */
  method UpdateMediaItem(
    db: Database, id: int, filename: Option<string>, typeMedia: Option<string>, fileExtension: Option<string>,
    storagePath: Option<string>, captureDate: Option<Date>, caption: Option<string>, credit: Option<string>,
    displayOrder: Option<int>) returns (r: Option<MediaItem>)
    requires db.Valid()
    modifies db`mediaTypes, db`mediaItems
    ensures db.Valid()
    ensures var v := MediaValuesOf(filename, typeMedia, fileExtension, storagePath, captureDate, caption, credit, displayOrder);
      r == UpdateMediaItemIn(old(db.mediaItems), id, v)
    ensures db.mediaTypes == TypesAfterUpdate(old(db.mediaTypes), typeMedia)
    ensures r.None? ==> db.mediaItems == old(db.mediaItems)
    ensures r.Some? ==>
      db.mediaItems == old(db.mediaItems)[IndexOfKey(old(db.mediaItems), MediaItemKey, id).value := r.value]
  {
    var v := MediaValuesOf(filename, typeMedia, fileExtension, storagePath, captureDate, caption, credit, displayOrder);
    if typeMedia.Some? {
      var _ := CreateOrGetMediaType(db, typeMedia.value, None);
    }
    if NoMediaValues(v) {
      return None;
    }
    var i := IndexOfKey(db.mediaItems, MediaItemKey, id);
    if i.None? {
      return None;
    }
    var updated := ApplyMediaValues(db.mediaItems[i.value], v);
    UpdateUnique(db.mediaItems, MediaItemKey, i.value, updated);
    db.mediaItems := db.mediaItems[i.value := updated];
    return Some(updated);
  }

  /** `MediaService.delete_media_item`: a bulk DELETE, so the item's appearances stay. */
  method DeleteMediaItem(db: Database, id: int) returns (removed: bool)
    requires db.Valid()
    modifies db`mediaItems
    ensures db.Valid()
    ensures removed <==> HasKey(old(db.mediaItems), MediaItemKey, id)
    ensures db.mediaItems == RemoveKey(old(db.mediaItems), MediaItemKey, id)
  {
    removed := HasKey(db.mediaItems, MediaItemKey, id);
    RemoveKeyUnique(db.mediaItems, MediaItemKey, id);
    db.mediaItems := RemoveKey(db.mediaItems, MediaItemKey, id);
  }

  // ---------------------------------------------------------------------------
  // create_media_appearance

  /** Python truthiness of an optional integer: present and non-zero. */
  predicate TruthyId(o: Option<int>) {
    o.Some? && o.value != 0
  }

  /**
   * The checks of `create_media_appearance`, in order: the media item, the
   * member, and for a truthy role id the role and its activity. The result is
   * the media item when they all pass.
   */
  function AppearanceChecks(
    items: seq<MediaItem>, members: seq<Member>, roles: seq<Role>, mediaId: int, memberId: string,
    roleId: Option<int>): (r: Result<MediaItem, ServiceError>)
    ensures !HasKey(items, MediaItemKey, mediaId) ==>
      r == Failure(ValueError("MediaItem " + IntToString(mediaId) + " not found"))
    ensures HasKey(items, MediaItemKey, mediaId) && !HasKey(members, MemberKey, memberId) ==>
      r == Failure(ValueError("Member " + memberId + " not found"))
    ensures r.Success? <==>
      HasKey(items, MediaItemKey, mediaId) && HasKey(members, MemberKey, memberId)
      && (TruthyId(roleId) ==>
        HasKey(roles, RoleKey, roleId.value)
        && Get(roles, RoleKey, roleId.value).value.activityId == Get(items, MediaItemKey, mediaId).value.activityId)
    ensures r.Success? ==> r == Success(Get(items, MediaItemKey, mediaId).value)
  {
    var media := Get(items, MediaItemKey, mediaId);
    if media.None? then Failure(ValueError("MediaItem " + IntToString(mediaId) + " not found"))
    else if !HasKey(members, MemberKey, memberId) then Failure(ValueError("Member " + memberId + " not found"))
    else if TruthyId(roleId) then
      var role := Get(roles, RoleKey, roleId.value);
      if role.None? then Failure(ValueError("Role " + IntToString(roleId.value) + " not found"))
      else if role.value.activityId != media.value.activityId then Failure(ValueError(RoleActivityMismatchMessage))
      else Success(media.value)
    else Success(media.value)
  }

  /**
   * `create_media_appearance` as written: the new row never gets its NOT NULL
   * `id_activity`, so the flush after passing every check raises.
   */
  function NewAppearanceAsWritten(
    items: seq<MediaItem>, members: seq<Member>, roles: seq<Role>, mediaId: int, memberId: string,
    roleId: Option<int>): (r: Result<MediaAppearance, ServiceError>)
    ensures r.Failure?
    ensures AppearanceChecks(items, members, roles, mediaId, memberId, roleId).Success? ==>
      r == Failure(IntegrityError(MissingAppearanceActivityMessage))
  {
    var checked := AppearanceChecks(items, members, roles, mediaId, memberId, roleId);
    if checked.Failure? then Failure(checked.error) else Failure(IntegrityError(MissingAppearanceActivityMessage))
  }

  /** A member who exists, on a media item that exists, without a role: the as-written call still fails. */
  lemma AppearanceAsWrittenRejectsValidLink()
    ensures var item := MediaItem(1, "a", "f.jpg", "foto", None, None, None, None, None, 0);
      var member := Member("m", "Ann", "Bos", None, 1, None);
      NewAppearanceAsWritten([item], [member], [], 1, "m", None).Failure?
      && AppearanceChecks([item], [member], [], 1, "m", None).Success?
  {
    var item := MediaItem(1, "a", "f.jpg", "foto", None, None, None, None, None, 0);
    var member := Member("m", "Ann", "Bos", None, 1, None);
    assert MediaItemKey([item][0]) == 1;
    assert MemberKey([member][0]) == "m";
  }

  /**
   * `create_media_appearance` with the activity copied from the media item: the
   * checks above, then a new row with a fresh id.
   */
  function NewAppearance(
    items: seq<MediaItem>, members: seq<Member>, roles: seq<Role>, appearances: seq<MediaAppearance>, mediaId: int,
    memberId: string, roleId: Option<int>, context: Option<string>, displayOrder: int,
    notes: Option<string>): (r: Result<MediaAppearance, ServiceError>)
    ensures r.Failure? <==> AppearanceChecks(items, members, roles, mediaId, memberId, roleId).Failure?
    ensures r.Failure? ==> r.error == AppearanceChecks(items, members, roles, mediaId, memberId, roleId).error
    ensures r.Success? ==>
      !HasKey(appearances, AppearanceKey, r.value.id) && r.value.mediaId == mediaId && r.value.memberId == memberId
      && r.value.roleId == roleId && r.value.activityId == GetMediaItem(items, mediaId).value.activityId
      && r.value.context == context && r.value.displayOrder == displayOrder && r.value.notes == notes
  {
    var checked := AppearanceChecks(items, members, roles, mediaId, memberId, roleId);
    if checked.Failure? then Failure(checked.error)
    else
      NextIdFresh(appearances, AppearanceKey);
      Success(MediaAppearance(NextId(appearances, AppearanceKey), mediaId, memberId, roleId, checked.value.activityId,
        context, displayOrder, notes))
  }

  /**
   * A created appearance is consistent: its media item and member exist, and a
   * truthy role belongs to the appearance's activity, which is the item's.
   */
  lemma NewAppearanceConsistent(
    items: seq<MediaItem>, members: seq<Member>, roles: seq<Role>, appearances: seq<MediaAppearance>, mediaId: int,
    memberId: string, roleId: Option<int>, context: Option<string>, displayOrder: int, notes: Option<string>)
    requires NewAppearance(items, members, roles, appearances, mediaId, memberId, roleId, context, displayOrder, notes).Success?
    ensures var a := NewAppearance(items, members, roles, appearances, mediaId, memberId, roleId, context, displayOrder, notes).value;
      HasKey(items, MediaItemKey, a.mediaId) && HasKey(members, MemberKey, a.memberId)
      && (TruthyId(a.roleId) ==>
        HasKey(roles, RoleKey, a.roleId.value) && Get(roles, RoleKey, a.roleId.value).value.activityId == a.activityId)
  {
  }

  /** `MediaService.create_media_appearance`, with the activity filled in. */
  method CreateMediaAppearance(
    db: Database, mediaId: int, memberId: string, roleId: Option<int>, context: Option<string>, displayOrder: int,
    notes: Option<string>) returns (r: Result<MediaAppearance, ServiceError>)
    requires db.Valid()
    modifies db`appearances
    ensures db.Valid()
    ensures r == NewAppearance(db.mediaItems, db.members, db.roles, old(db.appearances), mediaId, memberId, roleId,
      context, displayOrder, notes)
    ensures db.appearances == if r.Success? then old(db.appearances) + [r.value] else old(db.appearances)
  {
    r := NewAppearance(db.mediaItems, db.members, db.roles, db.appearances, mediaId, memberId, roleId, context,
      displayOrder, notes);
    if r.Success? {
      AppendUnique(db.appearances, AppearanceKey, r.value);
      db.appearances := db.appearances + [r.value];
    }
  }

  // ---------------------------------------------------------------------------
  // get_media_appearance, list_appearances_for_media, update, delete

  /** `MediaService.get_media_appearance`. */
  function GetMediaAppearance(appearances: seq<MediaAppearance>, id: int): (r: Option<MediaAppearance>)
    ensures r.Some? <==> HasKey(appearances, AppearanceKey, id)
    ensures r.Some? ==> r.value in appearances && r.value.id == id
  {
    Get(appearances, AppearanceKey, id)
  }

  /** ORDER BY display_order. */
  function AppearanceOrder(a: MediaAppearance): Key {
    [Asc(Int(a.displayOrder))]
  }

  function OfMedia(mediaId: int): MediaAppearance -> bool {
    (a: MediaAppearance) => a.mediaId == mediaId
  }

  /** `MediaService.list_appearances_for_media` (loading members or roles does not change the result). */
  function ListAppearancesForMedia(appearances: seq<MediaAppearance>, mediaId: int): seq<MediaAppearance> {
    Query(appearances, OfMedia(mediaId), AppearanceOrder, -1, 0)
  }

  /** The listing is a permutation of the item's appearances, by display order. */
  lemma ListAppearancesForMediaSpec(appearances: seq<MediaAppearance>, mediaId: int)
    ensures multiset(ListAppearancesForMedia(appearances, mediaId)) == multiset(Filter(appearances, OfMedia(mediaId)))
    ensures forall a :: a in ListAppearancesForMedia(appearances, mediaId) <==> a in appearances && a.mediaId == mediaId
    ensures forall i, j :: 0 <= i < j < |ListAppearancesForMedia(appearances, mediaId)| ==>
      ListAppearancesForMedia(appearances, mediaId)[i].displayOrder <= ListAppearancesForMedia(appearances, mediaId)[j].displayOrder
  {
    QuerySpec(appearances, OfMedia(mediaId), AppearanceOrder, -1, 0);
    QueryAllPermutes(appearances, OfMedia(mediaId), AppearanceOrder);
    var s := ListAppearancesForMedia(appearances, mediaId);
    forall i, j | 0 <= i < j < |s|
      ensures s[i].displayOrder <= s[j].displayOrder
    {
      assert KeyLe(AppearanceOrder(s[i]), AppearanceOrder(s[j]));
    }
  }

  /** The `values` dictionary of `update_media_appearance`: a field is present when its argument is not None. */
  datatype AppearanceValues = AppearanceValues(
    roleId: Option<int>, context: Option<string>, displayOrder: Option<int>, notes: Option<string>)

  predicate NoAppearanceValues(v: AppearanceValues) {
    v.roleId.None? && v.context.None? && v.displayOrder.None? && v.notes.None?
  }

  function ApplyAppearanceValues(a: MediaAppearance, v: AppearanceValues): (r: MediaAppearance)
    ensures r.id == a.id && r.mediaId == a.mediaId && r.memberId == a.memberId && r.activityId == a.activityId
    ensures NoAppearanceValues(v) ==> r == a
    ensures r.roleId == (if v.roleId.Some? then v.roleId else a.roleId)
    ensures r.context == (if v.context.Some? then v.context else a.context)
    ensures r.displayOrder == v.displayOrder.GetOr(a.displayOrder)
    ensures r.notes == (if v.notes.Some? then v.notes else a.notes)
  {
    a.(roleId := if v.roleId.Some? then v.roleId else a.roleId,
       context := if v.context.Some? then v.context else a.context,
       displayOrder := v.displayOrder.GetOr(a.displayOrder),
       notes := if v.notes.Some? then v.notes else a.notes)
  }

  /** What `update_media_appearance` returns. */
  function UpdateAppearanceIn(appearances: seq<MediaAppearance>, id: int, v: AppearanceValues): (r: Option<MediaAppearance>)
    ensures r.Some? <==> !NoAppearanceValues(v) && HasKey(appearances, AppearanceKey, id)
    ensures r.Some? ==> r.value == ApplyAppearanceValues(GetMediaAppearance(appearances, id).value, v)
  {
    if NoAppearanceValues(v) then None
    else
      var a := GetMediaAppearance(appearances, id);
      if a.None? then None else Some(ApplyAppearanceValues(a.value, v))
  }

  /**
   * None means "leave unchanged" for the role as for every other field, so no
   * call of `update_media_appearance` removes the role of an appearance.
   */
  lemma UpdateAppearanceNeverClearsRole(appearances: seq<MediaAppearance>, id: int, v: AppearanceValues)
    requires HasKey(appearances, AppearanceKey, id) && GetMediaAppearance(appearances, id).value.roleId.Some?
    ensures UpdateAppearanceIn(appearances, id, v).Some? ==> UpdateAppearanceIn(appearances, id, v).value.roleId.Some?
  {
  }

  /** `MediaService.update_media_appearance`. */
  method UpdateMediaAppearance(db: Database, id: int, v: AppearanceValues) returns (r: Option<MediaAppearance>)
    requires db.Valid()
    modifies db`appearances
    ensures db.Valid()
    ensures r == UpdateAppearanceIn(old(db.appearances), id, v)
    ensures r.None? ==> db.appearances == old(db.appearances)
    ensures r.Some? ==>
      db.appearances == old(db.appearances)[IndexOfKey(old(db.appearances), AppearanceKey, id).value := r.value]
  {
    if NoAppearanceValues(v) {
      return None;
    }
    var i := IndexOfKey(db.appearances, AppearanceKey, id);
    if i.None? {
      return None;
    }
    var updated := ApplyAppearanceValues(db.appearances[i.value], v);
    UpdateUnique(db.appearances, AppearanceKey, i.value, updated);
    db.appearances := db.appearances[i.value := updated];
    return Some(updated);
  }

  /** `MediaService.delete_media_appearance`. */
  method DeleteMediaAppearance(db: Database, id: int) returns (removed: bool)
    requires db.Valid()
    modifies db`appearances
    ensures db.Valid()
    ensures removed <==> HasKey(old(db.appearances), AppearanceKey, id)
    ensures db.appearances == RemoveKey(old(db.appearances), AppearanceKey, id)
  {
    removed := HasKey(db.appearances, AppearanceKey, id);
    RemoveKeyUnique(db.appearances, AppearanceKey, id);
    db.appearances := RemoveKey(db.appearances, AppearanceKey, id);
  }

  // ---------------------------------------------------------------------------
  // link_members_to_media

  /** One dictionary of `member_roles`; a missing display order is 0. */
  datatype LinkData = LinkData(
    memberId: string, roleId: Option<int>, context: Option<string>, displayOrder: int, notes: Option<string>)

  /** Where the loop of `link_members_to_media` stands: the appearances created so far and the error that stopped it. */
  datatype LinkState = LinkState(created: seq<MediaAppearance>, error: Option<ServiceError>)

  /** One iteration: nothing once an error has been raised, otherwise `create_media_appearance` for `d`. */
  function LinkStep(
    items: seq<MediaItem>, members: seq<Member>, roles: seq<Role>, appearances: seq<MediaAppearance>, mediaId: int,
    st: LinkState, d: LinkData): (r: LinkState)
    ensures st.error.Some? ==> r == st
    ensures r.error.Some? ==> r.created == st.created
    ensures st.error.None? ==>
      (r.error.None? <==> AppearanceChecks(items, members, roles, mediaId, d.memberId, d.roleId).Success?)
    ensures st.error.None? && r.error.None? ==>
      (|r.created| == |st.created| + 1 && r.created[..|st.created|] == st.created
       && r.created[|st.created|].mediaId == mediaId && r.created[|st.created|].memberId == d.memberId
       && r.created[|st.created|].roleId == d.roleId
       && !HasKey(appearances + st.created, AppearanceKey, r.created[|st.created|].id))
  {
    if st.error.Some? then st
    else match NewAppearance(items, members, roles, appearances + st.created, mediaId, d.memberId, d.roleId, d.context,
      d.displayOrder, d.notes)
    case Failure(e) => LinkState(st.created, Some(e))
    case Success(a) => LinkState(st.created + [a], None)
  }

  /** The appearances created for `data` in turn, and the error that stopped the loop, if any. */
  function LinkMembersIn(
    items: seq<MediaItem>, members: seq<Member>, roles: seq<Role>, appearances: seq<MediaAppearance>, mediaId: int,
    data: seq<LinkData>): LinkState
    decreases |data|
  {
    if data == [] then LinkState([], None)
    else LinkStep(items, members, roles, appearances, mediaId,
      LinkMembersIn(items, members, roles, appearances, mediaId, data[..|data| - 1]), data[|data| - 1])
  }

  /** The i-th created appearance is of the media item and of the i-th entry's member and role. */
  predicate LinkedFor(created: seq<MediaAppearance>, mediaId: int, data: seq<LinkData>) {
    |created| <= |data|
    && forall i :: 0 <= i < |created| ==>
      (created[i].mediaId == mediaId && created[i].memberId == data[i].memberId && created[i].roleId == data[i].roleId)
  }

  lemma LinkedForWiden(created: seq<MediaAppearance>, mediaId: int, data: seq<LinkData>)
    requires data != [] && LinkedFor(created, mediaId, data[..|data| - 1])
    ensures LinkedFor(created, mediaId, data)
  {
    var init := data[..|data| - 1];
    assert forall i :: 0 <= i < |init| ==> init[i] == data[i];
  }

  lemma LinkedForSnoc(created: seq<MediaAppearance>, a: MediaAppearance, mediaId: int, data: seq<LinkData>)
    requires data != [] && LinkedFor(created, mediaId, data[..|data| - 1]) && |created| == |data| - 1
    requires a.mediaId == mediaId && a.memberId == data[|data| - 1].memberId && a.roleId == data[|data| - 1].roleId
    ensures LinkedFor(created + [a], mediaId, data)
  {
    var init := data[..|data| - 1];
    var c := created + [a];
    assert forall i :: 0 <= i < |init| ==> init[i] == data[i];
    assert forall i :: 0 <= i < |created| ==> c[i] == created[i];
  }

  /**
   * One appearance per entry, in input order, up to the error that stopped the
   * loop, and one for every entry when there is none; new appearances never
   * repeat an id of the table.
   */
  lemma {:induction false} LinkMembersInSpec(
    items: seq<MediaItem>, members: seq<Member>, roles: seq<Role>, appearances: seq<MediaAppearance>, mediaId: int,
    data: seq<LinkData>)
    requires Unique(appearances, AppearanceKey)
    ensures var r := LinkMembersIn(items, members, roles, appearances, mediaId, data);
      LinkedFor(r.created, mediaId, data) && (r.error.None? ==> |r.created| == |data|)
      && Unique(appearances + r.created, AppearanceKey)
    decreases |data|
  {
    if data != [] {
      var init := data[..|data| - 1];
      var d := data[|data| - 1];
      LinkMembersInSpec(items, members, roles, appearances, mediaId, init);
      var prev := LinkMembersIn(items, members, roles, appearances, mediaId, init);
      var r := LinkStep(items, members, roles, appearances, mediaId, prev, d);
      assert LinkMembersIn(items, members, roles, appearances, mediaId, data) == r;
      if prev.error.None? && r.error.None? {
        var a := r.created[|prev.created|];
        assert r.created == prev.created + [a];
        LinkedForSnoc(prev.created, a, mediaId, data);
        AppendUnique(appearances + prev.created, AppearanceKey, a);
        SeqAssoc(appearances, prev.created, [a]);
      } else {
        assert r.created == prev.created;
        LinkedForWiden(prev.created, mediaId, data);
      }
    }
  }

  lemma LinkMembersUnfold(
    items: seq<MediaItem>, members: seq<Member>, roles: seq<Role>, appearances: seq<MediaAppearance>, mediaId: int,
    data: seq<LinkData>, i: nat)
    requires i < |data|
    ensures LinkMembersIn(items, members, roles, appearances, mediaId, data[..i + 1])
      == LinkStep(items, members, roles, appearances, mediaId,
        LinkMembersIn(items, members, roles, appearances, mediaId, data[..i]), data[i])
  {
    assert data[..i + 1][..i] == data[..i];
  }

  /** Once the loop has stopped, later entries change nothing. */
  lemma {:induction false} LinkMembersStops(
    items: seq<MediaItem>, members: seq<Member>, roles: seq<Role>, appearances: seq<MediaAppearance>, mediaId: int,
    data: seq<LinkData>, k: nat)
    requires k <= |data|
    requires LinkMembersIn(items, members, roles, appearances, mediaId, data[..k]).error.Some?
    ensures LinkMembersIn(items, members, roles, appearances, mediaId, data)
      == LinkMembersIn(items, members, roles, appearances, mediaId, data[..k])
    decreases |data| - k
  {
    if k < |data| {
      var next := data[..k + 1];
      assert next[..k] == data[..k];
      LinkMembersStops(items, members, roles, appearances, mediaId, data, k + 1);
    } else {
      assert data[..k] == data;
    }
  }

  /**
   * `MediaService.link_members_to_media`: create the appearances in turn; the
   * first error propagates with the earlier appearances already added.
   */
  method LinkMembersToMedia(db: Database, mediaId: int, data: seq<LinkData>)
    returns (r: Result<seq<MediaAppearance>, ServiceError>)
    requires db.Valid()
    modifies db`appearances
    ensures db.Valid()
    ensures var spec := LinkMembersIn(db.mediaItems, db.members, db.roles, old(db.appearances), mediaId, data);
      db.appearances == old(db.appearances) + spec.created
      && r == if spec.error.Some? then Failure(spec.error.value) else Success(spec.created)
  {
    var created: seq<MediaAppearance> := [];
    var i := 0;
    while i < |data|
      invariant 0 <= i <= |data|
      invariant db.Valid()
      invariant LinkMembersIn(db.mediaItems, db.members, db.roles, old(db.appearances), mediaId, data[..i])
        == LinkState(created, None)
      invariant db.appearances == old(db.appearances) + created
    {
      LinkMembersUnfold(db.mediaItems, db.members, db.roles, old(db.appearances), mediaId, data, i);
      var a := LinkOneStep(db, mediaId, old(db.appearances), created, data[i]);
      if a.Failure? {
        LinkMembersStops(db.mediaItems, db.members, db.roles, old(db.appearances), mediaId, data, i + 1);
        return Failure(a.error);
      }
      created := created + [a.value];
      i := i + 1;
    }
    assert data[..|data|] == data;
    return Success(created);
  }

  /** One entry of the loop: the appearance it creates, as one step of the fold. */
  method LinkOneStep(db: Database, mediaId: int, ghost base: seq<MediaAppearance>, created: seq<MediaAppearance>, d: LinkData)
    returns (a: Result<MediaAppearance, ServiceError>)
    requires db.Valid() && db.appearances == base + created
    modifies db`appearances
    ensures db.Valid()
    ensures a.Success? ==>
      LinkStep(db.mediaItems, db.members, db.roles, base, mediaId, LinkState(created, None), d) == LinkState(created + [a.value], None)
      && db.appearances == base + (created + [a.value])
    ensures a.Failure? ==>
      LinkStep(db.mediaItems, db.members, db.roles, base, mediaId, LinkState(created, None), d) == LinkState(created, Some(a.error))
      && db.appearances == base + created
  {
    a := CreateMediaAppearance(db, mediaId, d.memberId, d.roleId, d.context, d.displayOrder, d.notes);
  }
}
