/**
 * Activities (performances, events, meetings) and the roles attached to them:
 * creation with required-field checks and trimming, listing, partial updates
 * built from the arguments that are given, and deletion.
 */
module ActivityService {
  import opened Wrappers
  import opened Text
  import opened Ordering
  import opened Tables
  import opened Models
  import opened Store

  const RequiredFieldsMessage: string := "id_activity and title are required"
  const DuplicateActivityMessage: string := "UNIQUE constraint failed: activity.id_activity"

  // ---------------------------------------------------------------------------
  // create_activity, get_activity

  /**
   * The row `create_activity` builds. The check looks at the arguments before
   * stripping; id, title and type are stored stripped, author, director and
   * folder stripped or NULL when empty, the description as given.
   */
  function NewActivity(
    id: string, title: string, kind: string, startDate: Option<Date>, endDate: Option<Date>, year: Option<int>,
    author: Option<string>, director: Option<string>, folder: Option<string>,
    description: Option<string>): (r: Result<Activity, ServiceError>)
    ensures r.Failure? <==> id == "" || title == ""
    ensures r.Failure? ==> r.error == ValueError(RequiredFieldsMessage)
    ensures r.Success? ==>
      r.value.id == Strip(id) && r.value.title == Strip(title) && r.value.kind == Strip(kind)
    ensures r.Success? ==>
      r.value.author.Some? == Truthy(author) && r.value.director.Some? == Truthy(director)
      && r.value.folder.Some? == Truthy(folder)
    ensures r.Success? ==>
      (Truthy(author) ==> r.value.author == Some(Strip(author.value)))
      && (Truthy(director) ==> r.value.director == Some(Strip(director.value)))
      && (Truthy(folder) ==> r.value.folder == Some(Strip(folder.value)))
    ensures r.Success? ==> r.value.startDate == startDate && r.value.endDate == endDate
    ensures r.Success? ==> r.value.year == year && r.value.description == description
  {
    if id == "" || title == "" then Failure(ValueError(RequiredFieldsMessage))
    else Success(Activity(Strip(id), Strip(title), Strip(kind), startDate, endDate, year,
      StripOrNone(author), StripOrNone(director), StripOrNone(folder), description))
  }

  /** What `create_activity` returns against the activity table. */
  function CreateActivityIn(
    activities: seq<Activity>, id: string, title: string, kind: string, startDate: Option<Date>,
    endDate: Option<Date>, year: Option<int>, author: Option<string>, director: Option<string>,
    folder: Option<string>, description: Option<string>): (r: Result<Activity, ServiceError>)
    ensures r.Success? <==> id != "" && title != "" && !HasKey(activities, ActivityKey, Strip(id))
    ensures r.Success? ==>
      r == NewActivity(id, title, kind, startDate, endDate, year, author, director, folder, description)
    ensures id != "" && title != "" && HasKey(activities, ActivityKey, Strip(id)) ==>
      r == Failure(IntegrityError(DuplicateActivityMessage))
  {
    var a := NewActivity(id, title, kind, startDate, endDate, year, author, director, folder, description);
    if a.Failure? then a
    else if HasKey(activities, ActivityKey, a.value.id) then Failure(IntegrityError(DuplicateActivityMessage))
    else a
  }

  /** `ActivityService.create_activity`. */
  method CreateActivity(
    db: Database, id: string, title: string, kind: string, startDate: Option<Date>,
    endDate: Option<Date>, year: Option<int>, author: Option<string>, director: Option<string>,
    folder: Option<string>, description: Option<string>) returns (r: Result<Activity, ServiceError>)
    requires db.Valid()
    modifies db`activities
    ensures db.Valid()
    ensures r == CreateActivityIn(old(db.activities), id, title, kind, startDate, endDate, year, author, director,
      folder, description)
    ensures db.activities == if r.Success? then old(db.activities) + [r.value] else old(db.activities)
  {
    r := CreateActivityIn(db.activities, id, title, kind, startDate, endDate, year, author, director, folder, description);
    if r.Success? {
      AppendUnique(db.activities, ActivityKey, r.value);
      db.activities := db.activities + [r.value];
    }
  }

  /** `ActivityService.get_activity` (eager loading of roles does not change the result). */
  function GetActivity(activities: seq<Activity>, id: string): (r: Option<Activity>)
    ensures r.Some? <==> HasKey(activities, ActivityKey, id)
    ensures r.Some? ==> r.value in activities && r.value.id == id
  {
    Get(activities, ActivityKey, id)
  }

  // ---------------------------------------------------------------------------
  // list_activities

  /** ORDER BY year DESC, title. */
  function ActivityOrder(a: Activity): Key {
    [Desc(OptInt(a.year)), Asc(Text(a.title))]
  }

  /** The WHERE clause: the year when it is given, the type when it is truthy. */
  function ActivityFilter(year: Option<int>, typeFilter: Option<string>): Activity -> bool {
    (a: Activity) => (year.Some? ==> a.year == year) && (Truthy(typeFilter) ==> a.kind == typeFilter.value)
  }

  /** `ActivityService.list_activities`. */
  function ListActivities(
    activities: seq<Activity>, year: Option<int>, typeFilter: Option<string>, limit: int, offset: int): seq<Activity>
  {
    Query(activities, ActivityFilter(year, typeFilter), ActivityOrder, limit, offset)
  }

  /**
   * The listing holds only activities of the given year and type, latest year
   * first and by title within a year, activities without a year last, at most
   * `limit` of them; unpaged it holds every matching activity.
   */
  lemma ListActivitiesSpec(
    activities: seq<Activity>, year: Option<int>, typeFilter: Option<string>, limit: int, offset: int)
    ensures forall a :: a in ListActivities(activities, year, typeFilter, limit, offset) ==>
      a in activities && (year.Some? ==> a.year == year) && (Truthy(typeFilter) ==> a.kind == typeFilter.value)
    ensures SortedBy(ListActivities(activities, year, typeFilter, limit, offset), ActivityOrder)
    ensures forall i, j :: 0 <= i < j < |ListActivities(activities, year, typeFilter, limit, offset)| ==>
      (ListActivities(activities, year, typeFilter, limit, offset)[i].year.None? ==>
        ListActivities(activities, year, typeFilter, limit, offset)[j].year.None?)
    ensures limit >= 0 ==> |ListActivities(activities, year, typeFilter, limit, offset)| <= limit
    ensures limit < 0 && offset <= 0 ==> forall a ::
      (a in activities && (year.Some? ==> a.year == year) && (Truthy(typeFilter) ==> a.kind == typeFilter.value)) ==>
      a in ListActivities(activities, year, typeFilter, limit, offset)
  {
    QuerySpec(activities, ActivityFilter(year, typeFilter), ActivityOrder, limit, offset);
    var s := ListActivities(activities, year, typeFilter, limit, offset);
    forall i, j | 0 <= i < j < |s| && s[i].year.None?
      ensures s[j].year.None?
    {
      assert KeyLe(ActivityOrder(s[i]), ActivityOrder(s[j]));
    }
  }

  /** The listing is exactly the page of the ordered matching activities that starts at the offset. */
  lemma ListActivitiesWindow(activities: seq<Activity>, year: Option<int>, typeFilter: Option<string>, limit: int, offset: int)
    ensures var f := SortBy(Filter(activities, ActivityFilter(year, typeFilter)), ActivityOrder);
      var st := PageStart(|f|, offset);
      ListActivities(activities, year, typeFilter, limit, offset) == f[st..st + PageLength(|f|, limit, offset)]
  {
    QueryWindow(activities, ActivityFilter(year, typeFilter), ActivityOrder, limit, offset);
  }

  // ---------------------------------------------------------------------------
  // update_activity

  /**
   * The `values` dictionary of `update_activity`: a field is present when its
   * argument is not None. Author, director and folder hold the value to store,
   * which is NULL for an empty string.
   */
  datatype ActivityValues = ActivityValues(
    title: Option<string>,
    kind: Option<string>,
    startDate: Option<Date>,
    endDate: Option<Date>,
    year: Option<int>,
    author: Option<Option<string>>,
    director: Option<Option<string>>,
    folder: Option<Option<string>>,
    description: Option<string>)

  function PresentStripped(o: Option<string>): Option<string> {
    if o.Some? then Some(Strip(o.value)) else None
  }

  function PresentStripOrNone(o: Option<string>): Option<Option<string>> {
    if o.Some? then Some(StripOrNone(o)) else None
  }

  /** The dictionary built from the arguments. */
  function ActivityValuesOf(
    title: Option<string>, kind: Option<string>, startDate: Option<Date>, endDate: Option<Date>, year: Option<int>,
    author: Option<string>, director: Option<string>, folder: Option<string>,
    description: Option<string>): (v: ActivityValues)
    ensures v.title == (if title.Some? then Some(Strip(title.value)) else None)
    ensures v.kind == (if kind.Some? then Some(Strip(kind.value)) else None)
    ensures v.startDate == startDate && v.endDate == endDate && v.year == year && v.description == description
    ensures v.author.Some? == author.Some? && v.director.Some? == director.Some? && v.folder.Some? == folder.Some?
    ensures author.Some? ==> v.author.value == (if author.value == "" then None else Some(Strip(author.value)))
    ensures director.Some? ==> v.director.value == (if director.value == "" then None else Some(Strip(director.value)))
    ensures folder.Some? ==> v.folder.value == (if folder.value == "" then None else Some(Strip(folder.value)))
  {
    ActivityValues(PresentStripped(title), PresentStripped(kind), startDate, endDate, year,
      PresentStripOrNone(author), PresentStripOrNone(director), PresentStripOrNone(folder), description)
  }

  /** `if not values`. */
  predicate NoValues(v: ActivityValues) {
    v.title.None? && v.kind.None? && v.startDate.None? && v.endDate.None? && v.year.None?
    && v.author.None? && v.director.None? && v.folder.None? && v.description.None?
  }

  /** The UPDATE: the present fields replace the stored ones, the others stay. */
  function ApplyActivityValues(a: Activity, v: ActivityValues): (r: Activity)
    ensures r.id == a.id
    ensures NoValues(v) ==> r == a
    ensures r.title == v.title.GetOr(a.title) && r.kind == v.kind.GetOr(a.kind)
    ensures r.startDate == (if v.startDate.Some? then v.startDate else a.startDate)
    ensures r.endDate == (if v.endDate.Some? then v.endDate else a.endDate)
    ensures r.year == (if v.year.Some? then v.year else a.year)
    ensures r.author == v.author.GetOr(a.author) && r.director == v.director.GetOr(a.director)
      && r.folder == v.folder.GetOr(a.folder)
    ensures r.description == (if v.description.Some? then v.description else a.description)
  {
    Activity(a.id, v.title.GetOr(a.title), v.kind.GetOr(a.kind),
      if v.startDate.Some? then v.startDate else a.startDate,
      if v.endDate.Some? then v.endDate else a.endDate,
      if v.year.Some? then v.year else a.year,
      v.author.GetOr(a.author), v.director.GetOr(a.director), v.folder.GetOr(a.folder),
      if v.description.Some? then v.description else a.description)
  }

  /** Applying the same values twice is applying them once. */
  lemma ApplyActivityValuesIdempotent(a: Activity, v: ActivityValues)
    ensures ApplyActivityValues(ApplyActivityValues(a, v), v) == ApplyActivityValues(a, v)
  {
  }

  /**
   * What `update_activity` returns: None when no argument is given (without
   * touching the table) or no activity has the id, otherwise the updated row.
   */
  function UpdateActivityIn(activities: seq<Activity>, id: string, v: ActivityValues): (r: Option<Activity>)
    ensures r.Some? <==> !NoValues(v) && HasKey(activities, ActivityKey, id)
    ensures r.Some? ==> r.value == ApplyActivityValues(GetActivity(activities, id).value, v)
  {
    if NoValues(v) then None
    else
      var a := GetActivity(activities, id);
      if a.None? then None else Some(ApplyActivityValues(a.value, v))
  }

  /** An empty author, director or folder clears the column; an omitted one keeps it. */
  lemma UpdateActivityClears(activities: seq<Activity>, id: string, keep: Option<string>)
    requires HasKey(activities, ActivityKey, id)
    ensures UpdateActivityIn(activities, id, ActivityValuesOf(None, None, None, None, None, Some(""), None, keep, None))
      .value.author.None?
    ensures UpdateActivityIn(activities, id, ActivityValuesOf(None, None, None, None, None, Some(""), None, None, None))
      .value.folder == GetActivity(activities, id).value.folder
  {
  }

  /** `ActivityService.update_activity`. */
  method UpdateActivity(db: Database, id: string, v: ActivityValues) returns (r: Option<Activity>)
    requires db.Valid()
    modifies db`activities
    ensures db.Valid()
    ensures r == UpdateActivityIn(old(db.activities), id, v)
    ensures r.None? ==> db.activities == old(db.activities)
    ensures r.Some? ==>
      db.activities == old(db.activities)[IndexOfKey(old(db.activities), ActivityKey, id).value := r.value]
  {
    if NoValues(v) {
      return None;
    }
    var i := IndexOfKey(db.activities, ActivityKey, id);
    if i.None? {
      return None;
    }
    var updated := ApplyActivityValues(db.activities[i.value], v);
    UpdateUnique(db.activities, ActivityKey, i.value, updated);
    db.activities := db.activities[i.value := updated];
    return Some(updated);
  }

  /** `ActivityService.delete_activity`: a bulk DELETE, so roles and media of the activity stay. */
  method DeleteActivity(db: Database, id: string) returns (removed: bool)
    requires db.Valid()
    modifies db`activities
    ensures db.Valid()
    ensures removed <==> HasKey(old(db.activities), ActivityKey, id)
    ensures db.activities == RemoveKey(old(db.activities), ActivityKey, id)
  {
    removed := HasKey(db.activities, ActivityKey, id);
    RemoveKeyUnique(db.activities, ActivityKey, id);
    db.activities := RemoveKey(db.activities, ActivityKey, id);
  }

  // ---------------------------------------------------------------------------
  // Roles of an activity

  /**
   * The row `ActivityService.create_role` adds: a ValueError for an unknown
   * activity, then for an unknown member; otherwise the role name stripped, the
   * character name and type stripped or NULL when empty, the notes as given.
   */
  function NewActivityRole(
    activities: seq<Activity>, members: seq<Member>, roles: seq<Role>, activityId: string, memberId: string,
    roleName: string, characterName: Option<string>, roleType: Option<string>,
    notes: Option<string>): (r: Result<Role, ServiceError>)
    ensures !HasKey(activities, ActivityKey, activityId) ==> r == Failure(ValueError("Activity " + activityId + " not found"))
    ensures HasKey(activities, ActivityKey, activityId) && !HasKey(members, MemberKey, memberId) ==>
      r == Failure(ValueError("Member " + memberId + " not found"))
    ensures r.Success? <==> HasKey(activities, ActivityKey, activityId) && HasKey(members, MemberKey, memberId)
    ensures r.Success? ==>
      !HasKey(roles, RoleKey, r.value.id) && r.value.activityId == activityId && r.value.memberId == memberId
      && r.value.roleName == Some(Strip(roleName)) && r.value.characterName == StripOrNone(characterName)
      && r.value.roleType == StripOrNone(roleType) && r.value.notes == notes
  {
    if !HasKey(activities, ActivityKey, activityId) then Failure(ValueError("Activity " + activityId + " not found"))
    else if !HasKey(members, MemberKey, memberId) then Failure(ValueError("Member " + memberId + " not found"))
    else
      NextIdFresh(roles, RoleKey);
      Success(Role(NextId(roles, RoleKey), activityId, memberId, Some(Strip(roleName)),
        StripOrNone(characterName), StripOrNone(roleType), notes))
  }

  /** `ActivityService.create_role`. */
  method CreateRole(
    db: Database, activityId: string, memberId: string, roleName: string, characterName: Option<string>,
    roleType: Option<string>, notes: Option<string>) returns (r: Result<Role, ServiceError>)
    requires db.Valid()
    modifies db`roles
    ensures db.Valid()
    ensures r == NewActivityRole(db.activities, db.members, old(db.roles), activityId, memberId, roleName,
      characterName, roleType, notes)
    ensures db.roles == if r.Success? then old(db.roles) + [r.value] else old(db.roles)
  {
    r := NewActivityRole(db.activities, db.members, db.roles, activityId, memberId, roleName, characterName, roleType, notes);
    if r.Success? {
      AppendUnique(db.roles, RoleKey, r.value);
      db.roles := db.roles + [r.value];
    }
  }

  /** `ActivityService.get_role`. */
  function GetRole(roles: seq<Role>, id: int): (r: Option<Role>)
    ensures r.Some? <==> HasKey(roles, RoleKey, id)
    ensures r.Some? ==> r.value in roles && r.value.id == id
  {
    Get(roles, RoleKey, id)
  }

  function OfActivity(activityId: string): Role -> bool {
    (r: Role) => r.activityId == activityId
  }

  /** `ActivityService.list_roles_for_activity`. */
  function ListRolesForActivity(roles: seq<Role>, activityId: string): seq<Role> {
    Query(roles, OfActivity(activityId), RoleNameOrder, -1, 0)
  }

  /** The roles listed are a permutation of the activity's roles, ordered by role name. */
  lemma ListRolesForActivitySpec(roles: seq<Role>, activityId: string)
    ensures multiset(ListRolesForActivity(roles, activityId)) == multiset(Filter(roles, OfActivity(activityId)))
    ensures forall r :: r in ListRolesForActivity(roles, activityId) <==> r in roles && r.activityId == activityId
    ensures SortedBy(ListRolesForActivity(roles, activityId), RoleNameOrder)
  {
    QuerySpec(roles, OfActivity(activityId), RoleNameOrder, -1, 0);
    QueryAllPermutes(roles, OfActivity(activityId), RoleNameOrder);
  }

  /** The `values` dictionary of `ActivityService.update_role`. */
  datatype RoleValues = RoleValues(
    roleName: Option<string>,
    characterName: Option<Option<string>>,
    roleType: Option<Option<string>>,
    notes: Option<string>)

  /** The dictionary built from the arguments: name stripped, character and type stripped or NULL when empty. */
  function RoleValuesOf(
    roleName: Option<string>, characterName: Option<string>, roleType: Option<string>,
    notes: Option<string>): (v: RoleValues)
    ensures v.roleName == (if roleName.Some? then Some(Strip(roleName.value)) else None)
    ensures v.characterName.Some? == characterName.Some? && v.roleType.Some? == roleType.Some?
    ensures characterName.Some? ==>
      v.characterName.value == (if characterName.value == "" then None else Some(Strip(characterName.value)))
    ensures roleType.Some? ==> v.roleType.value == (if roleType.value == "" then None else Some(Strip(roleType.value)))
    ensures v.notes == notes
  {
    RoleValues(PresentStripped(roleName), PresentStripOrNone(characterName), PresentStripOrNone(roleType), notes)
  }

  predicate NoRoleValues(v: RoleValues) {
    v.roleName.None? && v.characterName.None? && v.roleType.None? && v.notes.None?
  }

  function ApplyRoleValues(role: Role, v: RoleValues): (r: Role)
    ensures r.id == role.id && r.activityId == role.activityId && r.memberId == role.memberId
    ensures NoRoleValues(v) ==> r == role
    ensures r.roleName == (if v.roleName.Some? then v.roleName else role.roleName)
    ensures r.characterName == v.characterName.GetOr(role.characterName)
    ensures r.roleType == v.roleType.GetOr(role.roleType)
    ensures r.notes == (if v.notes.Some? then v.notes else role.notes)
  {
    role.(roleName := if v.roleName.Some? then v.roleName else role.roleName,
          characterName := v.characterName.GetOr(role.characterName),
          roleType := v.roleType.GetOr(role.roleType),
          notes := if v.notes.Some? then v.notes else role.notes)
  }

  /** Applying the same values twice is applying them once. */
  lemma ApplyRoleValuesIdempotent(role: Role, v: RoleValues)
    ensures ApplyRoleValues(ApplyRoleValues(role, v), v) == ApplyRoleValues(role, v)
  {
  }

  /** What `ActivityService.update_role` returns. */
  function UpdateRoleIn(roles: seq<Role>, id: int, v: RoleValues): (r: Option<Role>)
    ensures r.Some? <==> !NoRoleValues(v) && HasKey(roles, RoleKey, id)
    ensures r.Some? ==> r.value == ApplyRoleValues(GetRole(roles, id).value, v)
  {
    if NoRoleValues(v) then None
    else
      var role := GetRole(roles, id);
      if role.None? then None else Some(ApplyRoleValues(role.value, v))
  }

  /** `ActivityService.update_role`. */
  method UpdateRole(db: Database, id: int, v: RoleValues) returns (r: Option<Role>)
    requires db.Valid()
    modifies db`roles
    ensures db.Valid()
    ensures r == UpdateRoleIn(old(db.roles), id, v)
    ensures r.None? ==> db.roles == old(db.roles)
    ensures r.Some? ==> db.roles == old(db.roles)[IndexOfKey(old(db.roles), RoleKey, id).value := r.value]
  {
    if NoRoleValues(v) {
      return None;
    }
    var i := IndexOfKey(db.roles, RoleKey, id);
    if i.None? {
      return None;
    }
    var updated := ApplyRoleValues(db.roles[i.value], v);
    UpdateUnique(db.roles, RoleKey, i.value, updated);
    db.roles := db.roles[i.value := updated];
    return Some(updated);
  }

  /** `ActivityService.delete_role`: a bulk DELETE, so appearances keep their `id_role`. */
  method DeleteRole(db: Database, id: int) returns (removed: bool)
    requires db.Valid()
    modifies db`roles
    ensures db.Valid()
    ensures removed <==> HasKey(old(db.roles), RoleKey, id)
    ensures db.roles == RemoveKey(old(db.roles), RoleKey, id)
  {
    removed := HasKey(db.roles, RoleKey, id);
    RemoveKeyUnique(db.roles, RoleKey, id);
    db.roles := RemoveKey(db.roles, RoleKey, id);
  }

  // ---------------------------------------------------------------------------
  // add_roles_to_activity

  /** One dictionary of `roles_data`. */
  datatype RoleData = RoleData(
    memberId: string, roleName: string, characterName: Option<string>, roleType: Option<string>, notes: Option<string>)

  /** Where the loop of `add_roles_to_activity` stands: the roles created so far and the error that stopped it. */
  datatype AddState = AddState(created: seq<Role>, error: Option<ServiceError>)

  /** One iteration: nothing once an error has been raised, otherwise `create_role` for `d`. */
  function AddStep(
    activities: seq<Activity>, members: seq<Member>, roles: seq<Role>, activityId: string,
    st: AddState, d: RoleData): (r: AddState)
    ensures st.error.Some? ==> r == st
    ensures st.error.None? ==>
      (r.error.None? <==> HasKey(activities, ActivityKey, activityId) && HasKey(members, MemberKey, d.memberId))
    ensures r.error.Some? ==> r.created == st.created
    ensures st.error.None? && r.error.None? ==>
      (|r.created| == |st.created| + 1 && r.created[..|st.created|] == st.created
       && r.created[|st.created|].activityId == activityId && r.created[|st.created|].memberId == d.memberId
       && r.created[|st.created|].roleName == Some(Strip(d.roleName))
       && !HasKey(roles + st.created, RoleKey, r.created[|st.created|].id))
  {
    if st.error.Some? then st
    else match NewActivityRole(activities, members, roles + st.created, activityId, d.memberId, d.roleName,
      d.characterName, d.roleType, d.notes)
    case Failure(e) => AddState(st.created, Some(e))
    case Success(role) => AddState(st.created + [role], None)
  }

  /**
   * The roles created for `data` in turn, and the error that stopped the loop,
   * if any; the roles created before the error stay in the table.
   */
  function AddRolesIn(
    activities: seq<Activity>, members: seq<Member>, roles: seq<Role>, activityId: string,
    data: seq<RoleData>): AddState
    decreases |data|
  {
    if data == [] then AddState([], None)
    else AddStep(activities, members, roles, activityId,
      AddRolesIn(activities, members, roles, activityId, data[..|data| - 1]), data[|data| - 1])
  }

  /** The i-th created role belongs to the activity and to the member of the i-th entry, and has its role name. */
  predicate CreatedFor(created: seq<Role>, activityId: string, data: seq<RoleData>) {
    |created| <= |data|
    && forall i :: 0 <= i < |created| ==>
      (created[i].activityId == activityId && created[i].memberId == data[i].memberId
       && created[i].roleName == Some(Strip(data[i].roleName)))
  }

  lemma CreatedForWiden(created: seq<Role>, activityId: string, data: seq<RoleData>)
    requires data != [] && CreatedFor(created, activityId, data[..|data| - 1])
    ensures CreatedFor(created, activityId, data)
  {
    var init := data[..|data| - 1];
    assert forall i :: 0 <= i < |init| ==> init[i] == data[i];
  }

  lemma CreatedForSnoc(created: seq<Role>, role: Role, activityId: string, data: seq<RoleData>)
    requires data != [] && CreatedFor(created, activityId, data[..|data| - 1]) && |created| == |data| - 1
    requires role.activityId == activityId && role.memberId == data[|data| - 1].memberId
    requires role.roleName == Some(Strip(data[|data| - 1].roleName))
    ensures CreatedFor(created + [role], activityId, data)
  {
    var init := data[..|data| - 1];
    var c := created + [role];
    assert forall i :: 0 <= i < |init| ==> init[i] == data[i];
    assert forall i :: 0 <= i < |created| ==> c[i] == created[i];
  }

  /**
   * One role per entry up to the error that stopped the loop, one for every
   * entry when there is none, each for the activity and the entry's member; new
   * roles never repeat an id of the table.
   */
  lemma {:induction false} AddRolesInSpec(
    activities: seq<Activity>, members: seq<Member>, roles: seq<Role>, activityId: string, data: seq<RoleData>)
    requires Unique(roles, RoleKey)
    ensures var r := AddRolesIn(activities, members, roles, activityId, data);
      CreatedFor(r.created, activityId, data) && (r.error.None? ==> |r.created| == |data|)
      && Unique(roles + r.created, RoleKey)
    decreases |data|
  {
    if data != [] {
      var init := data[..|data| - 1];
      var d := data[|data| - 1];
      AddRolesInSpec(activities, members, roles, activityId, init);
      var prev := AddRolesIn(activities, members, roles, activityId, init);
      var r := AddStep(activities, members, roles, activityId, prev, d);
      assert AddRolesIn(activities, members, roles, activityId, data) == r;
      if prev.error.None? && r.error.None? {
        var role := r.created[|prev.created|];
        assert r.created == prev.created + [role];
        CreatedForSnoc(prev.created, role, activityId, data);
        AppendUnique(roles + prev.created, RoleKey, role);
        SeqAssoc(roles, prev.created, [role]);
      } else {
        assert r.created == prev.created;
        CreatedForWiden(prev.created, activityId, data);
      }
    }
  }

  /** Every entry names a member of the table. */
  predicate MembersKnown(members: seq<Member>, data: seq<RoleData>) {
    forall i :: 0 <= i < |data| ==> HasKey(members, MemberKey, data[i].memberId)
  }

  lemma MembersKnownSnoc(members: seq<Member>, data: seq<RoleData>)
    requires data != []
    ensures MembersKnown(members, data) <==>
      MembersKnown(members, data[..|data| - 1]) && HasKey(members, MemberKey, data[|data| - 1].memberId)
  {
    var init := data[..|data| - 1];
    assert forall i :: 0 <= i < |init| ==> init[i] == data[i];
  }

  /** All roles are created exactly when the list is empty or the activity and every member exist. */
  lemma {:induction false} AddRolesSucceeds(
    activities: seq<Activity>, members: seq<Member>, roles: seq<Role>, activityId: string, data: seq<RoleData>)
    ensures AddRolesIn(activities, members, roles, activityId, data).error.None? <==>
      data == [] || (HasKey(activities, ActivityKey, activityId) && MembersKnown(members, data))
    decreases |data|
  {
    if data != [] {
      var init := data[..|data| - 1];
      var d := data[|data| - 1];
      AddRolesSucceeds(activities, members, roles, activityId, init);
      var prev := AddRolesIn(activities, members, roles, activityId, init);
      var r := AddStep(activities, members, roles, activityId, prev, d);
      assert AddRolesIn(activities, members, roles, activityId, data) == r;
      MembersKnownSnoc(members, data);
    }
  }

  /** `ActivityService.add_roles_to_activity`: create the roles in turn; the first error stops the loop. */
  method AddRolesToActivity(db: Database, activityId: string, data: seq<RoleData>)
    returns (r: Result<seq<Role>, ServiceError>)
    requires db.Valid()
    modifies db`roles
    ensures db.Valid()
    ensures var spec := AddRolesIn(db.activities, db.members, old(db.roles), activityId, data);
      db.roles == old(db.roles) + spec.created
      && r == if spec.error.Some? then Failure(spec.error.value) else Success(spec.created)
  {
    var created: seq<Role> := [];
    var i := 0;
    while i < |data|
      invariant 0 <= i <= |data|
      invariant db.Valid()
      invariant AddRolesIn(db.activities, db.members, old(db.roles), activityId, data[..i]) == AddState(created, None)
      invariant db.roles == old(db.roles) + created
    {
      AddRolesUnfold(db.activities, db.members, old(db.roles), activityId, data, i);
      var role := AddRoleStep(db, activityId, old(db.roles), created, data[i]);
      if role.Failure? {
        AddRolesStops(db.activities, db.members, old(db.roles), activityId, data, i + 1);
        return Failure(role.error);
      }
      created := created + [role.value];
      i := i + 1;
    }
    assert data[..|data|] == data;
    return Success(created);
  }

  /** One iteration of the loop: `create_role` for `d`, as `AddStep` describes it. */
  method AddRoleStep(db: Database, activityId: string, ghost base: seq<Role>, created: seq<Role>, d: RoleData)
    returns (role: Result<Role, ServiceError>)
    requires db.Valid() && db.roles == base + created
    modifies db`roles
    ensures db.Valid()
    ensures role.Success? ==>
      AddStep(db.activities, db.members, base, activityId, AddState(created, None), d) == AddState(created + [role.value], None)
      && db.roles == base + (created + [role.value])
    ensures role.Failure? ==>
      AddStep(db.activities, db.members, base, activityId, AddState(created, None), d) == AddState(created, Some(role.error))
      && db.roles == base + created
  {
    role := CreateRole(db, activityId, d.memberId, d.roleName, d.characterName, d.roleType, d.notes);
  }

  /** The fold over the first i + 1 entries is one step after the fold over the first i. */
  lemma AddRolesUnfold(
    activities: seq<Activity>, members: seq<Member>, roles: seq<Role>, activityId: string, data: seq<RoleData>, i: nat)
    requires i < |data|
    ensures AddRolesIn(activities, members, roles, activityId, data[..i + 1])
      == AddStep(activities, members, roles, activityId, AddRolesIn(activities, members, roles, activityId, data[..i]), data[i])
  {
    assert data[..i + 1][..i] == data[..i];
  }

  /** Once the loop has stopped, later entries change nothing. */
  lemma {:induction false} AddRolesStops(
    activities: seq<Activity>, members: seq<Member>, roles: seq<Role>, activityId: string, data: seq<RoleData>, k: nat)
    requires k <= |data|
    requires AddRolesIn(activities, members, roles, activityId, data[..k]).error.Some?
    ensures AddRolesIn(activities, members, roles, activityId, data) == AddRolesIn(activities, members, roles, activityId, data[..k])
    decreases |data| - k
  {
    if k < |data| {
      var next := data[..k + 1];
      assert next[..k] == data[..k];
      AddRolesStops(activities, members, roles, activityId, data, k + 1);
    } else {
      assert data[..k] == data;
    }
  }
}
