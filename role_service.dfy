/**
 * Cast and crew assignments: roles of a member in an activity, the lookup of a
 * member by a free-text name, and the bulk import of program text of the form
 * `Role – Actor Name`, one assignment per line.
 */
module RoleService {
  import opened Wrappers
  import opened Text
  import opened Ordering
  import opened Tables
  import opened Models
  import opened Store
  import MemberService

  // ---------------------------------------------------------------------------
  // create_role, get_role

  /** The row `create_role` inserts: the values exactly as given, with the next rowid. */
  function NewRole(
    roles: seq<Role>, activityId: string, memberId: string, roleName: Option<string>,
    characterName: Option<string>, roleType: Option<string>, notes: Option<string>): (r: Role)
    ensures !HasKey(roles, RoleKey, r.id)
    ensures forall x :: x in roles ==> x.id < r.id
    ensures r == Role(r.id, activityId, memberId, roleName, characterName, roleType, notes)
  {
    NextIdFresh(roles, RoleKey);
    Role(NextId(roles, RoleKey), activityId, memberId, roleName, characterName, roleType, notes)
  }

  /** `RoleService.create_role`: no validation; SQLite does not check the foreign keys. */
  method CreateRole(
    db: Database, activityId: string, memberId: string, roleName: Option<string>,
    characterName: Option<string>, roleType: Option<string>, notes: Option<string>) returns (r: Role)
    requires db.Valid()
    modifies db`roles
    ensures db.Valid()
    ensures r == NewRole(old(db.roles), activityId, memberId, roleName, characterName, roleType, notes)
    ensures db.roles == old(db.roles) + [r]
  {
    r := NewRole(db.roles, activityId, memberId, roleName, characterName, roleType, notes);
    AppendUnique(db.roles, RoleKey, r);
    db.roles := db.roles + [r];
  }

  /** `RoleService.get_role`. */
  function GetRole(roles: seq<Role>, id: int): (r: Option<Role>)
    ensures r.Some? <==> HasKey(roles, RoleKey, id)
    ensures r.Some? ==> r.value in roles && r.value.id == id
  {
    Get(roles, RoleKey, id)
  }

  /** A created role is found under its new id. */
  lemma CreateRoleThenGet(
    roles: seq<Role>, activityId: string, memberId: string, roleName: Option<string>,
    characterName: Option<string>, roleType: Option<string>, notes: Option<string>)
    requires Unique(roles, RoleKey)
    ensures GetRole(roles + [NewRole(roles, activityId, memberId, roleName, characterName, roleType, notes)],
      NewRole(roles, activityId, memberId, roleName, characterName, roleType, notes).id)
      == Some(NewRole(roles, activityId, memberId, roleName, characterName, roleType, notes))
  {
    var r := NewRole(roles, activityId, memberId, roleName, characterName, roleType, notes);
    AppendUnique(roles, RoleKey, r);
    GetUnique(roles + [r], RoleKey, r);
  }

  // ---------------------------------------------------------------------------
  // get_roles_for_activity, get_roles_for_member

  /** The WHERE clause of `get_roles_for_activity`: the type filter applies only when it is truthy. */
  function InActivity(activityId: string, roleType: Option<string>): Role -> bool {
    (r: Role) => r.activityId == activityId && (Truthy(roleType) ==> r.roleType == roleType)
  }

  /** `RoleService.get_roles_for_activity`. */
  function RolesForActivity(roles: seq<Role>, activityId: string, roleType: Option<string>): seq<Role> {
    Query(roles, InActivity(activityId, roleType), RoleNameOrder, -1, 0)
  }

  /**
   * The roles of an activity are exactly its rows (of the given type when one is
   * given), by role name, and the roles without a name come first.
   */
  lemma RolesForActivitySpec(roles: seq<Role>, activityId: string, roleType: Option<string>)
    ensures forall r :: r in RolesForActivity(roles, activityId, roleType) <==>
      r in roles && r.activityId == activityId && (Truthy(roleType) ==> r.roleType == roleType)
    ensures SortedBy(RolesForActivity(roles, activityId, roleType), RoleNameOrder)
    ensures forall i, j :: 0 <= i < j < |RolesForActivity(roles, activityId, roleType)| ==>
      (RolesForActivity(roles, activityId, roleType)[j].roleName.None? ==>
        RolesForActivity(roles, activityId, roleType)[i].roleName.None?)
  {
    QuerySpec(roles, InActivity(activityId, roleType), RoleNameOrder, -1, 0);
    var s := RolesForActivity(roles, activityId, roleType);
    forall i, j | 0 <= i < j < |s| && s[j].roleName.None?
      ensures s[i].roleName.None?
    {
      assert KeyLe(RoleNameOrder(s[i]), RoleNameOrder(s[j]));
    }
  }

  /** The year of a role's activity, NULL when the activity has none. */
  function ActivityYear(activities: seq<Activity>, activityId: string): Value {
    match Get(activities, ActivityKey, activityId)
    case Some(a) => OptInt(a.year)
    case None => Null
  }

  /** ORDER BY activity.year DESC over the join. */
  function YearOrder(activities: seq<Activity>): Role -> Key {
    (r: Role) => [Desc(ActivityYear(activities, r.activityId))]
  }

  /** The inner join with `activity` and the WHERE clause of `get_roles_for_member`. */
  function OfMemberJoined(activities: seq<Activity>, memberId: string): Role -> bool {
    (r: Role) => r.memberId == memberId && HasKey(activities, ActivityKey, r.activityId)
  }

  /** `if limit: query.limit(limit)`: None and 0 leave the query unlimited. */
  function LimitOf(limit: Option<int>): int {
    if limit.Some? && limit.value != 0 then limit.value else -1
  }

  /** `RoleService.get_roles_for_member`. */
  function RolesForMember(roles: seq<Role>, activities: seq<Activity>, memberId: string, limit: Option<int>): seq<Role> {
    Query(roles, OfMemberJoined(activities, memberId), YearOrder(activities), LimitOf(limit), 0)
  }

  /**
   * A member's roles are roles of that member whose activity exists (the inner
   * join drops the others), latest activity year first; a positive limit bounds
   * the count, and without one (None, 0, or a negative limit, which SQLite
   * reads as no limit) every such role is listed.
   */
  lemma RolesForMemberSpec(roles: seq<Role>, activities: seq<Activity>, memberId: string, limit: Option<int>)
    ensures forall r :: r in RolesForMember(roles, activities, memberId, limit) ==>
      r in roles && r.memberId == memberId && HasKey(activities, ActivityKey, r.activityId)
    ensures SortedBy(RolesForMember(roles, activities, memberId, limit), YearOrder(activities))
    ensures limit.Some? && limit.value > 0 ==> |RolesForMember(roles, activities, memberId, limit)| <= limit.value
    ensures limit.None? || limit.value <= 0 ==> forall r ::
      (r in roles && r.memberId == memberId && HasKey(activities, ActivityKey, r.activityId)) ==>
      r in RolesForMember(roles, activities, memberId, limit)
  {
    QuerySpec(roles, OfMemberJoined(activities, memberId), YearOrder(activities), LimitOf(limit), 0);
  }

  /** The listing is exactly the first `LimitOf(limit)` joined roles of the member in year order, all of them when the limit is unset, 0 or negative. */
  lemma RolesForMemberWindow(roles: seq<Role>, activities: seq<Activity>, memberId: string, limit: Option<int>)
    ensures var f := SortBy(Filter(roles, OfMemberJoined(activities, memberId)), YearOrder(activities));
      RolesForMember(roles, activities, memberId, limit) == f[..PageLength(|f|, LimitOf(limit), 0)]
  {
    QueryWindow(roles, OfMemberJoined(activities, memberId), YearOrder(activities), LimitOf(limit), 0);
  }

  // ---------------------------------------------------------------------------
  // update_role, delete_role

  /** The fields `update_role` sets: every argument that is not None, stored as given. */
  function ApplyRoleUpdate(
    role: Role, roleName: Option<string>, characterName: Option<string>,
    roleType: Option<string>, notes: Option<string>): (r: Role)
    ensures r.id == role.id && r.activityId == role.activityId && r.memberId == role.memberId
    ensures r.roleName == (if roleName.Some? then roleName else role.roleName)
    ensures r.characterName == (if characterName.Some? then characterName else role.characterName)
    ensures r.roleType == (if roleType.Some? then roleType else role.roleType)
    ensures r.notes == (if notes.Some? then notes else role.notes)
  {
    role.(roleName := if roleName.Some? then roleName else role.roleName,
          characterName := if characterName.Some? then characterName else role.characterName,
          roleType := if roleType.Some? then roleType else role.roleType,
          notes := if notes.Some? then notes else role.notes)
  }

  /** An update without arguments leaves the role as it was. */
  lemma ApplyRoleUpdateNothing(role: Role)
    ensures ApplyRoleUpdate(role, None, None, None, None) == role
  {
  }

  /** A later update of a field wins over an earlier one; the fields it leaves alone keep the earlier value. */
  lemma ApplyRoleUpdateCompose(
    role: Role, n1: Option<string>, c1: Option<string>, t1: Option<string>, o1: Option<string>,
    n2: Option<string>, c2: Option<string>, t2: Option<string>, o2: Option<string>)
    ensures ApplyRoleUpdate(ApplyRoleUpdate(role, n1, c1, t1, o1), n2, c2, t2, o2)
      == ApplyRoleUpdate(role, if n2.Some? then n2 else n1, if c2.Some? then c2 else c1,
           if t2.Some? then t2 else t1, if o2.Some? then o2 else o1)
  {
  }

  /** `RoleService.update_role`: None for an unknown id, otherwise the updated role. */
  method UpdateRole(
    db: Database, id: int, roleName: Option<string>, characterName: Option<string>,
    roleType: Option<string>, notes: Option<string>) returns (r: Option<Role>)
    requires db.Valid()
    modifies db`roles
    ensures db.Valid()
    ensures r.Some? <==> HasKey(old(db.roles), RoleKey, id)
    ensures r.None? ==> db.roles == old(db.roles)
    ensures r.Some? ==> r.value == ApplyRoleUpdate(GetRole(old(db.roles), id).value, roleName, characterName, roleType, notes)
    ensures r.Some? ==> db.roles == old(db.roles)[IndexOfKey(old(db.roles), RoleKey, id).value := r.value]
  {
    var i := IndexOfKey(db.roles, RoleKey, id);
    if i.None? {
      return None;
    }
    var updated := ApplyRoleUpdate(db.roles[i.value], roleName, characterName, roleType, notes);
    UpdateUnique(db.roles, RoleKey, i.value, updated);
    db.roles := db.roles[i.value := updated];
    return Some(updated);
  }

  /**
   * What the ORM does to the appearances of a role it deletes: `Role.appearances`
   * has no delete cascade, so the flush sets their nullable `id_role` to NULL.
   */
  function DetachRole(appearances: seq<MediaAppearance>, id: int): (r: seq<MediaAppearance>)
    ensures |r| == |appearances|
    ensures forall i :: 0 <= i < |r| ==> r[i].roleId != Some(id)
    ensures forall i :: 0 <= i < |r| ==>
      r[i] == (if appearances[i].roleId == Some(id) then appearances[i].(roleId := None) else appearances[i])
  {
    seq(|appearances|, i requires 0 <= i < |appearances| =>
      if appearances[i].roleId == Some(id) then appearances[i].(roleId := None) else appearances[i])
  }

  /** Detaching a role keeps every appearance's primary key. */
  lemma DetachRoleKeepsKeys(appearances: seq<MediaAppearance>, id: int)
    requires Unique(appearances, AppearanceKey)
    ensures Unique(DetachRole(appearances, id), AppearanceKey)
  {
    var r := DetachRole(appearances, id);
    forall i, j | 0 <= i < j < |r|
      ensures AppearanceKey(r[i]) != AppearanceKey(r[j])
    {
      assert AppearanceKey(r[i]) == AppearanceKey(appearances[i]);
      assert AppearanceKey(r[j]) == AppearanceKey(appearances[j]);
    }
  }

  /** `RoleService.delete_role`: deletes through the session, so the role's appearances are detached. */
  method DeleteRole(db: Database, id: int) returns (removed: bool)
    requires db.Valid()
    modifies db`roles, db`appearances
    ensures db.Valid()
    ensures removed <==> HasKey(old(db.roles), RoleKey, id)
    ensures !removed ==> db.roles == old(db.roles) && db.appearances == old(db.appearances)
    ensures removed ==>
      db.roles == RemoveKey(old(db.roles), RoleKey, id) && db.appearances == DetachRole(old(db.appearances), id)
  {
    if !HasKey(db.roles, RoleKey, id) {
      return false;
    }
    RemoveKeyUnique(db.roles, RoleKey, id);
    DetachRoleKeepsKeys(db.appearances, id);
    db.roles := RemoveKey(db.roles, RoleKey, id);
    db.appearances := DetachRole(db.appearances, id);
    return true;
  }

  // ---------------------------------------------------------------------------
  // find_or_create_member_by_name

  /**
   * The (first, last) name `find_or_create_member_by_name` reads from a full
   * name: with two or more words, the last word and the others joined by single
   * spaces; otherwise the full name as given and an empty last name.
   */
  function SplitFullName(fullName: string): (string, string) {
    var parts := Words(Strip(fullName));
    if |parts| >= 2 then (Join(parts[..|parts| - 1], " "), parts[|parts| - 1])
    else (fullName, "")
  }

  /**
   * A name of two or more words splits so that the words of the first name
   * followed by the last name are the words of the full name; a shorter name is
   * kept whole as the first name.
   */
  lemma SplitFullNameSpec(fullName: string)
    ensures |Words(Strip(fullName))| >= 2 ==>
      Words(SplitFullName(fullName).0) + [SplitFullName(fullName).1] == Words(Strip(fullName))
      && IsWord(SplitFullName(fullName).1)
    ensures |Words(Strip(fullName))| < 2 ==> SplitFullName(fullName) == (fullName, "")
  {
    var parts := Words(Strip(fullName));
    if |parts| >= 2 {
      var init := parts[..|parts| - 1];
      assert forall i :: 0 <= i < |init| ==> init[i] == parts[i];
      WordsOfJoin(init);
      InitLast(parts);
    }
  }

  /** The member filter: both names contain the searched parts, ignoring ASCII case. */
  function NameMatches(firstName: string, lastName: string): Member -> bool {
    (m: Member) => ILike(m.firstName, firstName) && ILike(m.lastName, lastName)
  }

  /** The member the search finds: the first row, in table order, whose names match. */
  function FindMember(members: seq<Member>, fullName: string): (r: Option<Member>)
    ensures r.Some? <==>
      exists i :: 0 <= i < |members| && NameMatches(SplitFullName(fullName).0, SplitFullName(fullName).1)(members[i])
    ensures r.Some? ==>
      r.value in members && ILike(r.value.firstName, SplitFullName(fullName).0)
      && ILike(r.value.lastName, SplitFullName(fullName).1)
  {
    var (first, last) := SplitFullName(fullName);
    var i := FirstWhere(members, NameMatches(first, last));
    if i.Some? then Some(members[i.value]) else None
  }

  /** What `find_or_create_member_by_name` returns: the member found, or the outcome of the quick create. */
  function FindOrCreateIn(members: seq<Member>, slugify: string -> string, fullName: string): (r: Result<Member, ServiceError>)
    ensures FindMember(members, fullName).Some? ==> r == Success(FindMember(members, fullName).value)
    ensures FindMember(members, fullName).None? ==>
      r == MemberService.QuickCreateIn(members, slugify, SplitFullName(fullName).0, SplitFullName(fullName).1, None)
  {
    var found := FindMember(members, fullName);
    if found.Some? then Success(found.value)
    else
      var (first, last) := SplitFullName(fullName);
      MemberService.QuickCreateIn(members, slugify, first, last, None)
  }

  /** Whether `find_or_create_member_by_name` inserts a member. */
  predicate CreatesMember(members: seq<Member>, slugify: string -> string, fullName: string) {
    FindMember(members, fullName).None? && FindOrCreateIn(members, slugify, fullName).Success?
  }

  /**
   * A one-word name is never created: it becomes the first name with an empty
   * last name, which the member check rejects, so the call either finds a member
   * or fails.
   */
  lemma OneWordNameNeverCreates(members: seq<Member>, slugify: string -> string, fullName: string)
    requires |Words(Strip(fullName))| < 2
    ensures !CreatesMember(members, slugify, fullName)
    ensures FindMember(members, fullName).None? ==>
      FindOrCreateIn(members, slugify, fullName) == Failure(ValueError(MemberService.RequiredFieldsMessage))
  {
    assert SplitFullName(fullName).1 == "";
  }

  /** `RoleService.find_or_create_member_by_name`. */
  method FindOrCreateMemberByName(db: Database, slugify: string -> string, fullName: string)
    returns (r: Result<Member, ServiceError>)
    requires db.Valid()
    modifies db`members
    ensures db.Valid()
    ensures r == FindOrCreateIn(old(db.members), slugify, fullName)
    ensures db.members == if CreatesMember(old(db.members), slugify, fullName) then old(db.members) + [r.value]
      else old(db.members)
  {
    var found := FindMember(db.members, fullName);
    if found.Some? {
      return Success(found.value);
    }
    var (first, last) := SplitFullName(fullName);
    r := MemberService.QuickCreateMember(db, slugify, first, last, None);
  }

  // ---------------------------------------------------------------------------
  // bulk_create_from_text

  /** Every line stripped, in order. */
  function StrippedLines(lines: seq<string>): (r: seq<string>)
    ensures |r| == |lines| && forall i :: 0 <= i < |lines| ==> r[i] == Strip(lines[i])
  {
    seq(|lines|, i requires 0 <= i < |lines| => Strip(lines[i]))
  }

  function NonBlank(x: string): bool {
    x != ""
  }

  /** `[line.strip() for line in text.splitlines() if line.strip()]`. */
  function ProgramLines(lines: seq<string>): (r: seq<string>)
    ensures |r| <= |lines|
    ensures forall i :: 0 <= i < |r| ==> r[i] != "" && Strip(r[i]) == r[i]
    ensures forall l :: l in lines && Strip(l) != "" ==> Strip(l) in r
    ensures forall x :: x in r ==> exists l :: l in lines && Strip(l) == x
  {
    if lines == [] then []
    else
      var init := lines[..|lines| - 1];
      var last := lines[|lines| - 1];
      assert lines == init + [last];
      StripIdempotent(last);
      ProgramLines(init) + (if Strip(last) != "" then [Strip(last)] else [])
  }

  /** Exactly, the program lines are the stripped lines that are not blank, in order. */
  lemma {:induction false} ProgramLinesExact(lines: seq<string>)
    ensures ProgramLines(lines) == Filter(StrippedLines(lines), NonBlank)
  {
    if lines != [] {
      var init := lines[..|lines| - 1];
      assert StrippedLines(lines)[..|lines| - 1] == StrippedLines(init);
      ProgramLinesExact(init);
    }
  }

  /** The state the import threads through the lines. */
  datatype BulkState = BulkState(members: seq<Member>, roles: seq<Role>, created: nat, errors: seq<string>)

  /** Whether a role with this activity, member and name already exists. */
  predicate RoleExists(roles: seq<Role>, activityId: string, memberId: string, roleName: string) {
    exists i | 0 <= i < |roles| ::
      roles[i].activityId == activityId && roles[i].memberId == memberId && roles[i].roleName == Some(roleName)
  }

  /** The text of an exception, `str(e)`. */
  function ErrorText(e: ServiceError): string {
    e.message
  }

  /** How a program line reads: no delimiter, an empty side, or a role and an actor name. */
  datatype LineParse = NoDelimiter | EmptyField | Assignment(roleName: string, actorName: string)

  /** A line split at the first delimiter, both sides stripped. */
  function ParseLine(line: string, delimiter: string): (r: LineParse)
    requires delimiter != ""
    ensures r.NoDelimiter? <==> !Contains(line, delimiter)
    ensures r.Assignment? ==> r.roleName != "" && r.actorName != ""
    ensures r.Assignment? ==>
      r.roleName == Strip(SplitOnce(line, delimiter).0) && r.actorName == Strip(SplitOnce(line, delimiter).1)
    ensures r.EmptyField? ==> Strip(SplitOnce(line, delimiter).0) == "" || Strip(SplitOnce(line, delimiter).1) == ""
  {
    if !Contains(line, delimiter) then NoDelimiter
    else
      var (left, right) := SplitOnce(line, delimiter);
      if Strip(left) == "" || Strip(right) == "" then EmptyField
      else Assignment(Strip(left), Strip(right))
  }

  /** The state change of a correctly formed line. */
  function AssignStep(
    st: BulkState, slugify: string -> string, activityId: string, roleName: string, actorName: string,
    line: string): (r: BulkState)
    ensures (r.created == st.created + 1 && r.errors == st.errors) || (r.created == st.created && |r.errors| == |st.errors| + 1)
    ensures r.created == st.created ==> r.roles == st.roles
    ensures r.created == st.created + 1 ==>
      |r.roles| == |st.roles| + 1 && r.roles[..|st.roles|] == st.roles && r.roles[|st.roles|].activityId == activityId
    ensures r.members == st.members || (|r.members| == |st.members| + 1 && r.members[..|st.members|] == st.members)
  {
    match FindOrCreateIn(st.members, slugify, actorName)
    case Failure(e) =>
      st.(errors := st.errors + ["Error processing '" + line + "': " + ErrorText(e)])
    case Success(m) =>
      var members := if CreatesMember(st.members, slugify, actorName) then st.members + [m] else st.members;
      assert (st.members + [m])[..|st.members|] == st.members;
      if RoleExists(st.roles, activityId, m.id, roleName) then
        st.(members := members, errors := st.errors + ["Already exists: " + roleName + " – " + actorName])
      else
        var role := NewRole(st.roles, activityId, m.id, Some(roleName), None, None, None);
        assert (st.roles + [role])[..|st.roles|] == st.roles;
        st.(members := members, roles := st.roles + [role], created := st.created + 1)
  }

  /** One line of the import, for a non-empty delimiter. */
  function BulkStep(
    st: BulkState, slugify: string -> string, activityId: string, delimiter: string, line: string): (r: BulkState)
    requires delimiter != ""
    ensures (r.created == st.created + 1 && r.errors == st.errors) || (r.created == st.created && |r.errors| == |st.errors| + 1)
    ensures r.created == st.created ==> r.roles == st.roles
    ensures r.created == st.created + 1 ==>
      |r.roles| == |st.roles| + 1 && r.roles[..|st.roles|] == st.roles && r.roles[|st.roles|].activityId == activityId
    ensures r.members == st.members || (|r.members| == |st.members| + 1 && r.members[..|st.members|] == st.members)
  {
    match ParseLine(line, delimiter)
    case NoDelimiter => st.(errors := st.errors + ["Skipped (no delimiter): " + line])
    case EmptyField => st.(errors := st.errors + ["Skipped (empty field): " + line])
    case Assignment(roleName, actorName) => AssignStep(st, slugify, activityId, roleName, actorName, line)
  }

  /** The import of `lines`, each line in turn. */
  function BulkFold(
    st: BulkState, slugify: string -> string, activityId: string, delimiter: string, lines: seq<string>): BulkState
    requires delimiter != ""
  {
    if lines == [] then st
    else BulkStep(BulkFold(st, slugify, activityId, delimiter, lines[..|lines| - 1]), slugify, activityId, delimiter,
      lines[|lines| - 1])
  }

  /**
   * `b` follows `a` after `n` lines: each line created a role or reported one
   * message, the role table grew by one row per created role, each for the
   * activity, and the member table only grew.
   */
  predicate Grows(a: BulkState, b: BulkState, activityId: string, n: nat) {
    b.created + |b.errors| == a.created + |a.errors| + n
    && b.created >= a.created
    && a.roles <= b.roles
    && |b.roles| == |a.roles| + b.created - a.created
    && (forall i :: |a.roles| <= i < |b.roles| ==> b.roles[i].activityId == activityId)
    && a.members <= b.members
  }

  lemma GrowsTrans(a: BulkState, b: BulkState, c: BulkState, activityId: string, n: nat, m: nat)
    requires Grows(a, b, activityId, n) && Grows(b, c, activityId, m)
    ensures Grows(a, c, activityId, n + m)
  {
    forall i | |a.roles| <= i < |c.roles|
      ensures c.roles[i].activityId == activityId
    {
      if i < |b.roles| {
        assert c.roles[i] == b.roles[i];
      }
    }
  }

  lemma StepGrows(st: BulkState, slugify: string -> string, activityId: string, delimiter: string, line: string)
    requires delimiter != ""
    ensures Grows(st, BulkStep(st, slugify, activityId, delimiter, line), activityId, 1)
  {
    var r := BulkStep(st, slugify, activityId, delimiter, line);
    assert st.roles <= r.roles;
    assert st.members <= r.members;
    if r.created == st.created {
      assert r.roles == st.roles;
    } else {
      assert |r.roles| == |st.roles| + 1 && r.roles[|st.roles|].activityId == activityId;
      forall i | |st.roles| <= i < |r.roles|
        ensures r.roles[i].activityId == activityId
      {
        assert i == |st.roles|;
      }
    }
  }

  /**
   * Every line is accounted for: created or reported. The roles table only grows,
   * by one row per created role and each for this activity.
   */
  lemma {:induction false} BulkFoldAccounts(
    st: BulkState, slugify: string -> string, activityId: string, delimiter: string, lines: seq<string>)
    requires delimiter != ""
    ensures Grows(st, BulkFold(st, slugify, activityId, delimiter, lines), activityId, |lines|)
    decreases |lines|
  {
    if lines != [] {
      var init := lines[..|lines| - 1];
      BulkFoldAccounts(st, slugify, activityId, delimiter, init);
      var mid := BulkFold(st, slugify, activityId, delimiter, init);
      StepGrows(mid, slugify, activityId, delimiter, lines[|lines| - 1]);
      GrowsTrans(st, mid, BulkStep(mid, slugify, activityId, delimiter, lines[|lines| - 1]), activityId, |init|, 1);
    } else {
      assert st.roles <= st.roles && st.members <= st.members;
    }
  }

  /** A line without the delimiter is reported and changes nothing else. */
  lemma BulkLineWithoutDelimiter(
    st: BulkState, slugify: string -> string, activityId: string, delimiter: string, line: string)
    requires delimiter != "" && !Contains(line, delimiter)
    ensures BulkStep(st, slugify, activityId, delimiter, line)
      == st.(errors := st.errors + ["Skipped (no delimiter): " + line])
  {
  }

  /** A line with an empty side is reported and changes nothing else. */
  lemma BulkLineEmptyField(
    st: BulkState, slugify: string -> string, activityId: string, delimiter: string, line: string)
    requires delimiter != "" && Contains(line, delimiter)
    requires Strip(SplitOnce(line, delimiter).0) == "" || Strip(SplitOnce(line, delimiter).1) == ""
    ensures BulkStep(st, slugify, activityId, delimiter, line)
      == st.(errors := st.errors + ["Skipped (empty field): " + line])
  {
  }

  /** A line for a role the actor already holds in the activity adds no role. */
  lemma BulkLineExisting(
    st: BulkState, slugify: string -> string, activityId: string, delimiter: string, line: string, m: Member)
    requires delimiter != "" && ParseLine(line, delimiter).Assignment?
    requires FindOrCreateIn(st.members, slugify, ParseLine(line, delimiter).actorName) == Success(m)
    requires RoleExists(st.roles, activityId, m.id, ParseLine(line, delimiter).roleName)
    ensures BulkStep(st, slugify, activityId, delimiter, line).roles == st.roles
    ensures BulkStep(st, slugify, activityId, delimiter, line).errors
      == st.errors + ["Already exists: " + ParseLine(line, delimiter).roleName + " – " + ParseLine(line, delimiter).actorName]
  {
  }

  /**
   * Every well-formed line names an actor the member table already resolves, and a
   * role that member already holds in the activity under that name: what a second
   * import of the same text meets.
   */
  predicate AllAssigned(
    members: seq<Member>, roles: seq<Role>, activityId: string, delimiter: string, lines: seq<string>)
    requires delimiter != ""
  {
    forall l | l in lines && ParseLine(l, delimiter).Assignment? ::
      && FindMember(members, ParseLine(l, delimiter).actorName).Some?
      && RoleExists(roles, activityId, FindMember(members, ParseLine(l, delimiter).actorName).value.id,
        ParseLine(l, delimiter).roleName)
  }

  /**
   * Importing text whose roles all exist already creates nothing: no role, no
   * member, and one message per line.
   */
  lemma {:induction false} BulkRerunCreatesNothing(
    st: BulkState, slugify: string -> string, activityId: string, delimiter: string, lines: seq<string>)
    requires delimiter != ""
    requires AllAssigned(st.members, st.roles, activityId, delimiter, lines)
    ensures var r := BulkFold(st, slugify, activityId, delimiter, lines);
      r.created == st.created && r.roles == st.roles && r.members == st.members
      && |r.errors| == |st.errors| + |lines|
    decreases |lines|
  {
    if lines != [] {
      var init := lines[..|lines| - 1];
      var last := lines[|lines| - 1];
      assert forall l :: l in init ==> l in lines;
      BulkRerunCreatesNothing(st, slugify, activityId, delimiter, init);
      var mid := BulkFold(st, slugify, activityId, delimiter, init);
      assert last in lines;
      match ParseLine(last, delimiter)
      case Assignment(roleName, actorName) =>
        BulkLineExisting(mid, slugify, activityId, delimiter, last, FindMember(mid.members, actorName).value);
      case NoDelimiter =>
      case EmptyField =>
    }
  }

  /** What `bulk_create_from_text` returns: (created, errors), or the error raised outside the per-line handler. */
  function BulkCreateIn(
    members: seq<Member>, roles: seq<Role>, slugify: string -> string, activityId: string,
    programText: string, delimiter: string): (r: Result<BulkState, ServiceError>)
    ensures r.Failure? <==> delimiter == "" && ProgramLines(SplitLines(programText)) != []
    ensures r.Success? ==> r.value.created + |r.value.errors| == |ProgramLines(SplitLines(programText))|
  {
    var lines := ProgramLines(SplitLines(programText));
    if delimiter == "" then
      // `"" in line` holds, and `line.split("", 1)` raises before the handler is entered.
      if lines == [] then Success(BulkState(members, roles, 0, []))
      else Failure(ValueError("empty separator"))
    else
      BulkFoldAccounts(BulkState(members, roles, 0, []), slugify, activityId, delimiter, lines);
      Success(BulkFold(BulkState(members, roles, 0, []), slugify, activityId, delimiter, lines))
  }

  /** The body of the import loop: one line against the database. */
  method BulkLine(
    db: Database, slugify: string -> string, activityId: string, delimiter: string, line: string,
    created: nat, errors: seq<string>) returns (created': nat, errors': seq<string>)
    requires db.Valid() && delimiter != ""
    modifies db`members, db`roles
    ensures db.Valid()
    ensures BulkState(db.members, db.roles, created', errors')
      == BulkStep(BulkState(old(db.members), old(db.roles), created, errors), slugify, activityId, delimiter, line)
  {
    match ParseLine(line, delimiter)
    case NoDelimiter =>
      created', errors' := created, errors + ["Skipped (no delimiter): " + line];
    case EmptyField =>
      created', errors' := created, errors + ["Skipped (empty field): " + line];
    case Assignment(roleName, actorName) =>
      created', errors' := AssignLine(db, slugify, activityId, roleName, actorName, line, created, errors);
  }

  /** A correctly formed line against the database: find or create the actor, then add the role unless it exists. */
  method AssignLine(
    db: Database, slugify: string -> string, activityId: string, roleName: string, actorName: string, line: string,
    created: nat, errors: seq<string>) returns (created': nat, errors': seq<string>)
    requires db.Valid()
    modifies db`members, db`roles
    ensures db.Valid()
    ensures BulkState(db.members, db.roles, created', errors')
      == AssignStep(BulkState(old(db.members), old(db.roles), created, errors), slugify, activityId, roleName, actorName, line)
  {
    ghost var st := BulkState(db.members, db.roles, created, errors);
    var found := FindOrCreateMemberByName(db, slugify, actorName);
    if found.Failure? {
      created', errors' := created, errors + ["Error processing '" + line + "': " + ErrorText(found.error)];
    } else {
      AssignStepFound(st, slugify, activityId, roleName, actorName, line, found.value);
      created', errors' := AddRoleUnlessExists(db, activityId, found.value.id, roleName, actorName, created, errors);
    }
  }

  /** Once the actor is resolved, the line's outcome depends only on whether the role exists. */
  lemma AssignStepFound(
    st: BulkState, slugify: string -> string, activityId: string, roleName: string, actorName: string,
    line: string, m: Member)
    requires FindOrCreateIn(st.members, slugify, actorName) == Success(m)
    ensures var members := if CreatesMember(st.members, slugify, actorName) then st.members + [m] else st.members;
      AssignStep(st, slugify, activityId, roleName, actorName, line)
      == if RoleExists(st.roles, activityId, m.id, roleName)
         then BulkState(members, st.roles, st.created, st.errors + ["Already exists: " + roleName + " – " + actorName])
         else BulkState(members, st.roles + [NewRole(st.roles, activityId, m.id, Some(roleName), None, None, None)], st.created + 1, st.errors)
  {
  }

  /** The role of a correctly formed line, unless the same role already exists. */
  method AddRoleUnlessExists(
    db: Database, activityId: string, memberId: string, roleName: string, actorName: string,
    created: nat, errors: seq<string>) returns (created': nat, errors': seq<string>)
    requires db.Valid()
    modifies db`roles
    ensures db.Valid()
    ensures RoleExists(old(db.roles), activityId, memberId, roleName) ==>
      db.roles == old(db.roles) && created' == created && errors' == errors + ["Already exists: " + roleName + " – " + actorName]
    ensures !RoleExists(old(db.roles), activityId, memberId, roleName) ==>
      db.roles == old(db.roles) + [NewRole(old(db.roles), activityId, memberId, Some(roleName), None, None, None)]
      && created' == created + 1 && errors' == errors
  {
    created', errors' := created, errors;
    if RoleExists(db.roles, activityId, memberId, roleName) {
      errors' := errors + ["Already exists: " + roleName + " – " + actorName];
    } else {
      var role := CreateRole(db, activityId, memberId, Some(roleName), None, None, None);
      created' := created + 1;
    }
  }

  /** The import of one more line is one more step. */
  lemma BulkFoldSnoc(
    st: BulkState, slugify: string -> string, activityId: string, delimiter: string, lines: seq<string>, i: nat)
    requires delimiter != "" && i < |lines|
    ensures BulkFold(st, slugify, activityId, delimiter, lines[..i + 1])
      == BulkStep(BulkFold(st, slugify, activityId, delimiter, lines[..i]), slugify, activityId, delimiter, lines[i])
  {
    assert lines[..i + 1][..i] == lines[..i] && lines[..i + 1][i] == lines[i];
  }

  /** `RoleService.bulk_create_from_text`, line by line against the database. */
  method BulkCreateFromText(
    db: Database, slugify: string -> string, activityId: string, programText: string, delimiter: string)
    returns (r: Result<(nat, seq<string>), ServiceError>)
    requires db.Valid()
    modifies db`members, db`roles
    ensures db.Valid()
    ensures var spec := BulkCreateIn(old(db.members), old(db.roles), slugify, activityId, programText, delimiter);
      match spec
      case Failure(e) => r == Failure(e) && db.members == old(db.members) && db.roles == old(db.roles)
      case Success(st) => r == Success((st.created, st.errors)) && db.members == st.members && db.roles == st.roles
  {
    var lines := ProgramLines(SplitLines(programText));
    if delimiter == "" {
      if lines == [] {
        return Success((0, []));
      }
      return Failure(ValueError("empty separator"));
    }
    ghost var start := BulkState(db.members, db.roles, 0, []);
    var created: nat := 0;
    var errors: seq<string> := [];
    var i := 0;
    while i < |lines|
      invariant 0 <= i <= |lines|
      invariant db.Valid()
      invariant BulkFold(start, slugify, activityId, delimiter, lines[..i]) == BulkState(db.members, db.roles, created, errors)
    {
      BulkFoldSnoc(start, slugify, activityId, delimiter, lines, i);
      created, errors := BulkLine(db, slugify, activityId, delimiter, lines[i], created, errors);
      i := i + 1;
    }
    assert lines[..|lines|] == lines;
    assert BulkCreateIn(old(db.members), old(db.roles), slugify, activityId, programText, delimiter)
      == Success(BulkFold(start, slugify, activityId, delimiter, lines));
    r := Success((created, errors));
  }
}
