/**
 * Members and their name history: creation with required-field checks, the
 * quick-create id probe `base, base-1, base-2, ...`, listing, update and delete.
 */
module MemberService {
  import opened Wrappers
  import opened Text
  import opened Ordering
  import opened Tables
  import opened Models
  import opened Store

  const RequiredFieldsMessage: string := "id_member, first_name and last_name are required"
  const DuplicateMemberMessage: string := "UNIQUE constraint failed: member.id_member"

  // ---------------------------------------------------------------------------
  // create_member

  /**
   * The row `create_member` builds. The emptiness check looks at the arguments
   * before they are stripped, so a name of spaces only passes it and is stored as "".
   */
  function NewMember(
    id: string, firstName: string, lastName: string,
    birthDate: Option<Date>, gdprPermission: int, notes: Option<string>): (r: Result<Member, ServiceError>)
    ensures r.Failure? <==> id == "" || firstName == "" || lastName == ""
    ensures r.Failure? ==> r.error == ValueError(RequiredFieldsMessage)
    ensures r.Success? ==>
      r.value.id == Strip(id) && r.value.firstName == Strip(firstName) && r.value.lastName == Strip(lastName)
    ensures r.Success? ==>
      r.value.birthDate == birthDate && r.value.gdprPermission == gdprPermission && r.value.notes == notes
  {
    if id == "" || firstName == "" || lastName == "" then Failure(ValueError(RequiredFieldsMessage))
    else Success(Member(Strip(id), Strip(firstName), Strip(lastName), birthDate, gdprPermission, notes))
  }

  /**
   * What `create_member` returns against the member table `members`: the new row,
   * the ValueError of the field check, or the IntegrityError the flush raises when
   * the stripped id is taken.
   */
  function CreateMemberIn(
    members: seq<Member>, id: string, firstName: string, lastName: string,
    birthDate: Option<Date>, gdprPermission: int, notes: Option<string>): (r: Result<Member, ServiceError>)
    ensures r.Success? <==>
      NewMember(id, firstName, lastName, birthDate, gdprPermission, notes).Success? && !HasKey(members, MemberKey, Strip(id))
    ensures r.Success? ==> r == NewMember(id, firstName, lastName, birthDate, gdprPermission, notes)
    ensures r.Success? ==> !HasKey(members, MemberKey, r.value.id)
    ensures NewMember(id, firstName, lastName, birthDate, gdprPermission, notes).Failure? ==>
      r == NewMember(id, firstName, lastName, birthDate, gdprPermission, notes)
  {
    var m := NewMember(id, firstName, lastName, birthDate, gdprPermission, notes);
    if m.Failure? then m
    else if HasKey(members, MemberKey, m.value.id) then Failure(IntegrityError(DuplicateMemberMessage))
    else m
  }

  /** `MemberService.create_member`. */
  method CreateMember(
    db: Database, id: string, firstName: string, lastName: string,
    birthDate: Option<Date>, gdprPermission: int, notes: Option<string>) returns (r: Result<Member, ServiceError>)
    requires db.Valid()
    modifies db`members
    ensures db.Valid()
    ensures r == CreateMemberIn(old(db.members), id, firstName, lastName, birthDate, gdprPermission, notes)
    ensures db.members == if r.Success? then old(db.members) + [r.value] else old(db.members)
  {
    var m := NewMember(id, firstName, lastName, birthDate, gdprPermission, notes);
    if m.Failure? {
      return m;
    }
    if HasKey(db.members, MemberKey, m.value.id) {
      return Failure(IntegrityError(DuplicateMemberMessage));
    }
    AppendUnique(db.members, MemberKey, m.value);
    db.members := db.members + [m.value];
    return m;
  }

  /** A created member can be found again under its stripped id. */
  lemma CreateThenGet(
    members: seq<Member>, id: string, firstName: string, lastName: string,
    birthDate: Option<Date>, gdprPermission: int, notes: Option<string>)
    requires Unique(members, MemberKey)
    requires CreateMemberIn(members, id, firstName, lastName, birthDate, gdprPermission, notes).Success?
    ensures GetMember(members + [CreateMemberIn(members, id, firstName, lastName, birthDate, gdprPermission, notes).value], Strip(id))
      == Some(CreateMemberIn(members, id, firstName, lastName, birthDate, gdprPermission, notes).value)
  {
    var m := CreateMemberIn(members, id, firstName, lastName, birthDate, gdprPermission, notes).value;
    AppendUnique(members, MemberKey, m);
    GetUnique(members + [m], MemberKey, m);
  }

  // ---------------------------------------------------------------------------
  // get_member, list_members

  /** `MemberService.get_member`: lookup by primary key. */
  function GetMember(members: seq<Member>, id: string): (r: Option<Member>)
    ensures r.Some? <==> HasKey(members, MemberKey, id)
    ensures r.Some? ==> r.value in members && r.value.id == id
  {
    Get(members, MemberKey, id)
  }

  /** ORDER BY current_last_name, current_first_name. */
  function MemberOrder(m: Member): Key {
    [Asc(Text(m.lastName)), Asc(Text(m.firstName))]
  }

  /** The WHERE clause of `list_members`. */
  function VisibleFilter(gdprOnly: bool): Member -> bool {
    (m: Member) => !gdprOnly || m.gdprPermission == 1
  }

  /** `MemberService.list_members`. */
  function ListMembers(members: seq<Member>, gdprOnly: bool, limit: int, offset: int): seq<Member> {
    Query(members, VisibleFilter(gdprOnly), MemberOrder, limit, offset)
  }

  /**
   * The listing holds only members of the table, only visible ones when
   * `gdprOnly`, ordered by last then first name, at most `limit` of them; with
   * no limit and no offset it holds every qualifying member.
   */
  lemma ListMembersSpec(members: seq<Member>, gdprOnly: bool, limit: int, offset: int)
    ensures forall m :: m in ListMembers(members, gdprOnly, limit, offset) ==>
      m in members && (gdprOnly ==> m.gdprPermission == 1)
    ensures SortedBy(ListMembers(members, gdprOnly, limit, offset), MemberOrder)
    ensures limit >= 0 ==> |ListMembers(members, gdprOnly, limit, offset)| <= limit
    ensures limit < 0 && offset <= 0 ==> forall m :: m in members && (!gdprOnly || m.gdprPermission == 1) ==>
      m in ListMembers(members, gdprOnly, limit, offset)
  {
    QuerySpec(members, VisibleFilter(gdprOnly), MemberOrder, limit, offset);
  }

  /** The listing is exactly the page of the ordered visible members that starts at the offset. */
  lemma ListMembersWindow(members: seq<Member>, gdprOnly: bool, limit: int, offset: int)
    ensures var f := SortBy(Filter(members, VisibleFilter(gdprOnly)), MemberOrder); var st := PageStart(|f|, offset);
      ListMembers(members, gdprOnly, limit, offset) == f[st..st + PageLength(|f|, limit, offset)]
  {
    QueryWindow(members, VisibleFilter(gdprOnly), MemberOrder, limit, offset);
  }

  // ---------------------------------------------------------------------------
  // update_member

  /** SQLite's message for the first NOT NULL column of `member`, in column order, that a statement sets to NULL. */
  function NotNullFailed(column: string): string {
    "NOT NULL constraint failed: member." + column
  }

  /**
   * `MemberService.update_member` as written: one UPDATE that sets all five
   * columns; an omitted or empty name becomes NULL, and so does an omitted
   * permission, which the NOT NULL columns reject; an omitted birth date or note
   * clears the stored one. An id no row has updates nothing.
   */
  function UpdateMemberAsWritten(
    members: seq<Member>, id: string, firstName: Option<string>, lastName: Option<string>,
    birthDate: Option<Date>, gdprPermission: Option<int>, notes: Option<string>): (r: Result<Option<Member>, ServiceError>)
    ensures !HasKey(members, MemberKey, id) ==> r == Success(None)
    ensures HasKey(members, MemberKey, id) ==>
      (r.Failure? <==> !Truthy(firstName) || !Truthy(lastName) || gdprPermission.None?)
    ensures HasKey(members, MemberKey, id) && !Truthy(firstName) ==>
      r == Failure(IntegrityError(NotNullFailed("current_first_name")))
    ensures HasKey(members, MemberKey, id) && Truthy(firstName) && !Truthy(lastName) ==>
      r == Failure(IntegrityError(NotNullFailed("current_last_name")))
    ensures HasKey(members, MemberKey, id) && Truthy(firstName) && Truthy(lastName) && gdprPermission.None? ==>
      r == Failure(IntegrityError(NotNullFailed("gdpr_permission")))
    ensures r.Success? && r.value.Some? ==> r.value.value.birthDate == birthDate && r.value.value.notes == notes
  {
    match GetMember(members, id)
    case None => Success(None)
    case Some(m) =>
      var first := StripOrNone(firstName);
      var last := StripOrNone(lastName);
      if first.None? || last.None? || gdprPermission.None? then
        Failure(IntegrityError(NotNullFailed(
          if first.None? then "current_first_name" else if last.None? then "current_last_name" else "gdpr_permission")))
      else
        Success(Some(m.(firstName := first.value, lastName := last.value, birthDate := birthDate,
                        gdprPermission := gdprPermission.value, notes := notes)))
  }

  /**
   * A call that only renames the member fails instead of leaving the other
   * columns alone: the first NOT NULL column it sets to NULL is the last name.
   */
  lemma UpdateMemberAsWrittenRejectsRename()
    ensures UpdateMemberAsWritten([Member("m1", "Ann", "Smit", None, 1, None)], "m1",
      Some("Anna"), None, None, None, None) == Failure(IntegrityError(NotNullFailed("current_last_name")))
  {
  }

  /** A call that passes names and permission but no birth date erases the stored birth date. */
  lemma UpdateMemberAsWrittenErasesBirthDate(members: seq<Member>, m: Member, first: string, last: string)
    requires Unique(members, MemberKey) && m in members && m.birthDate.Some?
    requires first != "" && last != ""
    ensures UpdateMemberAsWritten(members, m.id, Some(first), Some(last), None, Some(m.gdprPermission), m.notes)
      == Success(Some(m.(firstName := Strip(first), lastName := Strip(last), birthDate := None)))
    ensures m.birthDate != None
  {
    GetUnique(members, MemberKey, m);
  }

  /**
   * The partial update `update_member` documents: each argument that is None
   * leaves its column alone; names are stored stripped, and an empty name, like
   * None, leaves the name alone.
   */
  function ApplyMemberUpdate(
    m: Member, firstName: Option<string>, lastName: Option<string>,
    birthDate: Option<Date>, gdprPermission: Option<int>, notes: Option<string>): (r: Member)
    ensures r.id == m.id
    ensures r.firstName == (if Truthy(firstName) then Strip(firstName.value) else m.firstName)
    ensures r.lastName == (if Truthy(lastName) then Strip(lastName.value) else m.lastName)
    ensures r.birthDate == (if birthDate.Some? then birthDate else m.birthDate)
    ensures r.gdprPermission == gdprPermission.GetOr(m.gdprPermission)
    ensures r.notes == (if notes.Some? then notes else m.notes)
  {
    m.(firstName := if Truthy(firstName) then Strip(firstName.value) else m.firstName,
       lastName := if Truthy(lastName) then Strip(lastName.value) else m.lastName,
       birthDate := if birthDate.Some? then birthDate else m.birthDate,
       gdprPermission := gdprPermission.GetOr(m.gdprPermission),
       notes := if notes.Some? then notes else m.notes)
  }

  /** An update with every argument None changes nothing. */
  lemma ApplyMemberUpdateNothing(m: Member)
    ensures ApplyMemberUpdate(m, None, None, None, None, None) == m
  {
  }

  /** Applying the same update twice is applying it once. */
  lemma ApplyMemberUpdateIdempotent(
    m: Member, firstName: Option<string>, lastName: Option<string>,
    birthDate: Option<Date>, gdprPermission: Option<int>, notes: Option<string>)
    ensures ApplyMemberUpdate(ApplyMemberUpdate(m, firstName, lastName, birthDate, gdprPermission, notes),
      firstName, lastName, birthDate, gdprPermission, notes)
      == ApplyMemberUpdate(m, firstName, lastName, birthDate, gdprPermission, notes)
  {
  }

  /** `update_member` as a partial update; None for an id no row has. */
  method UpdateMember(
    db: Database, id: string, firstName: Option<string>, lastName: Option<string>,
    birthDate: Option<Date>, gdprPermission: Option<int>, notes: Option<string>) returns (r: Option<Member>)
    requires db.Valid()
    modifies db`members
    ensures db.Valid()
    ensures r.Some? <==> HasKey(old(db.members), MemberKey, id)
    ensures r.None? ==> db.members == old(db.members)
    ensures r.Some? ==> r.value == ApplyMemberUpdate(GetMember(old(db.members), id).value,
      firstName, lastName, birthDate, gdprPermission, notes)
    ensures r.Some? ==> db.members == old(db.members)[IndexOfKey(old(db.members), MemberKey, id).value := r.value]
  {
    var i := IndexOfKey(db.members, MemberKey, id);
    if i.None? {
      return None;
    }
    var updated := ApplyMemberUpdate(db.members[i.value], firstName, lastName, birthDate, gdprPermission, notes);
    UpdateUnique(db.members, MemberKey, i.value, updated);
    db.members := db.members[i.value := updated];
    return Some(updated);
  }

  // ---------------------------------------------------------------------------
  // delete_member

  /** `MemberService.delete_member`: true iff a row was removed. */
  method DeleteMember(db: Database, id: string) returns (removed: bool)
    requires db.Valid()
    modifies db`members
    ensures db.Valid()
    ensures removed <==> HasKey(old(db.members), MemberKey, id)
    ensures db.members == RemoveKey(old(db.members), MemberKey, id)
  {
    removed := HasKey(db.members, MemberKey, id);
    RemoveKeyUnique(db.members, MemberKey, id);
    db.members := RemoveKey(db.members, MemberKey, id);
  }

  // ---------------------------------------------------------------------------
  // Name history

  /**
   * The row `add_name_history` adds: a ValueError when no member has the id;
   * otherwise a history row with the next rowid, the id as given, and the names stripped.
   */
  function NewNameHistory(
    members: seq<Member>, history: seq<NameHistory>, memberId: string, firstName: string, lastName: string,
    validFrom: Option<Date>, validTo: Option<Date>, changeReason: Option<string>, source: Option<string>,
    displayPriority: int, notes: Option<string>): (r: Result<NameHistory, ServiceError>)
    ensures r.Failure? <==> !HasKey(members, MemberKey, memberId)
    ensures r.Failure? ==> r.error == ValueError("Member " + memberId + " not found")
    ensures r.Success? ==>
      !HasKey(history, NameHistoryKey, r.value.id) && r.value.memberId == memberId
      && r.value.firstName == Strip(firstName) && r.value.lastName == Strip(lastName)
      && r.value.validFrom == validFrom && r.value.displayPriority == displayPriority
    ensures r.Success? ==> r.value.validTo == validTo && r.value.changeReason == changeReason
    ensures r.Success? ==> r.value.source == source && r.value.notes == notes
  {
    if !HasKey(members, MemberKey, memberId) then Failure(ValueError("Member " + memberId + " not found"))
    else
      NextIdFresh(history, NameHistoryKey);
      Success(NameHistory(NextId(history, NameHistoryKey), memberId, Strip(firstName), Strip(lastName),
        validFrom, validTo, changeReason, source, displayPriority, notes))
  }

  /** `MemberService.add_name_history`. */
  method AddNameHistory(
    db: Database, memberId: string, firstName: string, lastName: string,
    validFrom: Option<Date>, validTo: Option<Date>, changeReason: Option<string>, source: Option<string>,
    displayPriority: int, notes: Option<string>) returns (r: Result<NameHistory, ServiceError>)
    requires db.Valid()
    modifies db`nameHistory
    ensures db.Valid()
    ensures r == NewNameHistory(db.members, old(db.nameHistory), memberId, firstName, lastName,
      validFrom, validTo, changeReason, source, displayPriority, notes)
    ensures db.nameHistory == if r.Success? then old(db.nameHistory) + [r.value] else old(db.nameHistory)
  {
    r := NewNameHistory(db.members, db.nameHistory, memberId, firstName, lastName,
      validFrom, validTo, changeReason, source, displayPriority, notes);
    if r.Success? {
      AppendUnique(db.nameHistory, NameHistoryKey, r.value);
      db.nameHistory := db.nameHistory + [r.value];
    }
  }

  /** ORDER BY valid_from DESC, display_priority. */
  function HistoryOrder(h: NameHistory): Key {
    [Desc(DateValue(h.validFrom)), Asc(Int(h.displayPriority))]
  }

  function OfMember(memberId: string): NameHistory -> bool {
    (h: NameHistory) => h.memberId == memberId
  }

  /** `MemberService.get_name_history`. */
  function GetNameHistory(history: seq<NameHistory>, memberId: string): seq<NameHistory> {
    Query(history, OfMember(memberId), HistoryOrder, -1, 0)
  }

  /**
   * The history of a member holds exactly that member's rows, latest `valid_from`
   * first, ties by ascending priority, and the undated rows after all dated ones
   * (SQLite sorts NULL lowest, so last under DESC).
   */
  lemma GetNameHistorySpec(history: seq<NameHistory>, memberId: string)
    ensures forall h :: h in GetNameHistory(history, memberId) <==> h in history && h.memberId == memberId
    ensures SortedBy(GetNameHistory(history, memberId), HistoryOrder)
    ensures forall i, j :: 0 <= i < j < |GetNameHistory(history, memberId)| ==>
      (GetNameHistory(history, memberId)[i].validFrom.None? ==> GetNameHistory(history, memberId)[j].validFrom.None?)
  {
    QuerySpec(history, OfMember(memberId), HistoryOrder, -1, 0);
    var r := GetNameHistory(history, memberId);
    forall i, j | 0 <= i < j < |r| && r[i].validFrom.None?
      ensures r[j].validFrom.None?
    {
      assert KeyLe(HistoryOrder(r[i]), HistoryOrder(r[j]));
    }
  }

  // ---------------------------------------------------------------------------
  // quick_create_member: the id probe

  /** The ids the probe tries: `base`, then `base-1`, `base-2`, ... */
  function Candidate(base: string, k: nat): (c: string)
    ensures k > 0 ==> |c| > |base|
  {
    if k == 0 then base else base + "-" + NatToString(k)
  }

  /** Different probe steps try different ids. */
  lemma CandidateInjective(base: string, i: nat, j: nat)
    requires Candidate(base, i) == Candidate(base, j)
    ensures i == j
  {
    if i > 0 && j > 0 {
      assert Candidate(base, i)[|base| + 1..] == NatToString(i);
      assert Candidate(base, j)[|base| + 1..] == NatToString(j);
      NatToStringInjective(i, j);
    }
  }

  /** The member ids in use. */
  function KeySet(members: seq<Member>): (r: set<string>)
    ensures |r| <= |members|
    ensures forall k :: HasKey(members, MemberKey, k) ==> k in r
  {
    if members == [] then {}
    else
      var init := members[..|members| - 1];
      assert forall i :: 0 <= i < |init| ==> init[i] == members[i];
      KeySet(init) + {members[|members| - 1].id}
  }

  /** The first `k` probe ids. */
  function CandidateSet(base: string, k: nat): (r: set<string>)
    ensures |r| == k
    ensures forall x :: x in r ==> exists j :: 0 <= j < k && x == Candidate(base, j)
  {
    if k == 0 then {}
    else
      var prev := CandidateSet(base, k - 1);
      assert Candidate(base, k - 1) !in prev by {
        if Candidate(base, k - 1) in prev {
          var j :| 0 <= j < k - 1 && Candidate(base, k - 1) == Candidate(base, j);
          CandidateInjective(base, k - 1, j);
        }
      }
      prev + {Candidate(base, k - 1)}
  }

  /** If the first `k` probe ids are all taken, the table has at least `k` rows. */
  lemma CandidatesTakenBound(members: seq<Member>, base: string, k: nat)
    requires forall j :: 0 <= j < k ==> HasKey(members, MemberKey, Candidate(base, j))
    ensures k <= |members|
  {
    var c := CandidateSet(base, k);
    var keys := KeySet(members);
    assert c <= keys;
    assert |c| <= |keys| by {
      SubsetCard(c, keys);
    }
  }

  lemma SubsetCard(a: set<string>, b: set<string>)
    requires a <= b
    ensures |a| <= |b|
  {
    if a != {} {
      var x :| x in a;
      SubsetCard(a - {x}, b - {x});
    }
  }

  /**
   * The number of probe steps: the least `k` such that `Candidate(base, k)` is not a
   * member id, found by counting up from `k`.
   */
  function ProbeFrom(members: seq<Member>, base: string, k: nat): (r: nat)
    requires forall j :: 0 <= j < k ==> HasKey(members, MemberKey, Candidate(base, j))
    ensures k <= r
    ensures !HasKey(members, MemberKey, Candidate(base, r))
    ensures forall j :: 0 <= j < r ==> HasKey(members, MemberKey, Candidate(base, j))
    decreases |members| - k
  {
    CandidatesTakenBound(members, base, k);
    if !HasKey(members, MemberKey, Candidate(base, k)) then k
    else
      CandidatesTakenBound(members, base, k + 1);
      ProbeFrom(members, base, k + 1)
  }

  /** The probe step at which `quick_create_member` stops. */
  function ProbeIndex(members: seq<Member>, base: string): nat {
    ProbeFrom(members, base, 0)
  }

  /** The id the probe picks: the first of `base`, `base-1`, `base-2`, ... that no member has. */
  function ProbeId(members: seq<Member>, base: string): (id: string)
    ensures !HasKey(members, MemberKey, id)
    ensures id == Candidate(base, ProbeIndex(members, base))
    ensures forall j :: 0 <= j < ProbeIndex(members, base) ==> HasKey(members, MemberKey, Candidate(base, j))
  {
    Candidate(base, ProbeIndex(members, base))
  }

  /** When `base` itself is free the probe takes it. */
  lemma ProbeBaseWhenFree(members: seq<Member>, base: string)
    requires !HasKey(members, MemberKey, base)
    ensures ProbeId(members, base) == base
  {
  }

  /** The probe never needs more steps than there are members. */
  lemma ProbeBounded(members: seq<Member>, base: string)
    ensures ProbeIndex(members, base) <= |members|
  {
    CandidatesTakenBound(members, base, ProbeIndex(members, base));
  }

  /** The base id `quick_create_member` slugifies: `"{last_name}-{first_name}"`. */
  function BaseId(slugify: string -> string, firstName: string, lastName: string): string {
    slugify(lastName + "-" + firstName)
  }

  /** What `quick_create_member` returns against the member table `members`. */
  function QuickCreateIn(
    members: seq<Member>, slugify: string -> string, firstName: string, lastName: string,
    idLid: Option<string>): (r: Result<Member, ServiceError>)
    ensures Truthy(idLid) ==> r == CreateMemberIn(members, idLid.value, firstName, lastName, None, 1, None)
    ensures !Truthy(idLid) ==>
      r == CreateMemberIn(members, ProbeId(members, BaseId(slugify, firstName, lastName)), firstName, lastName, None, 1, None)
    ensures r.Success? ==> r.value.gdprPermission == DefaultGdprPermission && !HasKey(members, MemberKey, r.value.id)
    ensures firstName == "" || lastName == "" ==> r == Failure(ValueError(RequiredFieldsMessage))
  {
    var id := if Truthy(idLid) then idLid.value else ProbeId(members, BaseId(slugify, firstName, lastName));
    CreateMemberIn(members, id, firstName, lastName, None, 1, None)
  }

  /** `MemberService.quick_create_member`, with `slugify` as a parameter. */
  method QuickCreateMember(
    db: Database, slugify: string -> string, firstName: string, lastName: string, idLid: Option<string>)
    returns (r: Result<Member, ServiceError>)
    requires db.Valid()
    modifies db`members
    ensures db.Valid()
    ensures r == QuickCreateIn(old(db.members), slugify, firstName, lastName, idLid)
    ensures db.members == if r.Success? then old(db.members) + [r.value] else old(db.members)
  {
    var id: string;
    if Truthy(idLid) {
      id := idLid.value;
    } else {
      var base := BaseId(slugify, firstName, lastName);
      var members := db.members;
      id := base;
      var counter: nat := 1;
      while HasKey(members, MemberKey, id)
        invariant id == Candidate(base, counter - 1)
        invariant forall j :: 0 <= j < counter - 1 ==> HasKey(members, MemberKey, Candidate(base, j))
        invariant counter - 1 <= |members|
        invariant db.members == members
        decreases |members| - (counter - 1)
      {
        CandidatesTakenBound(members, base, counter);
        id := base + "-" + NatToString(counter);
        counter := counter + 1;
      }
      ProbeUnique(members, base, counter - 1);
    }
    r := CreateMember(db, id, firstName, lastName, None, 1, None);
  }

  /** The step where the probe stops is determined: the first free candidate. */
  lemma ProbeUnique(members: seq<Member>, base: string, k: nat)
    requires forall j :: 0 <= j < k ==> HasKey(members, MemberKey, Candidate(base, j))
    requires !HasKey(members, MemberKey, Candidate(base, k))
    ensures ProbeIndex(members, base) == k
  {
    var p := ProbeIndex(members, base);
    assert !HasKey(members, MemberKey, Candidate(base, p));
    assert p <= k;
  }
}
