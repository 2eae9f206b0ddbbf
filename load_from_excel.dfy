/**
 * The initial load of the archive from the Excel workbook: media types,
 * members, activities, locations, roles, media files with their appearances,
 * and the mentions derived from the file sheet, all in one session that is
 * committed at the end. A sheet is a sequence of rows; a cell is its text as
 * pandas reads it, or None for an empty cell (NaN).
 */
module ExcelLoader {
  import opened Wrappers
  import opened Text
  import opened Tables
  import opened Models
  import opened Store
  import Ordering
  import FileUtils
  import MediaMentionService

  // ---------------------------------------------------------------------------
  // Cells

  /** One cell: its text, or None where pandas reads NaN. */
  type Cell = Option<string>

  /** `str(nan)`. */
  const MissingText: string := "nan"

  /** `str(cell)`: a missing cell prints as "nan". */
  function CellText(c: Cell): (r: string)
    ensures c.None? ==> r == MissingText
    ensures c.Some? ==> r == c.value
  {
    if c.Some? then c.value else MissingText
  }

  /** `str(cell).strip()`. */
  function StrippedText(c: Cell): (r: string)
    ensures Strip(r) == r
    ensures r == Strip(CellText(c))
  {
    StripIdempotent(CellText(c));
    Strip(CellText(c))
  }

  /** `str(cell).strip() if pd.notna(cell) else None`: a blank cell gives "", not None. */
  function PresentStripped(c: Cell): (r: Option<string>)
    ensures r.Some? <==> c.Some?
    ensures r.Some? ==> Strip(r.value) == r.value && r.value == Strip(c.value)
  {
    if c.Some? then
      StripIdempotent(c.value);
      Some(Strip(c.value))
    else None
  }

  /**
   * `normalize_id`: "" for a missing cell; otherwise strip, then replace " - "
   * by " " and then "  " by " ", each in a single left-to-right pass.
   */
  function NormalizeId(c: Cell): string {
    if c.None? then "" else Replace(Replace(Strip(c.value), " - ", " "), "  ", " ")
  }

  /** A normalised id never starts or ends with whitespace. */
  lemma NormalizeIdStripped(c: Cell)
    ensures Strip(NormalizeId(c)) == NormalizeId(c)
  {
    if c.Some? {
      var t := Strip(c.value);
      if t != [] {
        ReplaceKeepsFirst(t, " - ", " ");
        ReplaceKeepsLast(t, " - ", " ");
        var u := Replace(t, " - ", " ");
        ReplaceKeepsFirst(u, "  ", " ");
        ReplaceKeepsLast(u, "  ", " ");
        StripUnchanged(NormalizeId(c));
      } else {
        assert NormalizeId(c) == "";
        StripUnchanged("");
      }
    } else {
      StripUnchanged("");
    }
  }

  /**
   * One pass of each replacement does not collapse every run of spaces: four
   * spaces become two, and normalising again changes the id once more.
   */
  lemma NormalizeIdNotIdempotent()
    ensures NormalizeId(Some("a    b")) == "a  b"
    ensures NormalizeId(Some("a  b")) == "a b"
  {
    StripUnchanged("a    b");
    StripUnchanged("a  b");
    NotContainsMissingChar("a    b", " - ", 1);
    NotContainsMissingChar("a  b", " - ", 1);
    ReplaceDoubleSpaces();
  }

  lemma ReplaceDoubleSpaces()
    ensures Replace("a    b", "  ", " ") == "a  b"
    ensures Replace("a  b", "  ", " ") == "a b"
  {
    var b := "b";
    assert Replace(b, "  ", " ") == b;
    var s2 := "  b";
    assert s2[..2] == "  " && s2[2..] == b;
    ReplaceMatch(s2, "  ", " ");
    var s4 := "    b";
    assert s4[..2] == "  " && s4[2..] == s2;
    ReplaceMatch(s4, "  ", " ");
    var a4 := "a    b";
    assert a4[0] == 'a' && a4[1..] == s4;
    ReplaceSkip(a4, "  ", " ");
    var a2 := "a  b";
    assert a2[0] == 'a' && a2[1..] == s2;
    ReplaceSkip(a2, "  ", " ");
  }

  /** `[f(x) for x in rows]`. */
  function MapRows<R, T>(rows: seq<R>, f: R -> T): (r: seq<T>)
    ensures |r| == |rows|
    ensures forall i :: 0 <= i < |rows| ==> r[i] == f(rows[i])
  {
    seq(|rows|, i requires 0 <= i < |rows| => f(rows[i]))
  }

  lemma MapRowsSnoc<R, T>(rows: seq<R>, f: R -> T, i: nat)
    requires i < |rows|
    ensures MapRows(rows[..i + 1], f) == MapRows(rows[..i], f) + [f(rows[i])]
  {
  }

  // ---------------------------------------------------------------------------
  // 1. Media types (sheet Type_Media)

  datatype TypeRow = TypeRow(typeMedia: Cell)

  /** What Python raises for `nan.strip()`. */
  const NoStripMessage: string := "'float' object has no attribute 'strip'"

  /** The media type of one row: the code is the stripped text lowercased, the description the stripped text. */
  function MediaTypeOf(text: string): MediaType {
    MediaType(PyLower(Strip(text)), Some(Strip(text)))
  }

  /** A loaded code is lowercase and is the lowercased description, which is stripped. */
  lemma MediaTypeOfNormal(text: string)
    ensures var t := MediaTypeOf(text);
      PyLower(t.code) == t.code && t.description.Some? && Strip(t.description.value) == t.description.value
      && t.code == PyLower(t.description.value)
  {
    PyLowerIdempotent(Strip(text));
    StripIdempotent(text);
  }

  predicate AllTypesPresent(rows: seq<TypeRow>) {
    forall i :: 0 <= i < |rows| ==> rows[i].typeMedia.Some?
  }

  function MediaTypesOf(rows: seq<TypeRow>): (r: seq<MediaType>)
    requires AllTypesPresent(rows)
    ensures |r| == |rows|
    ensures forall i :: 0 <= i < |rows| ==> r[i] == MediaTypeOf(rows[i].typeMedia.value)
  {
    seq(|rows|, i requires 0 <= i < |rows| => MediaTypeOf(rows[i].typeMedia.value))
  }

  /**
   * The media type table after the first sheet: every row merged in turn, or
   * the AttributeError of the first empty cell, which ends the load.
   */
  function MediaTypesIn(types: seq<MediaType>, rows: seq<TypeRow>): Result<seq<MediaType>, ServiceError> {
    if AllTypesPresent(rows) then Success(MergeAll(types, MediaTypeKey, MediaTypesOf(rows)))
    else Failure(AttributeError(NoStripMessage))
  }

  /** An empty type cell fails the load; otherwise each row's code is in the table, lowercase. */
  lemma MediaTypesInSpec(types: seq<MediaType>, rows: seq<TypeRow>)
    requires Unique(types, MediaTypeKey)
    ensures MediaTypesIn(types, rows).Failure? <==> exists i :: 0 <= i < |rows| && rows[i].typeMedia.None?
    ensures match MediaTypesIn(types, rows)
      case Failure(e) => e == AttributeError(NoStripMessage)
      case Success(t) =>
        Unique(t, MediaTypeKey)
        && forall i :: 0 <= i < |rows| ==> HasKey(t, MediaTypeKey, PyLower(Strip(rows[i].typeMedia.value)))
  {
    if AllTypesPresent(rows) {
      var xs := MediaTypesOf(rows);
      var t := MergeAll(types, MediaTypeKey, xs);
      MergeAllUnique(types, MediaTypeKey, xs);
      forall i | 0 <= i < |rows|
        ensures HasKey(t, MediaTypeKey, PyLower(Strip(rows[i].typeMedia.value)))
      {
        var k := LastIndexWithKey(xs, MediaTypeKey, i);
        MergeAllLastWins(types, MediaTypeKey, xs, k);
        var j :| 0 <= j < |t| && t[j] == xs[k];
        assert MediaTypeKey(t[j]) == MediaTypeKey(xs[i]);
      }
    }
  }

  /** The last position at or after `i` whose row has the key of `xs[i]`. */
  lemma {:induction false} LastIndexWithKey<T, K>(xs: seq<T>, key: T -> K, i: nat) returns (k: nat)
    requires i < |xs|
    ensures i <= k && LastOfKey(xs, key, k) && key(xs[k]) == key(xs[i])
    decreases |xs| - i
  {
    if LastOfKey(xs, key, i) {
      k := i;
    } else {
      var j :| i < j < |xs| && key(xs[j]) == key(xs[i]);
      k := LastIndexWithKey(xs, key, j);
    }
  }

  lemma MediaTypesOfSnoc(rows: seq<TypeRow>, i: nat)
    requires i < |rows| && AllTypesPresent(rows[..i]) && rows[i].typeMedia.Some?
    ensures AllTypesPresent(rows[..i + 1])
    ensures MediaTypesOf(rows[..i + 1]) == MediaTypesOf(rows[..i]) + [MediaTypeOf(rows[i].typeMedia.value)]
  {
    var next := rows[..i + 1];
    assert forall j :: 0 <= j < i ==> next[j] == rows[..i][j];
    assert next[..i] == rows[..i];
  }

  /** The loop over the Type_Media sheet. */
  method LoadMediaTypes(types: seq<MediaType>, rows: seq<TypeRow>) returns (r: Result<seq<MediaType>, ServiceError>)
    ensures r == MediaTypesIn(types, rows)
  {
    var acc := types;
    var i := 0;
    while i < |rows|
      invariant 0 <= i <= |rows|
      invariant AllTypesPresent(rows[..i])
      invariant acc == MergeAll(types, MediaTypeKey, MediaTypesOf(rows[..i]))
    {
      if rows[i].typeMedia.None? {
        return Failure(AttributeError(NoStripMessage));
      }
      var t := MediaTypeOf(rows[i].typeMedia.value);
      MediaTypesOfSnoc(rows, i);
      MergeAllSnoc(types, MediaTypeKey, MediaTypesOf(rows[..i]), t);
      acc := Merge(acc, MediaTypeKey, t);
      i := i + 1;
    }
    assert rows[..i] == rows;
    return Success(acc);
  }

  // ---------------------------------------------------------------------------
  // 2. Members (sheet Leden)

  /** A row of Leden; the birth date is the cell already converted from its Excel serial. */
  datatype MemberRow = MemberRow(idLid: Cell, firstName: Cell, lastName: Cell, birthDate: Option<Date>, gdpr: Cell)

  /** The spellings of the permission column that mean "visible". */
  const GdprYes: set<string> := {"true", "1", "yes"}

  /** The permission flag: 1 exactly when the lowercased text of the cell is one of the yes-words. */
  function GdprFlag(c: Cell): (r: int)
    ensures r == 1 <==> PyLower(CellText(c)) in GdprYes
    ensures r == 0 || r == 1
  {
    if PyLower(CellText(c)) in GdprYes then 1 else 0
  }

  /** An empty permission cell hides the member, although the column defaults to visible. */
  lemma GdprFlagMissing()
    ensures GdprFlag(None) == 0 && GdprFlag(None) != DefaultGdprPermission
  {
    assert PyLower(MissingText) == "nan";
  }

  /** The flag ignores case: "TRUE", "True" and "true" read alike. */
  lemma GdprFlagCaseInsensitive(c: string)
    ensures GdprFlag(Some(PyLower(c))) == GdprFlag(Some(c))
  {
    PyLowerIdempotent(c);
  }

  function MemberFromRow(row: MemberRow): (r: Member)
    ensures Strip(r.id) == r.id
    ensures r.gdprPermission == 0 || r.gdprPermission == 1
    ensures r.notes.None? && r.birthDate == row.birthDate
    ensures r.id == StrippedText(row.idLid)
    ensures r.firstName == StrippedText(row.firstName) && r.lastName == StrippedText(row.lastName)
    ensures r.gdprPermission == GdprFlag(row.gdpr)
  {
    Member(StrippedText(row.idLid), StrippedText(row.firstName), StrippedText(row.lastName),
      row.birthDate, GdprFlag(row.gdpr), None)
  }

  /** The loop over the Leden sheet: each row merged into the member table. */
  method LoadMembers(members: seq<Member>, rows: seq<MemberRow>) returns (r: seq<Member>)
    ensures r == MergeAll(members, MemberKey, MapRows(rows, MemberFromRow))
  {
    r := members;
    var i := 0;
    while i < |rows|
      invariant 0 <= i <= |rows|
      invariant r == MergeAll(members, MemberKey, MapRows(rows[..i], MemberFromRow))
    {
      var m := MemberFromRow(rows[i]);
      MapRowsSnoc(rows, MemberFromRow, i);
      MergeAllSnoc(members, MemberKey, MapRows(rows[..i], MemberFromRow), m);
      r := Merge(r, MemberKey, m);
      i := i + 1;
    }
    assert rows[..i] == rows;
  }

  /** After the Leden sheet the last row for each id is the member with that id. */
  lemma MembersLoaded(members: seq<Member>, rows: seq<MemberRow>, i: nat)
    requires Unique(members, MemberKey)
    requires LastOfKey(MapRows(rows, MemberFromRow), MemberKey, i)
    ensures var t := MergeAll(members, MemberKey, MapRows(rows, MemberFromRow));
      Unique(t, MemberKey) && Get(t, MemberKey, MemberFromRow(rows[i]).id) == Some(MemberFromRow(rows[i]))
  {
    var xs := MapRows(rows, MemberFromRow);
    MergeAllUnique(members, MemberKey, xs);
    MergeAllLastWins(members, MemberKey, xs, i);
    GetUnique(MergeAll(members, MemberKey, xs), MemberKey, xs[i]);
  }

  /** A member whose id no row of Leden has keeps its row, notes and all. */
  lemma MembersKept(members: seq<Member>, rows: seq<MemberRow>, y: Member)
    requires y in members && forall j :: 0 <= j < |rows| ==> MemberFromRow(rows[j]).id != y.id
    ensures y in MergeAll(members, MemberKey, MapRows(rows, MemberFromRow))
  {
    MergeAllKeeps(members, MemberKey, MapRows(rows, MemberFromRow), y);
  }

  // ---------------------------------------------------------------------------
  // 3. Activities (sheet Uitvoering)

  /** A row of Uitvoering; the two dates are the cells already converted by `safe_to_date`. */
  datatype ActivityRow = ActivityRow(
    uitvoering: Cell, titel: Cell, kind: Cell, startDate: Option<Date>, endDate: Option<Date>,
    jaar: Cell, auteur: Cell, folder: Cell, notitie: Cell)

  /** `int(jaar)` when the stripped text is a numeral, else None. */
  function YearOf(c: Cell): (r: Option<int>)
    ensures r.Some? ==> r.value >= 0
    ensures r.Some? <==> c.Some? && IsDigits(Strip(c.value))
  {
    if c.Some? && IsDigits(Strip(c.value)) then Some(ParseDigits(Strip(c.value))) else None
  }

  /** A printed year reads back as that year. */
  lemma YearOfPrinted(n: nat)
    ensures YearOf(Some(NatToString(n))) == Some(n)
  {
    var s := NatToString(n);
    StripUnchanged(s);
    ParseNatToString(n);
  }

  function ActivityFromRow(row: ActivityRow): (r: Activity)
    ensures r.id == NormalizeId(row.uitvoering)
    ensures row.titel.None? ==> r.title == ""
    ensures row.kind.None? ==> r.kind == DefaultActivityType
    ensures r.year == YearOf(row.jaar)
    ensures r.director.None?
    ensures r.description.Some? <==> row.notitie.Some?
    ensures row.titel.Some? ==> r.title == Strip(row.titel.value)
    ensures row.kind.Some? ==> r.kind == Strip(row.kind.value)
    ensures r.startDate == row.startDate && r.endDate == row.endDate
    ensures r.author == PresentStripped(row.auteur) && r.folder == PresentStripped(row.folder)
    ensures r.description == row.notitie
  {
    Activity(
      NormalizeId(row.uitvoering),
      if row.titel.Some? then Strip(row.titel.value) else "",
      if row.kind.Some? then Strip(row.kind.value) else DefaultActivityType,
      row.startDate, row.endDate,
      YearOf(row.jaar),
      PresentStripped(row.auteur),
      None,
      PresentStripped(row.folder),
      row.notitie)
  }

  /** The loop over the Uitvoering sheet: each row merged into the activity table. */
  method LoadActivities(activities: seq<Activity>, rows: seq<ActivityRow>) returns (r: seq<Activity>)
    ensures r == MergeAll(activities, ActivityKey, MapRows(rows, ActivityFromRow))
  {
    r := activities;
    var i := 0;
    while i < |rows|
      invariant 0 <= i <= |rows|
      invariant r == MergeAll(activities, ActivityKey, MapRows(rows[..i], ActivityFromRow))
    {
      var a := ActivityFromRow(rows[i]);
      MapRowsSnoc(rows, ActivityFromRow, i);
      MergeAllSnoc(activities, ActivityKey, MapRows(rows[..i], ActivityFromRow), a);
      r := Merge(r, ActivityKey, a);
      i := i + 1;
    }
    assert rows[..i] == rows;
  }

  /** After the Uitvoering sheet the last row for each normalised id is the activity with that id. */
  lemma ActivitiesLoaded(activities: seq<Activity>, rows: seq<ActivityRow>, i: nat)
    requires Unique(activities, ActivityKey)
    requires i < |rows| && LastOfKey(MapRows(rows, ActivityFromRow), ActivityKey, i)
    ensures var t := MergeAll(activities, ActivityKey, MapRows(rows, ActivityFromRow));
      Unique(t, ActivityKey)
      && Get(t, ActivityKey, NormalizeId(rows[i].uitvoering)) == Some(ActivityFromRow(rows[i]))
  {
    var xs := MapRows(rows, ActivityFromRow);
    MergeAllUnique(activities, ActivityKey, xs);
    MergeAllLastWins(activities, ActivityKey, xs, i);
    GetUnique(MergeAll(activities, ActivityKey, xs), ActivityKey, xs[i]);
  }

  // ---------------------------------------------------------------------------
  // 4. Locations (sheet Uitvoering Locaties, read as text)

  datatype LocationRow = LocationRow(locatie: Cell, refUitvoering: Cell)

  /**
   * The row `session.merge(Location(id_location=name, name=name))` leaves: only
   * the two columns given are copied onto an existing location, a new one has
   * no other columns set.
   */
  function NamedLocation(existing: Option<Location>, name: string): (r: Location)
    ensures r.id == name && r.name == name
  {
    if existing.Some? && existing.value.id == name then existing.value.(name := name)
    else Location(name, name, None, None, None, None, None)
  }

  function MergeLocationName(locations: seq<Location>, name: string): seq<Location> {
    Merge(locations, LocationKey, NamedLocation(Get(locations, LocationKey, name), name))
  }

  /** A location whose id and name are both `n`. */
  function IdAndName(l: Location): (string, string) { (l.id, l.name) }

  predicate Named(locations: seq<Location>, n: string) {
    HasKey(locations, IdAndName, (n, n))
  }

  /**
   * Merging a location name keeps the keys unique, names the location, keeps
   * the other columns of an existing row with that id, and leaves every other
   * location as it was.
   */
  lemma MergeLocationNameSpec(locations: seq<Location>, name: string)
    requires Unique(locations, LocationKey)
    ensures var r := MergeLocationName(locations, name);
      Unique(r, LocationKey) && Named(r, name)
      && (forall l :: l in locations && l.id != name ==> l in r)
      && (forall l :: l in locations && l.id == name ==> l.(name := name) in r)
  {
    var x := NamedLocation(Get(locations, LocationKey, name), name);
    var r := Merge(locations, LocationKey, x);
    MergeUnique(locations, LocationKey, x);
    var k :| 0 <= k < |r| && r[k] == x;
    assert IdAndName(r[k]) == (name, name);
    forall l | l in locations && l.id == name
      ensures l.(name := name) in r
    {
      GetUnique(locations, LocationKey, l);
    }
  }

  /** A named location stays named when another name is merged. */
  lemma NamedKept(locations: seq<Location>, n: string, name: string)
    requires Unique(locations, LocationKey) && Named(locations, n) && n != name
    ensures Named(MergeLocationName(locations, name), n)
  {
    var i :| 0 <= i < |locations| && IdAndName(locations[i]) == (n, n);
    MergeLocationNameSpec(locations, name);
    var r := MergeLocationName(locations, name);
    assert locations[i] in r;
    var j :| 0 <= j < |r| && r[j] == locations[i];
    assert IdAndName(r[j]) == (n, n);
  }

  /** The loop's state: both tables and `locations_seen`. */
  datatype LocationState = LocationState(locations: seq<Location>, links: seq<ActivityLocation>, seen: set<string>)

  /**
   * The link a row merges, even when its location name is empty; the location
   * id is the stripped text of the name cell, "nan" for an empty cell.
   */
  function LinkOf(row: LocationRow): ActivityLocation {
    ActivityLocation(NormalizeId(row.refUitvoering), StrippedText(row.locatie))
  }

  /** One row: a name not seen before is merged as a location; the link is merged in any case. */
  function LocationStep(st: LocationState, link: ActivityLocation): LocationState {
    var name := link.locationId;
    var isNew := name != "" && name !in st.seen;
    LocationState(
      if isNew then MergeLocationName(st.locations, name) else st.locations,
      Merge(st.links, ActivityLocationKey, link),
      if isNew then st.seen + {name} else st.seen)
  }

  /** The loop over the rows' links, in sheet order. */
  function LocationsIn(locations: seq<Location>, links: seq<ActivityLocation>, ls: seq<ActivityLocation>): LocationState
    decreases |ls|
  {
    if ls == [] then LocationState(locations, links, {})
    else LocationStep(LocationsIn(locations, links, ls[..|ls| - 1]), ls[|ls| - 1])
  }

  /** Every name seen is a named location, and every row's link is in the table. */
  ghost predicate LocationsCover(st: LocationState, ls: seq<ActivityLocation>) {
    Unique(st.locations, LocationKey) && Unique(st.links, ActivityLocationKey)
    && (forall n :: n in st.seen ==> Named(st.locations, n))
    && (forall i :: 0 <= i < |ls| && ls[i].locationId != "" ==> ls[i].locationId in st.seen)
    && (forall i :: 0 <= i < |ls| ==> ls[i] in st.links)
  }

  /**
   * After the sheet every non-empty location name is a location with that id
   * and name, every row's activity link exists, and both keys stay unique.
   */
  lemma {:induction false} LocationsInSpec(locations: seq<Location>, links: seq<ActivityLocation>, ls: seq<ActivityLocation>)
    requires Unique(locations, LocationKey) && Unique(links, ActivityLocationKey)
    ensures LocationsCover(LocationsIn(locations, links, ls), ls)
    ensures var st := LocationsIn(locations, links, ls);
      forall i :: 0 <= i < |ls| && ls[i].locationId != "" ==> Named(st.locations, ls[i].locationId)
    decreases |ls|
  {
    if ls != [] {
      var init := ls[..|ls| - 1];
      var link := ls[|ls| - 1];
      LocationsInSpec(locations, links, init);
      var prev := LocationsIn(locations, links, init);
      LocationStepCovers(prev, init, link);
      assert init + [link] == ls;
    }
  }

  lemma LocationStepCovers(prev: LocationState, init: seq<ActivityLocation>, link: ActivityLocation)
    requires LocationsCover(prev, init)
    ensures LocationsCover(LocationStep(prev, link), init + [link])
  {
    var st := LocationStep(prev, link);
    var ls := init + [link];
    MergeUnique(prev.links, ActivityLocationKey, link);
    LocationStepNames(prev, init, link);
    LocationStepSeen(prev, init, link);
    LocationStepLinks(prev, init, link);
    assert forall n :: n in st.seen ==> Named(st.locations, n);
    assert forall i :: 0 <= i < |ls| && ls[i].locationId != "" ==> ls[i].locationId in st.seen;
    assert forall i :: 0 <= i < |ls| ==> ls[i] in st.links;
  }

  lemma LocationStepNames(prev: LocationState, init: seq<ActivityLocation>, link: ActivityLocation)
    requires LocationsCover(prev, init)
    ensures var st := LocationStep(prev, link);
      Unique(st.locations, LocationKey) && forall n :: n in st.seen ==> Named(st.locations, n)
  {
    var st := LocationStep(prev, link);
    var name := link.locationId;
    if name != "" && name !in prev.seen {
      MergeLocationNameSpec(prev.locations, name);
      forall n | n in st.seen
        ensures Named(st.locations, n)
      {
        if n != name {
          NamedKept(prev.locations, n, name);
        }
      }
    }
  }

  lemma LocationStepSeen(prev: LocationState, init: seq<ActivityLocation>, link: ActivityLocation)
    requires LocationsCover(prev, init)
    ensures var st := LocationStep(prev, link);
      forall i :: 0 <= i < |init| + 1 && (init + [link])[i].locationId != "" ==> (init + [link])[i].locationId in st.seen
  {
    var st := LocationStep(prev, link);
    var ls := init + [link];
    forall i | 0 <= i < |ls| && ls[i].locationId != ""
      ensures ls[i].locationId in st.seen
    {
      if i < |init| {
        assert ls[i] == init[i];
      }
    }
  }

  lemma LocationStepLinks(prev: LocationState, init: seq<ActivityLocation>, link: ActivityLocation)
    requires LocationsCover(prev, init)
    ensures var st := LocationStep(prev, link);
      forall i :: 0 <= i < |init| + 1 ==> (init + [link])[i] in st.links
  {
    var st := LocationStep(prev, link);
    var ls := init + [link];
    forall i | 0 <= i < |ls|
      ensures ls[i] in st.links
    {
      if i < |init| {
        assert ls[i] == init[i];
        LinkKept(prev.links, init[i], link);
      }
    }
  }

  /** A link row is all key, so merging never drops one. */
  lemma LinkKept(links: seq<ActivityLocation>, y: ActivityLocation, x: ActivityLocation)
    requires y in links
    ensures y in Merge(links, ActivityLocationKey, x)
  {
    if ActivityLocationKey(y) == ActivityLocationKey(x) {
      assert y == x;
    }
  }

  /** The loop over the Uitvoering Locaties sheet. */
  method LoadLocations(locations: seq<Location>, links: seq<ActivityLocation>, rows: seq<LocationRow>)
    returns (newLocations: seq<Location>, newLinks: seq<ActivityLocation>)
    ensures var st := LocationsIn(locations, links, MapRows(rows, LinkOf));
      newLocations == st.locations && newLinks == st.links
  {
    var seen: set<string> := {};
    newLocations, newLinks := locations, links;
    var i := 0;
    while i < |rows|
      invariant 0 <= i <= |rows|
      invariant LocationState(newLocations, newLinks, seen) == LocationsIn(locations, links, MapRows(rows[..i], LinkOf))
    {
      var link := LinkOf(rows[i]);
      LocationsColumn(locations, links, rows, i);
      var name := link.locationId;
      if name != "" && name !in seen {
        newLocations := MergeLocationName(newLocations, name);
        seen := seen + {name};
      }
      newLinks := Merge(newLinks, ActivityLocationKey, link);
      i := i + 1;
    }
    assert rows[..i] == rows;
  }

  lemma LocationsColumn(locations: seq<Location>, links: seq<ActivityLocation>, rows: seq<LocationRow>, i: nat)
    requires i < |rows|
    ensures LocationsIn(locations, links, MapRows(rows[..i + 1], LinkOf))
      == LocationStep(LocationsIn(locations, links, MapRows(rows[..i], LinkOf)), LinkOf(rows[i]))
  {
    var ls := MapRows(rows[..i + 1], LinkOf);
    MapRowsSnoc(rows, LinkOf, i);
    assert ls[..|ls| - 1] == MapRows(rows[..i], LinkOf);
  }

  // ---------------------------------------------------------------------------
  // 5. Roles (sheet Rollen)

  datatype RoleRow = RoleRow(refUitvoering: Cell, idLid: Cell, rol: Cell, rolBijnaam: Cell)

  /** The role of one row before the flush gives it a rowid (0 stands for "not yet"). */
  function RoleOf(row: RoleRow): Role {
    Role(0, NormalizeId(row.refUitvoering), StrippedText(row.idLid), PresentStripped(row.rol),
      PresentStripped(row.rolBijnaam), None, None)
  }

  /** `session.add` of one role per row, duplicates included; each gets the next rowid. */
  function RolesIn(roles: seq<Role>, ts: seq<Role>): seq<Role>
    decreases |ts|
  {
    if ts == [] then roles
    else
      var prev := RolesIn(roles, ts[..|ts| - 1]);
      prev + [ts[|ts| - 1].(id := NextId(prev, RoleKey))]
  }

  /** The rows after `roles` are the sheet's roles, one each and in order, each with its own id. */
  predicate RolesFromRows(r: seq<Role>, roles: seq<Role>, ts: seq<Role>) {
    |r| == |roles| + |ts| && r[..|roles|] == roles
    && forall i :: 0 <= i < |ts| ==> r[|roles| + i] == ts[i].(id := r[|roles| + i].id)
  }

  /**
   * Every row of Rollen adds exactly one role, even a row identical to an
   * earlier one; existing roles are untouched and ids stay unique.
   */
  lemma {:induction false} RolesInSpec(roles: seq<Role>, ts: seq<Role>)
    requires Unique(roles, RoleKey)
    ensures RolesFromRows(RolesIn(roles, ts), roles, ts) && Unique(RolesIn(roles, ts), RoleKey)
    decreases |ts|
  {
    if ts != [] {
      var init := ts[..|ts| - 1];
      RolesInSpec(roles, init);
      var prev := RolesIn(roles, init);
      var x := ts[|ts| - 1].(id := NextId(prev, RoleKey));
      var r := prev + [x];
      assert RolesIn(roles, ts) == r;
      NextIdFresh(prev, RoleKey);
      AppendUnique(prev, RoleKey, x);
      assert r[..|roles|] == prev[..|roles|];
      forall i | 0 <= i < |ts|
        ensures r[|roles| + i] == ts[i].(id := r[|roles| + i].id)
      {
        if i < |init| {
          assert init[i] == ts[i];
          assert r[|roles| + i] == prev[|roles| + i];
        }
      }
    }
  }

  /** The loop over the Rollen sheet. */
  method LoadRoles(roles: seq<Role>, rows: seq<RoleRow>) returns (r: seq<Role>)
    ensures r == RolesIn(roles, MapRows(rows, RoleOf))
  {
    r := roles;
    var i := 0;
    while i < |rows|
      invariant 0 <= i <= |rows|
      invariant r == RolesIn(roles, MapRows(rows[..i], RoleOf))
    {
      RolesColumn(roles, rows, i);
      r := r + [RoleOf(rows[i]).(id := NextId(r, RoleKey))];
      i := i + 1;
    }
    assert rows[..i] == rows;
  }

  lemma RolesColumn(roles: seq<Role>, rows: seq<RoleRow>, i: nat)
    requires i < |rows|
    ensures var prev := RolesIn(roles, MapRows(rows[..i], RoleOf));
      RolesIn(roles, MapRows(rows[..i + 1], RoleOf)) == prev + [RoleOf(rows[i]).(id := NextId(prev, RoleKey))]
  {
    var ts := MapRows(rows[..i + 1], RoleOf);
    MapRowsSnoc(rows, RoleOf, i);
    assert ts[..|ts| - 1] == MapRows(rows[..i], RoleOf);
  }

  // ---------------------------------------------------------------------------
  // 6. Media files and appearances (sheet Bestand)

  /** A row of Bestand; `lids[i]` is column `lid_i`, and a column past the end is absent. */
  datatype FileRow = FileRow(refUitvoering: Cell, bestand: Cell, typeMedia: Cell, bijschrift: Cell, lids: seq<Cell>)

  /** The member columns read: `lid_0` to `lid_15`. */
  const LidColumns: nat := 16

  /** The member columns the loop reads: `lid_0` to `lid_15`, as far as the sheet has them. */
  function ReadColumns(lids: seq<Cell>): (r: seq<Cell>)
    ensures |r| <= |lids| && |r| <= LidColumns && r == lids[..|r|]
    ensures |r| == if |lids| < LidColumns then |lids| else LidColumns
  {
    if |lids| <= LidColumns then lids else lids[..LidColumns]
  }

  /** The stripped member id of one column, or None when it is empty or blank. */
  function LidIn(c: Cell): (r: Option<string>)
    ensures r.Some? ==> r.value != "" && Strip(r.value) == r.value
  {
    if c.Some? && StrippedText(c) != "" then Some(StrippedText(c)) else None
  }

  /**
   * What both passes over Bestand read from a row: `act_id`, `filename`,
   * `type_media`, `bijschrift` and the member id of each column read.
   */
  datatype FileFields = FileFields(
    activityId: string, filename: string, typeMedia: string, caption: Option<string>, memberIds: seq<Option<string>>)

  function FieldsOf(row: FileRow): (f: FileFields)
    ensures |f.memberIds| <= LidColumns
  {
    FileFields(NormalizeId(row.refUitvoering), StrippedText(row.bestand), PyLower(StrippedText(row.typeMedia)),
      PresentStripped(row.bijschrift), MapRows(ReadColumns(row.lids), LidIn))
  }

  /** The rows the first pass keeps: activity id, file name and type all non-empty. */
  predicate IsComplete(f: FileFields) {
    f.activityId != "" && f.filename != "" && f.typeMedia != ""
  }

  /** An empty file-name cell is not skipped: `str(nan)` is the non-empty "nan". */
  lemma MissingFileNameKept()
    ensures var f := FieldsOf(FileRow(Some("x"), None, Some("foto"), None, []));
      IsComplete(f) && f.filename == MissingText
  {
    StripUnchanged("x");
    StripUnchanged(MissingText);
    StripUnchanged("foto");
    assert PyLower("foto")[0] == 'f';
  }

  lemma PyLowerKeepsDot(c: char)
    ensures PyLowerChar(c) == '.' <==> c == '.'
  {
  }

  /** `filename.rsplit('.', 1)[-1].lower() if '.' in filename else None`. */
  function FileExtension(filename: string): (r: Option<string>)
    ensures r.Some? <==> '.' in filename
    ensures r.Some? ==> '.' !in r.value && PyLower(r.value) == r.value
    ensures r.Some? ==>
      |r.value| < |filename| && filename[|filename| - |r.value| - 1] == '.'
      && r.value == PyLower(filename[|filename| - |r.value|..])
  {
    match FileUtils.LastIndexOf(filename, '.')
    case None => None
    case Some(i) =>
      var tail := filename[i + 1..];
      var e := PyLower(tail);
      PyLowerIdempotent(tail);
      assert forall k :: 0 <= k < |tail| ==> tail[k] != '.' && e[k] == PyLowerChar(tail[k]);
      assert forall k :: 0 <= k < |e| ==> e[k] != '.' by {
        forall k | 0 <= k < |e|
          ensures e[k] != '.'
        {
          PyLowerKeepsDot(tail[k]);
        }
      }
      Some(e)
  }

  /** The media item of a complete row, with the rowid the flush gives it. */
  function ItemOf(f: FileFields, id: int): MediaItem {
    MediaItem(id, f.activityId, f.filename, f.typeMedia, FileExtension(f.filename), None, None, f.caption, None, 0)
  }

  /** The appearances of the member ids `ids`, column i at display order i + 1; a blank column adds none. */
  function AppearancesIn(
    apps: seq<MediaAppearance>, mediaId: int, activityId: string, ids: seq<Option<string>>): seq<MediaAppearance>
    decreases |ids|
  {
    if ids == [] then apps
    else
      var prev := AppearancesIn(apps, mediaId, activityId, ids[..|ids| - 1]);
      match ids[|ids| - 1]
      case None => prev
      case Some(m) => prev + [MediaAppearance(NextId(prev, AppearanceKey), mediaId, m, None, activityId, None, |ids|, None)]
  }

  /** The number of member ids present. */
  function CountIds(ids: seq<Option<string>>): nat
    decreases |ids|
  {
    if ids == [] then 0 else CountIds(ids[..|ids| - 1]) + (if ids[|ids| - 1].Some? then 1 else 0)
  }

  /** Which item, member and position an appearance records. */
  function Slot(a: MediaAppearance): (int, string, int) { (a.mediaId, a.memberId, a.displayOrder) }

  /** The columns appended rows after `apps` and kept the ids unique. */
  ghost predicate Grown(r: seq<MediaAppearance>, apps: seq<MediaAppearance>, ids: seq<Option<string>>) {
    Unique(r, AppearanceKey) && |r| == |apps| + CountIds(ids) && r[..|apps|] == apps
  }

  /** The appearances after `from` belong to the item and activity, without a role, at the position of a column holding their member. */
  predicate AppearancesFor(r: seq<MediaAppearance>, from: nat, mediaId: int, activityId: string, ids: seq<Option<string>>) {
    from <= |r|
    && forall k :: from <= k < |r| ==>
      (r[k].mediaId == mediaId && r[k].activityId == activityId && r[k].roleId.None?
       && 1 <= r[k].displayOrder <= |ids| && ids[r[k].displayOrder - 1] == Some(r[k].memberId))
  }

  /** Every column holding a member id has its appearance. */
  predicate SlotsFilled(r: seq<MediaAppearance>, mediaId: int, ids: seq<Option<string>>) {
    forall i :: 0 <= i < |ids| && ids[i].Some? ==> HasKey(r, Slot, (mediaId, ids[i].value, i + 1))
  }

  /**
   * The member columns add one appearance per member id, column i at display
   * order i + 1, for the item and its activity; the rows already there are
   * untouched and ids stay unique.
   */
  lemma AppearancesInSpec(apps: seq<MediaAppearance>, mediaId: int, activityId: string, ids: seq<Option<string>>)
    requires Unique(apps, AppearanceKey)
    ensures var r := AppearancesIn(apps, mediaId, activityId, ids);
      Grown(r, apps, ids) && AppearancesFor(r, |apps|, mediaId, activityId, ids) && SlotsFilled(r, mediaId, ids)
  {
    AppearancesGrow(apps, mediaId, activityId, ids);
    AppearancesBelong(apps, mediaId, activityId, ids);
    AppearancesFill(apps, mediaId, activityId, ids);
  }

  lemma {:induction false} AppearancesGrow(apps: seq<MediaAppearance>, mediaId: int, activityId: string, ids: seq<Option<string>>)
    requires Unique(apps, AppearanceKey)
    ensures Grown(AppearancesIn(apps, mediaId, activityId, ids), apps, ids)
    decreases |ids|
  {
    if ids != [] {
      var prev := AppearancesIn(apps, mediaId, activityId, ids[..|ids| - 1]);
      var r := AppearancesIn(apps, mediaId, activityId, ids);
      AppearancesGrow(apps, mediaId, activityId, ids[..|ids| - 1]);
      if ids[|ids| - 1].Some? {
        var a := MediaAppearance(NextId(prev, AppearanceKey), mediaId, ids[|ids| - 1].value, None, activityId, None, |ids|, None);
        assert r == prev + [a];
        NextIdFresh(prev, AppearanceKey);
        AppendUnique(prev, AppearanceKey, a);
        assert r[..|apps|] == prev[..|apps|];
      }
    } else {
      assert apps[..|apps|] == apps;
    }
  }

  lemma {:induction false} AppearancesBelong(apps: seq<MediaAppearance>, mediaId: int, activityId: string, ids: seq<Option<string>>)
    ensures AppearancesFor(AppearancesIn(apps, mediaId, activityId, ids), |apps|, mediaId, activityId, ids)
    decreases |ids|
  {
    if ids != [] {
      var init := ids[..|ids| - 1];
      AppearancesBelong(apps, mediaId, activityId, init);
      var prev := AppearancesIn(apps, mediaId, activityId, init);
      var r := AppearancesIn(apps, mediaId, activityId, ids);
      assert forall i :: 0 <= i < |init| ==> init[i] == ids[i];
      if ids[|ids| - 1].Some? {
        var a := MediaAppearance(NextId(prev, AppearanceKey), mediaId, ids[|ids| - 1].value, None, activityId, None, |ids|, None);
        assert r == prev + [a];
        assert forall k :: 0 <= k < |prev| ==> r[k] == prev[k];
      }
    }
  }

  lemma {:induction false} AppearancesFill(apps: seq<MediaAppearance>, mediaId: int, activityId: string, ids: seq<Option<string>>)
    ensures SlotsFilled(AppearancesIn(apps, mediaId, activityId, ids), mediaId, ids)
    decreases |ids|
  {
    if ids != [] {
      var init := ids[..|ids| - 1];
      var n := |ids|;
      AppearancesFill(apps, mediaId, activityId, init);
      var prev := AppearancesIn(apps, mediaId, activityId, init);
      var r := AppearancesIn(apps, mediaId, activityId, ids);
      assert forall i :: 0 <= i < |init| ==> init[i] == ids[i];
      if ids[n - 1].Some? {
        var a := MediaAppearance(NextId(prev, AppearanceKey), mediaId, ids[n - 1].value, None, activityId, None, n, None);
        assert r == prev + [a];
        assert Slot(r[|prev|]) == (mediaId, ids[n - 1].value, n);
        forall i | 0 <= i < n - 1 && ids[i].Some?
          ensures HasKey(r, Slot, (mediaId, ids[i].value, i + 1))
        {
          var k :| 0 <= k < |prev| && Slot(prev[k]) == (mediaId, init[i].value, i + 1);
          assert r[k] == prev[k];
        }
      }
    }
  }

  /** The inner loop over `lid_0` to `lid_15`: a column the row lacks, or a blank one, is passed over. */
  method AddAppearances(apps: seq<MediaAppearance>, mediaId: int, activityId: string, lids: seq<Cell>)
    returns (r: seq<MediaAppearance>)
    ensures r == AppearancesIn(apps, mediaId, activityId, MapRows(ReadColumns(lids), LidIn))
  {
    var cols := ReadColumns(lids);
    r := apps;
    var i := 0;
    while i < |cols|
      invariant 0 <= i <= |cols|
      invariant r == AppearancesIn(apps, mediaId, activityId, MapRows(cols[..i], LidIn))
    {
      var id := LidIn(cols[i]);
      AppearancesColumn(apps, mediaId, activityId, cols, i);
      if id.Some? {
        r := r + [MediaAppearance(NextId(r, AppearanceKey), mediaId, id.value, None, activityId, None, i + 1, None)];
      }
      i := i + 1;
    }
    assert cols[..i] == cols;
  }

  /** Reading column i extends the appearances of the columns before it. */
  lemma AppearancesColumn(apps: seq<MediaAppearance>, mediaId: int, activityId: string, cols: seq<Cell>, i: nat)
    requires i < |cols|
    ensures var prev := AppearancesIn(apps, mediaId, activityId, MapRows(cols[..i], LidIn));
      var next := AppearancesIn(apps, mediaId, activityId, MapRows(cols[..i + 1], LidIn));
      (LidIn(cols[i]).None? ==> next == prev)
      && (LidIn(cols[i]).Some? ==>
            next == prev + [MediaAppearance(NextId(prev, AppearanceKey), mediaId, LidIn(cols[i]).value, None, activityId, None, i + 1, None)])
  {
    var ids := MapRows(cols[..i + 1], LidIn);
    MapRowsSnoc(cols, LidIn, i);
    assert ids[..|ids| - 1] == MapRows(cols[..i], LidIn);
  }

  /** The tables the first pass over Bestand writes. */
  datatype MediaState = MediaState(items: seq<MediaItem>, appearances: seq<MediaAppearance>)

  /** One row: skipped when incomplete, otherwise a new item followed by its appearances. */
  function MediaStep(st: MediaState, f: FileFields): MediaState {
    if !IsComplete(f) then st
    else
      var item := ItemOf(f, NextId(st.items, MediaItemKey));
      MediaState(st.items + [item], AppearancesIn(st.appearances, item.id, f.activityId, f.memberIds))
  }

  /** The first pass over the rows of Bestand, as read. */
  function MediaFilesIn(items: seq<MediaItem>, apps: seq<MediaAppearance>, fs: seq<FileFields>): MediaState
    decreases |fs|
  {
    if fs == [] then MediaState(items, apps)
    else MediaStep(MediaFilesIn(items, apps, fs[..|fs| - 1]), fs[|fs| - 1])
  }

  /** An item's id paired with its activity, the pair its appearances copy. */
  function ItemActivity(m: MediaItem): (int, string) { (m.id, m.activityId) }

  /** Every appearance from `from` on belongs to an item of `items` and carries that item's activity. */
  ghost predicate Backed(items: seq<MediaItem>, apps: seq<MediaAppearance>, from: nat) {
    forall k :: from <= k < |apps| ==>
      (HasKey(items, ItemActivity, (apps[k].mediaId, apps[k].activityId))
       && apps[k].roleId.None? && 1 <= apps[k].displayOrder <= LidColumns)
  }

  /**
   * What the first pass leaves: one new item per complete row, in order, with
   * every NOT NULL column non-empty; every new appearance belongs to a new item
   * and carries that item's activity; nothing before is changed and ids stay
   * unique.
   */
  ghost predicate MediaLoaded(st: MediaState, items: seq<MediaItem>, apps: seq<MediaAppearance>, fs: seq<FileFields>) {
    var kept := Ordering.Filter(fs, IsComplete);
    Unique(st.items, MediaItemKey) && Unique(st.appearances, AppearanceKey)
    && |st.items| == |items| + |kept| && st.items[..|items|] == items
    && (forall j :: 0 <= j < |kept| ==> st.items[|items| + j] == ItemOf(kept[j], st.items[|items| + j].id))
    && |apps| <= |st.appearances| && st.appearances[..|apps|] == apps
    && Backed(st.items, st.appearances, |apps|)
  }

  /** Rows read with at most sixteen member columns. */
  predicate ColumnsRead(fs: seq<FileFields>) {
    forall i :: 0 <= i < |fs| ==> |fs[i].memberIds| <= LidColumns
  }

  lemma {:induction false} MediaFilesInSpec(items: seq<MediaItem>, apps: seq<MediaAppearance>, fs: seq<FileFields>)
    requires Unique(items, MediaItemKey) && Unique(apps, AppearanceKey) && ColumnsRead(fs)
    ensures MediaLoaded(MediaFilesIn(items, apps, fs), items, apps, fs)
    decreases |fs|
  {
    if fs == [] {
      assert items[..|items|] == items && apps[..|apps|] == apps;
    } else {
      var init := fs[..|fs| - 1];
      assert forall i :: 0 <= i < |init| ==> init[i] == fs[i];
      MediaFilesInSpec(items, apps, init);
      var prev := MediaFilesIn(items, apps, init);
      assert init + [fs[|fs| - 1]] == fs;
      if IsComplete(fs[|fs| - 1]) {
        MediaStepComplete(prev, items, apps, init, fs[|fs| - 1]);
      } else {
        assert Ordering.Filter(fs, IsComplete) == Ordering.Filter(init, IsComplete);
      }
    }
  }

  lemma MediaStepComplete(prev: MediaState, items: seq<MediaItem>, apps: seq<MediaAppearance>, init: seq<FileFields>, f: FileFields)
    requires MediaLoaded(prev, items, apps, init) && IsComplete(f) && |f.memberIds| <= LidColumns
    ensures MediaLoaded(MediaStep(prev, f), items, apps, init + [f])
  {
    var fs := init + [f];
    assert fs[..|fs| - 1] == init;
    var kept := Ordering.Filter(fs, IsComplete);
    var keptInit := Ordering.Filter(init, IsComplete);
    assert kept == keptInit + [f];
    var item := ItemOf(f, NextId(prev.items, MediaItemKey));
    var st := MediaStep(prev, f);
    assert st.items == prev.items + [item];
    NextIdFresh(prev.items, MediaItemKey);
    AppendUnique(prev.items, MediaItemKey, item);
    AppearancesInSpec(prev.appearances, item.id, f.activityId, f.memberIds);
    assert st.items[..|items|] == prev.items[..|items|];
    assert st.appearances[..|apps|] == prev.appearances[..|apps|];
    forall j | 0 <= j < |kept|
      ensures st.items[|items| + j] == ItemOf(kept[j], st.items[|items| + j].id)
    {
      if j < |keptInit| {
        assert kept[j] == keptInit[j];
        assert st.items[|items| + j] == prev.items[|items| + j];
      }
    }
    MediaStepBacked(prev, apps, f);
  }

  lemma MediaStepBacked(prev: MediaState, apps: seq<MediaAppearance>, f: FileFields)
    requires Backed(prev.items, prev.appearances, |apps|) && |apps| <= |prev.appearances|
    requires Unique(prev.appearances, AppearanceKey) && IsComplete(f) && |f.memberIds| <= LidColumns
    ensures var st := MediaStep(prev, f); Backed(st.items, st.appearances, |apps|)
  {
    var item := ItemOf(f, NextId(prev.items, MediaItemKey));
    var st := MediaStep(prev, f);
    AppearancesInSpec(prev.appearances, item.id, f.activityId, f.memberIds);
    assert st.items[|prev.items|] == item;
    forall k | |apps| <= k < |st.appearances|
      ensures HasKey(st.items, ItemActivity, (st.appearances[k].mediaId, st.appearances[k].activityId))
      ensures st.appearances[k].roleId.None? && 1 <= st.appearances[k].displayOrder <= LidColumns
    {
      if k < |prev.appearances| {
        assert st.appearances[k] == prev.appearances[k];
        var w :| 0 <= w < |prev.items| && ItemActivity(prev.items[w]) == (prev.appearances[k].mediaId, prev.appearances[k].activityId);
        assert st.items[w] == prev.items[w];
      } else {
        assert ItemActivity(st.items[|prev.items|]) == (st.appearances[k].mediaId, st.appearances[k].activityId);
      }
    }
  }

  /** The first loop over Bestand. */
  method LoadMediaFiles(items: seq<MediaItem>, apps: seq<MediaAppearance>, rows: seq<FileRow>)
    returns (newItems: seq<MediaItem>, newApps: seq<MediaAppearance>)
    ensures MediaState(newItems, newApps) == MediaFilesIn(items, apps, MapRows(rows, FieldsOf))
  {
    newItems, newApps := items, apps;
    var i := 0;
    while i < |rows|
      invariant 0 <= i <= |rows|
      invariant MediaState(newItems, newApps) == MediaFilesIn(items, apps, MapRows(rows[..i], FieldsOf))
    {
      var f := FieldsOf(rows[i]);
      MapRowsSnoc(rows, FieldsOf, i);
      assert (MapRows(rows[..i], FieldsOf) + [f])[..i] == MapRows(rows[..i], FieldsOf);
      if f.activityId != "" && f.filename != "" && f.typeMedia != "" {
        var item := ItemOf(f, NextId(newItems, MediaItemKey));
        newItems := newItems + [item];
        newApps := AddAppearances(newApps, item.id, f.activityId, rows[i].lids);
      }
      i := i + 1;
    }
    assert rows[..i] == rows;
  }

  // ---------------------------------------------------------------------------
  // 7. Mentions derived from the file sheet (second pass over Bestand)

  /** The media types whose rows are also recorded as mentions. */
  const MentionTypes: seq<string> := ["krantenartikel", "jaarverslag", "nieuwsbrief", "notulen"]

  const DerivedNotesPrefix: string := "Derived from Bestand sheet: "

  /** The second pass takes every row of a mention type, complete or not. */
  predicate IsMention(f: FileFields) {
    f.typeMedia in MentionTypes
  }

  /** The mention of one row: `title` is the caption when it is non-empty, else the file name. */
  function MentionOf(f: FileFields, id: int): (m: MediaMention)
    ensures m.title.Some? && (Truthy(f.caption) ==> m.title == f.caption) && (!Truthy(f.caption) ==> m.title == Some(f.filename))
    ensures m.source == Some(Capitalize(f.typeMedia)) && m.mediaType == Some(f.typeMedia) && m.description == f.caption
    ensures m.id == id && m.date.None? && m.url.None?
    ensures m.notes == Some(DerivedNotesPrefix + f.filename)
  {
    MediaMention(id, None, Some(Capitalize(f.typeMedia)), Some(if Truthy(f.caption) then f.caption.value else f.filename),
      None, Some(f.typeMedia), f.caption, Some(DerivedNotesPrefix + f.filename))
  }

  /**
   * The member links of one mention, one per member id in column order; a
   * link whose pair is already in the table violates its primary key.
   */
  function MentionMembersIn(links: seq<MentionMember>, mentionId: int, ids: seq<Option<string>>): (r: Result<seq<MentionMember>, ServiceError>)
    ensures r.Failure? ==> r.error == IntegrityError(MediaMentionService.DuplicateMemberLinkMessage)
    decreases |ids|
  {
    if ids == [] then Success(links)
    else match MentionMembersIn(links, mentionId, ids[..|ids| - 1])
      case Failure(e) => Failure(e)
      case Success(prev) =>
        match ids[|ids| - 1]
        case None => Success(prev)
        case Some(m) =>
          if HasKey(prev, MentionMemberKey, (mentionId, m)) then Failure(IntegrityError(MediaMentionService.DuplicateMemberLinkMessage))
          else Success(prev + [MentionMember(mentionId, m, None, None)])
  }

  /** No member id appears in two columns. */
  predicate DistinctIds(ids: seq<Option<string>>) {
    forall i, j :: 0 <= i < j < |ids| && ids[j].Some? ==> ids[i] != ids[j]
  }

  /** No member id of the columns is linked to the mention already. */
  predicate LinkFree(links: seq<MentionMember>, mentionId: int, ids: seq<Option<string>>) {
    forall i :: 0 <= i < |ids| && ids[i].Some? ==> !HasKey(links, MentionMemberKey, (mentionId, ids[i].value))
  }

  /** What a successful pass over the columns leaves: the old links, then links of the mention to members of the columns, every such member linked. */
  ghost predicate MemberLinksAdded(r: seq<MentionMember>, links: seq<MentionMember>, mentionId: int, ids: seq<Option<string>>) {
    |links| <= |r| && r[..|links|] == links
    && (forall k :: |links| <= k < |r| ==> r[k].mentionId == mentionId && Some(r[k].memberId) in ids && r[k].roleContext.None? && r[k].notes.None?)
    && (forall i :: 0 <= i < |ids| && ids[i].Some? ==> HasKey(r, MentionMemberKey, (mentionId, ids[i].value)))
    && (Unique(links, MentionMemberKey) ==> Unique(r, MentionMemberKey))
  }

  lemma {:induction false} MentionMembersGrow(links: seq<MentionMember>, mentionId: int, ids: seq<Option<string>>)
    ensures var r := MentionMembersIn(links, mentionId, ids); r.Success? ==> MemberLinksAdded(r.value, links, mentionId, ids)
    decreases |ids|
  {
    var r := MentionMembersIn(links, mentionId, ids);
    if ids == [] {
      assert links[..|links|] == links;
    } else if r.Success? {
      var init := ids[..|ids| - 1];
      MentionMembersGrow(links, mentionId, init);
      var prev := MentionMembersIn(links, mentionId, init).value;
      assert init + [ids[|ids| - 1]] == ids;
      if ids[|ids| - 1].Some? {
        MemberLinkAdded(prev, links, mentionId, init, ids[|ids| - 1].value);
      } else {
        MemberColumnEmpty(prev, links, mentionId, init);
      }
    }
  }

  lemma MemberLinkAdded(prev: seq<MentionMember>, links: seq<MentionMember>, mentionId: int, init: seq<Option<string>>, m: string)
    requires MemberLinksAdded(prev, links, mentionId, init)
    ensures var x := MentionMember(mentionId, m, None, None);
      !HasKey(prev, MentionMemberKey, (mentionId, m)) ==> MemberLinksAdded(prev + [x], links, mentionId, init + [Some(m)])
  {
    var x := MentionMember(mentionId, m, None, None);
    if !HasKey(prev, MentionMemberKey, (mentionId, m)) {
      var ids := init + [Some(m)];
      var r := prev + [x];
      assert forall i :: 0 <= i < |init| ==> ids[i] == init[i];
      assert forall y :: y in init ==> y in ids;
      assert r[..|links|] == prev[..|links|];
      assert forall k :: 0 <= k < |prev| ==> r[k] == prev[k];
      assert MentionMemberKey(r[|prev|]) == (mentionId, m);
      if Unique(links, MentionMemberKey) {
        AppendUnique(prev, MentionMemberKey, x);
      }
      forall i | 0 <= i < |ids| - 1 && ids[i].Some?
        ensures HasKey(r, MentionMemberKey, (mentionId, ids[i].value))
      {
        var k :| 0 <= k < |prev| && MentionMemberKey(prev[k]) == (mentionId, init[i].value);
        assert r[k] == prev[k];
      }
    }
  }

  lemma MemberColumnEmpty(prev: seq<MentionMember>, links: seq<MentionMember>, mentionId: int, init: seq<Option<string>>)
    requires MemberLinksAdded(prev, links, mentionId, init)
    ensures MemberLinksAdded(prev, links, mentionId, init + [None])
  {
    var ids := init + [None];
    assert forall i :: 0 <= i < |init| ==> ids[i] == init[i];
    assert forall y :: y in init ==> y in ids;
  }

  /**
   * The member links of a mention are written exactly when no member id repeats
   * among the columns and none of them is linked to the mention already.
   */
  lemma {:induction false} MentionMembersSucceeds(links: seq<MentionMember>, mentionId: int, ids: seq<Option<string>>)
    ensures MentionMembersIn(links, mentionId, ids).Success? <==> DistinctIds(ids) && LinkFree(links, mentionId, ids)
    decreases |ids|
  {
    if ids != [] {
      var n := |ids|;
      var init := ids[..n - 1];
      MentionMembersSucceeds(links, mentionId, init);
      assert forall i :: 0 <= i < |init| ==> init[i] == ids[i];
      var pr := MentionMembersIn(links, mentionId, init);
      if pr.Failure? {
        assert !(DistinctIds(init) && LinkFree(links, mentionId, init));
      } else if ids[n - 1].Some? {
        var m := ids[n - 1].value;
        MentionMembersGrow(links, mentionId, init);
        var prev := pr.value;
        assert DistinctIds(init) && LinkFree(links, mentionId, init);
        if HasKey(prev, MentionMemberKey, (mentionId, m)) {
          var k :| 0 <= k < |prev| && MentionMemberKey(prev[k]) == (mentionId, m);
          if k < |links| {
            assert prev[k] == links[k];
            assert !LinkFree(links, mentionId, ids);
          } else {
            var i :| 0 <= i < |init| && init[i] == Some(prev[k].memberId);
            assert ids[i] == ids[n - 1];
          }
        } else {
          forall k | 0 <= k < |links|
            ensures MentionMemberKey(links[k]) != (mentionId, m)
          {
            assert prev[k] == links[k];
          }
          forall i | 0 <= i < n - 1 && ids[i].Some?
            ensures ids[i] != ids[n - 1]
          {
            assert HasKey(prev, MentionMemberKey, (mentionId, init[i].value));
          }
        }
      }
    }
  }

  /** The tables the second pass writes. */
  datatype MentionState = MentionState(mentions: seq<MediaMention>, members: seq<MentionMember>, activities: seq<MentionActivity>)

  /** The activity link of a new mention, when the row names an activity. */
  function MentionActivityIn(links: seq<MentionActivity>, mentionId: int, activityId: string): (r: Result<seq<MentionActivity>, ServiceError>)
    ensures r.Success? <==> activityId == "" || !HasKey(links, MentionActivityKey, (mentionId, activityId))
    ensures r.Failure? ==> r.error == IntegrityError(MediaMentionService.DuplicateActivityLinkMessage)
    ensures r.Success? ==> r.value == links + (if activityId == "" then [] else [MentionActivity(mentionId, activityId, None, None)])
  {
    if activityId == "" then Success(links)
    else if HasKey(links, MentionActivityKey, (mentionId, activityId)) then Failure(IntegrityError(MediaMentionService.DuplicateActivityLinkMessage))
    else Success(links + [MentionActivity(mentionId, activityId, None, None)])
  }

  /** One row: rows of other types are passed over; otherwise a new mention with its activity and member links. */
  function MentionStep(st: MentionState, f: FileFields): Result<MentionState, ServiceError> {
    if !IsMention(f) then Success(st)
    else
      var m := MentionOf(f, NextId(st.mentions, MentionKey));
      match MentionActivityIn(st.activities, m.id, f.activityId)
      case Failure(e) => Failure(e)
      case Success(acts) =>
        match MentionMembersIn(st.members, m.id, f.memberIds)
        case Failure(e) => Failure(e)
        case Success(members) => Success(MentionState(st.mentions + [m], members, acts))
  }

  /** The second pass over the rows of Bestand, as read; the first integrity error ends it. */
  function MentionsIn(st: MentionState, fs: seq<FileFields>): Result<MentionState, ServiceError>
    decreases |fs|
  {
    if fs == [] then Success(st)
    else match MentionsIn(st, fs[..|fs| - 1])
      case Failure(e) => Failure(e)
      case Success(prev) => MentionStep(prev, fs[|fs| - 1])
  }

  /** Every link refers to an existing mention. */
  ghost predicate NoOrphans(st: MentionState) {
    (forall k :: 0 <= k < |st.members| ==> HasKey(st.mentions, MentionKey, st.members[k].mentionId))
    && (forall k :: 0 <= k < |st.activities| ==> HasKey(st.mentions, MentionKey, st.activities[k].mentionId))
  }

  /** The primary keys of the three tables hold and no link is an orphan. */
  ghost predicate MentionsValid(st: MentionState) {
    Unique(st.mentions, MentionKey) && Unique(st.members, MentionMemberKey)
    && Unique(st.activities, MentionActivityKey) && NoOrphans(st)
  }

  /** The mention tables after `st` are `st` extended: rows are only appended. */
  ghost predicate Extends(r: MentionState, st: MentionState) {
    |st.mentions| <= |r.mentions| && r.mentions[..|st.mentions|] == st.mentions
    && |st.members| <= |r.members| && r.members[..|st.members|] == st.members
    && |st.activities| <= |r.activities| && r.activities[..|st.activities|] == st.activities
  }

  /**
   * With no orphan links, a row fails exactly when a member id repeats among its
   * columns; a mention row adds its mention and links and keeps the tables
   * valid, and any other row changes nothing.
   */
  lemma MentionStepSpec(st: MentionState, f: FileFields)
    requires MentionsValid(st)
    ensures var r := MentionStep(st, f);
      (r.Success? <==> (IsMention(f) ==> DistinctIds(f.memberIds)))
      && (r.Success? ==>
            (MentionsValid(r.value) && Extends(r.value, st)
             && r.value.mentions == st.mentions + (if IsMention(f) then [MentionOf(f, NextId(st.mentions, MentionKey))] else [])))
  {
    if IsMention(f) {
      var id := NextId(st.mentions, MentionKey);
      var m := MentionOf(f, id);
      NextIdFresh(st.mentions, MentionKey);
      forall k | 0 <= k < |st.activities|
        ensures st.activities[k].mentionId != id
      {
        var w :| 0 <= w < |st.mentions| && MentionKey(st.mentions[w]) == st.activities[k].mentionId;
      }
      forall k | 0 <= k < |st.members|
        ensures st.members[k].mentionId != id
      {
        var w :| 0 <= w < |st.mentions| && MentionKey(st.mentions[w]) == st.members[k].mentionId;
      }
      assert !HasKey(st.activities, MentionActivityKey, (id, f.activityId));
      assert LinkFree(st.members, id, f.memberIds);
      MentionMembersSucceeds(st.members, id, f.memberIds);
      var mr := MentionMembersIn(st.members, id, f.memberIds);
      if mr.Success? {
        MentionMembersGrow(st.members, id, f.memberIds);
        MentionStepValid(st, f, mr.value);
      }
    } else {
      assert st.mentions[..|st.mentions|] == st.mentions;
      assert st.members[..|st.members|] == st.members;
      assert st.activities[..|st.activities|] == st.activities;
    }
  }

  lemma MentionStepValid(st: MentionState, f: FileFields, members: seq<MentionMember>)
    requires MentionsValid(st) && IsMention(f)
    requires !HasKey(st.activities, MentionActivityKey, (NextId(st.mentions, MentionKey), f.activityId))
    requires MemberLinksAdded(members, st.members, NextId(st.mentions, MentionKey), f.memberIds)
    requires MentionMembersIn(st.members, NextId(st.mentions, MentionKey), f.memberIds) == Success(members)
    ensures MentionStep(st, f).Success? && MentionsValid(MentionStep(st, f).value) && Extends(MentionStep(st, f).value, st)
  {
    var id := NextId(st.mentions, MentionKey);
    var m := MentionOf(f, id);
    var acts := MentionActivityIn(st.activities, id, f.activityId).value;
    var r := MentionState(st.mentions + [m], members, acts);
    assert MentionStep(st, f) == Success(r);
    NextIdFresh(st.mentions, MentionKey);
    AppendUnique(st.mentions, MentionKey, m);
    if f.activityId != "" {
      AppendUnique(st.activities, MentionActivityKey, MentionActivity(id, f.activityId, None, None));
    }
    assert r.mentions[|st.mentions|] == m;
    assert forall k :: 0 <= k < |st.mentions| ==> r.mentions[k] == st.mentions[k];
    forall k | 0 <= k < |r.members|
      ensures HasKey(r.mentions, MentionKey, r.members[k].mentionId)
    {
      if k < |st.members| {
        assert r.members[k] == st.members[k];
        var w :| 0 <= w < |st.mentions| && MentionKey(st.mentions[w]) == st.members[k].mentionId;
        assert r.mentions[w] == st.mentions[w];
      } else {
        assert MentionKey(r.mentions[|st.mentions|]) == r.members[k].mentionId;
      }
    }
    forall k | 0 <= k < |r.activities|
      ensures HasKey(r.mentions, MentionKey, r.activities[k].mentionId)
    {
      if k < |st.activities| {
        assert r.activities[k] == st.activities[k];
        var w :| 0 <= w < |st.mentions| && MentionKey(st.mentions[w]) == st.activities[k].mentionId;
        assert r.mentions[w] == st.mentions[w];
      } else {
        assert MentionKey(r.mentions[|st.mentions|]) == r.activities[k].mentionId;
      }
    }
    assert r.mentions[..|st.mentions|] == st.mentions;
    assert r.activities[..|st.activities|] == st.activities;
  }

  /** Every mention row names each member at most once. */
  predicate MentionRowsDistinct(fs: seq<FileFields>) {
    forall j :: 0 <= j < |fs| && IsMention(fs[j]) ==> DistinctIds(fs[j].memberIds)
  }

  /** What a successful second pass leaves: valid tables, rows only appended, and one mention per mention row, in order. */
  ghost predicate MentionsAdded(s: MentionState, st: MentionState, fs: seq<FileFields>) {
    var kept := Ordering.Filter(fs, IsMention);
    MentionsValid(s) && Extends(s, st)
    && |s.mentions| == |st.mentions| + |kept|
    && forall j :: 0 <= j < |kept| ==> s.mentions[|st.mentions| + j] == MentionOf(kept[j], s.mentions[|st.mentions| + j].id)
  }

  /**
   * The second pass, from tables without orphan links, succeeds exactly when no
   * mention row repeats a member id; it then adds one mention per mention row,
   * in order, keeps the tables valid and changes no row already there.
   */
  lemma {:induction false} MentionsInSpec(st: MentionState, fs: seq<FileFields>)
    requires MentionsValid(st)
    ensures MentionsIn(st, fs).Success? <==> MentionRowsDistinct(fs)
    ensures MentionsIn(st, fs).Success? ==> MentionsAdded(MentionsIn(st, fs).value, st, fs)
    decreases |fs|
  {
    if fs == [] {
      assert st.mentions[..|st.mentions|] == st.mentions;
      assert st.members[..|st.members|] == st.members;
      assert st.activities[..|st.activities|] == st.activities;
    } else {
      var init := fs[..|fs| - 1];
      var f := fs[|fs| - 1];
      assert init + [f] == fs;
      MentionsInSpec(st, init);
      MentionRowsDistinctSnoc(init, f);
      var pr := MentionsIn(st, init);
      if pr.Success? {
        MentionStepSpec(pr.value, f);
        var r := MentionStep(pr.value, f);
        if r.Success? {
          MentionsAddedStep(st, init, f, pr.value, r.value);
        }
      }
    }
  }

  lemma MentionRowsDistinctSnoc(init: seq<FileFields>, f: FileFields)
    ensures MentionRowsDistinct(init + [f]) <==> MentionRowsDistinct(init) && (IsMention(f) ==> DistinctIds(f.memberIds))
  {
    var fs := init + [f];
    assert forall i :: 0 <= i < |init| ==> fs[i] == init[i];
    assert fs[|init|] == f;
  }

  lemma MentionsAddedStep(st: MentionState, init: seq<FileFields>, f: FileFields, prev: MentionState, s: MentionState)
    requires MentionsAdded(prev, st, init)
    requires MentionsValid(s) && Extends(s, prev)
    requires s.mentions == prev.mentions + (if IsMention(f) then [MentionOf(f, NextId(prev.mentions, MentionKey))] else [])
    ensures MentionsAdded(s, st, init + [f])
  {
    var fs := init + [f];
    assert fs[..|fs| - 1] == init;
    assert s.mentions[..|st.mentions|] == prev.mentions[..|st.mentions|];
    assert s.members[..|st.members|] == prev.members[..|st.members|];
    assert s.activities[..|st.activities|] == prev.activities[..|st.activities|];
    var keptInit := Ordering.Filter(init, IsMention);
    var kept := Ordering.Filter(fs, IsMention);
    assert kept == keptInit + (if IsMention(f) then [f] else []);
    forall j | 0 <= j < |kept|
      ensures s.mentions[|st.mentions| + j] == MentionOf(kept[j], s.mentions[|st.mentions| + j].id)
    {
      if j < |keptInit| {
        assert kept[j] == keptInit[j];
        assert s.mentions[|st.mentions| + j] == prev.mentions[|st.mentions| + j];
      }
    }
  }

  /** A mention row is recorded even when the first pass skipped it for lacking an activity id. */
  lemma IncompleteRowsMentioned(st: MentionState, f: FileFields)
    requires MentionsValid(st) && IsMention(f) && f.activityId == "" && DistinctIds(f.memberIds)
    ensures !IsComplete(f)
    ensures var r := MentionStep(st, f);
      r.Success? && r.value.mentions == st.mentions + [MentionOf(f, NextId(st.mentions, MentionKey))]
      && r.value.activities == st.activities
  {
    MentionStepSpec(st, f);
  }

  /** The inner loop over `lid_0` to `lid_15` of the second pass. */
  method AddMentionMembers(links: seq<MentionMember>, mentionId: int, lids: seq<Cell>)
    returns (r: Result<seq<MentionMember>, ServiceError>)
    ensures r == MentionMembersIn(links, mentionId, MapRows(ReadColumns(lids), LidIn))
  {
    r := Success(links);
    var i := 0;
    while i < LidColumns
      invariant 0 <= i <= LidColumns
      invariant r == MentionMembersIn(links, mentionId, MapRows(lids[..if i < |lids| then i else |lids|], LidIn))
    {
      if i < |lids| {
        var id := LidIn(lids[i]);
        MentionMembersColumn(links, mentionId, lids, i);
        if r.Success? && id.Some? {
          if HasKey(r.value, MentionMemberKey, (mentionId, id.value)) {
            r := Failure(IntegrityError(MediaMentionService.DuplicateMemberLinkMessage));
          } else {
            r := Success(r.value + [MentionMember(mentionId, id.value, None, None)]);
          }
        }
      }
      i := i + 1;
    }
  }

  /** Reading column i extends the member links of the columns before it. */
  lemma MentionMembersColumn(links: seq<MentionMember>, mentionId: int, lids: seq<Cell>, i: nat)
    requires i < |lids|
    ensures var ids := MapRows(lids[..i + 1], LidIn); var prev := MentionMembersIn(links, mentionId, MapRows(lids[..i], LidIn));
      MentionMembersIn(links, mentionId, ids)
      == if prev.Failure? || LidIn(lids[i]).None? then prev
         else if HasKey(prev.value, MentionMemberKey, (mentionId, LidIn(lids[i]).value))
         then Failure(IntegrityError(MediaMentionService.DuplicateMemberLinkMessage))
         else Success(prev.value + [MentionMember(mentionId, LidIn(lids[i]).value, None, None)])
  {
    var ids := MapRows(lids[..i + 1], LidIn);
    MapRowsSnoc(lids, LidIn, i);
    assert ids[..|ids| - 1] == MapRows(lids[..i], LidIn);
  }

  /** The second loop over Bestand. */
  method LoadMentions(st: MentionState, rows: seq<FileRow>) returns (r: Result<MentionState, ServiceError>)
    ensures r == MentionsIn(st, MapRows(rows, FieldsOf))
  {
    r := Success(st);
    var i := 0;
    while i < |rows|
      invariant 0 <= i <= |rows|
      invariant r == MentionsIn(st, MapRows(rows[..i], FieldsOf))
    {
      MentionsRow(st, rows, i);
      if r.Success? {
        r := AddMention(r.value, FieldsOf(rows[i]), rows[i].lids);
      }
      i := i + 1;
    }
    assert rows[..i] == rows;
  }

  /** Reading row i extends the mention tables of the rows before it. */
  lemma MentionsRow(st: MentionState, rows: seq<FileRow>, i: nat)
    requires i < |rows|
    ensures var prev := MentionsIn(st, MapRows(rows[..i], FieldsOf));
      MentionsIn(st, MapRows(rows[..i + 1], FieldsOf))
      == match prev
         case Failure(e) => Failure(e)
         case Success(p) => MentionStep(p, FieldsOf(rows[i]))
  {
    var fs := MapRows(rows[..i + 1], FieldsOf);
    MapRowsSnoc(rows, FieldsOf, i);
    assert fs[..|fs| - 1] == MapRows(rows[..i], FieldsOf);
  }

  /** The body of the second loop for one row whose fields are `f` and whose member columns are `lids`. */
  method AddMention(cur: MentionState, f: FileFields, lids: seq<Cell>) returns (r: Result<MentionState, ServiceError>)
    requires f.memberIds == MapRows(ReadColumns(lids), LidIn)
    ensures r == MentionStep(cur, f)
  {
    if f.typeMedia !in MentionTypes {
      return Success(cur);
    }
    var mention := MentionOf(f, NextId(cur.mentions, MentionKey));
    var acts := cur.activities;
    if f.activityId != "" {
      if HasKey(acts, MentionActivityKey, (mention.id, f.activityId)) {
        return Failure(IntegrityError(MediaMentionService.DuplicateActivityLinkMessage));
      }
      acts := acts + [MentionActivity(mention.id, f.activityId, None, None)];
    }
    var members := AddMentionMembers(cur.members, mention.id, lids);
    match members
    case Failure(e) => r := Failure(e);
    case Success(ms) => r := Success(MentionState(cur.mentions + [mention], ms, acts));
  }

  /** The three primary keys of the mention tables. */
  ghost predicate MentionsUnique(st: MentionState) {
    Unique(st.mentions, MentionKey) && Unique(st.members, MentionMemberKey) && Unique(st.activities, MentionActivityKey)
  }

  /** Orphan links or not, a successful row keeps the three primary keys. */
  lemma MentionStepUnique(st: MentionState, f: FileFields)
    requires MentionsUnique(st)
    ensures MentionStep(st, f).Success? ==> MentionsUnique(MentionStep(st, f).value)
  {
    if IsMention(f) && MentionStep(st, f).Success? {
      var id := NextId(st.mentions, MentionKey);
      NextIdFresh(st.mentions, MentionKey);
      AppendUnique(st.mentions, MentionKey, MentionOf(f, id));
      if f.activityId != "" {
        AppendUnique(st.activities, MentionActivityKey, MentionActivity(id, f.activityId, None, None));
      }
      MentionMembersGrow(st.members, id, f.memberIds);
    }
  }

  lemma {:induction false} MentionsInUnique(st: MentionState, fs: seq<FileFields>)
    requires MentionsUnique(st)
    ensures MentionsIn(st, fs).Success? ==> MentionsUnique(MentionsIn(st, fs).value)
    decreases |fs|
  {
    if fs != [] {
      MentionsInUnique(st, fs[..|fs| - 1]);
      var pr := MentionsIn(st, fs[..|fs| - 1]);
      if pr.Success? {
        MentionStepUnique(pr.value, fs[|fs| - 1]);
      }
    }
  }

  /** Whatever the tables, the second pass fails only with one of the two link-table integrity errors. */
  lemma {:induction false} MentionsInErrors(st: MentionState, fs: seq<FileFields>)
    ensures MentionsIn(st, fs).Failure? ==>
      MentionsIn(st, fs).error in {IntegrityError(MediaMentionService.DuplicateMemberLinkMessage), IntegrityError(MediaMentionService.DuplicateActivityLinkMessage)}
    decreases |fs|
  {
    if fs != [] {
      MentionsInErrors(st, fs[..|fs| - 1]);
    }
  }

  // ---------------------------------------------------------------------------
  // 8. The whole load

  /** The sheets the load reads, each as its rows. */
  datatype Workbook = Workbook(
    typeMedia: seq<TypeRow>, leden: seq<MemberRow>, uitvoering: seq<ActivityRow>,
    uitvoeringLocaties: seq<LocationRow>, rollen: seq<RoleRow>, bestand: seq<FileRow>)

  /** The tables the load writes. */
  datatype Snapshot = Snapshot(
    members: seq<Member>, activities: seq<Activity>, locations: seq<Location>,
    activityLocations: seq<ActivityLocation>, roles: seq<Role>, mediaTypes: seq<MediaType>,
    mediaItems: seq<MediaItem>, appearances: seq<MediaAppearance>, mentions: seq<MediaMention>,
    mentionMembers: seq<MentionMember>, mentionActivities: seq<MentionActivity>)

  function SnapshotOf(db: Database): Snapshot
    reads db
  {
    Snapshot(db.members, db.activities, db.locations, db.activityLocations, db.roles, db.mediaTypes,
      db.mediaItems, db.appearances, db.mentions, db.mentionMembers, db.mentionActivities)
  }

  ghost predicate SnapshotValid(s: Snapshot) {
    Unique(s.members, MemberKey) && Unique(s.activities, ActivityKey) && Unique(s.locations, LocationKey)
    && Unique(s.activityLocations, ActivityLocationKey) && Unique(s.roles, RoleKey)
    && Unique(s.mediaTypes, MediaTypeKey) && Unique(s.mediaItems, MediaItemKey)
    && Unique(s.appearances, AppearanceKey) && Unique(s.mentions, MentionKey)
    && Unique(s.mentionMembers, MentionMemberKey) && Unique(s.mentionActivities, MentionActivityKey)
  }

  function MentionTables(s: Snapshot): MentionState {
    MentionState(s.mentions, s.mentionMembers, s.mentionActivities)
  }

  /**
   * The whole session: the sheets in the order the load reads them, both passes
   * over Bestand reading the same rows; the first error ends the load.
   */
  function LoadIn(s: Snapshot, wb: Workbook): Result<Snapshot, ServiceError> {
    match MediaTypesIn(s.mediaTypes, wb.typeMedia)
    case Failure(e) => Failure(e)
    case Success(types) =>
      var loc := LocationsIn(s.locations, s.activityLocations, MapRows(wb.uitvoeringLocaties, LinkOf));
      var fs := MapRows(wb.bestand, FieldsOf);
      var media := MediaFilesIn(s.mediaItems, s.appearances, fs);
      match MentionsIn(MentionTables(s), fs)
      case Failure(e) => Failure(e)
      case Success(m) =>
        Success(Snapshot(
          MergeAll(s.members, MemberKey, MapRows(wb.leden, MemberFromRow)),
          MergeAll(s.activities, ActivityKey, MapRows(wb.uitvoering, ActivityFromRow)),
          loc.locations, loc.links, RolesIn(s.roles, MapRows(wb.rollen, RoleOf)), types,
          media.items, media.appearances, m.mentions, m.members, m.activities))
  }

  lemma FieldsRead(rows: seq<FileRow>)
    ensures ColumnsRead(MapRows(rows, FieldsOf))
  {
  }

  /** A load that succeeds keeps every primary key of the tables it writes. */
  lemma LoadInValid(s: Snapshot, wb: Workbook)
    requires SnapshotValid(s)
    ensures LoadIn(s, wb).Success? ==> SnapshotValid(LoadIn(s, wb).value)
  {
    if LoadIn(s, wb).Success? {
      var fs := MapRows(wb.bestand, FieldsOf);
      MediaTypesInSpec(s.mediaTypes, wb.typeMedia);
      MergeAllUnique(s.members, MemberKey, MapRows(wb.leden, MemberFromRow));
      MergeAllUnique(s.activities, ActivityKey, MapRows(wb.uitvoering, ActivityFromRow));
      LocationsInSpec(s.locations, s.activityLocations, MapRows(wb.uitvoeringLocaties, LinkOf));
      RolesInSpec(s.roles, MapRows(wb.rollen, RoleOf));
      FieldsRead(wb.bestand);
      MediaFilesInSpec(s.mediaItems, s.appearances, fs);
      MentionsInUnique(MentionTables(s), fs);
    }
  }

  /**
   * From tables without orphan mention links, the load succeeds exactly when
   * every Type_Media cell is filled and no mention row of Bestand names a
   * member twice.
   */
  lemma LoadInSucceeds(s: Snapshot, wb: Workbook)
    requires SnapshotValid(s) && NoOrphans(MentionTables(s))
    ensures LoadIn(s, wb).Success? <==> AllTypesPresent(wb.typeMedia) && MentionRowsDistinct(MapRows(wb.bestand, FieldsOf))
  {
    MentionsInSpec(MentionTables(s), MapRows(wb.bestand, FieldsOf));
  }

  /** `load_excel_to_db`: the session commits everything or, on an exception, nothing. */
  method LoadExcelToDb(db: Database, wb: Workbook) returns (r: Result<(), ServiceError>)
    requires db.Valid()
    modifies db
    ensures db.Valid()
    ensures r.Success? <==> LoadIn(old(SnapshotOf(db)), wb).Success?
    ensures r.Success? ==> SnapshotOf(db) == LoadIn(old(SnapshotOf(db)), wb).value
    ensures r.Failure? ==> r.error == LoadIn(old(SnapshotOf(db)), wb).error && unchanged(db)
    ensures db.nameHistory == old(db.nameHistory) && db.periods == old(db.periods)
    ensures db.mentionMediaItems == old(db.mentionMediaItems)
  {
    var s := SnapshotOf(db);
    var types := LoadMediaTypes(s.mediaTypes, wb.typeMedia);
    if types.Failure? {
      return Failure(types.error);
    }
    var members := LoadMembers(s.members, wb.leden);
    var activities := LoadActivities(s.activities, wb.uitvoering);
    var locations, links := LoadLocations(s.locations, s.activityLocations, wb.uitvoeringLocaties);
    var roles := LoadRoles(s.roles, wb.rollen);
    var items, apps := LoadMediaFiles(s.mediaItems, s.appearances, wb.bestand);
    var mentions := LoadMentions(MentionTables(s), wb.bestand);
    if mentions.Failure? {
      return Failure(mentions.error);
    }
    var next := Snapshot(members, activities, locations, links, roles, types.value, items, apps,
      mentions.value.mentions, mentions.value.members, mentions.value.activities);
    assert LoadIn(s, wb) == Success(next);
    LoadInValid(s, wb);
    WriteSnapshot(db, next);
    r := Success(());
  }

  /** The commit: the tables the load writes take their new rows; the others are untouched. */
  method WriteSnapshot(db: Database, next: Snapshot)
    requires db.Valid() && SnapshotValid(next)
    modifies db
    ensures db.Valid() && SnapshotOf(db) == next
    ensures db.nameHistory == old(db.nameHistory) && db.periods == old(db.periods)
    ensures db.mentionMediaItems == old(db.mentionMediaItems)
  {
    db.members, db.activities, db.locations, db.activityLocations := next.members, next.activities, next.locations, next.activityLocations;
    db.roles, db.mediaTypes, db.mediaItems, db.appearances := next.roles, next.mediaTypes, next.mediaItems, next.appearances;
    db.mentions, db.mentionMembers, db.mentionActivities := next.mentions, next.mentionMembers, next.mentionActivities;
  }
}
