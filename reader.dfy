/**
 * The read side of the archive (`ReaderService`): the hex-encoded file paths
 * used in URLs, the display records of media items, the year-by-year timeline
 * of events and new members, and the member card behind the GDPR gate.
 */
module Reader {
  import opened Wrappers
  import opened Codec
  import opened Text
  import opened Tables
  import opened Models
  import Ordering
  import FileUtils

  // ---------------------------------------------------------------------------
  // Path encoding

  /** `os.path.join(a, b)`: an absolute `b` replaces `a`; an empty `b` still adds a separator. */
  function OsJoin(a: string, b: string): (r: string)
    ensures b != "" && b[0] == '/' ==> r == b
    ensures a == "" ==> r == b
    ensures a != "" && !(b != "" && b[0] == '/') ==> r == if a[|a| - 1] == '/' then a + b else a + "/" + b
  {
    if b != "" && b[0] == '/' then b
    else if a == "" || a[|a| - 1] == '/' then a + b
    else a + "/" + b
  }

  /** `encode(folder, file)`: the lowercase hex of the UTF-8 bytes of `os.path.join(folder, file)`. */
  function Encode(folder: string, file: string): (r: string)
    ensures |r| == 2 * |Utf8Encode(OsJoin(folder, file))|
    ensures forall i :: 0 <= i < |r| ==> r[i] in LowerHexDigits
  {
    var h := Hexlify(Utf8Encode(OsJoin(folder, file)));
    var r := AsciiChars(h);
    assert forall i :: 0 <= i < |r| ==> r[i] in LowerHexDigits by {
      forall i | 0 <= i < |r| ensures r[i] in LowerHexDigits {
        var d := if h[i] <= 0x39 then h[i] - 0x30 else h[i] - 0x61 + 10;
        assert r[i] == LowerHexDigits[d];
      }
    }
    r
  }

  /** The error `bytes.decode()` raises on bytes that are not UTF-8. */
  const InvalidUtf8Message: string := "'utf-8' codec can't decode bytes"

  /**
   * `decode(hex_path)`: unhexlify the UTF-8 bytes of the text, then decode them
   * as UTF-8. Both of the exceptions it can raise are `ValueError`s.
   */
  function Decode(hexPath: string): (r: Result<string, ServiceError>)
    ensures r.Failure? ==> r.error.ValueError?
    ensures |Utf8Encode(hexPath)| % 2 == 1 ==> r == Failure(ValueError(OddLengthMessage))
  {
    match Unhexlify(Utf8Encode(hexPath))
    case Failure(m) => Failure(ValueError(m))
    case Success(bytes) =>
      match Utf8Decode(bytes)
      case None => Failure(ValueError(InvalidUtf8Message))
      case Some(s) => Success(s)
  }

  /** An encoded path decodes back to the joined path. */
  lemma DecodeEncode(folder: string, file: string)
    ensures Decode(Encode(folder, file)) == Success(OsJoin(folder, file))
  {
    var path := OsJoin(folder, file);
    var h := Hexlify(Utf8Encode(path));
    Utf8EncodeAscii(h);
    HexRoundTrip(Utf8Encode(path));
    Utf8RoundTrip(path);
  }

  /** Two different paths never share an encoding, so a URL names one file. */
  lemma EncodeInjective(f1: string, x1: string, f2: string, x2: string)
    requires Encode(f1, x1) == Encode(f2, x2)
    ensures OsJoin(f1, x1) == OsJoin(f2, x2)
  {
    DecodeEncode(f1, x1);
    DecodeEncode(f2, x2);
  }

  // ---------------------------------------------------------------------------
  // Media enrichment

  /** The folder of an item whose activity is missing. */
  const UnknownFolder: string := "unknown"
  /** The type shown for an item whose type is empty. */
  const UnknownType: string := "Unknown"
  /** Where the placeholder thumbnails of PDF and MP4 files live. */
  const StaticImagesDir: string := "static/images"
  const BookletThumbnail: string := "media_type_booklet.png"
  const VideoThumbnail: string := "media_type_video.png"
  /** `os.path.join` given a NULL folder raises `TypeError`. */
  const NoneFolderMessage: string := "expected str, bytes or os.PathLike object, not NoneType"

  /** The display record of one media item. */
  datatype EnrichedMedia = EnrichedMedia(
    id: int,
    filename: string,
    typeMedia: string,
    caption: Option<string>,
    credit: Option<string>,
    pathThumbnail: string,
    pathMedia: string,
    displayOrder: int,
    activityTitle: Option<string>,
    activityId: Option<string>,
    activityYear: Option<int>)

  /** `item.activity.folder if item.activity else "unknown"`. */
  function FolderOf(activity: Option<Activity>): Option<string> {
    match activity
    case None => Some(UnknownFolder)
    case Some(a) => a.folder
  }

  /** `os.path.join(resources, folder, type_media)`. */
  function MediaDir(resources: string, folder: string, typeMedia: string): string {
    OsJoin(OsJoin(resources, folder), typeMedia)
  }

  /** The lowercased extension, or "" when there is none. */
  function LowerExtension(item: MediaItem): string {
    if Truthy(item.fileExtension) then PyLower(item.fileExtension.value) else ""
  }

  /** The directory and file of the thumbnail: a placeholder for PDF and MP4, else the item's own. */
  function Thumbnail(mediaDir: string, item: MediaItem): (string, string) {
    var ext := LowerExtension(item);
    if ext == "pdf" then (StaticImagesDir, BookletThumbnail)
    else if ext == "mp4" then (StaticImagesDir, VideoThumbnail)
    else (OsJoin(mediaDir, FileUtils.ThumbnailsSubdir), item.filename)
  }

  /** The display record of `item`, whose activity (if any) is `activity`. */
  function EnrichMediaItem(resources: string, item: MediaItem, activity: Option<Activity>)
    : (r: Result<EnrichedMedia, ServiceError>)
    ensures r.Failure? <==> activity.Some? && activity.value.folder.None?
    ensures r.Failure? ==> r.error == TypeError(NoneFolderMessage)
    ensures r.Success? ==>
      && r.value.id == item.id && r.value.filename == item.filename
      && r.value.caption == item.caption && r.value.credit == item.credit
      && r.value.displayOrder == item.displayOrder
      && r.value.typeMedia != ""
      && (item.typeMedia != "" ==> r.value.typeMedia == Capitalize(item.typeMedia))
      && (item.typeMedia == "" ==> r.value.typeMedia == UnknownType)
      && (activity.None? ==> r.value.activityTitle.None? && r.value.activityId.None? && r.value.activityYear.None?)
      && (activity.Some? ==>
            r.value.activityTitle == Some(activity.value.title)
            && r.value.activityId == Some(activity.value.id)
            && r.value.activityYear == activity.value.year)
  {
    match FolderOf(activity)
    case None => Failure(TypeError(NoneFolderMessage))
    case Some(folder) =>
      var dir := MediaDir(resources, folder, item.typeMedia);
      var (thumbDir, thumbFile) := Thumbnail(dir, item);
      Success(EnrichedMedia(
        item.id,
        item.filename,
        if item.typeMedia != "" then Capitalize(item.typeMedia) else UnknownType,
        item.caption,
        item.credit,
        Encode(thumbDir, thumbFile),
        Encode(dir, item.filename),
        item.displayOrder,
        if activity.Some? then Some(activity.value.title) else None,
        if activity.Some? then Some(activity.value.id) else None,
        if activity.Some? then activity.value.year else None))
  }

  /**
   * What the two encoded paths of a display record point at: the media file in
   * `<resources>/<folder>/<type>`, and its thumbnail in the `thumbnails`
   * directory beside it, except for PDF and MP4 files (in either case), whose
   * thumbnail is a fixed placeholder image.
   */
  lemma EnrichedPaths(resources: string, item: MediaItem, activity: Option<Activity>)
    requires EnrichMediaItem(resources, item, activity).Success?
    ensures var e := EnrichMediaItem(resources, item, activity).value;
      var dir := MediaDir(resources, FolderOf(activity).value, item.typeMedia);
      && Decode(e.pathMedia) == Success(OsJoin(dir, item.filename))
      && (LowerExtension(item) == "pdf" ==>
            Decode(e.pathThumbnail) == Success("static/images/media_type_booklet.png"))
      && (LowerExtension(item) == "mp4" ==>
            Decode(e.pathThumbnail) == Success("static/images/media_type_video.png"))
      && (LowerExtension(item) != "pdf" && LowerExtension(item) != "mp4" ==>
            Decode(e.pathThumbnail) == Success(OsJoin(OsJoin(dir, "thumbnails"), item.filename)))
  {
    var e := EnrichMediaItem(resources, item, activity).value;
    var dir := MediaDir(resources, FolderOf(activity).value, item.typeMedia);
    var th := Thumbnail(dir, item);
    assert e.pathMedia == Encode(dir, item.filename);
    assert e.pathThumbnail == Encode(th.0, th.1);
    DecodeEncode(dir, item.filename);
    DecodeEncode(th.0, th.1);
    PlaceholderPaths();
  }

  /** The booklet placeholder, spelled out. */
  lemma BookletPath()
    ensures StaticImagesDir + "/" + BookletThumbnail == "static/images/media_type_booklet.png"
  {
  }

  /** The video placeholder, spelled out. */
  lemma VideoPath()
    ensures StaticImagesDir + "/" + VideoThumbnail == "static/images/media_type_video.png"
  {
  }

  /** The placeholder thumbnails as full paths. */
  lemma PlaceholderPaths()
    ensures OsJoin(StaticImagesDir, BookletThumbnail) == "static/images/media_type_booklet.png"
    ensures OsJoin(StaticImagesDir, VideoThumbnail) == "static/images/media_type_video.png"
  {
    assert StaticImagesDir[|StaticImagesDir| - 1] == 's';
    assert BookletThumbnail[0] != '/' && VideoThumbnail[0] != '/';
    BookletPath();
    VideoPath();
  }

  /** A missing activity files the item under `unknown` and shows no activity. */
  lemma EnrichWithoutActivity(resources: string, item: MediaItem)
    ensures EnrichMediaItem(resources, item, None).Success?
    ensures Decode(EnrichMediaItem(resources, item, None).value.pathMedia)
      == Success(OsJoin(MediaDir(resources, "unknown", item.typeMedia), item.filename))
  {
    EnrichedPaths(resources, item, None);
  }

  /** `item.activity`: the activity row the item's `id_activity` refers to, if it exists. */
  function ActivityOf(activities: seq<Activity>, item: MediaItem): Option<Activity> {
    Get(activities, ActivityKey, item.activityId)
  }

  /** The values of a list of outcomes in order, or the error of the first failure. */
  function Collect<T, E>(rs: seq<Result<T, E>>): Result<seq<T>, E>
    decreases |rs|
  {
    if rs == [] then Success([])
    else match Collect(rs[..|rs| - 1])
      case Failure(e) => Failure(e)
      case Success(prev) =>
        match rs[|rs| - 1]
        case Failure(e) => Failure(e)
        case Success(x) => Success(prev + [x])
  }

  /**
   * The list fails exactly when some outcome is a failure, with the error of the
   * first; otherwise it holds every value, in order.
   */
  lemma {:induction false} CollectSpec<T, E>(rs: seq<Result<T, E>>)
    ensures Collect(rs).Success? <==> forall i :: 0 <= i < |rs| ==> rs[i].Success?
    ensures Collect(rs).Success? ==>
      |Collect(rs).value| == |rs| && forall i :: 0 <= i < |rs| ==> Collect(rs).value[i] == rs[i].value
    ensures Collect(rs).Failure? ==>
      exists i :: 0 <= i < |rs| && (forall j :: 0 <= j < i ==> rs[j].Success?) && rs[i] == Failure(Collect(rs).error)
    decreases |rs|
  {
    if rs != [] {
      var n := |rs|;
      var init := rs[..n - 1];
      CollectSpec(init);
      assert forall i :: 0 <= i < n - 1 ==> init[i] == rs[i];
      var pr := Collect(init);
      if pr.Failure? {
        var i :| 0 <= i < n - 1 && (forall j :: 0 <= j < i ==> init[j].Success?) && init[i] == Failure(pr.error);
        assert rs[i] == init[i];
      } else if rs[n - 1].Success? {
        var r := pr.value + [rs[n - 1].value];
        assert Collect(rs) == Success(r);
        assert forall i :: 0 <= i < n - 1 ==> r[i] == pr.value[i];
      }
    }
  }

  /** Once a prefix fails, the whole list fails with the same error. */
  lemma {:induction false} CollectStops<T, E>(rs: seq<Result<T, E>>, k: nat)
    requires k <= |rs| && Collect(rs[..k]).Failure?
    ensures Collect(rs) == Collect(rs[..k])
    decreases |rs|
  {
    if k < |rs| {
      var init := rs[..|rs| - 1];
      assert init[..k] == rs[..k];
      CollectStops(init, k);
    } else {
      assert rs[..k] == rs;
    }
  }

  /** One more outcome: a success is appended, a failure ends the whole list. */
  lemma CollectStep<T, E>(rs: seq<Result<T, E>>, i: nat, acc: seq<T>)
    requires i < |rs| && Collect(rs[..i]) == Success(acc)
    ensures rs[i].Success? ==> Collect(rs[..i + 1]) == Success(acc + [rs[i].value])
    ensures rs[i].Failure? ==> Collect(rs) == Failure(rs[i].error)
  {
    assert rs[..i + 1][..i] == rs[..i];
    if rs[i].Failure? {
      CollectStops(rs, i + 1);
    }
  }

  /** The outcome for each item: its display record, or the error it raises. */
  function Enrichments(resources: string, items: seq<MediaItem>, activities: seq<Activity>): (r: seq<Result<EnrichedMedia, ServiceError>>)
    ensures |r| == |items|
    ensures forall i :: 0 <= i < |items| ==> r[i] == EnrichMediaItem(resources, items[i], ActivityOf(activities, items[i]))
  {
    seq(|items|, i requires 0 <= i < |items| => EnrichMediaItem(resources, items[i], ActivityOf(activities, items[i])))
  }

  /** `enrich_media_items(items)`: the list comprehension, which stops at the first exception. */
  method EnrichMediaItems(resources: string, items: seq<MediaItem>, activities: seq<Activity>)
    returns (r: Result<seq<EnrichedMedia>, ServiceError>)
    ensures r == Collect(Enrichments(resources, items, activities))
  {
    ghost var rs := Enrichments(resources, items, activities);
    var enriched: seq<EnrichedMedia> := [];
    var i := 0;
    while i < |items|
      invariant 0 <= i <= |items|
      invariant Collect(rs[..i]) == Success(enriched)
    {
      var e := EnrichMediaItem(resources, items[i], ActivityOf(activities, items[i]));
      assert rs[i] == e;
      CollectStep(rs, i, enriched);
      if e.Failure? {
        return Failure(e.error);
      }
      enriched := enriched + [e.value];
      i := i + 1;
    }
    assert rs[..i] == rs;
    return Success(enriched);
  }

  // ---------------------------------------------------------------------------
  // Member card

  /** The member card of `lid_info`; the birth date is kept as a date. */
  datatype MemberInfo = MemberInfo(
    id: string,
    firstName: string,
    lastName: string,
    birthDate: Option<Date>,
    qtyMedia: nat)

  /** The WHERE clause of `lid_info`: this member, and only with GDPR permission 1. */
  function VisibleWithId(id: string): Member -> bool {
    (m: Member) => m.id == id && m.gdprPermission == 1
  }

  /** The join condition: appearances of this member. */
  function AppearsAs(id: string): MediaAppearance -> bool {
    (a: MediaAppearance) => a.memberId == id
  }

  /**
   * `lid_info(id)`: the member card with the number of media the member appears
   * in, or None unless a member with this id exists and has GDPR permission 1.
   * The birth date stays a `Date` here; the source returns its ISO text,
   * `birth_date.isoformat()` (reader.py:148-150).
   */
  function LidInfo(members: seq<Member>, appearances: seq<MediaAppearance>, id: string)
    : (r: Option<MemberInfo>)
    ensures r.Some? <==> exists m :: m in members && m.id == id && m.gdprPermission == 1
    ensures r.Some? ==>
      && r.value.id == id
      && (exists m :: m in members && m.id == id && m.gdprPermission == 1
            && r.value.firstName == m.firstName && r.value.lastName == m.lastName
            && r.value.birthDate == m.birthDate)
      && r.value.qtyMedia == |Ordering.Filter(appearances, AppearsAs(id))|
      && (r.value.qtyMedia == 0 <==> forall a :: a in appearances ==> a.memberId != id)
  {
    var rows := Ordering.Filter(members, VisibleWithId(id));
    var shown := Ordering.Filter(appearances, AppearsAs(id));
    if rows == [] then
      None
    else
      var m := rows[0];
      assert m in rows;
      assert shown != [] ==> shown[0] in shown;
      Some(MemberInfo(m.id, m.firstName, m.lastName, m.birthDate, |shown|))
  }

  // ---------------------------------------------------------------------------
  // Timeline

  /** A row of the timeline's activity query. */
  datatype TimelineEvent = TimelineEvent(
    id: string,
    title: string,
    kind: string,
    year: Option<int>,
    startDate: Option<Date>,
    endDate: Option<Date>,
    description: Option<string>)

  /** A row of the timeline's member query: a GDPR-visible member and the earliest join date. */
  datatype TimelineMember = TimelineMember(
    id: string, firstName: string, lastName: string, joinDate: Option<Date>)

  /** A new member as the timeline shows it. */
  datatype NewMember = NewMember(id: string, firstName: string, lastName: string)

  /** One year of the timeline (`jaar`, `nieuwe_leden`, `events`). */
  datatype TimelineEntry = TimelineEntry(year: int, newMembers: seq<NewMember>, events: seq<TimelineEvent>)

  /** The value of the `defaultdict` for one year. */
  datatype Bucket = Bucket(events: seq<TimelineEvent>, newMembers: seq<NewMember>)

  /**
   * The year an event is filed under: its `year`, else the year of its start
   * date; a year of 0 is falsy in the source and counts as none.
   */
  function EventYear(e: TimelineEvent): (y: Option<int>)
    ensures y.Some? ==> y.value != 0
    ensures y.None? ==> (e.year.None? || e.year.value == 0) && (e.startDate.None? || e.startDate.value.year == 0)
    ensures e.year.Some? && e.year.value != 0 ==> y == e.year
    ensures (e.year.None? || e.year.value == 0) && e.startDate.Some? && e.startDate.value.year != 0 ==>
      y == Some(e.startDate.value.year)
  {
    if e.year.Some? && e.year.value != 0 then e.year
    else if e.startDate.Some? && e.startDate.value.year != 0 then Some(e.startDate.value.year)
    else None
  }

  /** The year a member is filed under: the year of the join date. */
  function MemberYear(m: TimelineMember): (y: Option<int>)
    ensures y.Some? ==> m.joinDate.Some? && y.value == m.joinDate.value.year != 0
    ensures m.joinDate.Some? && m.joinDate.value.year != 0 ==> y == Some(m.joinDate.value.year)
  {
    if m.joinDate.Some? && m.joinDate.value.year != 0 then Some(m.joinDate.value.year) else None
  }

  function NewMemberOf(m: TimelineMember): NewMember {
    NewMember(m.id, m.firstName, m.lastName)
  }

  function EventInYear(y: int): TimelineEvent -> bool {
    (e: TimelineEvent) => EventYear(e) == Some(y)
  }

  /** The new members of year `y`, in the order of `members`. */
  function NewMembersIn(members: seq<TimelineMember>, y: int): seq<NewMember>
    decreases |members|
  {
    if members == [] then []
    else
      var last := members[|members| - 1];
      NewMembersIn(members[..|members| - 1], y) + (if MemberYear(last) == Some(y) then [NewMemberOf(last)] else [])
  }

  /** The new members of year `y` are exactly the members who joined in `y`. */
  lemma {:induction false} NewMembersInSpec(members: seq<TimelineMember>, y: int)
    ensures NewMembersIn(members, y) == [] <==> forall m :: m in members ==> MemberYear(m) != Some(y)
    ensures forall m :: m in members && MemberYear(m) == Some(y) ==> NewMemberOf(m) in NewMembersIn(members, y)
    ensures forall n :: n in NewMembersIn(members, y) ==>
      exists m :: m in members && MemberYear(m) == Some(y) && n == NewMemberOf(m)
    decreases |members|
  {
    if members != [] {
      var init := members[..|members| - 1];
      var last := members[|members| - 1];
      assert members == init + [last];
      NewMembersInSpec(init, y);
    }
  }

  /** A `defaultdict` key list gains a year the first time the year is used. */
  function AddYear(keys: seq<int>, y: Option<int>): seq<int> {
    if y.None? || y.value in keys then keys else keys + [y.value]
  }

  /** The keys of `by_year` after the event loop, in insertion order. */
  function EventKeys(evs: seq<TimelineEvent>): seq<int>
    decreases |evs|
  {
    if evs == [] then [] else AddYear(EventKeys(evs[..|evs| - 1]), EventYear(evs[|evs| - 1]))
  }

  /** The keys of `by_year` after both loops, in insertion order. */
  function YearKeys(evs: seq<TimelineEvent>, ms: seq<TimelineMember>): seq<int>
    decreases |ms|
  {
    if ms == [] then EventKeys(evs) else AddYear(YearKeys(evs, ms[..|ms| - 1]), MemberYear(ms[|ms| - 1]))
  }

  /** A year is a key exactly when it has an event or a new member. */
  lemma {:induction false} EventKeysMembers(evs: seq<TimelineEvent>, y: int)
    ensures y in EventKeys(evs) <==> Ordering.Filter(evs, EventInYear(y)) != []
    decreases |evs|
  {
    if evs != [] {
      var init := evs[..|evs| - 1];
      var last := evs[|evs| - 1];
      EventKeysMembers(init, y);
      assert Ordering.Filter(evs, EventInYear(y))
        == Ordering.Filter(init, EventInYear(y)) + (if EventYear(last) == Some(y) then [last] else []);
      assert y in EventKeys(evs) <==> y in EventKeys(init) || EventYear(last) == Some(y);
    }
  }

  lemma {:induction false} YearKeysMembers(evs: seq<TimelineEvent>, ms: seq<TimelineMember>, y: int)
    ensures y in YearKeys(evs, ms) <==> Ordering.Filter(evs, EventInYear(y)) != [] || NewMembersIn(ms, y) != []
    decreases |ms|
  {
    if ms == [] {
      EventKeysMembers(evs, y);
    } else {
      YearKeysMembers(evs, ms[..|ms| - 1], y);
    }
  }

  /** The years of `s` strictly decrease. */
  predicate Descending(s: seq<int>) {
    forall i, j :: 0 <= i < j < |s| ==> s[i] > s[j]
  }

  /** Inserts `x` in its place in a strictly decreasing list, once. */
  function InsertDesc(x: int, s: seq<int>): (r: seq<int>)
    requires Descending(s)
    ensures Descending(r)
    ensures forall y :: y in r <==> y == x || y in s
  {
    if s == [] then [x]
    else if x > s[0] then [x] + s
    else if x == s[0] then s
    else
      var t := InsertDesc(x, s[1..]);
      assert forall y :: y in s <==> y == s[0] || y in s[1..];
      assert forall k :: 0 <= k < |s| - 1 ==> s[1..][k] == s[k + 1];
      assert forall y :: y in s[1..] ==> y < s[0];
      assert forall k :: 0 <= k < |t| ==> t[k] in t;
      [s[0]] + t
  }

  /** `sorted(keys, reverse=True)`: the distinct keys, largest first. */
  function SortDesc(keys: seq<int>): (r: seq<int>)
    ensures Descending(r)
    ensures forall y :: y in r <==> y in keys
  {
    if keys == [] then []
    else
      assert forall y :: y in keys <==> y == keys[0] || y in keys[1..];
      InsertDesc(keys[0], SortDesc(keys[1..]))
  }

  /**
   * The timeline of `_build_timeline`: one entry per year that has an event or
   * a new member, newest year first, each holding that year's new members and
   * events in the order they were given.
   */
  function Timeline(events: seq<TimelineEvent>, members: seq<TimelineMember>): seq<TimelineEntry> {
    var years := SortDesc(YearKeys(events, members));
    seq(|years|, i requires 0 <= i < |years| =>
      TimelineEntry(years[i], NewMembersIn(members, years[i]), Ordering.Filter(events, EventInYear(years[i]))))
  }

  /** The `i`-th timeline entry is the `i`-th newest year with its members and events. */
  lemma TimelineAt(events: seq<TimelineEvent>, members: seq<TimelineMember>, i: nat)
    requires i < |SortDesc(YearKeys(events, members))|
    ensures var y := SortDesc(YearKeys(events, members))[i];
      && i < |Timeline(events, members)|
      && Timeline(events, members)[i]
           == TimelineEntry(y, NewMembersIn(members, y), Ordering.Filter(events, EventInYear(y)))
  {
  }

  /** The timeline's years strictly decrease, so each appears once, and no entry is empty. */
  lemma TimelineOrdered(events: seq<TimelineEvent>, members: seq<TimelineMember>)
    ensures var t := Timeline(events, members);
      && (forall i, j :: 0 <= i < j < |t| ==> t[i].year > t[j].year)
      && (forall i :: 0 <= i < |t| ==> t[i].events != [] || t[i].newMembers != [])
  {
    var t := Timeline(events, members);
    var years := SortDesc(YearKeys(events, members));
    forall i | 0 <= i < |t| ensures t[i].events != [] || t[i].newMembers != [] {
      TimelineAt(events, members, i);
      YearKeysMembers(events, members, years[i]);
    }
  }

  /** An event with a year is in the entry of that year. */
  lemma EventPlaced(events: seq<TimelineEvent>, members: seq<TimelineMember>, e: TimelineEvent)
    requires e in events && EventYear(e).Some?
    ensures var t := Timeline(events, members);
      exists i :: 0 <= i < |t| && t[i].year == EventYear(e).value && e in t[i].events
  {
    var years := SortDesc(YearKeys(events, members));
    var y := EventYear(e).value;
    assert e in Ordering.Filter(events, EventInYear(y));
    YearKeysMembers(events, members, y);
    var i :| 0 <= i < |years| && years[i] == y;
    TimelineAt(events, members, i);
  }

  /** A member with a join year is among the new members of that year. */
  lemma MemberPlaced(events: seq<TimelineEvent>, members: seq<TimelineMember>, m: TimelineMember)
    requires m in members && MemberYear(m).Some?
    ensures var t := Timeline(events, members);
      exists i :: 0 <= i < |t| && t[i].year == MemberYear(m).value && NewMemberOf(m) in t[i].newMembers
  {
    var years := SortDesc(YearKeys(events, members));
    var y := MemberYear(m).value;
    NewMembersInSpec(members, y);
    YearKeysMembers(events, members, y);
    var i :| 0 <= i < |years| && years[i] == y;
    TimelineAt(events, members, i);
  }

  /** What an entry holds belongs to the entry's year. */
  lemma EntryBelongs(events: seq<TimelineEvent>, members: seq<TimelineMember>, i: nat)
    requires i < |Timeline(events, members)|
    ensures var t := Timeline(events, members);
      && (forall e :: e in t[i].events ==> e in events && EventYear(e) == Some(t[i].year))
      && (forall n :: n in t[i].newMembers ==>
            exists m :: m in members && MemberYear(m) == Some(t[i].year) && n == NewMemberOf(m))
  {
    TimelineAt(events, members, i);
    NewMembersInSpec(members, SortDesc(YearKeys(events, members))[i]);
  }

  /**
   * Every event with a year is in that year's entry and every event in an
   * entry belongs to that year, so events with neither a year nor a start date
   * are dropped; likewise for members and their join dates.
   */
  lemma TimelinePlacement(events: seq<TimelineEvent>, members: seq<TimelineMember>)
    ensures var t := Timeline(events, members);
      && (forall e :: e in events && EventYear(e).Some? ==>
            exists i :: 0 <= i < |t| && t[i].year == EventYear(e).value && e in t[i].events)
      && (forall i, e :: 0 <= i < |t| && e in t[i].events ==> e in events && EventYear(e) == Some(t[i].year))
      && (forall m :: m in members && MemberYear(m).Some? ==>
            exists i :: 0 <= i < |t| && t[i].year == MemberYear(m).value && NewMemberOf(m) in t[i].newMembers)
      && (forall i, n :: 0 <= i < |t| && n in t[i].newMembers ==>
            exists m :: m in members && MemberYear(m) == Some(t[i].year) && n == NewMemberOf(m))
  {
    var t := Timeline(events, members);
    forall e | e in events && EventYear(e).Some?
      ensures exists i :: 0 <= i < |t| && t[i].year == EventYear(e).value && e in t[i].events
    {
      EventPlaced(events, members, e);
    }
    forall m | m in members && MemberYear(m).Some?
      ensures exists i :: 0 <= i < |t| && t[i].year == MemberYear(m).value && NewMemberOf(m) in t[i].newMembers
    {
      MemberPlaced(events, members, m);
    }
    forall i | 0 <= i < |t|
      ensures forall e :: e in t[i].events ==> e in events && EventYear(e) == Some(t[i].year)
      ensures forall n :: n in t[i].newMembers ==>
        exists m :: m in members && MemberYear(m) == Some(t[i].year) && n == NewMemberOf(m)
    {
      EntryBelongs(events, members, i);
    }
  }

  /** Within a year, events keep their input order: the filter splits over concatenation. */
  lemma {:induction false} EventsInAppend(a: seq<TimelineEvent>, b: seq<TimelineEvent>, y: int)
    ensures Ordering.Filter(a + b, EventInYear(y))
      == Ordering.Filter(a, EventInYear(y)) + Ordering.Filter(b, EventInYear(y))
    decreases |b|
  {
    if b != [] {
      var b0 := b[..|b| - 1];
      assert (a + b)[..|a + b| - 1] == a + b0;
      assert (a + b)[|a + b| - 1] == b[|b| - 1];
      EventsInAppend(a, b0, y);
    } else {
      assert a + b == a;
    }
  }

  /** Within a year, new members keep their input order. */
  lemma {:induction false} NewMembersInAppend(a: seq<TimelineMember>, b: seq<TimelineMember>, y: int)
    ensures NewMembersIn(a + b, y) == NewMembersIn(a, y) + NewMembersIn(b, y)
    decreases |b|
  {
    if b != [] {
      var b0 := b[..|b| - 1];
      assert (a + b)[..|a + b| - 1] == a + b0;
      assert (a + b)[|a + b| - 1] == b[|b| - 1];
      NewMembersInAppend(a, b0, y);
    } else {
      assert a + b == a;
    }
  }

  /** Reading a `defaultdict`: a missing year has empty lists. */
  function Lookup(byYear: map<int, Bucket>, y: int): Bucket {
    if y in byYear then byYear[y] else Bucket([], [])
  }

  /**
   * `byYear` and its key list `keys` hold the years of `evs` and `ms` in
   * insertion order, each with its events and new members.
   */
  ghost predicate Grouped(byYear: map<int, Bucket>, keys: seq<int>, evs: seq<TimelineEvent>, ms: seq<TimelineMember>) {
    && keys == YearKeys(evs, ms)
    && (forall y :: y in byYear <==> y in keys)
    && (forall y :: Lookup(byYear, y) == Bucket(Ordering.Filter(evs, EventInYear(y)), NewMembersIn(ms, y)))
  }

  /** The event list of `evs + [ev]` for each year. */
  lemma FilterSnocEvent(evs: seq<TimelineEvent>, ev: TimelineEvent)
    ensures forall y :: (Ordering.Filter(evs + [ev], EventInYear(y))
      == Ordering.Filter(evs, EventInYear(y)) + (if EventYear(ev) == Some(y) then [ev] else []))
  {
    var s := evs + [ev];
    assert s[..|s| - 1] == evs;
  }

  /** Appending a dated event to the list of its year keeps the grouping. */
  lemma GroupDatedEvent(byYear: map<int, Bucket>, keys: seq<int>, evs: seq<TimelineEvent>, ev: TimelineEvent)
    requires Grouped(byYear, keys, evs, []) && EventYear(ev).Some?
    ensures var y := EventYear(ev).value;
      var b := Lookup(byYear, y);
      Grouped(byYear[y := b.(events := b.events + [ev])], AddYear(keys, EventYear(ev)), evs + [ev], [])
  {
    var s := evs + [ev];
    assert s[..|s| - 1] == evs;
    assert YearKeys(s, []) == AddYear(keys, EventYear(ev));
    FilterSnocEvent(evs, ev);
    var y0 := EventYear(ev).value;
    var b := Lookup(byYear, y0);
    var nb := byYear[y0 := b.(events := b.events + [ev])];
    var nk := AddYear(keys, EventYear(ev));
    forall y ensures y in nb <==> y in nk {
    }
    forall y ensures Lookup(nb, y) == Bucket(Ordering.Filter(s, EventInYear(y)), NewMembersIn([], y)) {
    }
    assert Grouped(nb, nk, s, []);
  }

  /** Appending an event to the list of its year keeps the grouping; an undated one changes nothing. */
  lemma GroupEvent(byYear: map<int, Bucket>, keys: seq<int>, evs: seq<TimelineEvent>, ev: TimelineEvent)
    requires Grouped(byYear, keys, evs, [])
    ensures EventYear(ev).None? ==> Grouped(byYear, keys, evs + [ev], [])
    ensures EventYear(ev).Some? ==>
      var y := EventYear(ev).value;
      var b := Lookup(byYear, y);
      Grouped(byYear[y := b.(events := b.events + [ev])], AddYear(keys, EventYear(ev)), evs + [ev], [])
  {
    if EventYear(ev).Some? {
      GroupDatedEvent(byYear, keys, evs, ev);
    } else {
      var s := evs + [ev];
      assert s[..|s| - 1] == evs;
      assert YearKeys(s, []) == keys;
      FilterSnocEvent(evs, ev);
    }
  }

  /** Appending a member to the list of its join year keeps the grouping. */
  lemma GroupMember(byYear: map<int, Bucket>, keys: seq<int>, evs: seq<TimelineEvent>, ms: seq<TimelineMember>, m: TimelineMember)
    requires Grouped(byYear, keys, evs, ms)
    ensures MemberYear(m).None? ==> Grouped(byYear, keys, evs, ms + [m])
    ensures MemberYear(m).Some? ==>
      var y := MemberYear(m).value;
      var b := Lookup(byYear, y);
      Grouped(byYear[y := b.(newMembers := b.newMembers + [NewMemberOf(m)])], AddYear(keys, MemberYear(m)), evs, ms + [m])
  {
    var s := ms + [m];
    assert s[..|s| - 1] == ms;
    assert YearKeys(evs, s) == AddYear(keys, MemberYear(m));
    forall y ensures NewMembersIn(s, y)
      == NewMembersIn(ms, y) + (if MemberYear(m) == Some(y) then [NewMemberOf(m)] else [])
    {
    }
    if MemberYear(m).Some? {
      var y0 := MemberYear(m).value;
      var b := Lookup(byYear, y0);
      var nb := byYear[y0 := b.(newMembers := b.newMembers + [NewMemberOf(m)])];
      var nk := AddYear(keys, MemberYear(m));
      forall y ensures y in nb <==> y in nk {
      }
      forall y ensures Lookup(nb, y) == Bucket(Ordering.Filter(evs, EventInYear(y)), NewMembersIn(s, y)) {
      }
      assert Grouped(nb, nk, evs, s);
    } else {
      assert Grouped(byYear, keys, evs, s);
    }
  }

  lemma TakeAll<T>(s: seq<T>)
    ensures s[..|s|] == s
  {
  }

  lemma TakeNext<T>(s: seq<T>, i: nat)
    requires i < |s|
    ensures s[..i + 1] == s[..i] + [s[i]]
  {
  }

  /** `_build_timeline(events, members)`. */
  method BuildTimeline(events: seq<TimelineEvent>, members: seq<TimelineMember>)
    returns (timeline: seq<TimelineEntry>)
    ensures timeline == Timeline(events, members)
  {
    var byYear, keys := GroupEvents(events);
    byYear, keys := GroupMembers(byYear, keys, events, members);
    var years := SortDesc(keys);
    assert forall y :: y in years ==> y in byYear;
    timeline := ReadBuckets(byYear, years);
    TimelineOfGrouped(byYear, keys, events, members, timeline);
  }

  /** The loop over the sorted years: one entry per year, with the members and events of its bucket. */
  method ReadBuckets(byYear: map<int, Bucket>, years: seq<int>) returns (timeline: seq<TimelineEntry>)
    requires forall y :: y in years ==> y in byYear
    ensures |timeline| == |years|
    ensures forall t :: 0 <= t < |years| ==>
      timeline[t] == TimelineEntry(years[t], Lookup(byYear, years[t]).newMembers, Lookup(byYear, years[t]).events)
  {
    timeline := [];
    var k := 0;
    while k < |years|
      invariant 0 <= k <= |years|
      invariant |timeline| == k
      invariant forall t :: 0 <= t < k ==>
        timeline[t] == TimelineEntry(years[t], Lookup(byYear, years[t]).newMembers, Lookup(byYear, years[t]).events)
    {
      assert years[k] in years;
      var b := byYear[years[k]];
      timeline := timeline + [TimelineEntry(years[k], b.newMembers, b.events)];
      k := k + 1;
    }
  }

  /** Reading the grouped buckets year by year, newest first, gives the timeline. */
  lemma TimelineOfGrouped(
    byYear: map<int, Bucket>, keys: seq<int>, events: seq<TimelineEvent>, members: seq<TimelineMember>,
    timeline: seq<TimelineEntry>)
    requires Grouped(byYear, keys, events, members)
    requires var years := SortDesc(keys);
      && |timeline| == |years|
      && forall t :: 0 <= t < |years| ==>
           timeline[t] == TimelineEntry(years[t], Lookup(byYear, years[t]).newMembers, Lookup(byYear, years[t]).events)
    ensures timeline == Timeline(events, members)
  {
  }

  /** The loop over the events: each dated event goes to the list of its year. */
  method GroupEvents(events: seq<TimelineEvent>) returns (byYear: map<int, Bucket>, keys: seq<int>)
    ensures Grouped(byYear, keys, events, [])
  {
    byYear, keys := map[], [];
    var i := 0;
    while i < |events|
      invariant 0 <= i <= |events|
      invariant Grouped(byYear, keys, events[..i], [])
    {
      var ev := events[i];
      GroupEvent(byYear, keys, events[..i], ev);
      var year := EventYear(ev);
      if year.Some? {
        var b := Lookup(byYear, year.value);
        keys := AddYear(keys, year);
        byYear := byYear[year.value := b.(events := b.events + [ev])];
      }
      TakeNext(events, i);
      i := i + 1;
    }
    TakeAll(events);
  }

  /** The loop over the members: each member with a join date goes to the new members of its year. */
  method GroupMembers(byYear0: map<int, Bucket>, keys0: seq<int>, events: seq<TimelineEvent>, members: seq<TimelineMember>)
    returns (byYear: map<int, Bucket>, keys: seq<int>)
    requires Grouped(byYear0, keys0, events, [])
    ensures Grouped(byYear, keys, events, members)
  {
    byYear, keys := byYear0, keys0;
    assert members[..0] == [];
    var j := 0;
    while j < |members|
      invariant 0 <= j <= |members|
      invariant Grouped(byYear, keys, events, members[..j])
    {
      var m := members[j];
      GroupMember(byYear, keys, events, members[..j], m);
      var year := MemberYear(m);
      if year.Some? {
        var b := Lookup(byYear, year.value);
        keys := AddYear(keys, year);
        byYear := byYear[year.value := b.(newMembers := b.newMembers + [NewMemberOf(m)])];
      }
      TakeNext(members, j);
      j := j + 1;
    }
    TakeAll(members);
  }
}
