/**
 * `move_and_rename_media`: moving an uploaded media file (and its thumbnail)
 * from the upload directory into the activity's resource folder under a clean
 * name, then recording the new name and storage path on the media item. The
 * file system is a set of existing paths; paths are POSIX strings.
 */
module FileUtils {
  import opened Wrappers
  import opened Text
  import opened Tables
  import opened Models
  import opened Store

  const UploadsDir: string := "uploads"
  const UploadThumbnailsDir: string := "uploads/thumbnails"
  const ThumbnailsSubdir: string := "thumbnails"
  /** The type directory of an item without a type. */
  const DefaultTypeSubdir: string := "overig"
  /** The extension of a file name without a suffix. */
  const DefaultExtension: string := ".jpg"
  const NotInSubpathMessage: string := "target path is not in the subpath of the base directory"

  // ---------------------------------------------------------------------------
  // Paths

  predicate IsAbsolute(p: string) {
    p != "" && p[0] == '/'
  }

  /** `Path(a) / b`: an absolute `b` replaces `a`; otherwise one separator between the two. */
  function PathJoin(a: string, b: string): (r: string)
    ensures IsAbsolute(b) ==> r == b
    ensures !IsAbsolute(b) && a != "" && b != "" ==>
      r == (if a[|a| - 1] == '/' then a + b else a + "/" + b)
    ensures a == "" ==> r == b
  {
    if IsAbsolute(b) || a == "" then b
    else if b == "" then a
    else if a[|a| - 1] == '/' then a + b
    else a + "/" + b
  }

  /** The position of the last `c` in `s`, as `str.rfind`. */
  function LastIndexOf(s: string, c: char): (r: Option<nat>)
    ensures r.Some? ==> r.value < |s| && s[r.value] == c && forall k :: r.value < k < |s| ==> s[k] != c
    ensures r.None? ==> forall k :: 0 <= k < |s| ==> s[k] != c
  {
    if s == [] then None
    else if s[|s| - 1] == c then Some(|s| - 1)
    else LastIndexOf(s[..|s| - 1], c)
  }

  /** The path without its trailing separators, which `pathlib` drops. */
  function TrimTrailingSlashes(p: string): (r: string)
    ensures r <= p
    ensures r == "" || r[|r| - 1] != '/'
    ensures forall k :: |r| <= k < |p| ==> p[k] == '/'
  {
    if p != "" && p[|p| - 1] == '/' then TrimTrailingSlashes(p[..|p| - 1]) else p
  }

  /**
   * `PurePath.name`: the final component, the part after the last separator
   * once trailing separators are dropped; empty only for a path of separators
   * or the empty path.
   */
  function PathName(p: string): (r: string)
    ensures forall k :: 0 <= k < |r| ==> r[k] != '/'
    ensures var t := TrimTrailingSlashes(p);
      |r| <= |t| && r == t[|t| - |r|..] && (|r| == |t| || t[|t| - |r| - 1] == '/')
    ensures TrimTrailingSlashes(p) != "" ==> r != ""
  {
    var t := TrimTrailingSlashes(p);
    var i := LastIndexOf(t, '/');
    if i.None? then t else t[i.value + 1..]
  }

  /** Where `PurePath.suffix` starts: the last dot, when it is neither the first nor the last character. */
  function SuffixStart(name: string): (r: nat)
    ensures r <= |name|
    ensures r < |name| ==> name[r] == '.' && 0 < r < |name| - 1
    ensures r < |name| ==> forall k :: r < k < |name| ==> name[k] != '.'
    ensures r == |name| <==>
      (name != "" && name[|name| - 1] == '.') || forall k :: 0 < k < |name| - 1 ==> name[k] != '.'
  {
    var i := LastIndexOf(name, '.');
    if i.Some? && 0 < i.value < |name| - 1 then i.value else |name|
  }

  /** `PurePath.suffix` of a file name. */
  function Suffix(name: string): string {
    name[SuffixStart(name)..]
  }

  /** `PurePath.stem` of a file name. */
  function Stem(name: string): string {
    name[..SuffixStart(name)]
  }

  /** A file name is its stem followed by its suffix, and a suffix starts with a dot or is empty. */
  lemma StemSuffix(name: string)
    ensures Stem(name) + Suffix(name) == name
    ensures Suffix(name) != "" ==> Suffix(name)[0] == '.' && Stem(name) != ""
  {
  }

  /** `PurePath.relative_to` on lexical paths: `None` where it raises. */
  function RelativeTo(p: string, base: string): (r: Option<string>)
    ensures base == "" ==> r == Some(p)
    ensures r.Some? && base != "" ==> p == (if base[|base| - 1] == '/' then base else base + "/") + r.value
  {
    if base == "" then Some(p)
    else
      var prefix := if base[|base| - 1] == '/' then base else base + "/";
      if prefix <= p then Some(p[|prefix|..]) else None
  }

  // ---------------------------------------------------------------------------
  // The target of a move

  /** `type_media` when it is set, else the catch-all directory. */
  function TypeSubdir(typeMedia: string): string {
    if typeMedia != "" then typeMedia else DefaultTypeSubdir
  }

  /** `base/<folder>/<type>`. */
  function TargetDir(base: string, folder: string, typeMedia: string): string {
    PathJoin(PathJoin(base, folder), TypeSubdir(typeMedia))
  }

  /** The lowercased suffix of the file name, or `.jpg` when it has none. */
  function Extension(filename: string): (r: string)
    ensures r != "" && r[0] == '.'
    ensures Suffix(PathName(filename)) == "" ==> r == DefaultExtension
    ensures Suffix(PathName(filename)) != "" ==> r == PyLower(Suffix(PathName(filename)))
  {
    var s := PyLower(Suffix(PathName(filename)));
    StemSuffix(PathName(filename));
    if s == "" then DefaultExtension else s
  }

  /** `slugify(caption or stem)` followed by the extension. */
  function NewFilename(slug: string -> string, filename: string, caption: Option<string>): (r: string)
    ensures r == slug(if Truthy(caption) then caption.value else Stem(PathName(filename))) + Extension(filename)
  {
    var clean := slug(if Truthy(caption) then caption.value else Stem(PathName(filename)));
    clean + Extension(filename)
  }

  /** A file name without a suffix keeps its whole final component as the stem and gets `.jpg`. */
  lemma NewFilenameDefault(slug: string -> string, filename: string, caption: Option<string>)
    requires Suffix(PathName(filename)) == ""
    ensures NewFilename(slug, filename, caption)
      == slug(if Truthy(caption) then caption.value else PathName(filename)) + DefaultExtension
  {
    var n := PathName(filename);
    assert SuffixStart(n) == |n|;
    assert Stem(n) == n[..|n|] == n;
  }

  /** Only the last dot of the final component starts the extension, which is lowercased. */
  lemma ExtensionOfDoubleSuffix()
    ensures Extension("a.tar.GZ") == ".gz"
  {
    var n := "a.tar.GZ";
    assert TrimTrailingSlashes(n) == n;
    assert LastIndexOf(n, '/') == None;
    assert PathName(n) == n;
    assert LastIndexOf(n, '.') == Some(5);
    assert Suffix(n) == ".GZ";
    var u := ".GZ";
    var l := PyLower(u);
    assert u[0] == '.' && u[1] == 'G' && u[2] == 'Z';
    assert l[0] == PyLowerChar('.') && l[1] == PyLowerChar('G') && l[2] == PyLowerChar('Z');
    assert ('G' as int + 32) as char == 'g' && ('Z' as int + 32) as char == 'z';
    assert |l| == 3 && l[0] == '.' && l[1] == 'g' && l[2] == 'z';
    assert l == ".gz";
  }

  /** The suffix of the new name comes from the old file name, so a video stays a video: only the stem is replaced. */
  lemma NewFilenameKeepsSuffix(slug: string -> string, filename: string, caption: Option<string>)
    requires Suffix(PathName(filename)) != ""
    ensures var r := NewFilename(slug, filename, caption);
      r[|r| - |Suffix(PathName(filename))|..] == PyLower(Suffix(PathName(filename)))
  {
    StemSuffix(PathName(filename));
    var clean := slug(if Truthy(caption) then caption.value else Stem(PathName(filename)));
    assert NewFilename(slug, filename, caption) == clean + PyLower(Suffix(PathName(filename)));
  }

  /**
   * With a relative folder, type and name under a base without a trailing
   * separator, the stored path is `<folder>/<type>/<name>`.
   */
  lemma StoragePathUnderBase(base: string, folder: string, typeMedia: string, name: string)
    requires base != "" && base[|base| - 1] != '/'
    requires folder != "" && !IsAbsolute(folder) && !IsAbsolute(TypeSubdir(typeMedia))
    requires name != "" && !IsAbsolute(name)
    ensures RelativeTo(PathJoin(TargetDir(base, folder, typeMedia), name), base)
      == Some(PathJoin(PathJoin(folder, TypeSubdir(typeMedia)), name))
  {
    var t := TypeSubdir(typeMedia);
    var prefix := base + "/";
    var d1 := PathJoin(base, folder);
    assert d1 == prefix + folder;
    var d2 := PathJoin(d1, t);
    var f2 := PathJoin(folder, t);
    assert d2 == prefix + f2 by {
      assert d1[|d1| - 1] == folder[|folder| - 1];
    }
    var f3 := PathJoin(f2, name);
    assert f2 != "";
    assert PathJoin(d2, name) == prefix + f3 by {
      assert d2[|d2| - 1] == f2[|f2| - 1];
    }
    assert (prefix + f3)[|prefix|..] == f3;
  }

  // ---------------------------------------------------------------------------
  // The file system

  /** The paths that exist, files and directories alike. */
  class FileSystem {
    var paths: set<string>

    constructor (paths: set<string>)
      ensures this.paths == paths
    {
      this.paths := paths;
    }

    /** `Path.exists()`. */
    predicate Exists(p: string)
      reads this
    {
      p in paths
    }

    /** `Path.mkdir(exist_ok=True)`. */
    method MakeDir(p: string)
      modifies this
      ensures paths == old(paths) + {p}
    {
      paths := paths + {p};
    }

    /** `Path.rename(target)`: the source goes, the target exists, replacing what was there. */
    method Rename(source: string, target: string)
      requires source in paths
      modifies this
      ensures paths == old(paths) - {source} + {target}
    {
      paths := paths - {source} + {target};
    }
  }

  // ---------------------------------------------------------------------------
  // move_and_rename_media

  /** What a call leaves behind: its result, the paths that exist and the media item. */
  datatype MoveOutcome = MoveOutcome(result: Result<bool, ServiceError>, paths: set<string>, item: MediaItem)

  /** The moves after the guards: the file, then the thumbnail when there is one. */
  function MovedPaths(paths: set<string>, filename: string, dir: string, name: string): set<string> {
    var target := PathJoin(dir, name);
    var moved := paths - {PathJoin(UploadsDir, filename)} + {target};
    var thumb := PathJoin(UploadThumbnailsDir, filename);
    if thumb in moved then
      var thumbDir := PathJoin(dir, ThumbnailsSubdir);
      (moved + {thumbDir}) - {thumb} + {PathJoin(thumbDir, name)}
    else moved
  }

  /**
   * `move_and_rename_media` as a function of the paths, the item and its
   * activity: False for an empty filename, a missing activity or folder, a
   * missing upload, or an existing target without `overwrite`; the target
   * directory is made before the upload is looked for. When the target is not
   * under the base, `relative_to` raises after the files have moved; the
   * source has set `media_item.filename` just before (file_utils.py:60-61),
   * but the outcome keeps the item unchanged, as the rollback of the
   * `db.session.begin()` block both callers run in
   * (src/blueprints/activity.py:60 and :117) does.
   */
  function MoveSpec(
    paths: set<string>, item: MediaItem, activity: Option<Activity>, base: string, overwrite: bool,
    slug: string -> string): MoveOutcome
  {
    if item.filename == "" || activity.None? || !Truthy(activity.value.folder) then
      MoveOutcome(Success(false), paths, item)
    else
      var dir := TargetDir(base, activity.value.folder.value, item.typeMedia);
      var name := NewFilename(slug, item.filename, item.caption);
      var target := PathJoin(dir, name);
      var withDir := paths + {dir};
      if PathJoin(UploadsDir, item.filename) !in withDir then MoveOutcome(Success(false), withDir, item)
      else if target in withDir && !overwrite then MoveOutcome(Success(false), withDir, item)
      else
        var moved := MovedPaths(withDir, item.filename, dir, name);
        match RelativeTo(target, base)
        case None => MoveOutcome(Failure(ValueError(NotInSubpathMessage)), moved, item)
        case Some(rel) => MoveOutcome(Success(true), moved, item.(filename := name, storagePath := Some(rel)))
  }

  /**
   * The call returns False exactly in the guard cases; then no file has moved
   * and the item is unchanged, though the target directory may exist.
   */
  lemma MoveGuards(
    paths: set<string>, item: MediaItem, activity: Option<Activity>, base: string, overwrite: bool,
    slug: string -> string)
    ensures var o := MoveSpec(paths, item, activity, base, overwrite, slug);
      o.result == Success(false) <==>
        (item.filename == "" || activity.None? || !Truthy(activity.value.folder)
         || (var dir := TargetDir(base, activity.value.folder.value, item.typeMedia);
             PathJoin(UploadsDir, item.filename) !in paths + {dir}
             || (PathJoin(dir, NewFilename(slug, item.filename, item.caption)) in paths + {dir} && !overwrite)))
    ensures var o := MoveSpec(paths, item, activity, base, overwrite, slug);
      o.result == Success(false) ==>
        o.item == item && paths <= o.paths
        && (activity.Some? && Truthy(activity.value.folder) ==>
          o.paths <= paths + {TargetDir(base, activity.value.folder.value, item.typeMedia)})
        && (activity.None? || !Truthy(activity.value.folder) || item.filename == "" ==> o.paths == paths)
  {
  }

  /** The file moved, the thumbnail moved when it existed, and the upload is gone unless a target coincides with it. */
  lemma MovedPathsSpec(paths: set<string>, filename: string, dir: string, name: string)
    ensures var target := PathJoin(dir, name);
      var thumb := PathJoin(UploadThumbnailsDir, filename);
      var source := PathJoin(UploadsDir, filename);
      var thumbDir := PathJoin(dir, ThumbnailsSubdir);
      var r := MovedPaths(paths, filename, dir, name);
      (target != thumb ==> target in r)
      && ((source != target && source != thumbDir && source != PathJoin(thumbDir, name)) ==> source !in r)
  {
  }

  /**
   * After a successful move the target exists (unless it is the old
   * thumbnail's path), the upload is gone (unless it is a new path), and the
   * item carries the new name and the target's path relative to the base.
   */
  lemma MoveSucceeds(
    paths: set<string>, item: MediaItem, activity: Option<Activity>, base: string, overwrite: bool,
    slug: string -> string)
    requires MoveSpec(paths, item, activity, base, overwrite, slug).result == Success(true)
    ensures activity.Some? && Truthy(activity.value.folder) && item.filename != ""
    ensures var o := MoveSpec(paths, item, activity, base, overwrite, slug);
      var dir := TargetDir(base, activity.value.folder.value, item.typeMedia);
      var name := NewFilename(slug, item.filename, item.caption);
      o.paths == MovedPaths(paths + {dir}, item.filename, dir, name)
      && o.item == item.(filename := name, storagePath := RelativeTo(PathJoin(dir, name), base))
  {
    var dir := TargetDir(base, activity.value.folder.value, item.typeMedia);
    var name := NewFilename(slug, item.filename, item.caption);
    var target := PathJoin(dir, name);
    var withDir := paths + {dir};
    var moved := MovedPaths(withDir, item.filename, dir, name);
    var rel := RelativeTo(target, base);
    assert rel.Some?;
    assert MoveSpec(paths, item, activity, base, overwrite, slug)
      == MoveOutcome(Success(true), moved, item.(filename := name, storagePath := Some(rel.value)));
  }

  /** The thumbnail moves to `<target dir>/thumbnails/<new name>` exactly when it exists; its absence changes nothing else. */
  lemma ThumbnailMoves(paths: set<string>, filename: string, dir: string, name: string)
    ensures var moved := paths - {PathJoin(UploadsDir, filename)} + {PathJoin(dir, name)};
      var thumb := PathJoin(UploadThumbnailsDir, filename);
      (thumb in moved ==> PathJoin(PathJoin(dir, ThumbnailsSubdir), name) in MovedPaths(paths, filename, dir, name))
      && (thumb !in moved ==> MovedPaths(paths, filename, dir, name) == moved)
  {
  }

  /** With `overwrite` an existing target never makes the call return False. */
  lemma OverwriteSkipsTargetCheck(
    paths: set<string>, item: MediaItem, activity: Option<Activity>, base: string, slug: string -> string)
    requires item.filename != "" && activity.Some? && Truthy(activity.value.folder)
    requires PathJoin(UploadsDir, item.filename) in paths
    ensures MoveSpec(paths, item, activity, base, true, slug).result != Success(false)
  {
  }

  /**
   * `move_and_rename_media`: the item's activity is looked up by its key, the
   * file system is changed by its operations in the source's order, and the
   * updated item is saved with `session.add`.
   */
  method MoveAndRenameMedia(
    db: Database, fs: FileSystem, item: MediaItem, base: string, overwrite: bool, slug: string -> string)
    returns (r: Result<bool, ServiceError>)
    requires db.Valid()
    modifies fs, db`mediaItems
    ensures db.Valid()
    ensures var o := MoveSpec(old(fs.paths), item, Get(db.activities, ActivityKey, item.activityId), base, overwrite, slug);
      r == o.result && fs.paths == o.paths
      && db.mediaItems == if r == Success(true) then Merge(old(db.mediaItems), MediaItemKey, o.item) else old(db.mediaItems)
  {
    if item.filename == "" {
      return Success(false);
    }
    var activity := Get(db.activities, ActivityKey, item.activityId);
    if activity.None? || !Truthy(activity.value.folder) {
      return Success(false);
    }
    var dir := TargetDir(base, activity.value.folder.value, item.typeMedia);
    var name := NewFilename(slug, item.filename, item.caption);
    fs.MakeDir(dir);
    var target := PathJoin(dir, name);
    var source := PathJoin(UploadsDir, item.filename);
    if !fs.Exists(source) {
      return Success(false);
    }
    if fs.Exists(target) && !overwrite {
      return Success(false);
    }
    fs.Rename(source, target);
    var thumb := PathJoin(UploadThumbnailsDir, item.filename);
    if fs.Exists(thumb) {
      var thumbDir := PathJoin(dir, ThumbnailsSubdir);
      fs.MakeDir(thumbDir);
      fs.Rename(thumb, PathJoin(thumbDir, name));
    }
    var rel := RelativeTo(target, base);
    if rel.None? {
      return Failure(ValueError(NotInSubpathMessage));
    }
    var updated := item.(filename := name, storagePath := Some(rel.value));
    MergeUnique(db.mediaItems, MediaItemKey, updated);
    db.mediaItems := Merge(db.mediaItems, MediaItemKey, updated);
    return Success(true);
  }
}
