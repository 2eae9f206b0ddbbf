# The theatre archive, modelled and proved in Dafny

This project models the data layer of a theatre association's archive. The archive keeps:

- members and their name history and membership periods;
- activities (productions and events), with their locations and the roles members played;
- media items, such as photos, booklets and videos, and the members who appear in them;
- media mentions, such as newspaper articles, annual reports and newsletters, linked to members, activities and media items.

The model covers the service layer that creates, validates, updates, lists and deletes these records. It also covers:

- the program-text parser that turns "Role – Actor" lines (an en dash is the default delimiter) into roles;
- the routine that moves an uploaded file into the archive's folder layout;
- the reader helpers that build page data: hex-encoded file paths, enriched media records, the member card and the year-by-year timeline;
- the one-off workbook import that fills an empty archive.

## How the model is built

**The database.** `Store.Database` is a class with one `seq` field per table. Rows are kept in insertion order, which is rowid order. `Valid()` is the schema's primary-key constraints, composite keys included. Foreign keys are declared in the schema, but SQLite enforces them only when asked, and that never happens here. So foreign keys are not part of the invariant. Each service method takes the database where the source takes a session. It names the tables it may change in `modifies`, and states their whole new state in `ensures`.

**The rules.** Each rule of a service is a function. Either its own contract or a lemma beside it states what the rule means:

- the required-field checks;
- the stripping, lowercasing and defaults;
- the dictionary of values that a partial update builds;
- a lookup;
- a listing (filter, then a stable ORDER BY, then LIMIT and OFFSET).

Methods are proved against these functions. Lemmas then relate the functions: create then get, an update applied twice is applied once, a listing is the filtered rows in order, each partial update has its "nothing changes" case, and so on.

**Loops.** The source's loops are modelled as `while` loops with invariants:

- the quick-create id probe;
- the bulk role import;
- linking members to media;
- adding roles to an activity;
- the enrichment and timeline loops of the reader;
- every sheet loop of the workbook import.

Each loop is tied to a recursive specification function, and that function's properties are proved as lemmas.

**Python, SQLite and standards.** `Text` models the Python string operations the source uses: `strip`, `lower`, `capitalize`, `split`, `replace` and `splitlines`. It also models SQLite's `lower` and `ILIKE`. `Ordering` gives SQLite's value order with NULL smallest, and `Tables` gives keyed tables, `session.merge` and the rowid rule. `Codec` implements UTF-8 as in RFC 3629, and hexadecimal as `binascii` does.

**Services and records.** The modules follow the source files one to one:

| module | source |
|---|---|
| `ActivityService` | `src/content_db/services/activity_service.py` |
| `MemberService` | `src/content_db/services/member_service.py` |
| `RoleService` | `src/content_db/services/role_service.py` |
| `MediaService` | `src/content_db/services/media_service.py` |
| `MediaMentionService` | `src/content_db/services/media_mention_service.py` |
| `Reader` | `src/content_db/services/reader.py` |
| `FileUtils` | `src/utils/file_utils.py` |
| `ExcelLoader` | `src/content_db/load_from_excel.py` |
| `Models`, `Store` | `src/content_db/models.py` |

In `Models` a nullable column is an `Option`, and a NOT NULL column is a plain value. The exception is three nullable integer columns that have a default: `NameHistory.displayPriority`, `MediaItem.displayOrder` and `MediaAppearance.displayOrder`. They are plain `int`s (see "Left out"). Defaults are constants: a GDPR permission of 1, a display order of 0, a display priority of 10 and the activity type "Uitvoering". A call that can raise returns a `Wrappers.Result`. Its error is a `Models.ServiceError`, whose constructor is the exception class: `ValueError`, `IntegrityError`, `TypeError` or `AttributeError`.

**What is given as a parameter.**

- `slugify` is a foreign library, so it is a parameter of type `string -> string`.
- The file system is `FileUtils.FileSystem`, a class over a set of paths.
- The configured resources directory is a parameter of the reader functions.
- The workbook is a value whose sheets are sequences of rows. A cell is a `seq<char>` or None, where None stands for an empty cell.

## Model

| member | source | states |
|---|---|---|
| MemberService.NewMember | src/content_db/services/member_service.py:26-36 | fails with the "required" ValueError exactly when the id or a name is empty (checked before stripping); otherwise id and names are stripped and the other columns are copied |
| MemberService.CreateMemberIn | src/content_db/services/member_service.py:16-39 | succeeds exactly when the arguments validate and no member has the stripped id (the flush's primary key); a validation error comes first |
| MemberService.CreateMember | src/content_db/services/member_service.py:16-39 | the member table gains exactly the new member on success and is unchanged on failure; keys stay unique |
| MemberService.CreateThenGet | src/content_db/services/member_service.py:42-50 | after a successful create, `get_member` of the stripped id returns the created member |
| MemberService.GetMember | src/content_db/services/member_service.py:42-50 | a member is returned exactly when one has the id, and it is that member of the table |
| MemberService.ListMembers | src/content_db/services/member_service.py:53-63 | the listing query: the GDPR filter, then ORDER BY last and first name, then LIMIT and OFFSET; what it returns is stated by ListMembersSpec and ListMembersWindow |
| MemberService.ListMembersSpec | src/content_db/services/member_service.py:53-63 | the page holds only table members, only GDPR-visible ones when asked, sorted by last then first name, at most `limit` rows; unpaged it holds every qualifying member |
| MemberService.ListMembersWindow | src/content_db/services/member_service.py:53-63 | exactly the window of the ordered qualifying members that starts at the offset and holds `limit` rows, or all that follow |
| MemberService.UpdateMemberAsWritten | src/content_db/services/member_service.py:76-94 | the UPDATE as written: a missing id changes nothing; an existing member fails on NOT NULL unless both names and the permission are given, naming the first NULL column in column order (first name, last name, permission); birth date and notes are overwritten |
| MemberService.UpdateMemberAsWrittenRejectsRename | src/content_db/services/member_service.py:80-87 | changing only the first name of an existing member fails with the NOT NULL error of `member.current_last_name` |
| MemberService.UpdateMemberAsWrittenErasesBirthDate | src/content_db/services/member_service.py:86 | an update that passes no birth date erases the stored one |
| MemberService.ApplyMemberUpdate | src/content_db/services/member_service.py:66-94 | the documented partial update: a truthy name is stripped and written, every other argument overwrites only when given; the id never changes |
| MemberService.ApplyMemberUpdateNothing | src/content_db/services/member_service.py:75 | an update with no arguments leaves the member as it was |
| MemberService.ApplyMemberUpdateIdempotent | src/content_db/services/member_service.py:66-94 | applying the same update twice is applying it once |
| MemberService.UpdateMember | src/content_db/services/member_service.py:66-94 | returns a member exactly when the id exists; that row, and no other, becomes the partial update of the old row |
| MemberService.DeleteMember | src/content_db/services/member_service.py:97-101 | returns true exactly when a member had the id; the table loses exactly that row |
| MemberService.NewNameHistory | src/content_db/services/member_service.py:118-132 | fails with "Member … not found" exactly when the member is missing; otherwise a fresh id, the member id, the stripped names, and valid-from, valid-to, change reason, source, priority and notes as given |
| MemberService.AddNameHistory | src/content_db/services/member_service.py:106-134 | the history table gains exactly the new row on success and is unchanged on failure |
| MemberService.GetNameHistory | src/content_db/services/member_service.py:137-146 | the history query of one member; what it returns is stated by GetNameHistorySpec |
| MemberService.GetNameHistorySpec | src/content_db/services/member_service.py:137-146 | exactly the member's rows, latest `valid_from` first, ties by priority, undated rows last |
| MemberService.Candidate | src/content_db/services/member_service.py:176-179 | every suffixed candidate is longer than the base id |
| MemberService.CandidateInjective | src/content_db/services/member_service.py:179 | different counters give different candidate ids |
| MemberService.CandidatesTakenBound | src/content_db/services/member_service.py:178-180 | no more candidates can be taken than there are members, so the probing loop ends |
| MemberService.ProbeFrom | src/content_db/services/member_service.py:178-180 | the first free candidate at or after k: it is free and every earlier one is taken |
| MemberService.ProbeId | src/content_db/services/member_service.py:171-180 | the probed id is free, and every candidate before it is taken |
| MemberService.ProbeBaseWhenFree | src/content_db/services/member_service.py:176-178 | a free base id is used unchanged |
| MemberService.ProbeBounded | src/content_db/services/member_service.py:178-180 | the probe stops within as many steps as there are members |
| MemberService.ProbeUnique | src/content_db/services/member_service.py:178-180 | the probe returns the first free counter and no other |
| MemberService.BaseId | src/content_db/services/member_service.py:173 | the slug of "last-first" that the id probe starts from; its candidates are stated by Candidate, CandidateInjective and ProbeBaseWhenFree |
| MemberService.QuickCreateIn | src/content_db/services/member_service.py:149-188 | a truthy id is used as given, otherwise the probed slug; the member is visible (permission 1) and its id is new; an empty name fails |
| MemberService.QuickCreateMember | src/content_db/services/member_service.py:149-188 | the probing loop picks the same id as the specification; the table gains exactly the new member on success |
| ActivityService.NewActivity | src/content_db/services/activity_service.py:34-48 | fails with the "required" ValueError exactly when id or title is empty; id, title and type are stripped; author, director and folder are their stripped values when truthy and NULL otherwise; start and end date, year and description are copied |
| ActivityService.CreateActivityIn | src/content_db/services/activity_service.py:20-51 | succeeds exactly when id and title are given and no activity has the stripped id; a taken id gives the primary-key IntegrityError |
| ActivityService.CreateActivity | src/content_db/services/activity_service.py:20-51 | the activity table gains exactly the new row on success and is unchanged on failure; keys stay unique |
| ActivityService.GetActivity | src/content_db/services/activity_service.py:54-62 | an activity is returned exactly when one has the id, and it is that row |
| ActivityService.ListActivities | src/content_db/services/activity_service.py:65-81 | the listing query of activities; what it returns is stated by ListActivitiesSpec and ListActivitiesWindow |
| ActivityService.ListActivitiesSpec | src/content_db/services/activity_service.py:65-81 | the page holds only table rows matching the given year and the truthy type, newest year first with undated ones last, ties by title, at most `limit` rows; unpaged it holds every match |
| ActivityService.ListActivitiesWindow | src/content_db/services/activity_service.py:65-81 | exactly the window of the ordered matching activities that starts at the offset and holds `limit` rows, or all that follow |
| ActivityService.ActivityValuesOf | src/content_db/services/activity_service.py:98-116 | a field is in the value dict exactly when its argument is not None; title and type are stripped; author, director and folder are stripped, or NULL when empty; dates, year and description are as given |
| ActivityService.ApplyActivityValues | src/content_db/services/activity_service.py:121-126 | each of title, type, start and end date, year, author, director, folder and description takes the dict value when present and keeps the stored one otherwise; an empty dict changes nothing; the id never changes |
| ActivityService.ApplyActivityValuesIdempotent | src/content_db/services/activity_service.py:121-126 | applying the same values twice is applying them once |
| ActivityService.UpdateActivityIn | src/content_db/services/activity_service.py:118-129 | returns a row exactly when some value is given and the id exists; the row is the old one with the values applied |
| ActivityService.UpdateActivityClears | src/content_db/services/activity_service.py:109-114 | an empty author clears the author while an absent folder keeps the stored folder |
| ActivityService.UpdateActivity | src/content_db/services/activity_service.py:84-129 | that row, and no other, takes the updated values; nothing changes when nothing is returned |
| ActivityService.DeleteActivity | src/content_db/services/activity_service.py:132-136 | returns true exactly when an activity had the id; the table loses exactly that row |
| ActivityService.NewActivityRole | src/content_db/services/activity_service.py:151-166 | a missing activity, then a missing member, gives its "not found" ValueError; otherwise a role with a fresh id, the stripped role name and the truthy-stripped character and role type |
| ActivityService.CreateRole | src/content_db/services/activity_service.py:141-169 | the role table gains exactly the new role on success and is unchanged on failure |
| ActivityService.GetRole | src/content_db/services/activity_service.py:172-174 | a role is returned exactly when one has the id, and it is that row |
| ActivityService.ListRolesForActivity | src/content_db/services/activity_service.py:177-186 | the role query of one activity; what it returns is stated by ListRolesForActivitySpec |
| ActivityService.ListRolesForActivitySpec | src/content_db/services/activity_service.py:177-186 | exactly the activity's roles, as a permutation of the filtered rows, ordered by role name |
| ActivityService.RoleValuesOf | src/content_db/services/activity_service.py:198-208 | a field is in the value dict exactly when its argument is not None; the role name is stripped; character name and role type are stripped, or NULL when empty; notes as given |
| ActivityService.ApplyRoleValues | src/content_db/services/activity_service.py:213-217 | role name, character name, role type and notes each take the dict value when present and keep the stored one otherwise; id, activity and member never change; no values changes nothing |
| ActivityService.ApplyRoleValuesIdempotent | src/content_db/services/activity_service.py:213-217 | applying the same values twice is applying them once |
| ActivityService.UpdateRoleIn | src/content_db/services/activity_service.py:210-217 | returns a row exactly when some value is given and the id exists; the row is the old one with the values applied |
| ActivityService.UpdateRole | src/content_db/services/activity_service.py:189-217 | that row, and no other, takes the updated values; nothing changes when nothing is returned |
| ActivityService.DeleteRole | src/content_db/services/activity_service.py:220-224 | returns true exactly when a role had the id; the table loses exactly that row |
| ActivityService.AddStep | src/content_db/services/activity_service.py:234-244 | one entry: after an error nothing more happens; otherwise it succeeds exactly when activity and member exist and appends one role for that member with a fresh id |
| ActivityService.CreatedForWiden | src/content_db/services/activity_service.py:233-245 | the roles created for a prefix of the list still match the whole list |
| ActivityService.CreatedForSnoc | src/content_db/services/activity_service.py:244 | appending the role of the next entry keeps the created roles matched to the entries, in order |
| ActivityService.AddRolesIn | src/content_db/services/activity_service.py:229-245 | the bulk add as a fold over the entries; what it creates is stated by AddRolesInSpec and AddRolesSucceeds, and its steps by AddRolesUnfold and AddRolesStops |
| ActivityService.AddRolesInSpec | src/content_db/services/activity_service.py:229-245 | the created roles match the entries in order, one per entry when no error occurred, and all role ids stay unique |
| ActivityService.MembersKnownSnoc | src/content_db/services/activity_service.py:238 | every entry's member exists exactly when that holds for all but the last and for the last |
| ActivityService.AddRolesSucceeds | src/content_db/services/activity_service.py:229-245 | the bulk add succeeds exactly when the list is empty, or the activity exists and every entry's member exists |
| ActivityService.AddRolesToActivity | src/content_db/services/activity_service.py:229-245 | the loop agrees with the fold: the roles created before the first error stay added (no rollback), and the error or the created list is returned |
| ActivityService.AddRoleStep | src/content_db/services/activity_service.py:235-244 | one call of `create_role` is one step of the fold, on success and on failure |
| ActivityService.AddRolesUnfold | src/content_db/services/activity_service.py:234 | the fold over one more entry is one more step |
| ActivityService.AddRolesStops | src/content_db/services/activity_service.py:234-243 | once an entry fails, the rest of the list changes nothing |
| RoleService.NewRole | src/content_db/services/role_service.py:35-44 | the role carries exactly the given columns, unchanged, and an id larger than every existing role id (the rowid the flush assigns) |
| RoleService.CreateRole | src/content_db/services/role_service.py:11-45 | the role table gains exactly the new role; creating never fails |
| RoleService.GetRole | src/content_db/services/role_service.py:48-50 | a role is returned exactly when one has the id, and it is that row |
| RoleService.CreateRoleThenGet | src/content_db/services/role_service.py:43-50 | a created role is found again by its id |
| RoleService.RolesForActivity | src/content_db/services/role_service.py:53-74 | the role query of one activity; what it returns is stated by RolesForActivitySpec |
| RoleService.RolesForActivitySpec | src/content_db/services/role_service.py:53-74 | exactly the activity's roles, of the given type when it is truthy, ordered by role name with NULL names first |
| RoleService.RolesForMember | src/content_db/services/role_service.py:77-103 | the joined role query of one member; what it returns is stated by RolesForMemberSpec and RolesForMemberWindow |
| RoleService.RolesForMemberSpec | src/content_db/services/role_service.py:77-103 | only the member's roles whose activity exists (the inner join), latest activity year first; a positive limit bounds the count; with no limit, 0 or a negative limit (SQLite's LIMIT -1 means no limit) every such role is listed |
| RoleService.RolesForMemberWindow | src/content_db/services/role_service.py:91-103 | exactly the first `limit` joined roles of the member in year order, all of them when the limit is unset, 0 or negative |
| RoleService.ApplyRoleUpdate | src/content_db/services/role_service.py:132-139 | each given argument replaces its column, unstripped; absent ones stay; id, activity and member never change |
| RoleService.ApplyRoleUpdateNothing | src/content_db/services/role_service.py:132-139 | an update with no arguments leaves the role as it was |
| RoleService.ApplyRoleUpdateCompose | src/content_db/services/role_service.py:132-139 | two updates in a row are one update in which the later given arguments win |
| RoleService.UpdateRole | src/content_db/services/role_service.py:106-142 | returns a role exactly when the id exists; that row, and no other, is updated |
| RoleService.DetachRole | src/content_db/services/role_service.py:160 | every appearance that pointed at the deleted role loses its role link, the others are untouched |
| RoleService.DetachRoleKeepsKeys | src/content_db/services/role_service.py:160-161 | detaching a role keeps appearance ids unique |
| RoleService.DeleteRole | src/content_db/services/role_service.py:145-162 | returns true exactly when the role exists; the role row goes and the ORM nulls the role link of its appearances; nothing changes otherwise |
| RoleService.SplitFullName | src/content_db/services/role_service.py:184-190 | the split into first and last name; what it returns is stated by SplitFullNameSpec |
| RoleService.SplitFullNameSpec | src/content_db/services/role_service.py:184-190 | with two or more words, the first-name words followed by the last name are the words of the stripped name and the last name is one word; otherwise the whole unstripped name is the first name and the last name is empty |
| RoleService.FindMember | src/content_db/services/role_service.py:193-196 | a member is found exactly when some member's names contain the split names case-insensitively, and it is such a member |
| RoleService.FindOrCreateIn | src/content_db/services/role_service.py:165-206 | a found member is returned as is; otherwise the result of `quick_create_member` with the split names |
| RoleService.OneWordNameNeverCreates | src/content_db/services/role_service.py:188-190 | a one-word name never creates a member: with no match the empty last name makes the call fail |
| RoleService.FindOrCreateMemberByName | src/content_db/services/role_service.py:165-206 | the member table grows by the created member exactly when none was found and creation succeeded |
| RoleService.ProgramLines | src/content_db/services/role_service.py:232 | each kept line is non-empty and stripped, every non-blank line's strip is kept, and nothing else |
| RoleService.ProgramLinesExact | src/content_db/services/role_service.py:232 | the program lines are exactly the stripped lines that are not blank, in input order, one per such line |
| RoleService.ParseLine | src/content_db/services/role_service.py:237-247 | the line is skipped for a missing delimiter exactly when the delimiter does not occur; an assignment has both fields non-empty and they are the stripped halves around the first delimiter |
| RoleService.AssignStep | src/content_db/services/role_service.py:249-274 | one assignment either creates one role for the activity or records one error; the member table at most grows by one |
| RoleService.BulkStep | src/content_db/services/role_service.py:236-274 | one line either creates one role for the activity or records one error; roles change only when a role is created |
| RoleService.GrowsTrans | src/content_db/services/role_service.py:236-274 | the accounting over consecutive runs of lines adds up |
| RoleService.StepGrows | src/content_db/services/role_service.py:236-274 | one line adds exactly one to created plus errors |
| RoleService.BulkFold | src/content_db/services/role_service.py:232-277 | the import as a fold of BulkStep over the lines; what it does is stated by BulkFoldAccounts and BulkRerunCreatesNothing |
| RoleService.BulkFoldAccounts | src/content_db/services/role_service.py:232-277 | over all lines, created plus errors equals the number of lines, and every new role belongs to the activity |
| RoleService.BulkLineWithoutDelimiter | src/content_db/services/role_service.py:237-239 | a line without the delimiter adds only its "Skipped (no delimiter)" message |
| RoleService.BulkLineEmptyField | src/content_db/services/role_service.py:245-247 | a line with an empty side adds only its "Skipped (empty field)" message and creates nothing |
| RoleService.BulkLineExisting | src/content_db/services/role_service.py:254-262 | an existing role for the same member and role name adds only the "Already exists" message |
| RoleService.BulkRerunCreatesNothing | src/content_db/services/role_service.py:232-277 | an import whose every well-formed line names a member the table resolves and a role that member already holds creates no role and no member, and adds one message per line, as a second run of the same text does |
| RoleService.BulkCreateIn | src/content_db/services/role_service.py:209-277 | fails only for an empty delimiter with at least one line (`split` raises outside the try); otherwise created plus errors is the number of program lines |
| RoleService.BulkLine | src/content_db/services/role_service.py:236-274 | the loop body agrees with one step of the fold, members and roles included |
| RoleService.AssignLine | src/content_db/services/role_service.py:249-274 | the try block agrees with one assignment step of the fold |
| RoleService.AssignStepFound | src/content_db/services/role_service.py:251-271 | with a member found or created, the step records "Already exists" or appends the new role and counts it |
| RoleService.AddRoleUnlessExists | src/content_db/services/role_service.py:254-271 | an existing role leaves the table and count alone and adds the message; otherwise one role is appended and counted |
| RoleService.BulkCreateFromText | src/content_db/services/role_service.py:209-277 | the loop leaves exactly the members and roles of the fold and returns its count and errors; on failure nothing changes |
| RoleService.BulkFoldSnoc | src/content_db/services/role_service.py:232-277 | the import of one more line is one more step of the fold |
| MediaService.TypeCode | src/content_db/services/media_service.py:25 | the stored code of a type, stripped and lowercased; MediaTypeFor and WithMediaType state how it is used |
| MediaService.NewTypeDescription | src/content_db/services/media_service.py:30-32 | the description of a new type; MediaTypeFor states when it is used |
| MediaService.MediaTypeFor | src/content_db/services/media_service.py:21-35 | the type has the stripped lowercase code; an existing row with that code is returned as it is, otherwise the new row's description is the truthy given one or the capitalised code |
| MediaService.WithMediaType | src/content_db/services/media_service.py:25-34 | afterwards the code is in the table; an existing code leaves the table alone, a new one appends exactly one row; codes stay unique |
| MediaService.CreateOrGetMediaTypeIdempotent | src/content_db/services/media_service.py:21-35 | a second call with the same code changes nothing and returns the same row, whatever its description argument |
| MediaService.CreateOrGetMediaType | src/content_db/services/media_service.py:21-35 | returns the row of the specification and leaves the table the specification describes |
| MediaService.ExtensionOf | src/content_db/services/media_service.py:67 | an extension is stored exactly when the argument is truthy, stripped and lowercased |
| MediaService.NewMediaItem | src/content_db/services/media_service.py:53-73 | a missing required argument gives the "required" ValueError, then a missing activity its "not found" error; otherwise a fresh id, the stripped file name, the lowercased type and extension, and storage path, capture date, caption, credit and order as given |
| MediaService.CreatedItemTypeRegistered | src/content_db/services/media_service.py:56-57 | the type of a created item is a row of the media type table |
| MediaService.CreateMediaItem | src/content_db/services/media_service.py:40-76 | the type table is extended before the activity check (so it grows even when that check fails); the item table gains exactly the new item on success |
| MediaService.GetMediaItem | src/content_db/services/media_service.py:79-87 | an item is returned exactly when one has the id, and it is that row |
| MediaService.ListMediaForActivity | src/content_db/services/media_service.py:90-104 | the media query of one activity; what it returns is stated by ListMediaForActivitySpec and ListMediaForActivityWindow |
| MediaService.ListMediaForActivitySpec | src/content_db/services/media_service.py:90-104 | the page holds only the activity's items, of the lowercased truthy type, by display order and then by file name within an order, at most `limit` rows; unpaged it holds every match |
| MediaService.ListMediaForActivityWindow | src/content_db/services/media_service.py:90-104 | exactly the window of the ordered matching items that starts at the offset and holds `limit` rows, or all that follow |
| MediaService.MediaValuesOf | src/content_db/services/media_service.py:120-140 | a field is in the value dict exactly when its argument is not None; the filename is stripped, the type stripped and lowercased, an empty extension becomes NULL; storage path, capture date, caption, credit and order are as given |
| MediaService.ApplyMediaValues | src/content_db/services/media_service.py:145-152 | each of filename, type, extension, storage path, capture date, caption, credit and order takes the dict value when present and keeps the stored one otherwise; id and activity never change; no values changes nothing |
| MediaService.ApplyMediaValuesIdempotent | src/content_db/services/media_service.py:145-152 | applying the same values twice is applying them once |
| MediaService.UpdateMediaItemIn | src/content_db/services/media_service.py:142-152 | returns a row exactly when some value is given and the id exists; it is the old row with the values applied |
| MediaService.UpdateMediaItem | src/content_db/services/media_service.py:107-152 | a given type is registered even when the id does not exist; that item row, and no other, is updated |
| MediaService.DeleteMediaItem | src/content_db/services/media_service.py:155-159 | returns true exactly when an item had the id; the table loses exactly that row and the bulk delete touches no appearance |
| MediaService.AppearanceChecks | src/content_db/services/media_service.py:174-190 | the checks in order: media item, member, then for a truthy role id the role and its activity; they pass exactly when all hold |
| MediaService.NewAppearanceAsWritten | src/content_db/services/media_service.py:192-201 | the insert as written never sets the NOT NULL activity, so every call fails, with the NOT NULL error once the checks pass |
| MediaService.AppearanceAsWrittenRejectsValidLink | src/content_db/services/media_service.py:192-201 | a link that passes every check still fails to insert |
| MediaService.NewAppearance | src/content_db/services/media_service.py:164-202 | fails exactly when a check fails, with its error; otherwise a fresh id with the given member, role, context, order and notes and the media item's activity |
| MediaService.NewAppearanceConsistent | src/content_db/services/media_service.py:174-190 | a created appearance refers to an existing item and member, and a truthy role belongs to the item's activity |
| MediaService.CreateMediaAppearance | src/content_db/services/media_service.py:164-202 | the appearance table gains exactly the new row on success and is unchanged on failure |
| MediaService.GetMediaAppearance | src/content_db/services/media_service.py:205-209 | an appearance is returned exactly when one has the id, and it is that row |
| MediaService.ListAppearancesForMedia | src/content_db/services/media_service.py:212-226 | the appearance query of one item; what it returns is stated by ListAppearancesForMediaSpec |
| MediaService.ListAppearancesForMediaSpec | src/content_db/services/media_service.py:212-226 | a permutation of exactly the item's appearances, by display order |
| MediaService.ApplyAppearanceValues | src/content_db/services/media_service.py:251-258 | role, context, order and notes each take the dict value when present and keep the stored one otherwise; id, item, member and activity never change; no values changes nothing |
| MediaService.UpdateAppearanceIn | src/content_db/services/media_service.py:248-258 | returns a row exactly when some value is given and the id exists; it is the old row with the values applied |
| MediaService.UpdateAppearanceNeverClearsRole | src/content_db/services/media_service.py:239-240 | despite its comment, passing None never clears a role: a stored role stays set |
| MediaService.UpdateMediaAppearance | src/content_db/services/media_service.py:229-258 | that appearance row, and no other, is updated; nothing changes when nothing is returned |
| MediaService.DeleteMediaAppearance | src/content_db/services/media_service.py:261-267 | returns true exactly when an appearance had the id; the table loses exactly that row |
| MediaService.LinkStep | src/content_db/services/media_service.py:280-290 | one entry: after an error nothing more happens; otherwise it succeeds exactly when the checks pass and appends one appearance for that member and role with a fresh id |
| MediaService.LinkedForWiden | src/content_db/services/media_service.py:279-291 | the appearances created for a prefix of the list still match the whole list |
| MediaService.LinkedForSnoc | src/content_db/services/media_service.py:290 | appending the appearance of the next entry keeps the created ones matched to the entries, in order |
| MediaService.LinkMembersIn | src/content_db/services/media_service.py:272-291 | the linking as a fold over the entries; what it creates is stated by LinkMembersInSpec, and its steps by LinkMembersUnfold and LinkMembersStops |
| MediaService.LinkMembersInSpec | src/content_db/services/media_service.py:272-291 | the created appearances match the entries in order, one per entry when no error occurred, and ids stay unique |
| MediaService.LinkMembersUnfold | src/content_db/services/media_service.py:280 | the fold over one more entry is one more step |
| MediaService.LinkMembersStops | src/content_db/services/media_service.py:280-289 | once an entry fails, the rest of the list changes nothing |
| MediaService.LinkMembersToMedia | src/content_db/services/media_service.py:272-291 | the loop agrees with the fold: the appearances created before the first error stay added, and the error or the created list is returned; each step uses the corrected `CreateMediaAppearance`, since as written every entry that passes the checks fails on NOT NULL (second finding) |
| MediaService.LinkOneStep | src/content_db/services/media_service.py:281-289 | one call of `create_media_appearance` is one step of the fold, on success and on failure |
| MediaMentionService.MentionTypeOf | src/content_db/services/media_mention_service.py:45 | a media type is stored exactly when the argument is truthy, stripped and lowercased |
| MediaMentionService.NewMention | src/content_db/services/media_mention_service.py:37-48 | fails with the "required" ValueError exactly when source or title is empty; otherwise a fresh id, stripped source and title, the truthy-stripped url and the lowercased type |
| MediaMentionService.CreateMediaMention | src/content_db/services/media_mention_service.py:21-52 | the mention table gains exactly the new row on success and is unchanged on failure |
| MediaMentionService.GetMediaMention | src/content_db/services/media_mention_service.py:57-59 | a mention is returned exactly when one has the id, and it is that row |
| MediaMentionService.CreateThenGetMention | src/content_db/services/media_mention_service.py:50-59 | a created mention is found again by its id |
| MediaMentionService.ListMediaMentions | src/content_db/services/media_mention_service.py:62-91 | the filtered mention query; what it returns is stated by ListMediaMentionsSpec, ListMediaMentionsWindow and ListMediaMentionsDatedOnly |
| MediaMentionService.ListMediaMentionsSpec | src/content_db/services/media_mention_service.py:62-91 | the page holds only table rows that match every truthy filter, latest date first with undated rows last, at most `limit` rows; unpaged it holds every match |
| MediaMentionService.ListMediaMentionsWindow | src/content_db/services/media_mention_service.py:62-91 | exactly the window of the ordered matching mentions that starts at the offset and holds `limit` rows, or all that follow |
| MediaMentionService.ListMediaMentionsDatedOnly | src/content_db/services/media_mention_service.py:76-79 | with a date bound, an undated mention is never listed (a comparison with NULL is not true) |
| MediaMentionService.MentionValuesOf | src/content_db/services/media_mention_service.py:108-122 | a field is in the value dict exactly when its argument is not None; source and title are stripped; an empty url becomes NULL, otherwise it is stripped; the type is normalised; date, description and notes are as given |
| MediaMentionService.ApplyMentionValues | src/content_db/services/media_mention_service.py:127-135 | each of date, source, title, url, type, description and notes takes the dict value when present and keeps the stored one otherwise; the id never changes; no values changes nothing |
| MediaMentionService.ApplyMentionValuesIdempotent | src/content_db/services/media_mention_service.py:127-135 | applying the same values twice is applying them once |
| MediaMentionService.UpdateMentionIn | src/content_db/services/media_mention_service.py:124-135 | returns a row exactly when some value is given and the id exists; it is the old row with the values applied |
| MediaMentionService.UpdateMentionClears | src/content_db/services/media_mention_service.py:115-125 | an empty url or type clears the column, and an update with no arguments returns nothing |
| MediaMentionService.UpdateMediaMention | src/content_db/services/media_mention_service.py:96-135 | that mention row, and no other, is updated; nothing changes when nothing is returned |
| MediaMentionService.MemberLinksWithout | src/content_db/services/media_mention_service.py:142 | exactly the member links that do not refer to the deleted mention |
| MediaMentionService.ActivityLinksWithout | src/content_db/services/media_mention_service.py:142 | exactly the activity links that do not refer to the deleted mention |
| MediaMentionService.MediaItemLinksWithout | src/content_db/services/media_mention_service.py:142 | exactly the media-item links that do not refer to the deleted mention |
| MediaMentionService.DeleteMentionAsWritten | src/content_db/services/media_mention_service.py:140-144 | the bulk delete as written removes the mention rows with the id and leaves every link row as it was |
| MediaMentionService.DeleteMentionAsWrittenOrphansLinks | src/content_db/services/media_mention_service.py:142 | deleting a linked mention leaves a member link whose mention no longer exists |
| MediaMentionService.DeleteMediaMention | src/content_db/services/media_mention_service.py:140-144 | returns true exactly when the mention exists; the mention and, as the intended cascade, its link rows in all three tables go |
| MediaMentionService.DeleteMemberLinks | src/content_db/services/media_mention_service.py:142 | the member-link table loses exactly the mention's links |
| MediaMentionService.DeleteActivityLinks | src/content_db/services/media_mention_service.py:142 | the activity-link table loses exactly the mention's links |
| MediaMentionService.DeleteMediaItemLinks | src/content_db/services/media_mention_service.py:142 | the media-item link table loses exactly the mention's links |
| MediaMentionService.DeleteMentionLeavesNoOrphans | src/content_db/services/media_mention_service.py:140-144 | after the delete no member link refers to the mention, and every other link is kept |
| MediaMentionService.FindMentionsForMember | src/content_db/services/media_mention_service.py:149-167 | only mentions whose description or source contains the id case-insensitively, at most `limit`; without a limit every such mention; exactly the first `limit` matches in table order, or all of them for a negative limit |
| MediaMentionService.FindMentionsForActivity | src/content_db/services/media_mention_service.py:170-180 | only mentions whose description contains the id case-insensitively, at most `limit`; without a limit every such mention; exactly the first `limit` matches in table order, or all of them for a negative limit |
| MediaMentionService.FindMentionsBySource | src/content_db/services/media_mention_service.py:161-162 | searching for a mention's own source finds it |
| MediaMentionService.NewMemberLink | src/content_db/services/media_mention_service.py:191-201 | a missing mention or member gives the "not found" ValueError; it succeeds exactly when both exist and the pair is not linked yet; the link carries exactly the arguments |
| MediaMentionService.LinkMemberToMention | src/content_db/services/media_mention_service.py:184-204 | the link table gains exactly the new link on success and is unchanged on failure |
| MediaMentionService.NewActivityLink | src/content_db/services/media_mention_service.py:215-225 | a missing mention or activity gives the "not found" ValueError; it succeeds exactly when both exist and the pair is not linked yet |
| MediaMentionService.LinkActivityToMention | src/content_db/services/media_mention_service.py:208-228 | the link table gains exactly the new link on success and is unchanged on failure |
| MediaMentionService.NewMediaItemLink | src/content_db/services/media_mention_service.py:239-249 | a missing mention or item gives the "not found" ValueError; it succeeds exactly when both exist and the pair is not linked yet |
| MediaMentionService.LinkMediaItemToMention | src/content_db/services/media_mention_service.py:232-252 | the link table gains exactly the new link on success and is unchanged on failure |
| MediaMentionService.MemberLinkAtMostOnce | src/content_db/services/media_mention_service.py:202-203 | linking the same member to the same mention twice fails with the composite primary-key IntegrityError |
| FileUtils.PathJoin | src/utils/file_utils.py:34 | `Path(a) / b`: an absolute right operand replaces the left, otherwise exactly one separator joins them |
| FileUtils.LastIndexOf | src/utils/file_utils.py:30-31 | the last position of the character, or None exactly when it does not occur |
| FileUtils.PathName | src/utils/file_utils.py:30-31 | `Path.name`: once trailing separators are dropped, the final component, i.e. the suffix of the path after its last separator, holding no separator; empty only for an empty path or one of separators |
| FileUtils.SuffixStart | src/utils/file_utils.py:31 | where `Path.suffix` starts: at the last dot when it is neither the first nor the last character, otherwise at the end, and at the end exactly then |
| FileUtils.StemSuffix | src/utils/file_utils.py:30-31 | `stem + suffix` is the file name, and a non-empty suffix starts with a dot after a non-empty stem |
| FileUtils.RelativeTo | src/utils/file_utils.py:61 | `relative_to`: the remainder after the base and one separator |
| FileUtils.Extension | src/utils/file_utils.py:31 | the lowercased suffix of the final component, or ".jpg" when it has none; always a dot-prefixed extension |
| FileUtils.NewFilename | src/utils/file_utils.py:30-32 | the slug of the caption when it is truthy, else of the stem, followed by the extension (see Extension) |
| FileUtils.NewFilenameKeepsSuffix | src/utils/file_utils.py:31-32 | the new file name ends in the upload's suffix, lowercased |
| FileUtils.NewFilenameDefault | src/utils/file_utils.py:30-32 | a file name without a suffix gives the slug of the caption or of the whole final component, followed by ".jpg" |
| FileUtils.ExtensionOfDoubleSuffix | src/utils/file_utils.py:31 | only the last dot starts the extension, which is lowercased: "a.tar.GZ" gives ".gz" |
| FileUtils.StoragePathUnderBase | src/utils/file_utils.py:34-36 | the stored path of the target relative to the base is `folder/type/new_filename` |
| FileUtils.FileSystem.constructor | src/utils/file_utils.py:35-57 | a file system holding exactly the given paths |
| FileUtils.FileSystem.MakeDir | src/utils/file_utils.py:35 | `mkdir(exist_ok=True)` adds the directory and nothing else |
| FileUtils.FileSystem.Rename | src/utils/file_utils.py:49 | `rename` replaces the source path by the target path |
| FileUtils.MoveGuards | src/utils/file_utils.py:20-47 | False exactly for an empty filename, a missing activity or folder, a missing upload, or an existing target without overwrite; then the item is untouched and at most the target directory was made |
| FileUtils.MovedPathsSpec | src/utils/file_utils.py:49-57 | after a move the target exists and the upload is gone |
| FileUtils.MoveSucceeds | src/utils/file_utils.py:49-63 | True only with a folder and a filename; the files are moved and the item gets the new name and the storage path relative to the base |
| FileUtils.ThumbnailMoves | src/utils/file_utils.py:52-57 | an uploaded thumbnail moves under `thumbnails/` with the new name; without one the move is the main file only |
| FileUtils.OverwriteSkipsTargetCheck | src/utils/file_utils.py:45 | with overwrite an existing target never makes the move fail |
| FileUtils.MoveAndRenameMedia | src/utils/file_utils.py:9-66 | the result and the new file system are those of the move specification, and the item row is updated exactly when the move succeeded |
| Reader.OsJoin | src/content_db/services/reader.py:54 | `os.path.join`: an absolute second part replaces the first, an empty first part leaves the second, otherwise one '/' is inserted unless the first part already ends in one |
| Reader.Encode | src/content_db/services/reader.py:52-55 | the hex encoding of the joined path: two lowercase hex digits per UTF-8 byte |
| Reader.Decode | src/content_db/services/reader.py:57-59 | decoding fails only with a ValueError, and an odd number of bytes is the "Odd-length string" error |
| Reader.DecodeEncode | src/content_db/services/reader.py:52-59 | decoding an encoded path gives the joined path back |
| Reader.EncodeInjective | src/content_db/services/reader.py:52-55 | two encodings are equal only when the joined paths are |
| Reader.EnrichMediaItem | src/content_db/services/reader.py:74-109 | fails, with the TypeError of joining None, exactly when the item's activity has no folder; otherwise the item's fields are copied, the type is capitalized or "Unknown", and the activity fields come from the activity or are None |
| Reader.EnrichedPaths | src/content_db/services/reader.py:75-91 | the media path decodes to `resources/folder/type/filename`; the thumbnail path decodes to the booklet image for pdf, the video image for mp4, else to the item's file under `thumbnails` |
| Reader.PlaceholderPaths | src/content_db/services/reader.py:82-86 | the two placeholder thumbnails are `static/images/media_type_booklet.png` and `static/images/media_type_video.png` |
| Reader.EnrichWithoutActivity | src/content_db/services/reader.py:75 | an item without an activity is stored under the folder "unknown" |
| Reader.Enrichments | src/content_db/services/reader.py:74 | one enrichment per item, each with the item's own activity |
| Reader.Collect | src/content_db/services/reader.py:73-111 | the enrichment results gathered in order, stopping at the first failure; stated by CollectSpec, CollectStops and CollectStep |
| Reader.CollectSpec | src/content_db/services/reader.py:73-111 | the list of results succeeds exactly when every item does, with one value per item in order; a failure is the first failing item's |
| Reader.CollectStops | src/content_db/services/reader.py:74 | once an item fails, later items do not change the outcome |
| Reader.CollectStep | src/content_db/services/reader.py:74-109 | one more item either appends its value or ends the loop with its error |
| Reader.EnrichMediaItems | src/content_db/services/reader.py:63-111 | the loop's result is the collected enrichments of all items, in order |
| Reader.LidInfo | src/content_db/services/reader.py:115-152 | a record exactly when a member with the id has GDPR permission 1; it carries that member's names and birth date and the number of appearances with the id, which is 0 exactly when none refer to it |
| Reader.EventYear | src/content_db/services/reader.py:233-236 | an event's non-zero `year` when it has one, else the non-zero year of its start date, else none |
| Reader.MemberYear | src/content_db/services/reader.py:241 | a member's year exactly when the join date has a non-zero year, and then it is that year |
| Reader.NewMembersInSpec | src/content_db/services/reader.py:240-248 | the new members of a year are exactly the members who joined in it |
| Reader.EventKeysMembers | src/content_db/services/reader.py:232-237 | a year is a key after the event loop exactly when some event falls in it |
| Reader.YearKeysMembers | src/content_db/services/reader.py:229-248 | a year is a key exactly when an event falls in it or a member joined in it |
| Reader.InsertDesc | src/content_db/services/reader.py:252 | inserting keeps the list strictly decreasing and adds the one element |
| Reader.SortDesc | src/content_db/services/reader.py:252 | `sorted(keys, reverse=True)` of distinct keys: strictly decreasing with the same elements |
| Reader.Timeline | src/content_db/services/reader.py:223-261 | the timeline specification: the sorted years, each with its new members and events; stated by TimelineAt, TimelineOrdered and TimelinePlacement |
| Reader.TimelineAt | src/content_db/services/reader.py:251-259 | the i-th entry holds the i-th newest year with its new members and its events |
| Reader.TimelineOrdered | src/content_db/services/reader.py:250-259 | years strictly decrease, and every entry has an event or a new member |
| Reader.EventPlaced | src/content_db/services/reader.py:232-237 | every dated event appears under its year |
| Reader.MemberPlaced | src/content_db/services/reader.py:240-248 | every member with a join year appears under that year |
| Reader.EntryBelongs | src/content_db/services/reader.py:251-259 | an entry holds only events and members of its own year |
| Reader.TimelinePlacement | src/content_db/services/reader.py:223-261 | each dated event and each joined member is under its year, and nothing else is in any entry |
| Reader.EventsInAppend | src/content_db/services/reader.py:232-237 | the events of a year in two lists are those of the first followed by those of the second |
| Reader.NewMembersInAppend | src/content_db/services/reader.py:240-248 | the new members of a year in two lists are those of the first followed by those of the second |
| Reader.FilterSnocEvent | src/content_db/services/reader.py:236-237 | one more event adds itself to the events of its year only |
| Reader.GroupDatedEvent | src/content_db/services/reader.py:236-237 | appending a dated event to its year's bucket keeps the grouping invariant |
| Reader.GroupEvent | src/content_db/services/reader.py:232-237 | one step of the event loop keeps the grouping invariant |
| Reader.GroupMember | src/content_db/services/reader.py:240-248 | one step of the member loop keeps the grouping invariant |
| Reader.GroupEvents | src/content_db/services/reader.py:229-237 | the event loop leaves each year's events grouped and the years in insertion order |
| Reader.GroupMembers | src/content_db/services/reader.py:239-248 | the member loop adds each year's new members and keeps the grouping |
| Reader.BuildTimeline | src/content_db/services/reader.py:223-261 | the loops compute exactly the timeline specification |
| Reader.ReadBuckets | src/content_db/services/reader.py:251-259 | the loop over the sorted years: one entry per year, with the members and events of that year's bucket |
| Reader.TimelineOfGrouped | src/content_db/services/reader.py:251-259 | reading grouped buckets year by year, newest first, gives the timeline specification |
| ExcelLoader.CellText | src/content_db/load_from_excel.py:85-87 | `str(cell)`: the text of a cell, and "nan" for an empty one |
| ExcelLoader.StrippedText | src/content_db/load_from_excel.py:85-87 | the stripped text of `str(cell)`, so without leading or trailing whitespace |
| ExcelLoader.PresentStripped | src/content_db/load_from_excel.py:146-149 | an optional text is present exactly when the cell is, and then it is the cell stripped |
| ExcelLoader.NormalizeId | src/content_db/load_from_excel.py:42-44 | the normalised activity key; stated by NormalizeIdStripped, NormalizeIdNotIdempotent and ReplaceDoubleSpaces |
| ExcelLoader.NormalizeIdStripped | src/content_db/load_from_excel.py:42-44 | a normalised id neither starts nor ends with whitespace |
| ExcelLoader.NormalizeIdNotIdempotent | src/content_db/load_from_excel.py:44 | one pass of the replacements halves a run of spaces only once, so normalising twice can change an id again |
| ExcelLoader.ReplaceDoubleSpaces | src/content_db/load_from_excel.py:44 | `replace("  ", " ")` replaces non-overlapping pairs left to right |
| ExcelLoader.MapRows | src/content_db/load_from_excel.py:57 | one value per sheet row, in order |
| ExcelLoader.MapRowsSnoc | src/content_db/load_from_excel.py:57 | the values of one more row are the earlier values followed by that row's |
| ExcelLoader.MediaTypeOfNormal | src/content_db/load_from_excel.py:58-61 | a loaded type code is lowercase and is the lowercased stripped description |
| ExcelLoader.MediaTypesOf | src/content_db/load_from_excel.py:57-61 | one media type per row of Type_Media |
| ExcelLoader.MediaTypesIn | src/content_db/load_from_excel.py:56-62 | the Type_Media sheet merged into the type table, or the failure of an empty cell; stated by MediaTypesInSpec |
| ExcelLoader.MediaTypesInSpec | src/content_db/load_from_excel.py:56-62 | an empty type cell fails the load with the AttributeError of `float.strip`, and only then; otherwise every row's code is in the table and codes stay unique |
| ExcelLoader.LastIndexWithKey | src/content_db/load_from_excel.py:62 | for each row there is a last row with the same key, which decides what `merge` leaves |
| ExcelLoader.MediaTypesOfSnoc | src/content_db/load_from_excel.py:57-61 | one more row adds its media type at the end |
| ExcelLoader.LoadMediaTypes | src/content_db/load_from_excel.py:56-62 | the loop merges exactly the media types of the sheet, or fails as the specification does |
| ExcelLoader.GdprFlag | src/content_db/load_from_excel.py:89-93 | the flag is 1 exactly when the lowercased cell text is "true", "1" or "yes", else 0 |
| ExcelLoader.GdprFlagMissing | src/content_db/load_from_excel.py:89-93 | an empty GDPR cell gives 0, which differs from the model's default permission |
| ExcelLoader.GdprFlagCaseInsensitive | src/content_db/load_from_excel.py:91 | the GDPR flag ignores letter case |
| ExcelLoader.MemberFromRow | src/content_db/load_from_excel.py:84-95 | the loaded member's id, first and last name are the stripped cell texts; its flag is the GDPR reading, 0 or 1; notes are None and the birth date is the cell's |
| ExcelLoader.LoadMembers | src/content_db/load_from_excel.py:65-96 | the loop merges exactly the members of Leden |
| ExcelLoader.MembersLoaded | src/content_db/load_from_excel.py:96 | after the sheet the member loaded by the last row with an id is the one stored, and ids stay unique |
| ExcelLoader.MembersKept | src/content_db/load_from_excel.py:96 | a member no row mentions is kept |
| ExcelLoader.YearOf | src/content_db/load_from_excel.py:113-115 | a year exactly when the stripped text is all digits, and it is never negative |
| ExcelLoader.YearOfPrinted | src/content_db/load_from_excel.py:113-115 | a printed natural number reads back as itself |
| ExcelLoader.ActivityFromRow | src/content_db/load_from_excel.py:103-122 | the id is the normalised key; the title and type are stripped when present, else "" and "Uitvoering"; dates are the cells'; the year is read as above; author and folder are stripped when present; there is no director; the description is the note cell |
| ExcelLoader.LoadActivities | src/content_db/load_from_excel.py:99-123 | the loop merges exactly the activities of Uitvoering |
| ExcelLoader.ActivitiesLoaded | src/content_db/load_from_excel.py:123 | the activity of the last row with an id is the one stored, and ids stay unique |
| ExcelLoader.NamedLocation | src/content_db/load_from_excel.py:131 | a location's id and name are both the location text |
| ExcelLoader.MergeLocationNameSpec | src/content_db/load_from_excel.py:131-132 | merging a location keeps ids unique, stores it under its name and keeps every other location |
| ExcelLoader.NamedKept | src/content_db/load_from_excel.py:131-132 | merging another name leaves an earlier location in place |
| ExcelLoader.LocationsIn | src/content_db/load_from_excel.py:126-136 | the location sheet as a fold of LocationStep; stated by LocationsInSpec |
| ExcelLoader.LocationsInSpec | src/content_db/load_from_excel.py:126-136 | after the sheet every non-empty location name is a location, every row's link is there, and both keys stay unique |
| ExcelLoader.LocationStepCovers | src/content_db/load_from_excel.py:128-136 | one row keeps the location invariant |
| ExcelLoader.LocationStepNames | src/content_db/load_from_excel.py:130-133 | one row keeps every seen name stored as a location |
| ExcelLoader.LocationStepSeen | src/content_db/load_from_excel.py:130-133 | after one row every non-empty name read so far has been seen |
| ExcelLoader.LocationStepLinks | src/content_db/load_from_excel.py:135-136 | after one row every link read so far is stored |
| ExcelLoader.LinkKept | src/content_db/load_from_excel.py:136 | merging a link keeps the links already stored |
| ExcelLoader.LoadLocations | src/content_db/load_from_excel.py:126-136 | the loop computes exactly the location specification |
| ExcelLoader.LocationsColumn | src/content_db/load_from_excel.py:128-136 | one more row is one more location step |
| ExcelLoader.RolesIn | src/content_db/load_from_excel.py:139-153 | the Rollen sheet appended with fresh rowids; stated by RolesInSpec |
| ExcelLoader.RolesInSpec | src/content_db/load_from_excel.py:139-153 | every row of Rollen adds exactly one role, duplicates included; existing roles stay and ids stay unique |
| ExcelLoader.LoadRoles | src/content_db/load_from_excel.py:139-153 | the loop adds exactly the roles of the specification |
| ExcelLoader.RolesColumn | src/content_db/load_from_excel.py:140-153 | one more row appends its role with the next rowid |
| ExcelLoader.ReadColumns | src/content_db/load_from_excel.py:186-188 | at most the sixteen columns `lid_0`..`lid_15` that exist in the row are read |
| ExcelLoader.LidIn | src/content_db/load_from_excel.py:188-190 | a member id is read only from a present cell, stripped and non-empty |
| ExcelLoader.FieldsOf | src/content_db/load_from_excel.py:160-163 | a row yields at most sixteen member ids |
| ExcelLoader.MissingFileNameKept | src/content_db/load_from_excel.py:161-168 | an empty file-name cell is not skipped, because `str(nan)` is the non-empty "nan" |
| ExcelLoader.PyLowerKeepsDot | src/content_db/load_from_excel.py:175 | lowercasing neither creates nor removes a dot |
| ExcelLoader.FileExtension | src/content_db/load_from_excel.py:175 | an extension exactly when the file name holds a dot; it is the lowercased text after the last dot |
| ExcelLoader.AppearancesInSpec | src/content_db/load_from_excel.py:185-200 | the member columns append appearances with fresh unique ids, each for this item and activity, without role, at display order column + 1, and every filled column has its appearance |
| ExcelLoader.AppearancesGrow | src/content_db/load_from_excel.py:185-200 | the appearances are only appended, and ids stay unique |
| ExcelLoader.AppearancesBelong | src/content_db/load_from_excel.py:191-198 | each new appearance belongs to the item and carries its column's member id |
| ExcelLoader.AppearancesFill | src/content_db/load_from_excel.py:188-200 | every column holding a member id has its appearance |
| ExcelLoader.AddAppearances | src/content_db/load_from_excel.py:186-200 | the column loop appends exactly the specified appearances |
| ExcelLoader.AppearancesColumn | src/content_db/load_from_excel.py:187-200 | a blank column adds nothing, a filled one appends one appearance at display order column + 1 |
| ExcelLoader.MediaFilesIn | src/content_db/load_from_excel.py:157-200 | the first pass over Bestand as a fold of MediaStep; stated by MediaFilesInSpec |
| ExcelLoader.MediaFilesInSpec | src/content_db/load_from_excel.py:157-200 | only complete rows add a media item, in order, with fresh unique ids; every new appearance belongs to a new item and carries its activity |
| ExcelLoader.MediaStepComplete | src/content_db/load_from_excel.py:170-200 | a complete row keeps the media invariant |
| ExcelLoader.MediaStepBacked | src/content_db/load_from_excel.py:185-200 | a complete row's appearances belong to its item |
| ExcelLoader.LoadMediaFiles | src/content_db/load_from_excel.py:157-200 | the loop over Bestand computes exactly the first-pass specification |
| ExcelLoader.MentionOf | src/content_db/load_from_excel.py:218-226 | the mention's title is the caption when it is non-empty, else the file name; the source is the capitalized type and the type the media type; the caption is the description; no date and no url; the notes say "Derived from Bestand sheet: " and the file name |
| ExcelLoader.MentionMembersIn | src/content_db/load_from_excel.py:237-246 | linking the member columns can fail only with the duplicate-link IntegrityError |
| ExcelLoader.MentionMembersGrow | src/content_db/load_from_excel.py:237-246 | on success the links are appended, each for this mention and one of the columns, and every filled column is linked |
| ExcelLoader.MemberLinkAdded | src/content_db/load_from_excel.py:242-246 | a member not linked yet is appended and keeps the invariant |
| ExcelLoader.MemberColumnEmpty | src/content_db/load_from_excel.py:239-241 | a blank column adds no link |
| ExcelLoader.MentionMembersSucceeds | src/content_db/load_from_excel.py:237-246 | the member links succeed exactly when the column ids are distinct and none is linked to the mention yet |
| ExcelLoader.MentionActivityIn | src/content_db/load_from_excel.py:231-234 | an activity link is added exactly when the id is non-empty; it fails only when that pair is linked already |
| ExcelLoader.MentionStepSpec | src/content_db/load_from_excel.py:207-246 | with no orphan links a row fails exactly when a mention row repeats a member id; a mention row adds its mention and links, other rows change nothing |
| ExcelLoader.MentionStepValid | src/content_db/load_from_excel.py:218-246 | a mention row whose links are new keeps the tables valid |
| ExcelLoader.MentionsIn | src/content_db/load_from_excel.py:205-246 | the second pass over Bestand as a fold of MentionStep that stops at the first failure; stated by MentionsInSpec, MentionsInUnique and MentionsInErrors |
| ExcelLoader.MentionsInSpec | src/content_db/load_from_excel.py:205-246 | the second pass succeeds exactly when no mention row repeats a member id, and then it adds one mention per mention row, in order |
| ExcelLoader.MentionRowsDistinctSnoc | src/content_db/load_from_excel.py:207-246 | one more row keeps the distinctness condition exactly when the row itself meets it |
| ExcelLoader.MentionsAddedStep | src/content_db/load_from_excel.py:207-246 | one successful row extends the pass invariant |
| ExcelLoader.IncompleteRowsMentioned | src/content_db/load_from_excel.py:166-168 | a mention row without an activity is skipped by the media pass but still adds a mention, with no activity link |
| ExcelLoader.AddMentionMembers | src/content_db/load_from_excel.py:237-246 | the column loop adds exactly the specified member links |
| ExcelLoader.MentionMembersColumn | src/content_db/load_from_excel.py:237-246 | one more column either adds its link, fails on a duplicate, or changes nothing |
| ExcelLoader.LoadMentions | src/content_db/load_from_excel.py:205-246 | the loop computes exactly the second-pass specification |
| ExcelLoader.MentionsRow | src/content_db/load_from_excel.py:207-246 | one more row is one more mention step, unless the pass has failed |
| ExcelLoader.AddMention | src/content_db/load_from_excel.py:207-246 | one mention row computed step by step is the mention step |
| ExcelLoader.MentionStepUnique | src/content_db/load_from_excel.py:227-246 | a successful row keeps the three primary keys, orphan links or not |
| ExcelLoader.MentionsInUnique | src/content_db/load_from_excel.py:205-246 | a successful pass keeps the three primary keys |
| ExcelLoader.MentionsInErrors | src/content_db/load_from_excel.py:205-246 | the pass fails only with a duplicate-link IntegrityError |
| ExcelLoader.FieldsRead | src/content_db/load_from_excel.py:186 | every row yields at most sixteen member ids |
| ExcelLoader.LoadIn | src/content_db/load_from_excel.py:54-249 | the whole import, sheet by sheet, on the tables; stated by LoadInValid, LoadInSucceeds and LoadExcelToDb |
| ExcelLoader.LoadInValid | src/content_db/load_from_excel.py:54-249 | a successful load keeps every primary key of the archive |
| ExcelLoader.LoadInSucceeds | src/content_db/load_from_excel.py:54-249 | with no orphan links the load succeeds exactly when no type cell is empty and no mention row repeats a member id |
| ExcelLoader.LoadExcelToDb | src/content_db/load_from_excel.py:47-249 | commits exactly the loaded tables on success and changes nothing on failure, with the same error; name history, periods and mention-item links are untouched |
| ExcelLoader.WriteSnapshot | src/content_db/load_from_excel.py:249 | the commit writes exactly the new tables and keeps the archive valid |
| Codec.Utf8RoundTrip | src/content_db/services/reader.py:55-59 | UTF-8 decoding undoes UTF-8 encoding for every string |
| Codec.DecodeFirstEncodeChar | src/content_db/services/reader.py:55-59 | the decoder reads back exactly the bytes of one encoded character, whatever follows |
| Codec.HexRoundTrip | src/content_db/services/reader.py:55-59 | `unhexlify(hexlify(b)) == b` for every byte string |
| Codec.UnhexlifyRejectsNonHex | src/content_db/services/reader.py:59 | any byte that is not a hex digit makes `unhexlify` fail |
| Codec.Utf8EncodeAscii | src/content_db/services/reader.py:55-59 | the ASCII text `hexlify(...).decode()` produces re-encodes to the same bytes |
| Text.StripIdempotent | src/content_db/load_from_excel.py:85 | `str.strip` applied twice is applied once |
| Text.StripEmptyIffBlank | src/content_db/load_from_excel.py:130 | a stripped text is empty exactly when every character is whitespace |
| Text.PyLowerIdempotent | src/content_db/load_from_excel.py:59 | `str.lower` applied twice is applied once |
| Text.ReplaceKeepsLast | src/content_db/load_from_excel.py:44 | `str.replace` keeps a last character that cannot end the pattern |
| Tables.NextIdFresh | src/content_db/load_from_excel.py:183 | the rowid the flush assigns is not used yet |
| Tables.MergeAllLastWins | src/content_db/load_from_excel.py:62 | after merging a sheet the row kept for a key is the last one with that key |
| Tables.MergeAllKeeps | src/content_db/load_from_excel.py:96 | merging leaves a row whose key no merged row has |
| Ordering.QuerySpec | src/content_db/services/media_mention_service.py:85-91 | a query returns only rows meeting its WHERE clause, in ORDER BY order, at most `limit`; unpaged it returns every such row |
| Ordering.QueryWindow | src/content_db/services/media_mention_service.py:85-91 | a query returns exactly the ordered matching rows from the offset on (a negative offset counts as 0), `limit` of them when that many remain, all of them for a negative limit |
| Ordering.QueryAllPermutes | src/content_db/services/media_mention_service.py:85-91 | an unpaged query is a permutation of the rows meeting its WHERE clause |
| Store.Database.constructor | src/content_db/models.py:19-262 | a freshly created schema has every table empty and every primary key, composite ones included, trivially unique |

## Left out

- The Flask layer, configuration, setup and engine construction (`src/app.py`, `src/blueprints`, `src/config.py`, `src/content_db/config.py`, `src/setup.py`, `src/content_db/database.py`): routing, templates and environment handling, with no archive logic of their own.
- Sessions, flush, commit, lazy loading and `RETURNING`: a write takes effect on the tables at once, and a flush that hits a primary key is an `IntegrityError` result. A failed loader run leaves the database unchanged, because its session is never committed.
- Foreign keys: SQLite checks them only when asked to, and the source never asks. So a row may refer to a missing parent, and the model says where this happens (see the notes below).
- Ties in ORDER BY: a listing sorts stably, so rows with equal keys keep their rowid order. SQLite promises no order for ties.
- `slugify` is a parameter. Nothing is assumed about it beyond being a function.
- Logging, and the `print` of skipped rows and of the final counts in the loader (`src/content_db/load_from_excel.py:167`, `src/content_db/load_from_excel.py:250-269`): these are output only.
- Excel reading and date conversion: `safe_to_date` and the serial-date arithmetic (`src/content_db/load_from_excel.py:22-39`, `src/content_db/load_from_excel.py:68-83`) are left out. These come from a library and work on floating point. The model receives a birth date or a start and end date as an already converted `Option<Date>`.
- The reader's query methods: `timeline` and its two loaders, `medium`, `activity_media`, `member_media`, `search_media` and the constructor's configuration lookup (`src/content_db/services/reader.py:35-48`, `src/content_db/services/reader.py:156-221`, `src/content_db/services/reader.py:265-410`). These are SQL compositions around the modelled helpers. `BuildTimeline` receives the rows the two loaders would return, and `EnrichMediaItems` receives the items and their activities.
- ExcelLoader: a cell is its text or empty. pandas' value types are not modelled. A numeric cell read as a float (`1990.0`) would print differently, which matters for `int(row["jaar"])` and for the ids.
- ExcelLoader.YearOf: `int()` on a digit string is modelled for ASCII digits only. Other Unicode digits are not modelled.
- Models: `NameHistory.displayPriority`, `MediaItem.displayOrder` and `MediaAppearance.displayOrder` are nullable with a default (`src/content_db/models.py:52, 159, 183`) but are modelled as plain `int`s. Every writer in the code stores a value, so a NULL written by another client of the database is not modelled.
- Text.Capitalize: title-cases the first character for ASCII and Latin-1 only, with the sharp s ("Ss") and the micro sign (U+039C) included. Letters outside Latin-1, and their special title-case forms, are not mapped.
- Text.PyLower: lowercases ASCII and Latin-1 letters only. Python's full Unicode case mapping, including characters whose lowercase form is longer, is not modelled.
- Text.ILike: a `%` or `_` in the search fragment is taken literally, although SQL LIKE treats them as wildcards. Case folding is ASCII only, as in SQLite's built-in `lower`.
- FileUtils.PathJoin: `pathlib` normalisation of `.` components and repeated separators is not modelled.
- FileUtils.PathName: trailing separators are dropped, as `pathlib` does. A trailing `.` component or a repeated separator is taken literally, so `Path("a/.").name` is not modelled.
- FileUtils.FileSystem.MakeDir: `mkdir(parents=True)` adds only the target directory. Its missing parents are not added, because no check in the routine looks at them.
- Reader.OsJoin: POSIX `os.path.join` only.
- Codec.Utf8Decode: the decoder checks well-formedness exactly as the strict decoder does, but only its success or failure is modelled. It returns None without the position of the bad byte.
- The blueprint call at `src/blueprints/activity.py:64-71` passes an `id_activity` that `create_media_appearance` does not accept. That call is not modelled.

## Findings

| source | as written | input that shows it | evidently intended | confidence | as-written member | corrected member |
|---|---|---|---|---|---|---|
| src/content_db/services/member_service.py:76-94 | `update_member` is documented as a partial update, but it writes all five columns. An absent or empty name becomes NULL, which violates NOT NULL. An absent birth date, permission or note overwrites the stored value. | member `m1` ("Ann", "Smit"), updated with only `current_first_name="Anna"`: the UPDATE sets the last name to NULL and fails | write only the arguments that were given, stripping truthy names | not executed | MemberService.UpdateMemberAsWritten, MemberService.UpdateMemberAsWrittenRejectsRename, MemberService.UpdateMemberAsWrittenErasesBirthDate | MemberService.ApplyMemberUpdate, MemberService.UpdateMember |
| src/content_db/services/media_service.py:192-201 | `create_media_appearance` builds the appearance without `id_activity`. That column is NOT NULL (`src/content_db/models.py:180`), so the flush fails even after every check has passed. `link_members_to_media` (`src/content_db/services/media_service.py:272-291`) calls it, so it fails on the first entry that passes the checks. | item 1 of activity "a" and member "m" both exist, no role: the insert still fails on NOT NULL | copy the media item's activity into the appearance, as the workbook import does (`src/content_db/load_from_excel.py:195`) | not executed | MediaService.NewAppearanceAsWritten, MediaService.AppearanceAsWrittenRejectsValidLink | MediaService.NewAppearance, MediaService.CreateMediaAppearance, MediaService.LinkMembersToMedia |
| src/content_db/services/media_mention_service.py:140-144 | `delete_media_mention` issues a bulk `DELETE`, which bypasses the ORM cascade the schema declares (`src/content_db/models.py:211-213`). The mention's link rows stay behind as orphans. | mention 1 linked to member "m": after the delete the `mention_member` row (1, "m") remains | delete the mention's rows in the three link tables with it | not executed | MediaMentionService.DeleteMentionAsWritten, MediaMentionService.DeleteMentionAsWrittenOrphansLinks | MediaMentionService.DeleteMediaMention, MediaMentionService.DeleteMentionLeavesNoOrphans |

## Notes on behaviour the model makes explicit

- **"nan" file names.** In the workbook import an empty file-name cell becomes the text "nan" (`str` of a missing value). So the row is not skipped as incomplete (`MissingFileNameKept`).
- **`normalize_id` is not idempotent.** One pass of each replacement turns four spaces into two, so a second pass changes the id again (`NormalizeIdNotIdempotent`).
- **A missing GDPR cell gives 0.** An empty cell reads as "nan", so the member is hidden. This differs from the column default of 1 (`GdprFlagMissing`).
- **Mentions from skipped rows.** The mention pass reads every row of Bestand, including rows the media pass skipped. So a mention-type row without an activity still adds a mention, with no activity link (`IncompleteRowsMentioned`).
- **Orphan links can make the import fail.** Mention link rows that outlive their mention (see the third finding) can make a new mention's link collide on the composite key. `LoadInSucceeds` therefore assumes no orphans, and `MentionsInUnique` shows that the keys hold either way.
- **A role cannot be cleared.** `update_media_appearance` writes `id_role` whenever the argument is not None, id 0 included, and leaves it when the argument is None. Despite the comment at media_service.py:232, no call removes a role (`UpdateAppearanceNeverClearsRole`).
- **The type is registered first.** `create_media_item` registers the media type before it checks that the activity exists. A failed create can therefore still add a media type row (`CreateMediaItem`).
- **Emptiness is checked before stripping.** `create_member` tests for empty values before it strips them, so a blank name passes the check and is stored as "" (`NewMember`).
