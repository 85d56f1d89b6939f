# GO-Personal-DB backend: a verified model of its core rules

GO-Personal-DB is the backend of a staff-vetting database. Officers log in,
review candidates' resumes, move each person through a series of review
statuses, and exchange messages. Administrators manage accounts, roles and
groups. This project models the rules that decide what those handlers do, in
Dafny, and proves properties of them. The rules covered are:

- **Login and lockout.** Covers the failure counter that blocks an account on
  its tenth consecutive failure and the reset on success. Also covers the
  365-day login window, which the current and the older handlers test in
  opposite ways, and the password change (`accounts.dfy`, `login.dfy`,
  `legacy_login.dfy`).
- **Authorisation.** Covers:
  - the role and group membership tests of the middleware and of the user
    record;
  - reading a bearer token's claims;
  - the `AuthRequired` handler, whose 401 branches write a reply and then
    carry on (`middleware.dfy`, `orm.dfy`).
- **Token strings.** Covers the bearer-header split, the refresh-token
  format `hex(digest) "." expiry` with its parse-back, and the access-token
  expiry arithmetic (`jwt.dfy`).
- **Account administration.** Covers the 401 gate in front of every admin
  handler and the first-match removal and conditional append of roles and
  groups. Also covers the block/drop edits, user creation, and the table
  browser's page flags (`admin.dfy`).
- **Questionnaire normalisation.** Covers the whitespace collapsing of
  `trimmString`, the full-name, previous-names, education, workplace and
  affiliation transforms, and their fixed block order (`questionnaire.dfy`).
- **Listings and resumes.** Covers:
  - the page-number and page-flag rules shared by every list handler;
  - the index queries;
  - the resume status transitions;
  - the documents-folder path;
  - the in-place marking of messages as read;
  - the paired relation records (`paging.dfy`, `index.dfy`, `public.dfy`,
    `messages.dfy`, `connects.dfy`).

Shared pieces:

- `gostd.dfy` models the parts of Go's standard library the handlers rely
  on: `strings.Split`, `strconv` parsing and formatting, hex encoding,
  `TrimSpace`, an upper-casing that covers ASCII, Latin-1 and basic
  Cyrillic, and the UTF-8 lead byte.
- `store.dfy` models a table of the relational store. It is a class whose
  `rows` map keys to records, with a next auto-increment key. Loading a
  missing key leaves key 0 and the zero record, as loading into a Go zero
  value does. Saving under key 0 inserts; creating under a taken key fails.
- `wrappers.dfy` holds `Option`, `Result` and `Exec`. `Exec` is a value or a
  Go panic.

Inputs from outside the modelled code are parameters:

- the current time, in Unix seconds;
- the bcrypt check and the new hash;
- the JWT parser and signer;
- the status ids the status table holds, for the public listing and the
  resume handler (the internal index asks a zero-valued status, which
  answers 0 for every name);
- what a store query returned;
- the answer of the outbound POST.

Where the code differs from its documented intent, the model follows the code:

- `AuthRequired` panics when the metadata cannot be read. It dereferences the
  missing metadata at `middleware.go:70`, so the membership test never runs.
  When the JWT step reports no error but stored no token, reading the absent
  error's message panics as well.
- `trimmString` first trims every Unicode space at the ends. It then
  collapses only the RE2 `\s` class (`\t \n \f \r` and space), so interior
  non-ASCII spaces are kept.
- `PostUser`'s create of a found-but-differently-named user reuses that
  user's key. The insert then fails, yet the handler still answers 201.
- `GetUser` on a missing id saves the zero user, which inserts a new row.
- `GetResume` on an unknown person: a status move inserts a new row.
- `GetMessages` reads the token metadata with its error discarded. A token
  without readable metadata therefore panics in the "new" and "read"
  actions.
- The route table binds `HandleIndex`'s results as (result, hasNext, hasPrev),
  swapping the two flags that `HandleIndex` returns as (data, hasPrev,
  hasNext). The model states `HandleIndex`'s own order.

## Model

| member | source | states |
|---|---|---|
| Middleware.ParseRolesGroups | backend/pkg/middlewares/middleware.go:146-158 | an empty requirement accepts any token; otherwise true iff some required name is among the token's names |
| Middleware.RequirementNeedsNames | backend/pkg/middlewares/middleware.go:150-157 | a non-empty requirement against a token with no names fails |
| Middleware.ParseRolesGroupsMonotone | backend/pkg/middlewares/middleware.go:146-158 | adding names to the token's list, before or after, never turns acceptance into refusal |
| Middleware.StringItemsAppend | backend/pkg/middlewares/middleware.go:117-124 | filtering the string elements of a claim array distributes over concatenation, so order is kept |
| Middleware.StringItemsMembers | backend/pkg/middlewares/middleware.go:117-124 | a name is kept iff the claim array holds it as a string element |
| Middleware.ClaimNamesNotArray | backend/pkg/middlewares/middleware.go:117-132 | a roles or groups claim that is absent or not an array yields no names |
| Middleware.CollectNames | backend/pkg/middlewares/middleware.go:117-132 | the append loop yields exactly the string elements of the claim array, in order |
| Middleware.MetadataOf | backend/pkg/middlewares/middleware.go:93-143 | extraction panics iff the header has no second field, or a verified token's claims fail a type assertion the code reaches |
| Middleware.MetadataOfValidToken | backend/pkg/middlewares/middleware.go:98-140 | for "scheme token" with well-typed claims and a 64-bit id, the metadata is the id, names, filtered roles/groups and expiry of the claims |
| Middleware.ExtractTokenMetadata | backend/pkg/middlewares/middleware.go:93-143 | the imperative extraction, with its append loops, computes MetadataOf |
| Middleware.ExpiryBoundary | backend/pkg/middlewares/middleware.go:71 | a token is expired only strictly after its expiry second; expires == now is not expired |
| Middleware.JwtError | backend/pkg/middlewares/middleware.go:160-173 | status 400 iff the message is exactly "Missing or malformed JWT", else 401, and the message is echoed |
| Middleware.Guard | backend/pkg/middlewares/middleware.go:50-89 | the request panics iff the JWT step gave no error and stored no token or metadata was not read; otherwise it proceeds iff the group and role tests pass, else ends with 401 "denied" |
| Middleware.AuthRequired | backend/pkg/middlewares/middleware.go:50-89 | the handler writes the replies and reaches the outcome that Guard describes, over the extracted metadata |
| Middleware.Respond | backend/pkg/middlewares/middleware.go:55-88 | once a token was stored or the JWT step failed, the 401 replies are written in order and the outcome is Guard's |
| Middleware.ExpiredTokenProceeds | backend/pkg/middlewares/middleware.go:70-82 | an expired token with an empty requirement gets a 401 "expired" written and still proceeds |
| Middleware.GuardIntended | backend/pkg/middlewares/middleware.go:55-88 | with early returns there is no panic, a proceeding request has nothing written, and a refusal writes one 401 |
| Middleware.GuardIntendedProceedsIff | backend/pkg/middlewares/middleware.go:78-88 | with early returns a request proceeds iff every check passes and the token is unexpired, and then agrees with the code as written |
| Orm.Group.GetID | backend/orm/models.go:27-33 | the receiver's id when its name equals the argument exactly, else 0 |
| Orm.Role.GetID | backend/orm/models.go:42-48 | the receiver's id when its name equals the argument exactly, else 0 |
| Orm.Category.GetID | backend/orm/models.go:106-112 | the receiver's id when its name equals the argument exactly, else 0 |
| Orm.Status.GetID | backend/orm/models.go:121-127 | the receiver's id when its name equals the argument exactly, else 0 |
| Orm.Region.GetID | backend/orm/models.go:136-142 | the receiver's id when its name equals the argument exactly, else 0 |
| Orm.AnyGroupIn | backend/orm/models.go:67-76 | HasGroup is true iff some group of the user has its name in the query list |
| Orm.AnyRoleIn | backend/orm/models.go:78-87 | HasRole is true iff some role of the user has its name in the query list |
| Orm.EmptyQueryMatchesNothing | backend/orm/models.go:67-87 | unlike the middleware test, an empty query list matches no user |
| Orm.HasRoleMonotone | backend/orm/models.go:78-87 | widening the query list keeps a match |
| Accounts.AfterFailure | backend/app/controllers/login.go:86-90 | below 9 attempts the counter goes up by one; from 9 the account is blocked with the counter unchanged |
| Accounts.AfterSuccess | backend/app/controllers/login.go:67-68 | the counter is reset to 0 and the last login set to now; nothing else changes |
| Accounts.BlockedStays | backend/app/controllers/login.go:61 | failures leave a blocked account as it is |
| Accounts.RepeatedFailures | backend/app/controllers/login.go:86-90 | after n failures the counter is min(attempt + n, 9) and the account is blocked iff attempt + n exceeds 9 |
| Accounts.TenthFailureBlocks | backend/app/controllers/login.go:86-90 | from a fresh account the counter never exceeds 9, and the account is blocked iff there were at least 10 failures |
| Accounts.MayLogIn | backend/app/controllers/login.go:65 | the current handler lets an account in iff its record has been updated since creation and was created less than 365 × 24 hours before now |
| Accounts.MayLogInLegacy | backend/pkg/routes/login.go:31 | the older handler lets an account in iff its record was never updated and was created less than 365 × 24 hours before now |
| Accounts.LoginTestsDisjoint | backend/pkg/routes/login.go:31 | the older handler's window test and the current one never both admit; inside the window exactly one admits |
| Login.PostLogin | backend/app/controllers/login.go:46-95 | missing or blocked: 401 "Denied" with no write; wrong password: lockout step saved, 401 "Denied"; right password inside the window: reset saved, then tokens or "Denied" if signing failed; outside: "Expired" with no write |
| Login.PatchLogin | backend/app/controllers/login.go:97-120 | the hash is replaced (201 "Authenticated") iff the account exists, is unblocked, the old password verifies and hashing succeeded; every other path answers "Denied" and writes nothing |
| Login.RefreshToken | backend/app/controllers/login.go:132-154 | a new access token only for an existing unblocked account named by the token; 401 "unauthorized" otherwise; 500 with an empty message on metadata or signing errors; a failed metadata read panics |
| LegacyLogin.HandleLoginPost | backend/pkg/routes/login.go:22-59 | the same lockout and denial paths as PostLogin, but success requires a zero update time; success answers the fixed Authenticated object |
| LegacyLogin.HandleLoginPatch | backend/pkg/routes/login.go:61-87 | the hash is replaced only after the old password verifies on an existing unblocked account and hashing succeeded; otherwise "Denied" and no write |
| Jwt.ExtractToken | backend/pkg/utils/jwt.go:129-139 | the token has no space, and a non-empty token means the header had exactly one space |
| Jwt.ExtractTokenBearer | backend/pkg/utils/jwt.go:133-136 | "scheme token" without further spaces yields the token |
| Jwt.ExtractTokenRejects | backend/pkg/utils/jwt.go:133-138 | a header with no space or with several yields "" |
| Jwt.ExtractTokenShape | backend/pkg/utils/jwt.go:133-136 | a non-empty result is exactly what follows the header's single space |
| Jwt.Setting | backend/pkg/utils/jwt.go:48 | an unparsable count setting counts as 0; a parsed one keeps its value |
| Jwt.AccessExpiry | backend/pkg/utils/jwt.go:48-53 | an unparsable minutes setting makes the expiry now |
| Jwt.GenerateNewAccessToken | backend/pkg/utils/jwt.go:43-64 | the signer is given the id and an expiry of now + 60 × the parsed minutes (now when the setting does not parse), and its token or error is the result |
| Jwt.AccessTokenLifetime | backend/pkg/utils/jwt.go:48-53 | with m minutes the token expires at now + 60m and is accepted exactly up to that second |
| Jwt.RefreshExpiry | backend/pkg/utils/jwt.go:79-82 | an unparsable hours setting makes the expiry now |
| Jwt.RefreshTokenLifetime | backend/pkg/utils/jwt.go:79-82 | with h hours configured the refresh token expires at now + 3600h |
| Jwt.GenerateNewRefreshToken | backend/pkg/utils/jwt.go:66-88 | the token has exactly one '.', which splits it into the hex digest and the decimal expiry |
| Jwt.ParseRefreshToken | backend/pkg/utils/jwt.go:91-93 | panics iff the token has no '.'; otherwise yields an int64 |
| Jwt.RefreshTokenRoundTrip | backend/pkg/utils/jwt.go:82-93 | parsing a generated refresh token gives back its expiry without error |
| Jwt.GenerateNewTokens | backend/pkg/utils/jwt.go:23-41 | a pair iff both generators succeed; otherwise the first error |
| Admin.Gate | backend/app/controllers/admin.go:17-24 | refusal iff the role helper erred or found 0; always 401, with the helper's error text or "Unauthorized User" |
| Admin.FirstWhere | backend/app/controllers/admin.go:238-246 | the index of the first element satisfying the test, or the length when none does |
| Admin.WithoutFirstRemovesOne | backend/app/controllers/admin.go:238-246 | removing the first match drops exactly that element, keeps the others in order, and changes nothing without a match |
| Admin.AppendIfAnyAddsOne | backend/app/controllers/admin.go:178-186 | exactly one element is appended when some element passes the test, none otherwise and none to an empty list |
| Admin.DeleteFirst | backend/app/controllers/admin.go:238-246 | the loop with break removes the first match as WithoutFirst says |
| Admin.AppendOnFirst | backend/app/controllers/admin.go:178-186 | the loop with break appends as AppendIfAny says |
| Admin.DelRoles | backend/app/controllers/admin.go:221-249 | after the gate, the user's first role of that name is removed and saved; other users are unchanged |
| Admin.DelGroups | backend/app/controllers/admin.go:251-279 | after the gate, the user's first group of that name is removed and saved |
| Admin.GetRoles | backend/app/controllers/admin.go:162-189 | after the gate, the looked-up role is appended once if some role of the user has another name |
| Admin.GetGroups | backend/app/controllers/admin.go:191-219 | after the gate, the looked-up group is appended once if some group of the user has another name |
| Admin.BlockEdit | backend/app/controllers/admin.go:53-60 | the block action changes no field but the blocked flag, and flips it iff the loaded key differs from the parsed id, so a lookup that found nothing (key 0) flips it |
| Admin.BlockNeverTogglesExisting | backend/app/controllers/admin.go:53-60 | for an existing user named by a numeric id, "block" never changes it |
| Admin.BlockEditIntended | backend/app/controllers/admin.go:53-60 | when the loaded user is the one the id names, exactly its blocked flag flips; otherwise the user is unchanged |
| Admin.BlockTwiceRestores | backend/app/controllers/admin.go:58-60 | with the intended test, blocking twice restores the user and once always flips |
| Admin.DropOnlySetsPassword | backend/app/controllers/admin.go:61-62 | "drop" sets the password to the default hash and changes no other field |
| Admin.GetUser | backend/app/controllers/admin.go:38-73 | after the gate, "block" with a non-numeric id answers 400 and writes nothing; otherwise the edited user is saved under its loaded key, a missing one inserted |
| Admin.PostUser | backend/app/controllers/admin.go:75-108 | after the gate, an undecodable body answers 500; an exact name match answers 400; otherwise the account gets the names, email and default hash and is created, answering 201 |
| Admin.RowsQuery | backend/app/controllers/admin.go:308-333 | a page of 16 rows of the named table at offset 16(page-1), filtered only when a search text is given |
| Admin.NoTableNameFillsAPage | backend/app/controllers/admin.go:298-340 | none of the six table names has length 16 |
| Admin.PostTablesRows | backend/app/controllers/admin.go:281-342 | after the gate, one query per table name, hasPrev iff page > 1, and hasNext never set |
| Questionnaire.DropRun | backend/pkg/utils/jsons.go:131-132 | removes exactly the leading run of \s characters |
| Questionnaire.Collapse | backend/pkg/utils/jsons.go:131-132 | the result has no \s other than single spaces, is empty iff the input is, and keeps the first and last non-space characters |
| Questionnaire.CollapseRun | backend/pkg/utils/jsons.go:131-132 | a whole \s run between two pieces becomes exactly one space: Collapse(a + w + b) is Collapse(a), " ", Collapse(b) |
| Questionnaire.CollapseFixed | backend/pkg/utils/jsons.go:131-132 | a string whose \s runs are already single spaces is unchanged |
| Questionnaire.NonSpaceCollapse | backend/pkg/utils/jsons.go:131-132 | collapsing keeps the non-space characters in order |
| Questionnaire.TrimString | backend/pkg/utils/jsons.go:129-133 | the normalised value is empty iff the value is nothing but Unicode spaces |
| Questionnaire.TrimStringTrimmed | backend/pkg/utils/jsons.go:129-133 | the result has no space at either end and no \s other than single spaces inside |
| Questionnaire.TrimStringKeepsText | backend/pkg/utils/jsons.go:129-133 | the non-space characters are kept, in order |
| Questionnaire.TrimStringOfTrimmed | backend/pkg/utils/jsons.go:129-133 | an already normalised string is unchanged |
| Questionnaire.TrimStringIdempotent | backend/pkg/utils/jsons.go:129-133 | normalising twice equals normalising once |
| Questionnaire.TrimStringRun | backend/pkg/utils/jsons.go:129-133 | two trimmed words separated by any \s run normalise to the two words normalised, joined by one space |
| Questionnaire.TrimStringTrailingSpace | backend/pkg/utils/jsons.go:129-133 | a trailing space makes no difference |
| Questionnaire.UpperRuneSpaces | backend/pkg/utils/jsons.go:137 | upper-casing neither creates nor removes spaces |
| Questionnaire.UpperKeepsTrimmed | backend/pkg/utils/jsons.go:137 | upper-casing a normalised string keeps it normalised |
| Questionnaire.ParseFullname | backend/pkg/utils/jsons.go:135-138 | the full name is empty iff the last, first and middle names are all blank |
| Questionnaire.ParseFullnameTrimmed | backend/pkg/utils/jsons.go:135-138 | the full name is normalised: no space at either end, single spaces inside |
| Questionnaire.ParseFullnameNoMiddle | backend/pkg/utils/jsons.go:135-138 | with no middle name the result is the upper-cased "Last First", with no trailing space |
| Questionnaire.PreviousTextAppend | backend/pkg/utils/jsons.go:140-151 | the previous-names text of a+b is that of a followed by that of b |
| Questionnaire.PreviousTextSingle | backend/pkg/utils/jsons.go:140-151 | one change gives its one entry; no change flag gives "" |
| Questionnaire.ParsePrevious | backend/pkg/utils/jsons.go:140-151 | the loop builds exactly the previous-names text |
| Questionnaire.EducationTextAppend | backend/pkg/utils/jsons.go:153-162 | the education text is entry by entry in order, and "" for no items |
| Questionnaire.ParseEducation | backend/pkg/utils/jsons.go:153-162 | the loop builds exactly the education text |
| Questionnaire.WorkplaceProjection | backend/pkg/utils/jsons.go:164-179 | the copy keeps only the six copied fields: it is idempotent and fixes exactly the records whose other fields are zero |
| Questionnaire.ParseWorkplace | backend/pkg/utils/jsons.go:164-179 | one workplace per experience item, same length and order, each the projection of its item |
| Questionnaire.AffiliationOf | backend/pkg/utils/jsons.go:181-222 | the result holds one entry per organisation of each flagged block, and none of an unflagged one |
| Questionnaire.AffiliationIgnoresMts | backend/pkg/utils/jsons.go:181-222 | the MTS related-persons list and flag never affect the result |
| Questionnaire.AffiliationLabels | backend/pkg/utils/jsons.go:183-220 | each result carries one of the four fixed labels |
| Questionnaire.AffiliationOrder | backend/pkg/utils/jsons.go:181-222 | public-office entries come first, then state entries, each with its label |
| Questionnaire.AppendBlock | backend/pkg/utils/jsons.go:184-190 | the loop appends one labelled copy per organization, keeping the INN only where asked |
| Questionnaire.ParseAffilation | backend/pkg/utils/jsons.go:181-222 | the four blocks in fixed order, each only when its flag is set |
| Paging.ParsePage | backend/internal/routes.go:10-13 | the Atoi value of the parameter, or 1 when Atoi fails |
| Paging.ParsePageDecimal | backend/internal/routes.go:10-13 | every int64 written in decimal names its own page |
| Paging.ParsePageNotANumber | backend/internal/routes.go:10-13 | an empty parameter, or one starting with a letter, names page 1 |
| Paging.Offset | backend/internal/routes.go:30 | page 1 starts at row 0, and no page at or before 1 starts after row 0 |
| Paging.OffsetsTile | backend/internal/routes.go:29-30 | consecutive pages are adjacent windows |
| Paging.PageFlags | backend/internal/routes.go:54-59 | hasPrev iff page > 1, hasNext iff exactly 16 rows came back |
| Paging.NoPreviousBeforeFirst | backend/internal/routes.go:10-13 | an unparsable page never reports a previous page |
| Index.ZeroStatusId | backend/internal/routes.go:22-24 | `orm.Status{}.GetID(name)` on the zero-valued status is 0 for every name |
| Index.OfficerFilter | backend/app/controllers/public.go:72 | the OR filter as written refuses a status only when it equals both the finished and the cancelled id |
| Index.OfficerFilterIntended | backend/app/controllers/public.go:72 | the intended filter admits a status iff it is neither the finished nor the cancelled id |
| Index.OfficerFilterAdmitsAll | backend/app/controllers/public.go:72 | with two different status ids the officer filter as written admits every status |
| Index.OfficerFilterIntendedExcludes | backend/internal/routes.go:37 | the intended filter drops exactly finished and cancelled persons, and admits only what the written one admits |
| Index.IndexQuery | backend/internal/routes.go:20-47 | a query only for new, officer or search; 16 rows at offset 16(page-1), or 10 at 10(page-1) for search; "new" asks for status ids 0, 0, 0 with the name filter, and "officer" filters with finished and cancelled both 0 |
| Index.IndexAsksForStatusZero | backend/internal/routes.go:20-42 | with the zero ids "new" lists exactly the persons of status id 0, "officer" lists every person, and its checks filter is status_id != 0 |
| Index.IndexPagesTile | backend/internal/routes.go:29-44 | the next page of each listing starts where the current one ends |
| Index.HandleIndex | backend/internal/routes.go:9-62 | the query IndexQuery names, with the zero-valued status lookups; unknown item or encoding failure: no data, both flags false; otherwise the persons with PageFlags of the page |
| Public.PostIndexQuery | backend/app/controllers/public.go:55-87 | as the index queries, but "new" has no name filter |
| Public.PostIndexAgreesWithIndex | backend/app/controllers/public.go:55-87 | given the zero ids, the public listing asks for what the index asks for, except the name filter of "new" |
| Public.PostIndexOfficerAdmitsAll | backend/app/controllers/public.go:66-78 | with distinct finished and cancelled ids from the status table, the officer listing lists every person and its checks filter admits every status |
| Public.PostIndex | backend/app/controllers/public.go:37-100 | unknown item: no response; encoding failure: 500; otherwise the persons with PageFlags of the page |
| Public.ResumeTransition | backend/app/controllers/public.go:108-162 | "send" acts iff the status is new, updated or repeated: it moves to robot exactly on an outbound 200, and any other answer fails; "status" moves to updated; other actions keep |
| Public.SendOnce | backend/app/controllers/public.go:114-159 | a person moved to the robot status is not sent again |
| Public.StatusThenSendPosts | backend/app/controllers/public.go:109-118 | after "status" a person always qualifies for "send" |
| Public.GetResume | backend/app/controllers/public.go:102-163 | a move is saved under the loaded key (a missing person is inserted) and echoed with 200; a failed send answers 500 and writes nothing; otherwise 200 and no write |
| Public.MakeFolder | backend/app/controllers/public.go:207-216 | panics iff the name is empty; otherwise the upper-cased lead byte, "/", and a path ending in the name |
| Public.FolderNamesItsId | backend/app/controllers/public.go:208 | the text before the first '-' of the folder parses back to the person id |
| Public.MakeFolderAsciiInitial | backend/app/controllers/public.go:208 | a name starting with an ASCII letter files under its capital |
| Public.MakeFolderCyrillicInitial | backend/app/controllers/public.go:208 | a name starting with a basic Cyrillic letter files under 'Ð' or 'Ñ', never under its capital |
| Public.FolderIntended | backend/app/controllers/public.go:207-216 | the folder starts with the upper-cased first letter of the name |
| Public.FolderIntendedInitial | backend/app/controllers/public.go:208 | a Cyrillic name files under its capital letter, and ASCII names file as written |
| Public.PostResume | backend/app/controllers/public.go:179-205 | undecodable body: 500, no write; no person: created with the new status, then a panic; a found person: the resume saved as a new row with the updated status, then the person's folder saved and its id answered, or a panic for an empty name |
| Public.PostResumeIntended | backend/app/controllers/public.go:179-205 | a resume without a person is created with the new status and its own folder, and its id answered |
| Public.PostStaffs | backend/app/controllers/public.go:229-249 | undecodable body or non-numeric item id: 500 and no create; otherwise the staff record is created for that person id |
| Public.PostRelation | backend/app/controllers/public.go:614-641 | after the same checks, two fresh rows: the posted relation for the person, then one of the same view and person whose relation is the first row's key; answers 201 |
| Messages.SaveAllMarks | backend/app/controllers/message.go:38-41 | saving back the marked fetched messages marks exactly those messages read, changes no other field, and adds or removes no row |
| Messages.MarkRead | backend/app/controllers/message.go:38-41 | the loop sets the read status of every fetched message in place and saves each under its key |
| Messages.GetMessages | backend/app/controllers/message.go:14-60 | no readable metadata panics in "new" and "read"; "read" marks the fetched messages; other actions list nothing; flags are PageFlags of what is listed |
| Connects.GetConnects | backend/app/controllers/connect.go:14-72 | refused by the gate before any query; otherwise 16 rows at offset 16(page-1), an id filter only for a non-empty search, and PageFlags of the rows |
| Store.KeyOf | backend/app/controllers/admin.go:50 | the key a parameter selects fits in 64 bits, and a non-zero key is the clean base-10 value of the parameter |
| Store.KeyOfDecimal | backend/app/controllers/admin.go:50 | every key written in decimal selects itself |
| Store.Table.Load | backend/app/controllers/admin.go:50 | a stored key loads its row; a missing key loads key 0 and the zero record |
| Store.Table.Save | backend/app/controllers/admin.go:64 | key 0 inserts under the next key; any other key writes that row; no other row changes |
| Store.Table.Create | backend/app/controllers/admin.go:106 | succeeds iff the key is not taken, inserting under it (or the next key for 0); a failure writes nothing |
| GoStd.Split | backend/pkg/middlewares/middleware.go:98 | one field more than separators, none containing the separator |
| GoStd.JoinSplit | backend/pkg/middlewares/middleware.go:98 | joining the fields with the separator gives back the input |
| GoStd.SplitAround | backend/pkg/utils/jwt.go:92 | the first separator closes the first field |
| GoStd.ParseUint | backend/app/controllers/admin.go:54 | the value is within 64 bits, and a range error clamps to the maximum |
| GoStd.ParseUintDecimal | backend/pkg/middlewares/middleware.go:111 | base-10 parsing reads back every decimal it wrote |
| GoStd.ParseFormatInt | backend/pkg/utils/jwt.go:82-92 | ParseInt in base 0 or 10 reads back every int64 that FormatInt wrote |
| GoStd.FormatInt | backend/pkg/utils/jwt.go:82 | a non-empty decimal with no '.' and no space |
| GoStd.HexEncode | backend/pkg/utils/jwt.go:85 | two lower-case hex digits per byte, none of them '.' |
| GoStd.TrimLeftSpace | backend/pkg/utils/jsons.go:130 | a suffix of the input with no leading Unicode space, and everything dropped is a Unicode space |
| GoStd.TrimRightSpace | backend/pkg/utils/jsons.go:130 | a prefix of the input with no trailing Unicode space, and everything dropped is a Unicode space |
| GoStd.UpperString | backend/pkg/utils/jsons.go:137 | same length, each rune mapped by UpperRune: ASCII, Latin-1 and basic Cyrillic letters to their capitals, every other rune kept |
| GoStd.Utf8LeadByte | backend/app/controllers/public.go:208 | the first UTF-8 byte: the rune itself below 0x80, otherwise a lead byte in 0xC2..0xF4 |

## Left out

- The relational store's queries are not modelled: SQL, LIKE patterns, preloading, joins and ordering. What a query returned is an input. GORM association handling is also left out: saving a user with fewer roles does not delete the join rows.
- The automatic `UpdatedAt`/`CreatedAt` stamps of the store are not modelled.
- Records carry no `ID` field; the table key is the id. Posted bodies are taken to carry id 0, so records posted with an explicit id are not modelled.
- The bcrypt hash and check, HS256 signing, SHA-256, UUIDs and the secret keys are opaque parameters. So are the environment settings, given as text.
- Redis is not modelled: the discarded cache lookup in `ExtractTokenMetadata`, and `DeleteLogin`.
- The JWT middleware's own handling of the request, and the nested `Next` it may call, are not modelled. Only the error it returns and whether it stored a token are inputs.
- Floating point is not modelled. A JSON number claim is an integer here, so the `%.0f` rounding of the id and the float-to-int64 conversion of `expires` are exact.
- Go's 64-bit `time.Duration` overflow for very large minute or hour settings is not modelled.
- Underscore digit separators in base-0 `ParseInt` are not modelled.
- Jwt.GenerateNewAccessToken: the HS256 signing is a parameter, so only the claims handed to it are stated, not the token's bytes.
- JSON encoding is not modelled. Bodies that fail to decode are a boolean input, and error replies carry an empty message. Encoding a record list cannot fail in `GetMessages` and `GetConnects`; it is an input where the code checks it.
- `filepath.Join` is modelled as joining with "/", without `filepath.Clean`. So names containing "/" or "..", and names starting with '.', whose initial "." Join cleans away (`makeFolder(".x", 5)` gives "5-.x" where `MakeFolder` gives "./5-.x"), are not modelled. The directory creation in `makeFolder` and the filesystem are not modelled either.
- The outbound HTTP POST of `GetResume` is an input (a status or a transport error). The document and address lookups that build its body are not modelled.
- The contacts listing's `companies` and `cities` queries are not modelled.
- `GetLogin`, the plain `Get*`/`Patch*`/`Delete*` handlers, the file manager, the command line, configuration and route wiring are not modelled. The admin routes require group "admins" while the handlers ask for "admin"; route wiring is not part of this model.
- The role helper `RolesGroupsInToken` is not part of this model. Its result, a count or an error, is an input to the gate.
- GoStd.UpperString: maps only ASCII, Latin-1 (with 'ÿ' and 'µ') and the basic Cyrillic letters U+0430 to U+045F. Other letters with an upper-case form, such as 'ł', 'ґ' or Greek, are kept where `strings.ToTitle` maps them, because Unicode's case tables are not part of this model.
- `Limit`, `Offset` and the officer listing's status filter are chained after `Find(&persons)`, so the store applies none of them to the persons found; the model records them in `PersonQuery` as the handler states them, and `Index.ListsStatus` says which statuses the persons query itself admits.
- Messages.GetMessages: the messages the read loop works on are taken to be the stored rows under their keys, which is what the store's query returns.

## Findings

| source | as written | input that shows it | evidently intended | confidence | as-written member | corrected member |
|---|---|---|---|---|---|---|
| backend/pkg/middlewares/middleware.go:55-76 | the JWT-error, metadata-error and expiry branches write a 401 and fall through to the membership test | an expired token with an empty role and group requirement: a 401 "expired" is written and the request still proceeds | each failed check returns its 401 | high; not executed | Middleware.ExpiredTokenProceeds | Middleware.GuardIntended |
| backend/app/controllers/admin.go:338-340 | hasNext compares the length of a table NAME to 16 | a full page of 16 rows of any table: hasNext stays false | hasNext iff 16 rows came back | high; not executed | Admin.NoTableNameFillsAPage | Paging.PageFlags |
| backend/app/controllers/admin.go:58-60 | "block" flips the flag only when the loaded user's ID DIFFERS from the parsed id | GET block of existing user 5: user 5 loads with ID 5, so it is never blocked; a missing id flips a zero user that is then inserted | flip when the loaded user is the one the id names | high; not executed | Admin.BlockNeverTogglesExisting | Admin.BlockEditIntended |
| backend/app/controllers/public.go:72 | the officer filter is status != finished OR status != cancelled (so too at internal/routes.go:37, where both ids are 0 and it reads status_id != 0); it follows `Find(&persons)`, so it restricts only the checks query | a check of a finished person: its status differs from the cancelled id, so the filter admits it | status != finished AND status != cancelled | high; not executed | Public.PostIndexOfficerAdmitsAll | Index.OfficerFilterIntended |
| backend/internal/routes.go:22-35 | the status ids are asked of a zero-valued `orm.Status`, whose `GetID` only compares the receiver's own name, so every id is 0 | any status table: "new" lists only persons of status id 0, none of them new, updated or repeated, and the officer checks filter is status_id != 0 | the ids the status table holds for those names, as the public listing asks them | medium; not executed | Index.IndexAsksForStatusZero | Public.PostIndexQuery |
| backend/app/controllers/public.go:201 | the folder is made from the name of the FOUND person, which is the zero person when none was found | posting a resume for a new person: it is created, then makeFolder("") indexes an empty string and panics; the lookup at public.go:190 joins its two conditions with a comma, which is not valid SQL, so no person is ever found and every post takes this path | make the folder from the created resume's own name | high; not executed | Public.PostResume | Public.PostResumeIntended |
| backend/app/controllers/public.go:208 | the folder's initial is string(fullname[0]), the first UTF-8 BYTE read as a Latin-1 rune | "Иванов" with id 7 files under "Ð/7-Иванов"; every basic Cyrillic name files under 'Ð' or 'Ñ' | the name's first letter, upper-cased | medium; not executed | Public.MakeFolderCyrillicInitial | Public.FolderIntended |
