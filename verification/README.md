# Leisure park management: a Dafny model

This project models the core of a zoo ("leisure park") management system: a Go backend and a Next.js frontend. The model covers:

- **The park store.** Managers, zookeepers, cages, animals and tasks, together with the repository operations on them.
- **The service rules on top.**
  - Usernames are unique across all roles.
  - Cage codes are unique.
  - A manager cannot delete themselves.
  - At least one manager must remain.
- **The backend role gate.** It admits a request only for one role.
- **The frontend page gate.** It redirects visitors without a token to the login page.
- **The pure helpers of the dashboard pages.**
  - The case-insensitive search box.
  - The request bodies the forms send.
  - The animal table's date and cage-label helpers.
  - The toast list.

## How the model is built

- **The store** (`Domain.Store`) is a record of maps keyed by public_id, one map per table.
  - A user's manager or zookeeper profile is kept under the user's own public_id, because every insert creates both rows with one id.
  - References between rows (an animal's cage, a task's manager, zookeeper and animal) are public_ids.
- **Repository operations** are pure functions that return `Result<...>`.
  - On `Err` the caller keeps the store it had, which is what the transactions' rollback gives.
  - An insert under a public_id already in use fails with `DuplicateKey`.
  - Listings are sets, because the queries carry no ORDER BY.
- **Services** sit on top of the repositories. Values the model cannot compute are parameters:
  - the fresh public_id from the UUID generator;
  - the bcrypt hash.
- **`ParkInvariants`** chains every service call into one sequential state machine. It proves that any run of requests keeps three things true:
  - usernames are unique;
  - cage codes are unique;
  - at least one manager exists.
- **`RoleGate` and `PageGate`** are the two access decisions.
- **`Text`, `Seqs`, `SearchFilter`, `Forms` and `Toasts`** are the frontend helpers.
- **`Pages`** holds the rows the list pages display.

## Model

| member | source | states |
|---|---|---|
| ManagerRepository.UsernameExists | backend/internal/adapters/repository/manager_repository_pg.go:20-27 | true exactly when some user of any role has the username |
| ManagerRepository.CreateManager | backend/internal/adapters/repository/manager_repository_pg.go:29-66 | succeeds exactly when the id is free; then adds a MANAGER user and a manager profile under that one id and touches nothing else; any failure changes nothing |
| ManagerRepository.ListManagers | backend/internal/adapters/repository/manager_repository_pg.go:68-90 | exactly the MANAGER users that have a manager profile, each with username and profile name |
| ManagerRepository.FindByPublicID | backend/internal/adapters/repository/manager_repository_pg.go:92-115 | finds the id only when its user is a MANAGER with a profile; a zookeeper's id gives "no rows" |
| ManagerRepository.UpdateManager | backend/internal/adapters/repository/manager_repository_pg.go:117-133 | renames the matching profile and nothing else; "manager not found" when no profile matches |
| ManagerRepository.CountManagers | backend/internal/adapters/repository/manager_repository_pg.go:135-142 | the number of users whose role is MANAGER |
| ManagerRepository.DeleteManager | backend/internal/adapters/repository/manager_repository_pg.go:144-180 | fails with no change unless the target is a MANAGER user; otherwise removes both the profile and the user, and nothing else |
| ManagerRepository.CountPositiveIff | backend/internal/adapters/repository/manager_repository_pg.go:135-142 | the count is positive exactly when some MANAGER user exists |
| ManagerRepository.CountAfterCreate | backend/internal/adapters/repository/manager_repository_pg.go:29-66 | a successful create raises the manager count by one |
| ManagerRepository.CountAfterDelete | backend/internal/adapters/repository/manager_repository_pg.go:144-180 | a successful delete lowers the manager count by one |
| ManagerRepository.ListMatchesFind | backend/internal/adapters/repository/manager_repository_pg.go:68-115 | the listing holds exactly the rows FindByPublicID returns |
| ManagerRepository.CreateThenFind | backend/internal/adapters/repository/manager_repository_pg.go:29-115 | after a create, lookup returns the new manager's username and name, and the username counts as taken |
| ManagerRepository.ListAfterCreate | backend/internal/adapters/repository/manager_repository_pg.go:29-90 | a create adds exactly the new row to the listing |
| ManagerRepository.DeleteThenFind | backend/internal/adapters/repository/manager_repository_pg.go:92-180 | after a delete, lookup of the manager fails with "no rows" |
| ManagerService.Create | backend/internal/application/manager_service.go:28-69 | a taken username fails with "username already exists" before any insert; it succeeds exactly when the username is free and the fresh id unused; success adds exactly the new MANAGER user and profile, leaves every other row as it was, and returns a DTO echoing the username and name that lookup finds |
| ManagerService.List | backend/internal/application/manager_service.go:71-73 | every manager whose lookup succeeds, and nothing else |
| ManagerService.Update | backend/internal/application/manager_service.go:75-81 | only the profile's name changes; "manager not found" for a missing profile |
| ManagerService.Delete | backend/internal/application/manager_service.go:83-103 | self-deletion fails first; then a count of at most one fails with "at least one manager must exist"; it succeeds exactly when the target is another manager and more than one exists, and then removes exactly that user and profile and nothing else |
| ManagerService.DeleteKeepsAManager | backend/internal/application/manager_service.go:89-102 | a successful delete leaves at least one manager |
| ZookeeperRepository.UsernameExists | backend/internal/adapters/repository/zookeeper_repository_pg.go:20-27 | true exactly when some user of any role has the username |
| ZookeeperRepository.Create | backend/internal/adapters/repository/zookeeper_repository_pg.go:29-75 | an id that is not a MANAGER user fails with nothing inserted; success adds a ZOOKEEPER user and a profile linked to that manager under one id |
| ZookeeperRepository.List | backend/internal/adapters/repository/zookeeper_repository_pg.go:77-100 | exactly the ZOOKEEPER users that have a zookeeper profile |
| ZookeeperRepository.FindByID | backend/internal/adapters/repository/zookeeper_repository_pg.go:102-125 | finds the id only when its user is a ZOOKEEPER with a profile |
| ZookeeperRepository.Update | backend/internal/adapters/repository/zookeeper_repository_pg.go:127-148 | renames the profile and keeps its manager; "zookeeper not found" otherwise |
| ZookeeperRepository.Delete | backend/internal/adapters/repository/zookeeper_repository_pg.go:150-187 | fails with no change unless the target is a ZOOKEEPER user; otherwise removes the profile and the user |
| ZookeeperRepository.ListMatchesFind | backend/internal/adapters/repository/zookeeper_repository_pg.go:77-125 | the listing holds exactly the rows FindByID returns |
| ZookeeperRepository.CreateThenFind | backend/internal/adapters/repository/zookeeper_repository_pg.go:29-125 | after a create, lookup returns the new zookeeper |
| ZookeeperRepository.ManagersUnchanged | backend/internal/adapters/repository/zookeeper_repository_pg.go:29-187 | creating or deleting a zookeeper leaves the set of managers unchanged |
| ZookeeperRepository.DeleteThenFind | backend/internal/adapters/repository/zookeeper_repository_pg.go:102-187 | after a delete, lookup fails |
| ZookeeperService.Create | backend/internal/application/zookeeper_service.go:28-71 | a username used by any user fails with "username already exists"; success adds exactly the new ZOOKEEPER user and a profile linked to the given manager, leaves every other row as it was, and echoes username and name |
| ZookeeperService.List | backend/internal/application/zookeeper_service.go:73-75 | every zookeeper whose lookup succeeds |
| ZookeeperService.FindByID | backend/internal/application/zookeeper_service.go:77-82 | succeeds exactly for ZOOKEEPER users with a profile and returns that id's own listed row; "no rows" otherwise |
| ZookeeperService.Update | backend/internal/application/zookeeper_service.go:84-90 | only that profile's name changes: same profiles, same manager link, every other profile and table unchanged; "zookeeper not found" otherwise |
| ZookeeperService.Delete | backend/internal/application/zookeeper_service.go:92-97 | removes exactly that ZOOKEEPER user and profile and nothing else, so never a manager; "no rows" for any other id |
| ZookeeperService.ManagerUsernameBlocksZookeeper | backend/internal/application/zookeeper_service.go:36-42 | a manager's username cannot be reused for a zookeeper |
| CageRepository.CodeExists | backend/internal/adapters/repository/cage_repository_pg.go:20-27 | true exactly when some cage has the code |
| CageRepository.Create | backend/internal/adapters/repository/cage_repository_pg.go:29-44 | inserts the cage with the given id, code and location and returns the id |
| CageRepository.List | backend/internal/adapters/repository/cage_repository_pg.go:46-68 | every cage, one row per cage |
| CageRepository.FindByID | backend/internal/adapters/repository/cage_repository_pg.go:70-92 | the cage's code and location; "no rows" for an unknown id |
| CageRepository.Update | backend/internal/adapters/repository/cage_repository_pg.go:94-114 | replaces only that cage's code and location; "cage not found" otherwise |
| CageRepository.Delete | backend/internal/adapters/repository/cage_repository_pg.go:116-134 | removes the cage; "cage not found" if absent |
| CageRepository.ListMatchesFind | backend/internal/adapters/repository/cage_repository_pg.go:46-92 | the listing holds exactly the rows FindByID returns |
| CageRepository.CreateThenFind | backend/internal/adapters/repository/cage_repository_pg.go:29-92 | after a create, lookup returns the same code and location |
| CageRepository.UpdateThenFind | backend/internal/adapters/repository/cage_repository_pg.go:70-114 | after an update, lookup returns the new code and location |
| CageRepository.DeleteThenFind | backend/internal/adapters/repository/cage_repository_pg.go:70-134 | after a delete, lookup fails and a second delete reports "cage not found" |
| CageService.Create | backend/internal/application/cage_service.go:23-52 | a taken code fails with "cage code already exists"; success adds exactly the new cage, leaves every other cage as it was, and returns a DTO echoing code and location |
| CageService.List | backend/internal/application/cage_service.go:54-56 | every cage whose lookup succeeds |
| CageService.FindByID | backend/internal/application/cage_service.go:58-63 | succeeds exactly for an existing cage and returns that cage's own listed row; "no rows" otherwise |
| CageService.Update | backend/internal/application/cage_service.go:65-79 | any existing code fails with "cage code already exists", checked before the cage's existence |
| CageService.Delete | backend/internal/application/cage_service.go:81-86 | removes the cage; "cage not found" otherwise |
| CageService.DuplicateCodeReportedBeforeMissingCage | backend/internal/application/cage_service.go:70-78 | an unknown cage with a taken code reports the duplicate code, not the missing cage |
| CageService.UpdateKeepingOwnCodeFails | backend/internal/application/cage_service.go:70-76 | resubmitting a cage's own code always fails |
| CageService.UpdateExcludingSelf | backend/internal/application/cage_service.go:65-79 | the corrected update: only a code held by another cage is refused |
| CageService.UpdateExcludingSelfKeepsOwnCode | frontend/app/dashboard/cages/page.tsx:114-117 | with the corrected check, the location-only edit the page sends succeeds |
| CageService.UpdatesKeepCodesUnique | backend/internal/application/cage_service.go:65-79 | both update variants keep cage codes unique |
| CageService.CreateKeepsCodesUnique | backend/internal/application/cage_service.go:29-42 | create keeps cage codes unique |
| AnimalRepository.Create | backend/internal/adapters/repository/animal_repository_pg.go:20-52 | an unknown cage fails with nothing inserted; otherwise inserts the animal in that cage |
| AnimalRepository.List | backend/internal/adapters/repository/animal_repository_pg.go:54-83 | every animal whose cage exists, reporting that cage's public_id |
| AnimalRepository.FindByID | backend/internal/adapters/repository/animal_repository_pg.go:85-110 | the animal and its cage's public_id; "no rows" otherwise |
| AnimalRepository.Update | backend/internal/adapters/repository/animal_repository_pg.go:112-151 | an unknown cage is reported before an unknown animal; success replaces only that animal's fields |
| AnimalRepository.Delete | backend/internal/adapters/repository/animal_repository_pg.go:153-172 | removes the animal; "animal not found" if absent |
| AnimalRepository.ListMatchesFind | backend/internal/adapters/repository/animal_repository_pg.go:54-110 | the listing holds exactly the rows FindByID returns |
| AnimalRepository.CreateThenFind | backend/internal/adapters/repository/animal_repository_pg.go:42-110 | the cage id given to create is the one lookup and listing report |
| AnimalRepository.UpdateThenFind | backend/internal/adapters/repository/animal_repository_pg.go:85-151 | after an update, lookup returns the new fields |
| AnimalRepository.DeleteThenFind | backend/internal/adapters/repository/animal_repository_pg.go:85-172 | after a delete, lookup fails and a second delete reports "animal not found" |
| AnimalService.Create | backend/internal/application/animal_service.go:23-53 | an unknown cage fails with "no rows"; success adds exactly the new animal under the fresh id, leaves every other animal as it was, and returns a DTO with the given cage id, name, species and date, which lookup then finds |
| AnimalService.List | backend/internal/application/animal_service.go:55-57 | every animal whose lookup succeeds |
| AnimalService.FindByID | backend/internal/application/animal_service.go:59-64 | succeeds exactly for animals whose cage exists and returns that animal's own listed row; "no rows" otherwise |
| AnimalService.Update | backend/internal/application/animal_service.go:66-72 | an unknown cage is reported before an unknown animal; it succeeds exactly when both exist, and then replaces only that animal's fields |
| AnimalService.Delete | backend/internal/application/animal_service.go:74-79 | removes the animal; "animal not found" otherwise |
| TaskRepository.Create | backend/internal/adapters/repository/task_repository_pg.go:19-78 | fails with nothing inserted unless the manager id is a MANAGER, the zookeeper id a ZOOKEEPER and the animal, if any, exists; success returns the input's id |
| TaskRepository.ListByManager | backend/internal/adapters/repository/task_repository_pg.go:80-125 | exactly the tasks given by that manager, each with its zookeeper's username and its stored status |
| TaskRepository.ListByZookeeper | backend/internal/adapters/repository/task_repository_pg.go:127-171 | exactly the tasks assigned to that zookeeper, each with its stored status |
| TaskRepository.UpdateStatus | backend/internal/adapters/repository/task_repository_pg.go:173-194 | changes only that task's status; "task not found" otherwise |
| TaskRepository.Delete | backend/internal/adapters/repository/task_repository_pg.go:196-215 | removes the task; "task not found" if absent |
| TaskRepository.CreateThenListed | backend/internal/adapters/repository/task_repository_pg.go:19-171 | a new task shows up for its manager and its zookeeper, with the status column's default |
| TaskRepository.UpdateStatusThenListed | backend/internal/adapters/repository/task_repository_pg.go:127-194 | after a status change the listed row carries the new status and is otherwise the same |
| TaskRepository.DeleteThenUnlisted | backend/internal/adapters/repository/task_repository_pg.go:80-215 | a deleted task is listed for nobody |
| TaskService.Create | backend/internal/application/task_service.go:25-49 | uses the fresh id, forwards title, description, manager, zookeeper, animal and due date unchanged, stores the status column's default, and leaves every other task as it was |
| TaskService.ListByManager | backend/internal/application/task_service.go:51-56 | exactly the tasks given by that manager |
| TaskService.ListByZookeeper | backend/internal/application/task_service.go:58-63 | exactly the tasks assigned to that zookeeper |
| TaskService.UpdateStatus | backend/internal/application/task_service.go:65-71 | changes only that task's status |
| TaskService.Delete | backend/internal/application/task_service.go:73-78 | removes only that task |
| TaskService.ListForCaller | backend/internal/adapters/http/handler/task_handler.go:105-109 | a MANAGER caller sees exactly the tasks they gave; any other caller sees exactly the tasks assigned to them |
| TaskService.CallersSeeOnlyTheirOwnTasks | backend/internal/adapters/http/handler/task_handler.go:105-109 | no caller sees a task that another caller of the same role sees |
| ParkInvariants.AddingFreshUsernameKeepsUnique | backend/internal/application/manager_service.go:35-41 | adding a user with an unused username keeps usernames unique |
| ParkInvariants.CreateManagerKeepsInvariant | backend/internal/application/manager_service.go:28-69 | creating a manager keeps the invariants |
| ParkInvariants.DeleteManagerKeepsInvariant | backend/internal/application/manager_service.go:83-103 | deleting a manager keeps the invariants |
| ParkInvariants.CreateZookeeperKeepsInvariant | backend/internal/application/zookeeper_service.go:28-71 | creating a zookeeper keeps the invariants |
| ParkInvariants.DeleteZookeeperKeepsInvariant | backend/internal/application/zookeeper_service.go:92-97 | deleting a zookeeper keeps the invariants |
| ParkInvariants.CageRequestKeepsInvariant | backend/internal/application/cage_service.go:23-86 | creating, updating (with the update as written) or deleting a cage keeps the invariants |
| ParkInvariants.SameUsersAndCagesKeepInvariant | backend/internal/application/task_service.go:25-78 | a step that changes neither users nor cages keeps the invariants |
| ParkInvariants.RenameKeepsInvariant | backend/internal/application/manager_service.go:75-81 | renaming a manager or a zookeeper keeps the invariants |
| ParkInvariants.AnimalRequestKeepsInvariant | backend/internal/application/animal_service.go:23-79 | creating, updating or deleting an animal keeps the invariants |
| ParkInvariants.TaskRequestKeepsInvariant | backend/internal/application/task_service.go:25-78 | creating a task, changing its status or deleting it keeps the invariants |
| ParkInvariants.ServeKeepsInvariant | backend/internal/application/manager_service.go:83-103 | serving any one request keeps the invariants |
| ParkInvariants.RunKeepsInvariant | backend/internal/application/manager_service.go:89-102 | any sequential run of requests keeps usernames unique, cage codes unique and at least one manager |
| RoleGate.RequireRole | backend/internal/adapters/http/middleware/role.go:5-19 | continues exactly when the role local is the required string; every refusal is 403 |
| RoleGate.MissingRoleForbidden | backend/internal/adapters/http/middleware/role.go:8-11 | a missing role yields 403 |
| RoleGate.OtherRoleForbidden | backend/internal/adapters/http/middleware/role.go:13-15 | a different role yields 403 |
| RoleGate.GatesExclusive | backend/internal/adapters/http/middleware/role.go:13-17 | no caller passes two gates that require different roles |
| RoleGate.UserPassesOwnGateOnly | backend/internal/adapters/http/middleware/role.go:13-17 | a MANAGER or ZOOKEEPER token passes its own role's gate and no other |
| PageGate.Middleware | frontend/app/middleware.ts:4-19 | a visitor without a token is sent to /login, except on /login and /api/auth paths; one with a token on a /login path is sent to /dashboard |
| PageGate.OnlyPresenceMatters | frontend/app/middleware.ts:5-16 | the decision depends on whether the token is present and not on its contents |
| PageGate.NoRedirectLoop | frontend/app/middleware.ts:7-18 | following either redirect does not redirect again |
| PageGate.LoginCheckIsPrefix | frontend/app/middleware.ts:7 | any path beginning with /login counts as the login page, so a visitor without a token passes |
| PageGate.Handle | frontend/app/middleware.ts:21-29 | paths outside the matcher are never redirected |
| PageGate.MatchedIsNeverLogin | frontend/app/middleware.ts:21-29 | no path the matcher admits starts with /login |
| PageGate.DashboardRedirectUnreachable | frontend/app/middleware.ts:14-16 | as deployed, the redirect to /dashboard never happens |
| PageGate.SignedInLoginShown | frontend/app/middleware.ts:14-16 | a signed-in visitor opening /login is shown the login page |
| PageGate.HandleWithLogin | frontend/app/middleware.ts:21-29 | the gate with /login in the matcher |
| PageGate.LoginMatcherRedirects | frontend/app/middleware.ts:7-18 | with the corrected matcher a signed-in visitor on /login goes to /dashboard, and no redirect loops |
| Text.LowerChar | frontend/app/dashboard/animals/page.tsx:86-87 | lower-cases exactly the ASCII capitals and leaves no capital |
| Text.Lower | frontend/app/dashboard/animals/page.tsx:86-87 | keeps the length and lower-cases character by character |
| Text.LowerIdempotent | frontend/app/dashboard/animals/page.tsx:86-87 | lower-casing twice is lower-casing once |
| Text.Includes | frontend/app/dashboard/animals/page.tsx:86-87 | true exactly when the needle occurs at some offset of the haystack |
| Text.ShiftOccurrence | frontend/app/dashboard/animals/page.tsx:86-87 | an occurrence past the first offset is an occurrence in the tail |
| Text.IncludesEmpty | frontend/app/dashboard/animals/page.tsx:84-89 | every string includes the empty string |
| Seqs.Filter | frontend/app/dashboard/animals/page.tsx:84-89 | keeps exactly the elements the test accepts, each as many times as it occurs |
| Seqs.FilterIsSubsequence | frontend/app/dashboard/animals/page.tsx:84-89 | the result keeps the original order |
| Seqs.SubsequenceOfTail | frontend/app/dashboard/animals/page.tsx:84-89 | a subsequence of the tail is a subsequence of the whole list |
| Seqs.FilterKeepsAll | frontend/app/dashboard/animals/page.tsx:84-89 | when every element passes, the list is returned unchanged |
| Seqs.FilterAppend | frontend/components/ui/ToastContext.tsx:19-22 | filtering an appended list filters both parts |
| SearchFilter.EmptySearchHits | frontend/app/dashboard/animals/page.tsx:84-89 | the empty search matches every item |
| SearchFilter.OwnFieldHits | frontend/app/dashboard/animals/page.tsx:84-89 | searching for a field's own text, in any case, matches the item |
| SearchFilter.Search | frontend/app/dashboard/animals/page.tsx:84-89 | keeps an item exactly when the lower-cased search occurs in one of its two lower-cased fields, every copy of it; keeps the order; an empty search keeps all |
| SearchFilter.FilterAnimals | frontend/app/dashboard/animals/page.tsx:84-89 | keeps an animal exactly when the search occurs in its name or species, ignoring case, every copy of it; keeps the order; an empty search keeps all |
| SearchFilter.FilterCages | frontend/app/dashboard/cages/page.tsx:65-70 | keeps a cage exactly when the search occurs in its code or location, ignoring case, every copy of it; keeps the order; an empty search keeps all |
| SearchFilter.FilterManagers | frontend/app/dashboard/managers/page.tsx:66-71 | keeps a manager exactly when the search occurs in its username or name, ignoring case, every copy of it; keeps the order; an empty search keeps all |
| SearchFilter.FilterZookeepers | frontend/app/dashboard/zookeepers/page.tsx:66-71 | keeps a zookeeper exactly when the search occurs in its username or name, ignoring case, every copy of it; keeps the order; an empty search keeps all |
| SearchFilter.UsernameFindsAccount | frontend/app/dashboard/managers/page.tsx:66-71 | typing an account's username, in any case, keeps it listed |
| Forms.NullIfEmpty | frontend/app/dashboard/animals/page.tsx:104 | the empty string becomes null and any other string is kept |
| Forms.AnimalCreateBody | frontend/app/dashboard/animals/page.tsx:102-105 | sends the four form fields, with the date null exactly when the field is empty; reading the body back gives the form |
| Forms.AnimalUpdateBody | frontend/app/dashboard/animals/page.tsx:140-145 | sends name, species, cage and date but no public_id; the date is null exactly when it is null or empty |
| Forms.Prefix | frontend/app/dashboard/animals/page.tsx:267 | the first n characters, or the whole string when shorter |
| Forms.PrefillEdit | frontend/app/dashboard/animals/page.tsx:264-269 | only the date changes: cut to at most ten characters, or "" when null or empty |
| Forms.PrefillThenSave | frontend/app/dashboard/animals/page.tsx:264-269 | saving an unchanged edit sends null exactly when the row had no date, otherwise the date's first ten characters |
| Forms.PrefillIdempotent | frontend/app/dashboard/animals/page.tsx:264-269 | prefilling twice is prefilling once |
| Forms.FormatDate | frontend/app/dashboard/animals/page.tsx:196-199 | "-" for a null or empty date, otherwise the locale rendering |
| Forms.FormatDateAgreesWithSave | frontend/app/dashboard/animals/page.tsx:140-269 | the table shows "-" exactly for the rows whose unchanged edit-then-save sends a null date; otherwise the table renders the full stored date while the save sends its first ten characters, which equal the stored date exactly when it has at most ten characters |
| Forms.CageLabel | frontend/app/dashboard/animals/page.tsx:201-204 | the code of the first cage with that id, or "Unknown" when none has it |
| Forms.LabelOfListedCage | frontend/app/dashboard/animals/page.tsx:201-204 | when cage ids are distinct, every listed cage is labelled with its own code |
| Forms.CageCreateBody | frontend/app/dashboard/cages/page.tsx:82 | the form's code and location, which read back to the form |
| Forms.CageUpdateBody | frontend/app/dashboard/cages/page.tsx:114-117 | exactly the edited cage's code and location: the body create would send for them |
| Forms.AccountCreateBody | frontend/app/dashboard/managers/page.tsx:83 | the form's username, password and name, which read back to the form; the zookeepers page sends the same body (frontend/app/dashboard/zookeepers/page.tsx:83) |
| Forms.NameUpdateBody | frontend/app/dashboard/managers/page.tsx:118 | only the name: the username and password are never sent; the zookeepers page sends the same body (frontend/app/dashboard/zookeepers/page.tsx:118) |
| Toasts.Show | frontend/components/ui/ToastContext.tsx:16-19 | appends exactly one toast, stamped with the clock, and keeps the earlier ones in order |
| Toasts.Dismiss | frontend/components/ui/ToastContext.tsx:21-23 | removes every toast with that id and keeps every other toast, each copy of it, in order |
| Toasts.DismissAbsent | frontend/components/ui/ToastContext.tsx:22 | removing an id nobody carries changes nothing |
| Toasts.ShowThenDismiss | frontend/components/ui/ToastContext.tsx:17-23 | showing a toast under an unused id, then removing that id, restores the list |
| Toasts.SameMillisecondToastsLeaveTogether | frontend/components/ui/ToastContext.tsx:17-23 | two toasts shown in the same millisecond share an id and leave together |

## Left out

- HTTP handlers are not modelled: their body parsing, status codes and logging are left out. The one exception is the task-listing role dispatch, modelled as `TaskService.ListForCaller`.
- JWT signing and verification are library calls and are not modelled. The role gate takes the "role" local they set as its input.
- The bcrypt hash and the UUID generator are parameters. Their error paths are not modelled, including the two-value id call in the manager service.
- The `Date.now()` clock, the 3-second timer and the locale date rendering are parameters or explicit events.
- Database driver, connection and commit errors are not modelled. A failed transaction is modelled as "store unchanged".
- Internal integer ids are not modelled. A profile's link to its user is modelled by sharing the user's public_id. Fresh public_ids are assumed never to repeat the id of a deleted row: in the model, rows left behind under a reused id would attach to the new user, whereas the Go queries join on serial internal ids that are never reused.
- The database schema is not part of this model. A unique public_id per table is assumed: an insert under a taken public_id fails with `DuplicateKey`.
  - No unique index on username or cage code is assumed. Those are guarded only by the services' checks.
  - No foreign-key cascades are assumed. Deleting a cage leaves its animals in place, and the joined queries then stop reporting them.
  - The task insert leaves the status column out, so a new task takes the column's default. That default lives in the schema, so it is a parameter of `TaskRepository.Create`. The listings scan the status into a plain string, so every listed task has one.
- Dates are opaque strings. The `time.Time` / string mismatch between the animal service and its port is not modelled.
- Zookeeper listings and lookups return empty manager fields, because the queries scan only three columns.
- The animal and zookeeper listings return JSON null rather than `[]` when they have no rows. The model has only the empty set.
- Concurrency is not modelled. The check-then-insert and count-then-delete steps are safe only one request at a time, and every invariant here is about sequential runs.
- Only ASCII letters are lower-cased. Unicode case mapping is not modelled.
- Strings are sequences of Unicode scalar values. JavaScript's `toLowerCase`, `includes` and `slice` work on UTF-16 code units, so lengths and ten-character prefixes of text outside the Basic Multilingual Plane can differ.
- The model does not cover where Next.js looks for the middleware file. The gate is modelled as if it is installed with the matcher it declares.
- React rendering, modals, loading flags and fetch ordering are left out. So are the tasks and landing pages, the Next.js auth and proxy routes, seeding and migrations.
- TaskRepository.Create: the order of the manager, zookeeper and animal lookups is not stated. All three failures are the same "no rows" error, so the order cannot be observed.
- AnimalService.Create: on failure it returns only the error, not the empty DTO the Go code returns with it.

## Findings

| source | as written | input that shows it | evidently intended | confidence | as-written member | corrected member |
|---|---|---|---|---|---|---|
| backend/internal/application/cage_service.go:70-76 | the duplicate-code check counts the edited cage's own code | cage C1 at "North", edited on the cages page to "South": the page resends code C1 and the update fails with "cage code already exists" | refuse only a code held by another cage | not executed; high | CageService.UpdateKeepingOwnCodeFails | CageService.UpdateExcludingSelf |
| frontend/app/middleware.ts:21-29 | the matcher lists no /login or /api/auth path, so the login-page branches of the middleware never run | access_token cookie present, request for /login: the login page is shown instead of a redirect to /dashboard | the matcher also covers /login, so lines 14-16 take effect | not executed; medium | PageGate.DashboardRedirectUnreachable | PageGate.HandleWithLogin |

The state machine in `ParkInvariants` runs the cage update as written, so its invariants are about the program as it stands. `CageService.UpdatesKeepCodesUnique` shows that the corrected update keeps cage codes unique as well.
