# Session store and navigation guard of a school web app

This project models, in Dafny, the two pieces of logic of a small Vue
front end: the user session store (`src/stores/userStore.ts`) and the
route table with its navigation guard (`src/router/index.ts`).

- `wrappers.dfy` (module `Wrappers`): `Option` for nullable and optional
  values, `Result` for the outcome of reading storage.
- `user_store.dfy` (module `SessionStore`): the `User` record, `UserPatch`
  (a `Partial<User>`, every field an `Option`), the key-value storage as a
  `map<string, StoredValue>`, loading the initial state from storage, and the
  class `UserStore` with the fields `isLoggedIn`, `user` and `storage`, the
  getters `UserRole`, `IsAdmin`, `IsTeacher`, `IsParent` as functions and the
  actions `Login`, `Logout`, `UpdateUserInfo` as methods that change the
  object. Two predicates describe the store: `Consistent` (logged in exactly
  when there is a user) and `Mirrored` (reloading from storage gives the
  present state). `Login` and `Logout` establish both; `UpdateUserInfo`
  preserves both. `SessionLifecycle` is a client that walks through load,
  login, update, reload, a double logout and an update after logout, with the
  expected values asserted.
- `router.dfy` (module `Router`): the route table as a constant sequence, a
  lookup of a page by name, the guard as a function from the target route
  and the login flag to `Proceed | RedirectHome | RedirectLogin`, and
  `BeforeEach`, the guard as the router runs it against a store, which reads
  the store and changes nothing.

The persisted user is abstract: `Serialized(u)` stands for the JSON text the
store writes for `u`, and `Text(s)` for any other stored text. Reading
storage follows `userStore.ts` lines 18-21: the login flag is set exactly
when the key holds `"true"`; an absent or empty `user` value gives no user
without parsing; JSON text for `null` (the literal with only JSON whitespace
around it, section 2 of RFC 8259) parses to no user; any other text is the
error `MalformedUser`. `JSON.parse` throws on text that is not JSON, so the
store's constructor requires that loading succeeds.

## Notes

- The guard has only the two checks of `index.ts` lines 52-61. There is no
  role allow-list check and no route has `roles` metadata.
- Loading fails on a stored `user` text that `JSON.parse` rejects; such text
  is not silently treated as absent.

## Model

| member | source | states |
|---|---|---|
| SessionStore.LoadLoggedIn | src/stores/userStore.ts:19 | the initial login flag is true exactly when storage holds the text "true" under `isLoggedIn` |
| SessionStore.TrimStart | src/stores/userStore.ts:20 | the result is a suffix of the text, everything dropped is JSON whitespace, and it does not start with JSON whitespace |
| SessionStore.TrimEnd | src/stores/userStore.ts:20 | the result is a prefix of the text, everything dropped is JSON whitespace, and it does not end with JSON whitespace |
| SessionStore.TrimStartPadded | src/stores/userStore.ts:20 | trimming a text that starts with whitespace and then a non-space removes exactly that whitespace |
| SessionStore.TrimEndPadded | src/stores/userStore.ts:20 | trimming a text that ends with a non-space and then whitespace removes exactly that whitespace |
| SessionStore.JsonNullPadded | src/stores/userStore.ts:20 | `null` with any JSON whitespace on either side is JSON text for `null` |
| SessionStore.LoadUser | src/stores/userStore.ts:20 | no key, an empty text or JSON text for `null` gives no user; a serialised user reads back as that user; any other text is an error |
| SessionStore.LoadPaddedNull | src/stores/userStore.ts:20 | a stored `user` text such as " null" loads as no user, not as an error |
| SessionStore.LoadSession | src/stores/userStore.ts:18-21 | loading succeeds exactly when the user value can be read, and then the state is the flag and the user as read |
| SessionStore.LoginUser | src/stores/userStore.ts:52-57 | the user built by login takes username and role from the input or "" when missing, and id and avatar as given |
| SessionStore.Merge | src/stores/userStore.ts:77 | every field the patch carries replaces the user's field; every other field keeps its old value |
| SessionStore.Combine | src/stores/userStore.ts:77 | spreading two patches: each field comes from the later patch when it carries one, otherwise from the earlier |
| SessionStore.MergeEmpty | src/stores/userStore.ts:77 | an update with an empty patch leaves the user unchanged |
| SessionStore.MergeIdempotent | src/stores/userStore.ts:77 | applying the same update twice gives the same user as applying it once |
| SessionStore.MergeTwice | src/stores/userStore.ts:75-78 | two successive updates equal one update by the combined patch, the later one winning |
| SessionStore.MergeFullPatch | src/stores/userStore.ts:52-57 | an update whose patch carries every field gives the same user as a login with that input |
| SessionStore.LoadAfterLogin | src/stores/userStore.ts:60-61 | storage written by login reads back as logged in with the new user |
| SessionStore.LoadAfterLogout | src/stores/userStore.ts:70-71 | storage with both keys removed reads back as logged out with no user |
| SessionStore.LoadAfterUserWrite | src/stores/userStore.ts:78 | rewriting the `user` key keeps the login flag read from storage and reads back the written user |
| SessionStore.UserStore.constructor | src/stores/userStore.ts:18-21 | the new store holds the given storage and the state loaded from it, so it is mirrored |
| SessionStore.UserStore.UserRole | src/stores/userStore.ts:25-27 | no role when there is no user or the role is empty; otherwise the user's role |
| SessionStore.UserStore.IsAdmin | src/stores/userStore.ts:30-32 | true exactly when there is a user whose role is "验收小组" |
| SessionStore.UserStore.IsTeacher | src/stores/userStore.ts:35-38 | true exactly when there is a user whose role is "teacher" or "教师" |
| SessionStore.UserStore.IsParent | src/stores/userStore.ts:41-44 | true exactly when there is a user whose role is "parent" or "家长" |
| SessionStore.UserStore.Login | src/stores/userStore.ts:49-62 | logged in with the user built from the input; both keys written; consistent and mirrored afterwards |
| SessionStore.UserStore.Logout | src/stores/userStore.ts:65-72 | logged out with no user; both keys removed, nothing else in storage touched; consistent and mirrored; a second logout changes nothing |
| SessionStore.UserStore.UpdateUserInfo | src/stores/userStore.ts:75-80 | with no user nothing changes; otherwise the user is merged with the patch and rewritten under `user`; the login flag never changes; consistency and mirroring are preserved |
| SessionStore.RolesExclusive | src/stores/userStore.ts:34-44 | no user is both teacher and parent; with no user no role getter holds |
| SessionStore.RecognisedRolesHaveRole | src/stores/userStore.ts:25-44 | whenever a role getter holds, `userRole` reports the user's role |
| Router.FindRoute | src/router/index.ts:5-38 | a page found by name is the first page of the table with that name; when none is found, no page in the table has that name |
| Router.RedirectName | src/router/index.ts:53-59 | a decision names a redirect target exactly when it is not Proceed: `home` or `login` |
| Router.Guard | src/router/index.ts:47-65 | redirect home exactly when heading for `login` while logged in; redirect to login exactly when the target requires login and the user is logged out; otherwise proceed |
| Router.BeforeEach | src/router/index.ts:47-65 | the hook's decision is the guard's on the store's login flag, and it changes nothing in the store |
| Router.GuardNeverRedirectsWrongly | src/router/index.ts:52-61 | a logged-in user is never sent to login, a logged-out user never sent home |
| Router.RouteTableFacts | src/router/index.ts:5-38 | page names are unique; the catch-all is last, the only redirect, and leads to `home`; `home` and `login` are exactly the pages open without login |
| Router.OpenPagesProceed | src/router/index.ts:6-17 | every page other than `login` that is open without login proceeds for any session |
| Router.CatchAllProceeds | src/router/index.ts:33-37 | the catch-all leads to a page of the table that proceeds for any session |
| Router.RedirectsSettle | src/router/index.ts:52-61 | a redirect leads to a page of the table that the guard lets the same session through to |

## Left out

- Pinia's reactivity and `defineStore` machinery: the store is a plain class.
- Real `localStorage` and JSON: storage is a map and the serialised user is
  the abstract `Serialized(u)`; the text of the serialisation is not modelled.
- SessionStore.LoadUser: stored text that parses to a JSON value other than a
  user or `null` (such as `123`, or a user written by someone else) is treated
  as an error like text that does not parse, while the source would take that
  value as its user.
- SessionStore.Merge: a patch whose field is present but `undefined` (which
  the spread would copy) is not expressible; a missing field is `None`.
- vue-router's path matching (`/class/:id`, the catch-all pattern),
  `createWebHistory` and the `next` callback: the guard receives an already
  resolved target (its name and `meta.requiresAuth`), and a redirect is the
  name of the page it leads to.
- The lazily imported page components and `src/main.ts`, the application
  bootstrap: module loading and framework wiring with no decision logic.
- Concurrent tabs sharing one storage: not modelled, each store owns its map.
