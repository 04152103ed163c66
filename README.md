# Authentication demo: a verified model of its state logic

This is a Dafny model of the logic in a client-only sign-up and login demo, with proofs. The demo keeps its "backend" in the browser:

- a user table under the local-storage key `table:users`, holding full records keyed by email, passwords included;
- a session cookie whose value is the logged-in email;
- an authentication slice that holds the public part of the current user (`user`) and an `isLoggedIn` flag.

The model covers four pieces:

- **Storage** (`storage.dfy`): the user table.
  - The lookup `getUniqueUserByEmail` finds the first record with the email.
  - The save `saveUserToLocalStorage` rebuilds a JavaScript `Map` keyed by email from the stored list, sets the new record, and writes the map's values back.
  - At the specification level the map is a sequence of records with distinct emails, kept in insertion order. `Upsert` is `Map.set`, `MapOf` is `new Map(list)` and `Saved` is the list a save writes back.
  - The method `UsersTable.Save` builds the map imperatively: a key sequence plus a `map<string, UserRecord>`. It is proved equal to `Saved`.
- **Authentication** (`authentication.dfy`): the slice as a class.
  - It has the fields `user`, `isLoggedIn` and `cookie`, plus the table it reads and writes.
  - Each asynchronous thunk is one atomic method. It is either rejected, leaving state, cookie and table unchanged, or fulfilled with the effects its contract lists.
  - The invariant `isLoggedIn ==> user != null` holds across every transition.
- **Theme** (`theme.dfy`): `getThemeValue`, the pure mapping from (theme, system theme, custom theme) to the stored stylesheet key. The custom-theme prefix constant is a parameter.
- **Routing** (`middleware.dfy`): the route guard, as a decision from the path and the optional cookie value to "continue" or "redirect".

`common.dfy` holds the shared vocabulary. `Option` stands for `undefined`/`null`. `HasToken` is JavaScript truthiness of a cookie value: absent and `""` are both "no cookie".

Some behaviours of the code are easy to misread; the model follows the code:

- `changeTheme` is guarded by a held `user`, not by `isLoggedIn` (src/lib/features/authentication/authenticationSlice.ts:221). `updateProfile` sets `user` without touching `isLoggedIn`, so a user can be held while logged out.
- `updateProfile` and `updatePassword` act on any stored email, not only on the held user's.
- For a theme `prefix + "__theme"` the code returns `"dark__" + customTheme` (src/helpers/theme.ts:25, src/helpers/theme.ts:33). Its test (src/helpers/theme.test.ts:39-45) expects `"dark"`. `Theme.PrefixedSeparatorTheme` states the code's answer.
- The save works through a `Map`. If the stored list already held one email twice, the map keeps the first position and the last value. `Storage.FindMapOfIsLast` states this "last write wins". The replace-in-place and append facts are stated for stored lists whose emails are distinct, which is every list the application itself writes (`Storage.Saved`).

## Model

| member | source | states |
|---|---|---|
| `Storage.Find` | src/helpers/storage.ts:16-22 | the lookup returns a record of the table carrying the email, and returns nothing exactly when no record carries it |
| `Storage.FindLastIsLast` | src/helpers/storage.ts:29 | the reverse lookup returns the record at the last index that carries the email |
| `Storage.FindFirst` | src/helpers/storage.ts:21 | the lookup returns the record at the first index that carries the email (first match) |
| `Storage.FindUnique` | src/helpers/storage.ts:21 | in a table with distinct emails, the lookup returns the one record carrying the email |
| `Storage.FindLast` | src/helpers/storage.ts:29 | reference definition of "the last record written with an email": some record with the email, and nothing exactly when none has it |
| `Storage.Upsert` | src/helpers/storage.ts:31 | `Map.set`: the length stays the same when the key is present and grows by one otherwise; no record other than the new one and the old entries appears |
| `Storage.MapOf` | src/helpers/storage.ts:29 | the map built from any stored list has pairwise distinct emails |
| `Storage.Saved` | src/helpers/storage.ts:29-36 | after any save the emails are pairwise distinct, and looking up the saved email returns exactly the saved record |
| `Storage.UpsertKeepsUnique` | src/helpers/storage.ts:31 | setting a record keeps the map's emails distinct |
| `Storage.UpsertReplaces` | src/helpers/storage.ts:31 | setting a present key replaces its entry at its own position |
| `Storage.UpsertAppends` | src/helpers/storage.ts:31 | setting an absent key appends the record at the end |
| `Storage.FindUpserted` | src/helpers/storage.ts:31 | after setting a record, looking up its email returns it |
| `Storage.FindUpsertOther` | src/helpers/storage.ts:31 | setting a record leaves the lookup of every other email unchanged |
| `Storage.UpsertIdempotent` | src/helpers/storage.ts:31 | setting the same record twice equals setting it once |
| `Storage.MapOfIdentity` | src/helpers/storage.ts:29 | a list with distinct emails goes through the map unchanged, order included |
| `Storage.FindMapOfIsLast` | src/helpers/storage.ts:29 | the map holds, for every email, the last record of the list with that email |
| `Storage.SaveReplacesInPlace` | src/helpers/storage.ts:29-36 | saving a record whose email is stored replaces it at its original index; the length and all other records are unchanged |
| `Storage.SaveAppends` | src/helpers/storage.ts:29-36 | saving a record with a new email into a list with distinct emails appends it at the end: the new list is the old one plus the record |
| `Storage.SaveKeepsOthers` | src/helpers/storage.ts:29-31 | after a save, the lookup of any other email gives the last record the stored list had with it |
| `Storage.SaveKeepsStoredLookup` | src/helpers/storage.ts:29-31 | with distinct stored emails, a save leaves the lookup of every other email exactly as it was |
| `Storage.SaveIdempotent` | src/helpers/storage.ts:29-36 | saving the same record twice yields the same list as saving it once |
| `Storage.ValuesFrame` | src/helpers/storage.ts:35 | updating a key outside the key list leaves the map's value list unchanged |
| `Storage.ValuesSet` | src/helpers/storage.ts:31-35 | updating the imperative map by key (appending the key when new) gives the value list `Upsert` specifies |
| `Storage.MapSet` | src/helpers/storage.ts:29-31 | `map.set(email, user)` on the imperative map keeps it keyed by email and yields `Upsert` of its values |
| `Storage.UsersTable.GetUniqueUserByEmail` | src/helpers/storage.ts:3-22 | a stored record carrying the email, nothing exactly when no stored record carries it, and nothing when the item is missing or not a list |
| `Storage.UsersTable.Save` | src/helpers/storage.ts:3-37 | the loop over the stored list rebuilds the map, sets the record and stores the values: the new table is exactly `Saved(old list, user)`; saving over a missing or non-list item writes the one record |
| `Authentication.AuthenticationSlice.constructor` | src/lib/features/authentication/authenticationSlice.ts:39-47 | the initial state: no user, logged out, invariant established |
| `Authentication.AuthenticationSlice.SignIn` | src/lib/features/authentication/authenticationSlice.ts:53-88 | rejects with "already registered" exactly when the email is stored, changing nothing; otherwise upserts the full payload (password included), sets the cookie to the email, logs in and holds the four public fields; with distinct stored emails the record is appended |
| `Authentication.AuthenticationSlice.Login` | src/lib/features/authentication/authenticationSlice.ts:89-124 | succeeds exactly when a stored record has the email and an equal password; then holds that record's public fields, logs in and sets the cookie to the email; on failure nothing changes; the table is never written |
| `Authentication.AuthenticationSlice.Logout` | src/lib/features/authentication/authenticationSlice.ts:125-129 | whatever the prior state: cookie cleared, logged out, no user |
| `Authentication.AuthenticationSlice.CurrentUser` | src/lib/features/authentication/authenticationSlice.ts:130-164 | an absent or empty cookie gives logged out with no user; a cookie naming a stored record gives logged in with its public fields; a cookie naming no record gives logged out |
| `Authentication.AuthenticationSlice.UpdateProfile` | src/lib/features/authentication/authenticationSlice.ts:165-198 | rejects with "not found" and changes nothing when no record has the email; otherwise saves the stored record with the new names, email and country (password and preferences kept), at its own index when emails are distinct, and holds the given info; `isLoggedIn` and the cookie are untouched |
| `Authentication.AuthenticationSlice.UpdatePassword` | src/lib/features/authentication/authenticationSlice.ts:199-219 | rejects when no record has the email; otherwise only the stored record's password changes, at its own index when emails are distinct; the session state is untouched |
| `Authentication.AuthenticationSlice.ChangeTheme` | src/lib/features/authentication/authenticationSlice.ts:220-235 | a no-op without a held user or without their record; otherwise the stored preferences become exactly `{theme}` with every other field kept, and `selectUserTheme` then returns that theme |
| `Authentication.AuthenticationSlice.SelectUser` | src/lib/features/authentication/authenticationSlice.ts:238 | while the slice invariant holds, a logged-in state always selects a user |
| `Authentication.AuthenticationSlice.SelectUserTheme` | src/lib/features/authentication/authenticationSlice.ts:239-249 | "system" without a held user; the stored theme whenever the held user's record has preferences; any answer other than "system" is exactly that stored theme |
| `Theme.ContainsAt` | src/helpers/theme.ts:23-24 | `includes` is true whenever the part occurs at some index |
| `Theme.NoUnderscoreNoSeparator` | src/helpers/theme.ts:24 | a string without an underscore does not include "__" |
| `Theme.LightHasNoSeparator` | src/helpers/theme.ts:24-27 | "light" does not include "__", so it never collapses to "dark" |
| `Theme.GetThemeValue` | src/helpers/theme.ts:16-34 | the result always ends with the custom theme, and is either the custom theme itself or has the "__" separator right before it |
| `Theme.ThemeDefaults` | src/helpers/theme.ts:17-18 | with theme and system theme left out (defaults "system" and "light") the result is the custom theme |
| `Theme.SystemThemeFirst` | src/helpers/theme.ts:21 | "system" is replaced by the system theme before any other rule |
| `Theme.LightIsCustom` | src/helpers/theme.ts:31 | when the requested theme resolves to "light" the result is exactly the custom theme, whatever the prefix |
| `Theme.PlainRequest` | src/helpers/theme.ts:33 | a requested theme without the prefix, other than "light", gives requested + "__" + custom theme (so "dark" gives "dark__" + custom theme) |
| `Theme.PrefixedRequest` | src/helpers/theme.ts:23-33 | a requested theme containing the prefix gives "dark__" + custom theme when it contains "__", and the custom theme otherwise |
| `Theme.PrefixedSeparatorTheme` | src/helpers/theme.ts:23-33 | prefix + "__theme" resolves to "dark__" + custom theme |
| `Theme.PrefixedPlainTheme` | src/helpers/theme.ts:23-31 | prefix + "theme" (no separator) resolves to the custom theme |
| `Routing.Middleware` | src/middleware.ts:9-27 | continues exactly when (cookie set) differs from (path is "/signup"); a redirect goes to "/signup" without a cookie and to "/" with one, and never to the requested path |
| `Routing.CookieValueIrrelevant` | src/middleware.ts:13-16 | the decision depends only on whether the cookie is non-empty, not on its value |

## Left out

- Browser I/O. `localStorage`, `JSON.parse`/`JSON.stringify` and the nookies cookie calls are not modelled. The table is `StoredTable` (missing, not a list, or a list of records) and the cookie is an optional string. A `JSON.parse` exception on malformed text is not modelled.
- The cookie's name and its 30-day `maxAge`. The model holds only the cookie's value.
- The server-rendering checks `typeof window === "undefined"` in src/helpers/storage.ts are not modelled. The model is always in the browser.
- Timers and promises. Each thunk is one atomic step, so races between overlapping thunks are not modelled. Neither are the unreachable `!currentUser` checks inside the timeouts, nor the `resolve(null)` without `return` in `currentUser`: a settled promise ignores its second resolve.
- Rejection messages. They are the three kinds of `AuthError`, not the Portuguese strings. The reducers that rethrow on rejection are modelled as "state unchanged".
- `delete response.token` is not modelled. The public user value has no such field.
- The route matcher regex and the `NextRequest`/`NextResponse`/`cookies()` plumbing are not modelled.
- The React components, forms and their schema validation, the theme stylesheet map in src/styles/themes.ts and the store wiring in src/lib/store.ts are not modelled. They are markup and configuration.
- `CUSTOM_THEME_PREFIX` comes from src/lib/constants, which is not part of this model. It is a parameter, and `Theme.PlainRequest` gives "dark__" + custom theme for "dark" only when "dark" does not contain that prefix.
