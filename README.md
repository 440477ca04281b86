# CTF landing page: user session and profile view

This model covers the logic in the landing page of a student CTF event
(`src/components/HomePage.jsx`). Everything else in that file is layout.
There are three parts:

- **Storage key** (`email_key.dfy`, module `EmailKey`). `sanitizeEmail`
  turns the signed-in user's email into a database key. It replaces every
  `.` with `_dot_`, then every `@` with `_at_`. The model writes this as two
  chained `ReplaceAll` passes, as the source does. It proves that the two
  passes equal one per-character translation (`EscapeEach`). It also proves
  which characters the key cannot contain, the key's exact length, that the
  key is idempotent, and that it is not injective.
- **Auth-state callback** (`home_page.dfy`, module `HomePage`). Class `App`
  holds the component's five `useState` cells: `user`, `name`, `score`,
  `loading` and `expanded`. One call of `App.OnAuthStateChanged` is one run
  of the callback registered with `onAuthStateChanged`. It runs the setters
  in the source's order. Its two `await get(...)` reads are looked up,
  already resolved, in a `Database` value (`realtime_db.dfy`, module
  `RealtimeDb`). That value holds the `users` and `scores` records keyed by
  storage key, plus the set of paths whose read rejects. The method returns
  the paths it read, in order, and whether the callback returned or threw.
  A ghost result records the cells at each `await`.
- **Profile section** (`profile_view.dfy`, module `ProfileView`).
  `ProfileSection` chooses among the loading skeleton, the "Authentication
  Required" prompt and the profile card. The card shows the user's email
  and score.

Behaviour worth noting:

- A sign-out sets `user` to null and clears `loading`. It does not reset
  `name` or `score` (`HomePage.SignInThenSignOut`).
- A profile record that is missing, is an object without a truthy `name`,
  or has any other shape leaves the previous `name` in place. The cell is
  not reset to an empty string.
- A read whose promise rejects is not treated as a missing record. The
  exception escapes the async callback, so `setLoading(false)` never runs
  and the skeleton stays on screen (`HomePage.RefusedReadKeepsSkeleton`).
  A rejected profile read also stops the score read from being issued.
- A signed-in user whose email is null makes `sanitizeEmail` throw. The
  user cell is already set, nothing is read, and `loading` stays true.
- `sanitizeEmail` removes only `.` and `@`. An email holding a character
  that the database's `ref` refuses in a path (`#`, `$`, `[`, `]` or an
  ASCII control character) keeps it in the key, so `ref` throws before any
  read and `loading` stays true (`HomePage.RefusedPathKeepsSkeleton`).
- The two reads are sequential, not concurrent. The score read is issued
  only after the profile read has resolved.
- The key of `a.b@c.com` is `a_dot_b_at_c_dot_com`: the dot in the domain
  is replaced as well (`EmailKey.SanitizeExample`).
- The fetched `name` is never shown. The profile card displays only the
  email and the score.

## Model

| member | source | states |
|---|---|---|
| `EmailKey.ReplaceAll` | src/components/HomePage.jsx:8 | a global replacement of one character leaves no occurrence of it when the replacement text lacks it |
| `EmailKey.ReplaceAllLength` | src/components/HomePage.jsx:8 | a global replacement turns each occurrence into as many characters as the replacement text has |
| `EmailKey.SanitizeEmail` | src/components/HomePage.jsx:7-9 | the derived key contains no `.` and no `@` |
| `EmailKey.SanitizeIsEscapeEach` | src/components/HomePage.jsx:7-9 | the two chained replacements equal a per-character map: `.`→`_dot_`, `@`→`_at_`, every other character kept in order |
| `EmailKey.SanitizeLength` | src/components/HomePage.jsx:8 | key length = email length + 4 per `.` + 3 per `@` |
| `EmailKey.SanitizeIdentity` | src/components/HomePage.jsx:8 | an email with no `.` and no `@` is its own key |
| `EmailKey.SanitizeIdempotent` | src/components/HomePage.jsx:8 | deriving the key of a key gives the same key |
| `EmailKey.ReplaceAllKeepsCount` | src/components/HomePage.jsx:8 | replacing `.` by `_dot_` leaves the number of `@` unchanged, which is why the order of the two passes does not matter for the length |
| `EmailKey.ReplaceAllIdentity` | src/components/HomePage.jsx:8 | replacing a character absent from the string changes nothing |
| `EmailKey.SanitizeAppend` | src/components/HomePage.jsx:8 | the key of a concatenation is the concatenation of the keys |
| `EmailKey.KeyCollisionDot` | src/components/HomePage.jsx:8 | for all strings s and t, the distinct emails s.t and s_dot_t share a key |
| `EmailKey.KeyCollisionAt` | src/components/HomePage.jsx:8 | for all strings s and t, the distinct emails s@t and s_at_t share a key |
| `EmailKey.DistinctEmailsShareKey` | src/components/HomePage.jsx:8 | `a.b` and `a_dot_b` are different emails with the same key |
| `EmailKey.KeyOfDottedAddress` | src/components/HomePage.jsx:7-9 | for parts a, b, c, d free of `.` and `@`, the key of a.b@c.d is a_dot_b_at_c_dot_d |
| `EmailKey.SanitizeExample` | src/components/HomePage.jsx:7-9 | the key of `a.b@c.com` is `a_dot_b_at_c_dot_com` |
| `ProfileView.ProfileSection` | src/components/HomePage.jsx:121-164 | exactly one block is shown: skeleton iff loading; sign-in prompt iff not loading and no user; otherwise the profile card with the user's email and the score |
| `HomePage.App.constructor` | src/components/HomePage.jsx:12-16 | initial cells: no user, empty name, score 0, loading, not expanded; the skeleton is shown |
| `HomePage.App.ToggleExpanded` | src/components/HomePage.jsx:274 | flips `expanded` and leaves the other four cells unchanged |
| `HomePage.App.OnAuthStateChanged` | src/components/HomePage.jsx:19-50 | null event: no reads, user null, name and score kept, loading false. Signed-in event: user set first; reads `users/<key>` then `scores/<key>`; name becomes the object's truthy `name` or the bare string, otherwise stays; score becomes the stored value or 0; loading false. A null email, a key that `ref` refuses in a path (then nothing is read), or a rejected read throws: later setters skipped, loading stays true. At every `await`, loading is true and the skeleton is shown |
| `HomePage.SignInThenSignOut` | src/components/HomePage.jsx:19-50 | for an email whose key `ref` accepts, after signing in with profile "Alice" and score 42 and then signing out, the prompt is shown while name and score still hold "Alice" and 42 |
| `RealtimeDb.RecordPathsValid` | src/components/HomePage.jsx:26 | `ref` accepts `users/<key>`, and equally `scores/<key>`, exactly when the key holds no refused character, so the second `ref` (line 39) cannot throw once the first has not |
| `HomePage.KeyKeepsRefusedChar` | src/components/HomePage.jsx:7-9 | a refused path character other than `.` in the email survives into the key, so `ref` refuses the key |
| `HomePage.RefusedPathKeepsSkeleton` | src/components/HomePage.jsx:19-50 | an email holding `#` issues no read and leaves the skeleton |
| `HomePage.RefusedReadKeepsSkeleton` | src/components/HomePage.jsx:19-50 | for an email whose key `ref` accepts, when the profile read is refused, only `users/<key>` is read and the skeleton stays |

## Left out

- The Firebase calls `onAuthStateChanged`, `ref` and `get` are not modelled. Their results are inputs: the event, and reads looked up in a `Database` value. Of `ref`, only its refusal of the characters `[ ] . # $` and ASCII control characters in a path is modelled (`RealtimeDb.ValidPath`). Its other path limits, such as length, are not. The database is two flat maps, not Firebase's nested tree, and a read is not affected by data stored under deeper paths.
- A second auth event that arrives while an earlier run is still waiting on a read is not modelled, so interleaved runs are not covered. The code has no guard against a stale run writing over a newer one. Each `OnAuthStateChanged` call runs to completion.
- Unsubscribing on unmount is not modelled. It is lifecycle plumbing with no logic.
- `HomePage.App.OnAuthStateChanged` stores only integer scores and string `name` properties. A score record of another JSON type, or a `name` property that is a truthy non-string, would reach the state cells unchanged in the source. The model omits those values.
- React's batching and re-render scheduling are reduced to one fact: at each `await`, the cells are recorded as a possible render point.
- All JSX layout, styling and icons are left out. So are the static `rules`, `guidelines` and `contacts` arrays and the footer year from `new Date()`, which depends on the clock.
- The challenge catalogue in `src/data/challenges.js` is static data that no code in the page processes.
