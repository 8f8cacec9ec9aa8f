# The Gray Divide: character creation and dashboard rules

This project is a Dafny model of the small amount of logic in the web
front-end of "The Gray Divide". The logic sits in two pages:

- **Character creation** (`CreateCharacterPage`, `create_character.dfy`).
  A submission is validated in a fixed order: required fields first, then the
  session. The background determines the starting resources. The page builds
  the row for the `characters` table, and the store's answer decides between
  showing an error and navigating to `/dashboard`.
- **Dashboard** (`DashboardPage`, `dashboard.dfy`). `loadCharacter` resolves
  the visitor to `/sign-in`, `/create-character` or a character to display.
  The page then derives from the row the background label, the faction label
  and colour class (header and detail panel), the name line and the heat tile.

The other modules are supporting ones:

- `Text` (`text.dfy`) models the JavaScript string behaviour the pages rely
  on: `replace` with a string pattern, `toUpperCase` and integer-to-text.
- `Routes` (`routes.dfy`) holds the routes the pages push.
- `Wrappers` (`wrappers.dfy`) holds `Option`, which stands for `null` and
  `undefined`.

The remote calls become parameters:

- the signed-in user is an `Option<UserId>`;
- the insert is a function from the row to an `InsertResult`;
- the character query is a function from a user id to a `FetchResult`.

Points about the code worth knowing:

- A street kid keeps `clean_money = 100`. The code starts every background
  at a clean-money default of 100 and never lowers it.
- Required fields are checked before the session.
- The header faction label is only the underscore replacement, with no
  change of case. Only the detail panel upper-cases it.
- Unknown background ids silently receive the defaults 0/100/0.

Because of the third point, "Unaligned" in the header does not identify
`neutral` uniquely: a stored faction `Unaligned` renders the same way.
`HeaderUnalignedExactly` states this. In the detail panel the identification
is exact (`DetailUnalignedExactly`).

## Model

| member | source | states |
|---|---|---|
| CreateCharacterPage.BackgroundTableIds | app/create-character/page.tsx:16-35 | the background table has three entries with pairwise distinct ids, and its ids are exactly street_kid, academy_graduate and civilian |
| CreateCharacterPage.StartingStats | app/create-character/page.tsx:58-70 | street_kid gives 50/100/10, academy_graduate 0/100/10, civilian 0/200/0; every value is non-negative; the result equals the defaults 0/100/0 exactly when the id is not one of the three known ones |
| CreateCharacterPage.OfferedBackgroundsAdjustStats | app/create-character/page.tsx:16-35 | every background the page offers changes at least one starting value, so only an id the page never offers gets the plain defaults |
| CreateCharacterPage.AliasOrNull | app/create-character/page.tsx:78 | the stored alias is null exactly when the typed alias is empty, and otherwise it is the typed alias verbatim |
| CreateCharacterPage.InsertRow | app/create-character/page.tsx:72-83 | the inserted row carries the session user's id and the form's first name, last name and background unchanged; its alias is normalised as above; its resources are the background's starting stats |
| CreateCharacterPage.Submit | app/create-character/page.tsx:37-92 | the outcome is the field error exactly when a required field is empty, whatever the session; it is the login error exactly when all fields are present and there is no user; a row is sent exactly when fields and user are present, and it is that user's row; a refused insert carries the store's message; navigation happens exactly when the store accepts the row, and it goes to /dashboard |
| CreateCharacterPage.MissingFieldWins | app/create-character/page.tsx:42-46 | with an empty first name, last name or background, the page shows "Please fill in all required fields", inserts nothing and pushes no route, for every session and store answer |
| CreateCharacterPage.SignedOutBlocksInsert | app/create-character/page.tsx:48-56 | with all required fields present and no user, the page shows "You must be logged in to create a character" and inserts and pushes nothing |
| CreateCharacterPage.NavigateOnlyAfterInsert | app/create-character/page.tsx:85-91 | a route is pushed exactly when the store accepted the sent row; the route is the dashboard and the error text is then empty; after a refused insert nothing is pushed and the store's message is shown verbatim |
| DashboardPage.LoadCharacter | app/dashboard/page.tsx:28-53 | no user goes to /sign-in; a user whose own query returns an error or no row goes to /create-character; otherwise the outcome is Ready with that row; the three cases are exclusive and checked in this order |
| DashboardPage.SignInCheckFirst | app/dashboard/page.tsx:35-38 | without a user the outcome is /sign-in whatever the store would answer |
| DashboardPage.BackgroundLabel | app/dashboard/page.tsx:68-72 | the three known ids show their display names; any other stored background is shown verbatim (the `??` fallback used on line 160) |
| DashboardPage.BackgroundLabelsMatchCreationTable | app/dashboard/page.tsx:68-72 | for every background the creation page offers, the dashboard label equals the name the creation page shows for it |
| DashboardPage.HeaderFactionLabel | app/dashboard/page.tsx:98-100 | neutral shows "Unaligned"; any other faction keeps its length |
| DashboardPage.HeaderLabelReplacesFirstUnderscore | app/dashboard/page.tsx:100 | for a non-neutral faction without an underscore the label is the faction itself; otherwise only the first underscore becomes a space and every later character is kept |
| DashboardPage.HeaderUnalignedExactly | app/dashboard/page.tsx:98-100 | the header reads "Unaligned" exactly for the stored values "neutral" and "Unaligned" |
| DashboardPage.DetailFactionLabel | app/dashboard/page.tsx:165-167 | neutral shows "Unaligned"; any other faction shows the upper-cased header label |
| DashboardPage.DetailUnalignedExactly | app/dashboard/page.tsx:165-167 | the detail panel reads "Unaligned" exactly when the faction is neutral |
| DashboardPage.HeaderFactionColor | app/dashboard/page.tsx:95 | neutral is grey, criminal red and law_enforcement blue; any other faction falls back to grey |
| DashboardPage.DetailFactionColor | app/dashboard/page.tsx:164 | the same three classes, and no class at all exactly when the faction is none of the three |
| DashboardPage.FactionColorsAgree | app/dashboard/page.tsx:74-78 | the header class is the detail-panel class when there is one, and the grey fallback otherwise |
| DashboardPage.NameLine | app/dashboard/page.tsx:87-91 | the line starts with first name, space, last name; it is longer than that exactly when the alias is non-null and non-empty, and the rest is then a space and the alias in double quotes |
| DashboardPage.HeatText | app/dashboard/page.tsx:131-133 | the heat tile ends in "%"; the text before it reads back as the heat value, starts with a minus sign exactly for negative heat, and has the canonical shape of `String(n)` (no leading zero, no negative zero), which by `Text.IntToDecimalUnique` fixes it completely |
| DashboardPage.CreatedCharacterDisplay | app/create-character/page.tsx:72-91 | after a submission that navigates, if the store answers the dashboard's query with the inserted row, loading ends in Ready with that row, and it shows the typed names, the typed alias in quotes exactly when one was typed, the background under its creation-page name, and the background's starting resources |
| Text.IndexOf | app/dashboard/page.tsx:100 | the position returned holds the searched character and no earlier position does; there is none exactly when the character does not occur |
| Text.ReplaceFirst | app/dashboard/page.tsx:100 | replacing one character by another keeps the string's length |
| Text.ReplaceFirstSpec | app/dashboard/page.tsx:100 | `replace` with a one-character pattern leaves a string without it unchanged and otherwise overwrites only its first occurrence |
| Text.ReplaceFirstPointwise | app/dashboard/page.tsx:100 | each position of the result is the replacement exactly at the first occurrence and the original character elsewhere |
| Text.ToUpper | app/dashboard/page.tsx:167 | upper-casing keeps the length, maps each character through its capital and leaves no lower-case ASCII letter |
| Text.NatToDecimal | app/dashboard/page.tsx:132 | the decimal text of a number is non-empty, all digits, and starts with 0 only for zero itself |
| Text.NatDecimalRoundTrip | app/dashboard/page.tsx:132 | reading back the decimal text of a natural number gives the number |
| Text.IntToDecimal | app/dashboard/page.tsx:132 | the text of an integer starts with a minus sign exactly when it is negative; the digits after it are non-empty, have no leading zero, and start with 0 only for zero |
| Text.CanonicalDecimalUnique | app/dashboard/page.tsx:132 | a digit string without a leading zero is the decimal text of its own value |
| Text.IntToDecimalUnique | app/dashboard/page.tsx:132 | the text of `n` is the only string of that canonical shape that parses to `n` |
| Text.IntDecimalRoundTrip | app/dashboard/page.tsx:132 | reading back the text of any integer, with a minus sign for negatives, gives the integer |

## Left out

- Remote calls are not modelled: `auth.getUser`, the `characters` insert and select, and `auth.signOut`. Their answers are parameters, and the library behind them is not part of this model.
- One character per account is not proved. Whether the store refuses a second row depends on the database schema, which is not part of this model. A refusal reaches the page only as an `InsertFailed` message.
- DashboardPage.CreatedCharacterDisplay: assumes the store answers the dashboard's query with the inserted columns unchanged. The store's behaviour is not part of this model, so the lemma takes that answer as a precondition.
- Store-side column defaults are a parameter (`StoreDefaults`) of `DashboardPage.Stored`, not proved values. These cover the row id, faction, rank, xp and heat of a new row, and the schema that sets them is not part of this model.
- Money is formatted with `toLocaleString` (app/dashboard/page.tsx:142,148). This depends on the locale and the runtime, so it is treated as opaque presentation.
- The rank, XP and reputation tiles are not modelled separately. They print the number as `HeatText` does, without the percent sign.
- React plumbing is not modelled: state hooks, the loading flag, `useEffect` and the logout button's push to `/`. Of `router.push` only the route value is kept.
- app/page.tsx is a static landing page with links only, so it has no logic to model.
- app/auth/login/page.tsx is left out. Its only logic is a redirect to `/dashboard` when a user is present, around a login form that is not part of this model.
- Text.ToUpper: models ASCII letters only. JavaScript's `toUpperCase` also maps other letters, some of them to two characters (`ß` to `SS`), so for non-ASCII factions the stated length preservation is a property of the model only.
- DashboardPage.HeatText: models integral heat only. A fractional heat or a magnitude of 10^21 or more would print differently in JavaScript.
- DashboardPage.BackgroundLabel: models only the map's own keys. A stored value that names an inherited object property, such as `toString`, would look up a function in JavaScript rather than fall back.
- DashboardPage.HeaderFactionColor: models only the map's own keys, for the same reason as BackgroundLabel.
- DashboardPage.DetailFactionColor: models only the map's own keys, for the same reason as BackgroundLabel.
