/** The submit rules of the character-creation page
    (app/create-character/page.tsx): required-field validation, the session
    check, the starting resources a background grants, the row sent to the
    `characters` table and what the page does with the insert's answer.

    The remote session lookup and the insert are not modelled; their
    answers are parameters: the signed-in user (if any) and a function from
    the row that would be inserted to the store's reply. */
module CreateCharacterPage {
  import opened Wrappers
  import opened Routes

  type UserId = string

  /** One entry of the page's `backgrounds` table. */
  datatype BackgroundDef = BackgroundDef(
    id: string,
    name: string,
    description: string,
    startingBonus: string)

  /** The backgrounds the page offers, in display order. Clicking an entry
      sets the form's background to its `id`. */
  const Backgrounds: seq<BackgroundDef> := [
    BackgroundDef(
      "street_kid", "Street Kid",
      "You grew up on the streets. You know how the underground works and have connections to the criminal world.",
      "+10 Street Reputation, +$50 Dirty Money"),
    BackgroundDef(
      "academy_graduate", "Academy Graduate",
      "You graduated from the police academy. You believe in justice and have connections in law enforcement.",
      "+10 Professional Reputation, Badge Access"),
    BackgroundDef(
      "civilian", "Civilian",
      "You're an ordinary citizen. No connections, no baggage - a blank slate that can go either way.",
      "+$100 Clean Money, Neutral Standing")
  ]

  const KnownBackgroundIds: set<string> := {"street_kid", "academy_graduate", "civilian"}

  /** The table offers exactly the three known backgrounds, each once. */
  lemma BackgroundTableIds()
    ensures |Backgrounds| == 3
    ensures forall i, j :: 0 <= i < j < |Backgrounds| ==> Backgrounds[i].id != Backgrounds[j].id
    ensures (set b | b in Backgrounds :: b.id) == KnownBackgroundIds
  {
    var ids := set b | b in Backgrounds :: b.id;
    assert Backgrounds[0].id in ids && Backgrounds[1].id in ids && Backgrounds[2].id in ids;
  }

  /** Starting resources written into a new character row. */
  datatype Stats = Stats(dirtyMoney: int, cleanMoney: int, reputation: int)

  /** The values every background starts from before its own adjustments. */
  const DefaultStats := Stats(0, 100, 0)

  /** Starting resources for a background id. The page starts from the
      defaults and lets each known background adjust some of them; nothing
      resets the clean money of a street kid, so it keeps the default 100.
      Any other id, however it reached the submit handler, silently gets
      the defaults. */
  function StartingStats(background: string): (s: Stats)
    ensures s.dirtyMoney >= 0 && s.cleanMoney >= 0 && s.reputation >= 0
    ensures background == "street_kid" ==> s == Stats(50, 100, 10)
    ensures background == "academy_graduate" ==> s == Stats(0, 100, 10)
    ensures background == "civilian" ==> s == Stats(0, 200, 0)
    ensures s == DefaultStats <==> background !in KnownBackgroundIds
  {
    var base := DefaultStats;
    if background == "street_kid" then base.(dirtyMoney := 50, reputation := 10)
    else if background == "academy_graduate" then base.(reputation := 10)
    else if background == "civilian" then base.(cleanMoney := 200)
    else base
  }

  /** `alias || null`: an empty alias is stored as null, any other alias
      verbatim. */
  function AliasOrNull(alias: string): (r: Option<string>)
    ensures r == None <==> alias == ""
    ensures r.Some? ==> r.value == alias
  {
    if alias == "" then None else Some(alias)
  }

  /** The row the page asks the store to insert into `characters`. */
  datatype NewCharacter = NewCharacter(
    userId: UserId,
    firstName: string,
    lastName: string,
    alias: Option<string>,
    background: string,
    dirtyMoney: int,
    cleanMoney: int,
    reputation: int)
  {
    function Resources(): Stats {
      Stats(dirtyMoney, cleanMoney, reputation)
    }
  }

  /** The row built for a signed-in user: identity and background copied
      from the form, alias normalised, resources derived from the
      background. */
  function InsertRow(user: UserId, firstName: string, lastName: string, alias: string, background: string)
    : (row: NewCharacter)
    ensures row.userId == user
    ensures row.firstName == firstName && row.lastName == lastName && row.background == background
    ensures row.alias.None? <==> alias == ""
    ensures row.alias.Some? ==> row.alias.value == alias
    ensures row.Resources() == StartingStats(background)
  {
    var s := StartingStats(background);
    NewCharacter(user, firstName, lastName, AliasOrNull(alias), background,
                 s.dirtyMoney, s.cleanMoney, s.reputation)
  }

  /** The store's reply to an insert; a failure carries the error's
      `message`, which may be any string. */
  datatype InsertResult = Inserted | InsertFailed(message: string)

  const MissingFieldsMessage := "Please fill in all required fields"
  const NotSignedInMessage := "You must be logged in to create a character"

  /** What one submission ends in. The two later outcomes carry the row that
      was sent to the store. */
  datatype Outcome =
    | FieldError
    | AuthError
    | InsertError(row: NewCharacter, message: string)
    | Navigate(row: NewCharacter, route: Route)
  {
    /** The page's `error` state after the submission (cleared to "" when
        the handler starts). */
    function ErrorText(): string {
      match this
      case FieldError => MissingFieldsMessage
      case AuthError => NotSignedInMessage
      case InsertError(_, m) => m
      case Navigate(_, _) => ""
    }

    /** The row handed to the store, if the handler got as far as the insert. */
    function Written(): Option<NewCharacter> {
      match this
      case InsertError(r, _) => Some(r)
      case Navigate(r, _) => Some(r)
      case _ => None
    }

    /** The route pushed, if any. */
    function Pushed(): Option<Route> {
      if Navigate? then Some(route) else None
    }
  }

  /** The test `!firstName || !lastName || !background` in `handleSubmit`
      fails exactly when each required field is a non-empty string. */
  predicate RequiredFieldsPresent(firstName: string, lastName: string, background: string) {
    firstName != "" && lastName != "" && background != ""
  }

  /** `handleSubmit`: fields first, then the session, then the insert. */
  function Submit(
    firstName: string, lastName: string, alias: string, background: string,
    user: Option<UserId>, insert: NewCharacter -> InsertResult): (o: Outcome)
    ensures o == FieldError <==> !RequiredFieldsPresent(firstName, lastName, background)
    ensures o == AuthError <==> RequiredFieldsPresent(firstName, lastName, background) && user.None?
    ensures o.Written().Some? <==> RequiredFieldsPresent(firstName, lastName, background) && user.Some?
    ensures o.Written().Some? ==>
      o.Written().value == InsertRow(user.value, firstName, lastName, alias, background)
    ensures o.InsertError? ==> insert(o.row) == InsertFailed(o.message)
    ensures o.Navigate? <==> o.Written().Some? && insert(o.Written().value) == Inserted
    ensures o.Navigate? ==> o.route == Dashboard && o.route.Path() == "/dashboard"
  {
    if !RequiredFieldsPresent(firstName, lastName, background) then FieldError
    else if user.None? then AuthError
    else
      var row := InsertRow(user.value, firstName, lastName, alias, background);
      match insert(row)
      case InsertFailed(m) => InsertError(row, m)
      case Inserted => Navigate(row, Dashboard)
  }

  /** A missing required field is reported whatever the session and the
      store would have said: nothing is inserted and nothing is pushed. */
  lemma MissingFieldWins(
    firstName: string, lastName: string, alias: string, background: string,
    user: Option<UserId>, insert: NewCharacter -> InsertResult)
    requires firstName == "" || lastName == "" || background == ""
    ensures var o := Submit(firstName, lastName, alias, background, user, insert);
      o.ErrorText() == MissingFieldsMessage && o.Written() == None && o.Pushed() == None
  {
  }

  /** With every field present but nobody signed in, the login message is
      shown and nothing is inserted or pushed. */
  lemma SignedOutBlocksInsert(
    firstName: string, lastName: string, alias: string, background: string,
    insert: NewCharacter -> InsertResult)
    requires RequiredFieldsPresent(firstName, lastName, background)
    ensures var o := Submit(firstName, lastName, alias, background, None, insert);
      o.ErrorText() == NotSignedInMessage && o.Written() == None && o.Pushed() == None
  {
  }

  /** The page navigates exactly when the store accepted the row, always to
      the dashboard, and then shows no error; a refused insert shows the
      store's message verbatim and stays on the page. */
  lemma NavigateOnlyAfterInsert(
    firstName: string, lastName: string, alias: string, background: string,
    user: Option<UserId>, insert: NewCharacter -> InsertResult)
    ensures var o := Submit(firstName, lastName, alias, background, user, insert);
      (o.Pushed().Some? <==> o.Written().Some? && insert(o.Written().value).Inserted?)
      && (o.Pushed().Some? ==> o.Pushed() == Some(Dashboard) && o.ErrorText() == "")
      && (o.Written().Some? && insert(o.Written().value).InsertFailed? ==>
            o.Pushed() == None && o.ErrorText() == insert(o.Written().value).message)
  {
  }

  /** Every background the page offers changes at least one starting value,
      so only an id the page never offers ends up with the plain defaults. */
  lemma OfferedBackgroundsAdjustStats()
    ensures forall b :: b in Backgrounds ==> StartingStats(b.id) != DefaultStats
  {
  }
}
