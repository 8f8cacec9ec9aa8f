/** The dashboard page (app/dashboard/page.tsx): where `loadCharacter`
    sends the visitor, and the text and colour classes the page derives
    from a character row.

    The session lookup and the `characters` query are not modelled; their
    answers are parameters: the signed-in user (if any) and a function from
    a user id to the query's reply. */
module DashboardPage {
  import opened Wrappers
  import opened Routes
  import opened Text
  import CreateCharacterPage

  /** A row of the `characters` table as the dashboard reads it. */
  datatype Character = Character(
    id: string,
    firstName: string,
    lastName: string,
    alias: Option<string>,
    background: string,
    currentFaction: string,
    rank: int,
    xp: int,
    dirtyMoney: int,
    cleanMoney: int,
    heat: int,
    reputation: int)

  /** The reply of `.select("*").eq("user_id", id).single()`: an error
      object (kept as its message) and the row, each possibly absent. */
  datatype FetchResult = FetchResult(error: Option<string>, data: Option<Character>)

  /** Where loading ends: a redirect, or the character to display. */
  datatype LoadOutcome = Redirect(route: Route) | Ready(character: Character)

  /** `loadCharacter`: no user goes to sign-in; a failed or empty query for
      the user's own id goes to character creation; otherwise the row is
      shown. */
  function LoadCharacter(user: Option<CreateCharacterPage.UserId>, query: CreateCharacterPage.UserId -> FetchResult): (o: LoadOutcome)
    ensures o == Redirect(SignIn) <==> user.None?
    ensures o == Redirect(CreateCharacter) <==>
      user.Some? && (query(user.value).error.Some? || query(user.value).data.None?)
    ensures o.Ready? <==>
      user.Some? && query(user.value).error.None? && query(user.value).data.Some?
    ensures o.Ready? ==> o.character == query(user.value).data.value
    ensures o.Redirect? ==> o.route != Dashboard
    ensures o.Redirect? ==> o.route.Path() in {"/sign-in", "/create-character"}
  {
    if user.None? then Redirect(SignIn)
    else
      var reply := query(user.value);
      if reply.error.Some? || reply.data.None? then Redirect(CreateCharacter)
      else Ready(reply.data.value)
  }

  /** The query is only consulted for a signed-in user: without one, no
      answer of the store changes the outcome. */
  lemma SignInCheckFirst(q1: CreateCharacterPage.UserId -> FetchResult, q2: CreateCharacterPage.UserId -> FetchResult)
    ensures LoadCharacter(None, q1) == LoadCharacter(None, q2) == Redirect(SignIn)
  {
  }

  /** `backgroundNames`. */
  const BackgroundNames: map<string, string> := map[
    "street_kid" := "Street Kid",
    "academy_graduate" := "Academy Graduate",
    "civilian" := "Civilian"]

  /** `factionColors`. */
  const FactionColors: map<string, string> := map[
    "neutral" := "text-gray-400",
    "criminal" := "text-red-400",
    "law_enforcement" := "text-blue-400"]

  const FallbackColor := "text-gray-400"

  /** `backgroundNames[background] ?? background`: the display name of a
      known background, the stored value verbatim otherwise. */
  function BackgroundLabel(background: string): (r: string)
    ensures background == "street_kid" ==> r == "Street Kid"
    ensures background == "academy_graduate" ==> r == "Academy Graduate"
    ensures background == "civilian" ==> r == "Civilian"
    ensures background !in CreateCharacterPage.KnownBackgroundIds ==> r == background
  {
    if background in BackgroundNames then BackgroundNames[background] else background
  }

  /** The dashboard names each background exactly as the creation page's
      table does, so a background picked on that page is shown under the
      name it was offered with. */
  lemma BackgroundLabelsMatchCreationTable()
    ensures forall b :: b in CreateCharacterPage.Backgrounds ==> BackgroundLabel(b.id) == b.name
  {
  }

  /** The faction text in the header: "Unaligned" for `neutral`, otherwise
      the stored value with its first underscore replaced by a space. */
  function HeaderFactionLabel(faction: string): (r: string)
    ensures faction == "neutral" ==> r == "Unaligned"
    ensures faction != "neutral" ==> |r| == |faction|
  {
    if faction == "neutral" then "Unaligned" else ReplaceFirst(faction, '_', ' ')
  }

  /** The faction text in the detail panel: the header's rule, upper-cased
      unless it is "Unaligned". */
  function DetailFactionLabel(faction: string): (r: string)
    ensures faction == "neutral" ==> r == "Unaligned"
    ensures faction != "neutral" ==> r == ToUpper(HeaderFactionLabel(faction))
  {
    if faction == "neutral" then "Unaligned" else ToUpper(ReplaceFirst(faction, '_', ' '))
  }

  /** For a faction other than `neutral`, only its first underscore becomes
      a space: every other character, later underscores included, is kept. */
  lemma HeaderLabelReplacesFirstUnderscore(faction: string)
    requires faction != "neutral"
    ensures '_' !in faction ==> HeaderFactionLabel(faction) == faction
    ensures '_' in faction ==>
      var i := IndexOf(faction, '_').value;
      HeaderFactionLabel(faction) == faction[..i] + " " + faction[i + 1..]
  {
    ReplaceFirstSpec(faction, '_', ' ');
  }

  /** The header shows "Unaligned" for `neutral` and, since a value without
      an underscore is shown as stored, also for a stored "Unaligned"; for
      no other faction. */
  lemma HeaderUnalignedExactly(faction: string)
    ensures HeaderFactionLabel(faction) == "Unaligned" <==> faction == "neutral" || faction == "Unaligned"
  {
    if faction != "neutral" {
      ReplaceFirstSpec(faction, '_', ' ');
      if '_' in faction {
        var i := IndexOf(faction, '_').value;
        assert HeaderFactionLabel(faction)[i] == ' ';
        assert ' ' !in "Unaligned";
      }
    }
  }

  /** The detail panel shows "Unaligned" exactly for `neutral`: any other
      value is upper-cased, and "Unaligned" has lower-case letters. */
  lemma DetailUnalignedExactly(faction: string)
    ensures DetailFactionLabel(faction) == "Unaligned" <==> faction == "neutral"
  {
    var r := DetailFactionLabel(faction);
    if faction != "neutral" && |r| == |"Unaligned"| {
      assert !IsLowerAscii(r[1]) && IsLowerAscii("Unaligned"[1]);
    }
  }

  /** `factionColors[faction] || "text-gray-400"`: the header's colour
      class, grey for any faction the map does not know. */
  function HeaderFactionColor(faction: string): (r: string)
    ensures faction == "neutral" ==> r == "text-gray-400"
    ensures faction == "criminal" ==> r == "text-red-400"
    ensures faction == "law_enforcement" ==> r == "text-blue-400"
    ensures faction !in {"neutral", "criminal", "law_enforcement"} ==> r == FallbackColor
  {
    if faction in FactionColors && FactionColors[faction] != "" then FactionColors[faction]
    else FallbackColor
  }

  /** `factionColors[faction]` in the detail panel: no fallback, so an
      unknown faction gets no class at all. */
  function DetailFactionColor(faction: string): (r: Option<string>)
    ensures r.None? <==> faction !in {"neutral", "criminal", "law_enforcement"}
    ensures faction == "neutral" ==> r == Some("text-gray-400")
    ensures faction == "criminal" ==> r == Some("text-red-400")
    ensures faction == "law_enforcement" ==> r == Some("text-blue-400")
  {
    if faction in FactionColors then Some(FactionColors[faction]) else None
  }

  /** The two colour rules agree wherever the detail panel has a class, and
      the header's fallback is exactly what the panel lacks. */
  lemma FactionColorsAgree(faction: string)
    ensures HeaderFactionColor(faction) == DetailFactionColor(faction).GetOr(FallbackColor)
  {
  }

  /** `{character.alias && ...}`: a null or empty alias is not shown. */
  predicate AliasShown(c: Character) {
    c.alias.Some? && c.alias.value != ""
  }

  /** The header's name line: first and last name separated by a space,
      followed by ` "alias"` when the alias is shown. */
  function NameLine(c: Character): (r: string)
    ensures |c.firstName + " " + c.lastName| <= |r|
    ensures r[..|c.firstName + " " + c.lastName|] == c.firstName + " " + c.lastName
    ensures !AliasShown(c) <==> |r| == |c.firstName + " " + c.lastName|
    ensures AliasShown(c) ==> r[|c.firstName + " " + c.lastName|..] == " \"" + c.alias.value + "\""
  {
    var name := c.firstName + " " + c.lastName;
    if AliasShown(c) then name + " \"" + c.alias.value + "\"" else name
  }

  /** The heat tile: the heat value followed by a percent sign. */
  function HeatText(heat: int): (r: string)
    ensures |r| >= 2 && r[|r| - 1] == '%'
    ensures ParseInt(r[..|r| - 1]) == Some(heat)
    ensures IsCanonicalInt(r[..|r| - 1])
    ensures r[0] == '-' <==> heat < 0
  {
    var digits := IntToDecimal(heat);
    IntDecimalRoundTrip(heat);
    assert (digits + "%")[..|digits|] == digits;
    digits + "%"
  }

  /** Column values the store fills in for a freshly inserted row; the
      schema that chooses them is not part of this model. */
  datatype StoreDefaults = StoreDefaults(id: string, faction: string, rank: int, xp: int, heat: int)

  /** The row the dashboard reads back after the creation page inserted
      `row`: the inserted columns as sent, the rest from the store. */
  function Stored(row: CreateCharacterPage.NewCharacter, d: StoreDefaults): Character {
    Character(d.id, row.firstName, row.lastName, row.alias, row.background, d.faction,
              d.rank, d.xp, row.dirtyMoney, row.cleanMoney, d.heat, row.reputation)
  }

  /** End to end: after a successful submission, when the store answers
      the dashboard's query with the inserted row, loading shows that row,
      and the dashboard displays the names typed on the form, the typed
      alias in quotes exactly when one was typed, the background under the
      name the creation page offered it with, and the background's starting
      resources. */
  lemma CreatedCharacterDisplay(
    firstName: string, lastName: string, alias: string, background: string,
    user: Option<CreateCharacterPage.UserId>,
    insert: CreateCharacterPage.NewCharacter -> CreateCharacterPage.InsertResult,
    d: StoreDefaults, query: CreateCharacterPage.UserId -> FetchResult)
    requires CreateCharacterPage.Submit(firstName, lastName, alias, background, user, insert).Navigate?
    requires user.Some? && query(user.value) ==
      FetchResult(None, Some(Stored(CreateCharacterPage.Submit(firstName, lastName, alias, background, user, insert).row, d)))
    ensures LoadCharacter(user, query).Ready?
    ensures var c := LoadCharacter(user, query).character;
      && NameLine(c) == firstName + " " + lastName + (if alias == "" then "" else " \"" + alias + "\"")
      && (forall b :: b in CreateCharacterPage.Backgrounds && b.id == background ==> BackgroundLabel(c.background) == b.name)
      && CreateCharacterPage.Stats(c.dirtyMoney, c.cleanMoney, c.reputation)
           == CreateCharacterPage.StartingStats(background)
  {
  }
}
