/** The player-setup screen (app/private/page.tsx): editing the roster, choosing the
    single judge, validating the form, and the rows `startGame` writes for the first
    round. Every database insert is a reply passed in by the caller. */
module Roster {
  import opened Wrappers
  import opened Seqs
  import Text

  /** One row of the setup form (`PlayerData` in lib/types/game.ts). */
  datatype PlayerData = PlayerData(name: string, isJudge: bool)

  /** The form starts with a single blank, non-judge row. */
  const InitialRoster: seq<PlayerData> := [PlayerData("", false)]

  /** The row `addPlayer` appends. */
  const BlankPlayer: PlayerData := PlayerData("", false)

  /** The invariant of the screen: no two rows are marked as judge. */
  ghost predicate AtMostOneJudge(ps: seq<PlayerData>) {
    forall i, j :: 0 <= i < |ps| && 0 <= j < |ps| && ps[i].isJudge && ps[j].isJudge ==> i == j
  }

  ghost predicate NoJudge(ps: seq<PlayerData>) {
    forall i :: 0 <= i < |ps| ==> !ps[i].isJudge
  }

  function Names(ps: seq<PlayerData>): (r: seq<string>)
    ensures |r| == |ps| && forall i :: 0 <= i < |ps| ==> r[i] == ps[i].name
  {
    seq(|ps|, i requires 0 <= i < |ps| => ps[i].name)
  }

  /** `addPlayer`: one blank row is appended and the existing rows stay as they are. */
  function AddPlayer(ps: seq<PlayerData>): (r: seq<PlayerData>)
    ensures |r| == |ps| + 1 && r[..|ps|] == ps
    ensures r[|ps|].name == "" && !r[|ps|].isJudge
    ensures AtMostOneJudge(ps) ==> AtMostOneJudge(r)
  {
    ps + [BlankPlayer]
  }

  /** Every row with its judge flag cleared. */
  function ClearJudges(ps: seq<PlayerData>): (r: seq<PlayerData>)
    ensures Names(r) == Names(ps)
    ensures NoJudge(r)
  {
    seq(|ps|, i requires 0 <= i < |ps| => ps[i].(isJudge := false))
  }

  /** The position `Array.prototype.splice(index, 1)` removes from an array of length
      `len`: a negative index counts from the end, and an index past the end removes
      nothing (the result is then `len`). */
  function SpliceStart(len: nat, index: int): (k: nat)
    ensures k <= len
    ensures 0 <= index < len ==> k == index
    ensures -(len as int) <= index < 0 ==> k == len + index
    ensures index < -(len as int) ==> k == 0
    ensures len > 0 ==> (k == len <==> index >= len)
  {
    if index < 0 then (if len + index < 0 then 0 else len + index)
    else if index > len then len
    else index
  }

  /** `removePlayer`. A roster of one row is left alone. Otherwise the row at the splice
      position is removed; removing a judge clears every judge flag. When the index is
      past the end, `splice` returns nothing and reading `isJudge` of it throws, which is
      modelled as `None` (the handler stops before updating the roster). */
  function RemovePlayer(ps: seq<PlayerData>, index: int): (r: Option<seq<PlayerData>>)
    ensures |ps| <= 1 ==> r == Some(ps)
    ensures |ps| > 1 ==> (r.Some? <==> index < |ps|)
    ensures |ps| > 1 && r.Some? ==>
      var k := SpliceStart(|ps|, index);
      && |r.value| == |ps| - 1
      && (forall j :: 0 <= j < |r.value| ==> r.value[j].name == ps[if j < k then j else j + 1].name)
      && (ps[k].isJudge ==> NoJudge(r.value))
      && (!ps[k].isJudge ==> forall j :: 0 <= j < |r.value| ==> r.value[j] == ps[if j < k then j else j + 1])
    ensures r.Some? && AtMostOneJudge(ps) ==> AtMostOneJudge(r.value)
  {
    if |ps| <= 1 then Some(ps)
    else
      var k := SpliceStart(|ps|, index);
      if k == |ps| then None
      else
        var rest := ps[..k] + ps[k + 1..];
        assert forall j :: 0 <= j < |rest| ==> rest[j] == ps[if j < k then j else j + 1];
        if ps[k].isJudge then Some(ClearJudges(rest)) else Some(rest)
  }

  /** `updatePlayerName`: only the name of row `index` changes. An index outside the
      roster makes the handler throw before it updates anything (`None`). */
  function UpdatePlayerName(ps: seq<PlayerData>, index: int, name: string): (r: Option<seq<PlayerData>>)
    ensures r.Some? <==> 0 <= index < |ps|
    ensures r.Some? ==>
      && |r.value| == |ps|
      && r.value[index].name == name
      && (forall j :: 0 <= j < |ps| ==> r.value[j].isJudge == ps[j].isJudge)
      && (forall j :: 0 <= j < |ps| && j != index ==> r.value[j] == ps[j])
    ensures r.Some? && AtMostOneJudge(ps) ==> AtMostOneJudge(r.value)
  {
    if 0 <= index < |ps| then Some(ps[index := ps[index].(name := name)]) else None
  }

  /** `setJudge`: the row at `index` becomes the judge and every other row stops being
      one; names are untouched. */
  function SetJudge(ps: seq<PlayerData>, index: int): (r: seq<PlayerData>)
    ensures Names(r) == Names(ps)
    ensures forall j :: 0 <= j < |r| ==> (r[j].isJudge <==> j == index)
    ensures AtMostOneJudge(r)
  {
    seq(|ps|, j requires 0 <= j < |ps| => ps[j].(isJudge := j == index))
  }

  /** After choosing a row of the roster there is exactly one judge, and it is that row. */
  lemma SetJudgeExactlyOne(ps: seq<PlayerData>, index: int)
    requires 0 <= index < |ps|
    ensures var r := SetJudge(ps, index); r[index].isJudge && AtMostOneJudge(r)
    ensures var r := SetJudge(ps, index); forall j :: 0 <= j < |r| && r[j].isJudge ==> j == index
  {
  }

  /** The edits the screen offers. */
  datatype RosterEdit = Add | Remove(index: int) | Rename(index: int, name: string) | ChooseJudge(index: int)

  /** The roster after one edit; an edit whose handler throws leaves it unchanged. */
  function ApplyEdit(ps: seq<PlayerData>, e: RosterEdit): seq<PlayerData> {
    match e
    case Add => AddPlayer(ps)
    case Remove(i) => RemovePlayer(ps, i).GetOr(ps)
    case Rename(i, n) => UpdatePlayerName(ps, i, n).GetOr(ps)
    case ChooseJudge(i) => SetJudge(ps, i)
  }

  function ApplyEdits(ps: seq<PlayerData>, es: seq<RosterEdit>): seq<PlayerData>
    decreases |es|
  {
    if |es| == 0 then ps else ApplyEdits(ApplyEdit(ps, es[0]), es[1..])
  }

  /** Whatever the user does on the screen, the roster keeps at least one row and never
      has two judges. */
  lemma {:induction false} EditsKeepRosterInvariant(ps: seq<PlayerData>, es: seq<RosterEdit>)
    requires |ps| >= 1 && AtMostOneJudge(ps)
    ensures |ApplyEdits(ps, es)| >= 1 && AtMostOneJudge(ApplyEdits(ps, es))
    decreases |es|
  {
    if |es| > 0 {
      var next := ApplyEdit(ps, es[0]);
      assert |next| >= 1 && AtMostOneJudge(next);
      EditsKeepRosterInvariant(next, es[1..]);
    }
  }

  /** Every reachable roster, starting from the initial form, satisfies the invariant. */
  lemma ReachableRostersHaveAtMostOneJudge(es: seq<RosterEdit>)
    ensures |ApplyEdits(InitialRoster, es)| >= 1 && AtMostOneJudge(ApplyEdits(InitialRoster, es))
  {
    EditsKeepRosterInvariant(InitialRoster, es);
  }

  // ----- validateForm -----

  datatype FormError = MissingName | NoJudgeSelected | DuplicateNames

  function FormErrorMessage(e: FormError): string {
    match e
    case MissingName => "All players must have names"
    case NoJudgeSelected => "Please select a judge"
    case DuplicateNames => "Player names must be unique"
  }

  /** A name made of whitespace only (possibly empty). */
  ghost predicate Blank(name: string) {
    forall k :: 0 <= k < |name| ==> Text.IsJsSpace(name[k])
  }

  /** The key two names are compared by: trimmed, then lower-cased. */
  function NameKey(name: string): string {
    Text.ToLower(Text.Trim(name))
  }

  /** `players.some(player => !player.name.trim())`. */
  function AnyBlankName(ps: seq<PlayerData>): (r: bool)
    ensures r <==> exists i :: 0 <= i < |ps| && Blank(ps[i].name)
  {
    if |ps| == 0 then false
    else
      Text.TrimEmptyIffBlank(ps[0].name);
      assert forall i :: 1 <= i < |ps| ==> ps[i] == ps[1..][i - 1];
      Text.Trim(ps[0].name) == "" || AnyBlankName(ps[1..])
  }

  /** `players.some(player => player.isJudge)`. */
  function AnyJudge(ps: seq<PlayerData>): (r: bool)
    ensures r <==> !NoJudge(ps)
  {
    if |ps| == 0 then false
    else
      assert forall i :: 1 <= i < |ps| ==> ps[i] == ps[1..][i - 1];
      ps[0].isJudge || AnyJudge(ps[1..])
  }

  function NameKeys(ps: seq<PlayerData>): (r: seq<string>)
    ensures |r| == |ps| && forall i :: 0 <= i < |ps| ==> r[i] == NameKey(ps[i].name)
  {
    seq(|ps|, i requires 0 <= i < |ps| => NameKey(ps[i].name))
  }

  /** Two different rows whose names collide once trimmed and lower-cased. */
  ghost predicate HasDuplicateNames(ps: seq<PlayerData>) {
    exists i, j :: 0 <= i < j < |ps| && NameKey(ps[i].name) == NameKey(ps[j].name)
  }

  /** Two rows collide exactly when the name keys are not pairwise distinct. */
  lemma DuplicateNamesIffKeysRepeat(ps: seq<PlayerData>)
    ensures HasDuplicateNames(ps) <==> !Distinct(NameKeys(ps))
  {
    var keys := NameKeys(ps);
    if !Distinct(keys) {
      var i, j :| 0 <= i < j < |keys| && keys[i] == keys[j];
      assert NameKey(ps[i].name) == NameKey(ps[j].name);
    }
  }

  /** `validateForm`: the first failing check, in the order the screen runs them, or
      `None` when the form may be submitted. */
  function ValidateForm(ps: seq<PlayerData>): (r: Option<FormError>)
    ensures r == Some(MissingName) <==> exists i :: 0 <= i < |ps| && Blank(ps[i].name)
    ensures r == Some(NoJudgeSelected) <==>
      (forall i :: 0 <= i < |ps| ==> !Blank(ps[i].name)) && NoJudge(ps)
    ensures r == Some(DuplicateNames) <==>
      (forall i :: 0 <= i < |ps| ==> !Blank(ps[i].name)) && !NoJudge(ps) && HasDuplicateNames(ps)
    ensures r == None <==>
      (forall i :: 0 <= i < |ps| ==> !Blank(ps[i].name)) && !NoJudge(ps) && !HasDuplicateNames(ps)
  {
    if AnyBlankName(ps) then Some(MissingName)
    else if !AnyJudge(ps) then Some(NoJudgeSelected)
    else
      var keys := NameKeys(ps);
      DistinctIffCardinality(keys);
      DuplicateNamesIffKeysRepeat(ps);
      if |Elements(keys)| != |keys| then Some(DuplicateNames) else None
  }

  // ----- startGame -----

  /** A `players` table row (`DatabasePlayer`). */
  datatype DbPlayer = DbPlayer(id: string, groupId: string, name: string, totalWins: int)

  /** A `game_groups` table row (`GameGroup`). */
  datatype GameGroup = GameGroup(id: string, name: string, createdBy: string)

  /** The status values of `GameRound`. */
  datatype RoundStatus = Setup | InProgress | Completed | Playing

  /** A `game_rounds` table row (`GameRound`). */
  datatype GameRound = GameRound(id: string, groupId: string, judgeId: string, roundNumber: int, status: RoundStatus)

  /** The payloads `startGame` inserts. */
  datatype PlayerRow = PlayerRow(groupId: string, name: string)
  datatype RoundRow = RoundRow(groupId: string, judgeId: string, roundNumber: int, status: RoundStatus)
  datatype RoundPlayerRow = RoundPlayerRow(roundId: string, playerId: string, draftPosition: int, score: int)

  /** One `players` row per form row, with the name trimmed. */
  function PlayerRows(groupId: string, ps: seq<PlayerData>): (r: seq<PlayerRow>)
    ensures |r| == |ps|
    ensures forall i :: 0 <= i < |ps| ==> r[i] == PlayerRow(groupId, Text.Trim(ps[i].name))
  {
    seq(|ps|, i requires 0 <= i < |ps| => PlayerRow(groupId, Text.Trim(ps[i].name)))
  }

  /** `players.findIndex(player => player.isJudge)`: the first judge row, or -1. */
  function FindJudgeIndex(ps: seq<PlayerData>): (r: int)
    ensures -1 <= r < |ps|
    ensures r == -1 <==> NoJudge(ps)
    ensures r >= 0 ==> ps[r].isJudge && forall j :: 0 <= j < r ==> !ps[j].isJudge
  {
    if |ps| == 0 then -1
    else if ps[0].isJudge then 0
    else
      var k := FindJudgeIndex(ps[1..]);
      assert forall i :: 1 <= i < |ps| ==> ps[i] == ps[1..][i - 1];
      if k == -1 then -1 else k + 1
  }

  /** The first round: number 1, status `setup`, judged by the inserted player at the
      judge row's position. `None` when that position has no inserted player (reading
      `.id` of `undefined` throws). */
  function FirstRoundRow(groupId: string, ps: seq<PlayerData>, created: seq<DbPlayer>): (r: Option<RoundRow>)
    ensures r.Some? <==> 0 <= FindJudgeIndex(ps) < |created|
    ensures r.Some? ==>
      && r.value.roundNumber == 1 && r.value.status == Setup && r.value.groupId == groupId
      && r.value.judgeId == created[FindJudgeIndex(ps)].id
  {
    var k := FindJudgeIndex(ps);
    if 0 <= k < |created| then Some(RoundRow(groupId, created[k].id, 1, Setup)) else None
  }

  /** One `round_players` row per inserted player, in insertion order, drafting in that
      order and starting at score 0. */
  function RoundPlayerRows(roundId: string, created: seq<DbPlayer>): (r: seq<RoundPlayerRow>)
    ensures |r| == |created|
    ensures forall i :: 0 <= i < |r| ==> r[i].roundId == roundId && r[i].playerId == created[i].id
    ensures forall i :: 0 <= i < |r| ==> r[i].draftPosition == i + 1 && r[i].score == 0
  {
    seq(|created|, i requires 0 <= i < |created| => RoundPlayerRow(roundId, created[i].id, i + 1, 0))
  }

  function DraftPositions(rows: seq<RoundPlayerRow>): (r: seq<int>)
    ensures |r| == |rows| && forall i :: 0 <= i < |rows| ==> r[i] == rows[i].draftPosition
  {
    seq(|rows|, i requires 0 <= i < |rows| => rows[i].draftPosition)
  }

  /** The draft positions of a new round follow the insertion order: the i-th inserted
      player drafts i-th, so the positions are exactly 1..n, each once; every score
      starts at 0. */
  lemma RoundPlayerRowsDraftOrder(roundId: string, created: seq<DbPlayer>)
    ensures var pos := DraftPositions(RoundPlayerRows(roundId, created));
      && (forall i :: 0 <= i < |pos| ==> pos[i] == i + 1)
      && Distinct(pos) && (forall k :: k in Elements(pos) <==> 1 <= k <= |created|)
    ensures forall row :: row in RoundPlayerRows(roundId, created) ==> row.score == 0
  {
    var pos := DraftPositions(RoundPlayerRows(roundId, created));
    forall k | 1 <= k <= |created|
      ensures k in Elements(pos)
    {
      assert pos[k - 1] == k;
    }
  }


  /** The replies of the four inserts `startGame` awaits, in order. */
  datatype StartReplies = StartReplies(
    group: Reply<GameGroup>,
    players: Reply<seq<DbPlayer>>,
    round: Reply<GameRound>,
    roundPlayersError: Option<string>)

  /** The writes `startGame` issues. */
  datatype StartEffect =
    | InsertGroup(name: string, createdBy: string)
    | InsertPlayers(playerRows: seq<PlayerRow>)
    | InsertRound(row: RoundRow)
    | InsertRoundPlayers(roundPlayers: seq<RoundPlayerRow>)

  /** What the session pointers and the next page become once the game is created. */
  datatype Session = Session(groupId: string, roundId: string, isJudge: bool, location: string)

  datatype StartOutcome =
    | Rejected(error: FormError)
    | NoUser
    | Failed(effects: seq<StartEffect>, message: string)
    | Started(effects: seq<StartEffect>, session: Session)

  /** What a thrown JavaScript `TypeError` from reading `.id` of `undefined` says. */
  const UndefinedIdMessage := "Cannot read properties of undefined (reading 'id')"

  function FailureMessage(message: string): string {
    "Failed to create game: " + (if message == "" then "Please try again." else message)
  }

  /** The body of `startGame` once the form is valid and a user is signed in: insert the
      group, the players, the first round and the round players, stopping at the first
      failure. */
  function CreateGame(ps: seq<PlayerData>, userId: string, groupName: string, replies: StartReplies): (r: StartOutcome)
    ensures r.Failed? || r.Started?
    ensures r.Failed? ==> 1 <= |r.effects| <= 4 && r.effects[0] == InsertGroup(groupName, userId)
    // each insert that fails stops the run, after the writes issued so far, with its message
    ensures replies.group.Err? ==>
      r == Failed([InsertGroup(groupName, userId)], FailureMessage(replies.group.message))
    ensures replies.group.Ok? && replies.players.Err? ==>
      r == Failed([InsertGroup(groupName, userId), InsertPlayers(PlayerRows(replies.group.rows.id, ps))],
                  FailureMessage(replies.players.message))
    ensures replies.group.Ok? && replies.players.Ok? && !(0 <= FindJudgeIndex(ps) < |replies.players.rows|) ==>
      r == Failed([InsertGroup(groupName, userId), InsertPlayers(PlayerRows(replies.group.rows.id, ps))],
                  FailureMessage(UndefinedIdMessage))
    ensures replies.group.Ok? && replies.players.Ok? && 0 <= FindJudgeIndex(ps) < |replies.players.rows|
            && replies.round.Err? ==>
      var gid := replies.group.rows.id;
      r == Failed([InsertGroup(groupName, userId), InsertPlayers(PlayerRows(gid, ps)),
                   InsertRound(RoundRow(gid, replies.players.rows[FindJudgeIndex(ps)].id, 1, Setup))],
                  FailureMessage(replies.round.message))
    ensures replies.group.Ok? && replies.players.Ok? && 0 <= FindJudgeIndex(ps) < |replies.players.rows|
            && replies.round.Ok? && replies.roundPlayersError.Some? ==>
      var gid := replies.group.rows.id;
      r == Failed([InsertGroup(groupName, userId), InsertPlayers(PlayerRows(gid, ps)),
                   InsertRound(RoundRow(gid, replies.players.rows[FindJudgeIndex(ps)].id, 1, Setup)),
                   InsertRoundPlayers(RoundPlayerRows(replies.round.rows.id, replies.players.rows))],
                  FailureMessage(replies.roundPlayersError.value))
  {
    var e0 := InsertGroup(groupName, userId);
    match replies.group
    case Err(m) => Failed([e0], FailureMessage(m))
    case Ok(group) =>
      var e1 := InsertPlayers(PlayerRows(group.id, ps));
      match replies.players
      case Err(m) => Failed([e0, e1], FailureMessage(m))
      case Ok(created) =>
        match FirstRoundRow(group.id, ps, created)
        case None => Failed([e0, e1], FailureMessage(UndefinedIdMessage))
        case Some(roundRow) =>
          var e2 := InsertRound(roundRow);
          match replies.round
          case Err(m) => Failed([e0, e1, e2], FailureMessage(m))
          case Ok(round) =>
            var e3 := InsertRoundPlayers(RoundPlayerRows(round.id, created));
            match replies.roundPlayersError
            case Some(m) => Failed([e0, e1, e2, e3], FailureMessage(m))
            case None =>
              Started([e0, e1, e2, e3],
                Session(group.id, round.id, roundRow.judgeId == userId,
                        "/private/categories?roundId=" + round.id))
  }

  /** Every insert of `startGame` succeeds and the judge row has an inserted player. */
  predicate AllInsertsSucceed(ps: seq<PlayerData>, replies: StartReplies) {
    && replies.group.Ok? && replies.players.Ok? && replies.round.Ok? && replies.roundPlayersError.None?
    && 0 <= FindJudgeIndex(ps) < |replies.players.rows|
  }

  /** A game is created exactly when all four inserts succeed; the writes are then the
      group, the trimmed player rows, round 1 in status `setup` judged by the inserted
      player at the judge row's position, and the round players in draft order. */
  lemma CreatedGameWrites(ps: seq<PlayerData>, userId: string, groupName: string, replies: StartReplies)
    ensures CreateGame(ps, userId, groupName, replies).Started? <==> AllInsertsSucceed(ps, replies)
    ensures AllInsertsSucceed(ps, replies) ==>
      var r := CreateGame(ps, userId, groupName, replies);
      var group, created, round := replies.group.rows, replies.players.rows, replies.round.rows;
      var k := FindJudgeIndex(ps);
      && r.effects == [InsertGroup(groupName, userId), InsertPlayers(PlayerRows(group.id, ps)),
                       InsertRound(RoundRow(group.id, created[k].id, 1, Setup)),
                       InsertRoundPlayers(RoundPlayerRows(round.id, created))]
      && r.session == Session(group.id, round.id, created[k].id == userId,
                              "/private/categories?roundId=" + round.id)
  {
  }

  /** `startGame`: nothing is written unless the form validates and a user is signed in. */
  function StartGame(ps: seq<PlayerData>, user: Option<string>, groupName: string, replies: StartReplies): (r: StartOutcome)
    ensures r.Rejected? <==> ValidateForm(ps).Some?
    ensures r.Rejected? ==> r.error == ValidateForm(ps).value
    ensures r.NoUser? <==> ValidateForm(ps).None? && user.None?
    ensures r.Failed? || r.Started? ==> user.Some? && r == CreateGame(ps, user.value, groupName, replies)
  {
    var v := ValidateForm(ps);
    if v.Some? then Rejected(v.value)
    else if user.None? then NoUser
    else CreateGame(ps, user.value, groupName, replies)
  }

  /** A form that fails validation issues no write at all, whatever the database would
      have answered. */
  lemma InvalidFormWritesNothing(ps: seq<PlayerData>, user: Option<string>, groupName: string, replies: StartReplies)
    requires ValidateForm(ps).Some?
    ensures StartGame(ps, user, groupName, replies).Rejected?
  {
  }
}
