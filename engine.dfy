/**
 * The duel engine: the pending queue, the match table and the profile table
 * as fields of one server object, and one method per game endpoint. Every
 * endpoint is one atomic read-modify-write of these tables; the JSON files
 * that hold them between requests are not modelled.
 */
module Engine {
  import opened Common
  import opened Duel
  import opened Profiles
  import opened MatchQueue

  /** A row of the student listing query: the user id and the `users` row. */
  datatype Student = Student(id: UserId, user: User)

  datatype Activity = Offline | Matching | Playing

  /** One entry of the `get_students_game_status` reply. */
  datatype StudentStatus = StudentStatus(id: UserId, username: string, fullName: string, status: Activity, medals: int)

  /** Replies of `game_match`. */
  datatype JoinReply = UnknownUser | Waiting | Paired(matchId: string, opponent: UserData, player1Id: UserId)

  /** Replies of `check_game_match`. */
  datatype CheckReply = InMatch(current: Match) | Queued | NotQueued

  /** Replies of `get_player_game_data`. */
  datatype PlayerReply = NoSuchUser | PlayerData(profile: Profile)

  /** The question bank `get_questions` returns: questions.json if present, else the built-in bank. */
  function Bank(file: Option<seq<Question>>): (qs: seq<Question>)
    ensures file.Some? ==> qs == file.value
    ensures file.None? ==> qs == DefaultQuestions() && |qs| == 17
  {
    match file
    case Some(stored) => stored
    case None => DefaultQuestions()
  }

  /** The first match whose id is `id` (the lookup of state and answer). */
  function MatchIndex(ms: seq<Match>, id: string): (r: Option<nat>)
    ensures r.Some? ==> r.value < |ms| && ms[r.value].matchId == id
    ensures r.Some? ==> forall j :: 0 <= j < r.value ==> ms[j].matchId != id
    ensures r.None? ==> forall j :: 0 <= j < |ms| ==> ms[j].matchId != id
    decreases |ms|
  {
    if ms == [] then None
    else if ms[0].matchId == id then Some(0)
    else match MatchIndex(ms[1..], id)
      case None => None
      case Some(k) => Some(k + 1)
  }

  /** The first open match whose id is `id` (the lookup of quit and heartbeat). */
  function OpenMatchIndex(ms: seq<Match>, id: string): (r: Option<nat>)
    ensures r.Some? ==> r.value < |ms| && ms[r.value].matchId == id && !ms[r.value].gameOver
    ensures r.Some? ==> forall j :: 0 <= j < r.value ==> ms[j].matchId != id || ms[j].gameOver
    ensures r.None? ==> forall j :: 0 <= j < |ms| ==> ms[j].matchId != id || ms[j].gameOver
    decreases |ms|
  {
    if ms == [] then None
    else if ms[0].matchId == id && !ms[0].gameOver then Some(0)
    else match OpenMatchIndex(ms[1..], id)
      case None => None
      case Some(k) => Some(k + 1)
  }

  /** `user` plays in the open match `m`. */
  predicate Involves(m: Match, user: UserId) {
    !m.gameOver && (m.player1 == user || m.player2 == user)
  }

  predicate InSomeMatch(ms: seq<Match>, user: UserId) {
    exists k :: 0 <= k < |ms| && Involves(ms[k], user)
  }

  predicate IsPending(ps: seq<Pending>, user: UserId) {
    exists k :: 0 <= k < |ps| && ps[k].userId == user
  }

  /** Finished matches stay where they are, unchanged, and the table only grows. */
  ghost predicate FinishedKept(before: seq<Match>, after: seq<Match>) {
    |before| <= |after| &&
    forall k :: 0 <= k < |before| && before[k].gameOver ==> after[k] == before[k]
  }

  /** Replacing a match by a poll, answer, quit or heartbeat result keeps the invariant and finished matches. */
  lemma ReplaceMatch(ms: seq<Match>, k: nat, m: Match, ms': seq<Match>)
    requires forall j :: 0 <= j < |ms| ==> Inv(ms[j])
    requires k < |ms| && Inv(m) && (ms[k].gameOver ==> m == ms[k]) && ms' == ms[k := m]
    ensures forall j :: 0 <= j < |ms'| ==> Inv(ms'[j])
    ensures FinishedKept(ms, ms')
  {
  }

  /**
   * The resolution steps of `submit_game_answer`, in the source's order, on
   * the match once both slots are filled: damage from the table, hp floored
   * at 0, result cached, slots cleared, cursor advanced, game-over check.
   */
  method ResolveRound(m0: Match) returns (m: Match)
    requires m0.slot1.Answered? && m0.slot2.Answered?
    ensures m == Resolve(m0)
  {
    m := m0;
    var c1, c2 := m.slot1.correct, m.slot2.correct;
    var dmg1, dmg2 := 0, 0;
    if c1 && c2 {
      dmg1, dmg2 := 0, 0;
    } else if c1 && !c2 {
      dmg2 := 20;
    } else if !c1 && c2 {
      dmg1 := 20;
    } else {
      dmg1, dmg2 := 10, 10;
    }
    m := m.(hp1 := Max(0, m.hp1 - dmg1), hp2 := Max(0, m.hp2 - dmg2));
    m := m.(lastRound := Some(RoundResult(c1, c2, dmg1, dmg2, m.hp1, m.hp2, m.questionIdx, [])));
    m := m.(slot1 := Empty, slot2 := Empty);
    m := m.(questionIdx := m.questionIdx + 1);
    if m.hp1 <= 0 || m.hp2 <= 0 || m.questionIdx >= |m.questions| {
      var w := if m.hp1 > m.hp2 then Won(m.player1)
               else if m.hp2 > m.hp1 then Won(m.player2)
               else Draw;
      m := m.(gameOver := true, winner := Some(w));
    }
  }

  /** Appending a match that keeps the invariant keeps it for the whole table and keeps finished matches. */
  lemma AppendMatch(ms: seq<Match>, m: Match)
    requires forall k :: 0 <= k < |ms| ==> Inv(ms[k])
    requires Inv(m)
    ensures forall k :: 0 <= k < |ms + [m]| ==> Inv((ms + [m])[k])
    ensures FinishedKept(ms, ms + [m])
  {
  }

  /** The scan of `game_match` for the first waiting entry of another user. */
  method FindOther(live: seq<Pending>, user: UserId) returns (k: Option<nat>)
    ensures k == FirstOther(live, user)
  {
    var i := 0;
    while i < |live|
      invariant 0 <= i <= |live|
      invariant forall j :: 0 <= j < i ==> live[j].userId == user
    {
      if live[i].userId != user {
        return Some(i);
      }
      i := i + 1;
    }
    return None;
  }

  /** `submit_game_answer` on an open match: the caller's slot is filled and a full round resolved. */
  method AnswerMatch(m0: Match, user: UserId, answer: Answer, correct: bool) returns (m: Match, round: Option<RoundResult>)
    requires !m0.gameOver
    ensures (m, Recorded(round)) == Submit(m0, user, answer, correct)
    ensures m.gameOver && m.winner.Some? && m.winner.value.Won? ==> m.winner.value.player in {m.player1, m.player2}
  {
    m := m0;
    if m.player1 == user {
      m := m.(slot1 := Answered(answer, correct));
    } else {
      m := m.(slot2 := Answered(answer, correct));
    }
    round := None;
    if m.slot1.Answered? && m.slot2.Answered? {
      m := ResolveRound(m);
      round := m.lastRound;
    }
  }

  class GameServer {
    /** The `users` table, read for identity lookups. */
    var users: map<UserId, User>
    /** questions.json; `None` until the bank is first written. */
    var questionFile: Option<seq<Question>>
    /** pending.json */
    var pending: seq<Pending>
    /** matches.json */
    var matches: seq<Match>
    /** players.json */
    var players: seq<Profile>

    ghost predicate Valid()
      reads this
    {
      forall k :: 0 <= k < |matches| ==> Inv(matches[k])
    }

    constructor (users: map<UserId, User>)
      ensures Valid() && this.users == users
      ensures questionFile == None && pending == [] && matches == [] && players == []
    {
      this.users := users;
      questionFile := None;
      pending := [];
      matches := [];
      players := [];
    }

    // -------------------------------------------------------------------------
    // Lookups (the `for ... in enumerate(...)` and `next(...)` scans)
    // -------------------------------------------------------------------------

    method LocateMatch(id: string) returns (k: Option<nat>)
      ensures k == MatchIndex(matches, id)
      ensures k.Some? ==> k.value < |matches| && matches[k.value].matchId == id
    {
      var i := 0;
      while i < |matches|
        invariant 0 <= i <= |matches|
        invariant forall j :: 0 <= j < i ==> matches[j].matchId != id
      {
        if matches[i].matchId == id {
          return Some(i);
        }
        i := i + 1;
      }
      return None;
    }

    method LocateOpenMatch(id: string) returns (k: Option<nat>)
      ensures k == OpenMatchIndex(matches, id)
    {
      var i := 0;
      while i < |matches|
        invariant 0 <= i <= |matches|
        invariant forall j :: 0 <= j < i ==> matches[j].matchId != id || matches[j].gameOver
      {
        if matches[i].matchId == id && !matches[i].gameOver {
          return Some(i);
        }
        i := i + 1;
      }
      return None;
    }

    method FindProfile(id: UserId) returns (k: Option<nat>)
      ensures k == ProfileIndex(players, id)
    {
      var i := 0;
      while i < |players|
        invariant 0 <= i <= |players|
        invariant forall j :: 0 <= j < i ==> players[j].userId != id
      {
        if players[i].userId == id {
          return Some(i);
        }
        i := i + 1;
      }
      return None;
    }

    /** Whether `user` has an entry in the pending queue (expired or not). */
    method FindPending(user: UserId) returns (found: bool)
      ensures found <==> IsPending(pending, user)
    {
      var i := 0;
      while i < |pending|
        invariant 0 <= i <= |pending|
        invariant forall j :: 0 <= j < i ==> pending[j].userId != user
      {
        if pending[i].userId == user {
          return true;
        }
        i := i + 1;
      }
      return false;
    }

    /** The first open match in which `user` plays. */
    method FindOpenMatchOf(user: UserId) returns (k: Option<nat>)
      ensures k.Some? ==> k.value < |matches| && Involves(matches[k.value], user)
      ensures k.Some? ==> forall j :: 0 <= j < k.value ==> !Involves(matches[j], user)
      ensures k.None? <==> !InSomeMatch(matches, user)
    {
      var i := 0;
      while i < |matches|
        invariant 0 <= i <= |matches|
        invariant forall j :: 0 <= j < i ==> !Involves(matches[j], user)
      {
        if Involves(matches[i], user) {
          return Some(i);
        }
        i := i + 1;
      }
      return None;
    }

    // -------------------------------------------------------------------------
    // Questions and profiles
    // -------------------------------------------------------------------------

    /** `get_questions`: the stored bank, or the built-in one, which is then stored. */
    method GetQuestions() returns (qs: seq<Question>)
      modifies this`questionFile
      ensures qs == Bank(old(questionFile)) && questionFile == Some(qs)
    {
      if questionFile.Some? {
        qs := questionFile.value;
      } else {
        qs := DefaultQuestions();
        questionFile := Some(qs);
      }
    }

    /** `get_player_game_data`: the user's profile, created with the defaults on first access. */
    method GetPlayerGameData(user: UserId) returns (r: PlayerReply)
      modifies this`players
      ensures user !in users ==> r == NoSuchUser && players == old(players)
      ensures user in users && ProfileIndex(old(players), user).Some? ==>
        r == PlayerData(old(players)[ProfileIndex(old(players), user).value]) && players == old(players)
      ensures user in users && ProfileIndex(old(players), user).None? ==>
        r == PlayerData(NewProfile(user, users[user])) && players == old(players) + [r.profile]
      ensures r.PlayerData? ==> r.profile.userId == user && r.profile in players
    {
      if user !in users {
        return NoSuchUser;
      }
      var k := FindProfile(user);
      if k.Some? {
        return PlayerData(players[k.value]);
      }
      var p := NewProfile(user, users[user]);
      players := players + [p];
      r := PlayerData(p);
    }

    /** `update_player_stats`: a win is credited to the user's first profile; a loss changes nothing. */
    method UpdatePlayerStats(user: UserId, won: bool, bonus: int)
      requires 10 <= bonus <= 20
      modifies this`players
      ensures players == if won then Award(old(players), user, bonus) else old(players)
    {
      var k := FindProfile(user);
      if k.Some? && won {
        var p := players[k.value];
        players := players[k.value := p.(wins := p.wins + 1, medals := p.medals + 1, gold := p.gold + bonus)];
      }
    }

    /** `update_inventory`: replaces the first profile's inventory; always succeeds. */
    method UpdateInventory(user: UserId, inventory: seq<Item>) returns (ok: bool)
      modifies this`players
      ensures ok && players == WithInventory(old(players), user, inventory)
    {
      var k := FindProfile(user);
      if k.Some? {
        players := players[k.value := players[k.value].(inventory := inventory)];
      }
      ok := true;
    }

    /** `get_game_leaderboard`: the 20 profiles with most medals, most first. */
    method GetGameLeaderboard() returns (board: seq<Profile>)
      ensures board == Leaderboard(players)
      ensures SortedByMedals(board) && multiset(board) <= multiset(players)
      ensures |board| == if |players| <= 20 then |players| else 20
    {
      LeaderboardTop(players);
      board := Leaderboard(players);
    }

    // -------------------------------------------------------------------------
    // Matchmaking
    // -------------------------------------------------------------------------

    /**
     * `game_match`: drops expired entries, then pairs the caller with the first
     * waiting entry of another user (that entry leaves the queue and a new
     * match is appended); with nobody else waiting, the caller is appended to
     * the queue with a 60-second expiry.
     */
    method GameMatch(user: UserId, now: int) returns (r: JoinReply)
      requires Valid()
      modifies this`pending, this`matches, this`questionFile
      ensures Valid() && FinishedKept(old(matches), matches)
      ensures user !in users ==>
        r == UnknownUser && pending == old(pending) && matches == old(matches) && questionFile == old(questionFile)
      ensures user in users ==>
        var live := Prune(old(pending), now);
        var me := DataOf(user, users[user]);
        match FirstOther(live, user)
        case Some(i) =>
          var id := MatchId(now, user);
          && r == Paired(id, live[i].userData, live[i].userId)
          && pending == RemoveAt(live, i)
          && questionFile == Some(Bank(old(questionFile)))
          && matches == old(matches) + [NewMatch(id, live[i].userId, live[i].userData, user, me, Bank(old(questionFile)), now)]
        case None =>
          && r == Waiting
          && pending == live + [Pending(user, me, now + QueueTtl)]
          && matches == old(matches) && questionFile == old(questionFile)
    {
      if user !in users {
        return UnknownUser;
      }
      var me := DataOf(user, users[user]);
      var live := Prune(pending, now);
      var found := FindOther(live, user);
      if found.Some? {
        var p := live[found.value];
        var id := MatchId(now, user);
        var qs := GetQuestions();
        var m := NewMatch(id, p.userId, p.userData, user, me, qs, now);
        NewMatchInv(id, p.userId, p.userData, user, me, qs, now);
        AppendMatch(matches, m);
        pending := RemoveAt(live, found.value);
        matches := matches + [m];
        r := Paired(id, p.userData, p.userId);
      } else {
        pending := live + [Pending(user, me, now + QueueTtl)];
        r := Waiting;
      }
    }

    /** `check_game_match`: in an open match, else waiting in the queue, else neither. */
    method CheckGameMatch(user: UserId) returns (r: CheckReply)
      ensures r.InMatch? <==> InSomeMatch(matches, user)
      ensures r.InMatch? ==> exists k :: 0 <= k < |matches| && matches[k] == r.current && Involves(r.current, user)
                                          && forall j :: 0 <= j < k ==> !Involves(matches[j], user)
      ensures r == Queued <==> !InSomeMatch(matches, user) && IsPending(pending, user)
      ensures r == NotQueued <==> !InSomeMatch(matches, user) && !IsPending(pending, user)
    {
      var k := FindOpenMatchOf(user);
      if k.Some? {
        return InMatch(matches[k.value]);
      }
      var waiting := FindPending(user);
      r := if waiting then Queued else NotQueued;
    }

    /**
     * `get_students_game_status`: for each student, `matching` when queued
     * (checked first), else `playing` when in an open match, else `offline`,
     * with the medal count of the student's profile.
     */
    method StudentsGameStatus(students: seq<Student>) returns (rs: seq<StudentStatus>)
      ensures |rs| == |students|
      ensures forall k :: 0 <= k < |students| ==>
        && rs[k].id == students[k].id
        && rs[k].username == students[k].user.username
        && rs[k].fullName == DisplayName(students[k].user)
        && (rs[k].status == Matching <==> IsPending(pending, students[k].id))
        && (rs[k].status == Playing <==> !IsPending(pending, students[k].id) && InSomeMatch(matches, students[k].id))
        && rs[k].medals == MedalsOf(players, students[k].id)
    {
      rs := [];
      var i := 0;
      while i < |students|
        invariant 0 <= i <= |students| && |rs| == i
        invariant forall k :: 0 <= k < i ==>
          && rs[k].id == students[k].id
          && rs[k].username == students[k].user.username
          && rs[k].fullName == DisplayName(students[k].user)
          && (rs[k].status == Matching <==> IsPending(pending, students[k].id))
          && (rs[k].status == Playing <==> !IsPending(pending, students[k].id) && InSomeMatch(matches, students[k].id))
          && rs[k].medals == MedalsOf(players, students[k].id)
      {
        var s := students[i];
        var status := Offline;
        var waiting := FindPending(s.id);
        if waiting {
          status := Matching;
        } else {
          var k := FindOpenMatchOf(s.id);
          if k.Some? {
            status := Playing;
          }
        }
        var p := FindProfile(s.id);
        var medals := if p.Some? then players[p.value].medals else 0;
        rs := rs + [StudentStatus(s.id, s.user.username, DisplayName(s.user), status, medals)];
        i := i + 1;
      }
    }

    // -------------------------------------------------------------------------
    // Playing
    // -------------------------------------------------------------------------

    /**
     * `get_game_state`: reports the match as the caller sees it, ending it when
     * the opponent's heartbeat is more than 90 seconds old, and marking the
     * cached round result as seen by the caller.
     */
    method GetGameState(matchId: string, user: UserId, now: int) returns (v: StateView)
      requires Valid()
      modifies this`matches
      ensures Valid() && FinishedKept(old(matches), matches)
      ensures MatchIndex(old(matches), matchId).None? ==> v == NoMatch && matches == old(matches)
      ensures MatchIndex(old(matches), matchId).Some? ==>
        var k := MatchIndex(old(matches), matchId).value;
        matches == old(matches)[k := Poll(old(matches)[k], user, now).0] && v == Poll(old(matches)[k], user, now).1
    {
      var found := LocateMatch(matchId);
      if found.None? {
        return NoMatch;
      }
      var k := found.value;
      var m := matches[k];
      PollInv(m, user, now);
      if m.gameOver {
        return Finished(m.winner);
      }
      var isP1 := m.player1 == user;
      var opponentActive := if isP1 then m.active2 else m.active1;
      if opponentActive.Some? && now - opponentActive.value > HeartbeatTimeout {
        matches := matches[k := m.(gameOver := true, winner := Some(Won(user)))];
        return TimedOut(user);
      }
      var current := CurrentQuestion(m);
      if m.lastRound.Some? {
        var last := m.lastRound.value;
        if user !in last.processedBy {
          matches := matches[k := m.(lastRound := Some(last.(processedBy := last.processedBy + [user])))];
        }
        return RoundReport(RoundView(last.p1Correct, last.p2Correct, last.p1Dmg, last.p2Dmg, last.p1Hp, last.p2Hp),
                           if isP1 then last.p1Hp else last.p2Hp,
                           if isP1 then last.p2Hp else last.p1Hp,
                           current, m.questionIdx, |m.questions|);
      }
      var ownAnswered := if isP1 then m.slot1.Answered? else m.slot2.Answered?;
      v := Live(if isP1 then m.hp1 else m.hp2, if isP1 then m.hp2 else m.hp1,
                current, m.questionIdx, m.slot1.Answered? && m.slot2.Answered?, ownAnswered, |m.questions|);
    }

    /**
     * `submit_game_answer`: refused for an unknown or finished match; otherwise
     * fills the caller's slot and, once both slots are full, resolves the round
     * and credits the winner of a finished match.
     */
    method SubmitGameAnswer(matchId: string, user: UserId, answer: Answer, correct: bool, bonus: int)
      returns (r: AnswerReply)
      requires Valid() && 10 <= bonus <= 20
      modifies this`matches, this`players
      ensures Valid() && FinishedKept(old(matches), matches)
      ensures MatchIndex(old(matches), matchId).None? ==>
        r == Rejected && matches == old(matches) && players == old(players)
      ensures MatchIndex(old(matches), matchId).Some? ==>
        var k := MatchIndex(old(matches), matchId).value;
        var before := old(matches)[k];
        var after := Submit(before, user, answer, correct).0;
        && r == Submit(before, user, answer, correct).1
        && matches == old(matches)[k := after]
        && players == (if !before.gameOver && after.gameOver && after.winner.value.Won?
                       then Award(old(players), after.winner.value.player, bonus) else old(players))
    {
      var found := LocateMatch(matchId);
      if found.None? || matches[found.value].gameOver {
        return Rejected;
      }
      var k := found.value;
      var before := matches[k];
      SubmitInv(before, user, answer, correct);
      var m, round := AnswerMatch(before, user, answer, correct);
      if m.gameOver {
        CreditWinner(m, bonus);
      }
      ReplaceMatch(matches, k, m, matches[k := m]);
      matches := matches[k := m];
      r := Recorded(round);
    }

    /** The stats update after a finished round: the winner gains a win, the loser's call changes nothing. */
    method CreditWinner(m: Match, bonus: int)
      requires 10 <= bonus <= 20
      modifies this`players
      ensures players == if m.winner.Some? && m.winner.value.Won? && m.winner.value.player in {m.player1, m.player2}
                         then Award(old(players), m.winner.value.player, bonus) else old(players)
    {
      if m.winner == Some(Won(m.player1)) {
        UpdatePlayerStats(m.player1, true, bonus);
        UpdatePlayerStats(m.player2, false, bonus);
      } else if m.winner == Some(Won(m.player2)) {
        UpdatePlayerStats(m.player2, true, bonus);
        UpdatePlayerStats(m.player1, false, bonus);
      }
    }

    /**
     * `quit_game`: ends the first open match with this id, the other player
     * (player 1 for a caller who is not player 1) winning and being credited;
     * fails when there is no such open match.
     */
    method QuitGame(matchId: string, user: UserId, bonus: int) returns (ok: bool)
      requires Valid() && 10 <= bonus <= 20
      modifies this`matches, this`players
      ensures Valid() && FinishedKept(old(matches), matches)
      ensures OpenMatchIndex(old(matches), matchId).None? ==>
        !ok && matches == old(matches) && players == old(players)
      ensures OpenMatchIndex(old(matches), matchId).Some? ==>
        var k := OpenMatchIndex(old(matches), matchId).value;
        && ok
        && matches == old(matches)[k := Quit(old(matches)[k], user)]
        && players == Award(old(players), Opponent(old(matches)[k], user), bonus)
    {
      var found := LocateOpenMatch(matchId);
      if found.None? {
        return false;
      }
      var k := found.value;
      var m := matches[k];
      QuitWinner(m, user);
      var winner := if m.player1 == user then m.player2 else m.player1;
      matches := matches[k := m.(gameOver := true, winner := Some(Won(winner)))];
      UpdatePlayerStats(winner, true, bonus);
      ok := true;
    }

    /** `game_heartbeat`: stamps the caller's last-active time in the first open match with this id. */
    method GameHeartbeat(matchId: string, user: UserId, now: int) returns (ok: bool)
      requires Valid()
      modifies this`matches
      ensures Valid() && FinishedKept(old(matches), matches)
      ensures OpenMatchIndex(old(matches), matchId).None? ==> !ok && matches == old(matches)
      ensures OpenMatchIndex(old(matches), matchId).Some? ==>
        var k := OpenMatchIndex(old(matches), matchId).value;
        ok && matches == old(matches)[k := Heartbeat(old(matches)[k], user, now)]
    {
      var found := LocateOpenMatch(matchId);
      if found.None? {
        return false;
      }
      var k := found.value;
      var m := matches[k];
      if m.player1 == user {
        matches := matches[k := m.(active1 := Some(now))];
      } else if m.player2 == user {
        matches := matches[k := m.(active2 := Some(now))];
      }
      ok := true;
    }
  }
}
