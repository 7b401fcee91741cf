/**
 * One duel between two players: the match record kept in the match table,
 * and the pure rules that the answer, poll, quit and heartbeat handlers apply
 * to one match (the game endpoints of backend/app_api.py).
 */
module Duel {
  import opened Common

  type UserId = int

  /** What a player sends as an answer; the engine stores it but never inspects it. */
  type Answer = string

  /** A row of the `users` table, as the game handlers read it. */
  datatype User = User(username: string, fullName: Option<string>, role: string)

  /** The identity carried in a match and in a pending entry: `{user_id, username, full_name}`. */
  datatype UserData = UserData(userId: UserId, username: string, fullName: string)

  /** `full_name or username`: a NULL or empty full name falls back to the username. */
  function DisplayName(u: User): (name: string)
    ensures u.fullName.Some? && u.fullName.value != "" ==> name == u.fullName.value
    ensures u.fullName.None? || u.fullName.value == "" ==> name == u.username
    ensures name == "" ==> u.username == ""
  {
    if u.fullName.Some? && u.fullName.value != "" then u.fullName.value else u.username
  }

  function DataOf(id: UserId, u: User): UserData {
    UserData(id, u.username, DisplayName(u))
  }

  /** One quiz question as stored in questions.json. */
  datatype Question = Question(q: string, options: seq<string>, answer: string, isMulti: bool)

  /**
   * One player's answer slot. The source keeps three keys per player
   * (`playerN_answered`, `playerN_answer`, `playerN_correct`) that are always
   * written together and cleared together, so they are one value here:
   * `Empty` is (False, None, None).
   */
  datatype Slot = Empty | Answered(answer: Answer, correct: bool)

  /** `winner`: a user id or the string 'draw'. */
  datatype Outcome = Won(player: UserId) | Draw

  /** `last_round_result`: the cached outcome of the last resolved round. */
  datatype RoundResult = RoundResult(
    p1Correct: bool, p2Correct: bool,
    p1Dmg: int, p2Dmg: int,
    p1Hp: int, p2Hp: int,
    questionIdx: nat,
    processedBy: seq<UserId>)

  /**
   * A match record. `activeN` is `playerN_last_active`, absent until that
   * player's first heartbeat. The constant `my_turn` key is never read and is
   * not kept.
   */
  datatype Match = Match(
    matchId: string,
    player1: UserId, player2: UserId,
    player1Data: UserData, player2Data: UserData,
    hp1: int, hp2: int,
    slot1: Slot, slot2: Slot,
    questionIdx: nat,
    questions: seq<Question>,
    createdAt: int,
    gameOver: bool,
    winner: Option<Outcome>,
    lastRound: Option<RoundResult>,
    active1: Option<int>, active2: Option<int>)

  const StartHp := 100
  /** Seconds after which a silent opponent counts as gone. */
  const HeartbeatTimeout := 90

  /** The built-in question bank written to questions.json when that file is missing. */
  function DefaultQuestions(): (qs: seq<Question>)
    ensures |qs| == 17
    ensures forall k :: 0 <= k < |qs| ==> (qs[k].isMulti <==> k >= 15)
    ensures forall k :: 0 <= k < |qs| ==> |qs[k].options| == 4
  {
    [ Question("1+1=", ["1", "2", "3", "4"], "B", false),
      Question("2+2=", ["3", "4", "5", "6"], "B", false),
      Question("3+3=", ["5", "6", "7", "8"], "B", false),
      Question("中国的首都是？", ["上海", "北京", "广州", "深圳"], "B", false),
      Question("太阳从哪边升起？", ["西", "东", "南", "北"], "B", false),
      Question("水有几个氢原子？", ["1", "2", "3", "4"], "B", false),
      Question("下列哪个是水果？", ["汽车", "苹果", "桌子", "电视"], "B", false),
      Question("1小时有多少分钟？", ["30", "60", "90", "120"], "B", false),
      Question("兔子的耳朵有几个？", ["1", "2", "3", "4"], "B", false),
      Question("天空是什么颜色？", ["红色", "蓝色", "绿色", "黄色"], "B", false),
      Question("下面哪个是动物？", ["石头", "狗", "椅子", "书本"], "B", false),
      Question("2x3等于多少？", ["5", "6", "7", "8"], "B", false),
      Question("一年有几个季节？", ["2", "3", "4", "5"], "C", false),
      Question("下列哪个是蔬菜？", ["香蕉", "苹果", "胡萝卜", "葡萄"], "C", false),
      Question("人有多少根手指？", ["5", "10", "15", "20"], "B", false),
      Question("下列哪些是水果？", ["苹果", "香蕉", "胡萝卜", "葡萄"], "A,B,D", true),
      Question("下列哪些是动物？", ["狗", "猫", "桌子", "鸟"], "A,B,D", true) ]
  }

  /** `str(int(now)) + str(user_id)`: the id given to a match created by `joiner`. */
  function MatchId(now: int, joiner: UserId): (id: string)
    ensures |id| >= 2
  {
    IntToString(now) + IntToString(joiner)
  }

  /** The record `game_match` appends when the joiner `p2` is paired with the waiting `p1`. */
  function NewMatch(id: string, p1: UserId, p1Data: UserData, p2: UserId, p2Data: UserData,
                    questions: seq<Question>, now: int): Match
  {
    Match(id, p1, p2, p1Data, p2Data, StartHp, StartHp, Empty, Empty, 0,
          questions, now, false, None, None, None, None)
  }

  /** The invariant every match in the table keeps. */
  predicate Inv(m: Match) {
    && m.player1 != m.player2
    && 0 <= m.hp1 <= StartHp && 0 <= m.hp2 <= StartHp
    && (m.gameOver <==> m.winner.Some?)
    && (if m.questions == [] then m.questionIdx <= 1 && (!m.gameOver ==> m.questionIdx == 0)
        else m.questionIdx <= |m.questions| && (!m.gameOver ==> m.questionIdx < |m.questions|))
    && (m.lastRound.Some? ==>
          && NoDup(m.lastRound.value.processedBy)
          && m.lastRound.value.p1Hp == m.hp1 && m.lastRound.value.p2Hp == m.hp2
          && m.lastRound.value.questionIdx + 1 == m.questionIdx)
  }

  predicate NoDup(s: seq<UserId>) {
    forall i, j :: 0 <= i < j < |s| ==> s[i] != s[j]
  }

  /** A fresh match between two different users satisfies the invariant. */
  lemma NewMatchInv(id: string, p1: UserId, p1Data: UserData, p2: UserId, p2Data: UserData,
                    questions: seq<Question>, now: int)
    requires p1 != p2
    ensures var m := NewMatch(id, p1, p1Data, p2, p2Data, questions, now);
      Inv(m) && m.hp1 == m.hp2 == 100 && m.questionIdx == 0 && !m.gameOver && m.winner == None
      && m.slot1 == m.slot2 == Empty && m.lastRound == None
  {
  }

  // ---------------------------------------------------------------------------
  // Answer submission and round resolution
  // ---------------------------------------------------------------------------

  /**
   * The fixed damage table: the damage dealt to player 1 and to player 2 for
   * the two correctness values.
   */
  function Damage(c1: bool, c2: bool): (d: (int, int))
    ensures c1 <==> d.0 == 0
    ensures c2 <==> d.1 == 0
    ensures d.0 == 20 <==> !c1 && c2
    ensures d.1 == 20 <==> c1 && !c2
    ensures !c1 && !c2 ==> d.0 + d.1 == 20 && d.0 == d.1
  {
    if c1 && c2 then (0, 0)
    else if c1 && !c2 then (0, 20)
    else if !c1 && c2 then (20, 0)
    else (10, 10)
  }

  /** Swapping the two players swaps the two damages. */
  lemma DamageSymmetric(c1: bool, c2: bool)
    ensures Damage(c2, c1) == (Damage(c1, c2).1, Damage(c1, c2).0)
  {
  }

  /** `max(0, hp - dmg)`. */
  function FloorHp(hp: int, dmg: int): (r: int)
    requires 0 <= hp && 0 <= dmg
    ensures 0 <= r <= hp
    ensures r == 0 || r == hp - dmg
    ensures dmg <= hp ==> r == hp - dmg
  {
    Max(0, hp - dmg)
  }

  /** The winner rule: the side with strictly more hp, otherwise a draw. */
  function Decide(m: Match): (w: Outcome)
    ensures w == Won(m.player1) && m.player1 != m.player2 ==> m.hp1 > m.hp2
    ensures w == Won(m.player2) && m.player1 != m.player2 ==> m.hp2 > m.hp1
    ensures w == Draw <==> m.hp1 == m.hp2
    ensures w.Won? ==> w.player == m.player1 || w.player == m.player2
  {
    if m.hp1 > m.hp2 then Won(m.player1)
    else if m.hp2 > m.hp1 then Won(m.player2)
    else Draw
  }

  /** Fills the caller's slot; a caller who is not player 1 is treated as player 2. */
  function Record(m: Match, user: UserId, answer: Answer, correct: bool): Match {
    if m.player1 == user then m.(slot1 := Answered(answer, correct))
    else m.(slot2 := Answered(answer, correct))
  }

  /** Resolves a round once both slots are filled: damage, cache, clear, advance, game-over check. */
  function Resolve(m: Match): Match
    requires m.slot1.Answered? && m.slot2.Answered?
  {
    var c1, c2 := m.slot1.correct, m.slot2.correct;
    var d := Damage(c1, c2);
    var hp1 := Max(0, m.hp1 - d.0);
    var hp2 := Max(0, m.hp2 - d.1);
    var idx := m.questionIdx + 1;
    var m1 := m.(hp1 := hp1, hp2 := hp2,
                 lastRound := Some(RoundResult(c1, c2, d.0, d.1, hp1, hp2, m.questionIdx, [])),
                 slot1 := Empty, slot2 := Empty,
                 questionIdx := idx);
    if hp1 <= 0 || hp2 <= 0 || idx >= |m.questions| then
      m1.(gameOver := true, winner := Some(Decide(m1)))
    else m1
  }

  /** What `submit_game_answer` answers for a match it found. */
  datatype AnswerReply = Rejected | Recorded(round: Option<RoundResult>)

  /**
   * `submit_game_answer` on a found match: refused on a finished match,
   * otherwise record the answer and resolve the round when both slots are full.
   */
  function Submit(m: Match, user: UserId, answer: Answer, correct: bool): (Match, AnswerReply) {
    if m.gameOver then (m, Rejected)
    else
      var m1 := Record(m, user, answer, correct);
      if m1.slot1.Answered? && m1.slot2.Answered? then
        var m2 := Resolve(m1);
        (m2, Recorded(m2.lastRound))
      else (m1, Recorded(None))
  }

  /** The slot a caller writes: player 1's own, anybody else's is player 2's. */
  function OwnSlot(m: Match, user: UserId): Slot {
    if m.player1 == user then m.slot1 else m.slot2
  }

  function OtherSlot(m: Match, user: UserId): Slot {
    if m.player1 == user then m.slot2 else m.slot1
  }

  /** A submission resolves the round exactly when the other slot was already filled. */
  lemma SubmitResolvesIffOtherAnswered(m: Match, user: UserId, answer: Answer, correct: bool)
    requires !m.gameOver
    ensures var (m', reply) := Submit(m, user, answer, correct);
      && reply.Recorded?
      && (reply.round.Some? <==> OtherSlot(m, user).Answered?)
      && (reply.round.None? ==>
            m' == m.(slot1 := if m.player1 == user then Answered(answer, correct) else m.slot1,
                     slot2 := if m.player1 == user then m.slot2 else Answered(answer, correct)))
  {
  }

  /** The damage, hp floor, cache, clear and advance steps of a resolution. */
  lemma ResolveEffects(m: Match, user: UserId, answer: Answer, correct: bool)
    requires Inv(m) && !m.gameOver
    requires OtherSlot(m, user).Answered?
    ensures var (m', reply) := Submit(m, user, answer, correct);
      var c1 := if m.player1 == user then correct else m.slot1.correct;
      var c2 := if m.player1 == user then m.slot2.correct else correct;
      var d := Damage(c1, c2);
      && m'.slot1 == Empty && m'.slot2 == Empty
      && m'.questionIdx == m.questionIdx + 1
      && 0 <= m'.hp1 <= m.hp1 && 0 <= m'.hp2 <= m.hp2
      && m'.hp1 == FloorHp(m.hp1, d.0) && m'.hp2 == FloorHp(m.hp2, d.1)
      && reply == Recorded(m'.lastRound)
      && m'.lastRound == Some(RoundResult(c1, c2, d.0, d.1, m'.hp1, m'.hp2, m.questionIdx, []))
      && (m'.gameOver <==> m'.hp1 == 0 || m'.hp2 == 0 || m'.questionIdx >= |m.questions|)
      && (m'.gameOver ==> m'.winner == Some(Decide(m')))
      && (!m'.gameOver ==> m'.winner == None)
      && m'.player1 == m.player1 && m'.player2 == m.player2 && m'.matchId == m.matchId
      && m'.questions == m.questions && m'.active1 == m.active1 && m'.active2 == m.active2
      && m'.player1Data == m.player1Data && m'.player2Data == m.player2Data
      && m'.createdAt == m.createdAt
      && m' == m.(hp1 := m'.hp1, hp2 := m'.hp2, slot1 := Empty, slot2 := Empty,
                  questionIdx := m'.questionIdx, lastRound := m'.lastRound,
                  gameOver := m'.gameOver, winner := m'.winner)
  {
  }

  /** Answering keeps the match invariant. */
  lemma SubmitInv(m: Match, user: UserId, answer: Answer, correct: bool)
    requires Inv(m)
    ensures Inv(Submit(m, user, answer, correct).0)
  {
    if !m.gameOver {
      var m1 := Record(m, user, answer, correct);
      if m1.slot1.Answered? && m1.slot2.Answered? {
        var m2 := Resolve(m1);
        assert m2.lastRound.value.processedBy == [];
      }
    }
  }

  // ---------------------------------------------------------------------------
  // Polling (get_game_state)
  // ---------------------------------------------------------------------------

  datatype QuestionView = QuestionView(question: string, options: seq<string>, isMulti: bool)

  /** The `round_result` object of a poll reply (without `question_idx` and `processed_by`). */
  datatype RoundView = RoundView(p1Correct: bool, p2Correct: bool, p1Dmg: int, p2Dmg: int, p1Hp: int, p2Hp: int)

  /**
   * The replies of `get_game_state`. `RoundReport` also carries
   * `both_answered` and `player_answered`, both always true, and `Live` carries
   * `opponent_left`, always false; those constants are not kept.
   */
  datatype StateView =
    | NoMatch
    | Finished(winner: Option<Outcome>)
    | TimedOut(winnerId: UserId)
    | RoundReport(round: RoundView, hp: int, opponentHp: int, question: Option<QuestionView>,
                  questionIdx: nat, totalQuestions: nat)
    | Live(hp: int, opponentHp: int, question: Option<QuestionView>, questionIdx: nat,
           bothAnswered: bool, playerAnswered: bool, totalQuestions: nat)

  function CurrentQuestion(m: Match): (v: Option<QuestionView>)
    ensures v.Some? <==> m.questionIdx < |m.questions|
    ensures v.Some? ==>
      var q := m.questions[m.questionIdx];
      v.value == QuestionView(q.q, q.options, q.isMulti)
  {
    if m.questionIdx < |m.questions| then
      var q := m.questions[m.questionIdx];
      Some(QuestionView(q.q, q.options, q.isMulti))
    else None
  }

  /** The heartbeat stamp of the caller's opponent (player 1's for anybody who is not player 1). */
  function OpponentStamp(m: Match, user: UserId): Option<int> {
    if m.player1 == user then m.active2 else m.active1
  }

  /** Whether the poller's opponent has been silent for more than 90 seconds. */
  predicate OpponentTimedOut(m: Match, user: UserId, now: int) {
    var s := OpponentStamp(m, user);
    s.Some? && now - s.value > HeartbeatTimeout
  }

  /** `get_game_state` on a found match: the new match record and the reply. */
  function Poll(m: Match, user: UserId, now: int): (Match, StateView) {
    if m.gameOver then (m, Finished(m.winner))
    else if OpponentTimedOut(m, user, now) then
      (m.(gameOver := true, winner := Some(Won(user))), TimedOut(user))
    else
      var isP1 := m.player1 == user;
      match m.lastRound
      case Some(r) =>
        var m' := if user in r.processedBy then m
                  else m.(lastRound := Some(r.(processedBy := r.processedBy + [user])));
        (m', RoundReport(RoundView(r.p1Correct, r.p2Correct, r.p1Dmg, r.p2Dmg, r.p1Hp, r.p2Hp),
                         if isP1 then r.p1Hp else r.p2Hp,
                         if isP1 then r.p2Hp else r.p1Hp,
                         CurrentQuestion(m), m.questionIdx, |m.questions|))
      case None =>
        (m, Live(if isP1 then m.hp1 else m.hp2, if isP1 then m.hp2 else m.hp1,
                 CurrentQuestion(m), m.questionIdx,
                 m.slot1.Answered? && m.slot2.Answered?, OwnSlot(m, user).Answered?,
                 |m.questions|))
  }

  /** A poll on a finished match reports the stored winner and changes nothing. */
  lemma PollFinished(m: Match, user: UserId, now: int)
    requires m.gameOver
    ensures Poll(m, user, now) == (m, Finished(m.winner))
  {
  }

  /**
   * Timeout detection: an open match ends with the poller as winner exactly
   * when the opponent's heartbeat is older than 90 seconds; a missing opponent
   * heartbeat never ends it. Nothing but `game_over` and `winner` changes.
   */
  lemma PollTimeout(m: Match, user: UserId, now: int)
    requires !m.gameOver
    ensures var (m', v) := Poll(m, user, now);
      && (v.TimedOut? <==> OpponentStamp(m, user).Some? && now - OpponentStamp(m, user).value > 90)
      && (OpponentStamp(m, user).None? ==> !m'.gameOver)
      && (v.TimedOut? ==> v.winnerId == user && m' == m.(gameOver := true, winner := Some(Won(user))))
      && (!v.TimedOut? ==> !m'.gameOver && m'.winner == m.winner)
  {
  }

  /**
   * While a cached round result exists, every poll that does not time out
   * returns it; the caller is added to `processed_by` only when absent, so the
   * list stays free of duplicates and the caller occurs in it exactly once.
   */
  lemma PollRecordsProcessedOnce(m: Match, user: UserId, now: int)
    requires Inv(m) && !m.gameOver && !OpponentTimedOut(m, user, now) && m.lastRound.Some?
    ensures var (m', v) := Poll(m, user, now);
      var r := m.lastRound.value;
      && v.RoundReport?
      && v.round == RoundView(r.p1Correct, r.p2Correct, r.p1Dmg, r.p2Dmg, r.p1Hp, r.p2Hp)
      && v.hp == (if user == m.player1 then m.hp1 else m.hp2)
      && v.opponentHp == (if user == m.player1 then m.hp2 else m.hp1)
      && v.question == CurrentQuestion(m) && v.questionIdx == m.questionIdx
      && v.totalQuestions == |m.questions|
      && m'.lastRound.Some?
      && m'.lastRound.value == r.(processedBy := m'.lastRound.value.processedBy)
      && NoDup(m'.lastRound.value.processedBy)
      && multiset(m'.lastRound.value.processedBy)[user] == 1
      && m'.lastRound.value.processedBy ==
           (if user in r.processedBy then r.processedBy else r.processedBy + [user])
      && m' == m.(lastRound := m'.lastRound)
  {
    var r := m.lastRound.value;
    var p' := if user in r.processedBy then r.processedBy else r.processedBy + [user];
    NoDupAppend(r.processedBy, user);
    NoDupCount(p', user);
  }

  /**
   * The usual poll, on an open match with no cached round and an opponent
   * who is not timed out: the match is left as it is, and the reply reports
   * the caller's and the opponent's hp by side, the question at the current
   * index, whether both slots are filled and whether the caller's own slot
   * (player 2's for anybody who is not player 1) is filled.
   */
  lemma PollLive(m: Match, user: UserId, now: int)
    requires Inv(m) && !m.gameOver && !OpponentTimedOut(m, user, now) && m.lastRound.None?
    ensures var (m', v) := Poll(m, user, now);
      && m' == m
      && v.Live?
      && v.hp == (if user == m.player1 then m.hp1 else m.hp2)
      && v.opponentHp == (if user == m.player1 then m.hp2 else m.hp1)
      && v.question == CurrentQuestion(m) && (v.question.Some? <==> m.questions != [])
      && v.questionIdx == m.questionIdx && v.totalQuestions == |m.questions|
      && (v.bothAnswered <==> m.slot1.Answered? && m.slot2.Answered?)
      && (v.playerAnswered <==> OwnSlot(m, user).Answered?)
      && (v.playerAnswered <==> (if user == m.player1 then m.slot1 else m.slot2).Answered?)
  {
  }

  lemma NoDupAppend(s: seq<UserId>, u: UserId)
    requires NoDup(s)
    ensures NoDup(if u in s then s else s + [u])
  {
  }

  /** In a list without duplicates a member occurs exactly once. */
  lemma {:induction false} NoDupCount(s: seq<UserId>, u: UserId)
    requires NoDup(s) && u in s
    ensures multiset(s)[u] == 1
  {
    if s[0] == u {
      assert s == [u] + s[1..];
      assert u !in s[1..];
    } else {
      assert s == [s[0]] + s[1..];
      NoDupCount(s[1..], u);
    }
  }

  /** Polling twice at the same moment leaves the same match as polling once. */
  lemma PollIdempotent(m: Match, user: UserId, now: int)
    ensures Poll(Poll(m, user, now).0, user, now).0 == Poll(m, user, now).0
  {
  }

  /** Polling keeps the match invariant. */
  lemma PollInv(m: Match, user: UserId, now: int)
    requires Inv(m)
    ensures Inv(Poll(m, user, now).0)
  {
    if !m.gameOver && !OpponentTimedOut(m, user, now) && m.lastRound.Some? {
      NoDupAppend(m.lastRound.value.processedBy, user);
    }
  }

  // ---------------------------------------------------------------------------
  // Quit and heartbeat
  // ---------------------------------------------------------------------------

  /** The player declared winner when `user` quits: player 2 if the caller is player 1, else player 1. */
  function Opponent(m: Match, user: UserId): (o: UserId)
    ensures m.player1 != m.player2 && (user == m.player1 || user == m.player2) ==> o != user
    ensures o == m.player1 || o == m.player2
  {
    if m.player1 == user then m.player2 else m.player1
  }

  /** `quit_game` on an open match. */
  function Quit(m: Match, user: UserId): (m': Match)
    requires !m.gameOver
    ensures m'.gameOver && m'.winner == Some(Won(Opponent(m, user)))
    ensures m' == m.(gameOver := true, winner := m'.winner)
  {
    m.(gameOver := true, winner := Some(Won(Opponent(m, user))))
  }

  /** Quitting makes the other participant the winner; an outsider quitting makes player 1 win. */
  lemma QuitWinner(m: Match, user: UserId)
    requires Inv(m) && !m.gameOver
    ensures user == m.player1 ==> Quit(m, user).winner == Some(Won(m.player2))
    ensures user == m.player2 ==> Quit(m, user).winner == Some(Won(m.player1))
    ensures user != m.player1 ==> Quit(m, user).winner == Some(Won(m.player1))
    ensures Inv(Quit(m, user))
  {
  }

  /** `game_heartbeat` on an open match: stamps the caller's own slot; an outsider changes nothing. */
  function Heartbeat(m: Match, user: UserId, now: int): (m': Match)
    ensures user == m.player1 ==> m' == m.(active1 := Some(now))
    ensures user != m.player1 && user == m.player2 ==> m' == m.(active2 := Some(now))
    ensures user != m.player1 && user != m.player2 ==> m' == m
  {
    if m.player1 == user then m.(active1 := Some(now))
    else if m.player2 == user then m.(active2 := Some(now))
    else m
  }

  /** A fresh heartbeat from the opponent rules out a timeout at that moment. */
  lemma HeartbeatPreventsTimeout(m: Match, user: UserId, opponent: UserId, now: int)
    requires Inv(m) && user in {m.player1, m.player2} && opponent == Opponent(m, user)
    ensures !OpponentTimedOut(Heartbeat(m, opponent, now), user, now)
    ensures Inv(Heartbeat(m, opponent, now))
  {
  }

  /**
   * Once a match is finished nothing changes it: an answer is refused, a poll
   * reports the stored winner, and quit and heartbeat skip finished matches
   * (their handlers look only for open matches).
   */
  lemma FinishedIsFinal(m: Match, user: UserId, answer: Answer, correct: bool, now: int)
    requires m.gameOver
    ensures Submit(m, user, answer, correct) == (m, Rejected)
    ensures Poll(m, user, now).0 == m
  {
  }

  /**
   * A match id is not unique across time stamps of different digit counts:
   * two different (time, joiner) pairs give the same text.
   */
  lemma MatchIdsCollide()
    ensures MatchId(1, 23) == MatchId(12, 3)
  {
    assert IntToString(23) == "23" && IntToString(12) == "12";
  }

  /**
   * Among time stamps with the same number of digits (every real clock value
   * for centuries) the id determines the time and the joiner, so two matches
   * share an id only when one joiner is paired twice within the same second.
   */
  lemma MatchIdSameWidth(t1: int, u1: UserId, t2: int, u2: UserId)
    requires |IntToString(t1)| == |IntToString(t2)|
    ensures MatchId(t1, u1) == MatchId(t2, u2) <==> t1 == t2 && u1 == u2
  {
    if MatchId(t1, u1) == MatchId(t2, u2) {
      var a, b := IntToString(t1), IntToString(t2);
      var id := MatchId(t1, u1);
      assert id[..|a|] == a && id[|a|..] == IntToString(u1);
      assert MatchId(t2, u2)[..|b|] == b && MatchId(t2, u2)[|b|..] == IntToString(u2);
      IntToStringInjective(t1, t2);
      IntToStringInjective(u1, u2);
    }
  }

  /**
   * One round from the start: player 1 answers right, player 2 wrong. The
   * first answer only waits; the second resolves the round with 20 damage to
   * player 2 and moves to the second question.
   */
  lemma FirstRoundScenario(p1: UserId, d1: UserData, p2: UserId, d2: UserData,
                           qs: seq<Question>, now: int, a1: Answer, a2: Answer)
    requires p1 != p2 && |qs| >= 2
    ensures var m0 := NewMatch("m", p1, d1, p2, d2, qs, now);
      var (m1, r1) := Submit(m0, p1, a1, true);
      var (m2, r2) := Submit(m1, p2, a2, false);
      && r1 == Recorded(None)
      && r2 == Recorded(Some(RoundResult(true, false, 0, 20, 100, 80, 0, [])))
      && m2.hp1 == 100 && m2.hp2 == 80 && m2.questionIdx == 1 && !m2.gameOver
      && m2.slot1 == Empty && m2.slot2 == Empty
  {
  }
}
