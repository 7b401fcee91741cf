/**
 * Small pure rules of the two servers: the upload extension check, the
 * automatic marking of choice questions (two variants), and the cap on stored
 * whiteboard drawings.
 */
module Coursework {
  import opened Common

  // ---------------------------------------------------------------------------
  // allowed_file (backend/app_api.py)
  // ---------------------------------------------------------------------------

  const AttachmentExtensions: set<string> :=
    {"xlsx", "xls", "doc", "docx", "zip", "rar", "jpg", "jpeg", "png", "gif", "pdf"}
  const SubmissionExtensions: set<string> :=
    {"zip", "rar", "jpg", "jpeg", "png", "gif", "pdf", "doc", "docx"}

  /** ASCII lower-casing of one character. */
  function LowerChar(c: char): (r: char)
    ensures 'A' <= c <= 'Z' ==> 'a' <= r <= 'z'
    ensures !('A' <= c <= 'Z') ==> r == c
  {
    if 'A' <= c <= 'Z' then (c as int + 32) as char else c
  }

  function Lower(s: string): (r: string)
    ensures |r| == |s|
    ensures forall k :: 0 <= k < |s| ==> r[k] == LowerChar(s[k])
  {
    seq(|s|, k requires 0 <= k < |s| => LowerChar(s[k]))
  }

  /** The position of the last '.' in `s`. */
  function LastDot(s: string): (r: Option<nat>)
    ensures r.Some? ==> r.value < |s| && s[r.value] == '.'
    ensures r.Some? ==> forall k :: r.value < k < |s| ==> s[k] != '.'
    ensures r.None? <==> '.' !in s
    decreases |s|
  {
    if s == [] then None
    else if s[|s| - 1] == '.' then Some(|s| - 1)
    else LastDot(s[..|s| - 1])
  }

  /** `filename.rsplit('.', 1)[-1].lower() if '.' in filename else ''`. */
  function Extension(filename: string): (ext: string)
    ensures '.' !in ext
    ensures '.' !in filename ==> ext == ""
  {
    match LastDot(filename)
    case None => ""
    case Some(i) => Lower(filename[i + 1..])
  }

  /** `allowed_file`: whether the lower-cased extension is in the allowed set. */
  predicate AllowedFile(filename: string, allowed: set<string>) {
    Extension(filename) in allowed
  }

  /** The extension of `base.ext` is the lower-cased `ext`, whatever dots `base` holds. */
  lemma ExtensionOfName(base: string, ext: string)
    requires '.' !in ext
    ensures Extension(base + "." + ext) == Lower(ext)
  {
    var name := base + "." + ext;
    var i := LastDot(name).value;
    assert name[|base|] == '.';
    assert forall k :: |base| < k < |name| ==> name[k] == ext[k - |base| - 1];
    assert i == |base|;
    assert name[|base| + 1..] == ext;
  }

  /** A name without a dot, or ending in a dot, is never allowed. */
  lemma NoExtensionNotAllowed(filename: string, allowed: set<string>)
    requires '.' !in filename || (|filename| > 0 && filename[|filename| - 1] == '.')
    requires "" !in allowed
    ensures !AllowedFile(filename, allowed)
  {
  }

  // ---------------------------------------------------------------------------
  // Comma splitting, as Python's str.split(',')
  // ---------------------------------------------------------------------------

  function SplitComma(s: string): (parts: seq<string>)
    ensures |parts| >= 1
    ensures forall k :: 0 <= k < |parts| ==> ',' !in parts[k]
    decreases |s|
  {
    if s == [] then [""]
    else
      var rest := SplitComma(s[1..]);
      if s[0] == ',' then [""] + rest
      else [[s[0]] + rest[0]] + rest[1..]
  }

  function JoinComma(parts: seq<string>): string
    requires |parts| >= 1
    decreases |parts|
  {
    if |parts| == 1 then parts[0] else parts[0] + "," + JoinComma(parts[1..])
  }

  /** Splitting then joining with commas gives back the text. */
  lemma {:induction false} JoinSplit(s: string)
    ensures JoinComma(SplitComma(s)) == s
    decreases |s|
  {
    if s != [] {
      var rest := SplitComma(s[1..]);
      JoinSplit(s[1..]);
      if s[0] == ',' {
        assert SplitComma(s) == [""] + rest;
        assert SplitComma(s)[1..] == rest;
      } else {
        var parts := SplitComma(s);
        assert parts == [[s[0]] + rest[0]] + rest[1..];
        if |rest| == 1 {
          assert JoinComma(parts) == [s[0]] + rest[0];
        } else {
          assert parts[1..] == rest[1..];
          assert JoinComma(rest) == rest[0] + "," + JoinComma(rest[1..]);
        }
      }
    }
  }

  /** Joining comma-free pieces and splitting again gives back the pieces. */
  lemma {:induction false} SplitJoin(parts: seq<string>)
    requires |parts| >= 1
    requires forall k :: 0 <= k < |parts| ==> ',' !in parts[k]
    ensures SplitComma(JoinComma(parts)) == parts
    decreases |parts|, |parts[0]|
  {
    if |parts| == 1 {
      SplitNoComma(parts[0]);
    } else if parts[0] == "" {
      SplitJoin(parts[1..]);
      var j := JoinComma(parts);
      assert j == "," + JoinComma(parts[1..]);
      assert j[1..] == JoinComma(parts[1..]);
      assert parts == [""] + parts[1..];
    } else {
      var p := parts[0];
      var tail := [p[1..]] + parts[1..];
      assert tail[1..] == parts[1..];
      assert forall k :: 1 <= k < |tail| ==> tail[k] == parts[k];
      SplitJoin(tail);
      assert JoinComma(parts) == [p[0]] + JoinComma(tail) by {
        assert JoinComma(tail) == p[1..] + "," + JoinComma(parts[1..]);
        assert p == [p[0]] + p[1..];
      }
      var j := JoinComma(parts);
      assert j[0] == p[0] && j[1..] == JoinComma(tail);
      assert SplitComma(j) == [[p[0]] + tail[0]] + tail[1..];
      assert [p[0]] + tail[0] == p;
      assert parts == [p] + parts[1..];
    }
  }

  lemma {:induction false} SplitNoComma(s: string)
    requires ',' !in s
    ensures SplitComma(s) == [s]
    decreases |s|
  {
    if s != [] {
      SplitNoComma(s[1..]);
      assert s == [s[0]] + s[1..];
    }
  }

  function Pieces(s: string): set<string> {
    set p | p in SplitComma(s)
  }

  // ---------------------------------------------------------------------------
  // Marking a choice assignment (backend/app_api.py, submit_assignment)
  // ---------------------------------------------------------------------------

  /** The assignment row fields the marking reads; `correctAnswer` may be NULL. */
  datatype Assignment = Assignment(kind: string, correctAnswer: Option<string>, points: int)

  /** An earlier, not deleted submission of the same user to the same assignment. */
  datatype Submission = Submission(answer: Option<string>, score: int, isCorrect: int)

  /** What `submit_assignment` does once the assignment is found. */
  datatype SubmitAction =
    | Refused(storedAnswer: Option<string>, storedIsCorrect: int)
    | Updated(answer: Option<string>, score: int, isCorrect: int)
    | Inserted(answer: Option<string>, score: int, isCorrect: int)

  predicate IsChoice(kind: string) {
    kind == "single_choice" || kind == "multiple_choice"
  }

  /** `x or ''` for a text that may be NULL. */
  function OrEmpty(s: Option<string>): string {
    if s.Some? then s.value else ""
  }

  /**
   * The correctness test of a first choice submission: comma-split sets
   * compared for multiple choice, the exact text for single choice.
   */
  predicate ChoiceCorrect(kind: string, answer: Option<string>, key: Option<string>) {
    if kind == "multiple_choice" then Pieces(OrEmpty(answer)) == Pieces(OrEmpty(key))
    else answer == Some(OrEmpty(key))
  }

  function SubmitAssignment(a: Assignment, existing: Option<Submission>, answer: Option<string>): SubmitAction {
    if existing.Some? then
      if IsChoice(a.kind) then Refused(existing.value.answer, existing.value.isCorrect)
      else Updated(answer, existing.value.score, existing.value.isCorrect)
    else if IsChoice(a.kind) then
      if ChoiceCorrect(a.kind, answer, a.correctAnswer) then Inserted(answer, a.points, 1)
      else Inserted(answer, 0, 0)
    else Inserted(answer, 0, 0)
  }

  /**
   * A choice answer is final: a second submission is refused with the stored
   * answer and grade. Other kinds keep the stored grade and take the new text.
   */
  lemma ResubmissionRule(a: Assignment, s: Submission, answer: Option<string>)
    ensures IsChoice(a.kind) ==> SubmitAssignment(a, Some(s), answer) == Refused(s.answer, s.isCorrect)
    ensures !IsChoice(a.kind) ==> SubmitAssignment(a, Some(s), answer) == Updated(answer, s.score, s.isCorrect)
  {
  }

  /**
   * A first submission is inserted with `is_correct` 1 and the full points
   * exactly when it is graded correct, else with 0 and 0; only choice kinds
   * can be graded correct.
   */
  lemma FirstSubmissionRule(a: Assignment, answer: Option<string>)
    ensures var r := SubmitAssignment(a, None, answer);
      && r.Inserted? && r.answer == answer
      && (r.isCorrect == 1 <==> IsChoice(a.kind) && ChoiceCorrect(a.kind, answer, a.correctAnswer))
      && r.isCorrect in {0, 1}
      && r.score == (if r.isCorrect == 1 then a.points else 0)
  {
  }

  /**
   * Multiple choice ignores order and repetition: answers with the same set of
   * comma-separated options get the same grade.
   */
  lemma MultipleChoiceOrderFree(a: Assignment, x: string, y: string)
    requires a.kind == "multiple_choice" && Pieces(x) == Pieces(y)
    ensures SubmitAssignment(a, None, Some(x)).isCorrect == SubmitAssignment(a, None, Some(y)).isCorrect
    ensures SubmitAssignment(a, None, Some(x)).score == SubmitAssignment(a, None, Some(y)).score
  {
  }

  /** "B,A" and "A,A,B" both match the key "A,B"; "A" does not. */
  lemma MultipleChoiceExamples()
    ensures Pieces("B,A") == Pieces("A,B") == Pieces("A,A,B") == {"A", "B"}
    ensures Pieces("A") != Pieces("A,B")
  {
    SplitJoin(["A", "B"]);
    SplitJoin(["B", "A"]);
    SplitJoin(["A", "A", "B"]);
    SplitNoComma("A");
    assert JoinComma(["A", "B"]) == "A,B";
    assert JoinComma(["B", "A"]) == "B,A";
    assert JoinComma(["A", "A", "B"]) == "A,A,B";
    assert "B" in Pieces("A,B");
  }

  // ---------------------------------------------------------------------------
  // Marking in backend/full_server.py (LMSHandler.handle_submit)
  // ---------------------------------------------------------------------------

  /**
   * The second server's rule: `(is_correct, score)` is `(1, points)` when a
   * single-choice or true/false answer equals the stored key, else `(0, 0)`.
   * A NULL key equals only a null answer.
   */
  function ScoreSubmission(kind: string, answer: Option<string>, key: Option<string>, points: int): (r: (int, int))
    ensures r.0 == 1 <==> (kind == "single_choice" || kind == "true_false") && answer == key
    ensures r == (1, points) || r == (0, 0)
  {
    if (kind == "single_choice" || kind == "true_false") && answer == key then (1, points) else (0, 0)
  }

  /** Both servers mark a first single-choice answer alike when the key is set. */
  lemma ServersAgreeOnSingleChoice(a: Assignment, answer: Option<string>)
    requires a.kind == "single_choice" && a.correctAnswer.Some?
    ensures var r := SubmitAssignment(a, None, answer);
      (r.isCorrect, r.score) == ScoreSubmission(a.kind, answer, a.correctAnswer, a.points)
  {
  }

  /** The second server never credits a multiple-choice answer, even one equal to the key. */
  lemma SecondServerIgnoresMultipleChoice(answer: string, points: int)
    requires points != 0
    ensures ScoreSubmission("multiple_choice", Some(answer), Some(answer), points) == (0, 0)
    ensures SubmitAssignment(Assignment("multiple_choice", Some(answer), points), None, Some(answer)).score == points
  {
  }

  // ---------------------------------------------------------------------------
  // The drawings cap of save_whiteboard (backend/app_api.py)
  // ---------------------------------------------------------------------------

  const MaxDrawings := 500

  /** `existing.extend(drawings); existing[-500:]`, done only when `drawings` is not empty. */
  function AppendDrawings<T>(existing: seq<T>, drawings: seq<T>): (r: seq<T>)
    ensures drawings == [] ==> r == existing
    ensures drawings != [] ==> |r| == if |existing| + |drawings| <= MaxDrawings then |existing| + |drawings| else MaxDrawings
    ensures drawings != [] ==> r == (existing + drawings)[|existing + drawings| - |r|..]
  {
    if drawings == [] then existing
    else
      var all := existing + drawings;
      if |all| <= MaxDrawings then all else all[|all| - MaxDrawings..]
  }

  /**
   * The newest drawings always survive: the last min(|drawings|, 500) new
   * drawings end the stored list, and the stored list never exceeds 500 once
   * it is within the cap.
   */
  lemma NewestDrawingsKept<T>(existing: seq<T>, drawings: seq<T>)
    requires drawings != []
    ensures var r := AppendDrawings(existing, drawings);
      && |r| <= MaxDrawings
      && (|drawings| <= MaxDrawings ==> r[|r| - |drawings|..] == drawings)
      && (|drawings| > MaxDrawings ==> r == drawings[|drawings| - MaxDrawings..])
      && (|existing| + |drawings| <= MaxDrawings ==> r[..|existing|] == existing)
  {
    var all := existing + drawings;
    var r := AppendDrawings(existing, drawings);
    if |drawings| <= MaxDrawings {
      assert r[|r| - |drawings|..] == all[|all| - |drawings|..];
      assert all[|all| - |drawings|..] == drawings;
    } else {
      assert all[|all| - MaxDrawings..] == drawings[|drawings| - MaxDrawings..];
    }
  }

  /** The whiteboard file fields that `save_whiteboard` writes, apart from the online list. */
  datatype Board<T> = Board(content: string, updatedAt: Option<int>, drawings: seq<T>, allowed: bool)

  /** `save_whiteboard`: new content and time stamp, drawings appended under the cap. */
  function SaveWhiteboard<T>(b: Board<T>, content: string, drawings: seq<T>, now: int): (b': Board<T>)
    ensures b'.content == content && b'.updatedAt == Some(now) && b'.allowed == b.allowed
    ensures b'.drawings == AppendDrawings(b.drawings, drawings)
  {
    b.(content := content, updatedAt := Some(now), drawings := AppendDrawings(b.drawings, drawings))
  }
}
