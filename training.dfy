/**
 * The training feature: a process-wide table from user id to progress. Starting
 * (re)creates the caller's entry, each non-empty answer moves it one word on (the
 * answer's content is never compared with anything), and stopping deletes it. The
 * words come from the Greek-to-Russian dictionary in its insertion order.
 *
 * The pure functions Start, Submit and Stop give the meaning of one call on the
 * table; the TrainingStore class performs the same calls in place on its field.
 */
module Training {
  import opened Responses
  import opened Translation

  /** One user's entry: `{"completed": ..., "total": ...}`. */
  datatype Progress = Progress(completed: int, total: int)

  /** `user_progress`. */
  type Table = map<string, Progress>

  /** A call's effect: the table after it, and its reply. */
  datatype Step = Step(table: Table, reply: Response)

  const NotStartedMessage: string := "Please start the training session first!"
  const AllDoneMessage: string := "You are all done!"
  const FinishedMessage: string := "Training session finished!"
  const NeverStartedMessage: string := "You are didn't start the training yet!"

  /** The words of a session in order: `list(greek_to_rus)`. */
  function TrainingWords(): seq<string> {
    Keys(GreekToRus)
  }

  /** Every entry counts within its total, and the total is the number of words. */
  predicate ValidProgress(p: Progress) {
    0 <= p.completed <= p.total && p.total == |TrainingWords()|
  }

  predicate ValidTable(t: Table) {
    forall u :: u in t ==> ValidProgress(t[u])
  }

  /** The two tables agree on every user except `user`. */
  ghost predicate OthersUnchanged(t: Table, t': Table, user: string) {
    forall v :: v != user ==> (v in t <==> v in t') && (v in t ==> t[v] == t'[v])
  }

  /** `start_training`: replace the caller's entry by a fresh one and offer the first word. */
  function Start(table: Table, user: string): (s: Step)
    ensures ValidTable(table) ==> ValidTable(s.table)
    ensures OthersUnchanged(table, s.table, user)
    ensures user in s.table && s.table[user] == Progress(0, |TrainingWords()|)
    ensures s.reply == TrainingSession(TrainingWords()[0], 0, |TrainingWords()|)
  {
    var total := |GreekToRus|;
    Step(table[user := Progress(0, total)], TrainingSession(GreekToRus[0].0, 0, total))
  }

  /** How one answer moves an entry: one step for a non-empty answer, unless already at the total. */
  function Advance(p: Progress, answer: string): (q: Progress)
    requires ValidProgress(p)
    ensures ValidProgress(q)
    ensures q.total == p.total
    ensures q.completed == p.completed + 1 <==> p.completed < p.total && answer != ""
    ensures q.completed == p.completed || q.completed == p.completed + 1
  {
    if p.completed < p.total && answer != "" then p.(completed := p.completed + 1) else p
  }

  /** The reply for an entry after the answer: all done, or the word at the current position. */
  function Reply(p: Progress): (r: Response)
    requires ValidProgress(p)
    ensures r.TrainingSession? <==> p.completed < p.total
    ensures r.TrainingSession? ==>
              && r.completed == p.completed && r.total == p.total
              && 0 <= r.completed < |TrainingWords()|
              && r.word == TrainingWords()[r.completed]
    ensures !r.TrainingSession? ==> r == SuccessResponse(AllDoneMessage)
  {
    if p.completed >= p.total then SuccessResponse(AllDoneMessage)
    else TrainingSession(TrainingWords()[p.completed], p.completed, p.total)
  }

  /** `submit_answer`: without an entry an error and no change; otherwise advance the entry and reply. */
  function Submit(table: Table, user: string, answer: string): (s: Step)
    requires ValidTable(table)
    ensures ValidTable(s.table)
    ensures OthersUnchanged(table, s.table, user)
    ensures user in s.table <==> user in table
    ensures user !in table ==> s == Step(table, ErrorResponse(NotStartedMessage))
    ensures user in table && table[user].completed >= table[user].total ==>
              s == Step(table, SuccessResponse(AllDoneMessage))
    ensures user in table ==> s.table[user] == Advance(table[user], answer) && s.reply == Reply(s.table[user])
    ensures s.reply.TrainingSession? ==>
              0 <= s.reply.completed < s.reply.total && s.reply.total == |TrainingWords()| &&
              s.reply.word == TrainingWords()[s.reply.completed]
  {
    if user !in table then Step(table, ErrorResponse(NotStartedMessage))
    else
      var p := Advance(table[user], answer);
      var t := table[user := p];
      assert table[user].completed >= table[user].total ==> t == table;
      Step(t, Reply(p))
  }

  /** `stop_training`: delete the caller's entry, or report that there was none. */
  function Stop(table: Table, user: string): (s: Step)
    ensures IsStandard(s.reply)
    ensures OthersUnchanged(table, s.table, user)
    ensures user !in s.table
    ensures ValidTable(table) ==> ValidTable(s.table)
    ensures s.reply.SuccessResponse? <==> user in table
    ensures user in table ==> s == Step(table - {user}, SuccessResponse(FinishedMessage))
    ensures user !in table ==> s == Step(table, ErrorResponse(NeverStartedMessage))
  {
    if user in table then Step(table - {user}, SuccessResponse(FinishedMessage))
    else Step(table, ErrorResponse(NeverStartedMessage))
  }

  /** Submitting a run of answers in turn; the table afterwards. */
  function SubmitAll(table: Table, user: string, answers: seq<string>): (t: Table)
    requires ValidTable(table)
    ensures ValidTable(t)
    ensures OthersUnchanged(table, t, user)
    ensures user in t <==> user in table
    decreases |answers|
  {
    if |answers| == 0 then table
    else SubmitAll(Submit(table, user, answers[0]).table, user, answers[1..])
  }

  /** How many of the answers are non-empty. */
  function CountNonEmpty(answers: seq<string>): nat {
    if |answers| == 0 then 0
    else (if answers[0] != "" then 1 else 0) + CountNonEmpty(answers[1..])
  }

  function Min(a: int, b: int): int {
    if a <= b then a else b
  }

  /**
   * Progress counts the non-empty answers, whatever they say, and stops at the total:
   * empty answers never count and nothing counts past the last word.
   */
  lemma {:induction false} ProgressCountsAnswers(table: Table, user: string, answers: seq<string>)
    requires ValidTable(table) && user in table
    ensures var t := SubmitAll(table, user, answers);
            user in t &&
            t[user] == table[user].(completed := Min(table[user].total, table[user].completed + CountNonEmpty(answers)))
    decreases |answers|
  {
    if |answers| > 0 {
      ProgressCountsAnswers(Submit(table, user, answers[0]).table, user, answers[1..]);
    }
  }

  /** Starting again resets the caller's entry: progress made since is discarded, nothing accumulates. */
  lemma RestartResets(table: Table, user: string, answers: seq<string>)
    requires ValidTable(table)
    ensures var once := Start(table, user).table;
            Start(SubmitAll(once, user, answers), user) == Start(table, user)
  {
  }

  /** After a stop, answers are refused until the next start. */
  lemma StopThenSubmit(table: Table, user: string, answer: string)
    requires ValidTable(table)
    ensures Submit(Stop(table, user).table, user, answer).reply == ErrorResponse(NotStartedMessage)
  {
  }

  /** An empty answer changes nothing. */
  lemma EmptyAnswerKeepsTable(table: Table, user: string)
    requires ValidTable(table)
    ensures Submit(table, user, "").table == table
  {
    if user in table {
      assert table[user := table[user]] == table;
    }
  }

  /** A whole session: the words come in the order γεια, κόσμος, γάτα and the third answer finishes it. */
  lemma Walkthrough(table: Table, user: string, a1: string, a2: string, a3: string, a4: string)
    requires ValidTable(table)
    requires a1 != "" && a2 != "" && a3 != ""
    ensures var s0 := Start(table, user);
            var s1 := Submit(s0.table, user, a1);
            var s2 := Submit(s1.table, user, a2);
            var s3 := Submit(s2.table, user, a3);
            var s4 := Submit(s3.table, user, a4);
            && s0.reply == TrainingSession("γεια", 0, 3)
            && s1.reply == TrainingSession("κόσμος", 1, 3)
            && s2.reply == TrainingSession("γάτα", 2, 3)
            && s3.reply == SuccessResponse(AllDoneMessage)
            && s3.table[user] == Progress(3, 3)
            && s4 == Step(s3.table, SuccessResponse(AllDoneMessage))
  {
  }

  /** `user_progress` and the three training resolvers, which change it in place. */
  class TrainingStore {
    var progress: Table

    ghost predicate Valid()
      reads this
    {
      ValidTable(progress)
    }

    /** The empty table at process start. */
    constructor ()
      ensures Valid() && progress == map[]
    {
      progress := map[];
    }

    method StartTraining(userId: string) returns (r: Response)
      requires Valid()
      modifies this
      ensures Valid()
      ensures Step(progress, r) == Start(old(progress), userId)
    {
      var total := |GreekToRus|;
      progress := progress[userId := Progress(0, total)];
      var firstWord := GreekToRus[0].0;
      r := TrainingSession(firstWord, 0, total);
    }

    method SubmitAnswer(userId: string, answer: string) returns (r: Response)
      requires Valid()
      modifies this
      ensures Valid()
      ensures Step(progress, r) == Submit(old(progress), userId, answer)
    {
      if userId !in progress {
        return ErrorResponse(NotStartedMessage);
      }
      var session := progress[userId];
      if session.completed >= session.total {
        return SuccessResponse(AllDoneMessage);
      }
      if answer != "" {
        session := session.(completed := session.completed + 1);
        progress := progress[userId := session];
      } else {
        assert progress == old(progress)[userId := session];
      }
      if session.completed >= session.total {
        return SuccessResponse(AllDoneMessage);
      }
      var completed := session.completed;
      r := TrainingSession(Keys(GreekToRus)[completed], completed, session.total);
    }

    method StopTraining(userId: string) returns (r: Response)
      requires Valid()
      modifies this
      ensures Valid()
      ensures Step(progress, r) == Stop(old(progress), userId)
    {
      if userId in progress {
        progress := progress - {userId};
        return SuccessResponse(FinishedMessage);
      }
      return ErrorResponse(NeverStartedMessage);
    }
  }
}
