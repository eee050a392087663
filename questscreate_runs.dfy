/** Sequences of `questscreate` transactions (questscreate.cpp) starting from
    the empty tables of a fresh deployment, and what holds in every state
    they reach.

    Because a quest starts with an empty task list and questaddtask, the
    only action that lengthens a list, passes its check at line 82 only when
    the id is listed already, no quest ever lists a task.  So questaddtask,
    questremtask and deletetask never commit, createtask commits only with
    quest 0, and edittask commits only when it keeps the task's quest. */
module QuestsCreateRuns {
  import opened Eosio
  import S = QuestsCreateSpec

  /** One action of the contract's ABI with its arguments. */
  datatype Action =
    | QuestAddTask(taskId: U64, account: Name, relatedquest: U64)
    | QuestRemTask(taskId: U64, account: Name, relatedquest: U64)
    | CreateScore(scoreId: U64, questId: U64, score: U64, account: Name)
    | CreateTask(taskId: U64, kind: string, requirements: seq<string>, taskName: string, reward: U64,
                 description: string, account: Name, relatedquest: U64)
    | EditTask(taskId: U64, kind: string, requirements: seq<string>, taskName: string, reward: U64,
               description: string, account: Name, relatedquest: U64)
    | SubmitTask(taskId: U64, timescompl: U64, completedat: TimePoint, account: Name)
    | DeleteTask(taskId: U64, account: Name, relatedquest: U64)
    | CreateCommun(communityId: U64, communityName: string, avatar: string, account: Name,
                   questIds: seq<U64>, banners: seq<string>)
    | EditCommun(communityId: U64, communityName: string, avatar: string, account: Name,
                 questIds: seq<U64>, banners: seq<string>)
    | Subscribe(communityId: U64, account: Name, scoreId: U64)
    | CreateQuest(id: U64, nfts: seq<string>, tokens: seq<string>, wls: U64, end: TimePoint,
                  questname: string, communityId: U64, account: Name, avatar: string)
    | EditQuest(id: U64, nfts: seq<string>, tokens: seq<string>, wls: U64, end: TimePoint,
                communityId: U64, account: Name, questname: string, avatar: string)

  /** A pushed transaction: the action and the accounts that signed it. */
  datatype Call = Call(auth: set<Name>, action: Action)

  /** The dispatcher: run one transaction against the tables. */
  function Apply(db: S.Db, self: Name, c: Call): Outcome<S.Db> {
    var tx := Tx(self, c.auth);
    match c.action
    case QuestAddTask(t, a, q) => S.QuestAddTask(db, tx, t, a, q)
    case QuestRemTask(t, a, q) => S.QuestRemTask(db, tx, t, a, q)
    case CreateScore(s, q, n, a) => S.CreateScore(db, tx, s, q, n, a)
    case CreateTask(t, k, r, n, w, d, a, q) => S.CreateTask(db, tx, t, k, r, n, w, d, a, q)
    case EditTask(t, k, r, n, w, d, a, q) => S.EditTask(db, tx, t, k, r, n, w, d, a, q)
    case SubmitTask(t, c, at, a) => S.SubmitTask(db, tx, t, c, at, a)
    case DeleteTask(t, a, q) => S.DeleteTask(db, tx, t, a, q)
    case CreateCommun(i, n, av, a, qs, b) => S.CreateCommun(db, tx, i, n, av, a, qs, b)
    case EditCommun(i, n, av, a, qs, b) => S.EditCommun(db, tx, i, n, av, a, qs, b)
    case Subscribe(i, a, s) => S.Subscribe(db, tx, i, a, s)
    case CreateQuest(i, nf, tk, w, e, n, ci, a, av) => S.CreateQuest(db, tx, i, nf, tk, w, e, n, ci, a, av)
    case EditQuest(i, nf, tk, w, e, ci, a, n, av) => S.EditQuest(db, tx, i, nf, tk, w, e, ci, a, n, av)
  }

  /** The tables after a sequence of transactions; an aborted one leaves
      them as they were. */
  function Run(db: S.Db, self: Name, calls: seq<Call>): S.Db
    decreases |calls|
  {
    if calls == [] then db
    else
      var next := match Apply(db, self, calls[0])
                  case Commit(d) => d
                  case Abort => db;
      Run(next, self, calls[1..])
  }

  /** No quest lists any task. */
  ghost predicate TaskListsEmpty(db: S.Db) {
    forall k :: k in db.quests ==> db.quests[k].tasks == []
  }

  ghost predicate Reachable(db: S.Db) {
    S.Invariant(db) && TaskListsEmpty(db)
  }

  /** With every task list empty, the actions that need a listed task abort,
      whatever their arguments. */
  lemma ListedTaskNeeded(db: S.Db, tx: Tx, taskId: U64, account: Name, relatedquest: U64)
    requires TaskListsEmpty(db)
    ensures S.QuestAddTask(db, tx, taskId, account, relatedquest) == Abort
    ensures S.QuestRemTask(db, tx, taskId, account, relatedquest) == Abort
    ensures S.DeleteTask(db, tx, taskId, account, relatedquest) == Abort
    ensures relatedquest != 0 ==>
              forall kind, requirements, taskName, reward, description ::
                S.CreateTask(db, tx, taskId, kind, requirements, taskName, reward, description,
                             account, relatedquest) == Abort
  {
    var qk := Key(account, relatedquest);
    assert qk in db.quests ==> taskId !in db.quests[qk].tasks;
    assert qk in db.quests.Keys ==> qk in db.quests;
  }

  /** createtask keeps the lists empty: with quest 0 it writes no list, and
      with any other quest it aborts. */
  lemma CreateTaskKeepsReachable(db: S.Db, tx: Tx, taskId: U64, kind: string, requirements: seq<string>,
                                 taskName: string, reward: U64, description: string, account: Name,
                                 relatedquest: U64)
    requires Reachable(db)
    ensures var r := S.CreateTask(db, tx, taskId, kind, requirements, taskName, reward, description,
                                  account, relatedquest);
      r.Commit? ==> Reachable(r.db)
  {
    if S.CreateTask(db, tx, taskId, kind, requirements, taskName, reward, description,
                    account, relatedquest).Commit? {
      S.CreateTaskWrites(db, tx, taskId, kind, requirements, taskName, reward, description,
                         account, relatedquest);
      ListedTaskNeeded(db, tx, taskId, account, relatedquest);
    }
  }

  /** edittask keeps the lists empty: the task's old quest lists nothing, so
      a committed edit keeps the task's quest and writes no list. */
  lemma EditTaskKeepsReachable(db: S.Db, tx: Tx, taskId: U64, kind: string, requirements: seq<string>,
                               taskName: string, reward: U64, description: string, account: Name,
                               relatedquest: U64)
    requires Reachable(db)
    ensures var r := S.EditTask(db, tx, taskId, kind, requirements, taskName, reward, description,
                                account, relatedquest);
      var tk := Key(tx.self, taskId);
      r.Commit? ==> tk in db.tasks && db.tasks[tk].relatedquest == relatedquest && Reachable(r.db)
  {
    if S.EditTask(db, tx, taskId, kind, requirements, taskName, reward, description,
                  account, relatedquest).Commit? {
      S.EditTaskKeepsInvariant(db, tx, taskId, kind, requirements, taskName, reward, description,
                               account, relatedquest);
      S.EditTaskCommits(db, tx, taskId, kind, requirements, taskName, reward, description,
                        account, relatedquest);
      S.EditTaskLists(db, tx, taskId, kind, requirements, taskName, reward, description,
                      account, relatedquest);
      var pk := Key(account, db.tasks[Key(tx.self, taskId)].relatedquest);
      assert pk in db.quests ==> taskId !in db.quests[pk].tasks;
    }
  }

  /** createquest and editquest keep the lists empty: a new quest starts
      with an empty list and an edit leaves the list alone. */
  lemma QuestActionsKeepReachable(db: S.Db, tx: Tx, id: U64, nfts: seq<string>, tokens: seq<string>,
                                  wls: U64, end: TimePoint, questname: string, communityId: U64,
                                  account: Name, avatar: string)
    requires Reachable(db)
    ensures var r := S.CreateQuest(db, tx, id, nfts, tokens, wls, end, questname, communityId, account, avatar);
      r.Commit? ==> Reachable(r.db)
    ensures var r := S.EditQuest(db, tx, id, nfts, tokens, wls, end, communityId, account, questname, avatar);
      r.Commit? ==> Reachable(r.db)
  {
    S.CreateQuestEffect(db, tx, id, nfts, tokens, wls, end, questname, communityId, account, avatar);
    S.EditQuestEffect(db, tx, id, nfts, tokens, wls, end, communityId, account, questname, avatar);
    var qk := Key(account, id);
    var c := S.CreateQuest(db, tx, id, nfts, tokens, wls, end, questname, communityId, account, avatar);
    if c.Commit? {
      assert forall k :: k in c.db.quests ==> k == qk || k in db.quests - {qk};
    }
    var e := S.EditQuest(db, tx, id, nfts, tokens, wls, end, communityId, account, questname, avatar);
    if e.Commit? {
      assert forall k :: k in e.db.quests ==> k == qk || k in db.quests - {qk};
    }
  }

  /** The task actions keep the table invariant and the empty task lists. */
  lemma TaskCallKeepsReachable(db: S.Db, self: Name, c: Call)
    requires Reachable(db)
    requires c.action.QuestAddTask? || c.action.QuestRemTask? || c.action.CreateTask? ||
             c.action.EditTask? || c.action.SubmitTask? || c.action.DeleteTask?
    ensures Apply(db, self, c).Commit? ==> Reachable(Apply(db, self, c).db)
  {
    var tx, x := Tx(self, c.auth), c.action;
    if x.QuestAddTask? || x.QuestRemTask? || x.DeleteTask? {
      ListedTaskNeeded(db, tx, x.taskId, x.account, x.relatedquest);
    } else if x.CreateTask? {
      CreateTaskKeepsReachable(db, tx, x.taskId, x.kind, x.requirements, x.taskName, x.reward,
                               x.description, x.account, x.relatedquest);
    } else if x.EditTask? {
      EditTaskKeepsReachable(db, tx, x.taskId, x.kind, x.requirements, x.taskName, x.reward,
                             x.description, x.account, x.relatedquest);
    } else {
      S.SubmitTaskEffect(db, tx, x.taskId, x.timescompl, x.completedat, x.account);
    }
  }

  /** The score, community and quest actions keep the table invariant and
      the empty task lists. */
  lemma OtherCallKeepsReachable(db: S.Db, self: Name, c: Call)
    requires Reachable(db)
    requires c.action.CreateScore? || c.action.CreateCommun? || c.action.EditCommun? ||
             c.action.Subscribe? || c.action.CreateQuest? || c.action.EditQuest?
    ensures Apply(db, self, c).Commit? ==> Reachable(Apply(db, self, c).db)
  {
    var tx, x := Tx(self, c.auth), c.action;
    if x.CreateScore? {
      S.CreateScoreEffect(db, tx, x.scoreId, x.questId, x.score, x.account);
    } else if x.CreateCommun? {
      S.CreateCommunEffect(db, tx, x.communityId, x.communityName, x.avatar, x.account, x.questIds, x.banners);
    } else if x.EditCommun? {
      S.EditCommunEffect(db, tx, x.communityId, x.communityName, x.avatar, x.account, x.questIds, x.banners);
    } else if x.Subscribe? {
      S.SubscribeNeverCommits(db, tx, x.communityId, x.account, x.scoreId);
    } else if x.CreateQuest? {
      QuestActionsKeepReachable(db, tx, x.id, x.nfts, x.tokens, x.wls, x.end, x.questname, x.communityId,
                                x.account, x.avatar);
    } else {
      QuestActionsKeepReachable(db, tx, x.id, x.nfts, x.tokens, x.wls, x.end, x.questname, x.communityId,
                                x.account, x.avatar);
    }
  }

  /** One transaction keeps the table invariant and the empty task lists. */
  lemma ApplyKeepsReachable(db: S.Db, self: Name, c: Call)
    requires Reachable(db)
    ensures Apply(db, self, c).Commit? ==> Reachable(Apply(db, self, c).db)
  {
    var x := c.action;
    if x.QuestAddTask? || x.QuestRemTask? || x.CreateTask? || x.EditTask? || x.SubmitTask? || x.DeleteTask? {
      TaskCallKeepsReachable(db, self, c);
    } else {
      OtherCallKeepsReachable(db, self, c);
    }
  }

  /** Any sequence of transactions keeps the table invariant and the empty
      task lists. */
  lemma {:induction false} RunKeepsReachable(db: S.Db, self: Name, calls: seq<Call>)
    requires Reachable(db)
    ensures Reachable(Run(db, self, calls))
    decreases |calls|
  {
    if calls != [] {
      ApplyKeepsReachable(db, self, calls[0]);
      var next := match Apply(db, self, calls[0])
                  case Commit(d) => d
                  case Abort => db;
      RunKeepsReachable(next, self, calls[1..]);
    }
  }

  /** In every state a fresh deployment can reach, each quest and community
      is owned by the account whose scope holds it, and no quest lists a
      task; hence the owner checks at lines 160, 241, 281 and 309 never
      reject an existing row, and deletetask never commits. */
  lemma FromDeployment(self: Name, calls: seq<Call>, auth: set<Name>, taskId: U64, account: Name,
                       relatedquest: U64)
    ensures var db := Run(S.Empty, self, calls);
      && S.OwnersMatchScope(db)
      && TaskListsEmpty(db)
      && S.DeleteTask(db, Tx(self, auth), taskId, account, relatedquest) == Abort
      && S.QuestAddTask(db, Tx(self, auth), taskId, account, relatedquest) == Abort
      && S.QuestRemTask(db, Tx(self, auth), taskId, account, relatedquest) == Abort
  {
    RunKeepsReachable(S.Empty, self, calls);
    ListedTaskNeeded(Run(S.Empty, self, calls), Tx(self, auth), taskId, account, relatedquest);
  }
}
