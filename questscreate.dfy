/** The `questscreate` contract of questscreate.cpp as an object whose four
    `multi_index` tables are fields that its actions update in place.

    Every action reports whether its transaction commits.  Each is proved
    against its transition in QuestsCreateSpec (the tables afterwards are the
    committed state, or the old tables on an abort) and keeps the table
    invariant, so the invariant holds in every reachable state.  An inline
    action is a call of the corresponding method after the body, carrying the
    caller's authority; when it aborts, the caller restores the tables it
    started from. */
module QuestsCreate {
  import opened Eosio
  import opened Vectors
  import S = QuestsCreateSpec

  class Contract {
    /** `_self`, the account the contract is deployed to. */
    const self: Name
    var quests: map<Key, S.Quest>
    var users: map<Key, S.User>
    var communities: map<Key, S.Community>
    var tasks: map<Key, S.Task>

    function Db(): S.Db
      reads this
    {
      S.Db(quests, users, communities, tasks)
    }

    ghost predicate Valid()
      reads this
    {
      S.Invariant(Db())
    }

    constructor (self: Name)
      ensures this.self == self && Db() == S.Empty && Valid()
    {
      this.self := self;
      quests, users, communities, tasks := map[], map[], map[], map[];
    }

    /** Undo every write of the current transaction: the tables go back to
        the state it started from. */
    method Restore(saved: S.Db)
      modifies this
      ensures Db() == saved
    {
      quests, users, communities, tasks := saved.quests, saved.users, saved.communities, saved.tasks;
    }

    method QuestAddTask(auth: set<Name>, taskId: U64, account: Name, relatedquest: U64) returns (ok: bool)
      requires Valid()
      modifies this
      ensures Valid()
      ensures Transacted(S.QuestAddTask(old(Db()), Tx(self, auth), taskId, account, relatedquest),
                         old(Db()), ok, Db())
    {
      ok := false;
      if account !in auth { return; }
      var task, quest := Key(self, taskId), Key(account, relatedquest);
      if task !in tasks { return; }
      if quest !in quests { return; }
      var tasksCol := quests[quest].tasks;
      var isAlreadyInArr := Find(tasksCol, taskId);
      // passes only when the id is already in the list
      if isAlreadyInArr == |tasksCol| { return; }
      quests := quests[quest := quests[quest].(tasks := tasksCol + [taskId])];
      ok := true;
    }

    method QuestRemTask(auth: set<Name>, taskId: U64, account: Name, relatedquest: U64) returns (ok: bool)
      requires Valid()
      modifies this
      ensures Valid()
      ensures Transacted(S.QuestRemTask(old(Db()), Tx(self, auth), taskId, account, relatedquest),
                         old(Db()), ok, Db())
    {
      ok := false;
      if account !in auth { return; }
      var quest := Key(account, relatedquest);
      // a missing quest is read through end() and then modified: an abort
      if quest !in quests { return; }
      var taskscol := quests[quest].tasks;
      var taskItr := Find(taskscol, taskId);
      if taskItr == |taskscol| { return; }
      taskscol := EraseAt(taskscol, taskItr);
      quests := quests[quest := quests[quest].(tasks := taskscol)];
      ok := true;
    }

    method CreateScore(auth: set<Name>, scoreId: U64, questId: U64, score: U64, account: Name)
      returns (ok: bool)
      requires Valid()
      modifies this
      ensures Valid()
      ensures Transacted(S.CreateScore(old(Db()), Tx(self, auth), scoreId, questId, score, account),
                         old(Db()), ok, Db())
    {
      ok := false;
      if account !in auth || self !in auth { return; }
      // passes only when the quest is absent
      if Key(account, questId) in quests { return; }
      var row := Key(account, scoreId);
      if row in users { return; }
      users := users[row := S.User(scoreId, questId, 0, score, account, false)];
      ok := true;
    }

    method CreateTask(auth: set<Name>, taskId: U64, kind: string, requirements: seq<string>,
                      taskName: string, reward: U64, description: string, account: Name,
                      relatedquest: U64)
      returns (ok: bool)
      requires Valid()
      modifies this
      ensures Valid()
      ensures Transacted(S.CreateTask(old(Db()), Tx(self, auth), taskId, kind, requirements, taskName,
                                      reward, description, account, relatedquest),
                         old(Db()), ok, Db())
    {
      ok := false;
      var before := Db();
      if account !in auth { return; }
      if Key(account, relatedquest) !in quests { return; }
      var task := Key(self, taskId);
      if task in tasks { return; }
      tasks := tasks[task := S.Task(taskId, kind, requirements, taskName, reward, 0, description, 0,
                                    account, relatedquest)];
      if relatedquest != 0 {
        var added := QuestAddTask({account}, taskId, account, relatedquest);
        if !added {
          Restore(before);
          return;
        }
      }
      ok := true;
    }

    method EditTask(auth: set<Name>, taskId: U64, kind: string, requirements: seq<string>,
                    taskName: string, reward: U64, description: string, account: Name,
                    relatedquest: U64)
      returns (ok: bool)
      requires Valid()
      modifies this
      ensures Valid()
      ensures Transacted(S.EditTask(old(Db()), Tx(self, auth), taskId, kind, requirements, taskName,
                                    reward, description, account, relatedquest),
                         old(Db()), ok, Db())
    {
      ok := false;
      var before := Db();
      if account !in auth { return; }
      var quest, task := Key(account, relatedquest), Key(self, taskId);
      if taskId == 0 { return; }
      if quest !in quests || quests[quest].account != account { return; }
      if task !in tasks { return; }
      var prevrelatedquest := tasks[task].relatedquest;
      tasks := tasks[task := tasks[task].(kind := kind, requirements := requirements, taskName := taskName,
                                          reward := reward, description := description,
                                          relatedquest := relatedquest)];
      if prevrelatedquest != relatedquest {
        var removed := QuestRemTask({account}, taskId, account, prevrelatedquest);
        var added := true;
        if removed && relatedquest != 0 {
          added := QuestAddTask({account}, taskId, account, relatedquest);
        }
        if !removed || !added {
          Restore(before);
          return;
        }
      }
      ok := true;
    }

    method SubmitTask(auth: set<Name>, taskId: U64, timescompl: U64, completedat: TimePoint, account: Name)
      returns (ok: bool)
      requires Valid()
      modifies this
      ensures Valid()
      ensures Transacted(S.SubmitTask(old(Db()), Tx(self, auth), taskId, timescompl, completedat, account),
                         old(Db()), ok, Db())
    {
      ok := false;
      if account !in auth || self !in auth { return; }
      if taskId == 0 { return; }
      var row := Key(account, taskId);
      if row in tasks { return; }
      tasks := tasks[row := S.Task(taskId, "", [], "", 0, completedat, "", timescompl, 0, 0)];
      ok := true;
    }

    method DeleteTask(auth: set<Name>, taskId: U64, account: Name, relatedquest: U64) returns (ok: bool)
      requires Valid()
      modifies this
      ensures Valid()
      ensures Transacted(S.DeleteTask(old(Db()), Tx(self, auth), taskId, account, relatedquest),
                         old(Db()), ok, Db())
    {
      ok := false;
      var before := Db();
      if account !in auth { return; }
      var task := Key(self, taskId);
      if task !in tasks { return; }
      tasks := tasks - {task};
      var removed := QuestRemTask({account}, taskId, account, relatedquest);
      if !removed {
        Restore(before);
        return;
      }
      ok := true;
    }

    method CreateCommun(auth: set<Name>, communityId: U64, communityName: string, avatar: string,
                        account: Name, questIds: seq<U64>, banners: seq<string>)
      returns (ok: bool)
      requires Valid()
      modifies this
      ensures Valid()
      ensures Transacted(S.CreateCommun(old(Db()), Tx(self, auth), communityId, communityName, avatar,
                                        account, questIds, banners),
                         old(Db()), ok, Db())
    {
      ok := false;
      if account !in auth { return; }
      var row := Key(account, communityId);
      if row in communities { return; }
      communities := communities[row := S.Community(communityId, communityName, 0, avatar, account, 0,
                                                    questIds, banners)];
      ok := true;
    }

    method EditCommun(auth: set<Name>, communityId: U64, communityName: string, avatar: string,
                      account: Name, questIds: seq<U64>, banners: seq<string>)
      returns (ok: bool)
      requires Valid()
      modifies this
      ensures Valid()
      ensures Transacted(S.EditCommun(old(Db()), Tx(self, auth), communityId, communityName, avatar,
                                      account, questIds, banners),
                         old(Db()), ok, Db())
    {
      ok := false;
      if account !in auth { return; }
      var row := Key(account, communityId);
      if row !in communities || communities[row].account != account { return; }
      communities := communities[row := communities[row].(communityId := communityId,
                                                          communityName := communityName, avatar := avatar,
                                                          questIds := questIds, banners := banners)];
      ok := true;
    }

    method Subscribe(auth: set<Name>, communityId: U64, account: Name, scoreId: U64) returns (ok: bool)
      requires Valid()
      modifies this
      ensures Valid()
      ensures Transacted(S.Subscribe(old(Db()), Tx(self, auth), communityId, account, scoreId),
                         old(Db()), ok, Db())
    {
      ok := false;
      if account !in auth { return; }
      if Key(self, scoreId) !in users { return; }
      ok := SubscribeWrites(communityId, account, scoreId);
    }

    /** The writes of subscribe: `emplace` into the contract's own `users`
        scope, then one more follower on the caller's community. */
    method SubscribeWrites(communityId: U64, account: Name, scoreId: U64) returns (ok: bool)
      requires Valid()
      modifies this
      ensures Valid()
      ensures Transacted(S.SubscribeWrites(old(Db()), self, communityId, account, scoreId),
                         old(Db()), ok, Db())
    {
      ok := false;
      var score, community := Key(self, scoreId), Key(account, communityId);
      if score in users { return; }
      if community !in communities { return; }
      users := users[score := S.User(scoreId, 0, communityId, 0, account, false)];
      var followers := (communities[community].followers + 1) % 0x1_0000_0000_0000_0000;
      communities := communities[community := communities[community].(followers := followers)];
      ok := true;
    }

    method CreateQuest(auth: set<Name>, id: U64, nfts: seq<string>, tokens: seq<string>, wls: U64,
                       end: TimePoint, questname: string, communityId: U64, account: Name, avatar: string)
      returns (ok: bool)
      requires Valid()
      modifies this
      ensures Valid()
      ensures Transacted(S.CreateQuest(old(Db()), Tx(self, auth), id, nfts, tokens, wls, end, questname,
                                       communityId, account, avatar),
                         old(Db()), ok, Db())
    {
      ok := false;
      if account !in auth { return; }
      if communityId != 0 {
        var community := Key(account, communityId);
        if community !in communities || communities[community].account != account { return; }
      }
      var row := Key(account, id);
      if row in quests { return; }
      quests := quests[row := S.Quest(id, nfts, tokens, wls, [], end, questname, account, communityId, avatar)];
      ok := true;
    }

    method EditQuest(auth: set<Name>, id: U64, nfts: seq<string>, tokens: seq<string>, wls: U64,
                     end: TimePoint, communityId: U64, account: Name, questname: string, avatar: string)
      returns (ok: bool)
      requires Valid()
      modifies this
      ensures Valid()
      ensures Transacted(S.EditQuest(old(Db()), Tx(self, auth), id, nfts, tokens, wls, end, communityId,
                                     account, questname, avatar),
                         old(Db()), ok, Db())
    {
      ok := false;
      if account !in auth { return; }
      var row := Key(account, id);
      if row !in quests { return; }
      if communityId != 0 {
        var community := Key(account, communityId);
        if community !in communities || communities[community].account != account { return; }
      }
      quests := quests[row := quests[row].(nfts := nfts, communityId := communityId, tokens := tokens,
                                           wls := wls, end := end, questname := questname, avatar := avatar)];
      ok := true;
    }
  }
}
