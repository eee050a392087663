# Quest contracts: a verified model

This project models the two EOSIO smart contracts of a quest platform.

- `questscreate.cpp` is the `questscreate` contract. It has quests with an ordered
  list of task ids, tasks, communities and user scores. Some of its actions send
  inline actions (`questaddtask`, `questremtask`) back to the contract.
- `quests.cpp` is an earlier variant of the same contract. Its quests have no task
  list and none of its actions sends another.

Each contract is modelled twice:

- **Spec modules** (`QuestsCreateSpec`, `QuestsSpec`) hold one function per action.
  The function maps the four `multi_index` tables to the next state, or to an abort.
- **Contract classes** (`QuestsCreate.Contract`, `Quests.Contract`) hold the same four
  tables as fields and update them in place, one method per action. Each method
  reports whether its transaction commits and is proved against the spec function:
  - on a commit, the tables afterwards are the function's committed state;
  - on an abort, the tables are exactly the ones the transaction started from.

  Every method also keeps the table invariant (`Valid`):
  - each row is filed under its own primary key;
  - each quest and community sits in the scope of the account recorded as its owner.

  In `QuestsCreate.Contract`, an inline action is a call of the corresponding method
  after the body, with the caller's authority. When it fails, the transaction's
  writes are undone (`Restore`).

Supporting modules:

- `Eosio` models the small slice of the platform the contracts use:
  - a table row's key is (scope, primary key);
  - `require_auth` is membership in the transaction's set of authorisers;
  - an inline action carries the single authority it was sent with;
  - a transaction either commits or aborts as a whole.
- `Vectors` models what a quest's task list goes through:
  - the `std::find` algorithm, both as a function and as a loop;
  - `vector::erase` of one position;
  - `vector::push_back`.
- `QuestsCreateRuns` runs sequences of transactions from the empty tables of a fresh
  deployment. It proves what holds in every state those runs reach.

The checks are reproduced as the code writes them, including two whose condition is
the opposite of their message:

- `questaddtask` passes only when the task id is ALREADY in the quest's list
  (questscreate.cpp:82).
- `createscore` passes only when the quest is NOT found (questscreate.cpp:111 and
  quests.cpp:79).

The model proves the consequences:

- In every state reachable from deployment, no quest lists any task (`QuestsCreateRuns.FromDeployment`).
- So, in every such state:
  - `questaddtask`, `questremtask` and `deletetask` never commit;
  - `createtask` commits only with quest 0 (`QuestsCreateRuns.ListedTaskNeeded`);
  - `edittask` commits only when it keeps the task's quest (`QuestsCreateRuns.EditTaskKeepsReachable`).
- `subscribe` never commits in either contract. It proceeds only when `scoreId` is
  already in the contract's `users` scope, then emplaces that same key there.

Some owner checks dereference a `find` result before comparing it with `end()`
(questscreate.cpp:157-161, 240-242, 280-282, 308-310). The model treats a missing row
there as an abort. Under the invariant, the owner comparison never rejects a row that
exists (`QuestsCreateSpec.OwnerChecksNeverFail`).

## Model

| member | source | states |
|---|---|---|
| Eosio.Inline | questscreate.cpp:139-145 | An inline action sent with `permission_level{account, "active"}` to the contract itself runs as the same contract, and `require_auth` in it passes for `account` and no other account. |
| Eosio.RequireAuth | questscreate.cpp:73 | Definition of `require_auth(a)`: it passes exactly when `a` is among the accounts that authorised the action. Every commit-if-and-only-if lemma below states its authority condition in these terms. |
| Eosio.Transacted | questscreate.cpp:80-82 | Definition of how a transaction settles: a failing `check` leaves the tables as they were, and a commit leaves the committed state. Each contract method's `ensures` uses it to tie the method to its spec function. |
| Vectors.FirstIndexOf | questscreate.cpp:79 | `std::find` on a task list: the index is within the list or equal to its end. Every earlier element differs from the id. The index is below the end exactly when the id occurs, and then the element at the index is the id. |
| Vectors.Find | questscreate.cpp:95 | The linear search loop returns the same index as `FirstIndexOf`: the first position holding the id, or the end. |
| Vectors.EraseAt | questscreate.cpp:97 | `vector::erase` at one position: the result is one shorter. Elements before the position stay in place and later ones move down by one. The multiset loses exactly one copy of the erased element. |
| Vectors.RemoveFirst | questscreate.cpp:95-97 | Definition of erasing the `std::find` match, as `EraseAt` at `FirstIndexOf`. Its meaning is stated by `Vectors.RemoveFirstSpec`. |
| Vectors.RemoveFirstSpec | questscreate.cpp:95-97 | Finding the id and then erasing at that position removes its first occurrence, keeps every other element in order, lowers the id's count by one and leaves every other value's count alone. |
| Vectors.PushBackCounts | questscreate.cpp:84 | `push_back` puts the id at the end after the old list, adds one copy of it and leaves the other counts alone. |
| QuestsCreateSpec.QuestAddTask | questscreate.cpp:72-86 | Definition of `questaddtask` as a transition of the four tables. Its meaning is stated by `QuestsCreateSpec.QuestAddTaskEffect`. |
| QuestsCreateSpec.QuestRemTask | questscreate.cpp:88-101 | Definition of `questremtask` as a transition of the four tables. Its meaning is stated by `QuestsCreateSpec.QuestRemTaskEffect`. |
| QuestsCreateSpec.CreateScore | questscreate.cpp:104-118 | Definition of `createscore` as a transition of the four tables. Its meaning is stated by `QuestsCreateSpec.CreateScoreEffect`. |
| QuestsCreateSpec.CreateTask | questscreate.cpp:120-148 | Definition of `createtask`, its inline `questaddtask` included, as a transition of the four tables. Its meaning is stated by `QuestsCreateSpec.CreateTaskCommits` and `QuestsCreateSpec.CreateTaskWrites`. |
| QuestsCreateSpec.EditTask | questscreate.cpp:150-188 | Definition of `edittask`, its inline actions included, as a transition of the four tables. Its meaning is stated by `QuestsCreateSpec.EditTaskCommits`, `EditTaskWrites`, `EditTaskLists` and `EditTaskKeepsInvariant`. |
| QuestsCreateSpec.MoveTask | questscreate.cpp:171-186 | Definition of the inline `questremtask` and `questaddtask` pair that `edittask` sends as a transition of the four tables. Its meaning is stated by `QuestsCreateSpec.MoveTaskCommits`, `MoveTaskWritesQuestsOnly` and `MoveTaskLists`. |
| QuestsCreateSpec.SubmitTask | questscreate.cpp:190-200 | Definition of `submittask` as a transition of the four tables. Its meaning is stated by `QuestsCreateSpec.SubmitTaskEffect`. |
| QuestsCreateSpec.DeleteTask | questscreate.cpp:202-214 | Definition of `deletetask`, its inline `questremtask` included, as a transition of the four tables. Its meaning is stated by `QuestsCreateSpec.DeleteTaskEffect`. |
| QuestsCreateSpec.CreateCommun | questscreate.cpp:219-233 | Definition of `createcommun` as a transition of the four tables. Its meaning is stated by `QuestsCreateSpec.CreateCommunEffect`. |
| QuestsCreateSpec.EditCommun | questscreate.cpp:235-250 | Definition of `editcommun` as a transition of the four tables. Its meaning is stated by `QuestsCreateSpec.EditCommunEffect`. |
| QuestsCreateSpec.Subscribe | questscreate.cpp:252-259 | Definition of the guards of `subscribe` as a transition of the four tables. Its meaning is stated by `QuestsCreateSpec.SubscribeNeverCommits`. |
| QuestsCreateSpec.SubscribeWrites | questscreate.cpp:260-267 | Definition of the writes of `subscribe` as a transition of the four tables. Its meaning is stated by `QuestsCreateSpec.SubscribeNeverCommits` (they are never reached). |
| QuestsCreateSpec.CreateQuest | questscreate.cpp:271-295 | Definition of `createquest` as a transition of the four tables. Its meaning is stated by `QuestsCreateSpec.CreateQuestEffect`. |
| QuestsCreateSpec.EditQuest | questscreate.cpp:297-321 | Definition of `editquest` as a transition of the four tables. Its meaning is stated by `QuestsCreateSpec.EditQuestEffect`. |
| QuestsCreateSpec.TaskListChangeKeepsInvariant | questscreate.cpp:83-85 | Rewriting one quest's task list through `modify` keeps every row under its primary key and every owner in its scope. |
| QuestsCreateSpec.QuestAddTaskEffect | questscreate.cpp:72-86 | `questaddtask` commits if and only if the caller authorised it, the task exists, the caller's quest exists and the id is already in its list (the inverted check). It then appends one more copy at the end and changes nothing but that list. |
| QuestsCreateSpec.QuestRemTaskEffect | questscreate.cpp:88-101 | `questremtask` commits if and only if the caller authorised it and the caller's quest exists and lists the id. The task row is not consulted. It removes one copy (the first) from that list, is one shorter, and changes nothing else. |
| QuestsCreateSpec.CreateScoreEffect | questscreate.cpp:104-118 | `createscore` commits if and only if both the caller and the contract authorised it, `questId` is NOT a quest of the caller, and `scoreId` is new in the caller's `users` scope. It adds exactly that row, storing the given quest, score and owner. |
| QuestsCreateSpec.CreateTaskCommits | questscreate.cpp:120-148 | `createtask` commits if and only if the caller authorised it, quest `relatedquest` exists in the caller's scope (0 included), and the task id is new. For a non-zero quest, that quest must also already list the new id, because the inline `questaddtask` requires it. |
| QuestsCreateSpec.CreateTaskWrites | questscreate.cpp:129-146 | A committed `createtask` adds one task row with the given fields, the caller as owner and zeroed completion fields. A non-zero quest gets the id appended. Nothing else changes and the invariant is kept. |
| QuestsCreateSpec.MoveTaskCommits | questscreate.cpp:171-186 | When the quest changes, the inline pair `edittask` sends commits if and only if the previous quest lists the task and, for a non-zero new quest, so does the new one. |
| QuestsCreateSpec.MoveTaskWritesQuestsOnly | questscreate.cpp:171-186 | The inline pair writes only the quests table, and keeps the invariant. |
| QuestsCreateSpec.MoveTaskLists | questscreate.cpp:171-186 | The inline pair removes the first copy of the id from the previous quest's list and, for a non-zero new quest, appends a copy to the new one. The counts move by one each and no other quest changes. |
| QuestsCreateSpec.EditTaskCommits | questscreate.cpp:150-188 | `edittask` commits if and only if the caller authorised it, the id is non-zero, the caller owns quest `relatedquest` in their scope (0 included), the task exists and, when the quest changes, the inline pair succeeds. |
| QuestsCreateSpec.EditTaskWrites | questscreate.cpp:163-170 | A committed `edittask` overwrites type, requirements, name, reward, description and quest of the task. It keeps the task's owner, id and completion fields, and writes no user or community. |
| QuestsCreateSpec.EditTaskLists | questscreate.cpp:171-186 | A committed `edittask` leaves every quest alone when the task's quest is unchanged. Otherwise the first copy of the id leaves the previous quest's list and, for a non-zero new quest, a copy is appended to the new one. |
| QuestsCreateSpec.EditTaskKeepsInvariant | questscreate.cpp:150-188 | `edittask` keeps the table invariant. |
| QuestsCreateSpec.SubmitTaskEffect | questscreate.cpp:190-200 | `submittask` commits if and only if both the caller and the contract authorised it, the id is non-zero and the caller's own `tasks` scope has no such row. The new row holds the id and the two completion fields, and every other field, `account` and `relatedquest` included, is empty or 0, so nothing is copied from the contract-wide task. Repeating the same call aborts. |
| QuestsCreateSpec.DeleteTaskEffect | questscreate.cpp:202-214 | `deletetask` commits if and only if the caller authorised it, the task exists and the caller's quest `relatedquest` lists it. The task row is then gone and that list has lost its first copy of the id. |
| QuestsCreateSpec.CreateCommunEffect | questscreate.cpp:219-233 | `createcommun` commits if and only if the caller authorised it and the id is new in the caller's scope. The community starts with score 0 and no followers, owned by the caller. |
| QuestsCreateSpec.EditCommunEffect | questscreate.cpp:235-250 | `editcommun` commits if and only if the caller authorised it and owns an existing community in their scope; under the invariant, existing is enough. It rewrites name, avatar, quest ids and banners and never changes score, followers or owner. |
| QuestsCreateSpec.SubscribeNeverCommits | questscreate.cpp:252-268 | `subscribe` aborts on every input: it needs `scoreId` present in the contract's `users` scope and then emplaces that same key. |
| QuestsCreateSpec.CreateQuestEffect | questscreate.cpp:271-295 | `createquest` commits if and only if the caller authorised it, the quest id is new in the caller's scope and, for a non-zero `communityId`, the caller owns that community. The quest is owned by the caller and starts with an empty task list. |
| QuestsCreateSpec.EditQuestEffect | questscreate.cpp:297-321 | `editquest` commits if and only if the caller authorised it, the quest exists in the caller's scope and, for a non-zero `communityId`, the caller owns that community. It rewrites the descriptive fields and the community, and never the owner or the task list. |
| QuestsCreateSpec.OwnerChecksNeverFail | questscreate.cpp:157-160 | Under the invariant, a quest or community found in the caller's scope is owned by the caller. So the owner comparisons at lines 160, 241, 281 and 309 never reject an existing row. |
| QuestsCreateRuns.Apply | questscreate.cpp:325 | Definition of the dispatcher: one pushed transaction runs the named action with the signers' authority. Its meaning is stated by `QuestsCreateRuns.ApplyKeepsReachable`. |
| QuestsCreateRuns.Run | questscreate.cpp:325 | Definition of a sequence of transactions from given tables, where an aborted transaction leaves the tables unchanged. Its meaning is stated by `QuestsCreateRuns.RunKeepsReachable` and `QuestsCreateRuns.FromDeployment`. |
| QuestsCreateRuns.ListedTaskNeeded | questscreate.cpp:82 | When no quest lists a task, `questaddtask`, `questremtask` and `deletetask` abort on every input, and so does `createtask` with a non-zero quest. |
| QuestsCreateRuns.CreateTaskKeepsReachable | questscreate.cpp:120-148 | `createtask` keeps the invariant and the empty task lists. |
| QuestsCreateRuns.EditTaskKeepsReachable | questscreate.cpp:150-188 | When no quest lists a task, a committed `edittask` finds the task, and the task's previous quest equals the new `relatedquest`. The edit then keeps the invariant and the empty task lists. |
| QuestsCreateRuns.QuestActionsKeepReachable | questscreate.cpp:271-321 | `createquest` and `editquest` keep the invariant and the empty task lists. |
| QuestsCreateRuns.TaskCallKeepsReachable | questscreate.cpp:72-214 | Every task action keeps the invariant and the empty task lists. |
| QuestsCreateRuns.OtherCallKeepsReachable | questscreate.cpp:104-321 | `createscore`, the community actions, `subscribe` and the quest actions keep the invariant and the empty task lists. |
| QuestsCreateRuns.ApplyKeepsReachable | questscreate.cpp:72-321 | Any one transaction keeps the invariant and the empty task lists. |
| QuestsCreateRuns.RunKeepsReachable | questscreate.cpp:72-321 | Any sequence of transactions, some committing and some aborting, keeps the invariant and the empty task lists. |
| QuestsCreateRuns.FromDeployment | questscreate.cpp:82 | In every state reachable from a fresh deployment: owners match scopes, no quest lists a task, and `deletetask`, `questaddtask` and `questremtask` abort for every argument. |
| QuestsCreate.Contract.constructor | questscreate.cpp:26-70 | A fresh deployment has four empty tables, which satisfy the invariant. |
| QuestsCreate.Contract.Restore | questscreate.cpp:139-145 | When an inline action sent by the body aborts, the whole transaction is undone: afterwards the tables equal the saved state the transaction started from. |
| QuestsCreate.Contract.QuestAddTask | questscreate.cpp:72-86 | The in-place action: runs `std::find` on the quest's list, then `modify`. It commits exactly as `QuestsCreateSpec.QuestAddTask` does and leaves the tables untouched on abort. |
| QuestsCreate.Contract.QuestRemTask | questscreate.cpp:88-101 | The in-place action: `std::find`, `vector::erase`, then `modify`. It matches `QuestsCreateSpec.QuestRemTask`. |
| QuestsCreate.Contract.CreateScore | questscreate.cpp:104-118 | Matches `QuestsCreateSpec.CreateScore`. |
| QuestsCreate.Contract.CreateTask | questscreate.cpp:120-148 | Emplaces the task, then calls the inline `questaddtask` with the caller's authority. If that aborts, the tables return to the transaction's start. It matches `QuestsCreateSpec.CreateTask`. |
| QuestsCreate.Contract.EditTask | questscreate.cpp:150-188 | Modifies the task, then calls the inline `questremtask` and (for a non-zero new quest) `questaddtask`. It rolls back if either aborts and matches `QuestsCreateSpec.EditTask`. |
| QuestsCreate.Contract.SubmitTask | questscreate.cpp:190-200 | Matches `QuestsCreateSpec.SubmitTask`. |
| QuestsCreate.Contract.DeleteTask | questscreate.cpp:202-214 | Erases the task, then calls the inline `questremtask`. It rolls back if that aborts and matches `QuestsCreateSpec.DeleteTask`. |
| QuestsCreate.Contract.CreateCommun | questscreate.cpp:219-233 | Matches `QuestsCreateSpec.CreateCommun`. |
| QuestsCreate.Contract.EditCommun | questscreate.cpp:235-250 | Matches `QuestsCreateSpec.EditCommun`. |
| QuestsCreate.Contract.Subscribe | questscreate.cpp:252-259 | Matches `QuestsCreateSpec.Subscribe`. |
| QuestsCreate.Contract.SubscribeWrites | questscreate.cpp:260-267 | The writes of `subscribe`: emplace into the contract's `users` scope, then one more follower on the caller's community, wrapping at 2^64. It matches `QuestsCreateSpec.SubscribeWrites`. |
| QuestsCreate.Contract.CreateQuest | questscreate.cpp:271-295 | Matches `QuestsCreateSpec.CreateQuest`. |
| QuestsCreate.Contract.EditQuest | questscreate.cpp:297-321 | Matches `QuestsCreateSpec.EditQuest`. |
| QuestsSpec.CreateScore | quests.cpp:72-86 | Definition of `createscore` as a transition of the four tables. Its meaning is stated by `QuestsSpec.CreateScoreEffect`. |
| QuestsSpec.CreateTask | quests.cpp:88-105 | Definition of `createtask` as a transition of the four tables. Its meaning is stated by `QuestsSpec.CreateTaskEffect`. |
| QuestsSpec.EditTask | quests.cpp:107-123 | Definition of `edittask` as a transition of the four tables. Its meaning is stated by `QuestsSpec.EditTaskEffect`. |
| QuestsSpec.SubmitTask | quests.cpp:125-137 | Definition of `submittask` as a transition of the four tables. Its meaning is stated by `QuestsSpec.SubmitTaskEffect`. |
| QuestsSpec.DeleteTask | quests.cpp:139-145 | Definition of `deletetask` as a transition of the four tables. Its meaning is stated by `QuestsSpec.DeleteTaskEffect`. |
| QuestsSpec.CreateCommun | quests.cpp:147-161 | Definition of `createcommun` as a transition of the four tables. Its meaning is stated by `QuestsSpec.CreateCommunEffect`. |
| QuestsSpec.EditCommun | quests.cpp:163-176 | Definition of `editcommun` as a transition of the four tables. Its meaning is stated by `QuestsSpec.EditCommunEffect`. |
| QuestsSpec.Subscribe | quests.cpp:178-183 | Definition of the guards of `subscribe` as a transition of the four tables. Its meaning is stated by `QuestsSpec.SubscribeNeverCommits`. |
| QuestsSpec.SubscribeWrites | quests.cpp:184-188 | Definition of the write of `subscribe` as a transition of the four tables. Its meaning is stated by `QuestsSpec.SubscribeNeverCommits` (it is never reached). |
| QuestsSpec.CreateQuest | quests.cpp:192-212 | Definition of `createquest` as a transition of the four tables. Its meaning is stated by `QuestsSpec.CreateQuestEffect`. |
| QuestsSpec.EditQuest | quests.cpp:214-231 | Definition of `editquest` as a transition of the four tables. Its meaning is stated by `QuestsSpec.EditQuestEffect`. |
| QuestsSpec.CreateScoreEffect | quests.cpp:72-86 | `createscore` commits if and only if both the caller and the contract authorised it, `questId` is NOT a quest of the caller, and `scoreId` is new in the caller's `users` scope. It adds exactly that row. |
| QuestsSpec.CreateTaskEffect | quests.cpp:88-105 | `createtask` commits if and only if the caller authorised it and the id is new. No quest is checked. The row stores the caller as owner and `relatedquest` as given. |
| QuestsSpec.EditTaskEffect | quests.cpp:107-123 | `edittask` commits if and only if the caller authorised it and the id is non-zero and exists, whoever owns the task. It hands the task to the caller, stores the quest unchecked and keeps the completion fields. |
| QuestsSpec.SubmitTaskEffect | quests.cpp:125-137 | `submittask` commits if and only if both authorities are present, the id is non-zero and the caller's own scope has no such row. The row holds the id and the two completion fields, and every other field, `account` and `relatedquest` included, is empty or 0. |
| QuestsSpec.DeleteTaskEffect | quests.cpp:139-145 | `deletetask` commits if and only if the caller authorised it and the task exists, whoever owns it. It removes that row and nothing else. |
| QuestsSpec.CreateCommunEffect | quests.cpp:147-161 | `createcommun` commits if and only if the caller authorised it and the id is new in the caller's scope. The community starts with score 0 and no followers. |
| QuestsSpec.EditCommunEffect | quests.cpp:163-176 | `editcommun` commits if and only if the caller authorised it and the community exists in the caller's scope. Its `followers` argument is ignored, and score, followers and owner never change. |
| QuestsSpec.SubscribeNeverCommits | quests.cpp:178-189 | `subscribe` aborts on every input, for the same reason as in the later contract. |
| QuestsSpec.CreateQuestEffect | quests.cpp:192-212 | `createquest` commits if and only if the caller authorised it, has a community `communityId` (0 included, no owner check) and the quest id is new. The quest belongs to the caller. |
| QuestsSpec.EditQuestEffect | quests.cpp:214-231 | `editquest` commits if and only if the caller authorised it and the quest exists in the caller's scope. It rewrites the descriptive fields, never the owner or the community. |
| Quests.Contract.constructor | quests.cpp:26-70 | A fresh deployment has four empty tables, which satisfy the invariant. |
| Quests.Contract.CreateScore | quests.cpp:72-86 | Matches `QuestsSpec.CreateScore` and keeps the invariant. |
| Quests.Contract.CreateTask | quests.cpp:88-105 | Matches `QuestsSpec.CreateTask` and keeps the invariant. |
| Quests.Contract.EditTask | quests.cpp:107-123 | Matches `QuestsSpec.EditTask` and keeps the invariant. |
| Quests.Contract.SubmitTask | quests.cpp:125-137 | Matches `QuestsSpec.SubmitTask` and keeps the invariant. |
| Quests.Contract.DeleteTask | quests.cpp:139-145 | Matches `QuestsSpec.DeleteTask` and keeps the invariant. |
| Quests.Contract.CreateCommun | quests.cpp:147-161 | Matches `QuestsSpec.CreateCommun` and keeps the invariant. |
| Quests.Contract.EditCommun | quests.cpp:163-176 | Matches `QuestsSpec.EditCommun` and keeps the invariant. |
| Quests.Contract.Subscribe | quests.cpp:178-184 | Matches `QuestsSpec.Subscribe` and keeps the invariant. |
| Quests.Contract.SubscribeWrites | quests.cpp:184-188 | The write of `subscribe`: emplace into the contract's `users` scope. It matches `QuestsSpec.SubscribeWrites`. |
| Quests.Contract.CreateQuest | quests.cpp:192-212 | Matches `QuestsSpec.CreateQuest` and keeps the invariant. |
| Quests.Contract.EditQuest | quests.cpp:214-231 | Matches `QuestsSpec.EditQuest` and keeps the invariant. |

## Left out

- **Dispatch and resources:** `EOSIO_DISPATCH` and ABI generation, RAM payers of `emplace`/`modify`, and permission levels are platform plumbing. Neither dispatcher lists `createscore` (questscreate.cpp:325 and quests.cpp:235). Even so, `QuestsCreateRuns.Action` offers it and both contract classes model it as a callable method, `QuestsCreate.Contract.CreateScore` and `Quests.Contract.CreateScore`. Everything proved for all runs therefore also holds for the runs the dispatchers allow.
- **Authorisation:** signature and permission checking are left out. A transaction's authority is given as a set of accounts.
- **Inline actions:**
  - An inline action needs the contract's `eosio.code` permission. The model assumes it is granted and gives the inline action the caller's authority alone.
  - Inline actions run immediately after the sending action's body, in send order. No other action of the same transaction is modelled between them.
- **Opaque values:**
  - `time_point` and `time_point_sec` values are stored as integers and never inspected.
  - Strings are character sequences with no encoding.
- **Unset fields:** `multi_index::emplace` default-constructs the row and then runs the lambda on it.
  - Members with constructors (`name`, `time_point`, strings and vectors) really start as 0 or empty.
  - Unset `uint64_t` and `bool` members are indeterminate in C++. Examples are `timescompl` in `createtask`, `communityId` and `subscription` in `createscore`, and `reward` in `submittask`. The model takes them to be 0 and `false`, the values they hold in practice because fresh WebAssembly memory is zeroed.
- **Undefined behaviour:**
  - Dereferencing a `find` result equal to `end()` is undefined behaviour in C++. This happens at questscreate.cpp:78, 94, 157-158, 240, 280 and 308. The model takes the subsequent `check` or `modify` to abort there, as it does whenever the row is missing.
  - At questscreate.cpp:265, `modify` on a missing community aborts.
- **Abort reasons:** the message strings of `check` are not modelled. An abort carries no reason.
- **Field renaming:** the field `type` of a task is called `kind`, because `type` is a Dafny keyword.
- QuestsCreate.Contract.SubscribeWrites: the follower count wraps at 2^64 as `uint64_t` does. The action never commits, so the wrap is unreachable.
- **Runs of the earlier contract:** no module covers runs of the `quests.cpp` contract. Its contract class keeps the invariant in every reachable state, and it has no task lists.
