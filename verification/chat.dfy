/** The chat interpreter: one turn turns a message and a user id into the calls made on the
    task store and the reply. The store is abstract: what it lists, and what each call of the
    turn returns, are given as data. */
module Chat {
  import opened Wrappers
  import opened TaskModel
  import opened Text
  import opened Patterns
  import opened Intents
  import opened Replies

  /** A call the interpreter makes on the task store, on behalf of `user`. */
  datatype Call =
    | ListTasks(user: string, status: Option<Status>)
    | CompleteTask(user: string, taskId: string)
    | DeleteTask(user: string, taskId: string)
    | UpdateTask(user: string, taskId: string, title: string)
    | AddTask(user: string, title: string)

  predicate IsMutation(c: Call) {
    !c.ListTasks?
  }

  /** The store as one turn sees it. `listing` is what listing the user's tasks returns, `None`
      when that fails; it is the same whatever status is asked for, because the store ignores
      the status. `respond(j, c)` is the task returned by call `c` made as the `j`-th call of the
      turn (counting from zero), `None` when that call fails; for a deletion only success
      matters. */
  datatype Store = Store(listing: Option<seq<Task>>, respond: (nat, Call) -> Option<Task>)

  /** `Fault` is the exception that escapes when a management request cannot list the tasks. */
  datatype Answer = Say(message: Message) | Fault

  /** The calls a turn makes, in order, and how it answers. */
  datatype Turn = Turn(calls: seq<Call>, answer: Answer)

  /** Call `c`, made as the `j`-th call of the turn, failed. */
  predicate Failed(respond: (nat, Call) -> Option<Task>, j: nat, c: Call) {
    respond(j, c).None?
  }

  /** Every mutation of `calls` except possibly the last one failed: a turn changes the store
      at most once, and stops as soon as it has. */
  predicate OnlyLastMayChange(respond: (nat, Call) -> Option<Task>, calls: seq<Call>) {
    forall j :: 0 <= j < |calls| - 1 && IsMutation(calls[j]) ==> Failed(respond, j, calls[j])
  }

  /** Every call is made on behalf of `user`. */
  predicate OnBehalfOf(calls: seq<Call>, user: string) {
    forall j :: 0 <= j < |calls| ==> calls[j].user == user
  }

  /** The turn of a management request: it lists first, and every later call changes a task
      that already exists. */
  predicate ListsThenModifies(calls: seq<Call>) {
    && |calls| > 0 && calls[0].ListTasks?
    && forall j :: 1 <= j < |calls| ==> IsMutation(calls[j]) && !calls[j].AddTask?
  }

  // ---------------------------------------------------------------- trying targets in order

  /** What to do with a target task. */
  datatype Action = Complete | Delete | Rename(title: string)

  /** `c` is a call that does `action` on behalf of `user`. */
  predicate Performs(c: Call, user: string, action: Action) {
    && c.user == user
    && match action
       case Complete => c.CompleteTask?
       case Delete => c.DeleteTask?
       case Rename(title) => c.UpdateTask? && c.title == title
  }

  function CallFor(user: string, action: Action, t: Task): (c: Call)
    ensures Performs(c, user, action) && IsMutation(c)
    ensures c.taskId == t.id
  {
    match action
    case Complete => CompleteTask(user, t.id)
    case Delete => DeleteTask(user, t.id)
    case Rename(title) => UpdateTask(user, t.id, title)
  }

  /** The calls doing `action` on each of `targets`, in order. */
  function CallsFor(user: string, action: Action, targets: seq<Task>): (r: seq<Call>)
    ensures |r| == |targets|
    ensures forall j :: 0 <= j < |r| ==> r[j] == CallFor(user, action, targets[j])
  {
    seq(|targets|, j requires 0 <= j < |targets| => CallFor(user, action, targets[j]))
  }

  /** Each of the first `n` targets, tried with `action` from call `base` of the turn on,
      failed. */
  predicate AllFailed(respond: (nat, Call) -> Option<Task>, user: string, action: Action,
                      base: nat, targets: seq<Task>, n: nat)
    requires n <= |targets|
  {
    forall j :: 0 <= j < n ==> Failed(respond, base + j, CallFor(user, action, targets[j]))
  }

  /** How many targets a run of tries reached, and the task the store returned for the one
      that succeeded, if any. */
  datatype Tries = Tries(count: nat, success: Option<Task>)

  /** Applies `action` to `targets` in order, the first call being call `base` of the turn,
      until one succeeds: every call before the last failed, and the run stops early only at
      a success. */
  function TryInOrder(user: string, respond: (nat, Call) -> Option<Task>, base: nat,
                      action: Action, targets: seq<Task>): (r: Tries)
    decreases |targets|
    ensures r.count <= |targets|
    ensures r.success.None? ==> r.count == |targets| && AllFailed(respond, user, action, base, targets, r.count)
    ensures r.success.Some? ==>
      && r.count > 0
      && AllFailed(respond, user, action, base, targets, r.count - 1)
      && respond(base + r.count - 1, CallFor(user, action, targets[r.count - 1])) == r.success
  {
    if |targets| == 0 then Tries(0, None)
    else
      var c := CallFor(user, action, targets[0]);
      match respond(base, c)
      case Some(t) => Tries(1, Some(t))
      case None =>
        var rest := TryInOrder(user, respond, base + 1, action, targets[1..]);
        assert forall j :: 1 <= j < |targets| ==> targets[1..][j - 1] == targets[j];
        Tries(1 + rest.count, rest.success)
  }

  /** How a management request found its task: by number, by keyword, or not at all.
      `target` is the task as listed, `result` the task the store returned. */
  datatype Outcome = ByOrdinal(target: Task, result: Task) | ByKeyword(target: Task, result: Task) | Unresolved

  /** What a management request will try: the ordinal targets with `byNumber`, then the
      keyword targets with `byKeyword`. */
  datatype Plan = Plan(ordinal: seq<Task>, byNumber: Action, keyword: seq<Task>, byKeyword: Action)

  /** How far a management request got: how many ordinal targets and how many keyword
      targets it tried, and how it ended. */
  datatype Resolution = Resolution(numbered: nat, named: nat, outcome: Outcome)

  /** Carries out a plan from call 1 of the turn on. Every try but the last failed; the
      keyword targets are reached only once every ordinal try failed; the request is
      unresolved only when every target was tried and failed; a success names its target and
      the task the store returned. */
  function Resolve(user: string, respond: (nat, Call) -> Option<Task>, p: Plan): (r: Resolution)
    ensures r.numbered <= |p.ordinal| && r.named <= |p.keyword|
    ensures r.outcome.Unresolved? ==>
      && r.numbered == |p.ordinal| && r.named == |p.keyword|
      && AllFailed(respond, user, p.byNumber, 1, p.ordinal, |p.ordinal|)
      && AllFailed(respond, user, p.byKeyword, 1 + |p.ordinal|, p.keyword, |p.keyword|)
    ensures r.outcome.ByOrdinal? ==>
      && r.named == 0 && r.numbered > 0
      && AllFailed(respond, user, p.byNumber, 1, p.ordinal, r.numbered - 1)
      && r.outcome.target == p.ordinal[r.numbered - 1]
      && respond(r.numbered, CallFor(user, p.byNumber, r.outcome.target)) == Some(r.outcome.result)
    ensures r.outcome.ByKeyword? ==>
      && r.numbered == |p.ordinal| && r.named > 0
      && AllFailed(respond, user, p.byNumber, 1, p.ordinal, |p.ordinal|)
      && AllFailed(respond, user, p.byKeyword, 1 + |p.ordinal|, p.keyword, r.named - 1)
      && r.outcome.target == p.keyword[r.named - 1]
      && respond(|p.ordinal| + r.named, CallFor(user, p.byKeyword, r.outcome.target)) == Some(r.outcome.result)
  {
    var first := TryInOrder(user, respond, 1, p.byNumber, p.ordinal);
    if first.success.Some? then
      Resolution(first.count, 0, ByOrdinal(p.ordinal[first.count - 1], first.success.value))
    else
      var second := TryInOrder(user, respond, 1 + |p.ordinal|, p.byKeyword, p.keyword);
      if second.success.Some? then
        Resolution(first.count, second.count, ByKeyword(p.keyword[second.count - 1], second.success.value))
      else
        Resolution(first.count, second.count, Unresolved)
  }

  /** The calls of a management turn: the listing call, then the tries `Resolve` made. */
  function ManageCalls(list: Call, user: string, p: Plan, res: Resolution): (r: seq<Call>)
    requires res.numbered <= |p.ordinal| && res.named <= |p.keyword|
    ensures |r| == 1 + res.numbered + res.named && r[0] == list
    ensures forall j :: 1 <= j <= res.numbered ==> r[j] == CallFor(user, p.byNumber, p.ordinal[j - 1])
    ensures forall j :: 1 + res.numbered <= j < |r| ==>
      r[j] == CallFor(user, p.byKeyword, p.keyword[j - 1 - res.numbered])
  {
    [list] + CallsFor(user, p.byNumber, p.ordinal[..res.numbered]) + CallsFor(user, p.byKeyword, p.keyword[..res.named])
  }

  /** A management turn changes the store at most once, with its last call. */
  lemma ManageCallsOnlyLastMayChange(list: Call, user: string, respond: (nat, Call) -> Option<Task>, p: Plan)
    requires list.ListTasks?
    ensures var res := Resolve(user, respond, p);
      OnlyLastMayChange(respond, ManageCalls(list, user, p, res))
  {
    var res := Resolve(user, respond, p);
    var calls := ManageCalls(list, user, p, res);
    forall j | 0 <= j < |calls| - 1 && IsMutation(calls[j])
      ensures Failed(respond, j, calls[j])
    {
      if j <= res.numbered {
        assert calls[j] == CallFor(user, p.byNumber, p.ordinal[j - 1]);
        assert j - 1 < res.numbered - 1 || res.named > 0 || res.outcome.Unresolved?;
        assert Failed(respond, 1 + (j - 1), CallFor(user, p.byNumber, p.ordinal[j - 1]));
      } else {
        var k := j - 1 - res.numbered;
        assert calls[j] == CallFor(user, p.byKeyword, p.keyword[k]);
        assert Failed(respond, 1 + |p.ordinal| + k, CallFor(user, p.byKeyword, p.keyword[k]));
      }
    }
  }

  // ---------------------------------------------------------------- choosing targets

  /** The task a message picks by number: `task 2`, `number 2` or `no. 2` picks the second
      listed task, when there is one. */
  function OrdinalTarget(msg: string, tasks: seq<Task>): (r: Option<nat>)
    ensures r.Some? <==>
      OrdinalReference(msg).Some? && 1 <= OrdinalReference(msg).value <= |tasks|
    ensures r.Some? ==> r.value < |tasks| && r.value + 1 == OrdinalReference(msg).value
  {
    match OrdinalReference(msg)
    case Some(n) => if 1 <= n <= |tasks| then Some(n - 1) else None
    case None => None
  }

  function OrdinalTargets(msg: string, tasks: seq<Task>): (r: seq<Task>)
    ensures |r| <= 1
    ensures |r| == 1 <==> OrdinalTarget(msg, tasks).Some?
    ensures |r| == 1 ==> r[0] == tasks[OrdinalTarget(msg, tasks).value]
  {
    match OrdinalTarget(msg, tasks)
    case Some(i) => [tasks[i]]
    case None => []
  }

  /** The words of the message longer than two characters, in order. */
  function LongWords(words: seq<string>): (r: seq<string>)
    decreases |words|
    ensures forall w :: w in r <==> w in words && |w| > 2
  {
    if |words| == 0 then []
    else if |words[0]| > 2 then [words[0]] + LongWords(words[1..])
    else LongWords(words[1..])
  }

  /** `w` is a keyword of the message: one of its maximal runs of non-space characters,
      longer than two characters. */
  ghost predicate IsKeyword(lowerMsg: string, w: string) {
    |w| > 2 && IsWord(lowerMsg, w)
  }

  /** The keywords of a lower-cased, trimmed message: its blank-separated words longer than two
      characters. */
  function Keywords(lowerMsg: string): (r: seq<string>)
    ensures forall w :: w in r ==> IsKeyword(lowerMsg, w) && NoSpace(w) && Contains(lowerMsg, w)
    ensures forall w :: IsKeyword(lowerMsg, w) ==> w in r
  {
    var ws := Words(lowerMsg);
    assert forall w :: w in ws <==> IsWord(lowerMsg, w) by {
      forall w ensures w in ws <==> IsWord(lowerMsg, w) {
        WordsAreMaximalRuns(lowerMsg, w);
      }
    }
    assert forall w :: w in ws ==> NoSpace(w) && Contains(lowerMsg, w) by {
      forall w | w in ws ensures NoSpace(w) && Contains(lowerMsg, w) {
        WordsAreMaximalRuns(lowerMsg, w);
      }
    }
    LongWords(ws)
  }

  /** The lower-cased title contains one of the keywords. */
  predicate Mentions(title: string, keywords: seq<string>) {
    exists k :: 0 <= k < |keywords| && Contains(Lower(title), keywords[k])
  }

  /** The tasks whose title mentions a keyword, in listing order. */
  function Matching(tasks: seq<Task>, keywords: seq<string>): (r: seq<Task>)
    decreases |tasks|
    ensures |r| <= |tasks|
    ensures forall t :: t in r <==> t in tasks && Mentions(t.title, keywords)
  {
    if |tasks| == 0 then []
    else if Mentions(tasks[0].title, keywords) then [tasks[0]] + Matching(tasks[1..], keywords)
    else Matching(tasks[1..], keywords)
  }

  /** The first keyword target is the first listed task whose title mentions a keyword. */
  lemma {:induction false} MatchingStartsAtFirstMention(tasks: seq<Task>, keywords: seq<string>, i: nat)
    requires i < |tasks| && Mentions(tasks[i].title, keywords)
    requires forall j :: 0 <= j < i ==> !Mentions(tasks[j].title, keywords)
    decreases i
    ensures |Matching(tasks, keywords)| > 0 && Matching(tasks, keywords)[0] == tasks[i]
  {
    if i > 0 {
      assert !Mentions(tasks[0].title, keywords);
      assert forall j :: 0 <= j < i - 1 ==> tasks[1..][j] == tasks[j + 1];
      MatchingStartsAtFirstMention(tasks[1..], keywords, i - 1);
    }
  }

  /** The tasks not yet completed, in listing order. */
  function Pending(tasks: seq<Task>): (r: seq<Task>)
    decreases |tasks|
    ensures |r| <= |tasks|
    ensures forall t :: t in r <==> t in tasks && !t.completed
  {
    if |tasks| == 0 then []
    else if !tasks[0].completed then [tasks[0]] + Pending(tasks[1..])
    else Pending(tasks[1..])
  }

  /** Filtering keeps the listing order: it distributes over a split of the list. */
  lemma {:induction false} PendingAppend(a: seq<Task>, b: seq<Task>)
    decreases |a|
    ensures Pending(a + b) == Pending(a) + Pending(b)
  {
    if |a| == 0 {
      assert a + b == b;
    } else {
      assert (a + b)[0] == a[0];
      assert (a + b)[1..] == a[1..] + b;
      PendingAppend(a[1..], b);
    }
  }

  /** The keyword candidates keep the listing order: matching distributes over a split of
      the list. */
  lemma {:induction false} MatchingAppend(a: seq<Task>, b: seq<Task>, keywords: seq<string>)
    decreases |a|
    ensures Matching(a + b, keywords) == Matching(a, keywords) + Matching(b, keywords)
  {
    if |a| == 0 {
      assert a + b == b;
    } else {
      assert (a + b)[0] == a[0];
      assert (a + b)[1..] == a[1..] + b;
      MatchingAppend(a[1..], b, keywords);
    }
  }

  // ---------------------------------------------------------------- the branches

  function ListTurn(user: string, lowerMsg: string, store: Store): (r: Turn)
    ensures r.calls == [ListTasks(user, Some(StatusOf(lowerMsg)))]
    ensures store.listing.None? ==> r.answer == Say(ListFailed)
    ensures store.listing.Some? ==> r.answer == Say(Listing(StatusOf(lowerMsg), store.listing.value))
  {
    var status := StatusOf(lowerMsg);
    var call := ListTasks(user, Some(status));
    match store.listing
    case None => Turn([call], Say(ListFailed))
    case Some(tasks) => Turn([call], Say(Listing(status, tasks)))
  }

  /** A complete request tries the numbered task, then the pending tasks whose title
      mentions a keyword. */
  function CompletePlan(msg: string, lowerMsg: string, tasks: seq<Task>): Plan {
    Plan(OrdinalTargets(msg, tasks), Complete, Matching(Pending(tasks), Keywords(lowerMsg)), Complete)
  }

  /** A delete request tries the numbered task, then any task whose title mentions a
      keyword. */
  function DeletePlan(msg: string, lowerMsg: string, tasks: seq<Task>): Plan {
    Plan(OrdinalTargets(msg, tasks), Delete, Matching(tasks, Keywords(lowerMsg)), Delete)
  }

  /** An update request tries targets as a delete request does, but only when the message also
      yields a new title, through the pattern that belongs to how the target was found. */
  function UpdatePlan(msg: string, lowerMsg: string, tasks: seq<Task>): Plan {
    var numbered := NewTitle(msg, TitleAfterOrdinal);
    var named := NewTitle(msg, TitleAfterKeyword);
    Plan(if numbered.Some? then OrdinalTargets(msg, tasks) else [], Rename(numbered.GetOr("")),
         if named.Some? then Matching(tasks, Keywords(lowerMsg)) else [], Rename(named.GetOr("")))
  }

  function PlanFor(req: Request, msg: string, lowerMsg: string, tasks: seq<Task>): (p: Plan)
    ensures req.CompleteReq? ==> p.byNumber == Complete && p.byKeyword == Complete
    ensures req.DeleteReq? ==> p.byNumber == Delete && p.byKeyword == Delete
    ensures req.UpdateReq? ==> p.byNumber.Rename? && p.byKeyword.Rename?
  {
    match req
    case CompleteReq => CompletePlan(msg, lowerMsg, tasks)
    case DeleteReq => DeletePlan(msg, lowerMsg, tasks)
    case UpdateReq => UpdatePlan(msg, lowerMsg, tasks)
  }

  /** The answer once the tries are over: completions and updates quote the task the store
      returned, deletions the task as listed; otherwise the candidates (the pending tasks, for
      a completion). */
  function Closing(req: Request, tasks: seq<Task>, outcome: Outcome): Message {
    match (req, outcome)
    case (CompleteReq, ByOrdinal(_, t)) => MarkedDone(t.title, true)
    case (CompleteReq, ByKeyword(_, t)) => MarkedDone(t.title, false)
    case (CompleteReq, Unresolved) =>
      var pending := Pending(tasks);
      if |pending| > 0 then Which(CompleteReq, pending) else AllCompleted
    case (DeleteReq, ByOrdinal(target, _)) => Deleted(target.title)
    case (DeleteReq, ByKeyword(target, _)) => Deleted(target.title)
    case (DeleteReq, Unresolved) => Which(DeleteReq, tasks)
    case (UpdateReq, ByOrdinal(_, t)) => Updated(t.title)
    case (UpdateReq, ByKeyword(_, t)) => Updated(t.title)
    case (UpdateReq, Unresolved) => Which(UpdateReq, tasks)
  }

  /** `c` is a mutation of the kind `req` makes. */
  predicate Serves(c: Call, req: Request) {
    match req
    case CompleteReq => c.CompleteTask?
    case DeleteReq => c.DeleteTask?
    case UpdateReq => c.UpdateTask?
  }

  /** A complete, delete or update request: list the tasks, stop if there are none, otherwise
      carry out the plan and answer. */
  function ManageTurn(req: Request, user: string, msg: string, lowerMsg: string, store: Store): (r: Turn)
    ensures |r.calls| > 0 && r.calls[0] == ListTasks(user, None)
    ensures forall j :: 1 <= j < |r.calls| ==> Serves(r.calls[j], req) && r.calls[j].user == user
    ensures OnBehalfOf(r.calls, user) && ListsThenModifies(r.calls)
    ensures OnlyLastMayChange(store.respond, r.calls)
    ensures store.listing.None? <==> r.answer.Fault?
    ensures store.listing == Some([]) ==> r == Turn([ListTasks(user, None)], Say(NothingTo(req)))
  {
    var list := ListTasks(user, None);
    match store.listing
    case None => Turn([list], Fault)
    case Some(tasks) =>
      if |tasks| == 0 then Turn([list], Say(NothingTo(req)))
      else
        var p := PlanFor(req, msg, lowerMsg, tasks);
        var res := Resolve(user, store.respond, p);
        ManageCallsOnlyLastMayChange(list, user, store.respond, p);
        Turn(ManageCalls(list, user, p, res), Say(Closing(req, tasks, res.outcome)))
  }

  /** A message no management test claimed: it becomes a new task when its cleaned text is
      longer than one character and the whole message is not a stop word; otherwise, or when
      adding fails, the help text is the reply. */
  function CreateTurn(user: string, msg: string, lowerMsg: string, store: Store): (r: Turn)
    ensures |r.calls| <= 1
    ensures |r.calls| == 1 <==> |CleanMessage(msg)| > 1 && !IsGeneric(lowerMsg)
    ensures |r.calls| == 1 ==> r.calls[0] == AddTask(user, CleanMessage(msg))
    ensures |r.calls| == 1 && store.respond(0, r.calls[0]).Some? ==>
      r.answer == Say(Added(store.respond(0, r.calls[0]).value.title))
    ensures (|r.calls| == 0 || store.respond(0, r.calls[0]).None?) ==> r.answer == Say(Help)
  {
    var cleaned := CleanMessage(msg);
    if |cleaned| > 1 && !IsGeneric(lowerMsg) then
      var call := AddTask(user, cleaned);
      match store.respond(0, call)
      case Some(t) => Turn([call], Say(Added(t.title)))
      case None => Turn([call], Say(Help))
    else Turn([], Say(Help))
  }

  // ---------------------------------------------------------------- a whole turn

  /** `!userId` in the source: no id, or the empty one. */
  predicate MissingUser(userId: Option<string>) {
    userId.None? || userId.value == ""
  }

  /** The message as the classifier sees it: lower-cased, then trimmed. */
  function Folded(msg: string): string {
    Trim(Lower(msg))
  }

  /** One turn of the interpreter. */
  function Interpret(msg: string, userId: Option<string>, store: Store): (r: Turn)
    ensures MissingUser(userId) ==> r == Turn([], Say(UserIdRequired))
    ensures !MissingUser(userId) ==> OnBehalfOf(r.calls, userId.value)
    ensures OnlyLastMayChange(store.respond, r.calls)
    ensures !MissingUser(userId) && Classify(Folded(msg)) != Other ==> ListsThenModifies(r.calls)
    ensures r.answer.Fault? ==> store.listing.None?
  {
    if MissingUser(userId) then Turn([], Say(UserIdRequired))
    else
      var user := userId.value;
      var lowerMsg := Folded(msg);
      match Classify(lowerMsg)
      case ListRequest(_) => ListTurn(user, lowerMsg, store)
      case CompleteRequest => ManageTurn(CompleteReq, user, msg, lowerMsg, store)
      case DeleteRequest => ManageTurn(DeleteReq, user, msg, lowerMsg, store)
      case UpdateRequest => ManageTurn(UpdateReq, user, msg, lowerMsg, store)
      case Other => CreateTurn(user, msg, lowerMsg, store)
  }

  /** A message no management test claims is handled as a create request. */
  lemma UnclaimedMessageCreates(msg: string, user: string, store: Store)
    requires user != "" && Classify(Folded(msg)) == Other
    ensures Interpret(msg, Some(user), store) == CreateTurn(user, msg, Folded(msg), store)
  {
  }

  /** A message a management test claims is handed, lower-cased and trimmed, to the turn for
      that request. */
  lemma ManagementMessagesAreManaged(msg: string, user: string, store: Store)
    requires user != ""
    ensures Classify(Folded(msg)) == CompleteRequest ==>
      Interpret(msg, Some(user), store) == ManageTurn(CompleteReq, user, msg, Folded(msg), store)
    ensures Classify(Folded(msg)) == DeleteRequest ==>
      Interpret(msg, Some(user), store) == ManageTurn(DeleteReq, user, msg, Folded(msg), store)
    ensures Classify(Folded(msg)) == UpdateRequest ==>
      Interpret(msg, Some(user), store) == ManageTurn(UpdateReq, user, msg, Folded(msg), store)
  {
  }

  /** A task is added only for a message no management test claimed, that is not a stop word
      and whose cleaned text is longer than one character; it is added under the cleaned
      text, on behalf of the user. */
  lemma OnlyUnclaimedMessagesCreate(msg: string, userId: Option<string>, store: Store, j: nat)
    requires j < |Interpret(msg, userId, store).calls|
    requires Interpret(msg, userId, store).calls[j].AddTask?
    ensures !MissingUser(userId)
    ensures Classify(Folded(msg)) == Other
    ensures !IsGeneric(Folded(msg)) && |CleanMessage(msg)| > 1
    ensures Interpret(msg, userId, store).calls[j] == AddTask(userId.value, CleanMessage(msg))
  {
    var r := Interpret(msg, userId, store);
    assert r.calls[j].AddTask?;
    assert !MissingUser(userId);
    assert Classify(Folded(msg)) == Other;
    UnclaimedMessageCreates(msg, userId.value, store);
  }

  /** A stop word that no management test claims is answered with the help text and adds
      nothing. */
  lemma StopWordGetsHelp(msg: string, user: string, store: Store)
    requires user != ""
    requires Classify(Folded(msg)) == Other && IsGeneric(Folded(msg))
    ensures Interpret(msg, Some(user), store) == Turn([], Say(Help))
  {
    UnclaimedMessageCreates(msg, user, store);
  }

  // ---------------------------------------------------------------- resolving targets

  /** Every call of a turn after the listing failed. */
  predicate NoneChanged(respond: (nat, Call) -> Option<Task>, calls: seq<Call>) {
    forall j :: 1 <= j < |calls| ==> Failed(respond, j, calls[j])
  }

  /** The first target of a plan is the first one tried, and when the store accepts that call
      the tries end there, with that target as the outcome. */
  lemma FirstTryDecides(list: Call, user: string, respond: (nat, Call) -> Option<Task>, p: Plan)
    requires |p.ordinal| + |p.keyword| > 0
    ensures var res := Resolve(user, respond, p);
      var calls := ManageCalls(list, user, p, res);
      var first := if |p.ordinal| > 0 then CallFor(user, p.byNumber, p.ordinal[0])
                   else CallFor(user, p.byKeyword, p.keyword[0]);
      && |calls| >= 2 && calls[1] == first
      && (respond(1, first).Some? ==>
            && |calls| == 2
            && res.outcome == (if |p.ordinal| > 0 then ByOrdinal(p.ordinal[0], respond(1, first).value)
                               else ByKeyword(p.keyword[0], respond(1, first).value)))
  {
    var res := Resolve(user, respond, p);
    var first := TryInOrder(user, respond, 1, p.byNumber, p.ordinal);
    if |p.ordinal| == 0 {
      var second := TryInOrder(user, respond, 1, p.byKeyword, p.keyword);
      assert second.count > 0;
    } else {
      assert first.count > 0;
    }
  }

  /** A resolved request ends with the call the store accepted. */
  lemma ResolvedEndsWithSuccess(list: Call, user: string, respond: (nat, Call) -> Option<Task>, p: Plan)
    ensures var res := Resolve(user, respond, p);
      var calls := ManageCalls(list, user, p, res);
      !res.outcome.Unresolved? ==> |calls| > 1 && !Failed(respond, |calls| - 1, calls[|calls| - 1])
  {
    var res := Resolve(user, respond, p);
    var calls := ManageCalls(list, user, p, res);
    if res.outcome.ByOrdinal? {
      assert calls[res.numbered] == CallFor(user, p.byNumber, res.outcome.target);
    } else if res.outcome.ByKeyword? {
      assert calls[|p.ordinal| + res.named] == CallFor(user, p.byKeyword, res.outcome.target);
    }
  }

  /** When every change a turn attempted failed, the request is unresolved, so every target of
      the plan was tried. */
  lemma NoneChangedMeansUnresolved(list: Call, user: string, respond: (nat, Call) -> Option<Task>, p: Plan)
    requires var res := Resolve(user, respond, p);
      NoneChanged(respond, ManageCalls(list, user, p, res))
    ensures var res := Resolve(user, respond, p);
      && res.outcome.Unresolved?
      && |ManageCalls(list, user, p, res)| == 1 + |p.ordinal| + |p.keyword|
  {
    ResolvedEndsWithSuccess(list, user, respond, p);
  }

  /** A number that picks a listed task makes that task the first one tried; if the store
      accepts the call, the turn ends there and answers about that task. For an update the
      message must also yield a new title through the numbered pattern. */
  lemma OrdinalTargetIsTriedFirst(req: Request, user: string, msg: string, lowerMsg: string,
                                  store: Store, tasks: seq<Task>, i: nat)
    requires store.listing == Some(tasks) && |tasks| > 0
    requires OrdinalTarget(msg, tasks) == Some(i)
    requires req.UpdateReq? ==> NewTitle(msg, TitleAfterOrdinal).Some?
    ensures var r := ManageTurn(req, user, msg, lowerMsg, store);
      && |r.calls| >= 2
      && r.calls[1] == CallFor(user, PlanFor(req, msg, lowerMsg, tasks).byNumber, tasks[i])
      && (store.respond(1, r.calls[1]).Some? ==>
            && |r.calls| == 2
            && r.answer == Say(Closing(req, tasks, ByOrdinal(tasks[i], store.respond(1, r.calls[1]).value))))
  {
    var p := PlanFor(req, msg, lowerMsg, tasks);
    assert p.ordinal == [tasks[i]];
    FirstTryDecides(ListTasks(user, None), user, store.respond, p);
  }

  /** The first keyword candidate among the pending tasks is the first task of the listing
      that is not completed and mentions a keyword. */
  lemma FirstMentionedPendingLeads(tasks: seq<Task>, keywords: seq<string>, i: nat)
    requires i < |tasks| && !tasks[i].completed && Mentions(tasks[i].title, keywords)
    requires forall j :: 0 <= j < i ==> tasks[j].completed || !Mentions(tasks[j].title, keywords)
    ensures |Matching(Pending(tasks), keywords)| > 0 && Matching(Pending(tasks), keywords)[0] == tasks[i]
  {
    var before, after := tasks[..i], tasks[i..];
    assert tasks == before + after;
    PendingAppend(before, after);
    var pending := Pending(tasks);
    var n := |Pending(before)|;
    assert after[0] == tasks[i];
    assert Pending(after)[0] == tasks[i];
    assert pending[n] == tasks[i];
    forall j | 0 <= j < n ensures !Mentions(pending[j].title, keywords) {
      assert pending[j] in Pending(before);
    }
    MatchingStartsAtFirstMention(pending, keywords, n);
  }

  /** With no usable number, a complete request tries first the first pending task, in
      listing order, whose lower-cased title contains a keyword of the message; if the store
      accepts, the turn ends there. */
  lemma CompletePicksFirstMentionedPendingTask(user: string, msg: string, lowerMsg: string,
                                               store: Store, tasks: seq<Task>, i: nat)
    requires store.listing == Some(tasks) && |tasks| > 0
    requires OrdinalTarget(msg, tasks).None?
    requires i < |tasks| && !tasks[i].completed && Mentions(tasks[i].title, Keywords(lowerMsg))
    requires forall j :: 0 <= j < i ==> tasks[j].completed || !Mentions(tasks[j].title, Keywords(lowerMsg))
    ensures var r := ManageTurn(CompleteReq, user, msg, lowerMsg, store);
      && |r.calls| >= 2
      && r.calls[1] == CompleteTask(user, tasks[i].id)
      && (store.respond(1, r.calls[1]).Some? ==>
            && |r.calls| == 2
            && r.answer == Say(MarkedDone(store.respond(1, r.calls[1]).value.title, false)))
  {
    FirstMentionedPendingLeads(tasks, Keywords(lowerMsg), i);
    var p := PlanFor(CompleteReq, msg, lowerMsg, tasks);
    assert p.ordinal == [];
    FirstTryDecides(ListTasks(user, None), user, store.respond, p);
  }

  /** The same for deletion, over all listed tasks; the reply names the task as listed. */
  lemma DeletePicksFirstMentionedTask(user: string, msg: string, lowerMsg: string,
                                      store: Store, tasks: seq<Task>, i: nat)
    requires store.listing == Some(tasks) && |tasks| > 0
    requires OrdinalTarget(msg, tasks).None?
    requires i < |tasks| && Mentions(tasks[i].title, Keywords(lowerMsg))
    requires forall j :: 0 <= j < i ==> !Mentions(tasks[j].title, Keywords(lowerMsg))
    ensures var r := ManageTurn(DeleteReq, user, msg, lowerMsg, store);
      && |r.calls| >= 2
      && r.calls[1] == DeleteTask(user, tasks[i].id)
      && (store.respond(1, r.calls[1]).Some? ==>
            |r.calls| == 2 && r.answer == Say(Deleted(tasks[i].title)))
  {
    MatchingStartsAtFirstMention(tasks, Keywords(lowerMsg), i);
    var p := PlanFor(DeleteReq, msg, lowerMsg, tasks);
    assert p.ordinal == [];
    FirstTryDecides(ListTasks(user, None), user, store.respond, p);
  }

  /** An update naming a task by number renames that task to the title the ordinal pattern
      captures; if the store accepts, the turn ends there. */
  lemma UpdateByNumberCarriesNewTitle(user: string, msg: string, lowerMsg: string,
                                      store: Store, tasks: seq<Task>, i: nat)
    requires store.listing == Some(tasks) && |tasks| > 0
    requires OrdinalTarget(msg, tasks) == Some(i)
    requires NewTitle(msg, TitleAfterOrdinal).Some?
    ensures var r := ManageTurn(UpdateReq, user, msg, lowerMsg, store);
      && |r.calls| >= 2
      && r.calls[1] == UpdateTask(user, tasks[i].id, NewTitle(msg, TitleAfterOrdinal).value)
      && (store.respond(1, r.calls[1]).Some? ==>
            |r.calls| == 2 && r.answer == Say(Updated(store.respond(1, r.calls[1]).value.title)))
  {
    OrdinalTargetIsTriedFirst(UpdateReq, user, msg, lowerMsg, store, tasks, i);
  }

  /** Without a usable number, an update that yields a title through the keyword pattern
      renames first the first listed task whose lower-cased title contains a keyword; if the
      store accepts, the turn ends there. */
  lemma UpdatePicksFirstMentionedTask(user: string, msg: string, lowerMsg: string,
                                      store: Store, tasks: seq<Task>, i: nat)
    requires store.listing == Some(tasks) && |tasks| > 0
    requires NoNumberedRename(msg, tasks) && NewTitle(msg, TitleAfterKeyword).Some?
    requires FirstMention(tasks, Keywords(lowerMsg), i)
    ensures var r := ManageTurn(UpdateReq, user, msg, lowerMsg, store);
      && |r.calls| >= 2
      && r.calls[1] == UpdateTask(user, tasks[i].id, NewTitle(msg, TitleAfterKeyword).value)
      && (store.respond(1, r.calls[1]).Some? ==>
            |r.calls| == 2 && r.answer == Say(Updated(store.respond(1, r.calls[1]).value.title)))
  {
    UpdateWithoutNumberPlan(msg, lowerMsg, tasks, i);
    KeywordRenameIsTriedFirst(user, msg, lowerMsg, store, tasks, tasks[i],
                              NewTitle(msg, TitleAfterKeyword).value);
  }

  /** A plan with no numbered target whose first keyword candidate is `t`. */
  predicate KeywordLeads(p: Plan, t: Task) {
    p.ordinal == [] && |p.keyword| > 0 && p.keyword[0] == t
  }

  /** With no numbered target, the first keyword candidate is tried right after the listing;
      if the store accepts, the turn ends there. */
  lemma KeywordTargetIsTriedFirst(req: Request, user: string, msg: string, lowerMsg: string,
                                  store: Store, tasks: seq<Task>, t: Task)
    requires store.listing == Some(tasks) && |tasks| > 0
    requires KeywordLeads(PlanFor(req, msg, lowerMsg, tasks), t)
    ensures var r := ManageTurn(req, user, msg, lowerMsg, store);
      && |r.calls| >= 2
      && r.calls[1] == CallFor(user, PlanFor(req, msg, lowerMsg, tasks).byKeyword, t)
      && (store.respond(1, r.calls[1]).Some? ==>
            && |r.calls| == 2
            && r.answer == Say(Closing(req, tasks, ByKeyword(t, store.respond(1, r.calls[1]).value))))
  {
    var p := PlanFor(req, msg, lowerMsg, tasks);
    FirstTryDecides(ListTasks(user, None), user, store.respond, p);
  }

  /** An update plan that renames `t` first, to `title`: the store is asked to rename `t` right
      after the listing; if it accepts, the turn ends with the title it returned. */
  lemma KeywordRenameIsTriedFirst(user: string, msg: string, lowerMsg: string, store: Store,
                                  tasks: seq<Task>, t: Task, title: string)
    requires store.listing == Some(tasks) && |tasks| > 0
    requires var p := PlanFor(UpdateReq, msg, lowerMsg, tasks);
      KeywordLeads(p, t) && p.byKeyword == Rename(title)
    ensures var r := ManageTurn(UpdateReq, user, msg, lowerMsg, store);
      && |r.calls| >= 2
      && r.calls[1] == UpdateTask(user, t.id, title)
      && (store.respond(1, r.calls[1]).Some? ==>
            |r.calls| == 2 && r.answer == Say(Updated(store.respond(1, r.calls[1]).value.title)))
  {
    KeywordTargetIsTriedFirst(UpdateReq, user, msg, lowerMsg, store, tasks, t);
  }

  /** The numbered path of an update is unusable: no task by that number, or no new title
      through the ordinal pattern. */
  predicate NoNumberedRename(msg: string, tasks: seq<Task>) {
    OrdinalTarget(msg, tasks).None? || NewTitle(msg, TitleAfterOrdinal).None?
  }

  /** `tasks[i]` is the first listed task whose title mentions a keyword. */
  predicate FirstMention(tasks: seq<Task>, keywords: seq<string>, i: nat) {
    && i < |tasks| && Mentions(tasks[i].title, keywords)
    && forall j :: 0 <= j < i ==> !Mentions(tasks[j].title, keywords)
  }

  /** Without a usable number, an update plan tries only the keyword candidates, first of all
      the first listed task that mentions a keyword, renaming them to the title the keyword
      pattern captures. */
  lemma UpdateWithoutNumberPlan(msg: string, lowerMsg: string, tasks: seq<Task>, i: nat)
    requires NoNumberedRename(msg, tasks) && NewTitle(msg, TitleAfterKeyword).Some?
    requires FirstMention(tasks, Keywords(lowerMsg), i)
    ensures var p := PlanFor(UpdateReq, msg, lowerMsg, tasks);
      KeywordLeads(p, tasks[i]) && p.byKeyword == Rename(NewTitle(msg, TitleAfterKeyword).value)
  {
    var p := PlanFor(UpdateReq, msg, lowerMsg, tasks);
    var keywords := Keywords(lowerMsg);
    assert p == UpdatePlan(msg, lowerMsg, tasks);
    assert p.keyword == Matching(tasks, keywords);
    if NewTitle(msg, TitleAfterOrdinal).Some? {
      assert OrdinalTarget(msg, tasks).None?;
      assert p.ordinal == OrdinalTargets(msg, tasks);
    }
    MatchingStartsAtFirstMention(tasks, keywords, i);
  }

  /** An update whose message yields no new title through either pattern makes no change at
      all, even when it names a task, and answers with the candidate list. */
  lemma UpdateWithoutNewTitleChangesNothing(user: string, msg: string, lowerMsg: string,
                                            store: Store, tasks: seq<Task>)
    requires store.listing == Some(tasks) && |tasks| > 0
    requires NewTitle(msg, TitleAfterOrdinal).None? && NewTitle(msg, TitleAfterKeyword).None?
    ensures ManageTurn(UpdateReq, user, msg, lowerMsg, store)
      == Turn([ListTasks(user, None)], Say(Which(UpdateReq, tasks)))
  {
    var p := PlanFor(UpdateReq, msg, lowerMsg, tasks);
    assert p.ordinal == [] && p.keyword == [];
  }

  /** A failed change is never reported as such: when every change the turn attempted failed,
      it has tried every planned target and answers with the candidates (or, for a completion
      with nothing pending, that all tasks are done). */
  lemma FailuresAreNotReported(req: Request, user: string, msg: string, lowerMsg: string,
                               store: Store, tasks: seq<Task>)
    requires store.listing == Some(tasks) && |tasks| > 0
    requires NoneChanged(store.respond, ManageTurn(req, user, msg, lowerMsg, store).calls)
    ensures var r := ManageTurn(req, user, msg, lowerMsg, store);
      var p := PlanFor(req, msg, lowerMsg, tasks);
      && |r.calls| == 1 + |p.ordinal| + |p.keyword|
      && r.answer == Say(Closing(req, tasks, Unresolved))
  {
    var p := PlanFor(req, msg, lowerMsg, tasks);
    NoneChangedMeansUnresolved(ListTasks(user, None), user, store.respond, p);
  }

  /** The answer of an unresolved request lists the candidates, except for a completion with
      nothing pending, which says that every task is already done. */
  lemma UnresolvedAnswersWithCandidates(req: Request, tasks: seq<Task>)
    ensures req.CompleteReq? && |Pending(tasks)| == 0 ==>
      Closing(req, tasks, Unresolved) == AllCompleted
    ensures !(req.CompleteReq? && |Pending(tasks)| == 0) ==>
      Closing(req, tasks, Unresolved) == Which(req, if req.CompleteReq? then Pending(tasks) else tasks)
  {
  }
}
