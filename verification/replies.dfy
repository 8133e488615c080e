/** The sentences the chat interpreter answers with, and the numbered task lists inside them. */
module Replies {
  import opened TaskModel
  import opened Text
  import opened Intents

  const MissingUserReply: string := "User ID is required to process this request."
  const ListFailedReply: string := "I couldn't retrieve your tasks. Please try again."
  const NothingToCompleteReply: string :=
    "You don't have any tasks to complete. Try adding a task first!"
  const AllCompletedReply: string := "All your tasks are already completed! Nothing to complete."
  const NothingToDeleteReply: string := "You don't have any tasks to delete."
  const NothingToUpdateReply: string :=
    "You don't have any tasks to update. Try adding a task first!"
  const HelpReply: string :=
    "Hello! I'm your AI assistant for managing tasks. You can ask me to:\n"
    + "  - Add tasks: \"Add a task to buy groceries\"\n"
    + "  - List tasks: \"Show my tasks\" or \"What do I have to do?\"\n"
    + "  - Complete tasks: \"Complete task 1\" or \"Mark the meeting as done\"\n"
    + "  - Delete tasks: \"Delete the old task\" or \"Remove task 2\"\n"
    + "  - Update tasks: \"Update task 1 to 'call mom'\" or \"Change the doctor appointment to next week\"\n"
    + "\nWhat would you like to do?"

  /** How a status is named in list replies: `tasks` for all, otherwise the status itself. */
  function StatusWord(s: Status): string {
    match s
    case All => "tasks"
    case Pending => "pending"
    case Completed => "completed"
  }

  /** The reply to a list request whose listing came back empty. */
  function EmptyListReply(s: Status): string {
    "You don't have any " + StatusWord(s) + " tasks right now."
  }

  /** An empty listing for an unfiltered request reads "tasks tasks". */
  lemma EmptyUnfilteredListSaysTasksTwice()
    ensures EmptyListReply(All) == "You don't have any tasks tasks right now."
  {
  }

  /** Line `index + 1` of a list reply: number, title and completion state. */
  function ListLine(index: nat, t: Task): (r: string)
    ensures PrefixAt(r, 0, NatToString(index + 1) + ". ")
    ensures PrefixAt(r, |NatToString(index + 1)| + 2, t.title)
    ensures EndsWith(r, if t.completed then " (completed)" else " (pending)")
  {
    var pre := NatToString(index + 1) + ". ";
    var state := if t.completed then " (completed)" else " (pending)";
    var r := pre + t.title + state;
    assert r[..|pre|] == pre;
    assert r[|pre|..|pre| + |t.title|] == t.title;
    assert r[|r| - |state|..] == state;
    r
  }

  /** The lines of a list reply, one per task, in listing order. */
  function ListLines(tasks: seq<Task>): (r: seq<string>)
    ensures |r| == |tasks|
    ensures forall i :: 0 <= i < |tasks| ==> r[i] == ListLine(i, tasks[i])
  {
    seq(|tasks|, i requires 0 <= i < |tasks| => ListLine(i, tasks[i]))
  }

  /** The reply to a list request whose listing succeeded. */
  function ListReply(s: Status, tasks: seq<Task>): string {
    if |tasks| == 0 then EmptyListReply(s)
    else "Here are your " + StatusWord(s) + ":\n" + Join(ListLines(tasks), "\n")
  }

  /** A list line mentions its task's title. */
  lemma ListLineMentionsTitle(index: nat, t: Task)
    ensures Contains(ListLine(index, t), t.title)
  {
    var line := ListLine(index, t);
    var pre := NatToString(index + 1) + ". ";
    assert line[|pre|..|pre| + |t.title|] == t.title;
    assert PrefixAt(line, |pre|, t.title);
    ContainsIff(line, t.title);
  }

  /** A non-empty list reply shows every listed task on its own numbered line, and so
      mentions every title. */
  lemma ListReplyShowsEveryTask(s: Status, tasks: seq<Task>, k: nat)
    requires k < |tasks|
    ensures Contains(ListReply(s, tasks), ListLine(k, tasks[k]))
    ensures Contains(ListReply(s, tasks), tasks[k].title)
  {
    var r := ListReply(s, tasks);
    var line := ListLine(k, tasks[k]);
    assert Contains(r, line) by {
      var lines := ListLines(tasks);
      var joined := Join(lines, "\n");
      var header := "Here are your " + StatusWord(s) + ":\n";
      assert r == header + joined;
      JoinContainsParts(lines, "\n", k);
      assert r[|header|..|r|] == joined;
      ContainsWithin(r, |header|, |r|, line);
    }
    ListLineMentionsTitle(k, tasks[k]);
    ContainsTransitive(r, line, tasks[k].title);
  }

  function Min(a: nat, b: nat): nat {
    if a <= b then a else b
  }

  /** The candidate list of a disambiguation reply: the first five tasks at most, numbered
      from one in listing order. */
  function CandidateLines(tasks: seq<Task>): (r: seq<string>)
    ensures |r| == Min(5, |tasks|)
    ensures forall i :: 0 <= i < |r| ==> r[i] == NatToString(i + 1) + ". " + tasks[i].title
  {
    seq(Min(5, |tasks|), i requires 0 <= i < Min(5, |tasks|) => NatToString(i + 1) + ". " + tasks[i].title)
  }

  /** Each candidate line starts with its own position, counted from one. */
  lemma CandidateLinesAreNumbered(tasks: seq<Task>, i: nat)
    requires i < Min(5, |tasks|)
    ensures var line := CandidateLines(tasks)[i]; var n := NatToString(i + 1);
      && PrefixAt(line, 0, n)
      && AllDigits(n)
      && DigitsValue(n) == i + 1
  {
    var line := CandidateLines(tasks)[i];
    var n := NatToString(i + 1);
    assert line[0..|n|] == n;
    DigitsValueOfNatToString(i + 1);
  }

  /** A sentence that quotes `x` between `pre` and `post`. */
  function Quoted(pre: string, x: string, post: string): string {
    pre + x + post
  }

  function CompletedReply(title: string, byOrdinal: bool): (r: string)
    ensures Contains(r, title)
  {
    var post := "\" as completed. " + (if byOrdinal then "Great job!" else "Nice work!");
    QuotedIsContained("I've marked \"", title, post);
    Quoted("I've marked \"", title, post)
  }

  function DeletedReply(title: string): (r: string)
    ensures Contains(r, title)
  {
    QuotedIsContained("I've deleted \"", title, "\" from your task list.");
    Quoted("I've deleted \"", title, "\" from your task list.")
  }

  function UpdatedReply(title: string): (r: string)
    ensures Contains(r, title)
  {
    QuotedIsContained("I've updated the task to \"", title, "\".");
    Quoted("I've updated the task to \"", title, "\".")
  }

  function AddedReply(title: string): (r: string)
    ensures Contains(r, title)
  {
    var post := "\" to your task list. You can now see it in your task manager.";
    QuotedIsContained("Great! I've added \"", title, post);
    Quoted("Great! I've added \"", title, post)
  }

  function CompleteWhichReply(pending: seq<Task>): string {
    "I couldn't determine which task to complete. Here are your pending tasks:\n"
    + Join(CandidateLines(pending), "\n")
    + "\nPlease specify which one you want to mark as complete."
  }

  function DeleteWhichReply(tasks: seq<Task>): string {
    "I couldn't determine which task to delete. Here are your tasks:\n"
    + Join(CandidateLines(tasks), "\n")
    + "\nPlease specify which one you want to remove."
  }

  function UpdateWhichReply(tasks: seq<Task>): string {
    "I couldn't determine which task to update. Here are your tasks:\n"
    + Join(CandidateLines(tasks), "\n")
    + "\nTo update a task, say something like \"Update task 1 to 'new title'\" or "
    + "\"Change the grocery task to 'buy fruits and vegetables'\""
  }

  /** Which management request a turn serves. */
  datatype Request = CompleteReq | DeleteReq | UpdateReq

  /** What a turn answers, before it is put into words. */
  datatype Message =
    | UserIdRequired
    | ListFailed
    | Listing(status: Status, tasks: seq<Task>)
    | NothingTo(req: Request)
    | MarkedDone(title: string, byOrdinal: bool)
    | Deleted(title: string)
    | Updated(title: string)
    | Which(req: Request, candidates: seq<Task>)
    | AllCompleted
    | Added(title: string)
    | Help

  /** The exact text of a message. */
  function Render(m: Message): string {
    match m
    case UserIdRequired => MissingUserReply
    case ListFailed => ListFailedReply
    case Listing(status, tasks) => ListReply(status, tasks)
    case NothingTo(CompleteReq) => NothingToCompleteReply
    case NothingTo(DeleteReq) => NothingToDeleteReply
    case NothingTo(UpdateReq) => NothingToUpdateReply
    case MarkedDone(title, byOrdinal) => CompletedReply(title, byOrdinal)
    case Deleted(title) => DeletedReply(title)
    case Updated(title) => UpdatedReply(title)
    case Which(CompleteReq, candidates) => CompleteWhichReply(candidates)
    case Which(DeleteReq, candidates) => DeleteWhichReply(candidates)
    case Which(UpdateReq, candidates) => UpdateWhichReply(candidates)
    case AllCompleted => AllCompletedReply
    case Added(title) => AddedReply(title)
    case Help => HelpReply
  }

  /** A quoted sentence contains what it quotes. */
  lemma QuotedIsContained(pre: string, x: string, post: string)
    ensures Contains(Quoted(pre, x, post), x)
  {
    var s := Quoted(pre, x, post);
    assert s[|pre|..|pre| + |x|] == x;
    assert PrefixAt(s, |pre|, x);
    ContainsIff(s, x);
  }

  /** Every reply about one task quotes that task's title. */
  lemma RenderQuotesTitle(m: Message)
    requires m.MarkedDone? || m.Deleted? || m.Updated? || m.Added?
    ensures Contains(Render(m), m.title)
  {
  }
}
