/** The chat route's intent classifier: a fixed, first-match-wins sequence of substring tests
    on the lower-cased, trimmed message. The tests look for substrings, not words, so "call"
    counts as mentioning "all". */
module Intents {
  import opened Text

  /** The `status` a list request asks for. */
  datatype Status = All | Pending | Completed

  /** What the interpreter decides to do with a message. `Other` covers both creating a task
      and the help text: which one it is depends on the message's cleaned text. */
  datatype Intent =
    | ListRequest(status: Status)
    | CompleteRequest
    | DeleteRequest
    | UpdateRequest
    | Other

  const ListWords: seq<string> := ["list", "show", "what", "all"]
  const PendingWords: seq<string> := ["pending", "not done", "incomplete", "todo", "to do"]
  const CompletedWords: seq<string> := ["done", "completed", "finished"]
  const CompleteWords: seq<string> := ["complete", "finish", "done", "mark as done", "check off"]
  const DeleteWords: seq<string> := ["delete", "remove", "cancel", "get rid of"]
  const UpdateWords: seq<string> := ["update", "change", "modify", "edit"]

  /** The list test: one of the list words, or both "my " and "task". */
  predicate AsksForList(lowerMsg: string) {
    ContainsAny(lowerMsg, ListWords) || (Contains(lowerMsg, "my ") && Contains(lowerMsg, "task"))
  }

  /** The status a list request asks for: the pending words win over the completed words. */
  function StatusOf(lowerMsg: string): (s: Status)
    ensures s == Pending <==> ContainsAny(lowerMsg, PendingWords)
    ensures s == Completed <==> !ContainsAny(lowerMsg, PendingWords) && ContainsAny(lowerMsg, CompletedWords)
    ensures s == All <==> !ContainsAny(lowerMsg, PendingWords) && !ContainsAny(lowerMsg, CompletedWords)
  {
    if ContainsAny(lowerMsg, PendingWords) then Pending
    else if ContainsAny(lowerMsg, CompletedWords) then Completed
    else All
  }

  /** The intent of a message, given as its lower-cased, trimmed text. */
  function Classify(lowerMsg: string): (i: Intent)
    ensures i.ListRequest? ==> i.status == StatusOf(lowerMsg)
  {
    if AsksForList(lowerMsg) then ListRequest(StatusOf(lowerMsg))
    else if ContainsAny(lowerMsg, CompleteWords) then CompleteRequest
    else if ContainsAny(lowerMsg, DeleteWords) then DeleteRequest
    else if ContainsAny(lowerMsg, UpdateWords) then UpdateRequest
    else Other
  }

  /** The tests run in a fixed order and the first that succeeds decides: each intent is
      chosen exactly when its own test succeeds and every earlier test failed. */
  lemma ClassifyIsFirstMatch(lowerMsg: string)
    ensures Classify(lowerMsg).ListRequest? <==> AsksForList(lowerMsg)
    ensures Classify(lowerMsg) == CompleteRequest <==>
      !AsksForList(lowerMsg) && ContainsAny(lowerMsg, CompleteWords)
    ensures Classify(lowerMsg) == DeleteRequest <==>
      && !AsksForList(lowerMsg)
      && !ContainsAny(lowerMsg, CompleteWords)
      && ContainsAny(lowerMsg, DeleteWords)
    ensures Classify(lowerMsg) == UpdateRequest <==>
      && !AsksForList(lowerMsg)
      && !ContainsAny(lowerMsg, CompleteWords)
      && !ContainsAny(lowerMsg, DeleteWords)
      && ContainsAny(lowerMsg, UpdateWords)
    ensures Classify(lowerMsg) == Other <==>
      && !AsksForList(lowerMsg)
      && !ContainsAny(lowerMsg, CompleteWords)
      && !ContainsAny(lowerMsg, DeleteWords)
      && !ContainsAny(lowerMsg, UpdateWords)
  {
  }

  /** A message that mentions any management word is never handed to task creation. */
  lemma ManagementWordsNeverCreate(lowerMsg: string)
    requires AsksForList(lowerMsg) || ContainsAny(lowerMsg, CompleteWords)
             || ContainsAny(lowerMsg, DeleteWords) || ContainsAny(lowerMsg, UpdateWords)
    ensures Classify(lowerMsg) != Other
  {
  }

  /** Any message with "all" inside a word, such as "call mom", "install the app" or
      "small fix", is a list request, whatever else it says. */
  lemma AllInsideAWordIsAListRequest(a: string, b: string)
    ensures Classify(a + "all" + b).ListRequest?
  {
    var s := a + "all" + b;
    assert PrefixAt(s, |a|, "all") by {
      assert s[|a|..|a| + 3] == "all";
    }
    ContainsIff(s, "all");
    assert ListWords[3] == "all";
  }

  /** "call mom" asks for the task list. */
  lemma CallMomIsAListRequest()
    ensures Classify("call mom").ListRequest?
  {
    AllInsideAWordIsAListRequest("c", " mom");
    assert "c" + "all" + " mom" == "call mom";
  }

  /** "not done" makes a list request ask for pending tasks although it contains "done". */
  lemma NotDoneAsksForPending(a: string, b: string)
    ensures StatusOf(a + "not done" + b) == Pending
    ensures Contains(a + "not done" + b, "done")
  {
    var s := a + "not done" + b;
    assert PrefixAt(s, |a|, "not done") by {
      assert s[|a|..|a| + 8] == "not done";
    }
    ContainsIff(s, "not done");
    assert PendingWords[1] == "not done";
    assert PrefixAt(s, |a| + 4, "done") by {
      assert s[|a| + 4..|a| + 8] == "done";
    }
    ContainsIff(s, "done");
  }
}
