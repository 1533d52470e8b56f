/** The chat session and the request driver: the lazily created thread id,
    the transcript of turns, one request to the agent per prompt, and reset.
    Every call into the remote agent service is replaced by the value that
    call returns (or the fact that it raised), gathered in `Remote`. */
module Session {
  import opened Wrappers
  import opened Text
  import opened Reply
  import opened Polling

  const USER := "user"

  /** What the remote service answers during one request. */
  datatype Remote = Remote(
    newThread: Option<string>,   // id from `threads.create`; None: the call raised
    postOk: bool,                // `messages.create` returned normally
    runStart: Option<string>,    // status from `runs.create`; None: the call raised
    polls: seq<string>,          // statuses returned by successive `runs.get` calls
    nextGetRaises: bool,         // the `runs.get` call after the last of `polls` raises
    page: Option<seq<Message>>)  // newest-first `messages.list`; None: the call raised

  /** Why a request failed. Every exception is one failed turn; only a run
      that did not complete carries its own message. */
  datatype Failure = RemoteCallFailed | RunFailed(message: string)

  /** The end of one request: a reply, a failure, or (when the statuses
      observed run out while the run is still queued or in progress, and the
      next `runs.get` does not raise) a request that is still polling. */
  datatype AskOutcome = Replied(reply: string) | Failed(why: Failure) | StillPolling

  /** What one request produces, given whether the session already had a
      thread and what the service answers. */
  function Exchange(hasThread: bool, remote: Remote): (o: AskOutcome)
    ensures o.Replied? ==> o.reply != ""
    ensures o.Replied? ==> o.reply == NO_REPLY || o.reply == EMPTY_REPLY || IsStripped(o.reply)
    ensures !hasThread && remote.newThread.None? ==> o == Failed(RemoteCallFailed)
    ensures o.StillPolling? <==>
              && (hasThread || remote.newThread.Some?) && remote.postOk && remote.runStart.Some?
              && Settle(remote.runStart.value, remote.polls).Unsettled? && !remote.nextGetRaises
    ensures o.Failed? && o.why.RunFailed? <==>
              && (hasThread || remote.newThread.Some?) && remote.postOk && remote.runStart.Some?
              && Settle(remote.runStart.value, remote.polls).Settled?
              && Settle(remote.runStart.value, remote.polls).status != COMPLETED
    ensures o.Failed? && o.why.RunFailed? ==>
              o.why.message == RUN_FAILED_PREFIX + Settle(remote.runStart.value, remote.polls).status
    ensures o.Replied? <==>
              && (hasThread || remote.newThread.Some?) && remote.postOk && remote.runStart.Some?
              && Settle(remote.runStart.value, remote.polls).Settled?
              && Settle(remote.runStart.value, remote.polls).status == COMPLETED
              && remote.page.Some?
    ensures o.Replied? ==> o.reply == ExtractReply(remote.page.value)
    ensures o == Failed(RemoteCallFailed) <==>
              || (!hasThread && remote.newThread.None?) || !remote.postOk || remote.runStart.None?
              || (Settle(remote.runStart.value, remote.polls).Unsettled? && remote.nextGetRaises)
              || (&& Settle(remote.runStart.value, remote.polls).Settled?
                  && Settle(remote.runStart.value, remote.polls).status == COMPLETED
                  && remote.page.None?)
  {
    if !hasThread && remote.newThread.None? then Failed(RemoteCallFailed)
    else if !remote.postOk then Failed(RemoteCallFailed)
    else if remote.runStart.None? then Failed(RemoteCallFailed)
    else
      match Settle(remote.runStart.value, remote.polls)
      case Unsettled => if remote.nextGetRaises then Failed(RemoteCallFailed) else StillPolling
      case Settled(status, _) =>
        match CompletionCheck(status)
        case Some(message) => Failed(RunFailed(message))
        case None =>
          if remote.page.None? then Failed(RemoteCallFailed)
          else Replied(ExtractReply(remote.page.value))
  }

  /** A run that settles with any status other than "completed" ("failed",
      "cancelled", "expired", ...) fails the request with the message
      "Run ended with status: " followed by that status. */
  lemma FailedRunReported(hasThread: bool, remote: Remote)
    requires hasThread || remote.newThread.Some?
    requires remote.postOk && remote.runStart.Some?
    requires Settle(remote.runStart.value, remote.polls).Settled?
    requires Settle(remote.runStart.value, remote.polls).status != COMPLETED
    ensures Exchange(hasThread, remote) ==
            Failed(RunFailed("Run ended with status: " + Settle(remote.runStart.value, remote.polls).status))
  {
  }

  /** A whole request on a new session: the run is queued, then in progress,
      then completed, and the newest message is the assistant's with text parts
      "A" and "B"; the reply is "A\nB". */
  lemma QueuedThenCompletedReply(id: string)
    ensures Exchange(false, Remote(Some(id), true, Some(QUEUED), [IN_PROGRESS, COMPLETED], false,
                                   Some([Message(ASSISTANT, [Part(TEXT, "A"), Part(TEXT, "B")])])))
            == Replied("A\nB")
  {
    SettleAt(QUEUED, [IN_PROGRESS, COMPLETED], 2);
    TwoTextPartsReply([]);
    assert [Message(ASSISTANT, [Part(TEXT, "A"), Part(TEXT, "B")])] + [] ==
           [Message(ASSISTANT, [Part(TEXT, "A"), Part(TEXT, "B")])];
  }

  /** The state one browser session keeps. */
  class ChatSession {
    var threadId: Option<string>
    var history: seq<(string, string)>
    /** Threads created since the session started or was last reset. Each
        operation below states how it changes this count. */
    ghost var created: nat

    /** At most one thread has been created since the last reset, and it is
        the one recorded. */
    ghost predicate Valid()
      reads this
    {
      created == (if threadId.Some? then 1 else 0)
    }

    /** A new session has no thread and an empty transcript. */
    constructor ()
      ensures Valid() && threadId == None && history == []
    {
      threadId := None;
      history := [];
      created := 0;
    }

    /** `ensure_thread`: create a thread only if none is recorded yet.
        `newThread` is what `threads.create` would return; `ok` is false when
        that call raised. */
    method EnsureThread(newThread: Option<string>) returns (ok: bool)
      requires Valid()
      modifies this
      ensures Valid() && history == old(history)
      ensures old(threadId).Some? ==> threadId == old(threadId) && created == old(created)
      ensures old(threadId).None? ==> threadId == newThread
      ensures created == old(created) + (if old(threadId).None? && newThread.Some? then 1 else 0)
      ensures ok <==> threadId.Some?
    {
      if threadId.None? {
        match newThread
        case None =>
          ok := false;
          return;
        case Some(id) =>
          threadId := Some(id);
          created := created + 1;
      }
      ok := true;
    }

    /** `ask_agent`: ensure the thread, post the prompt, start a run, poll it
        and extract the reply. Only the thread id can change. */
    method AskAgent(remote: Remote) returns (outcome: AskOutcome)
      requires Valid()
      modifies this
      ensures Valid() && history == old(history)
      ensures threadId == (if old(threadId).Some? then old(threadId) else remote.newThread)
      ensures created == old(created) + (if old(threadId).None? && remote.newThread.Some? then 1 else 0)
      ensures outcome == Exchange(old(threadId).Some?, remote)
    {
      var ok := EnsureThread(remote.newThread);
      if !ok || !remote.postOk || remote.runStart.None? {
        return Failed(RemoteCallFailed);
      }
      var polled := PollRun(remote.runStart.value, remote.polls);
      if polled.Unsettled? {
        return if remote.nextGetRaises then Failed(RemoteCallFailed) else StillPolling;
      }
      var check := CompletionCheck(polled.status);
      if check.Some? {
        return Failed(RunFailed(check.value));
      }
      if remote.page.None? {
        return Failed(RemoteCallFailed);
      }
      var page := remote.page.value;
      var found := FirstAssistant(page);
      if found.None? || page[found.value].content == [] {
        return Replied(NO_REPLY);
      }
      var parts := CollectTextParts(page[found.value].content);
      var joined := Join(parts, "\n");
      var stripped := Strip(joined);
      outcome := Replied(if stripped == "" then EMPTY_REPLY else stripped);
    }

    /** One submitted prompt: record the user's turn, ask the agent, and
        record the reply only if the request returned one. A failure is shown
        and swallowed, leaving the user's turn alone in the transcript. An
        empty prompt does nothing. */
    method SubmitPrompt(prompt: string, remote: Remote) returns (outcome: Option<AskOutcome>)
      requires Valid()
      modifies this
      ensures Valid()
      ensures prompt == "" ==> outcome == None && threadId == old(threadId) && history == old(history)
      ensures prompt != "" ==> outcome == Some(Exchange(old(threadId).Some?, remote))
      ensures prompt != "" ==>
                threadId == (if old(threadId).Some? then old(threadId) else remote.newThread)
      ensures created == old(created) +
                (if prompt != "" && old(threadId).None? && remote.newThread.Some? then 1 else 0)
      ensures prompt != "" ==>
                history == old(history) + [(USER, prompt)] +
                           (if outcome.value.Replied? then [(ASSISTANT, outcome.value.reply)] else [])
    {
      if prompt == "" {
        return None;
      }
      history := history + [(USER, prompt)];
      var asked := AskAgent(remote);
      if asked.Replied? {
        history := history + [(ASSISTANT, asked.reply)];
      }
      outcome := Some(asked);
    }

    /** The reset button: forget the thread and the transcript together. */
    method Reset()
      modifies this
      ensures Valid() && threadId == None && history == []
    {
      threadId := None;
      history := [];
      created := 0;
    }
  }

  /** Two prompts in a row on one session share one thread, and leave four
      turns in call order when both requests return a reply. */
  method TwoPrompts(s: ChatSession, first: string, second: string, r1: Remote, r2: Remote)
    requires s.Valid() && s.threadId == None && s.history == []
    requires first != "" && second != "" && r1.newThread.Some?
    modifies s
  {
    var o1 := s.SubmitPrompt(first, r1);
    ghost var h1 := s.history;
    assert s.threadId == r1.newThread && s.created == 1;
    var o2 := s.SubmitPrompt(second, r2);
    assert s.threadId == r1.newThread && s.created == 1;
    if o1.value.Replied? && o2.value.Replied? {
      assert h1 == [(USER, first), (ASSISTANT, o1.value.reply)];
      assert s.history == h1 + [(USER, second), (ASSISTANT, o2.value.reply)];
    }
  }
}
