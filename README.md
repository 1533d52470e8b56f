# Foundry agent chat: session and request driver

A Streamlit page (`app.py`) relays each chat prompt to an agent hosted in
Azure AI Foundry. Locally it keeps a session (a thread id that is created
lazily and a transcript of `(role, text)` turns) and drives one request per
prompt: make sure a thread exists, post the prompt, start a run, poll the
run while it is `queued` or `in_progress`, fail unless it ended `completed`,
then list the thread's messages newest first and flatten the first assistant
message's text parts into the reply.

This project models that driver in Dafny:

- `Text` (text.dfy): Python's `str.strip()` (with the whitespace set of
  `str.isspace` written out) and `"\n".join(...)`, with the facts the reply
  relies on: stripping leaves no whitespace at either end, is empty exactly on
  all-whitespace text, returns the core of any whitespace-padded text, and is
  idempotent; with a non-empty separator, joining is empty only for no
  parts or one empty part. As a
  partner for the join, splitting on newlines is defined, and the two undo
  each other: joining the pieces of a split gives back the text, and
  splitting a join of newline-free parts gives back the parts.
- `Reply` (reply.dfy): messages with a role and typed content parts; the
  choice of the first assistant message, the loop that keeps only `"text"`
  parts in order, and the final `join`/`strip`/sentinel step. The reply is
  never empty: it is `"(No reply content)"`, `"(Empty reply)"` or a non-empty
  stripped text, and messages other than the first assistant one are never
  consulted.
- `Polling` (polling.dfy): the poll loop over a finite sequence of observed
  run statuses, proved to stop at the first status that is neither `queued`
  nor `in_progress`, and the completion check whose failure message ends with
  that status.
- `Session` (session.dfy): a `ChatSession` class holding `threadId` and
  `history`, with `EnsureThread`, `AskAgent`, `SubmitPrompt` and `Reset`.
  A ghost counter, raised by each successful `threads.create` and cleared by
  reset, is stated by every operation and stays at most one: a thread is
  created only when no id is recorded, and a recorded id is never replaced.
  The service's answers are one `Remote` value per request (the new thread
  id or a raised call, the run's observed statuses, the message page);
  `Exchange` is the pure account of one request against them. A client
  method, `TwoPrompts`, checks that two prompts on one new session share a
  single thread and, when both are answered, leave the four turns in call
  order.

The reply equals `"(Empty reply)"` whenever the joined text is all
whitespace, but the converse does not hold in general: an agent whose own
stripped text is literally `(Empty reply)` produces the same string. The
contracts therefore state the two cases separately (`Reply.FinishReply`).

## Model

| member | source | states |
|---|---|---|
| `Text.Strip` | app.py:94 | the stripped text has no whitespace at either end, is no longer than the input, and is empty exactly when the input is all whitespace |
| `Text.StripUnique` | app.py:94 | stripping whitespace-padded text whose core has non-whitespace ends returns that core, whatever the padding |
| `Text.StripIdempotent` | app.py:94 | stripping an already stripped text changes nothing |
| `Text.Join` | app.py:94 | the joined text starts with the first part |
| `Text.JoinSnoc` | app.py:90-94 | appending one more part to a non-empty list adds the separator and that part at the end of the join |
| `Text.JoinEmpty` | app.py:94 | with a non-empty separator the join is empty exactly for no parts or a single empty part |
| `Text.JoinSplitLines` | app.py:94 | joining the newline-split pieces of any text with newlines gives back that text |
| `Text.SplitLinesJoin` | app.py:94 | splitting on newlines the newline join of a non-empty list of newline-free parts gives back exactly those parts |
| `Reply.FirstAssistant` | app.py:84 | finds the position of the first message whose role is assistant, with every earlier message not the assistant's; nothing exactly when no message is the assistant's |
| `Reply.FirstAssistantSkips` | app.py:84 | prefixing non-assistant messages shifts the found position by the prefix length and does not change whether one is found |
| `Reply.TextValues` | app.py:90-93 | at most one value per part; every part typed "text" contributes its value and every value comes from such a part |
| `Reply.TextValuesAppend` | app.py:90-93 | extraction distributes over concatenation of part lists, so order is kept |
| `Reply.TextValuesIgnoresOtherParts` | app.py:91-92 | inserting a part whose type is not "text" anywhere leaves the extracted values unchanged |
| `Reply.CollectTextParts` | app.py:90-93 | the append loop produces exactly the text values of the content, in order |
| `Reply.FinishReply` | app.py:94 | never empty; "(Empty reply)" when the newline-joined text is all whitespace, otherwise that text stripped |
| `Reply.FinishKeepsStrippedText` | app.py:94 | a non-empty joined text with no whitespace at its ends is returned unchanged |
| `Reply.ReplyOf` | app.py:86-94 | for the found assistant message: never empty; "(No reply content)" when it has no parts, otherwise the finished text of its text parts |
| `Reply.ExtractReply` | app.py:83-94 | never empty; one of the two sentinels or a stripped text; "(No reply content)" when no assistant message exists; otherwise the reply of the first assistant message |
| `Reply.ReplySkipsNonAssistant` | app.py:83-87 | messages before the first assistant message do not change the reply |
| `Reply.ReplyIgnoresLater` | app.py:84-87 | once an assistant message leads the list, later messages (older assistant ones included) are not consulted |
| `Reply.TwoTextPartsReply` | app.py:83-94 | an assistant message with text parts "A" and "B" yields exactly "A\nB", whatever older messages follow |
| `Polling.Settle` | app.py:73-77 | the first observed status that is neither queued nor in_progress, with the number of runs.get calls before it and every earlier status transient; unsettled exactly when every observed status is transient |
| `Polling.SettleAt` | app.py:73 | a non-transient status at position k preceded only by transient ones is the settled status, reached after k calls |
| `Polling.PollRun` | app.py:73-77 | the poll loop ends with the settled status and call count, or unsettled when the observations run out |
| `Polling.CompletionCheck` | app.py:79-80 | fails exactly when the status is not completed, with a message ending in that status |
| `Polling.SettledRunFails` | app.py:73-80 | a settled run fails the request exactly when its status is none of completed, queued, in_progress |
| `Session.Exchange` | app.py:55-94 | a reply is returned exactly when the thread exists or is created, the post succeeds, the run starts, settles as completed and the messages are listed, and it is then the reply extracted from that page, never empty; the run-failure outcome arises exactly when the settled status is not completed, and its message is "Run ended with status: " followed by that status; a remote-call failure exactly when one of the calls raised; still polling exactly when the observations end transient and the next poll does not raise |
| `Session.QueuedThenCompletedReply` | app.py:55-94 | a request on a new session whose run goes queued, in_progress, completed and whose newest message is the assistant's with text parts "A" and "B" returns "A\nB" |
| `Session.FailedRunReported` | app.py:79-80 | a run that settles with any status other than completed yields the failure "Run ended with status: " followed by that status |
| `Session.ChatSession.constructor` | app.py:41-45 | a new session has no thread id and an empty history |
| `Session.ChatSession.EnsureThread` | app.py:48-53 | a recorded thread id is kept and no thread is created; otherwise the id from the creation call is recorded and the creation count rises by one exactly when that call succeeded; succeeds exactly when a thread id is then recorded; history unchanged; at most one creation between resets |
| `Session.ChatSession.AskAgent` | app.py:55-94 | the outcome is `Exchange` of whether a thread existed and the service's answers; only the thread id can change, and only from none to the created id, counting one creation |
| `Session.ChatSession.SubmitPrompt` | app.py:104-124 | an empty prompt changes nothing; otherwise history gains the user turn and then the assistant turn only if a reply was returned; on failure only the user turn is added |
| `Session.ChatSession.Reset` | app.py:130-132 | thread id and history are cleared together |

## Left out

- Rendering with Streamlit (chat messages, markdown, status box, spinner, sidebar, `st.rerun`): user interface with no effect on the modelled state.
- The Azure SDK and credentials: `threads.create`, `messages.create`, `runs.create`, `runs.get` and `messages.list` are replaced by the values they return or by the fact that they raised, supplied in `Session.Remote`.
- The prompt text itself is only sent to the service by `messages.create`; since the service is not modelled, `AskAgent` does not take it.
- `time.sleep(0.8)` between polls: timing only.
- Configuration loading from the environment, dotenv and Streamlit secrets, and the `st.stop()` on missing settings: I/O and process control.
- The three `except` branches differ only in the message shown; all are one failed turn (`RemoteCallFailed`, or `RunFailed` for the run-status error).
- Polling has no timeout in the source, so no termination is claimed: when the observed statuses end while the run is still transient (and the next `runs.get` does not raise) the outcome is `StillPolling`, standing for a request that has not returned.
- Session.ChatSession.EnsureThread: that a thread created after a reset has an id distinct from earlier ones depends on the service handing out fresh ids, so it is not stated.
- A `"text"` part without a text value (an attribute error in Python) is not modelled; every part carries a text field, ignored for other types.
- `st.chat_input` returning `None` when nothing was entered is modelled as the empty prompt, which is equally falsy.
