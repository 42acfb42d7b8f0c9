/** The chat routes (backend/routes/chat.js): one chat turn, which assembles
    the message list for the completion endpoint from the active prompt and a
    window of recent history, records the user turn, calls the endpoint and
    records the reply; and the history read. */
module Chat {
  import opened Seqs
  import opened Http
  import opened Schema

  /** Stored messages sent along with each new one (`LIMIT 10`). */
  const HistoryWindow: nat := 10

  /** History rows returned when the `limit` query parameter parses to NaN or 0. */
  const DefaultHistoryLimit: int := 50

  /** The fixed model identifier sent with every completion request. */
  const Model: string := "meta-llama/llama-3-8b-instruct"

  /** One `{role, content}` element of the completion request. */
  datatype Entry = Entry(role: Role, content: string)

  datatype CompletionRequest = CompletionRequest(model: string, messages: seq<Entry>)

  /** The observable effects of a chat turn, in the order they happen: a row
      written to chat_messages, or the request sent to the completion endpoint. */
  datatype Step = WroteUser(id: int) | Called(request: CompletionRequest) | WroteAssistant(id: int)

  function EntryOf(m: ChatMessage): Entry
  {
    Entry(m.role, m.content)
  }

  /** The project has at least one prompt row. */
  predicate HasPrompt(prompts: seq<Prompt>, projectId: int)
  {
    |PromptsOf(prompts, projectId)| > 0
  }

  lemma HasPromptMembers(prompts: seq<Prompt>, projectId: int)
    ensures HasPrompt(prompts, projectId) <==> exists p :: p in prompts && p.projectId == projectId
  {
    var own := PromptsOf(prompts, projectId);
    PromptsOfMembers(prompts, projectId);
    if |own| > 0 {
      assert own[0] in own;
    }
  }

  /** The active prompt of a project: the one created last. There is no
      explicit flag; recency alone selects it. */
  function ActivePrompt(prompts: seq<Prompt>, projectId: int): (r: Option<Prompt>)
    ensures r.Some? <==> HasPrompt(prompts, projectId)
    ensures r.Some? ==> r.value.projectId == projectId
  {
    var own := PromptsOf(prompts, projectId);
    if |own| == 0 then None else Some(Last(own))
  }

  /** The active prompt is a stored prompt of the project, and with ids
      ascending in insertion order no prompt of the project has a larger id. */
  lemma ActivePromptIsNewest(prompts: seq<Prompt>, projectId: int)
    requires HasPrompt(prompts, projectId)
    ensures ActivePrompt(prompts, projectId).value in prompts
    ensures Increasing(prompts, PromptKey) ==>
      forall p :: p in prompts && p.projectId == projectId ==> p.id <= ActivePrompt(prompts, projectId).value.id
  {
    var own := PromptsOf(prompts, projectId);
    PromptsOfMembers(prompts, projectId);
    assert Last(own) in own;
    NewestHasLargestKey(prompts, PromptInProject(projectId), PromptKey);
  }

  /** In a table with ascending keys, the last row that passes a filter has
      the largest key among those rows. */
  lemma NewestHasLargestKey<T>(s: seq<T>, keep: T -> bool, key: T -> int)
    requires |Filter(s, keep)| > 0
    ensures Increasing(s, key) ==>
      forall x :: x in s && keep(x) ==> key(x) <= key(Last(Filter(s, keep)))
  {
    var f := Filter(s, keep);
    FilterMembers(s, keep);
    if Increasing(s, key) {
      FilterIncreasing(s, keep, key);
      forall x | x in s && keep(x) ensures key(x) <= key(Last(f)) {
        var i :| 0 <= i < |s| && s[i] == x;
        assert x in f;
        var k :| 0 <= k < |f| && f[k] == x;
      }
    }
  }

  /** `SELECT content FROM prompts WHERE project_id = ? ORDER BY created_at DESC LIMIT 1`. */
  function LatestPromptRows(prompts: seq<Prompt>, projectId: int): (r: seq<string>)
  {
    var rows := Take(Reversed(PromptsOf(prompts, projectId)), 1);
    seq(|rows|, i requires 0 <= i < |rows| => rows[i].content)
  }

  /** `SELECT role, content FROM chat_messages WHERE project_id = ? ORDER BY created_at DESC LIMIT 10`. */
  function RecentHistoryRows(messages: seq<ChatMessage>, projectId: int): (r: seq<Entry>)
  {
    Map(Take(Reversed(MessagesOf(messages, projectId)), HistoryWindow), EntryOf)
  }

  function SystemEntries(promptRows: seq<string>): (r: seq<Entry>)
  {
    if |promptRows| > 0 then [Entry(System, promptRows[0])] else []
  }

  /** The message list a chat turn sends, stated on the tables directly: the
      active prompt as a `system` entry when there is one, then the
      `HistoryWindow` newest messages of the project oldest first, then the new
      text as a `user` entry. */
  function Assembly(prompts: seq<Prompt>, messages: seq<ChatMessage>, projectId: int, text: string): (r: seq<Entry>)
  {
    SystemPart(prompts, projectId) + Map(Newest(MessagesOf(messages, projectId), HistoryWindow), EntryOf) + [Entry(User, text)]
  }

  /** The `system` entry of the active prompt, when the project has one. */
  function SystemPart(prompts: seq<Prompt>, projectId: int): (r: seq<Entry>)
    ensures |r| == if HasPrompt(prompts, projectId) then 1 else 0
    ensures HasPrompt(prompts, projectId) ==> r == [Entry(System, ActivePrompt(prompts, projectId).value.content)]
  {
    match ActivePrompt(prompts, projectId)
    case None => []
    case Some(p) => [Entry(System, p.content)]
  }

  /** How many entries precede the history: one when there is a prompt. */
  function PromptOffset(prompts: seq<Prompt>, projectId: int): nat
  {
    |SystemPart(prompts, projectId)|
  }

  /** Length of the assembly and what stands at its ends. */
  lemma AssemblyShape(prompts: seq<Prompt>, messages: seq<ChatMessage>, projectId: int, text: string)
    ensures var r := Assembly(prompts, messages, projectId, text);
      && |r| == PromptOffset(prompts, projectId) + Min(|MessagesOf(messages, projectId)|, HistoryWindow) + 1
      && r[|r| - 1] == Entry(User, text)
      && (HasPrompt(prompts, projectId) ==> r[0] == Entry(System, ActivePrompt(prompts, projectId).value.content))
  {
  }

  /** The assembly holds a `system` entry exactly when the project has a
      prompt, and then only as its first element. */
  lemma AssemblySystemEntry(prompts: seq<Prompt>, messages: seq<ChatMessage>, projectId: int, text: string)
    requires NoSystemRows(messages)
    ensures var r := Assembly(prompts, messages, projectId, text);
      && (r[0].role == System <==> HasPrompt(prompts, projectId))
      && (forall k :: 0 < k < |r| ==> r[k].role != System)
  {
    WindowNoSystem(messages, projectId);
    OnlyHeadIsSystem(SystemPart(prompts, projectId), Map(Newest(MessagesOf(messages, projectId), HistoryWindow), EntryOf),
                     Entry(User, text));
  }

  /** The history window drawn from a table without `system` rows holds no `system` entry. */
  lemma WindowNoSystem(messages: seq<ChatMessage>, projectId: int)
    requires NoSystemRows(messages)
    ensures var mid := Map(Newest(MessagesOf(messages, projectId), HistoryWindow), EntryOf);
      forall i :: 0 <= i < |mid| ==> mid[i].role != System
  {
    var own := MessagesOf(messages, projectId);
    var window := Newest(own, HistoryWindow);
    var mid := Map(window, EntryOf);
    OwnNoSystemRows(messages, projectId);
    forall i | 0 <= i < |mid| ensures mid[i].role != System {
      assert mid[i] == EntryOf(window[i]);
      assert window[i] == own[|own| - |window| + i];
    }
  }

  /** In `head + mid + [last]` with at most one head entry and no `system`
      entry elsewhere, only the head can be a `system` entry. */
  lemma OnlyHeadIsSystem(head: seq<Entry>, mid: seq<Entry>, last: Entry)
    requires |head| <= 1
    requires forall i :: 0 <= i < |mid| ==> mid[i].role != System
    requires last.role != System
    ensures var r := head + mid + [last];
      && (|head| == 1 ==> r[0] == head[0])
      && (|head| == 0 ==> r[0].role != System)
      && (forall k :: 0 < k < |r| ==> r[k].role != System)
  {
    var r := head + mid + [last];
    forall k | 0 <= k < |r| && (k > 0 || |head| == 0) ensures r[k].role != System {
      if k < |head| + |mid| {
        assert r[k] == mid[k - |head|];
      }
    }
  }

  /** A project's selection of a table without `system` rows has none either. */
  lemma OwnNoSystemRows(messages: seq<ChatMessage>, projectId: int)
    requires NoSystemRows(messages)
    ensures NoSystemRows(MessagesOf(messages, projectId))
  {
    var own := MessagesOf(messages, projectId);
    MessagesOfMembers(messages, projectId);
    forall i | 0 <= i < |own| ensures own[i].role != System {
      assert own[i] in own;
      var j :| 0 <= j < |messages| && messages[j] == own[i];
    }
  }

  /** The history part of the assembly: the newest stored messages of the
      project, at most `HistoryWindow` of them and oldest first, with their
      stored role and content. */
  lemma AssemblyWindow(prompts: seq<Prompt>, messages: seq<ChatMessage>, projectId: int, text: string)
    ensures var r := Assembly(prompts, messages, projectId, text);
      var window := Newest(MessagesOf(messages, projectId), HistoryWindow);
      var off := PromptOffset(prompts, projectId);
      && |r| == off + |window| + 1
      && forall j :: off <= j < off + |window| ==> r[j] == EntryOf(window[j - off])
  {
  }

  /** The two queries of the route, assembled as the route does, give exactly
      the assembly: reading the history newest first with LIMIT and reversing
      it is the same as taking the newest window in ascending order. */
  lemma QueriesAssemble(prompts: seq<Prompt>, messages: seq<ChatMessage>, projectId: int, text: string)
    ensures SystemEntries(LatestPromptRows(prompts, projectId))
      + Reversed(RecentHistoryRows(messages, projectId))
      + [Entry(User, text)]
      == Assembly(prompts, messages, projectId, text)
  {
    var own := MessagesOf(messages, projectId);
    ReversedTakeReversed(own, HistoryWindow);
    var desc := Take(Reversed(own), HistoryWindow);
    MapReversed(desc, EntryOf);
    var pp := PromptsOf(prompts, projectId);
    if |pp| > 0 {
      assert Take(Reversed(pp), 1) == [Last(pp)];
    }
  }

  /** The rows one chat turn appends: the user row, and the assistant row
      only when the completion produced a reply. */
  function TurnRows(firstId: int, projectId: int, userId: int, text: string, reply: Option<string>): (r: seq<ChatMessage>)
  {
    [ChatMessage(firstId, projectId, userId, User, text)]
    + (if reply.Some? then [ChatMessage(firstId + 1, projectId, userId, Assistant, reply.value)] else [])
  }

  /** The turn's rows become the newest messages of the project, user row
      first, and the rows of every other project are untouched. */
  lemma TurnExtendsHistory(messages: seq<ChatMessage>, firstId: int, projectId: int, userId: int, text: string, reply: Option<string>)
    ensures MessagesOf(messages + TurnRows(firstId, projectId, userId, text, reply), projectId)
      == MessagesOf(messages, projectId) + TurnRows(firstId, projectId, userId, text, reply)
    ensures forall other :: other != projectId ==>
      MessagesOf(messages + TurnRows(firstId, projectId, userId, text, reply), other) == MessagesOf(messages, other)
  {
    var rows := TurnRows(firstId, projectId, userId, text, reply);
    FilterAppend(messages, rows, MessageInProject(projectId));
    assert forall i :: 0 <= i < |rows| ==> MessageInProject(projectId)(rows[i]);
    FilterAll(rows, MessageInProject(projectId));
    forall other | other != projectId
      ensures MessagesOf(messages + rows, other) == MessagesOf(messages, other)
    {
      TurnLeavesOther(messages, firstId, projectId, userId, text, reply, other);
    }
  }

  /** A turn of one project leaves the history of every other project as it was. */
  lemma TurnLeavesOther(messages: seq<ChatMessage>, firstId: int, projectId: int, userId: int, text: string,
                        reply: Option<string>, other: int)
    requires other != projectId
    ensures MessagesOf(messages + TurnRows(firstId, projectId, userId, text, reply), other) == MessagesOf(messages, other)
  {
    var rows := TurnRows(firstId, projectId, userId, text, reply);
    FilterAppend(messages, rows, MessageInProject(other));
    assert forall i :: 0 <= i < |rows| ==> !MessageInProject(other)(rows[i]);
    FilterNone(rows, MessageInProject(other));
  }

  /** After a failed completion the orphan user row is the newest history
      entry of the next assembly, just before that turn's own text; the
      window keeps one row fewer of the older history. */
  lemma OrphanInNextAssembly(prompts: seq<Prompt>, messages: seq<ChatMessage>, firstId: int, projectId: int, userId: int,
                             text: string, next: string)
    ensures Assembly(prompts, messages + TurnRows(firstId, projectId, userId, text, None), projectId, next)
      == SystemPart(prompts, projectId)
         + Map(Newest(MessagesOf(messages, projectId), HistoryWindow - 1), EntryOf)
         + [Entry(User, text), Entry(User, next)]
  {
    var own := MessagesOf(messages, projectId);
    var rows := TurnRows(firstId, projectId, userId, text, None);
    TurnExtendsHistory(messages, firstId, projectId, userId, text, None);
    WindowAppend(SystemPart(prompts, projectId), own, rows, HistoryWindow, EntryOf, [Entry(User, next)],
                 [Entry(User, text), Entry(User, next)]);
  }

  /** After a successful turn the next assembly ends its history with the
      user row and then the assistant row, before that turn's own text. */
  lemma ReplyInNextAssembly(prompts: seq<Prompt>, messages: seq<ChatMessage>, firstId: int, projectId: int, userId: int,
                            text: string, reply: string, next: string)
    ensures Assembly(prompts, messages + TurnRows(firstId, projectId, userId, text, Some(reply)), projectId, next)
      == SystemPart(prompts, projectId)
         + Map(Newest(MessagesOf(messages, projectId), HistoryWindow - 2), EntryOf)
         + [Entry(User, text), Entry(Assistant, reply), Entry(User, next)]
  {
    var own := MessagesOf(messages, projectId);
    var rows := TurnRows(firstId, projectId, userId, text, Some(reply));
    TurnExtendsHistory(messages, firstId, projectId, userId, text, Some(reply));
    WindowAppend(SystemPart(prompts, projectId), own, rows, HistoryWindow, EntryOf, [Entry(User, next)],
                 [Entry(User, text), Entry(Assistant, reply), Entry(User, next)]);
  }

  /** `history.reverse()`: reverses the rows of the query result in place. */
  method ReverseInPlace<T>(a: array<T>)
    modifies a
    ensures a[..] == Reversed(old(a[..]))
  {
    var lo, hi := 0, a.Length - 1;
    while lo < hi
      invariant 0 <= lo <= a.Length && -1 <= hi < a.Length && lo + hi == a.Length - 1
      invariant forall k :: 0 <= k < lo ==> a[k] == old(a[a.Length - 1 - k]) && a[a.Length - 1 - k] == old(a[k])
      invariant forall k :: lo <= k <= hi ==> a[k] == old(a[k])
    {
      a[lo], a[hi] := a[hi], a[lo];
      lo, hi := lo + 1, hi - 1;
    }
  }

  /** Builds the request's message list from the two query results, as the
      route does: the prompt row as a `system` entry, the history rows
      reversed into ascending order and pushed one by one, then the new text. */
  method BuildMessages(promptRows: seq<string>, history: seq<Entry>, text: string) returns (messages: seq<Entry>)
    ensures messages == SystemEntries(promptRows) + Reversed(history) + [Entry(User, text)]
  {
    messages := [];
    if |promptRows| > 0 {
      messages := messages + [Entry(System, promptRows[0])];
    }
    var rows := new Entry[|history|](i requires 0 <= i < |history| => history[i]);
    assert rows[..] == history;
    ReverseInPlace(rows);
    var prefix := messages;
    for i := 0 to rows.Length
      invariant messages == prefix + rows[..i]
    {
      messages := messages + [rows[i]];
    }
    assert rows[..rows.Length] == Reversed(history);
    messages := messages + [Entry(User, text)];
  }

  /** POST `/:projectId`: one chat turn. `complete` stands for the completion
      endpoint; None is any failure of the call or of reading its reply.
      `steps` records the turn's effects in order: the user row is written
      before the endpoint is called, and the assistant row only after a reply. */
  method PostChat(db: Database, userId: int, projectId: int, message: Option<string>,
                  complete: CompletionRequest -> Option<string>) returns (r: Response<string>, ghost steps: seq<Step>)
    requires db.Valid()
    modifies db
    ensures db.Valid()
    ensures db.projects == old(db.projects) && db.prompts == old(db.prompts) && db.files == old(db.files)
    ensures db.nextProjectId == old(db.nextProjectId) && db.nextPromptId == old(db.nextPromptId)
    ensures db.nextFileId == old(db.nextFileId)
    ensures !TruthyText(message) ==>
      r == Failure(BadRequest) && db.messages == old(db.messages) && db.nextMessageId == old(db.nextMessageId) && steps == []
    ensures TruthyText(message) && !Owns(old(db.projects), projectId, userId) ==>
      r == Failure(NotFound) && db.messages == old(db.messages) && db.nextMessageId == old(db.nextMessageId) && steps == []
    ensures TruthyText(message) && Owns(old(db.projects), projectId, userId) ==>
      var request := CompletionRequest(Model, Assembly(old(db.prompts), old(db.messages), projectId, message.value));
      var reply := complete(request);
      var first := old(db.nextMessageId);
      && db.messages == old(db.messages) + TurnRows(first, projectId, userId, message.value, reply)
      && db.nextMessageId == first + (if reply.Some? then 2 else 1)
      && steps == [WroteUser(first), Called(request)] + (if reply.Some? then [WroteAssistant(first + 1)] else [])
      && r == (if reply.Some? then Success(reply.value) else Failure(UpstreamError))
    ensures NoSystemRows(old(db.messages)) ==> NoSystemRows(db.messages)
  {
    steps := [];
    if !TruthyText(message) {
      return Failure(BadRequest), steps;
    }
    var text := message.value;
    if !Owns(db.projects, projectId, userId) {
      return Failure(NotFound), steps;
    }
    var promptRows := LatestPromptRows(db.prompts, projectId);
    var history := RecentHistoryRows(db.messages, projectId);
    var sent := BuildMessages(promptRows, history, text);
    QueriesAssemble(db.prompts, db.messages, projectId, text);
    assert sent == Assembly(db.prompts, db.messages, projectId, text);
    ghost var before := db.messages;
    var userRowId := db.InsertMessage(projectId, userId, User, text);
    steps := steps + [WroteUser(userRowId)];
    var reply := complete(CompletionRequest(Model, sent));
    steps := steps + [Called(CompletionRequest(Model, sent))];
    if reply.None? {
      r := Failure(UpstreamError);
    } else {
      var assistantRowId := db.InsertMessage(projectId, userId, Assistant, reply.value);
      steps := steps + [WroteAssistant(assistantRowId)];
      r := Success(reply.value);
    }
    assert steps == [WroteUser(userRowId), Called(CompletionRequest(Model, sent))]
                    + (if reply.Some? then [WroteAssistant(userRowId + 1)] else []);
    assert db.messages == before + TurnRows(userRowId, projectId, userId, text, reply);
    TurnRowsNoSystem(before, userRowId, projectId, userId, text, reply);
  }

  /** The turn writes only `user` and `assistant` rows. */
  lemma TurnRowsNoSystem(messages: seq<ChatMessage>, firstId: int, projectId: int, userId: int, text: string,
                         reply: Option<string>)
    ensures NoSystemRows(messages) ==> NoSystemRows(messages + TurnRows(firstId, projectId, userId, text, reply))
  {
  }

  /** `parseInt(req.query.limit) || 50`; None stands for NaN. */
  function EffectiveLimit(parsed: Option<int>): (limit: int)
    ensures parsed.None? || parsed == Some(0) ==> limit == DefaultHistoryLimit
    ensures parsed.Some? && parsed.value != 0 ==> limit == parsed.value
  {
    if parsed.None? || parsed.value == 0 then DefaultHistoryLimit else parsed.value
  }

  /** GET `/:projectId/history`: the OLDEST `limit` messages of an owned
      project in ascending order. A negative limit is a syntax error in the
      LIMIT clause, which reaches the caller as a storage error. */
  function GetHistory(projects: seq<Project>, messages: seq<ChatMessage>, userId: int, projectId: int,
                      parsedLimit: Option<int>): (r: Response<seq<ChatMessage>>)
    ensures !Owns(projects, projectId, userId) ==> r == Failure(NotFound)
    ensures Owns(projects, projectId, userId) && EffectiveLimit(parsedLimit) < 0 ==> r == Failure(StorageError)
    ensures Owns(projects, projectId, userId) && EffectiveLimit(parsedLimit) >= 0 ==>
      var own := MessagesOf(messages, projectId);
      && r.Success?
      && |r.value| == Min(EffectiveLimit(parsedLimit), |own|)
      && forall i :: 0 <= i < |r.value| ==> r.value[i] == own[i]
  {
    if !Owns(projects, projectId, userId) then Failure(NotFound)
    else
      var limit := EffectiveLimit(parsedLimit);
      if limit < 0 then Failure(StorageError)
      else Success(Take(MessagesOf(messages, projectId), limit))
  }

  /** The rows of a turn show up in a later history read exactly when the
      project held fewer than `limit` messages before it: the read returns the
      oldest rows, so with 50 or more stored messages and the default limit
      the newest turn is never returned. */
  lemma TurnVisibleInHistory(projects: seq<Project>, messages: seq<ChatMessage>, firstId: int, userId: int, projectId: int,
                             text: string, reply: Option<string>, parsedLimit: Option<int>)
    requires Owns(projects, projectId, userId)
    requires AllBelow(messages, MessageKey, firstId)
    requires EffectiveLimit(parsedLimit) >= 0
    ensures var r := GetHistory(projects, messages + TurnRows(firstId, projectId, userId, text, reply), userId, projectId, parsedLimit);
      var userRow := ChatMessage(firstId, projectId, userId, User, text);
      userRow in r.value <==> |MessagesOf(messages, projectId)| < EffectiveLimit(parsedLimit)
  {
    var rows := TurnRows(firstId, projectId, userId, text, reply);
    var userRow := rows[0];
    var own := MessagesOf(messages, projectId);
    TurnExtendsHistory(messages, firstId, projectId, userId, text, reply);
    var limit := EffectiveLimit(parsedLimit);
    var shown := Take(own + rows, limit);
    if |own| < limit {
      assert shown[|own|] == userRow;
    } else {
      assert shown == Take(own, limit);
      MessagesOfMembers(messages, projectId);
      forall i | 0 <= i < |shown| ensures shown[i].id < firstId {
        assert own[i] in messages;
        var j :| 0 <= j < |messages| && messages[j] == own[i];
      }
    }
  }
}
