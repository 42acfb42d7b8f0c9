/** The project page of the web client (frontend/src/pages/ProjectDetail.js):
    component state that the event handlers update between their awaits. A
    handler's request is represented by the reply it receives, given as an
    argument; `Date.now()` values are arguments too. */
module ProjectDetail {
  import opened Seqs
  import opened Http
  import opened Schema
  import opened Chat
  import opened Prompts

  /** JavaScript's WhiteSpace and LineTerminator code points, which
      `String.prototype.trim` removes at both ends. */
  predicate IsWhitespace(c: char)
  {
    || c == '\t' || c == '\n' || c == '\U{000B}' || c == '\U{000C}' || c == '\r' || c == ' '
    || c == '\U{00A0}' || c == '\U{1680}' || ('\U{2000}' <= c <= '\U{200A}')
    || c == '\U{2028}' || c == '\U{2029}' || c == '\U{202F}' || c == '\U{205F}'
    || c == '\U{3000}' || c == '\U{FEFF}'
  }

  /** Every character of `s` in positions `lo` up to `hi` is whitespace. */
  ghost predicate WhitespaceBetween(s: string, lo: int, hi: int)
  {
    forall i :: 0 <= lo <= i < hi <= |s| ==> IsWhitespace(s[i])
  }

  /** The position of the first character at or after `lo` that is not whitespace. */
  function SkipLeading(s: string, lo: nat): (r: nat)
    requires lo <= |s|
    ensures lo <= r <= |s|
    ensures WhitespaceBetween(s, lo, r)
    ensures r < |s| ==> !IsWhitespace(s[r])
    decreases |s| - lo
  {
    if lo < |s| && IsWhitespace(s[lo]) then SkipLeading(s, lo + 1) else lo
  }

  /** The position just after the last character before `hi`, and not before
      `lo`, that is not whitespace. */
  function SkipTrailing(s: string, lo: nat, hi: nat): (r: nat)
    requires lo <= hi <= |s|
    ensures lo <= r <= hi
    ensures WhitespaceBetween(s, r, hi)
    ensures r > lo ==> !IsWhitespace(s[r - 1])
    decreases hi - lo
  {
    if hi > lo && IsWhitespace(s[hi - 1]) then SkipTrailing(s, lo, hi - 1) else hi
  }

  /** `String.prototype.trim`: the text with its leading and trailing
      whitespace removed. */
  function Trim(s: string): (r: string)
  {
    var a := SkipLeading(s, 0);
    s[a..SkipTrailing(s, a, |s|)]
  }

  /** The trimmed text is empty exactly when the text is all whitespace;
      otherwise it neither starts nor ends with whitespace, and it is the
      slice of the text left between a whitespace prefix and a whitespace
      suffix. */
  lemma TrimFacts(s: string)
    ensures var r := Trim(s);
      && (r == "" <==> WhitespaceBetween(s, 0, |s|))
      && (r != "" ==> !IsWhitespace(r[0]) && !IsWhitespace(Last(r)))
      && exists a, b :: 0 <= a <= b <= |s| && r == s[a..b] && WhitespaceBetween(s, 0, a) && WhitespaceBetween(s, b, |s|)
  {
    var a := SkipLeading(s, 0);
    var b := SkipTrailing(s, a, |s|);
    assert WhitespaceBetween(s, 0, |s|) ==> a == |s|;
    assert Trim(s) == s[a..b];
  }

  /** Trimming twice is trimming once. */
  lemma TrimIdempotent(s: string)
    ensures Trim(Trim(s)) == Trim(s)
  {
    var r := Trim(s);
    assert SkipLeading(r, 0) == 0;
    assert SkipTrailing(r, 0, |r|) == |r|;
  }

  /** A chat message as the page lists it; `created_at` is display-only and left out. */
  datatype UiMessage = UiMessage(id: int, role: Role, content: string)

  function UiKey(m: UiMessage): int { m.id }

  /** The outcome of a request as the client sees it: the payload it reads
      from the response, or the `message` field of an error response, if any. */
  datatype Reply<+T> = Ok(value: T) | Err(serverMessage: Option<string>)

  /** `error.response?.data?.message || fallback`. */
  function ErrorText(serverMessage: Option<string>, fallback: string): (r: string)
    ensures TruthyText(serverMessage) ==> r == serverMessage.value
    ensures !TruthyText(serverMessage) ==> r == fallback
  {
    if TruthyText(serverMessage) then serverMessage.value else fallback
  }

  /** `prev => [...prev, tempUserMessage]`. */
  function Pending(prev: seq<UiMessage>, temp: UiMessage): seq<UiMessage>
  {
    prev + [temp]
  }

  /** The success updater: drop the temp message, then append the user
      message and the assistant reply. Their ids come from two separate
      clock reads: `first + 1` and `second + 2`. */
  function Succeeded(prev: seq<UiMessage>, tempId: int, text: string, reply: string, first: int, second: int): seq<UiMessage>
  {
    RemoveById(prev, UiKey, tempId) + [UiMessage(first + 1, User, text), UiMessage(second + 2, Assistant, reply)]
  }

  /** The failure updater: drop the temp message. */
  function Failed(prev: seq<UiMessage>, tempId: int): seq<UiMessage>
  {
    RemoveById(prev, UiKey, tempId)
  }

  ghost predicate FreshId(list: seq<UiMessage>, id: int)
  {
    forall i :: 0 <= i < |list| ==> list[i].id != id
  }

  /** After a failed send the list is the list from before the send, as long
      as the temp id was not already in use. */
  lemma FailedSendRestores(prev: seq<UiMessage>, temp: UiMessage)
    requires FreshId(prev, temp.id)
    ensures Failed(Pending(prev, temp), temp.id) == prev
  {
    FilterSnoc(prev, temp, KeyIsNot(UiKey, temp.id));
    RemoveAbsentId(prev, UiKey, temp.id);
  }

  /** After a successful send the earlier messages keep their order and the
      user message and the reply follow them. */
  lemma SucceededSendAppends(prev: seq<UiMessage>, temp: UiMessage, text: string, reply: string, first: int, second: int)
    requires FreshId(prev, temp.id)
    ensures Succeeded(Pending(prev, temp), temp.id, text, reply, first, second)
      == prev + [UiMessage(first + 1, User, text), UiMessage(second + 2, Assistant, reply)]
  {
    FailedSendRestores(prev, temp);
  }

  /** After a failed completion the client and the server disagree: the page
      shows the list from before the send, while the project's stored history
      has gained the user row. */
  lemma FailedSendDiverges(prev: seq<UiMessage>, temp: UiMessage, messages: seq<ChatMessage>,
                           firstId: int, projectId: int, userId: int)
    requires FreshId(prev, temp.id)
    ensures Failed(Pending(prev, temp), temp.id) == prev
    ensures MessagesOf(messages + TurnRows(firstId, projectId, userId, temp.content, None), projectId)
      == MessagesOf(messages, projectId) + [ChatMessage(firstId, projectId, userId, User, temp.content)]
  {
    FailedSendRestores(prev, temp);
    TurnExtendsHistory(messages, firstId, projectId, userId, temp.content, None);
  }

  /** The client's list, prepended with the created prompt, is the server's
      newest-first list after the insert. */
  lemma CreateKeepsListInSync(projects: seq<Project>, prompts: seq<Prompt>, userId: int, row: Prompt)
    requires Owns(projects, row.projectId, userId)
    ensures ListPrompts(projects, prompts + [row], userId, row.projectId).value
      == [row] + ListPrompts(projects, prompts, userId, row.projectId).value
  {
    FilterSnoc(prompts, row, PromptInProject(row.projectId));
    ReversedSnoc(PromptsOf(prompts, row.projectId), row);
  }

  /** The client's list, filtered by the deleted id, is the server's list
      after the delete. */
  lemma DeleteKeepsListInSync(projects: seq<Project>, prompts: seq<Prompt>, userId: int, projectId: int, id: int)
    requires Owns(projects, projectId, userId)
    ensures ListPrompts(projects, RemoveById(prompts, PromptKey, id), userId, projectId).value
      == RemoveById(ListPrompts(projects, prompts, userId, projectId).value, PromptKey, id)
  {
    PromptsOfRemoved(prompts, id, projectId);
    FilterReversed(PromptsOf(prompts, projectId), KeyIsNot(PromptKey, id));
  }

  /** The client's list, with the edited prompt replaced by the re-read row,
      is the server's list after the update. */
  lemma UpdateKeepsListInSync(projects: seq<Project>, prompts: seq<Prompt>, userId: int, projectId: int,
                              i: nat, name: string, content: string)
    requires Owns(projects, projectId, userId)
    requires Increasing(prompts, PromptKey)
    requires i < |prompts|
    ensures var p := prompts[i];
      ListPrompts(projects, SetPromptFields(prompts, p.id, name, content), userId, projectId).value
      == ReplaceById(ListPrompts(projects, prompts, userId, projectId).value, PromptKey, p.id,
                     p.(name := name, content := content))
  {
    var p := prompts[i];
    var own := PromptsOf(prompts, projectId);
    PromptsOfUpdated(prompts, p.id, name, content, projectId);
    PromptsOfMembers(prompts, projectId);
    UpdateIsReplace(prompts, i, name, content, own);
    ReplaceReversed(own, PromptKey, p.id, p.(name := name, content := content));
  }

  class ProjectDetailPage {
    var messages: seq<UiMessage>
    var prompts: seq<Prompt>
    var files: seq<ProjectFile>
    var newMessage: string
    var sending: bool
    var error: string
    var showPromptModal: bool
    var promptName: string
    var promptContent: string
    var editingPrompt: Option<Prompt>
    var uploadingFile: bool

    /** The initial state of every `useState`. */
    constructor ()
      ensures messages == [] && prompts == [] && files == []
      ensures newMessage == "" && !sending && error == ""
      ensures !showPromptModal && promptName == "" && promptContent == "" && editingPrompt.None?
      ensures !uploadingFile
    {
      messages, prompts, files := [], [], [];
      newMessage, sending, error := "", false, "";
      showPromptModal, promptName, promptContent, editingPrompt := false, "", "", None;
      uploadingFile := false;
    }

    /** The send handler. `now` is the `Date.now()` that names the temp
        message; `first` and `second` are the two read after the reply, for
        the user message and the assistant message; `reply` is what the
        chat request returns. `pending` is the list while the request is in
        flight, `posted` the text sent, if any. */
    method HandleSendMessage(now: int, first: int, second: int, reply: Reply<string>)
      returns (posted: Option<string>, pending: seq<UiMessage>)
      modifies this
      ensures posted.None? <==> Trim(old(newMessage)) == "" || old(sending)
      ensures posted.None? ==>
        && messages == old(messages) && newMessage == old(newMessage) && sending == old(sending)
        && error == old(error) && pending == old(messages)
      ensures posted.Some? ==>
        && posted.value == Trim(old(newMessage))
        && pending == Pending(old(messages), UiMessage(now, User, posted.value))
        && newMessage == "" && !sending
        && (reply.Ok? ==> messages == Succeeded(pending, now, posted.value, reply.value, first, second) && error == "")
        && (reply.Err? ==> messages == Failed(pending, now)
                           && error == ErrorText(reply.serverMessage, "Failed to send message"))
      ensures prompts == old(prompts) && files == old(files) && editingPrompt == old(editingPrompt)
      ensures showPromptModal == old(showPromptModal) && promptName == old(promptName)
      ensures promptContent == old(promptContent) && uploadingFile == old(uploadingFile)
    {
      var text := Trim(newMessage);
      if text == "" || sending {
        return None, messages;
      }
      newMessage := "";
      sending := true;
      error := "";
      var temp := UiMessage(now, User, text);
      messages := Pending(messages, temp);
      pending := messages;
      match reply {
        case Ok(answer) =>
          messages := Succeeded(messages, temp.id, text, answer, first, second);
        case Err(serverMessage) =>
          error := ErrorText(serverMessage, "Failed to send message");
          messages := Failed(messages, temp.id);
      }
      sending := false;
      posted := Some(text);
    }

    /** Prepends the created prompt, then closes and clears the form. */
    method HandleCreatePrompt(reply: Reply<Prompt>)
      modifies this
      ensures reply.Ok? ==>
        && prompts == [reply.value] + old(prompts) && error == ""
        && !showPromptModal && promptName == "" && promptContent == ""
      ensures reply.Err? ==>
        && prompts == old(prompts) && error == ErrorText(reply.serverMessage, "Failed to create prompt")
        && showPromptModal == old(showPromptModal) && promptName == old(promptName) && promptContent == old(promptContent)
      ensures messages == old(messages) && files == old(files) && editingPrompt == old(editingPrompt)
      ensures newMessage == old(newMessage) && sending == old(sending) && uploadingFile == old(uploadingFile)
    {
      error := "";
      match reply {
        case Ok(p) =>
          prompts := [p] + prompts;
          showPromptModal := false;
          promptName := "";
          promptContent := "";
        case Err(serverMessage) =>
          error := ErrorText(serverMessage, "Failed to create prompt");
      }
    }

    /** Opens the form on an existing prompt. */
    method HandleEditPrompt(p: Prompt)
      modifies this
      ensures editingPrompt == Some(p) && promptName == p.name && promptContent == p.content && showPromptModal
      ensures messages == old(messages) && prompts == old(prompts) && files == old(files) && error == old(error)
      ensures newMessage == old(newMessage) && sending == old(sending) && uploadingFile == old(uploadingFile)
    {
      editingPrompt := Some(p);
      promptName := p.name;
      promptContent := p.content;
      showPromptModal := true;
    }

    /** Replaces the edited prompt by id with the row the server returns.
        Without a prompt being edited, reading its id throws inside the
        `try`, and the catch sets the fallback error. */
    method HandleUpdatePrompt(reply: Reply<Prompt>)
      modifies this
      ensures old(editingPrompt).Some? && reply.Ok? ==>
        && prompts == ReplaceById(old(prompts), PromptKey, old(editingPrompt).value.id, reply.value)
        && error == "" && !showPromptModal && editingPrompt.None? && promptName == "" && promptContent == ""
      ensures old(editingPrompt).Some? && reply.Err? ==>
        && prompts == old(prompts) && error == ErrorText(reply.serverMessage, "Failed to update prompt")
        && editingPrompt == old(editingPrompt) && showPromptModal == old(showPromptModal)
        && promptName == old(promptName) && promptContent == old(promptContent)
      ensures old(editingPrompt).None? ==>
        && prompts == old(prompts) && error == "Failed to update prompt"
        && editingPrompt == old(editingPrompt) && showPromptModal == old(showPromptModal)
        && promptName == old(promptName) && promptContent == old(promptContent)
      ensures messages == old(messages) && files == old(files)
      ensures newMessage == old(newMessage) && sending == old(sending) && uploadingFile == old(uploadingFile)
    {
      error := "";
      if editingPrompt.None? {
        error := ErrorText(None, "Failed to update prompt");
        return;
      }
      var id := editingPrompt.value.id;
      match reply {
        case Ok(p) =>
          prompts := ReplaceById(prompts, PromptKey, id, p);
          showPromptModal := false;
          editingPrompt := None;
          promptName := "";
          promptContent := "";
        case Err(serverMessage) =>
          error := ErrorText(serverMessage, "Failed to update prompt");
      }
    }

    /** Filters the deleted prompt out once the user confirmed and the server
        agreed; a failure only raises an alert. */
    method HandleDeletePrompt(promptId: int, confirmed: bool, reply: Reply<()>)
      modifies this
      ensures confirmed && reply.Ok? ==> prompts == RemoveById(old(prompts), PromptKey, promptId)
      ensures !(confirmed && reply.Ok?) ==> prompts == old(prompts)
      ensures messages == old(messages) && files == old(files) && error == old(error)
      ensures editingPrompt == old(editingPrompt) && showPromptModal == old(showPromptModal)
      ensures promptName == old(promptName) && promptContent == old(promptContent)
      ensures newMessage == old(newMessage) && sending == old(sending) && uploadingFile == old(uploadingFile)
    {
      if !confirmed {
        return;
      }
      if reply.Ok? {
        prompts := RemoveById(prompts, PromptKey, promptId);
      }
    }

    /** Uploads the chosen file, if any, and prepends the upload reply
        (`response.data.file`) to the list. */
    method HandleFileUpload(chosen: bool, reply: Reply<ProjectFile>)
      modifies this
      ensures !chosen ==> files == old(files) && error == old(error) && uploadingFile == old(uploadingFile)
      ensures chosen ==> !uploadingFile
      ensures chosen && reply.Ok? ==> files == [reply.value] + old(files) && error == ""
      ensures chosen && reply.Err? ==>
        files == old(files) && error == ErrorText(reply.serverMessage, "Failed to upload file")
      ensures messages == old(messages) && prompts == old(prompts)
      ensures editingPrompt == old(editingPrompt) && showPromptModal == old(showPromptModal)
      ensures promptName == old(promptName) && promptContent == old(promptContent)
      ensures newMessage == old(newMessage) && sending == old(sending)
    {
      if !chosen {
        return;
      }
      uploadingFile := true;
      error := "";
      match reply {
        case Ok(f) =>
          files := [f] + files;
        case Err(serverMessage) =>
          error := ErrorText(serverMessage, "Failed to upload file");
      }
      uploadingFile := false;
    }

    /** Filters the deleted file out once the user confirmed and the server
        agreed; a failure only raises an alert. */
    method HandleDeleteFile(fileId: int, confirmed: bool, reply: Reply<()>)
      modifies this
      ensures confirmed && reply.Ok? ==> files == RemoveById(old(files), FileKey, fileId)
      ensures !(confirmed && reply.Ok?) ==> files == old(files)
      ensures messages == old(messages) && prompts == old(prompts) && error == old(error)
      ensures editingPrompt == old(editingPrompt) && showPromptModal == old(showPromptModal)
      ensures promptName == old(promptName) && promptContent == old(promptContent)
      ensures newMessage == old(newMessage) && sending == old(sending) && uploadingFile == old(uploadingFile)
    {
      if !confirmed {
        return;
      }
      if reply.Ok? {
        files := RemoveById(files, FileKey, fileId);
      }
    }
  }
}
