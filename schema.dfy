/** The relational store behind the routes (backend/config/database.js): one
    table per entity, each a sequence of rows in insertion order, which is also
    `created_at` order. Ids come from a per-table AUTO_INCREMENT counter, so
    they increase strictly along each table. Foreign keys hold, and deleting a
    project cascades to its prompts, chat messages and files. */
module Schema {
  import opened Seqs
  import opened Http

  /** ENUM('user', 'assistant', 'system') of chat_messages.role. */
  datatype Role = User | Assistant | System

  /** `description` is a nullable TEXT column; `name` is NOT NULL. */
  datatype Project = Project(id: int, userId: int, name: string, description: Option<string>)

  /** `name` and `content` are NOT NULL. */
  datatype Prompt = Prompt(id: int, projectId: int, name: string, content: string)

  datatype ChatMessage = ChatMessage(id: int, projectId: int, userId: int, role: Role, content: string)

  /** `file_size` is nullable. Rows are written by the upload route, which is not part of this model. */
  datatype ProjectFile = ProjectFile(id: int, projectId: int, fileId: string, fileName: string, fileSize: Option<int>)

  function ProjectKey(p: Project): int { p.id }
  function PromptKey(p: Prompt): int { p.id }
  function MessageKey(m: ChatMessage): int { m.id }
  function FileKey(f: ProjectFile): int { f.id }

  predicate HasProject(projects: seq<Project>, projectId: int)
  {
    exists p :: p in projects && p.id == projectId
  }

  /** `SELECT id FROM projects WHERE id = ? AND user_id = ?` returns a row. */
  predicate Owns(projects: seq<Project>, projectId: int, userId: int)
  {
    exists p :: p in projects && p.id == projectId && p.userId == userId
  }

  function PromptInProject(projectId: int): Prompt -> bool
  {
    (p: Prompt) => p.projectId == projectId
  }

  function MessageInProject(projectId: int): ChatMessage -> bool
  {
    (m: ChatMessage) => m.projectId == projectId
  }

  function FileInProject(projectId: int): ProjectFile -> bool
  {
    (f: ProjectFile) => f.projectId == projectId
  }

  /** `... WHERE project_id = ?` on prompts, oldest first. */
  function PromptsOf(prompts: seq<Prompt>, projectId: int): (r: seq<Prompt>)
    ensures forall i :: 0 <= i < |r| ==> r[i].projectId == projectId
  {
    Filter(prompts, PromptInProject(projectId))
  }

  /** The selection holds exactly the table's rows of the project. */
  lemma PromptsOfMembers(prompts: seq<Prompt>, projectId: int)
    ensures forall p :: p in PromptsOf(prompts, projectId) <==> p in prompts && p.projectId == projectId
  {
    FilterMembers(prompts, PromptInProject(projectId));
  }

  /** `... WHERE project_id = ?` on chat_messages, oldest first. */
  function MessagesOf(messages: seq<ChatMessage>, projectId: int): (r: seq<ChatMessage>)
    ensures forall i :: 0 <= i < |r| ==> r[i].projectId == projectId
  {
    Filter(messages, MessageInProject(projectId))
  }

  /** The selection holds exactly the table's rows of the project. */
  lemma MessagesOfMembers(messages: seq<ChatMessage>, projectId: int)
    ensures forall m :: m in MessagesOf(messages, projectId) <==> m in messages && m.projectId == projectId
  {
    FilterMembers(messages, MessageInProject(projectId));
  }

  function ProjectRowIsNot(id: int, userId: int): Project -> bool
  {
    (p: Project) => !(p.id == id && p.userId == userId)
  }

  function PromptProject(p: Prompt): int { p.projectId }
  function MessageProject(m: ChatMessage): int { m.projectId }
  function FileProject(f: ProjectFile): int { f.projectId }

  /** No stored chat message has the `system` role. The chat turn adds only
      `user` and `assistant` rows, and the project delete only removes rows. */
  ghost predicate NoSystemRows(messages: seq<ChatMessage>)
  {
    forall i :: 0 <= i < |messages| ==> messages[i].role != System
  }

  /** Deleting chat messages leaves no `system` row behind where there was none. */
  lemma DeleteKeepsNoSystemRows(messages: seq<ChatMessage>, keep: ChatMessage -> bool)
    requires NoSystemRows(messages)
    ensures NoSystemRows(Filter(messages, keep))
  {
    var f := Filter(messages, keep);
    forall i | 0 <= i < |f| ensures f[i].role != System {
      FilterElement(messages, keep, i);
      var j :| 0 <= j < |messages| && messages[j] == f[i];
    }
  }

  /** The foreign key from a child table to projects holds for every row. */
  ghost predicate ParentsExist<C>(children: seq<C>, parent: C -> int, projects: seq<Project>)
  {
    forall i :: 0 <= i < |children| ==> HasProject(projects, parent(children[i]))
  }

  /** `UPDATE projects SET name = ?, description = ? WHERE id = ? AND user_id = ?`. */
  function SetProjectFields(projects: seq<Project>, id: int, userId: int, name: string, description: Option<string>): (r: seq<Project>)
    ensures |r| == |projects|
    ensures forall i :: 0 <= i < |r| ==> r[i].id == projects[i].id && r[i].userId == projects[i].userId
    ensures forall i :: 0 <= i < |r| && projects[i].id == id && projects[i].userId == userId ==>
      r[i].name == name && r[i].description == description
    ensures forall i :: 0 <= i < |r| && !(projects[i].id == id && projects[i].userId == userId) ==> r[i] == projects[i]
  {
    Map(projects, ProjectWithFields(id, userId, name, description))
  }

  /** The row update that the project UPDATE applies to each row. */
  function ProjectWithFields(id: int, userId: int, name: string, description: Option<string>): Project -> Project
  {
    (p: Project) => if p.id == id && p.userId == userId then p.(name := name, description := description) else p
  }

  /** `UPDATE prompts SET name = ?, content = ? WHERE id = ?`. */
  function SetPromptFields(prompts: seq<Prompt>, id: int, name: string, content: string): (r: seq<Prompt>)
    ensures |r| == |prompts|
    ensures forall i :: 0 <= i < |r| ==> r[i].id == prompts[i].id && r[i].projectId == prompts[i].projectId
    ensures forall i :: 0 <= i < |r| && prompts[i].id == id ==> r[i].name == name && r[i].content == content
    ensures forall i :: 0 <= i < |r| && prompts[i].id != id ==> r[i] == prompts[i]
  {
    Map(prompts, PromptWithFields(id, name, content))
  }

  /** The row update that the prompt UPDATE applies to each row. */
  function PromptWithFields(id: int, name: string, content: string): Prompt -> Prompt
  {
    (p: Prompt) => if p.id == id then p.(name := name, content := content) else p
  }

  /** Every row of `s` keeps its key, so strictly increasing keys stay so. */
  lemma SetPromptFieldsIncreasing(prompts: seq<Prompt>, id: int, name: string, content: string)
    requires Increasing(prompts, PromptKey)
    ensures Increasing(SetPromptFields(prompts, id, name, content), PromptKey)
  {
  }

  /** Ids are unique, ascending in insertion order and below their table's
      counter; every child row refers to an existing project. */
  ghost predicate TablesValid(projects: seq<Project>, prompts: seq<Prompt>, messages: seq<ChatMessage>, files: seq<ProjectFile>,
                              nextProjectId: int, nextPromptId: int, nextMessageId: int, nextFileId: int)
  {
    && Increasing(projects, ProjectKey) && AllBelow(projects, ProjectKey, nextProjectId)
    && Increasing(prompts, PromptKey) && AllBelow(prompts, PromptKey, nextPromptId)
    && Increasing(messages, MessageKey) && AllBelow(messages, MessageKey, nextMessageId)
    && Increasing(files, FileKey) && AllBelow(files, FileKey, nextFileId)
    && ParentsExist(prompts, PromptProject, projects)
    && ParentsExist(messages, MessageProject, projects)
    && ParentsExist(files, FileProject, projects)
  }

  class Database {
    var projects: seq<Project>
    var prompts: seq<Prompt>
    var messages: seq<ChatMessage>
    var files: seq<ProjectFile>
    var nextProjectId: int
    var nextPromptId: int
    var nextMessageId: int
    var nextFileId: int

    ghost predicate Valid()
      reads this
    {
      TablesValid(projects, prompts, messages, files, nextProjectId, nextPromptId, nextMessageId, nextFileId)
    }

    /** A freshly initialised schema: every table empty, every counter at 1. */
    constructor ()
      ensures Valid()
      ensures projects == [] && prompts == [] && messages == [] && files == []
      ensures nextProjectId == 1 && nextPromptId == 1 && nextMessageId == 1 && nextFileId == 1
    {
      projects, prompts, messages, files := [], [], [], [];
      nextProjectId, nextPromptId, nextMessageId, nextFileId := 1, 1, 1, 1;
    }

    /** `INSERT INTO projects (user_id, name, description) VALUES (?, ?, ?)`. */
    method InsertProject(userId: int, name: string, description: Option<string>) returns (id: int)
      requires Valid()
      modifies this
      ensures Valid()
      ensures id == old(nextProjectId) && nextProjectId == id + 1
      ensures projects == old(projects) + [Project(id, userId, name, description)]
      ensures prompts == old(prompts) && messages == old(messages) && files == old(files)
      ensures nextPromptId == old(nextPromptId) && nextMessageId == old(nextMessageId) && nextFileId == old(nextFileId)
    {
      id := nextProjectId;
      var row := Project(id, userId, name, description);
      projects := projects + [row];
      nextProjectId := nextProjectId + 1;
      forall q | HasProject(old(projects), q) ensures HasProject(projects, q) {
        var p :| p in old(projects) && p.id == q;
        assert p in projects;
      }
      ParentsStayExisting(prompts, PromptProject, old(projects), projects);
      ParentsStayExisting(messages, MessageProject, old(projects), projects);
      ParentsStayExisting(files, FileProject, old(projects), projects);
    }

    /** The UPDATE of a project row. A NULL name violates NOT NULL on a row
        that matches, so the statement fails and changes nothing. */
    method UpdateProject(id: int, userId: int, name: Option<string>, description: Option<string>) returns (ok: bool)
      requires Valid()
      modifies this
      ensures Valid()
      ensures ok <==> name.Some? || !Owns(old(projects), id, userId)
      ensures ok && name.Some? ==> projects == SetProjectFields(old(projects), id, userId, name.value, description)
      ensures !(ok && name.Some?) ==> projects == old(projects)
      ensures prompts == old(prompts) && messages == old(messages) && files == old(files)
      ensures nextProjectId == old(nextProjectId) && nextPromptId == old(nextPromptId)
      ensures nextMessageId == old(nextMessageId) && nextFileId == old(nextFileId)
    {
      ok := name.Some? || !Owns(projects, id, userId);
      if ok && name.Some? {
        var before := projects;
        projects := SetProjectFields(projects, id, userId, name.value, description);
        forall q | HasProject(before, q) ensures HasProject(projects, q) {
          var p :| p in before && p.id == q;
          var i :| 0 <= i < |before| && before[i] == p;
          assert projects[i].id == q;
        }
        ParentsStayExisting(prompts, PromptProject, before, projects);
        ParentsStayExisting(messages, MessageProject, before, projects);
        ParentsStayExisting(files, FileProject, before, projects);
      }
    }

    /** `DELETE FROM projects WHERE id = ? AND user_id = ?` with ON DELETE
        CASCADE on prompts, chat_messages and project_files. */
    method DeleteProject(id: int, userId: int)
      requires Valid()
      modifies this
      ensures Valid()
      ensures projects == Filter(old(projects), ProjectRowIsNot(id, userId))
      ensures Owns(old(projects), id, userId) ==>
        && prompts == Filter(old(prompts), KeyIsNot(PromptProject, id))
        && messages == Filter(old(messages), KeyIsNot(MessageProject, id))
        && files == Filter(old(files), KeyIsNot(FileProject, id))
      ensures !Owns(old(projects), id, userId) ==>
        projects == old(projects) && prompts == old(prompts) && messages == old(messages) && files == old(files)
      ensures nextProjectId == old(nextProjectId) && nextPromptId == old(nextPromptId)
      ensures nextMessageId == old(nextMessageId) && nextFileId == old(nextFileId)
    {
      CascadeValid(projects, prompts, messages, files, nextProjectId, nextPromptId, nextMessageId, nextFileId, id, userId);
      SurvivingParents(projects, id, userId);
      var remaining := Filter(projects, ProjectRowIsNot(id, userId));
      if Owns(projects, id, userId) {
        var keptPrompts := Filter(prompts, KeyIsNot(PromptProject, id));
        var keptMessages := Filter(messages, KeyIsNot(MessageProject, id));
        var keptFiles := Filter(files, KeyIsNot(FileProject, id));
        projects, prompts, messages, files := remaining, keptPrompts, keptMessages, keptFiles;
      } else {
        projects := remaining;
      }
      assert nextProjectId == old(nextProjectId) && nextPromptId == old(nextPromptId);
      assert nextMessageId == old(nextMessageId) && nextFileId == old(nextFileId);
    }

    /** `INSERT INTO prompts (project_id, name, content) VALUES (?, ?, ?)`;
        the foreign key demands an existing project. */
    method InsertPrompt(projectId: int, name: string, content: string) returns (id: int)
      requires Valid()
      requires HasProject(projects, projectId)
      modifies this
      ensures Valid()
      ensures id == old(nextPromptId) && nextPromptId == id + 1
      ensures prompts == old(prompts) + [Prompt(id, projectId, name, content)]
      ensures projects == old(projects) && messages == old(messages) && files == old(files)
      ensures nextProjectId == old(nextProjectId) && nextMessageId == old(nextMessageId) && nextFileId == old(nextFileId)
    {
      id := nextPromptId;
      prompts := prompts + [Prompt(id, projectId, name, content)];
      nextPromptId := nextPromptId + 1;
    }

    /** The UPDATE of a prompt row. A NULL name or content violates NOT NULL
        on a row that matches, so the statement fails and changes nothing. */
    method UpdatePrompt(id: int, name: Option<string>, content: Option<string>) returns (ok: bool)
      requires Valid()
      modifies this
      ensures Valid()
      ensures ok <==> (name.Some? && content.Some?) || (forall p :: p in old(prompts) ==> p.id != id)
      ensures ok && name.Some? && content.Some? ==> prompts == SetPromptFields(old(prompts), id, name.value, content.value)
      ensures !(ok && name.Some? && content.Some?) ==> prompts == old(prompts)
      ensures projects == old(projects) && messages == old(messages) && files == old(files)
      ensures nextProjectId == old(nextProjectId) && nextPromptId == old(nextPromptId)
      ensures nextMessageId == old(nextMessageId) && nextFileId == old(nextFileId)
    {
      ok := (name.Some? && content.Some?) || (forall p :: p in prompts ==> p.id != id);
      if ok && name.Some? && content.Some? {
        var before := prompts;
        prompts := SetPromptFields(prompts, id, name.value, content.value);
        SetPromptFieldsIncreasing(before, id, name.value, content.value);
        assert forall i :: 0 <= i < |prompts| ==> PromptProject(prompts[i]) == PromptProject(before[i]);
      }
    }

    /** `DELETE FROM prompts WHERE id = ?`. */
    method DeletePrompt(id: int)
      requires Valid()
      modifies this
      ensures Valid()
      ensures prompts == RemoveById(old(prompts), PromptKey, id)
      ensures projects == old(projects) && messages == old(messages) && files == old(files)
      ensures nextProjectId == old(nextProjectId) && nextPromptId == old(nextPromptId)
      ensures nextMessageId == old(nextMessageId) && nextFileId == old(nextFileId)
    {
      FilterIncreasing(prompts, KeyIsNot(PromptKey, id), PromptKey);
      FilterAllBelow(prompts, KeyIsNot(PromptKey, id), PromptKey, nextPromptId);
      DeleteKeepsParents(prompts, PromptProject, KeyIsNot(PromptKey, id), projects);
      prompts := RemoveById(prompts, PromptKey, id);
    }

    /** `INSERT INTO chat_messages (project_id, user_id, role, content) VALUES (?, ?, ?, ?)`;
        the foreign key demands an existing project. */
    method InsertMessage(projectId: int, userId: int, role: Role, content: string) returns (id: int)
      requires Valid()
      requires HasProject(projects, projectId)
      modifies this
      ensures Valid()
      ensures id == old(nextMessageId) && nextMessageId == id + 1
      ensures messages == old(messages) + [ChatMessage(id, projectId, userId, role, content)]
      ensures projects == old(projects) && prompts == old(prompts) && files == old(files)
      ensures nextProjectId == old(nextProjectId) && nextPromptId == old(nextPromptId) && nextFileId == old(nextFileId)
    {
      id := nextMessageId;
      messages := messages + [ChatMessage(id, projectId, userId, role, content)];
      nextMessageId := nextMessageId + 1;
    }
  }

  /** The project delete with its cascade keeps the tables valid. */
  lemma CascadeValid(projects: seq<Project>, prompts: seq<Prompt>, messages: seq<ChatMessage>, files: seq<ProjectFile>,
                     nextProjectId: int, nextPromptId: int, nextMessageId: int, nextFileId: int, id: int, userId: int)
    requires TablesValid(projects, prompts, messages, files, nextProjectId, nextPromptId, nextMessageId, nextFileId)
    ensures Owns(projects, id, userId) ==>
      TablesValid(Filter(projects, ProjectRowIsNot(id, userId)),
                  Filter(prompts, KeyIsNot(PromptProject, id)),
                  Filter(messages, KeyIsNot(MessageProject, id)),
                  Filter(files, KeyIsNot(FileProject, id)),
                  nextProjectId, nextPromptId, nextMessageId, nextFileId)
    ensures !Owns(projects, id, userId) ==>
      TablesValid(Filter(projects, ProjectRowIsNot(id, userId)), prompts, messages, files,
                  nextProjectId, nextPromptId, nextMessageId, nextFileId)
  {
    SurvivingParents(projects, id, userId);
    FilterIncreasing(projects, ProjectRowIsNot(id, userId), ProjectKey);
    FilterAllBelow(projects, ProjectRowIsNot(id, userId), ProjectKey, nextProjectId);
    CascadeKeepsParents(prompts, PromptProject, projects, id, userId);
    CascadeKeepsParents(messages, MessageProject, projects, id, userId);
    CascadeKeepsParents(files, FileProject, projects, id, userId);
    FilterIncreasing(prompts, KeyIsNot(PromptProject, id), PromptKey);
    FilterIncreasing(messages, KeyIsNot(MessageProject, id), MessageKey);
    FilterIncreasing(files, KeyIsNot(FileProject, id), FileKey);
    FilterAllBelow(prompts, KeyIsNot(PromptProject, id), PromptKey, nextPromptId);
    FilterAllBelow(messages, KeyIsNot(MessageProject, id), MessageKey, nextMessageId);
    FilterAllBelow(files, KeyIsNot(FileProject, id), FileKey, nextFileId);
  }

  /** Removing a project that was not there changes nothing; otherwise every
      other project survives. */
  lemma SurvivingParents(projects: seq<Project>, id: int, userId: int)
    ensures forall q :: HasProject(projects, q) && q != id ==> HasProject(Filter(projects, ProjectRowIsNot(id, userId)), q)
    ensures !Owns(projects, id, userId) ==> Filter(projects, ProjectRowIsNot(id, userId)) == projects
  {
    var keep := ProjectRowIsNot(id, userId);
    FilterMembers(projects, keep);
    forall q | HasProject(projects, q) && q != id
      ensures HasProject(Filter(projects, keep), q)
    {
      var p :| p in projects && p.id == q;
      var i :| 0 <= i < |projects| && projects[i] == p;
      assert keep(projects[i]);
    }
    if !Owns(projects, id, userId) {
      forall i | 0 <= i < |projects| ensures keep(projects[i]) {
        assert projects[i] in projects;
      }
      FilterAll(projects, keep);
    }
  }

  /** The cascade removes exactly the children of the deleted project, so the
      foreign key still holds for the rows that remain. */
  lemma CascadeKeepsParents<C>(children: seq<C>, parent: C -> int, projects: seq<Project>, id: int, userId: int)
    requires ParentsExist(children, parent, projects)
    ensures ParentsExist(Filter(children, KeyIsNot(parent, id)), parent, Filter(projects, ProjectRowIsNot(id, userId)))
  {
    var kept := Filter(children, KeyIsNot(parent, id));
    SurvivingParents(projects, id, userId);
    forall i | 0 <= i < |kept|
      ensures HasProject(Filter(projects, ProjectRowIsNot(id, userId)), parent(kept[i]))
    {
      FilterElement(children, KeyIsNot(parent, id), i);
      var j :| 0 <= j < |children| && children[j] == kept[i];
      assert HasProject(projects, parent(children[j]));
    }
  }

  lemma ParentsStayExisting<C>(children: seq<C>, parent: C -> int, before: seq<Project>, after: seq<Project>)
    requires ParentsExist(children, parent, before)
    requires forall q :: HasProject(before, q) ==> HasProject(after, q)
    ensures ParentsExist(children, parent, after)
  {
  }

  /** Deleting child rows keeps the foreign key of the rows that remain. */
  lemma DeleteKeepsParents<C>(children: seq<C>, parent: C -> int, keep: C -> bool, projects: seq<Project>)
    requires ParentsExist(children, parent, projects)
    ensures ParentsExist(Filter(children, keep), parent, projects)
  {
    var f := Filter(children, keep);
    forall i | 0 <= i < |f| ensures HasProject(projects, parent(f[i])) {
      FilterElement(children, keep, i);
      var j :| 0 <= j < |children| && children[j] == f[i];
    }
  }
}
