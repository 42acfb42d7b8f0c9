/** The project routes (backend/routes/projects.js). Every statement is
    filtered by the caller's user id, so a caller reads and changes only their
    own projects; deleting a project cascades to its prompts, chat messages
    and files. */
module Projects {
  import opened Seqs
  import opened Http
  import opened Schema

  function OwnedBy(userId: int): Project -> bool
  {
    (p: Project) => p.userId == userId
  }

  /** `SELECT ... FROM projects WHERE user_id = ?`, oldest first. */
  function ProjectsOf(projects: seq<Project>, userId: int): (r: seq<Project>)
    ensures forall i :: 0 <= i < |r| ==> r[i].userId == userId
  {
    Filter(projects, OwnedBy(userId))
  }

  /** GET `/`: the caller's projects, newest first. */
  function ListProjects(projects: seq<Project>, userId: int): (r: seq<Project>)
    ensures forall p :: p in r <==> p in projects && p.userId == userId
    ensures Increasing(projects, ProjectKey) ==> forall i, j :: 0 <= i < j < |r| ==> r[i].id > r[j].id
  {
    var own := ProjectsOf(projects, userId);
    FilterMembers(projects, OwnedBy(userId));
    ReversedMembers(own);
    OwnIncreasing(projects, userId);
    Reversed(own)
  }

  lemma OwnIncreasing(projects: seq<Project>, userId: int)
    ensures Increasing(projects, ProjectKey) ==> Increasing(ProjectsOf(projects, userId), ProjectKey)
  {
    if Increasing(projects, ProjectKey) {
      FilterIncreasing(projects, OwnedBy(userId), ProjectKey);
    }
  }

  /** `SELECT ... FROM projects WHERE id = ? AND user_id = ?`, first row. */
  function FindOwnedProject(projects: seq<Project>, id: int, userId: int): (r: Option<Project>)
    ensures r.None? <==> !Owns(projects, id, userId)
    ensures r.Some? ==> r.value in projects && r.value.id == id && r.value.userId == userId
  {
    if |projects| == 0 then None
    else if projects[0].id == id && projects[0].userId == userId then Some(projects[0])
    else FindOwnedProject(projects[1..], id, userId)
  }

  /** GET `/:id`: found only when both the id and the owner match. */
  function GetProject(projects: seq<Project>, userId: int, id: int): (r: Response<Project>)
    ensures r.Success? <==> Owns(projects, id, userId)
    ensures r.Failure? ==> r.status == NotFound
    ensures r.Success? ==> r.value in projects && r.value.id == id && r.value.userId == userId
  {
    match FindOwnedProject(projects, id, userId)
    case None => Failure(NotFound)
    case Some(p) => Success(p)
  }

  /** POST `/`: a name is required; a falsy description is stored as NULL.
      The new row is returned as re-read by its id. */
  method CreateProject(db: Database, userId: int, name: Option<string>, description: Option<string>)
    returns (r: Response<Project>)
    requires db.Valid()
    modifies db
    ensures db.Valid()
    ensures db.prompts == old(db.prompts) && db.messages == old(db.messages) && db.files == old(db.files)
    ensures !TruthyText(name) ==> r == Failure(BadRequest) && db.projects == old(db.projects)
    ensures TruthyText(name) ==>
      var row := Project(old(db.nextProjectId), userId, name.value, OrNull(description));
      db.projects == old(db.projects) + [row] && r == Success(row)
    ensures db.nextProjectId == old(db.nextProjectId) + (if r.Success? then 1 else 0)
    ensures db.nextPromptId == old(db.nextPromptId) && db.nextMessageId == old(db.nextMessageId)
    ensures db.nextFileId == old(db.nextFileId)
  {
    if !TruthyText(name) {
      return Failure(BadRequest);
    }
    var id := db.InsertProject(userId, name.value, OrNull(description));
    var row := Project(id, userId, name.value, OrNull(description));
    ghost var last := |db.projects| - 1;
    assert db.projects[last] == row;
    var found := FindByKey(db.projects, ProjectKey, id);
    ghost var k :| 0 <= k < |db.projects| && db.projects[k] == found.value;
    assert forall j :: 0 <= j < last ==> db.projects[j].id < id;
    assert k == last;
    r := Success(found.value);
  }

  /** PUT `/:id`: sets the name without validating it and the description,
      NULL when falsy. A missing name is refused only by the NOT NULL
      constraint, as a storage error. */
  method UpdateProject(db: Database, userId: int, id: int, name: Option<string>, description: Option<string>)
    returns (r: Response<Project>)
    requires db.Valid()
    modifies db
    ensures db.Valid()
    ensures db.prompts == old(db.prompts) && db.messages == old(db.messages) && db.files == old(db.files)
    ensures !Owns(old(db.projects), id, userId) ==> r == Failure(NotFound) && db.projects == old(db.projects)
    ensures Owns(old(db.projects), id, userId) && name.None? ==> r == Failure(StorageError) && db.projects == old(db.projects)
    ensures Owns(old(db.projects), id, userId) && name.Some? ==>
      && db.projects == SetProjectFields(old(db.projects), id, userId, name.value, OrNull(description))
      && r == Success(Project(id, userId, name.value, OrNull(description)))
    ensures db.nextProjectId == old(db.nextProjectId) && db.nextPromptId == old(db.nextPromptId)
    ensures db.nextMessageId == old(db.nextMessageId) && db.nextFileId == old(db.nextFileId)
  {
    var owned := FindOwnedProject(db.projects, id, userId);
    if owned.None? {
      return Failure(NotFound);
    }
    ghost var before := db.projects;
    ghost var i :| 0 <= i < |before| && before[i] == owned.value;
    var ok := db.UpdateProject(id, userId, name, OrNull(description));
    if name.None? {
      return Failure(StorageError);
    }
    assert db.projects[i] == Project(id, userId, name.value, OrNull(description));
    var found := FindByKey(db.projects, ProjectKey, id);
    UniqueKeys(db.projects, ProjectKey, i, found.value);
    r := Success(found.value);
  }

  /** DELETE `/:id`: removes the caller's project and, by cascade, its rows in
      every child table. */
  method DeleteProject(db: Database, userId: int, id: int) returns (r: Response<()>)
    requires db.Valid()
    modifies db
    ensures db.Valid()
    ensures !Owns(old(db.projects), id, userId) ==>
      && r == Failure(NotFound)
      && db.projects == old(db.projects) && db.prompts == old(db.prompts)
      && db.messages == old(db.messages) && db.files == old(db.files)
    ensures Owns(old(db.projects), id, userId) ==>
      && r == Success(())
      && db.projects == Filter(old(db.projects), ProjectRowIsNot(id, userId))
      && |db.projects| == |old(db.projects)| - 1
      && db.prompts == Filter(old(db.prompts), KeyIsNot(PromptProject, id))
      && db.messages == Filter(old(db.messages), KeyIsNot(MessageProject, id))
      && db.files == Filter(old(db.files), KeyIsNot(FileProject, id))
    ensures db.nextProjectId == old(db.nextProjectId) && db.nextPromptId == old(db.nextPromptId)
    ensures db.nextMessageId == old(db.nextMessageId) && db.nextFileId == old(db.nextFileId)
    ensures NoSystemRows(old(db.messages)) ==> NoSystemRows(db.messages)
  {
    var owned := FindOwnedProject(db.projects, id, userId);
    if owned.None? {
      return Failure(NotFound);
    }
    ghost var i :| 0 <= i < |db.projects| && db.projects[i] == owned.value;
    DeleteRemovesOneProject(db.projects, id, userId, i);
    if NoSystemRows(db.messages) {
      DeleteKeepsNoSystemRows(db.messages, KeyIsNot(MessageProject, id));
    }
    db.DeleteProject(id, userId);
    r := Success(());
  }

  /** With unique ids, the owner-scoped DELETE removes exactly the one row. */
  lemma DeleteRemovesOneProject(projects: seq<Project>, id: int, userId: int, i: nat)
    requires Increasing(projects, ProjectKey)
    requires i < |projects| && projects[i].id == id && projects[i].userId == userId
    ensures Filter(projects, ProjectRowIsNot(id, userId)) == projects[..i] + projects[i + 1..]
    ensures |Filter(projects, ProjectRowIsNot(id, userId))| == |projects| - 1
  {
    forall j | 0 <= j < |projects| && j != i
      ensures ProjectRowIsNot(id, userId)(projects[j])
    {
      assert ProjectKey(projects[j]) != ProjectKey(projects[i]);
    }
    FilterDropsExactlyOne(projects, ProjectRowIsNot(id, userId), i);
  }

  /** A project update by one user leaves every other user's project list as it was. */
  lemma UpdateIsolated(projects: seq<Project>, id: int, userId: int, name: string, description: Option<string>, other: int)
    requires other != userId
    ensures ListProjects(SetProjectFields(projects, id, userId, name, description), other) == ListProjects(projects, other)
  {
    var f := ProjectWithFields(id, userId, name, description);
    assert SetProjectFields(projects, id, userId, name, description) == Map(projects, f);
    FilterMap(projects, f, OwnedBy(other));
    var own := ProjectsOf(projects, other);
    assert Map(own, f) == own;
  }

  /** A project created by one user does not appear in any other user's list. */
  lemma CreateIsolated(projects: seq<Project>, row: Project, other: int)
    requires other != row.userId
    ensures ListProjects(projects + [row], other) == ListProjects(projects, other)
  {
    FilterSnoc(projects, row, OwnedBy(other));
  }

  /** A project deleted by one user leaves every other user's project list as it was. */
  lemma DeleteIsolated(projects: seq<Project>, id: int, userId: int, other: int)
    requires other != userId
    ensures ListProjects(Filter(projects, ProjectRowIsNot(id, userId)), other) == ListProjects(projects, other)
  {
    FilterCommute(projects, ProjectRowIsNot(id, userId), OwnedBy(other));
    var own := ProjectsOf(projects, other);
    forall j | 0 <= j < |own| ensures ProjectRowIsNot(id, userId)(own[j]) {
    }
    FilterAll(own, ProjectRowIsNot(id, userId));
  }

  /** The cascade takes away every prompt of the deleted project and no
      prompt of any other project. */
  lemma CascadePrompts(prompts: seq<Prompt>, id: int, projectId: int)
    ensures PromptsOf(Filter(prompts, KeyIsNot(PromptProject, id)), projectId)
      == if projectId == id then [] else PromptsOf(prompts, projectId)
  {
    FilterCommute(prompts, KeyIsNot(PromptProject, id), PromptInProject(projectId));
    var own := PromptsOf(prompts, projectId);
    if projectId == id {
      FilterNone(own, KeyIsNot(PromptProject, id));
    } else {
      FilterAll(own, KeyIsNot(PromptProject, id));
    }
  }

  /** The cascade takes away every chat message of the deleted project and no
      message of any other project. */
  lemma CascadeMessages(messages: seq<ChatMessage>, id: int, projectId: int)
    ensures MessagesOf(Filter(messages, KeyIsNot(MessageProject, id)), projectId)
      == if projectId == id then [] else MessagesOf(messages, projectId)
  {
    FilterCommute(messages, KeyIsNot(MessageProject, id), MessageInProject(projectId));
    var own := MessagesOf(messages, projectId);
    if projectId == id {
      FilterNone(own, KeyIsNot(MessageProject, id));
    } else {
      FilterAll(own, KeyIsNot(MessageProject, id));
    }
  }

  /** The cascade takes away every file of the deleted project and no file of
      any other project. */
  lemma CascadeFiles(files: seq<ProjectFile>, id: int, projectId: int)
    ensures Filter(Filter(files, KeyIsNot(FileProject, id)), FileInProject(projectId))
      == if projectId == id then [] else Filter(files, FileInProject(projectId))
  {
    FilterCommute(files, KeyIsNot(FileProject, id), FileInProject(projectId));
    var own := Filter(files, FileInProject(projectId));
    if projectId == id {
      FilterNone(own, KeyIsNot(FileProject, id));
    } else {
      forall i | 0 <= i < |own| ensures KeyIsNot(FileProject, id)(own[i]) {
        assert FileInProject(projectId)(own[i]);
        assert FileProject(own[i]) == own[i].projectId;
      }
      FilterAll(own, KeyIsNot(FileProject, id));
    }
  }
}
