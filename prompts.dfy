/** The prompt routes (backend/routes/prompts.js). Every route is gated on
    the caller owning the prompt's project; the reads are filtered, ordered
    selects and the writes are single INSERT, UPDATE or DELETE statements.
    Which prompt is active for the chat turn follows from what each write
    touches: nothing here changes `created_at`. */
module Prompts {
  import opened Seqs
  import opened Http
  import opened Schema
  import opened Chat

  /** The INNER JOIN guard: the prompt exists and its project belongs to the caller. */
  predicate PromptOwned(projects: seq<Project>, prompts: seq<Prompt>, userId: int, id: int)
  {
    exists p :: p in prompts && p.id == id && Owns(projects, p.projectId, userId)
  }

  /** `SELECT ... FROM prompts p INNER JOIN projects pr ON p.project_id = pr.id
      WHERE p.id = ? AND pr.user_id = ?`, first row. */
  function FindOwnedPrompt(projects: seq<Project>, prompts: seq<Prompt>, userId: int, id: int): (r: Option<Prompt>)
    ensures r.None? <==> !PromptOwned(projects, prompts, userId, id)
    ensures r.Some? ==> r.value in prompts && r.value.id == id && Owns(projects, r.value.projectId, userId)
  {
    if |prompts| == 0 then None
    else if prompts[0].id == id && Owns(projects, prompts[0].projectId, userId) then Some(prompts[0])
    else FindOwnedPrompt(projects, prompts[1..], userId, id)
  }

  /** GET `/project/:projectId`: the project's prompts, newest first. */
  function ListPrompts(projects: seq<Project>, prompts: seq<Prompt>, userId: int, projectId: int): (r: Response<seq<Prompt>>)
    ensures !Owns(projects, projectId, userId) ==> r == Failure(NotFound)
    ensures Owns(projects, projectId, userId) ==> r.Success?
    ensures r.Success? ==> forall p :: p in r.value <==> p in prompts && p.projectId == projectId
    ensures r.Success? && Increasing(prompts, PromptKey) ==>
      forall i, j :: 0 <= i < j < |r.value| ==> r.value[i].id > r.value[j].id
  {
    if !Owns(projects, projectId, userId) then Failure(NotFound)
    else
      var own := PromptsOf(prompts, projectId);
      FilterIncreasingWhenSorted(prompts, projectId);
      PromptsOfMembers(prompts, projectId);
      ReversedMembers(own);
      Success(Reversed(own))
  }

  lemma FilterIncreasingWhenSorted(prompts: seq<Prompt>, projectId: int)
    ensures Increasing(prompts, PromptKey) ==> Increasing(PromptsOf(prompts, projectId), PromptKey)
  {
    if Increasing(prompts, PromptKey) {
      FilterIncreasing(prompts, PromptInProject(projectId), PromptKey);
    }
  }

  /** GET `/:id`: one prompt, found only through a project of the caller. */
  function GetPrompt(projects: seq<Project>, prompts: seq<Prompt>, userId: int, id: int): (r: Response<Prompt>)
    ensures r.Success? <==> PromptOwned(projects, prompts, userId, id)
    ensures r.Failure? ==> r.status == NotFound
    ensures r.Success? ==> r.value in prompts && r.value.id == id && Owns(projects, r.value.projectId, userId)
  {
    match FindOwnedPrompt(projects, prompts, userId, id)
    case None => Failure(NotFound)
    case Some(p) => Success(p)
  }

  /** POST `/`: validates the body, checks ownership, inserts the row and
      returns it as re-read by id. */
  method CreatePrompt(db: Database, userId: int, projectId: Option<int>, name: Option<string>, content: Option<string>)
    returns (r: Response<Prompt>)
    requires db.Valid()
    modifies db
    ensures db.Valid()
    ensures db.projects == old(db.projects) && db.messages == old(db.messages) && db.files == old(db.files)
    ensures !(TruthyId(projectId) && TruthyText(name) && TruthyText(content)) ==>
      r == Failure(BadRequest) && db.prompts == old(db.prompts)
    ensures TruthyId(projectId) && TruthyText(name) && TruthyText(content) && !Owns(old(db.projects), projectId.value, userId) ==>
      r == Failure(NotFound) && db.prompts == old(db.prompts)
    ensures TruthyId(projectId) && TruthyText(name) && TruthyText(content) && Owns(old(db.projects), projectId.value, userId) ==>
      var row := Prompt(old(db.nextPromptId), projectId.value, name.value, content.value);
      db.prompts == old(db.prompts) + [row] && r == Success(row)
    ensures db.nextPromptId == old(db.nextPromptId) + (if r.Success? then 1 else 0)
    ensures db.nextProjectId == old(db.nextProjectId) && db.nextMessageId == old(db.nextMessageId)
    ensures db.nextFileId == old(db.nextFileId)
  {
    if !(TruthyId(projectId) && TruthyText(name) && TruthyText(content)) {
      return Failure(BadRequest);
    }
    if !Owns(db.projects, projectId.value, userId) {
      return Failure(NotFound);
    }
    var id := db.InsertPrompt(projectId.value, name.value, content.value);
    var row := Prompt(id, projectId.value, name.value, content.value);
    FindInserted(old(db.prompts), row);
    var found := FindByKey(db.prompts, PromptKey, id);
    r := Success(found.value);
  }

  /** Re-reading by the id just issued finds exactly the inserted row. */
  lemma FindInserted(prompts: seq<Prompt>, row: Prompt)
    requires AllBelow(prompts, PromptKey, row.id)
    ensures FindByKey(prompts + [row], PromptKey, row.id) == Some(row)
  {
    var s := prompts + [row];
    assert row in s;
    var found := FindByKey(s, PromptKey, row.id);
    var k :| 0 <= k < |s| && s[k] == found.value;
    assert forall j :: 0 <= j < |prompts| ==> s[j].id != row.id;
    assert k == |prompts|;
  }

  /** PUT `/:id`: sets name and content without validating them. A missing
      value is refused only by the NOT NULL constraint, as a storage error. */
  method UpdatePrompt(db: Database, userId: int, id: int, name: Option<string>, content: Option<string>)
    returns (r: Response<Prompt>)
    requires db.Valid()
    modifies db
    ensures db.Valid()
    ensures db.projects == old(db.projects) && db.messages == old(db.messages) && db.files == old(db.files)
    ensures !PromptOwned(old(db.projects), old(db.prompts), userId, id) ==>
      r == Failure(NotFound) && db.prompts == old(db.prompts)
    ensures PromptOwned(old(db.projects), old(db.prompts), userId, id) && !(name.Some? && content.Some?) ==>
      r == Failure(StorageError) && db.prompts == old(db.prompts)
    ensures PromptOwned(old(db.projects), old(db.prompts), userId, id) && name.Some? && content.Some? ==>
      && db.prompts == SetPromptFields(old(db.prompts), id, name.value, content.value)
      && r.Success?
      && exists p :: p in old(db.prompts) && p.id == id && r.value == p.(name := name.value, content := content.value)
    ensures db.nextProjectId == old(db.nextProjectId) && db.nextPromptId == old(db.nextPromptId)
    ensures db.nextMessageId == old(db.nextMessageId) && db.nextFileId == old(db.nextFileId)
  {
    var owned := FindOwnedPrompt(db.projects, db.prompts, userId, id);
    if owned.None? {
      return Failure(NotFound);
    }
    ghost var before := db.prompts;
    var ok := db.UpdatePrompt(id, name, content);
    if !ok {
      return Failure(StorageError);
    }
    var p := owned.value;
    ghost var i :| 0 <= i < |before| && before[i] == p;
    assert db.prompts[i] == p.(name := name.value, content := content.value);
    var found := FindByKey(db.prompts, PromptKey, id);
    UniqueKeys(db.prompts, PromptKey, i, found.value);
    r := Success(found.value);
  }

  /** Updating a row by its unique id replaces that row, in any selection of
      the table's rows. */
  lemma UpdateIsReplace(prompts: seq<Prompt>, i: nat, name: string, content: string, rows: seq<Prompt>)
    requires Increasing(prompts, PromptKey)
    requires i < |prompts|
    requires forall k :: 0 <= k < |rows| ==> rows[k] in prompts
    ensures var p := prompts[i];
      SetPromptFields(rows, p.id, name, content) == ReplaceById(rows, PromptKey, p.id, p.(name := name, content := content))
  {
    var p := prompts[i];
    forall k | 0 <= k < |rows| && rows[k].id == p.id ensures rows[k] == p {
      UniqueKeys(prompts, PromptKey, i, rows[k]);
    }
  }

  /** DELETE `/:id`: removes exactly the owned prompt. */
  method DeletePrompt(db: Database, userId: int, id: int) returns (r: Response<()>)
    requires db.Valid()
    modifies db
    ensures db.Valid()
    ensures db.projects == old(db.projects) && db.messages == old(db.messages) && db.files == old(db.files)
    ensures !PromptOwned(old(db.projects), old(db.prompts), userId, id) ==>
      r == Failure(NotFound) && db.prompts == old(db.prompts)
    ensures PromptOwned(old(db.projects), old(db.prompts), userId, id) ==>
      && r == Success(())
      && db.prompts == RemoveById(old(db.prompts), PromptKey, id)
      && |db.prompts| == |old(db.prompts)| - 1
    ensures db.nextProjectId == old(db.nextProjectId) && db.nextPromptId == old(db.nextPromptId)
    ensures db.nextMessageId == old(db.nextMessageId) && db.nextFileId == old(db.nextFileId)
  {
    var owned := FindOwnedPrompt(db.projects, db.prompts, userId, id);
    if owned.None? {
      return Failure(NotFound);
    }
    ghost var i :| 0 <= i < |db.prompts| && db.prompts[i] == owned.value;
    RemoveByIdExactlyOne(db.prompts, PromptKey, i);
    db.DeletePrompt(id);
    r := Success(());
  }

  /** A newly created prompt becomes the active one of its project; other
      projects keep theirs. */
  lemma CreatedPromptBecomesActive(prompts: seq<Prompt>, row: Prompt)
    ensures ActivePrompt(prompts + [row], row.projectId) == Some(row)
    ensures forall q :: q != row.projectId ==> ActivePrompt(prompts + [row], q) == ActivePrompt(prompts, q)
  {
    FilterSnoc(prompts, row, PromptInProject(row.projectId));
    forall q | q != row.projectId
      ensures ActivePrompt(prompts + [row], q) == ActivePrompt(prompts, q)
    {
      FilterSnoc(prompts, row, PromptInProject(q));
    }
  }

  /** The rows of one project, after an UPDATE by id, are that project's rows
      with the same UPDATE applied. */
  lemma PromptsOfUpdated(prompts: seq<Prompt>, id: int, name: string, content: string, projectId: int)
    ensures PromptsOf(SetPromptFields(prompts, id, name, content), projectId)
      == SetPromptFields(PromptsOf(prompts, projectId), id, name, content)
  {
    var f := PromptWithFields(id, name, content);
    var own := PromptsOf(prompts, projectId);
    assert SetPromptFields(prompts, id, name, content) == Map(prompts, f);
    assert SetPromptFields(own, id, name, content) == Map(own, f);
    FilterMap(prompts, f, PromptInProject(projectId));
  }

  /** Deleting by id and selecting by project commute. */
  lemma PromptsOfRemoved(prompts: seq<Prompt>, id: int, projectId: int)
    ensures PromptsOf(RemoveById(prompts, PromptKey, id), projectId) == RemoveById(PromptsOf(prompts, projectId), PromptKey, id)
  {
    FilterCommute(prompts, KeyIsNot(PromptKey, id), PromptInProject(projectId));
  }

  /** Editing a prompt never changes which prompt is active: the same row
      stays active, with the new fields if it was the one edited. */
  lemma UpdateKeepsActivePrompt(prompts: seq<Prompt>, id: int, name: string, content: string, projectId: int)
    ensures var before := ActivePrompt(prompts, projectId);
      var after := ActivePrompt(SetPromptFields(prompts, id, name, content), projectId);
      && (after.Some? <==> before.Some?)
      && (after.Some? ==> after.value.id == before.value.id && after.value.projectId == before.value.projectId)
      && (after.Some? && before.value.id == id ==> after.value.name == name && after.value.content == content)
      && (after.Some? && before.value.id != id ==> after.value == before.value)
  {
    PromptsOfUpdated(prompts, id, name, content, projectId);
    var own := PromptsOf(prompts, projectId);
    var own' := SetPromptFields(own, id, name, content);
    if |own| > 0 {
      assert Last(own') == own'[|own| - 1];
    }
  }

  /** Deleting the active prompt makes the next-newest prompt of the project
      active, or none if it was the only one. */
  lemma DeleteActivePrompt(prompts: seq<Prompt>, projectId: int)
    requires Increasing(prompts, PromptKey)
    requires HasPrompt(prompts, projectId)
    ensures var own := PromptsOf(prompts, projectId);
      var after := ActivePrompt(RemoveById(prompts, PromptKey, ActivePrompt(prompts, projectId).value.id), projectId);
      after == (if |own| > 1 then Some(own[|own| - 2]) else None)
  {
    var own := PromptsOf(prompts, projectId);
    PromptsOfMembers(prompts, projectId);
    assert |own| > 0;
    PromptsOfRemoved(prompts, Last(own).id, projectId);
    FilterIncreasing(prompts, PromptInProject(projectId), PromptKey);
    RemoveLastKey(own, PromptKey);
  }

  /** Deleting any prompt other than the active one keeps the active one. */
  lemma DeleteOtherPrompt(prompts: seq<Prompt>, id: int, projectId: int)
    requires HasPrompt(prompts, projectId)
    requires ActivePrompt(prompts, projectId).value.id != id
    ensures ActivePrompt(RemoveById(prompts, PromptKey, id), projectId) == ActivePrompt(prompts, projectId)
  {
    var own := PromptsOf(prompts, projectId);
    PromptsOfRemoved(prompts, id, projectId);
    RemoveKeepsLast(own, PromptKey, id);
  }
}
