# Project chat platform: routes and project page

This project models the core of a chatbot platform in Dafny. Users own projects. A project holds prompts and a chat history. Each chat turn sends the project's newest prompt as a `system` message, the ten newest stored messages and the new user text to a completion endpoint. It stores both the user text and the reply.

The model covers four parts:

- **Chat routes** (`Chat`). The chat turn: validation, the ownership check, the two queries, and the message list built by reversing the history in place and pushing each row. It also covers the user and assistant inserts around the completion call, and the history read.
- **Prompt routes** (`Prompts`). List, get, create, update and delete, all scoped to the caller's projects. It also states which prompt each write leaves active.
- **Project routes** (`Projects`). List, get, create, update and delete, all scoped by the owning user id. Delete cascades into prompts, chat messages and files.
- **Project page** (`ProjectDetail`). The component state of the web client. This covers the optimistic send (temp message, replace on success, remove on failure) and the prompt and file list updates after each request.

Supporting modules:

- `Seqs` holds sequence helpers: filter, map, reverse, take, remove-by-id and replace-by-id, with their algebra.
- `Http` holds request-layer values: optional body fields, JavaScript truthiness, responses and status codes.
- `Schema` holds the relational store as a `Database` class. Each table is a `seq` of rows in insertion order. It has AUTO_INCREMENT counters and an invariant: ids strictly increase, they stay below the counter, and foreign keys hold.

The model rests on these choices:

- **Order.** Insertion order stands for `created_at` order, so every `ORDER BY created_at` is read as insertion order.
- **Completion endpoint.** The endpoint is a function parameter from the request (model name and message list) to an optional reply. `None` stands for any failure of the call or of reading `choices[0].message.content`.
- **Client state.** The client's requests are represented by the replies they receive.
- **Client ids.** Each `Date.now()` read is passed in as its own argument: the one naming the temp message, and the two read for the user message and the reply after a successful send.

## Model

| member | source | states |
|---|---|---|
| Http.Code | backend/server.js:59-60 | 400 for a bad request and 404 for a missing resource. Every thrown error gets 500, which covers both upstream and storage failures. |
| Http.OrNull | backend/routes/projects.js:52 | The stored description is NULL exactly when the field is falsy, and is the field itself otherwise. |
| Http.TruthyText | backend/routes/chat.js:16 | Definition: a text field passes `!value` exactly when it is present and not the empty string. |
| Http.TruthyId | backend/routes/prompts.js:59 | Definition: a numeric field passes `!value` exactly when it is present and not 0. |
| Schema.Owns | backend/routes/chat.js:21-24 | Definition: the ownership SELECT by id and user id returns a row exactly when the table holds a project with that id and owner. It gates the chat turn and the history read (backend/routes/chat.js:21, 117), the prompt list and create (backend/routes/prompts.js:13, 64), and the project update and delete (backend/routes/projects.js:75, 107). |
| Schema.PromptsOf | backend/routes/prompts.js:22-25 | Every row selected by `project_id` belongs to that project. |
| Schema.PromptsOfMembers | backend/routes/prompts.js:22-25 | A row is selected exactly when it is in the table and belongs to that project. |
| Schema.MessagesOf | backend/routes/chat.js:37-43 | Every row selected by `project_id` belongs to that project. |
| Schema.MessagesOfMembers | backend/routes/chat.js:37-43 | A row is selected exactly when it is in the table and belongs to that project. |
| Schema.SetProjectFields | backend/routes/projects.js:84-87 | The owner-scoped UPDATE changes name and description of the matching row only. Ids and owners of every row stay. |
| Schema.SetPromptFields | backend/routes/prompts.js:109-112 | The UPDATE by id changes name and content of the matching row only. Ids and projects of every row stay. |
| Schema.SetPromptFieldsIncreasing | backend/config/database.js:58-63 | An update keeps ids strictly increasing. |
| Seqs.UniqueKeys | backend/config/database.js:45-71 | With AUTO_INCREMENT ids, which strictly increase along a table, a row carrying the id of row `i` is row `i`. Used for prompts and projects alike. |
| Seqs.FindByKey | backend/routes/prompts.js:114-117 | The re-read by id (this one and the projects one at backend/routes/projects.js:89-92) finds nothing exactly when no row has that id; otherwise it finds a stored row with that id. |
| Schema.Database.constructor | backend/config/database.js:43-95 | A fresh schema has empty tables and counters at 1, and it satisfies the invariant. |
| Schema.Database.InsertProject | backend/routes/projects.js:50-53 | Appends one row with the next id and advances only that counter. The invariant is kept. |
| Schema.Database.UpdateProject | backend/routes/projects.js:84-87 | Succeeds unless a NULL name would be stored into a matching row. On success it applies SetProjectFields, and nothing else changes. |
| Schema.Database.DeleteProject | backend/routes/projects.js:116-119 | Removes the owner's row. When the row existed, the cascade removes the rows of that project from prompts, chat_messages and project_files (backend/config/database.js:64,77,92). |
| Schema.Database.InsertPrompt | backend/routes/prompts.js:73-76 | Appends one row with the next id into an existing project. The invariant is kept. |
| Schema.Database.UpdatePrompt | backend/routes/prompts.js:109-112 | Succeeds unless NULL would be stored into NOT NULL columns of a matching row. On success it applies SetPromptFields. |
| Schema.Database.DeletePrompt | backend/routes/prompts.js:143 | Removes every row with the id. The invariant is kept. |
| Schema.Database.InsertMessage | backend/routes/chat.js:68-71 | Appends one row with the next id into an existing project. The invariant is kept. |
| Schema.CascadeValid | backend/config/database.js:64-95 | The project delete with its cascade keeps ids ordered and bounded and keeps every foreign key satisfied. |
| Schema.SurvivingParents | backend/routes/projects.js:116-119 | Every other project survives the delete. Deleting a project the caller does not own changes nothing. |
| Schema.CascadeKeepsParents | backend/config/database.js:64-92 | Every child row that survives the cascade still refers to an existing project. |
| Schema.DeleteKeepsParents | backend/config/database.js:58-64 | Deleting child rows keeps the foreign key of every row that remains. |
| Schema.DeleteKeepsNoSystemRows | backend/config/database.js:77 | Deleting chat messages, as the project cascade does, leaves no `system` row where there was none. |
| Chat.LatestPromptRows | backend/routes/chat.js:31-34 | Definition: the content of the first row of the project's prompts in newest-first order, at most one row. `QueriesAssemble` relates it to `ActivePrompt`. |
| Chat.RecentHistoryRows | backend/routes/chat.js:37-43 | Definition: role and content of the first 10 rows of the project's messages in newest-first order. `QueriesAssemble` relates it to the newest window. |
| Chat.SystemEntries | backend/routes/chat.js:48-53 | Definition: one `system` entry holding the prompt row's content when the query returned a row, and none otherwise. |
| Chat.HasPromptMembers | backend/routes/chat.js:31-34 | The project has a prompt exactly when some stored prompt belongs to it. |
| Chat.ActivePrompt | backend/routes/chat.js:31-34 | A prompt is found exactly when the project has one, and it is a prompt of that project. |
| Chat.ActivePromptIsNewest | backend/routes/chat.js:31-34 | The prompt found is a stored row. With ordered ids it has the largest id among the project's prompts, so it is the newest. |
| Chat.NewestHasLargestKey | backend/routes/chat.js:31-34 | In an ordered table, the last row of a selection has the largest key of the selection. |
| Chat.Assembly | backend/routes/chat.js:30-65 | Definition of the request's message list on the tables themselves: the active prompt's `system` entry, the newest window of the project's history, then the new text as `user`. Its properties are the lemmas below. |
| Chat.SystemPart | backend/routes/chat.js:48-53 | One entry exactly when the project has a prompt, and then it is the `system` entry with the active prompt's content. |
| Chat.AssemblyShape | backend/routes/chat.js:48-65 | The list has length (0 or 1) + min(H, 10) + 1. It ends with the new text as a `user` entry, and it starts with the newest prompt as `system` when there is one. |
| Chat.AssemblySystemEntry | backend/routes/chat.js:48-53 | With no stored `system` rows, the first entry is `system` exactly when the project has a prompt, and no later entry is `system`. |
| Chat.OwnNoSystemRows | backend/routes/chat.js:37-43 | A project's history drawn from a table without `system` rows has none either. |
| Chat.WindowNoSystem | backend/routes/chat.js:37-43 | The history window drawn from a table without `system` rows holds no `system` entry. |
| Chat.AssemblyWindow | backend/routes/chat.js:37-60 | Between the prompt entry and the new text stand the newest messages of the project (at most 10, oldest first), each with its stored role and content. |
| Chat.QueriesAssemble | backend/routes/chat.js:31-65 | The two queries (newest first with LIMIT) combined as the route combines them give exactly that list. The new text is not in the window, because the history read comes before the insert. |
| Chat.TurnRows | backend/routes/chat.js:68-95 | Definition: the rows a turn appends, the user row with the first id and, only after a reply, the assistant row with the next id. |
| Chat.TurnExtendsHistory | backend/routes/chat.js:68-95 | The turn's rows become the newest rows of the project, user row first. Every other project's history is unchanged. |
| Chat.TurnLeavesOther | backend/routes/chat.js:68-95 | A turn of one project leaves the history of every other project unchanged. |
| Chat.OrphanInNextAssembly | backend/routes/chat.js:68-71 | After a failed completion, the next turn's list is the prompt entry, the 9 newest earlier messages, the orphan user row and then the next text. |
| Chat.ReplyInNextAssembly | backend/routes/chat.js:92-95 | After a successful turn, the next turn's list is the prompt entry, the 8 newest earlier messages, the user text, the reply and then the next text. |
| Chat.ReverseInPlace | backend/routes/chat.js:55 | `history.reverse()` leaves the array holding its old contents reversed. |
| Chat.BuildMessages | backend/routes/chat.js:46-65 | The pushes produce the prompt entry, then the reversed history rows, then the new text. |
| Chat.TurnRowsNoSystem | backend/routes/chat.js:68-95 | A turn writes only `user` and `assistant` rows, so a table without `system` rows keeps none. |
| Chat.PostChat | backend/routes/chat.js:11-109 | A falsy message gives 400 and an unowned project 404; neither writes a row nor calls the endpoint. Otherwise the step trace is: the user row written, then the endpoint called with the assembled list, then the assistant row only after a reply; `nextMessageId` advances by 1 or 2 and no other counter moves. On success the assistant row follows and the reply is returned; on failure no assistant row is written and the outcome is an error. No `system` row is ever written. |
| Chat.EffectiveLimit | backend/routes/chat.js:115 | NaN or 0 gives 50, and any other parsed value is kept. |
| Chat.GetHistory | backend/routes/chat.js:112-139 | 404 unless the project is owned. Otherwise it returns the oldest `limit` messages of the project in ascending order. A negative limit is a storage error. |
| Chat.TurnVisibleInHistory | backend/routes/chat.js:126-133 | A turn's user row appears in a later history read exactly when the project held fewer than `limit` messages before the turn. |
| Prompts.PromptOwned | backend/routes/prompts.js:98-103 | Definition: the INNER JOIN guard, a prompt with that id whose project belongs to the caller. |
| Prompts.FindOwnedPrompt | backend/routes/prompts.js:98-103 | The join finds a row exactly when the prompt exists and its project belongs to the caller. |
| Prompts.ListPrompts | backend/routes/prompts.js:10-31 | 404 unless the project is owned. Otherwise it returns exactly the project's prompts, with strictly decreasing ids (newest first). |
| Prompts.GetPrompt | backend/routes/prompts.js:34-52 | Success exactly when the prompt's project belongs to the caller, and then it returns that prompt. Any other outcome is 404. |
| Prompts.FindInserted | backend/routes/prompts.js:78-81 | Re-reading by the id just issued finds exactly the inserted row. |
| Prompts.CreatePrompt | backend/routes/prompts.js:55-90 | 400 if project id, name or content is falsy, and 404 if the project is not owned; neither writes a row. Otherwise exactly one row is appended and returned. `nextPromptId` advances only then, and no other counter moves. |
| Prompts.UpdatePrompt | backend/routes/prompts.js:93-126 | 404 unless owned. The values are not validated, so a missing one fails only at the NOT NULL constraint. Otherwise only that prompt's name and content change, and the row is returned with the new fields. No counter moves. |
| Prompts.UpdateIsReplace | backend/routes/prompts.js:109-112 | In any selection of rows, the UPDATE by id replaces the one row with that id. |
| Prompts.DeletePrompt | backend/routes/prompts.js:129-149 | 404 unless owned. Otherwise exactly that prompt is removed, and the table shrinks by one. No counter moves. |
| Prompts.CreatedPromptBecomesActive | backend/routes/prompts.js:73-76 | A created prompt becomes the active prompt of its project. Every other project keeps its active prompt. |
| Prompts.PromptsOfUpdated | backend/routes/prompts.js:109-112 | Selecting a project's rows after the UPDATE equals applying the UPDATE to the selection. |
| Prompts.PromptsOfRemoved | backend/routes/prompts.js:143 | Deleting by id and selecting by project commute. |
| Prompts.UpdateKeepsActivePrompt | backend/config/database.js:62-63 | Editing never changes which prompt is active, because UPDATE leaves `created_at` alone. An edited active prompt carries the new fields. |
| Prompts.DeleteActivePrompt | backend/routes/prompts.js:143 | Deleting the active prompt makes the next newest active, or none if it was the only one. |
| Prompts.DeleteOtherPrompt | backend/routes/chat.js:31-34 | Deleting any other prompt keeps the active one. |
| Projects.ProjectsOf | backend/routes/projects.js:12-15 | Every row selected by `user_id` belongs to the caller. |
| Projects.ListProjects | backend/routes/projects.js:10-21 | A project is listed exactly when it is stored and owned by the caller. The ids strictly decrease (newest first). |
| Projects.FindOwnedProject | backend/routes/projects.js:26-29 | Finds a row exactly when both id and owner match. |
| Projects.GetProject | backend/routes/projects.js:24-39 | Success exactly when both id and owner match. Any other outcome is 404. |
| Projects.CreateProject | backend/routes/projects.js:42-67 | 400 with no row when the name is falsy. Otherwise it appends one row owned by the caller, with a falsy description stored as NULL, and returns it. `nextProjectId` advances only then, and no other counter moves. |
| Projects.UpdateProject | backend/routes/projects.js:70-101 | 404 unless owned. Otherwise it sets the name, and the description (NULL when falsy), on that row only, and returns the row. A missing name fails at the NOT NULL constraint. No counter moves. |
| Projects.DeleteProject | backend/routes/projects.js:104-125 | 404 unless owned, with nothing removed. Otherwise exactly one project is removed, together with its prompts, chat messages and files. No counter moves, and a chat table without `system` rows keeps none. |
| Projects.DeleteRemovesOneProject | backend/routes/projects.js:116-119 | With unique ids, the owner-scoped DELETE removes exactly the one row. |
| Projects.UpdateIsolated | backend/routes/projects.js:85 | An update by one user leaves every other user's project list unchanged. |
| Projects.CreateIsolated | backend/routes/projects.js:51 | A project created by one user is absent from every other user's list. |
| Projects.DeleteIsolated | backend/routes/projects.js:117 | A delete by one user leaves every other user's project list unchanged. |
| Projects.CascadePrompts | backend/config/database.js:64 | The cascade removes every prompt of the deleted project and none of any other project. |
| Projects.CascadeMessages | backend/config/database.js:77 | The cascade removes every message of the deleted project and none of any other project. |
| Projects.CascadeFiles | backend/config/database.js:92 | The cascade removes every file of the deleted project and none of any other project. |
| ProjectDetail.IsWhitespace | frontend/src/pages/ProjectDetail.js:68 | Definition: the WhiteSpace and LineTerminator code points that `String.prototype.trim` removes, as the ECMAScript standard lists them. |
| ProjectDetail.SkipLeading | frontend/src/pages/ProjectDetail.js:68 | The position of the first non-whitespace character; everything before it is whitespace. |
| ProjectDetail.SkipTrailing | frontend/src/pages/ProjectDetail.js:70 | The position just after the last non-whitespace character; everything after it is whitespace. |
| ProjectDetail.Trim | frontend/src/pages/ProjectDetail.js:68-70 | Definition: the slice from the first to just past the last non-whitespace character. `TrimFacts` and `TrimIdempotent` state what it means. |
| ProjectDetail.TrimFacts | frontend/src/pages/ProjectDetail.js:68-70 | The result is empty exactly when the input is all whitespace. Otherwise it starts and ends with a non-whitespace character. It is a slice of the input with only whitespace cut away on either side. |
| ProjectDetail.TrimIdempotent | frontend/src/pages/ProjectDetail.js:70 | Trimming the trimmed text changes nothing. |
| ProjectDetail.ErrorText | frontend/src/pages/ProjectDetail.js:106 | The error text is the server's `message` when truthy, the fallback otherwise. |
| ProjectDetail.Pending | frontend/src/pages/ProjectDetail.js:82 | Definition: the temp message appended to the previous list. |
| ProjectDetail.Succeeded | frontend/src/pages/ProjectDetail.js:90-104 | Definition: the temp message filtered out by id, then the user message with id `first + 1` and the reply with id `second + 2`, from two separate clock reads. |
| ProjectDetail.Failed | frontend/src/pages/ProjectDetail.js:108 | Definition: the temp message filtered out by id. |
| ProjectDetail.FailedSendRestores | frontend/src/pages/ProjectDetail.js:82-108 | After a failed send the list equals the list before the send, when the temp id is fresh. |
| ProjectDetail.SucceededSendAppends | frontend/src/pages/ProjectDetail.js:82-104 | After a successful send the earlier messages keep their order, followed by the user message and then the reply. |
| ProjectDetail.FailedSendDiverges | frontend/src/pages/ProjectDetail.js:105-108 | After a failed completion the page shows the pre-send list, while the server's history of the project has gained the user row (backend/routes/chat.js:68-71). |
| ProjectDetail.CreateKeepsListInSync | frontend/src/pages/ProjectDetail.js:125 | Prepending the created prompt gives the server's newest-first list after the insert. |
| ProjectDetail.UpdateKeepsListInSync | frontend/src/pages/ProjectDetail.js:144 | Replacing the edited prompt by id gives the server's list after the update. |
| ProjectDetail.DeleteKeepsListInSync | frontend/src/pages/ProjectDetail.js:161 | Filtering out the deleted id gives the server's list after the delete. |
| ProjectDetail.ProjectDetailPage.constructor | frontend/src/pages/ProjectDetail.js:11-22 | Every modelled piece of state starts at its `useState` initial value. |
| ProjectDetail.ProjectDetailPage.HandleSendMessage | frontend/src/pages/ProjectDetail.js:66-112 | A no-op when the trimmed input is empty or a send is in flight. Otherwise it posts the trimmed text and clears the input. While pending, the list is the old list plus one temp user message. On success the temp message is removed and the user message and reply are appended; on failure it is removed and the error is set. `sending` ends false either way. |
| ProjectDetail.ProjectDetailPage.HandleCreatePrompt | frontend/src/pages/ProjectDetail.js:114-132 | Prepends the created prompt and closes and clears the form, or sets the error. Nothing else changes. |
| ProjectDetail.ProjectDetailPage.HandleEditPrompt | frontend/src/pages/ProjectDetail.js:168-173 | Opens the form on the given prompt. |
| ProjectDetail.ProjectDetailPage.HandleUpdatePrompt | frontend/src/pages/ProjectDetail.js:134-152 | Replaces the edited prompt by id in place and resets the form, or sets the error. With no prompt being edited, the thrown TypeError sets the fallback error. |
| ProjectDetail.ProjectDetailPage.HandleDeletePrompt | frontend/src/pages/ProjectDetail.js:154-166 | After confirmation and success, filters the prompt out by id. Otherwise nothing changes. |
| ProjectDetail.ProjectDetailPage.HandleFileUpload | frontend/src/pages/ProjectDetail.js:175-200 | With a file chosen, prepends the upload reply or sets the error, and `uploadingFile` ends false. Without a file, nothing changes. |
| ProjectDetail.ProjectDetailPage.HandleDeleteFile | frontend/src/pages/ProjectDetail.js:202-214 | After confirmation and success, filters the file out by id. Otherwise nothing changes. |

## Left out

- backend/routes/files.js is not part of this model. It covers multer, temporary files and the foreign file API. The client's file handlers take its reply as a given.
- backend/server.js is not part of this model beyond the status mapping in `Code`: Express wiring, environment checks and `listen`.
- Authentication middleware is not modelled; the caller's user id is an input.
- The completion endpoint's HTTP call and response shape are not modelled; it is a function parameter.
- Concurrency is not modelled. Requests run one at a time, and each React updater sees the state left by the previous step.
- Timestamps and ties are not modelled. `created_at` has one-second resolution and the ORDER BY clauses have no tie-breaker; insertion order is assumed. `updated_at` values are not modelled either.
- Parsing of `req.query.limit` is not modelled; `parseInt` is given as an optional integer, with `None` for NaN.
- Non-string body fields (numbers or objects where text is expected) are not modelled; body fields are optional strings, and the project id is an optional integer.
- Chat.GetHistory: returns the oldest `limit` rows, as `ORDER BY created_at ASC LIMIT ?` does. That is what the code does, although the client treats the result as the recent history.
- Schema.Database.UpdateProject, Schema.Database.UpdatePrompt: storing NULL into a NOT NULL column is assumed to fail (MySQL strict mode); a non-strict server would store an empty string instead.
- Chat.GetHistory: a negative limit is assumed to be refused by the database, and that reaches the caller as a storage error.
- Prompts.ListPrompts, Projects.ListProjects, Projects.GetProject, Projects.CreateProject, Projects.UpdateProject, Chat.GetHistory: the response carries whole rows. The SELECTs leave out `project_id` (backend/routes/prompts.js:23, backend/routes/chat.js:127) or `user_id` (backend/routes/projects.js:13, 27, 56, 90; backend/routes/chat.js:127), and the model does not.
- The HTTP success codes (200 and 201) and the response envelopes (`{ prompt }`, `{ project }`, `{ message, role }`) are not modelled.
- Axios's `err.status`, which can replace 500 in the error handler, is not modelled.
- Page loading (`fetchProjectData`, `fetchChatHistory`) is not modelled; the page state starts empty.
- Rendering, scrolling, `alert`, `window.confirm` (an argument), the temp message's `created_at` and the file size formatting are not modelled.
- Dashboard.js and Navbar.js are not part of this model. They are presentation; Dashboard's one prepend and one filter repeat the patterns modelled for the project page.
- ProjectDetail.ProjectDetailPage.HandleSendMessage: the temp message's id comes from `Date.now()`, which need not be fresh. FailedSendRestores and SucceededSendAppends assume it is, and stay silent when it is not.
- The user row orphaned by a failed completion is modelled (Chat.OrphanInNextAssembly). No chat route removes it; only the project delete's cascade does (Schema.Database.DeleteProject, Projects.CascadeMessages).
- Storage failures in general are not modelled: every statement succeeds except an UPDATE that stores NULL into a NOT NULL column and a LIMIT with a negative value. A lost connection or an exhausted pool has no path in the model. For example, if the assistant INSERT fails after a good reply, the source answers 500 and keeps the orphan user row, while Chat.PostChat returns the reply.
- Column widths are not modelled: `name` is VARCHAR(255) and `content` is TEXT, and under strict mode a longer value makes the INSERT or UPDATE fail. Here strings have no length limit.
- The range of the INT AUTO_INCREMENT ids is not modelled; ids are unbounded integers, so the counters never run out.
- ProjectDetail.ProjectDetailPage.HandleFileUpload: the upload reply is typed as a `project_files` row, but it is not one. Its `id` is the external file API's id, which the table stores as `file_id`. Its fields are `id, name, size, purpose`, while the listed rows carry `id, file_id, file_name, file_size`. So after an upload the page's list mixes two shapes, and deleting a just-uploaded file sends the external id, which the delete route looks up as a row id. The model does not capture that mix.
- Chat.PostChat: the ghost `steps` trace is written by the method body beside each effect. It records the order of the user insert, the endpoint call and the assistant insert, but nothing ties it to the effects themselves, so it cannot enforce that order. What a caller can see is enforced: the request is built from the tables before the insert, and the user row stays when there is no reply.
