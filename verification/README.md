# Field-TM verification

A Dafny model of the parts of Field-TM whose behaviour is hard to see from any
one function, with proofs about them. `dafny verify dfyconfig.toml` checks the
whole project.

**Basemap lifecycle** (`BasemapRow`, `BasemapProtocol`, `BasemapRaces`,
`BasemapReadiness`, `BasemapSerial`, `BasemapProvenance`, `BasemapStore`,
`AttachErrors`). One `projects` row is read and
written by the search, generate, poll and attach handlers, by the simple-project
claim and autostart, and by background attach jobs. `BasemapProtocol` makes each
read, upstream answer and commit a step of its own and lets the steps of any
number of processes interleave; the upstream API answers arbitrarily and any
step may raise. Row writes are patches whose `None` fields are dropped; only the
raw SQL claim writes NULL over the URL. `BasemapSerial` gives each handler's
effect as a whole when nothing interleaves and shows that such a run is one of
the protocol's. `BasemapReadiness` is about which commits take a ready row down,
`BasemapProvenance` about whose URL a ready row serves.
`BasemapStore` has the handlers as methods on a mutable row,
each proved to do what the protocol does.

**Entity upsert** (`EntityStore`, `EntityUpsert`, `EntityConvergence`). A
dataset on ODK Central whose server bumps a version on every write and refuses a
stale base version; other writers write, create and delete at any point between
the upsert's requests.

**QGIS metadata fixes** (`QgsTokens`, `SurveyTabs`, `SurveyTabsProofs`,
`QgsFixes`, `QgsFixpoint`, `QgsLaws`). The project file is a sequence of tags. The
search-based end finder and the tab-removal loop are methods proved against a
one-token-at-a-time counter and a recursive pass; the four fixes are composed as
in the source.

**Work queue** (`WorkQueue`). Handler threads, their timeouts and the main
thread as interleaved events, storing a result and setting its event being two
of them, and the queue and work items as objects.

**Layer order** (`LayerSort`, `LayerOrder`). The in-place reordering of the
layer-tree root, with both priority tables.

**Geometry** (`Decimals`, `Geometry`, `JavaRosa`, `GeometrySplit`, `OutlineBox`,
`RingCentroid`). The JavaRosa printer and parser over exact decimals, the
multi-geometry split, the outline's bounding box, the shoelace centroid over
reals. Geometry types follow section 3.1 of RFC 7946, the ring test section
3.1.6.

**Retry loop and saga** (`ProjectfileWait`, `OdkSaga`). The bounded
project-file wait against an arbitrary service, and publishing to and deleting
from ODK Central as a two-system state machine.

Texts are compared letter by letter in `Wording`, against which lower-casing,
trimming and searching are measured; the laws that spell out words, codes and
numbers use it and no helper of the code they speak about.

Outside behaviour (HTTP answers, the QGIS workers, other writers, the imagery
chosen, whether an attempt fails) is always a parameter about which nothing is
assumed beyond what is written in the member's `requires`.

## Where the code does less than its comments say

Each of these has a concrete run in the model and, beside it, the exact
condition under which the code does keep its promise.

- A poll "refuses to downgrade" a ready row, but two overlapping polls can take
  it down (`OverlappingPollsDowngrade`). Over any interleaving of polls, attach
  requests and jobs the row stays ready exactly when no poll commits an answer
  that is not ready after loading the row before it was (`ReadyUnderPollsIff`;
  over all writers `ReadyThroughoutIff`).
- A resume makes the same promise and never keeps it: it only ever loads a
  generating row, so over a row that has become ready it takes it down exactly
  when its answer is not ready (`ResumeDowngradesIff`), and hides a job that is
  running (`ResumeCanDowngrade`).
- The simple-project claim is described as atomic, but a second claim taken
  before the first has chosen an image succeeds too, and two attach jobs are
  spawned (`OverlappingClaims`). Among claims one is accepted exactly as long as
  no chosen image is committed (`ClaimAcceptedIff`). Taken whole, a claim keeps
  one job while `in_progress` exactly when it is refused or none was in progress
  (`ClaimKeepsJobCountIff`).
- A generate request passes `basemap_url=None`, which is dropped, so the old
  image's URL stays. With an overlapping poll the row can end ready for one image
  with the URL of another (`ReadyUrlCanBeAnotherImages`). Over any interleaving
  the URL is the selected image's throughout exactly when no commit writes `ready`
  for an image no longer selected (`ServesThroughoutIff`, and for one commit
  `CommitServesIff`); requests for one image may overlap freely
  (`OneImageServes`), and requests that do not overlap may select any
  (`ReadyUrlIsSelectedImages`).
- A generate request during an attach shows `idle` while the job still runs
  (`GenerateKeepsJobCountIff`).
- The metadata fixes are not always a fixpoint: an empty Survey tab around a
  layer-tree node takes the node with it, and the next application puts one back
  (`DroppedTreeNodeComesBack`). `SecondApplicationIff` says exactly when, and two
  applications are always enough (`TwoApplicationsSettle`).
- The update payload compares values as text, so the word "None" counts as equal
  to a null cell (`StoredExactlyIff`). The two reserved columns are compared in
  the same way although no payload changes them: a row settles exactly when they
  read as the entity's own (`SettlesIff`), an older version record is sent again
  for ever (`OldVersionNeverSettles`), and a second run is quiet exactly when
  those of every row read as those of the entity it ends with
  (`SecondRunQuietIff`).
- Repeated source labels that the table lacks are inserted once each
  (`EntitiesPerLabel`).
- A lost answer to the create request leaves a second project on ODK Central
  (`LostCreateLeavesAnOrphan`); the row and the server agree throughout exactly
  when no answer is lost (`RecordedIffNoLostCreate`).
- The layer reordering passes over a layer whose first node is inside a group.
  The root gets the order asked for exactly when no group stands before a root
  layer that it holds as well (`ReorderedIsNormalIff`). With such a group, say the
  root `photos`, a group holding `tasks`, `tasks`, the blocked layer stays behind
  it, and every run can report a change without making one
  (`BlockedLayerKeepsChanging`).
- The outline's bounding box looks at the first feature of a collection only, so
  splitting that feature can shrink it although no coordinate is lost
  (`SplitCanShrinkOutline`). It stays exactly when the further parts lie in the
  first part's box, with the cases without a first part spelled out
  (`SplitKeepsOutlineIff`).
- A keyboard interrupt during an item sets its event without a result, or, before
  the guarded block or inside the final one, never sets it; either happens to the
  last item taken only (`AlwaysOk`, `ReplyIsOwnResult`).

## Model

| member | source | states |
|---|---|---|
| BasemapRow.ParsedAnswersAreOk | src/backend/app/helpers/basemap_services.py:161-190 | a parsed answer is `ready` if and only if it carries a non-empty URL, and parsing raises exactly on codes from 400 other than 429 |
| BasemapRow.AnswerLaw | src/backend/app/helpers/basemap_services.py:161-190 | 202, 429 and a 200 without a URL answer `generating`, a 200 with one `ready` with `url` before `download_url`; another code below 400 is `ready`, `generating` or `failed` by the literal words, in any case, of `status` before `state` |
| BasemapProtocol.ReadyAlwaysHasUrl | src/backend/app/htmx/basemap/basemap_routes.py:98-370 | in every interleaving of all writers, whatever the API answers and wherever a step raises, `ready` implies a non-empty URL, and every job has one |
| BasemapProtocol.InProgressAlwaysHasJob | src/backend/app/htmx/basemap/basemap_attach_flow.py:183-277 | in every interleaving, `in_progress` implies an attach job that is unfinished or about to be spawned |
| BasemapProtocol.NoDowngrade | src/backend/app/htmx/basemap/basemap_routes.py:71-87 | from a row ready with a URL and no older poll in flight, every interleaving of polls, attach requests and jobs keeps it so |
| BasemapReadiness.ReadyThroughoutIff | src/backend/app/htmx/basemap/basemap_routes.py:98-370 | over any interleaving of all writers a ready row stays ready with a URL at every point if and only if no downgrading commit takes its turn |
| BasemapReadiness.ReadyUnderPollsIff | src/backend/app/htmx/basemap/basemap_routes.py:71-87 | over any interleaving of polls, attach requests and jobs it stays so if and only if no poll commits an answer that is not ready after loading the row before it was |
| BasemapReadiness.ResumeDowngradesIff | src/backend/app/htmx/project_create/project_create_basemap_orchestration.py:46-57 | in every run, a resume over a ready row takes it down if and only if its answer is not ready, and then no longer shows a running job |
| BasemapRaces.ResumeCanDowngrade | src/backend/app/htmx/project_create/project_create_basemap_orchestration.py:46-57 | a run in which a resume takes down the row a poll made ready, and hides the job the poll started |
| BasemapProtocol.PollDowngradesIff | src/backend/app/htmx/basemap/basemap_routes.py:285-309 | a poll's commit takes a ready row down if and only if the row it loaded was not ready with a URL and the answer is not ready |
| BasemapRaces.OverlappingPollsDowngrade | src/backend/app/htmx/basemap/basemap_routes.py:285-309 | some run of two overlapping polls takes a ready row back to generating |
| BasemapRaces.ReadyUrlCanBeAnotherImages | src/backend/app/htmx/basemap/basemap_routes.py:195-309 | a poll overlapping a generate request can leave the row ready for one image with another image's URL |
| BasemapRaces.OverlappingClaims | src/backend/app/projects/project_crud.py:223-262 | two overlapping claims of one fresh row both succeed and spawn two attach jobs |
| BasemapRaces.ClaimAcceptedIff | src/backend/app/projects/project_crud.py:236-243 | over any interleaving of claims, their autostarts and jobs, a claim is accepted if and only if no image has been chosen yet |
| BasemapProvenance.CommitServesIff | src/backend/app/htmx/basemap/basemap_routes.py:285-309 | the commit of an honest answer leaves the row serving its image if and only if it does not write `ready` or the image asked about is still selected; a generate commit always does |
| BasemapProvenance.ServesThroughoutIff | src/backend/app/htmx/basemap/basemap_routes.py:98-370 | over any interleaving of all writers a ready row's URL is the selected image's at every point if and only if no commit writes `ready` for an image no longer selected |
| BasemapProvenance.OneImageServes | src/backend/app/htmx/basemap/basemap_routes.py:98-370 | every interleaving of polls, searches, attach requests, jobs and generate requests for the selected image keeps a ready row serving it |
| BasemapProvenance.ReadyUrlIsSelectedImages | src/backend/app/htmx/basemap/basemap_routes.py:98-370 | requests that do not overlap keep it too, whatever images they select, claims and autostarts included |
| BasemapSerial.HandleIsRun | src/backend/app/htmx/basemap/basemap_routes.py:98-370 | a request handled without interruption is one of the protocol's interleavings, so all invariants apply to it |
| BasemapSerial.PollInOneGo | src/backend/app/htmx/basemap/basemap_routes.py:285-317 | an uninterrupted poll promotes on a ready answer, leaves a ready row alone on any other, and starts a job exactly when it promotes a row reserved for autostart |
| BasemapSerial.PollLaw | src/backend/app/htmx/basemap/basemap_routes.py:279-317 | a poll keeps a generating row generating on 202, 429 and a 200 without a URL, and fails it if and only if the code is below 400, neither 200 nor 202, and the state is in neither list; a raising call leaves it alone |
| BasemapSerial.AttachInOneGo | src/backend/app/htmx/basemap/basemap_attach_flow.py:110-180 | an uninterrupted attach heals a ready row without a URL and starts a job only when none is in progress or done |
| BasemapSerial.GenerateInOneGo | src/backend/app/htmx/basemap/basemap_routes.py:175-256 | an uninterrupted generate repeats harmlessly for the same image, and otherwise keeps the old URL unless the API hands out a new one |
| BasemapSerial.TilepackInOneGo | src/backend/app/htmx/project_create/project_create_basemap_orchestration.py:118-168 | starting a tilepack ends ready with a job, generating and reserved, or idle, as the API answers |
| BasemapSerial.AutostartInOneGo | src/backend/app/htmx/project_create/project_create_basemap_orchestration.py:171-261 | an autostart resumes a tilepack in flight, skips, fails, or starts a new one |
| BasemapSerial.ResumeInOneGo | src/backend/app/htmx/project_create/project_create_basemap_orchestration.py:38-84 | resuming writes status, URL and attach status in step with the job it spawns |
| BasemapSerial.ClaimInOneGo | src/backend/app/projects/project_crud.py:223-262 | a claim runs the autostart exactly when its guard holds, on the row the claim leaves |
| BasemapSerial.ClaimLaw | src/backend/app/projects/project_crud.py:236-243 | a claim takes effect if and only if the row is published, for QField, without an image, blank at most, and unset, generating or failed |
| BasemapSerial.RaisedLaw | src/backend/app/htmx/project_create/project_create_basemap_orchestration.py:249-261 | an autostart that raises anywhere ends failed and idle, a generate request failed for its image, a job is unaffected, any other request ends without a write |
| BasemapSerial.OneJobExactlyWhileInProgress | src/backend/app/htmx/basemap/basemap_routes.py:259-370 | over any sequence of uninterrupted polls, searches, attach requests and job steps there is exactly one unfinished job while `in_progress` and none otherwise |
| BasemapSerial.GenerateKeepsJobCountIff | src/backend/app/htmx/basemap/basemap_routes.py:182-208 | a generate request keeps that count if and only if no attach is in progress or it repeats the current image |
| BasemapSerial.ClaimKeepsJobCountIff | src/backend/app/projects/project_crud.py:223-262 | a claim keeps that count if and only if it is refused or no attach is in progress |
| BasemapStore.StoredProject.Update | src/backend/app/db/models.py:51-78 | a partial update changes the fields given and no others, and an empty one is refused |
| BasemapStore.StoredProject.Claim | src/backend/app/projects/project_crud.py:223-262 | the guarded update takes effect exactly when the guard holds of the stored row, and then clears the URL |
| BasemapStore.StoredProject.Generate | src/backend/app/htmx/basemap/basemap_routes.py:175-256 | the handler leaves the row the protocol leaves |
| BasemapStore.StoredProject.PollStatus | src/backend/app/htmx/basemap/basemap_routes.py:279-317 | the handler leaves the row, and spawns the job, that the protocol does |
| BasemapStore.StoredProject.Attach | src/backend/app/htmx/basemap/basemap_routes.py:347-370 | the handler leaves the row, and spawns the job, that the protocol does |
| BasemapStore.StoredProject.ReconcileMissingUrl | src/backend/app/htmx/basemap/basemap_attach_flow.py:84-107 | a URL is found exactly when an image is selected and the API answers ready; then it is stored, otherwise the row is unchanged |
| BasemapStore.StoredProject.ClaimAndAutostart | src/backend/app/projects/project_crud.py:223-262 | claim and autostart together do what the protocol does |
| BasemapStore.StoredProject.Autostart | src/backend/app/htmx/project_create/project_create_basemap_orchestration.py:212-261 | the autostart leaves the row, and spawns the job, that the protocol does |
| BasemapStore.StoredProject.StartTilepack | src/backend/app/htmx/project_create/project_create_basemap_orchestration.py:118-168 | its two commits amount to the tilepack result |
| BasemapStore.StoredProject.MarkAutostartFailed | src/backend/app/htmx/project_create/project_create_basemap_orchestration.py:23-35 | status failed and attach idle, the rest unchanged |
| BasemapStore.StoredProject.RunAttachBackground | src/backend/app/htmx/basemap/basemap_attach_flow.py:183-228 | the loop makes the attempts and leaves the status of its specification: at most two, the second exactly after a transient first failure, the last one's outcome deciding between `ready` and `failed` |
| BasemapStore.JobStepsMatchLoop | src/backend/app/htmx/basemap/basemap_attach_flow.py:183-228 | from any attempt on, the protocol's job steps, fed with the attempts' outcomes, end the job with exactly the attach status the retry loop leaves |
| AttachErrors.ChainRepeats | src/backend/app/htmx/basemap/basemap_attach_flow.py:38-41 | once a chain of causes and contexts revisits an exception it only repeats itself |
| AttachErrors.TransientIsReached | src/backend/app/htmx/basemap/basemap_attach_flow.py:23-63 | the chain finds a transient failure if and only if the top is a timeout or a path of causes, contexts where there is no cause, reaches an exception whose text or HTTP detail holds, in any case, one of the thirteen words |
| AttachErrors.IsTransientAttachException | src/backend/app/htmx/basemap/basemap_attach_flow.py:44-63 | on every graph, cycles included, the walk ends and answers true exactly when the top exception is a timeout or a path of causes and contexts reaches an exception that mentions a transient failure |
| EntityStore.ForeignAllByEntity | src/backend/app/central/central_crud.py:854-874 | other writers' operations keep the store valid and act on each entity separately |
| EntityStore.ForeignVersions | src/backend/app/central/central_crud.py:854-874 | versions only grow, and an entity with its old version was not written |
| EntityUpsert.GetEntityUpdateData | src/backend/app/central/central_crud.py:809-825 | the dict loop's payload has exactly the row's keys but `label` that the entity lacks or that read differently as text, a null reading None, each with the row's value |
| EntityUpsert.Target | src/backend/app/central/central_crud.py:797-806 | a source row is matched with a table row of its own label only |
| EntityUpsert.LastNamed | src/backend/app/central/central_crud.py:797-806 | of table rows with one label the last wins, and none is missed |
| EntityUpsert.Dataset.UpsertEntityRows | src/backend/app/central/central_crud.py:828-883 | the loop with its conflict skip, early error and bulk insert leaves the store of the specification |
| EntityUpsert.Dataset.UpsertRow | src/backend/app/central/central_crud.py:840-874 | one source row is collected, skipped, or sent as one guarded update |
| EntityUpsert.UpsertIsSafe | src/backend/app/central/central_crud.py:828-883 | under any foreign writers, from the snapshot to after the bulk insert, every accepted update met exactly the snapshot's entity, no foreign write is overwritten, and each entity is updated at most once even with repeated labels |
| EntityUpsert.UntouchedIsForeignOnly | src/backend/app/central/central_crud.py:828-883 | an entity without an accepted update ends, after the whole upsert, as the other writers alone would have left it |
| EntityUpsert.UnlabelledRowDoesNothing | src/backend/app/central/central_crud.py:841-843 | a source row without a label, or with an empty one, has no effect |
| EntityUpsert.ErrorsInsertNothing | src/backend/app/central/central_crud.py:862-883 | the upsert stops if and only if an update fails other than by a version conflict, and then inserts nothing; otherwise it inserts one entity per source row whose label the table lacks |
| EntityUpsert.ReplyLaw | src/backend/app/central/central_crud.py:854-874 | an update is refused as missing if and only if no entity has its id, and accepted if and only if one has its id and base version |
| EntityConvergence.AlignedAgrees | src/backend/app/central/central_crud.py:809-825 | after its update an entity agrees with the source row on all keys but the reserved columns that then read differently |
| EntityConvergence.SettlesIff | src/backend/app/central/central_crud.py:819-823 | nothing more is sent for an aligned entity if and only if the row's reserved columns read as its id and as its version, old or one more |
| EntityConvergence.OldVersionNeverSettles | src/backend/app/central/central_crud.py:819-823 | a row with an older version record is sent again by every run |
| EntityConvergence.PayloadIsMinimal | src/backend/app/central/central_crud.py:809-825 | leaving out any set of payload keys leaves the entity in disagreement on just those keys, reserved columns that read differently aside |
| EntityConvergence.StoredExactlyIff | src/backend/app/central/central_crud.py:819-823 | the stored cells hold the very source values if and only if no source value is the word "None" over a null cell |
| EntityConvergence.AloneAligns | src/backend/app/central/central_crud.py:839-874 | with distinct labels each matched entity is aligned with its row |
| EntityConvergence.AloneLeaves | src/backend/app/central/central_crud.py:839-874 | an entity no source row is matched with is untouched by the loop |
| EntityConvergence.EntitiesPerLabel | src/backend/app/central/central_crud.py:839-883 | for any rows, repeated labels included: a label the table has keeps its number of entities, a label it lacks gets one per source row carrying it |
| EntityConvergence.UpsertConverges | src/backend/app/central/central_crud.py:797-883 | every labelled source row is matched afterwards with its aligned old entity or a new one made from it, and disagrees with that on just the reserved columns that read differently |
| EntityConvergence.UpsertFrame | src/backend/app/central/central_crud.py:797-883 | for any source rows, entities none is matched with are exactly as before |
| EntityConvergence.FirstSendingRowWins | src/backend/app/central/central_crud.py:840-874 | for any source rows, repeated labels included, an entity ends aligned with the first row of its label that differs from it; later ones are refused as stale |
| EntityConvergence.SecondRunQuietIff | src/backend/app/central/central_crud.py:797-883 | an immediate second run sends, inserts and changes nothing if and only if every labelled row's reserved columns, if any, read as those of the entity it ends with |
| EntityConvergence.PlainRowsAreQuiet | src/backend/app/central/central_crud.py:797-883 | so rows without reserved columns always leave a second run quiet |
| SurveyTabs.FindEditorContainerEnd | src/qfield/sanitize.py:179-205 | the search-based finder returns what counting depth one token at a time returns |
| SurveyTabsProofs.EndIsFirstZero | src/qfield/sanitize.py:179-205 | the end of a container is where the nesting depth comes down to zero for the first time |
| SurveyTabs.StripEmptySurveyTabs | src/qfield/sanitize.py:220-257 | the loop over `pos`, `pieces` and `removed` computes the recursive pass and its change flag |
| SurveyTabsProofs.StripCutsOnlyEmptyTabs | src/qfield/sanitize.py:208-257 | what is deleted is nothing but whole Survey tabs without field, relation or container, each with all the blanks and the one line break right after it |
| SurveyTabsProofs.EmptyTabsLeftAreNested | src/qfield/sanitize.py:220-257 | a Survey tab with nothing in it that is still there afterwards lies inside another Survey tab |
| SurveyTabsProofs.RemovedCounts | src/qfield/sanitize.py:252-257 | the count is zero exactly when the document is unchanged, and each removal takes at least two tags |
| SurveyTabsProofs.StripKeepsMeaning | src/qfield/sanitize.py:220-257 | fields and relations keep their order and each its path of enclosing containers |
| SurveyTabsProofs.PlacedAre | src/qfield/sanitize.py:220-257 | what counts as placed are exactly the fields and relations, each with the containers the tags before it leave open |
| SurveyTabsProofs.StripKeepsBalance | src/qfield/sanitize.py:220-257 | the result is balanced if and only if the input is |
| SurveyTabsProofs.AbortsIffUnclosed | src/qfield/sanitize.py:239-241 | the pass gives up if and only if some Survey tab, nested or not, is never closed |
| SurveyTabsProofs.TallyIsRemoved | src/qfield/sanitize.py:230-250 | the pass removes as many tabs as an independent count finds empty |
| SurveyTabsProofs.ReportsIffTally | src/qfield/sanitize.py:252-257 | a change is reported exactly when there is a tab to remove, and no report means the same document |
| SurveyTabsProofs.StripIsIdempotent | src/qfield/sanitize.py:220-257 | a second pass changes nothing |
| SurveyTabsProofs.InsertKeepsTally | src/qfield/sanitize.py:164-175 | tokens the pass does not look at can stand anywhere without changing what it removes |
| QgsFixes.DroppingRefsIsInvisible | src/qfield/sanitize.py:13-31 | dropping colour-profile references keeps every field's place and the nesting depth |
| QgsFixes.DropDangling | src/qfield/sanitize.py:13-31 | the tags that stay are exactly those that are no reference to a file outside the bundle |
| QgsFixes.NeedSeesView | src/qfield/sanitize.py:34-87 | whether the tree fix acts depends on the layer tags alone |
| QgsFixes.StripKeepsView | src/qfield/sanitize.py:220-257 | the tab pass keeps all layer tags if and only if no dropped tab holds one |
| QgsFixes.TreeFixSettles | src/qfield/sanitize.py:34-97 | a document the tree fix has dealt with does not need it again |
| QgsLaws.TasksLaw | src/qfield/sanitize.py:34-71 | the tasks layer is the first block of that name, with the first id and the first data source in it, or `./tasks.gpkg` |
| QgsLaws.TreeLaw | src/qfield/sanitize.py:34-97 | a node goes in if and only if the first tasks block has an id, no tree layer has it and there is a group; it has that id and source and stands after the first tree layer in the first group, or right after the group tag |
| QgsLaws.CanvasLaw | src/qfield/sanitize.py:100-161 | a canvas goes in if and only if there is none and a project reference system can be read; it has that system and the extent given, degrees for longlat and meters otherwise, and stands after the first vertical system or else the first project system |
| QgsFixpoint.FixesKeepForms | src/qfield/sanitize.py:260-281 | all fixes together keep every form field and relation inside the same containers, in order, and keep balance |
| QgsFixpoint.NoDanglingLeft | src/qfield/sanitize.py:13-31 | the output holds no dangling reference: no later fix brings one in |
| QgsLaws.ChangeIsReported | src/qfield/sanitize.py:260-281 | a document not reported changed is not changed |
| QgsFixpoint.CanvasKeeps | src/qfield/sanitize.py:100-161 | the injected canvas re-triggers neither the tab pass nor the tree fix |
| QgsFixpoint.OutputIsFinished | src/qfield/sanitize.py:260-281 | on the output the reference, tab and canvas fixes have nothing to do |
| QgsFixpoint.SecondApplicationIff | src/qfield/sanitize.py:260-281 | applying the fixes again reports a change if and only if the tree fix's guard holds of the document the tab pass left; otherwise the output is a fixpoint |
| QgsFixpoint.FixpointUnlessTabHoldsLayerTag | src/qfield/sanitize.py:260-281 | the output is a fixpoint whenever no dropped tab holds a layer or layer-tree tag |
| QgsFixpoint.TwoApplicationsSettle | src/qfield/sanitize.py:260-281 | whatever the document, two applications reach a fixpoint |
| QgsFixpoint.DroppedTreeNodeComesBack | src/qfield/sanitize.py:260-281 | a document for which one application is not enough |
| WorkQueue.AlwaysOk | src/qfield/server.py:281-365 | over all interleavings, with waits ending between a result and its event: one execution at a time, each item at most once and in enqueue order, all items before the last one taken done, an event set only after its result short of an interrupt during that last one; replies come from one's own item |
| WorkQueue.DoneItemStays | src/qfield/server.py:291-300 | once its event is set an item never changes, however long its handler takes to read the result |
| WorkQueue.ReplyIsOwnResult | src/qfield/server.py:281-300 | a handler is told the timeout error or the result of the one execution of its own arguments; nothing only if the main loop was interrupted during just that item |
| WorkQueue.ReplyStays | src/qfield/server.py:291-300 | a handler is answered once |
| WorkQueue.InterruptLaw | src/qfield/server.py:340-365 | an interrupt ends the main loop; the event of the item in hand is still set, without a result if the work was cut short, unless the guarded block was not yet entered or its final part already ran |
| WorkQueue.AbandoningIsInvisible | src/qfield/server.py:291-300 | whether and when a handler gives up changes no other reply and nothing the main thread does |
| WorkQueue.QgisServer.Dispatch | src/qfield/server.py:281-290 | a dispatch appends one fresh item and nothing else |
| WorkQueue.QgisServer.Await | src/qfield/server.py:291-300 | a wait returns the timeout error, or the item's own result when the event was set |
| WorkQueue.QgisServer.ProcessWorkQueue | src/qfield/server.py:334-365 | one turn takes the first item and sets its event whatever happens, leaving it the value returned, the message of what was raised, or nothing after an interrupt |
| WorkQueue.TurnReply | src/qfield/server.py:281-365 | after the turn that executes an item its handler's wait is answered with the value for a return, the error for an exception and nothing for an interrupt, by the drone, the basemap or the field worker as the endpoint says |
| LayerSort.SortIsStable | src/qfield/field_project.py:378-384 | the sort orders by priority, keeps all layers, and keeps the order of equal priorities |
| LayerSort.StableSortIsUnique | src/qfield/field_project.py:378-384 | these properties admit one result only |
| LayerSort.SortIsIdempotent | src/qfield/field_project.py:378-384 | sorting a sorted list changes nothing |
| LayerSort.GroupsOrder | src/qfield/field_project.py:348-361 | the priorities order layers as their names, in any case and white space aside, do: field survey, then tasks and dtm-tasks, other names, project-area, basemap, openstreetmap; drone tasks, dtm-tasks and survey, other names, basemap, dem, openstreetmap |
| LayerSort.SortedByName | src/qfield/drone_project.py:203-240 | the sorted layers are in that order, each group in its old order, none lost |
| LayerOrder.LayerTreeRoot.NormalizeRootLayerOrder | src/qfield/field_project.py:364-402 | for any root, the in-place loop leaves what its rounds make of the order; `changed` is true exactly when some layer neither stood at its target nor was passed over, and otherwise no node is touched |
| LayerOrder.LayerTreeRoot.PlaceLayer | src/qfield/drone_project.py:240-252 | one round moves the layer's first node to the target, forwards or back, unless it is there, missing, or inside a group |
| LayerOrder.LayerTreeRoot.MoveNode | src/qfield/field_project.py:397-399 | inserting the new node and removing the old one moves the layer and shifts the nodes in between by one |
| LayerOrder.ReorderedIsNormalIff | src/qfield/field_project.py:364-402 | with distinct layer ids in the root the loop leaves the stably sorted layers followed by all other nodes in their old order if and only if no group stood before a root layer it also holds |
| LayerOrder.SettledIsNormalIff | src/qfield/field_project.py:386-402 | the root has that order if and only if the loop would move no layer and none is blocked, so unless one is, a change is reported exactly when the order differed |
| LayerOrder.SecondRunIsSettled | src/qfield/field_project.py:364-402 | unless a layer is blocked, a second run reports and changes nothing |
| LayerOrder.BlockedIsNotNormal | src/qfield/field_project.py:392-393 | a blocked layer stays behind its group through all rounds |
| LayerOrder.BlockedLayerKeepsChanging | src/qfield/field_project.py:386-402 | a root on which every run reports a change and makes none |
| LayerOrder.BasemapStandsAboveGroups | src/qfield/field_project.py:348-402 | in the order asked for every layer is above every group and above layers of larger priority number |
| LayerOrder.AttachedBasemapPlace | src/qfield/field_project.py:832-835 | in the order asked for an attached basemap stands above exactly the groups and the layers named openstreetmap or, in a drone project, dem, and so below every other layer |
| Decimals.ParsePrint | src/backend/app/helpers/geometry_utils.py:300-302 | printing a number and parsing the text gives the number back |
| Decimals.PrintLaw | src/backend/app/helpers/geometry_utils.py:271-271 | a number is printed as a minus sign if negative, its digits before the point without needless zeros, a point, and all its places, at least one |
| Decimals.ParseLaw | src/backend/app/helpers/geometry_utils.py:300-302 | a text is a number if and only if it is a sign or none, digits, and a point among them or none; it is worth those digits with that many places |
| Decimals.NormalizeKeepsValue | src/backend/app/helpers/geometry_utils.py:300-302 | the canonical form has the value and the sign of what was read |
| Decimals.ValueLaw | src/backend/app/helpers/geometry_utils.py:300-302 | the value of digits, by the character codes |
| JavaRosa.SplitJoin | src/backend/app/helpers/geometry_utils.py:273-293 | splitting a joined text gives the pieces back |
| JavaRosa.NestedIsFlatten | src/backend/app/helpers/geometry_utils.py:250-266 | the printer's three-level normalisation holds exactly the flattened coordinates, in order, for all six non-collection types |
| JavaRosa.GeojsonToJavarosa | src/backend/app/helpers/geometry_utils.py:227-273 | the printer emits exactly the flattened coordinates in that order; nothing gives the empty text and a collection is an error |
| JavaRosa.PrintCoordsLaw | src/backend/app/helpers/geometry_utils.py:268-273 | every point is printed as latitude, longitude and `0.0 0.0`, the points between semicolons |
| JavaRosa.JavarosaToGeojson | src/backend/app/helpers/geometry_utils.py:276-322 | the parsing loop reads the readable points in order and classifies them |
| JavaRosa.PointLaw | src/backend/app/helpers/geometry_utils.py:290-304 | a piece is a point if and only if its first two words, whatever white space is around and between them, are numbers, the latitude and the longitude |
| JavaRosa.PiecesLaw | src/backend/app/helpers/geometry_utils.py:290-304 | a text is read piece after piece between the semicolons, a piece that is no point is passed over |
| JavaRosa.ParsingLaw | src/backend/app/helpers/geometry_utils.py:306-322 | no points give nothing, one a point, four or more that end where they began a polygon, others a line |
| JavaRosa.ReprintKeepsCoordinates | src/backend/app/helpers/geometry_utils.py:227-322 | reading back any printed geometry gives its flattened coordinates, classified |
| JavaRosa.RoundTripIff | src/backend/app/helpers/geometry_utils.py:227-322 | a geometry comes back as it was if and only if it is a point, a single closed ring of at least four points, or a line of at least two that is no such ring |
| JavaRosa.ParsePrintParse | src/backend/app/helpers/geometry_utils.py:227-322 | for every text with a non-empty parse, parse-print-parse equals parse |
| GeometrySplit.MultigeomToSinglegeom | src/backend/app/helpers/geometry_utils.py:325-364 | the feature loop computes the split feature by feature |
| GeometrySplit.SplitLaw | src/backend/app/helpers/geometry_utils.py:330-364 | the list is split feature by feature; one without a geometry is dropped, any other gives way to its parts in order, one level deep, each with its properties |
| GeometrySplit.PartsKeepCoordinates | src/backend/app/helpers/geometry_utils.py:330-348 | the parts of one geometry hold its coordinates in order |
| GeometrySplit.SplitKeepsCoordinates | src/backend/app/helpers/geometry_utils.py:325-364 | splitting loses, adds and reorders no coordinate of the features that have a geometry |
| GeometrySplit.SplitIsSingleIff | src/backend/app/helpers/geometry_utils.py:325-364 | only single geometries come out if and only if no collection holds a multi-geometry or a collection |
| GeometrySplit.SplitSettles | src/backend/app/helpers/geometry_utils.py:325-364 | splitting single geometries changes nothing |
| OutlineBox.MinIsLeast | src/backend/app/qfield/qfield_crud.py:175-177 | the minimum is one of the values and below all |
| OutlineBox.MaxIsGreatest | src/backend/app/qfield/qfield_crud.py:175-177 | the maximum is one of the values and above all |
| OutlineBox.LeIsOrder | src/backend/app/qfield/qfield_crud.py:175-177 | the comparison is that of the numbers themselves |
| OutlineBox.BoxIsTight | src/backend/app/qfield/qfield_crud.py:158-177 | every coordinate lies inside the box and each side touches one |
| OutlineBox.BoxReadsBack | src/backend/app/htmx/basemap/basemap_routes.py:120-120 | splitting the printed box at commas and converting gives its four sides in order |
| OutlineBox.BboxIsTight | src/backend/app/qfield/qfield_crud.py:158-197 | the geometry is the outline itself if it is no collection, the feature's, or the first feature's; without one and without a coordinate the replies are told apart, and any other outline gets a text that reads back as the tight box of that geometry |
| OutlineBox.LeAntisymmetric | src/backend/app/qfield/qfield_crud.py:175-177 | numbers below each other are the same number: the canonical form is unique |
| OutlineBox.BoxOfMore | src/backend/app/qfield/qfield_crud.py:175-177 | more coordinates leave the box as it is if and only if all of them lie inside |
| OutlineBox.SplitKeepsOutlineIff | src/backend/app/qfield/qfield_crud.py:158-191 | splitting a collection keeps the outline's reply if and only if the first geometry's further parts lie in its first part's box, or, without a first part, what takes its place has no coordinates either |
| OutlineBox.SplitCanShrinkOutline | src/backend/app/qfield/qfield_crud.py:158-191 | a collection that loses no coordinate by splitting and yet gets another bounding box |
| RingCentroid.PolygonToCentroid | src/backend/app/helpers/geometry_utils.py:99-128 | the loop computes the centroid of the outer ring; no rings is an error, a missing list gives the origin |
| RingCentroid.FewPoints | src/backend/app/helpers/geometry_utils.py:105-110 | no points give the origin, one or two their mean |
| RingCentroid.ClosedMoments | src/backend/app/helpers/geometry_utils.py:109-119 | translating a closed ring keeps the area and shifts the first moments by area times the vector |
| RingCentroid.CentroidTranslates | src/backend/app/helpers/geometry_utils.py:99-128 | translating a closed ring translates its centroid and takes the same branch |
| RingCentroid.AreaTranslatesIffClosed | src/backend/app/helpers/geometry_utils.py:109-121 | the area survives every translation if and only if the ring is closed |
| RingCentroid.CentroidOfReverse | src/backend/app/helpers/geometry_utils.py:99-128 | reversing any list of points leaves centroid and branch unchanged |
| RingCentroid.TriangleCentroid | src/backend/app/helpers/geometry_utils.py:109-128 | a triangle has half the cross product of two sides as its area; from an area of 1e-10 on its centroid is the mean of the corners, below that the mean of the four points listed |
| RingCentroid.CutAddsCentroids | src/backend/app/helpers/geometry_utils.py:109-128 | cutting a ring along a chord splits its area and, for any rings of at least three points and an area of at least 1e-10, its area-weighted centroid |
| ProjectfileWait.BudgetIsPollCount | src/backend/app/qfield/qfield_crud.py:775-777 | the loop condition after k sleeps holds exactly while k is below ceil(timeout / interval) |
| ProjectfileWait.PollsUpToSettling | src/backend/app/qfield/qfield_crud.py:775-805 | an attempt asks until an answer says "finished" or "failed", or to the end of the budget, and no longer |
| ProjectfileWait.PollJob | src/backend/app/qfield/qfield_crud.py:775-813 | the calls made are exactly the attempt's answers up to the first settling one or the end of the budget, and it finishes exactly when that answer is "finished", however many status calls throw |
| ProjectfileWait.WaitForProjectfileProcessing | src/backend/app/qfield/qfield_crud.py:737-821 | the wait returns normally if and only if some attempt's own job is seen to finish before any trigger raises; the calls made are exactly those of the attempts reached, at most `attempts` triggers with the budget of polls for each, all for the current job; otherwise it gives up with the last status seen |
| OdkSaga.Project.EnsureOdkProject | src/backend/app/projects/project_services.py:1184-1207 | a recorded id is reused; otherwise a project is created and its id recorded, unless the create fails or its answer is lost |
| OdkSaga.Project.FinalizeOdkProject | src/backend/app/projects/project_services.py:1376-1491 | the ordered stages leave the state of the specification whichever of them fails |
| OdkSaga.Project.DeleteProjectWithDownstream | src/backend/app/projects/project_services.py:314-340 | the remote project goes first, and the row only after the server's answer |
| OdkSaga.AlwaysOk | src/backend/app/projects/project_services.py:1376-1491 | over any run of finalisations, deletions and outside removals: remote projects are recorded or orphaned, and PUBLISHED stands only on a row whose project got its manager account, an effect of its own that comes first |
| OdkSaga.OrphansAreLostCreates | src/backend/app/projects/project_services.py:1184-1207 | there are exactly as many orphans as create answers lost |
| OdkSaga.RemoteProjectsBound | src/backend/app/projects/project_services.py:1184-1207 | from a fresh row, at most one remote project more than lost create answers |
| OdkSaga.RecordedIffNoLostCreate | src/backend/app/projects/project_services.py:1184-1207 | the row records whatever exists remotely at every point of a run if and only if no create answer is lost; then at most one exists and the row goes only when none does |
| OdkSaga.LostCreateLeavesAnOrphan | src/backend/app/projects/project_services.py:1184-1207 | one lost answer and a retry leave two remote projects, and one after deletion |
| OdkSaga.FinalizeSucceedsIff | src/backend/app/projects/project_services.py:1376-1491 | a finalisation succeeds, and publishes, if and only if the row and its prerequisites are there, an id is recorded or the create answered, that project exists, all four stages work on it, and the manager account is assigned; the state it leaves is spelled out |
| OdkSaga.DeletionLaw | src/backend/app/projects/project_services.py:254-340 | a deletion removes the row if and only if no id is recorded or the server answered with a success or with not found, and then the recorded project is gone; otherwise the row stays as it was |

## Left out

- HTTP clients, SQL text, PostGIS, QGIS and Qt objects, zip and file access,
  templates, HTMX fragments, settings, authentication and logging: outside
  answers are parameters or environment values.
- Basemap: the zoom, size, error and timestamp columns; the two updates of a
  generate request are one commit, because they share a transaction that holds
  the row; a row that is deleted meanwhile is excluded.
- BasemapProtocol.InProgressAlwaysHasJob: assumes that the server does not die
  between the `in_progress` commit and the end of the job, asleep or attaching,
  and that the job's terminal write succeeds; otherwise `in_progress` stays with
  no job.
- BasemapProvenance.ServesThroughoutIff: assumes an API that answers for the
  image asked about.
- BasemapSerial.OneJobExactlyWhileInProgress: covers polls, searches, attach
  requests and job steps; generate and claim have exact conditions of their own.
- White space is blank, tab, carriage return and line feed; SQL's BTRIM strips
  blanks only. Lower-casing is ASCII.
- Entities: creating missing dataset properties and building the source rows (no
  property beyond a filter and a loop of requests); the bulk insert succeeds as a
  whole; uuids are never reused.
- EntityConvergence.UpsertConverges: with distinct source labels only;
  EntitiesPerLabel covers repeated ones.
- EntityConvergence.SecondRunQuietIff: with distinct source labels only; the
  system record is its version, and a server that refuses reserved names in a
  payload is not modelled.
- QGIS documents are sequences of tags: self-closing containers, attribute text
  and adversarial bytes that a removal could splice into new tags are not
  modelled, and the reference systems are single tokens.
- WorkQueue: waiting times, HTTP status codes and the traceback text; the
  executed QGIS functions are arbitrary outcomes.
- LayerOrder.ReorderedIsNormalIff: with distinct layer ids among the root's own
  children; the loop itself is modelled for any root. A node whose layer does not
  resolve counts as one of the other nodes.
- Numbers: exact decimals in place of floats, printed always with a point;
  exponents, infinities, not-a-number and third coordinates are not modelled. The
  centroid is over reals, without rounding.
- JavaRosa.GeojsonToJavarosa: every geometry has the coordinates its type calls
  for, as section 3.1 of RFC 7946 requires; malformed JSON is not modelled.
- ProjectfileWait.WaitForProjectfileProcessing: a positive poll interval, without
  which the loop need not end; elapsed time is the sum of the sleeps.
- OdkSaga: local row writes succeed and one Central server is used; remote stages
  on a project that is gone fail; accounts created but not assigned are not
  counted; the QFieldCloud variant of the deletion follows the same rule and has
  no model of its own.
- The splitting of task areas and the merging of forms: their code is not part of
  this model.
