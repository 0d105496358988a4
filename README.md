# Credere application lifecycle, modelled in Dafny

Credere offers credit to the suppliers of public procurement contracts.
Each award read from the Colombian open-data source (SECOP) identifies a
supplier, the borrower. The system then creates a credit application and
invites the borrower to it by e-mail. The borrower and a lending
institution then move the application through its statuses, from PENDING
to ACCEPTED, SUBMITTED, STARTED, APPROVED, CONTRACT_UPLOADED and
COMPLETED, with the side exits DECLINED, REJECTED, LAPSED and
INFORMATION_REQUESTED. Scheduled commands remind borrowers, lapse stale
applications, warn lenders about their service level (SLA), and erase
personal data after the retention period.

This project models the lifecycle engine and proves properties about it.
The engine has five parts:

- **Status guards and transitions.** These are the guards on status,
  expiry, roles and lender ownership, and one method per borrower-facing or
  lender-facing transition. Each transition states the new store, the
  audit actions and the messages it records.
- **Ingestion.** Award records are fetched page by page. Each record
  creates at most one award, a borrower (found or created by the hashed
  supplier document) and at most one invited application per key. A
  borrower who opted out never gets a new application.
- **Sweeps.** The reminder, lapse, SLA and retention selections are exact
  predicates over the stored rows. The loops that act on them are
  modelled in both variants: per-application transactions, and one
  transaction for the whole sweep. In the one-transaction retention
  command, the query for a borrower's other unarchived applications sees
  the store as it was when the run began, because nothing is flushed
  before the end.
- **Days waiting for the lender.** Both implementations are modelled, with
  a lemma for when they agree and another for exactly how much they differ.
- **Validators and updaters.** These cover the missing-data map, guarded
  attribute updates, the e-mail change token, file validation, the document
  upsert, the latest modification per field, and the source-record helpers.

The ORM session is one `Database` class. Its fields map row ids to value
rows (applications, borrowers, awards, documents, credit products,
lenders). It also holds the append-only `messages` and `actions` logs and
the next free row id. `Database.Valid()` states the store's referential
invariant: every application points to a stored borrower, award and lender,
and uuids and borrower identifiers are unique. Every state-changing method
preserves it.

Time is an integer `Instant` in seconds. A `timedelta.days` difference is
`DaysBetween`, which is floor division by 86400. The following are
parameters of the model:

- the clock;
- the keyed hash and the uuid generator, which are deterministic functions
  and not assumed injective;
- the e-mail validator;
- the answers of the data source; the registry lookup is keyed on the
  supplier document and the record's `codigoproveedor`, as the request
  filters on both;
- the set of applications whose e-mail or write fails, which invitation
  e-mails fail during ingestion, and whether the e-mail of a request for
  information fails.

Files, one Dafny module each:

| file | module | models |
|---|---|---|
| base.dfy | `Base`, `Text` | Option/Result/Outcome, error kinds, settings, days between instants; lower-casing and `str.split` on a separator |
| models.dfy | `Models` | entities, statuses, the selection predicates, `_get_missing_data_keys`, `create`/`update`, the `Database` store |
| timeline.dfy | `Timeline` | the two "days waiting for lender" computations |
| dependencies.dfy | `Dependencies` | role, scope and status guards, the guest lookup by uuid |
| application_utils.dfy | `ApplicationUtils` | the shared staff-side guards, verification toggle, listings |
| general_utils.dfy | `GeneralUtils` | `update_models`, `update_models_with_validation` |
| util.dfy | `Util` | file validation, modified data fields, award creation, document upsert |
| colombia.dfy | `Colombia` | the SECOP record helpers |
| guest_emails.dfy | `GuestEmails` | change and confirm of the primary e-mail |
| guest_applications.dfy | `GuestApplications` | the borrower's transitions |
| lender_applications.dfy | `LenderApplications` | the lender's transitions |
| commands.dfy | `Commands` | ingestion and `fetch_awards` |
| sweeps.dfy | `Sweeps` | reminders, lapsing, SLA warnings, retention (per-application transactions) |
| main_commands.dfy | `MainCommands` | the lapse and retention sweeps in one transaction |
| background_applications.dfy | `BackgroundApplications` | the background-job variants of selection, creation and SLA reminders |

## Model

| member | source | states |
|---|---|---|
| Models.GetMissingDataKeys | app/models.py:17-36 | the result has exactly the input's keys, and a key maps to true iff its value is empty or None |
| Models.Record.Create | app/models.py:56-72 | the record holds the defaults overridden by the data; with missing-data tracking, `missing_data` has exactly the data's keys, each true iff that value is missing |
| Models.Record.Update | app/models.py:74-90 | only the given fields are assigned and the rest are kept; missing-data tracking is then recomputed over the whole record, every key true iff its value is missing |
| Models.NewApplication | app/models.py:281-300 | a new row carries the given uuid, award, borrower, key, e-mail and status and the creation time; it is unarchived and has no lender and no lender start |
| Models.LastUpdated | app/models.py:614-624 | the time of the first award in descending order, where the database sorts a missing time first: None iff no award is stored or some stored award has no time; otherwise the time of some stored award, and no stored award has a later one |
| Models.ActionTimes | app/models.py:449-458 | the times of the application's actions of one kind, in log order, never more than the log holds (`ActionTimesIndexed` states which) |
| Models.ActionIndices | app/models.py:449-458 | the positions of the application's actions of one kind: increasing, each holding such an action, and every such position present |
| Models.ActionTimesIndexed | app/models.py:449-458 | the times are exactly the creation times at those positions, one per position, in the same order |
| Timeline.DaysWaitingForLender | app/models.py:441-483 | the loop computes `LenderWaitDays`: the days from the lender's start to the first request (or now), plus each answer's days until the next queued request (or now), stopping once the queue is empty |
| Timeline.GetApplicationDaysPassed | app/background_processes/application_utils.py:237-300 | the loop computes `DaysPassed`: requests and answers are paired in order, and the first answer left without a request is paired with now |
| Timeline.VariantsAgree | app/models.py:441-483 | with fewer than two requests, or fewer answers than requests, both computations give the same number of days |
| Timeline.VariantsDiverge | app/background_processes/application_utils.py:237-300 | once the borrower has answered two or more requests and every request, the background count exceeds the record's by exactly the days from the first unpaired answer to now |
| Dependencies.OcpOnly | app/dependencies.py:65-104 | with a current user who is OCP the wrapped endpoint's result is returned unchanged; otherwise 401 |
| Dependencies.CheckRoles | app/dependencies.py:115-127 | the roles are tried in order: the check passes iff a role before any unrecognised one grants access (OCP for an OCP user, FI for a user of the application's lender); an unrecognised role reached first fails as not implemented; otherwise 403 |
| Dependencies.RaiseIfUnauthorized | app/dependencies.py:107-139 | passes iff the role check passes (or no roles are given), the UNEXPIRED scope does not find an expiry strictly before now, and the status is in the list (or the list is empty); a failed role check is reported first, and any later failure is 409 |
| Dependencies.FindByUuid | app/dependencies.py:173-183 | finds an application with the uuid iff one is stored |
| Dependencies.GetApplicationAsGuestViaUuid | app/dependencies.py:166-191 | 404 iff no application has the uuid, 409 iff the one that has it is LAPSED; otherwise that application |
| Dependencies.GetScopedApplicationAsGuest | app/dependencies.py:194-201 | the guest lookup followed by the scope and status guard; a result is an unlapsed application with the uuid that passes the guard |
| Dependencies.LookupAt | app/dependencies.py:166-201 | for a stored application the guest lookup by its uuid gives 409 when it is LAPSED, the guard's error when the guard fails, and the application otherwise, so 404 and LAPSED come before any status guard |
| Dependencies.LookupRefusesStatus | app/dependencies.py:134-139 | a guest lookup with a non-empty status list refuses an application outside the list with 409 |
| ApplicationUtils.CheckApplicationStatus | app/utils/applications.py:239-246 | passes iff the status is the required one, else 409 |
| ApplicationUtils.CheckApplicationInStatus | app/routers/applications.py:741-747 | passes iff the status is one of the allowed ones, else 409 |
| ApplicationUtils.CheckIsApplicationExpired | app/utils/applications.py:224-236 | passes iff there is no expiry or it is not before now, else 409 |
| ApplicationUtils.CheckFiUserPermission | app/routers/applications.py:1034-1038 | passes iff the user belongs to the application's lender, else 401 |
| ApplicationUtils.UpdateDataField | app/utils/applications.py:38-47 | 422 for an argument that is not one of the known SECOP field names (a payload object never is); a key error when the field has no flag yet; otherwise exactly that flag flips and every other one is kept |
| ApplicationUtils.PayloadNeverAField | app/utils/applications.py:38-43 | passing the request payload as the field is refused with 422 whatever the flags, while the same flags accept a known field name |
| ApplicationUtils.UpdateDataFieldTwice | app/utils/applications.py:38-47 | toggling the same field twice restores the verification map |
| ApplicationUtils.CheckCanUpdateRelated | app/utils/applications.py:80-96 | passes iff the application and the related row exist, the application is not APPROVED, and an OCP user edits only in ACCEPTED, SUBMITTED or INFORMATION_REQUESTED; 404 when something is missing, otherwise 409 |
| ApplicationUtils.UpdateApplicationBorrower | app/utils/applications.py:71-103 | the borrower is updated with the payload iff the guard passes, and is unchanged otherwise |
| ApplicationUtils.UpdateApplicationAward | app/utils/applications.py:106-138 | after the guard, the award's missing fields from the payload are assigned up to the first field that is not missing; that field fails the update, and the fields assigned before it stay assigned |
| ApplicationUtils.ListedIds | app/utils/applications.py:146-158 | an id is listed iff it is in the order, stored, its status is not REJECTED, LAPSED or DECLINED, and (for a lender listing) it belongs to that lender; no id twice when the order has none twice |
| ApplicationUtils.ListedCount | app/utils/applications.py:158-161 | when the order lists every stored application once, the listing is exactly as long as the number of stored applications it shows |
| ApplicationUtils.ListedPage | app/utils/applications.py:158-167 | a page of a listing over such an order holds stored applications the listing shows, each once, at most page size of them, with the count of all it shows |
| ApplicationUtils.Paginate | app/utils/applications.py:158-167 | the page is the slice at offset page × page size, at most page size long and full when enough items remain; the count is the total number of matches |
| ApplicationUtils.GetAllActiveApplications | app/utils/applications.py:141-167 | every listed application is stored and not excluded, each once; at most page size items; the count is the number of stored applications that are not excluded |
| ApplicationUtils.GetAllFiUserApplications | app/utils/applications.py:170-203 | every listed application is stored, not excluded, and belongs to the user's lender (or has no lender, for a user without one), each once; the count is the number of such stored applications |
| GeneralUtils.UpdateModels | app/utils/general_utils.py:5-20 | exactly the payload's fields are assigned, later ones winning; all other attributes are kept |
| GeneralUtils.FirstLocked | app/utils/general_utils.py:39-47 | the position of the first payload field that is not marked missing, or the payload's length when all are |
| GeneralUtils.FirstLockedAt | app/utils/general_utils.py:39-47 | any position with the first-locked property is the one `FirstLocked` computes |
| GeneralUtils.UpdateModelsWithValidation | app/utils/general_utils.py:23-47 | the fields before the first non-missing one are assigned and stay assigned; the call passes iff there is none; it fails with 422 when that field is known and not missing, and with a key error when it is not tracked at all |
| Util.Extension | app/util.py:106 | the extension is empty or a dot-led suffix of the name with no further dot or slash |
| Util.ExtensionOfJoined | app/util.py:106 | a stem without slashes and not only dots, joined to a suffix like ".pdf", has that suffix as its extension |
| Util.ValidateFile | app/util.py:93-117 | 422 unless the lower-cased extension is .png, .pdf, .jpeg, .jpg or .zip; otherwise 413 when the size is at least the limit (a file of exactly the limit is refused); otherwise the content and name |
| Util.BestNoneIffUntouched | app/util.py:137-146 | the scan keeps nothing for a field exactly when no action touched it |
| Util.BestIsLatest | app/util.py:137-146 | the change kept for a field is that of the earliest action among those with the latest time touching it |
| Util.MergeChanges | app/util.py:137-146 | one action's keys replace the kept change only when new or strictly newer; other keys are kept |
| Util.GetModifiedDataFields | app/util.py:120-146 | award and borrower updates are tracked apart; a field appears iff some action of that kind touched it, with the change `BestIsLatest` describes |
| Util.CreateAwardFromDataSource | app/util.py:159-182 | a source error is passed through; an existing source contract id skips; otherwise exactly one award with a fresh id is stored, and source contract ids stay unique |
| Util.GetPreviousAwardsFromDataSource | app/util.py:186-206 | an empty response changes nothing; stored awards are kept; each record is handled on its own and a failing or skipped one is passed over; afterwards every record that builds a previous award has its source contract stored, and every new award is one a record built, marked previous and linked to the borrower (when its id is truthy); contract ids stay unique |
| Util.CreateOrUpdateBorrowerDocument | app/util.py:210-259 | an existing document of that application and type is updated in place, otherwise one is created with a fresh id; at most one document per application and type is kept |
| Colombia.GetDocumentoProveedor | app/sources/colombia.py:270-283 | the supplier document unchanged when present, non-empty and not "No Definido"; otherwise a skip |
| Colombia.EmailOf | app/sources/colombia.py:229-234 | `correo_entidad` when that key is present, else `correo_electr_nico`, else "" |
| Colombia.Emails | app/sources/colombia.py:255-257 | the e-mail of every record, in order |
| Colombia.MostCommonUnique | app/sources/colombia.py:255-257 | at most one e-mail is the most common one, with ties resolved in favour of the first seen |
| Colombia.MostCommonSingle | app/sources/colombia.py:252-253 | the e-mail of a single record is the most common one |
| Colombia.MostCommon | app/sources/colombia.py:255-257 | the tally loop returns the most frequent e-mail, the first seen among equals |
| Colombia.GetEmail | app/sources/colombia.py:237-269 | no records skips; otherwise the most common e-mail (the record's own when there is one) is returned iff it is valid, else a skip |
| Colombia.GetBorrower | app/sources/colombia.py:177-228 | succeeds iff exactly one registry record exists, it is not a natural person (compared lower-cased) and the most common e-mail is valid; a wrong record count is a skip; the borrower has the given identifier, the record's name, address, legal identifier, type and data, that e-mail, and MSME iff `es_pyme` lower-cased is "si" |
| Colombia.GetAward | app/sources/colombia.py:64-127 | a key error without the two record keys; the contract lookup falls back to "No Adjudicado" and skips iff both lookups are empty; the award takes the first contract's id, its `previous` flag, and the borrower id only when it is truthy |
| Colombia.GetNewAwards | app/sources/colombia.py:128-157 | every page asks for the configured page size, the first one at offset 0, for records whose `adjudicado` is "si" ignoring case, ordered by last publication date newest first with undated records last |
| Colombia.NewAwardsSelect | app/sources/colombia.py:132-153 | a request selects a record iff its `adjudicado` is "si" ignoring case and its dates pass the request's window |
| Colombia.NewAwardsPage | app/sources/colombia.py:129-136 | a page answering a request holds at most a page size of awarded records, and a record without a publication date is followed only by such records |
| Colombia.NextPageOffset | app/sources/colombia.py:129-133 | each page's offset is one page size past the previous one, so page `i` starts at `i` × page size |
| Colombia.NewAwardsWindow | app/sources/colombia.py:138-153 | with both dates a record is in the window iff its publication or award date lies in [from, until); with only a start iff one is after it; otherwise iff one is within the default number of days before now |
| Commands.ApplicationTaken | app/commands.py:66-81 | passes iff no stored application has the key (and none has the uuid); a taken key is a skip |
| Commands.ResolveBorrower | app/commands.py:50-61 | fails iff the hashed supplier already belongs to a borrower who opted out; otherwise the stored borrower with that identifier, refreshed with the source data, or a new active one |
| Commands.NewAward | app/commands.py:47 | a source error is passed through, an existing contract id skips, and an award whose contract id is not stored is returned as built from the record |
| Commands.ResolveSupplier | app/commands.py:41-61 | succeeds iff the record builds a new award, the source gives a borrower for its supplier and that supplier has not opted out; a source error passes through, a stored contract id is a skip; the borrower is built from the source and is the stored one with its identifier or a new one |
| Commands.PrepareInvitation | app/commands.py:41-100 | decides a record without storing: succeeds iff the record is eligible (a new award, a supplier the source gives a borrower for, not opted out, a free key and uuid, an invitation that is sent); a success fits the stored rows, carries the record's award and a borrower built from the source |
| Commands.Invite | app/commands.py:82-100 | stores the award linked to the borrower, the borrower and one PENDING application keyed by the hash of legal identifier and contract id, with the uuid from the key, the borrower's e-mail and the expiry; one invitation message |
| Commands.CreateCompleteApplication | app/commands.py:41-100 | succeeds iff the record builds an award not yet stored, names a supplier the source gives a borrower for, that supplier has not opted out, the derived key and uuid are free and the invitation is sent; a failing record changes nothing; an existing award skips; a success is one invited application built from the source data with one invitation message; existing applications and opt-outs are kept and new keys are unique |
| Commands.IngestTwice | app/commands.py:41-100 | ingesting the same record again right after a success skips it as an existing award, so the two runs create at most one application |
| Commands.FirstEmpty | app/commands.py:139-152 | the index of the first empty page at or after the start |
| Commands.IngestPage | app/commands.py:142-148 | the page's records are ingested in order; the page passes iff every record has the two required keys, otherwise the run stops with a format error |
| Commands.FetchPages | app/commands.py:130-154 | pages 0, 1, … are read until the first empty one; a malformed record anywhere before it fails the run; otherwise the total is the sum of the page sizes and one more page was requested than was read |
| Commands.FetchAwards | app/commands.py:104-154 | mismatched or inverted dates are a usage error before any request; otherwise the requests start at the given date or else at `LastUpdated` (None, the default window, when any stored award lacks its update time), page offsets advance by the page size, the total is the sum of the page sizes, and ingestion keeps existing applications and opt-outs |
| Commands.FetchAwardByIdAndSupplier | app/__main__.py:159-170 | an empty response does nothing; otherwise only the first record is ingested |
| Sweeps.Reminders | app/commands.py:193-199 | one reminder message of the kind per reminded application, in order |
| Sweeps.RemindedHasMessage | app/models.py:652-654 | a recorded reminder is found by the reminder query afterwards |
| Sweeps.OtherKindUnseen | app/models.py:652-654 | reminders of one kind do not count as messages of another kind |
| Sweeps.IntroductionSilenced | app/models.py:375-386 | after every due application received the start reminder none is due it again, whatever is appended later |
| Sweeps.SubmissionSilenced | app/models.py:388-393 | after every due application received the submit reminder none is due it again |
| Sweeps.SubmissionDueUnaffected | app/commands.py:205-213 | start reminders leave the set of applications due a submit reminder unchanged |
| Sweeps.Remind | app/commands.py:190-203 | one message per reminded application, each once and each due; a failure stops the loop and keeps the earlier messages; the loop completes iff no due application fails |
| Sweeps.SendReminders | app/commands.py:171-233 | start reminders, then submit reminders selected afresh; a run that completes leaves no application due either reminder |
| Sweeps.LapsedRow | app/commands.py:247-248 | the row becomes LAPSED, stamped now |
| Sweeps.LapseSettles | app/models.py:395-414 | lapsing every selected application leaves none selected, and unselected applications are unchanged |
| Sweeps.UpdateApplicationsToLapsed | app/commands.py:237-250 | the lapsed applications are selected ones that did not fail; a run that completes lapses all selected and leaves none to lapse |
| Sweeps.ArchivedRow | app/commands.py:378-379 | the row's e-mail is cleared and it is archived now; uuid and status are kept |
| Sweeps.ErasedBorrower | app/commands.py:393-397 | legal name, e-mail, address, legal identifier and source data are cleared; the identifier and status stay |
| Sweeps.UnarchivedAfter | app/models.py:364-366 | archiving a set of applications removes exactly those from a borrower's unarchived ones |
| Sweeps.ErasedIffNoneLeft | app/commands.py:384-397 | the sweep erases a borrower iff it had an unarchived application and has none left afterwards |
| Sweeps.ArchiveSettles | app/models.py:416-439 | archiving every selected application leaves none to archive, deletes exactly their documents and keeps the others |
| Sweeps.HasOtherUnarchived | app/commands.py:385-392 | true iff the borrower has an unarchived application other than this one |
| Sweeps.ArchiveOne | app/commands.py:376-399 | the award becomes previous, the e-mail is cleared, the row is archived now and its documents deleted; the borrower is erased iff no unarchived application of it is left |
| Sweeps.RemoveDatedApplicationData | app/commands.py:366-399 | the archived applications are selected ones that did not fail, with their documents, awards and last-left borrowers handled; a run that completes archives all selected and leaves none to archive |
| Sweeps.TallyCounts | app/commands.py:328-333 | the count reported for a lender is the number of its applications near their deadline, each counted once |
| Sweeps.OverdueNotices | app/commands.py:335-346 | one staff notice per application past its deadline, in order |
| Sweeps.LenderNotices | app/commands.py:350-360 | one notice per counted lender, all attached to the last application handled; the row records no lender, as `Message.create` leaves `lender_id` unset |
| Sweeps.SlaRound | app/commands.py:326-348 | an application beyond the reminder fraction of its lender's SLA days raises its lender's count; one beyond all SLA days is stamped overdue and reported to staff, with no check on an earlier stamp |
| Sweeps.MeasureAll | app/commands.py:319-348 | every application STARTED or CONTRACT_UPLOADED is measured once; a failure stops the pass |
| Sweeps.NotifyLenders | app/commands.py:350-362 | exactly one lender notice per counted lender, each stored without a lender id |
| Sweeps.SlaOverdueApplications | app/commands.py:315-362 | the counts are the tally over the measured applications, the overdue ones are stamped, the staff notices follow in order, and after a completed pass one notice per counted lender is appended, stored without a lender id |
| MainCommands.UpdateApplicationsToLapsed | app/__main__.py:223-236 | in one transaction: all selected applications are lapsed iff none fails; otherwise nothing changes |
| MainCommands.RemoveDatedApplicationData | app/__main__.py:352-385 | as written, in one transaction: all selected applications are archived, their documents deleted and awards marked previous iff none fails, otherwise nothing changes; a borrower is erased iff one archived application was its only unarchived one when the run began |
| MainCommands.ArchiveUnflushed | app/__main__.py:359-383 | the loop stops at the first failing application; it completes iff none of the selected ones fails, and then all are archived against the store as it was at the start |
| MainCommands.ArchiveOneUnflushed | app/__main__.py:365-383 | one application archived with its award and documents; its borrower erased iff the store as the query sees it holds no other unarchived application of that borrower |
| MainCommands.UnflushedErasesLess | app/__main__.py:371-383 | a borrower the one-transaction command erases is one the per-application sweep erases too |
| MainCommands.TwoArchivedKeepData | app/__main__.py:371-383 | a borrower whose two or more unarchived applications are all archived in the run keeps its personal data, though none is left unarchived and the per-application sweep erases it |
| MainCommands.UnflushedEraseStep | app/__main__.py:371-383 | archiving one more application erases its borrower exactly when it was that borrower's only unarchived application at the start |
| MainCommands.RemoveDatedApplicationDataFlushed | app/__main__.py:352-385 | as intended: the same archiving, and a borrower is erased iff it has no unarchived application left after the run |
| BackgroundApplications.CreateApplication | app/background_processes/application_utils.py:23-61 | skips when the key (hash of legal identifier and contract id) is taken; otherwise one PENDING application with uuid from the key and expiry now plus the configured days |
| BackgroundApplications.CreateTwice | app/background_processes/application_utils.py:45-61 | creating for the same award and borrower twice succeeds at most once; the second is skipped as existing |
| BackgroundApplications.DatedPairsMatch | app/background_processes/application_utils.py:64-108 | an application matches the dated pairs iff it is DECLINED, REJECTED, COMPLETED or LAPSED with the matching stamp older than the period |
| BackgroundApplications.LapsedPairsMatch | app/background_processes/application_utils.py:111-150 | an application matches the lapse pairs iff it is PENDING since creation, ACCEPTED since acceptance or INFORMATION_REQUESTED since the request for longer than the period |
| BackgroundApplications.DatedAreArchivable | app/background_processes/application_utils.py:64-108 | the dated selection is exactly the retention sweep's |
| BackgroundApplications.LapsedAreLapseable | app/background_processes/application_utils.py:111-150 | the lapsed selection is exactly the lapse sweep's |
| BackgroundApplications.MessagedIff | app/background_processes/application_utils.py:161-163 | an application is in the messaged subquery iff a message of that type is recorded for it |
| BackgroundApplications.RemindIntroIsDue | app/background_processes/application_utils.py:153-185 | the background start-reminder selection is exactly the model's |
| BackgroundApplications.RemindSubmitIsDue | app/background_processes/application_utils.py:188-217 | the background submit-reminder selection is exactly the model's |
| BackgroundApplications.RemindedIntroLeaves | app/background_processes/application_utils.py:153-185 | once its reminder is recorded an application is no longer selected |
| BackgroundApplications.WaitingAgree | app/background_processes/application_utils.py:237-300 | while the borrower has answered at most one request, or fewer answers than requests, both day counts agree |
| BackgroundApplications.SweepsAgree | app/background_processes/application_utils.py:303-357 | under that condition the background SLA job counts, stamps and reports exactly as the command does |
| BackgroundApplications.SendOverdueReminders | app/background_processes/application_utils.py:303-357 | the SLA pass with the background day count: per-lender counts, overdue stamps and notices as in the command |
| GuestEmails.ChangeEmailStep | app/routers/guest/emails.py:37-39 | the token is set and a confirmation is pending; the primary e-mail and everything else are kept |
| GuestEmails.ConfirmEmailStep | app/routers/guest/emails.py:77-95 | 422 when no change is pending; a token without the separator fails to split; 403 when the token differs; otherwise the stored new e-mail becomes primary, and the pending flag and token are cleared |
| GuestEmails.ChangeConfirmRoundTrip | app/routers/guest/emails.py:37-95 | a change followed by a confirmation with the generated token sets the primary e-mail to the new one and clears the pending state, for addresses and tokens without the separator |
| GuestEmails.ConfirmTwice | app/routers/guest/emails.py:77-81 | a second confirmation after a successful one fails with 422 |
| GuestEmails.ChangeEmail | app/routers/guest/emails.py:16-58 | an invalid address is 422 and changes nothing; otherwise the token is stored with one action and one confirmation message; borrowers are untouched |
| GuestEmails.ConfirmEmail | app/routers/guest/emails.py:65-105 | each failure changes nothing; otherwise the confirmation step is applied and one action recorded |
| GuestEmails.ChangeThenConfirm | app/routers/guest/emails.py:16-105 | through the store, a successful change followed by a confirmation leaves the new primary e-mail with nothing pending, and borrowers unchanged |
| Text.SplitFirstTwo | app/routers/guest/emails.py:83 | the first two parts of a split on the separator; a value error iff the separator is absent |
| Text.SplitJoined | app/routers/guest/emails.py:38 | splitting a value joined with the separator recovers both parts when neither contains it |
| GuestApplications.Decline | app/routers/guest/applications.py:55-96 | only from PENDING and unexpired; the application becomes DECLINED with its data and time, and the borrower opts out of all opportunities iff asked to |
| GuestApplications.RollbackDecline | app/routers/guest/applications.py:97-133 | only from DECLINED and unexpired; the application returns to PENDING with the decline data cleared, and an opted-out borrower becomes active again |
| GuestApplications.DeclineRollbackRoundTrip | app/routers/guest/applications.py:59-121 | declining a fresh pending application and rolling it back restores both the application and the borrower |
| GuestApplications.RollbackDeclineTwice | app/routers/guest/applications.py:97-133 | a second rollback after a successful one fails with 409 |
| GuestApplications.AccessScheme | app/routers/guest/applications.py:168-209 | only from PENDING and unexpired; the application becomes ACCEPTED, stamped now, with the expiry cleared, and the fetch of its borrower's previous awards is scheduled |
| GuestApplications.SelectCreditProduct | app/routers/guest/applications.py:273-323 | only from ACCEPTED and unexpired; the calculator data and product are stored and stamped, the borrower's size and sector set, one action recorded |
| GuestApplications.RollbackSelectGuard | app/routers/guest/applications.py:341-351 | passes iff a credit product is selected and no lender is assigned, else 400 |
| GuestApplications.RollbackSelectCreditProduct | app/routers/guest/applications.py:324-365 | the product and its time are cleared and the status stays ACCEPTED; the guard's 400 changes nothing |
| GuestApplications.SelectRollbackRoundTrip | app/routers/guest/applications.py:273-365 | selecting and then rolling back restores the application except for the calculator data |
| GuestApplications.ConfirmGuard | app/routers/guest/applications.py:384-395 | passes iff a selected product exists, else 400 |
| GuestApplications.LatestRejected | app/routers/guest/applications.py:409-419 | finds the newest REJECTED application with the same key, if any |
| GuestApplications.CopyDocuments | app/routers/guest/applications.py:420-440 | every document of the required types of the source is copied to the application, unverified; nothing else is added |
| GuestApplications.WithLoanTerms | app/routers/guest/applications.py:397-401 | the requested amount, repayment years and months and payment start date are taken from the calculator data, each absent iff the data lacks it; nothing else changes |
| GuestApplications.ConfirmCreditProduct | app/routers/guest/applications.py:366-461 | the lender is set from the product, the loan terms from the calculator data and documents become pending; the required documents of the newest rejected application with the same key are copied |
| GuestApplications.SubmitGuard | app/routers/guest/applications.py:485-495 | passes iff a credit product and a stored lender are set, else 400 |
| GuestApplications.Submit | app/routers/guest/applications.py:462-533 | only from ACCEPTED; the application becomes SUBMITTED, stamped, with no documents pending; one submission message |
| GuestApplications.UploadDocument | app/routers/guest/applications.py:534-572 | the file is validated first; 400 unless documents are pending; otherwise the document of that type is stored unverified (updated or created) and one action recorded |
| GuestApplications.CompleteInformationRequest | app/routers/guest/applications.py:573-627 | only from INFORMATION_REQUESTED; the application returns to STARTED with no documents pending, and one action and one message are recorded |
| GuestApplications.ConfirmUploadContract | app/routers/guest/applications.py:659-719 | only from APPROVED; the application becomes CONTRACT_UPLOADED with the amount and time, with two messages and one action |
| GuestApplications.CopyOf | app/routers/guest/applications.py:758-770 | the copy is ACCEPTED with uuid derived from the old one, the same award, borrower, key, e-mail and calculator data, and no lender or product |
| GuestApplications.FindCopiedAction | app/routers/guest/applications.py:738-756 | true iff a COPIED_APPLICATION action is recorded for the application |
| GuestApplications.FindAlternativeCreditOption | app/routers/guest/applications.py:720-804 | only from REJECTED, and 409 if the application was already copied; otherwise one new application is stored, one message sent, and COPIED_APPLICATION and APPLICATION_COPIED_FROM recorded |
| GuestApplications.FindAlternativeTwice | app/routers/guest/applications.py:720-804 | a second request after a successful one fails with 409 |
| LenderApplications.LenderGuard | app/routers/applications.py:74-88 | passes iff the user belongs to the application's lender and the status is allowed; 401 for another lender, 409 for a wrong status |
| LenderApplications.StartApplication | app/routers/applications.py:1004-1051 | only from SUBMITTED (else 409) and only for the application's lender (else 401); the application becomes STARTED with the lender's start time |
| LenderApplications.EmailSme | app/routers/applications.py:1554-1630 | as written: 404, then the lender guard; past it the application becomes INFORMATION_REQUESTED with documents pending; one action and one lender message carrying the body when the e-mail is sent; when sending fails, a 500 with the changed row kept and no action or message |
| LenderApplications.EmailSmeAtomic | app/routers/applications.py:1554-1630 | as intended: the same guards and changes when the e-mail is sent; a failure of any kind, including the e-mail, changes nothing |
| LenderApplications.ApproveApplication | app/routers/applications.py:190-251 | 404, then the lender guard (401, then 409 unless STARTED); then 422 while a borrower data field is unverified, then 422 while a document of the application is unverified; succeeds iff all of these pass, and the application becomes APPROVED with its data, with one action and one approval message |
| LenderApplications.RejectApplication | app/routers/applications.py:43-123 | only from STARTED or CONTRACT_UPLOADED; the application becomes REJECTED; the alternatives offered are the `Alternatives` products |
| LenderApplications.Alternatives | app/routers/applications.py:97-110 | only products for the borrower's size, from another lender, whose limits bracket the requested amount; none without a lender or amount |
| LenderApplications.AlternativesComplete | app/routers/applications.py:97-110 | every product meeting those conditions is offered |
| LenderApplications.OwnProductsNotOffered | app/routers/applications.py:97-110 | no product of the rejecting lender is offered |
| LenderApplications.CompleteApplication | app/routers/applications.py:124-189 | only from CONTRACT_UPLOADED; the application becomes COMPLETED with the disbursed amount and the days passed computed from the action log |
| LenderApplications.VerifyDataField | app/routers/applications.py:714-767 | as written: 404, then 409 outside STARTED and INFORMATION_REQUESTED, then 401 for another lender, and otherwise always 422, because the payload is passed where a field name is expected; nothing changes |
| LenderApplications.VerifyDataFieldByName | app/routers/applications.py:714-767 | as evidently intended, with a field name: the same guards, then the field's verification flag flips and one action is recorded |
| LenderApplications.VerifyDocument | app/routers/applications.py:768-821 | only while STARTED or INFORMATION_REQUESTED and for the application's lender; the document's verified flag is set; one action |
| LenderApplications.LenderPath | app/routers/applications.py:43-251 | a SUBMITTED application of the user's lender can be started, approved and, once its contract is uploaded, completed, keeping the start time |
| LenderApplications.RejectedIsFinal | app/routers/applications.py:43-251 | a REJECTED application passes none of the lender's transition guards |

## Left out

- The HMAC-SHA256 hash and uuid5 are deterministic parameters. Equal inputs give equal outputs, and nothing more is assumed.
- HTTP requests, retries and JSON decoding are left out. The source's answers are inputs, as lists of records (string maps) per page or per lookup.
- E-mail rendering and delivery are left out. A sent mail is one appended `Message` of its type. In the sweeps a delivery failure is the `failing` set of application ids; in ingestion it is the source's `invitationFails` test on the new application's uuid, and it rolls the record back.
- Authentication, Cognito and AWS are left out. The current user is an input.
- Statistics refresh, PDF and CSV export, and time zones are left out.
- The statistics update and the role-checked `check_FI_user_permission_or_OCP` are left out.
- The endpoints `decline_feedback`, `upload_contract`, `credit_product_options`, `upload_compliance`, `get_application` and `previous_contracts` are not part of this model. Neither are the duplicated guest endpoints in app/routers/applications.py.
- `rollback_on_error` and `transaction_session` (app/db.py) are not part of this model. They are taken to roll back the current item and re-raise. A per-application sweep therefore stops at the first failure with the earlier items committed.
- `handle_skipped_award` (app/db.py) is not part of this model. Like `transaction_session_logger` in the same file, it is taken to roll back the current record and absorb the error, whether a skip or any other exception. Ingestion and the previous-awards job therefore carry on with the next record.
- `check_FI_user_permission` is not part of this model. It is modelled like the explicit check in `start_application`: 401 unless the user's lender is the application's.
- `reject_application`, `approve_application` and `complete_application` in app/utils/applications.py are not part of this model. They are taken to set the status and its lender timestamp, plus the data or the disbursed amount. `approve_application` is also taken to refuse with 422 while a borrower data field, and then while a document, is unverified, as tests/routers/test_applications.py:260-282 expects. Because `verify_data_field` as written never changes a flag (see Findings), approval then succeeds only for an application whose data fields were verified before.
- `get_application_by_id` and `get_document_by_id` in app/utils/applications.py are not part of this model. They are taken to answer 404 for an id that is not stored.
- The SLA reminder fraction, a float in the settings, is an integer numerator over a positive denominator.
- The names of statuses, message types and settings drift between files. Each is modelled once under one name.
- `ActionTimes` takes the order of the action log as the order of `created_at`. The source sorts by time.
- `complete_information_request` records a message whose type is an action type (`BORROWER_DOCUMENT_UPDATE`). The model gives it its own message type.
- The lender notices sent at the end of the SLA sweep cannot fail in the model. A failure there is outside the sweep's per-application transactions.
- BackgroundApplications.SendOverdueReminders does not model the background job's per-lender e-mail bookkeeping beyond the counts and the notices.
- BackgroundApplications.CreateApplication also skips when the derived uuid is already taken. The source would raise from the uniqueness constraint there.
- ApplicationUtils.GetAllActiveApplications: the sort by a column is left out. `order` is any listing of the stored applications, each once, and the contract does not fix the order of the items.
- ApplicationUtils.GetAllFiUserApplications: the same as above, the sort order is left out.
- ApplicationUtils.UpdateApplicationBorrower and ApplicationUtils.UpdateApplicationAward write the payload to a `Record` instance standing for the application's borrower or award. The model does not tie that instance to the typed rows in `db.borrowers` and `db.awards`, so the stored rows are not shown to change. The award row lacks most of the columns the award payload edits.
- GuestApplications.AccessScheme: the statistics refresh it schedules is left out. The previous-awards fetch it schedules is returned as `fetchFor` and modelled as `Util.GetPreviousAwardsFromDataSource`.
- Commands.FetchAwards: the log line and the "No new contracts" early return are folded into the result. The total is returned rather than logged.
- Commands.IngestTwice: it states the second run over the same record. It does not speak of arbitrary interleavings of runs.

- Models.NewApplication, and every `Action`, `Message` and new `Document` row: stamped with the request time `now`. In the source, the creation-time columns default to `datetime.utcnow()` evaluated once when app/models.py is imported (app/models.py:252-253, 269-270, 327-328, 703-704), so a row inserted without an explicit time carries the time the process started. The model takes the evidently intended insertion time. Only the update in app/util.py:243-249 sets `submitted_at` explicitly.
- GuestApplications.UploadDocument: app/routers/guest/applications.py:555-557 passes `(filename, application, type, session, new_file)` to `create_or_update_borrower_document`, which app/util.py:210-215 declares as `(session, filename, application, type, file)`. As written, every upload past the guards would fail on `filename.query` and be rolled back. The model takes the intended binding, which tests/routers/test_applications.py:237-243 expects; the same holds for the contract upload at app/routers/guest/applications.py:644-650.

## Findings

| source | as written | input that shows it | evidently intended | confidence | as-written member | corrected member |
|---|---|---|---|---|---|---|
| app/routers/applications.py:750 | `verify_data_field` hands the whole request payload to `update_data_field`, whose membership test (app/utils/applications.py:39) compares it with field names and so always fails with 422 | a STARTED application of the user's lender and the payload `{"legal_name": true}`, the request tests/routers/test_applications.py:267 expects to succeed | the named field's verification flag flips | not executed; medium | LenderApplications.VerifyDataField, ApplicationUtils.PayloadNeverAField | LenderApplications.VerifyDataFieldByName, ApplicationUtils.UpdateDataFieldTwice |
| app/routers/applications.py:1624-1630 | on a `ClientError` from the e-mail client, `email_sme` returns the `HTTPException` instead of raising it, so `transaction_session` (app/db.py:32-34) commits the status change to INFORMATION_REQUESTED, `information_requested_at` and `pending_documents` without the action and the message | a STARTED application of the user's lender, with the e-mail service answering with a `ClientError` | the request fails with 500 and the whole transaction is rolled back | not executed; medium | LenderApplications.EmailSme | LenderApplications.EmailSmeAtomic |
| app/__main__.py:371-383 | `remove_dated_application_data` archives every selected application in one transaction on a session that does not autoflush (app/db.py:16-19), so the query for the borrower's other unarchived applications still sees those archived earlier in the run as unarchived | a borrower with exactly two unarchived applications, both past the retention period | the borrower's personal data is cleared once it has no unarchived application left, as the comment at app/__main__.py:370 says | not executed; medium | MainCommands.RemoveDatedApplicationData, MainCommands.TwoArchivedKeepData | MainCommands.RemoveDatedApplicationDataFlushed, Sweeps.ErasedIffNoneLeft |
