# Verified model of the door terminal

This project models the parts of a face, fingerprint and RFID door terminal that hold state, speak a protocol or encode
data, and proves what they keep. Objects that the C++ code updates in place are classes with imperative methods; each
method is proved against a function of the state before it, and the lemmas are about these functions, so they hold for
what the methods compute. SQL statements, the network, the server, the sensor and the clock are arguments: every result
holds for all their outcomes unless it names a condition, and where a condition is needed the lemma says "if and only
if" wherever the other direction holds too.

`dafny verify dfyconfig.toml` checks everything.

| file | about |
|---|---|
| `PersonStore.dfy`, `StoreAgreement.dfy` | the list of persons in RAM against the SQL table: the operations, and when the two agree |
| `PersonEffects.dfy` | what each operation does to the one person it is about and leaves to all others, over operations and runs |
| `ExactFingerIds.dfy` | when the finger ids of list and table are the same numbers, over operations and runs |
| `FingerIds.dfy` | finger ids, allocated and stored in separate steps, against a ledger of who was given which id last |
| `UploadSync.dfy`, `SyncTimer.dfy` | offline uploads (0 pending, 2 uploading, 1 uploaded), the pass over them and its retry timer |
| `PassPermission.dfy`, `PassDecision.dfy` | the permission text, written, read back and decided upon |
| `RegisteredFaces.dfy` | the class with the imperative methods of the topics above, and the form that captures fingers |
| `SensorFrames.dfy`, `Enrollment.dfy` | packets of the fingerprint sensor, templates, and the enrollment against an observer of its events |
| `EnrollmentTraces.dfy` | how long an enrollment polls, why it may fail and which id it stores, over its events |
| `SensorReplies.dfy` | the enrollment with a sensor whose replies wait until they are read or flushed |
| `PushBatches.dfy`, `PushRequests.dfy` | the manual push of attendance records: its loop, and its requests in every interleaving with the thread |
| `PeoplePaging.dfy` | the pages of "get all people" |
| `Base64.dfy`, `TrackSlots.dfy`, `BoxOverlap.dfy` | the Base64 codec, the slots of tracked faces, the overlap of boxes |

## How the model reads the code

- A row of `person` and an entry of the list share a record of 20 mirrored columns. "Agreement" compares the columns as a
  restart would load them (an empty sex reads "unknow") and reads every finger id below 1 as "none"; `ExactFingerIds.dfy`
  compares the finger ids as numbers. The rows are in the order of the primary key, which is the order in which the
  loader's SELECT gives them.
- `Valid` is agreement plus distinct uuids, ascending positive personids, and `featuresize` equal to the length of the
  feature.
- The form keeps a captured finger with its id until it is registered for a person; captures, registrations, clearing the
  form and all other operations are separate steps of a run.
- The sensor of `Enrollment.dfy` is three functions of the whole session so far, its trace included: whether a write is
  accepted, what a read gives (`None` for a lost or malformed reply), and whether the port is open after a flush. The
  events are observed by an automaton that knows only the trace. `SensorReplies.dfy` puts a queue in front of the reads: a
  written command adds one reply or none, a flush empties the queue, a read takes its head.
- A manual push runs in steps; between any two steps where the mutex is free, a request may come in. Its count and each of
  its pages is what a SELECT gave, or a failed SELECT.
- The response of "get all people" holds the buffers of `papi.h`; a text is copied into its buffer without a terminator, and
  a reader sees what is in front of the first one.
- `uploadStatus` is not among the columns compared, since an INSERT leaves it to its column default and the loader does not
  read it. Flags and timers that constructors leave unset start as false and null, C buffers are long enough for their texts.
- The passage decision reads the clock once; the code reads it several times within microseconds.

## What turned out not to hold

Each of these is a lemma; where a property can still hold, its exact condition is a lemma too.

- Raw finger ids of list and table: a registration leaves 0 in the list and -1 in the row
  (`RegistrationFingerIdsDiffer`). An operation keeps them the same if and only if it is not a written registration
  (`StepKeepsExactIff`); at the end of a run a person's ids differ if and only if the person was registered in it and no id
  was stored, no ids were cleared and the person was not deleted since (`RunDiffersIff`).
- Agreement breaks exactly when a new employee is registered with a uuid in use or while the highest personid cannot be
  read, or when a deleted row stays because its statement failed (`StepKeepsValid`, `ReusedUuidBreaksAgreement`).
- Two enrollments that allocate before either stores share a finger id (`InterleavedEnrollmentsShare`), and so do two
  persons when a finger's id could be stored for the first and its data could not (`HalfSavedFingerIsShared`).
  `SaveKeepsDistinctIff` says when registering a finger keeps the ids distinct.
- A record is stuck at "uploading" exactly when it could be marked and not written afterwards (`StuckIff`); such a record,
  and one that is pending in the table while the list says otherwise, is never tried again (`NeverRetried`,
  `SkippedForever`). A restart that loads status 0 for everyone is what ends it for the second kind.
- The retry timer stops with records pending exactly when a tick cannot read the table (`StepKeepsWatchIff`).
- The reply to RegModel is not read before Store is written. A sensor that answers it decides the verdict with that answer:
  one that refuses Store can complete (`RefusedStoreCompletes`) and one that stores can fail (`StoredFingerFails`). The
  verdict is the reply to Store, whatever it is, if and only if RegModel is left unanswered (`VerdictIsStoresIff`).
- A template survives upload and download exactly when it has 1 to 247 bytes (`TemplateRoundTrip`); templates of 65537 to
  65783 bytes come back cut without an error (`OversizedTemplateIsCut`).
- The framing round trip needs noise without an adjacent EF 01, and exactly that (`FramingRoundTrip`).
- The exist list of the track slots holds tracking ids, the slots hold these plus one, so listed faces are not protected
  (`ListedTrackingIdDoesNotProtect`, `SurvivesMissIff`).
- Setting a pass permission empties the face feature and resets the access level (`SetPermissionEffect`). The round trip of
  the weekly text holds exactly for a time range with one separator (`WeeklyRoundTrip`). A date range in its documented
  form is never enforced (`DateRangeIsNotEnforced`).
- A manual push reports success although it visited nothing when its count cannot be read
  (`FailedCountIsReportedAsSuccess`). Over a table that does not change, a push that reports success has visited its range
  if and only if its SELECTs succeeded or the range is empty (`StillRunVisits`).
- Records that arrive during a manual push shift its pages: `RecordVisits` and `ArrivalVisits` say how often each old and
  each new record is visited. After one arrival one record is visited twice, and the oldest one is missed exactly when the
  number of records is a multiple of five (`OneArrival`).
- A deletion whose statement fails drops the person from the list all the same (`FailedDeletionUnlists`). A direct update
  without a feature keeps the stored one (`DirectUpdateIsStored`), unless it cannot be selected
  (`DirectUpdateEmptiesFace`).
- A response that is used again mixes the texts of two persons: "Bob" over "Alexandra" reads "Bobxandra"
  (`UsedRecordMixesTexts`). The pages show the list if and only if the old buffers have a terminator behind every new text
  that does not fill its buffer (`PagesAreTheListIff`), as zeroed ones do (`PagesAreTheList`).
- A page after the last one repeats the whole list when all persons fit on one page with room to spare (`PagesBeyond`).
- A valid push request is refused also between the end of a push and its reset (`RefusedIff`).

## Model

| member | source | states |
|---|---|---|
| `StoreAgreement.StepKeepsValid` | DB/RegisteredFacesDB.cpp:1560-2402 | One operation of any kind, with any arguments and SQL outcomes, keeps list and table in agreement, with finger ids below 1 read as none, if and only if it is admissible: a new employee has a fresh uuid and the highest personid was readable, a deleted row was deleted |
| `StoreAgreement.RunKeepsValid` | DB/RegisteredFacesDB.cpp:1560-3184 | Over every run, that agreement holds after each operation if and only if each was admissible in its turn |
| `StoreAgreement.RegisterNew` | DB/RegisteredFacesDB.cpp:1597-1747 | Registering a new employee keeps the store valid exactly when the uuid is not in use |
| `StoreAgreement.RegisterKnown` | DB/RegisteredFacesDB.cpp:1597-1747 | Registering a known employee replaces that person's entry and row, and nothing else |
| `StoreAgreement.RegisterWithoutMax` | DB/RegisteredFacesDB.cpp:1363-1374 | When the highest personid cannot be read and the table is not empty, the registration breaks agreement |
| `StoreAgreement.NextPersonIdIsFresh` | DB/RegisteredFacesDB.cpp:1363-1374 | The next personid is positive and above every personid in the table, so no other person's row is overwritten |
| `StoreAgreement.RegisterThenFind` | DB/RegisteredFacesDB.cpp:1597-1747 | After a registration the employee id leads, in list and table at the same place, to a person with the registered data; a known employee keeps uuid and personid |
| `StoreAgreement.UpdateThenFind` | DB/RegisteredFacesDB.cpp:2098-2300 | After an update the uuid leads, in list and table at the same place, to a person whose non-empty arguments were stored and whose other columns stayed, and everybody else is as before |
| `StoreAgreement.UpdateKeepsValid` | DB/RegisteredFacesDB.cpp:2098-2300 | An update with any arguments, picture outcome and SQL outcome keeps the store valid |
| `StoreAgreement.DeleteKeepsValid` | DB/RegisteredFacesDB.cpp:2784-2804 | Deleting keeps the store valid if and only if the statement succeeds or nobody has that uuid |
| `PersonEffects.FaceIsStored` | DB/RegisteredFacesDB.cpp:2807-2900 | A stored face is found under the uuid in list and table, with its size and the new image or the old one; every other column and person stays |
| `PersonEffects.FaceIsRefused` | DB/RegisteredFacesDB.cpp:2807-2900 | Without an employee id, for nobody, or when the statement fails, storing a face changes nothing |
| `PersonEffects.StoredFaceStays` | DB/RegisteredFacesDB.cpp:1560-3184 | A stored face is what list and table hold after any run that registers, updates or deletes its person no more, whatever else happens to this person and all others |
| `PersonEffects.RunLeavesOthers` | DB/RegisteredFacesDB.cpp:1560-3184 | Over any run that is never about a person, entry and row of that person stay as they were |
| `PersonEffects.StepLeavesOthers` | DB/RegisteredFacesDB.cpp:1560-3184 | No operation touches a person it is not about |
| `PersonEffects.KnownIsRegistered` | DB/RegisteredFacesDB.cpp:1597-1747 | After registering a known employee, the old uuid leads to the new data under the old key, column by column |
| `PersonEffects.NewIsRegistered` | DB/RegisteredFacesDB.cpp:1597-1747 | A new employee is found under the given uuid or a fresh one, with the next key, column by column, and nobody else changes |
| `PersonEffects.UpdateIsStored` | DB/RegisteredFacesDB.cpp:2098-2300 | An update in full: every column of entry and row, with the face that the request brought or none |
| `PersonEffects.UpdateReports` | DB/RegisteredFacesDB.cpp:2098-2300 | The result code tells which condition stopped an update, and then nothing changed |
| `PersonEffects.DirectUpdateIsStored` | DB/RegisteredFacesDB.cpp:2306-2402 | A direct update stores its columns, and the given feature or else the stored one |
| `PersonEffects.DirectUpdateEmptiesFace` | DB/RegisteredFacesDB.cpp:2306-2402 | Without a feature, and when the stored one cannot be selected, a direct update empties the face |
| `PersonEffects.FingerprintIsStored` | DB/RegisteredFacesDB.cpp:2940-3087 | A fingerprint is stored as given on both sides, or emptied, for one person only |
| `PersonEffects.FingerIdIsStored` | DB/RegisteredFacesDB.cpp:3089-3107 | A finger id is stored as given on both sides, for one person only |
| `PersonEffects.NewColumnsAreStored` | DB/RegisteredFacesDB.cpp:2609-2650 | The four newer columns are stored as given, for one person only |
| `PersonEffects.StatusIsStored` | DB/RegisteredFacesDB.cpp:609-712 | An upload status is stored as given, for one person only |
| `PersonEffects.DeletedIsGone` | DB/RegisteredFacesDB.cpp:2784-2804 | A deleted person is found nowhere and nobody else is affected |
| `PersonEffects.FailedDeletionUnlists` | DB/RegisteredFacesDB.cpp:2784-2804 | A deletion whose statement fails still drops the person from the list, and only there |
| `PersonEffects.FailureChangesNothing` | DB/RegisteredFacesDB.cpp:1560-3184 | An operation whose statement fails or whose arguments are refused changes nothing, a deletion apart |
| `PersonEffects.ShownIff` | DB/RegisteredFacesDB.cpp:2529-2592 | Columns agree if and only if all twenty are the same, up to an empty sex, a key below 1 and the number for "no finger" |
| `PersonEffects.LoadingShows` | DB/RegisteredFacesDB.cpp:2529-2592 | Loading a sound table takes over every column and replaces an empty sex only |
| `StoreAgreement.RegistrationFingerIdsDiffer` | DB/RegisteredFacesDB.cpp:1609-1747 | After a registration some entry has finger id 0 while a restart would load -1 for it |
| `ExactFingerIds.StepDiffers` | DB/RegisteredFacesDB.cpp:1560-3184 | After any admissible operation a person has different ids in list and row if and only if it registered the person, or they differed before and it neither stored an id for the person, nor cleared all, nor deleted the person |
| `ExactFingerIds.StepKeepsExactIff` | DB/RegisteredFacesDB.cpp:1560-3184 | Equal finger ids in list and table stay equal if and only if the operation is not a written registration |
| `ExactFingerIds.StaysExactIff` | DB/RegisteredFacesDB.cpp:1560-3184 | They are equal after every operation of a run if and only if no registration in it was written |
| `ExactFingerIds.RunDiffersIff` | DB/RegisteredFacesDB.cpp:1560-3184 | At the end of a run a person's ids differ if and only if some operation registered the person and no later one restored the ids |
| `ExactFingerIds.ClearAllRestores` | DB/RegisteredFacesDB.cpp:3164-3184 | Clearing all finger ids makes the two sides equal, whatever they were |
| `ExactFingerIds.LoadingIsExact` | DB/RegisteredFacesDB.cpp:2529-2592 | After loading, list and table hold the same finger ids |
| `StoreAgreement.ReusedUuidBreaksAgreement` | DB/RegisteredFacesDB.cpp:2784-2804 | After registering a new employee under a uuid in use, deleting that uuid leaves list and table with different persons |
| `PersonStore.LoadingAgrees` | DB/RegisteredFacesDB.cpp:2529-2592 | Loading a table with positive keys and distinct uuids gives a valid store |
| `FingerIds.FingerIdsIdentify` | SettingFuncFrms/ManagingPeopleFrms/AddUserFrm.cpp:826-1051 | Over every run in which capturing a finger (which allocates), registering it (which stores), clearing the form and all store operations come in any order, no two persons share a positive finger id in table or list, and looking one up gives the person it was last given to and who kept it, or nobody |
| `FingerIds.StepKeepsLedger` | SettingFuncFrms/ManagingPeopleFrms/AddUserFrm.cpp:826-1051 | Each step moves the history of given ids and the table in step, and the id of a finger waiting in the form stays free or with the one person who got it |
| `FingerIds.AllocatedIdIsFree` | SettingFuncFrms/ManagingPeopleFrms/AddUserFrm.cpp:867 | A new id, also in the 16 bits the form keeps it in, is held by nobody |
| `FingerIds.LookupIs` | DB/RegisteredFacesDB.cpp:3121-3132 | Looking up an id in the list finds the holder in the table's history, or nobody |
| `FingerIds.AssignKeepsDistinctIff` | DB/RegisteredFacesDB.cpp:3089-3107 | Giving an id keeps ids distinct if and only if it is no id, there is nobody to take it, or nobody else holds it |
| `FingerIds.SaveKeepsDistinctIff` | SettingFuncFrms/ManagingPeopleFrms/AddUserFrm.cpp:966-1051 | Registering the captured finger keeps ids distinct if and only if its id reaches nobody, is no id, or is held by nobody else |
| `FingerIds.HalfSavedFingerIsShared` | SettingFuncFrms/ManagingPeopleFrms/AddUserFrm.cpp:966-1051 | When a finger's id could be stored for one person and its data could not, registering it for another person gives both the same id |
| `FingerIds.CapturedFingerIsStored` | SettingFuncFrms/ManagingPeopleFrms/AddUserFrm.cpp:826-1051 | A finger captured and then registered is held, on both sides and for one person alone, with the id above the highest one and all its data; the form forgets it |
| `FingerIds.PackedBytes` | SettingFuncFrms/ManagingPeopleFrms/AddUserFrm.cpp:826-942 | The data of a finger: id, size of the template, and all of the template |
| `FingerIds.SavingIsTwoSteps` | SettingFuncFrms/ManagingPeopleFrms/AddUserFrm.cpp:966-1051 | Registering is storing the data and then the id; the form forgets the finger exactly when both worked |
| `FingerIds.NothingHeldSavesNothing` | SettingFuncFrms/ManagingPeopleFrms/AddUserFrm.cpp:826-1051 | After a failed capture, a cleared form or a full registration nothing can be registered |
| `FingerIds.InterleavedEnrollmentsShare` | SettingFuncFrms/ManagingPeopleFrms/AddUserFrm.cpp:867-1019 | Two enrollments that both allocate before either stores end with one id for two persons |
| `UploadSync.SyncPassOutcome` | DB/RegisteredFacesDB.cpp:843-919 | For every outcome of every write, picture and upload: each pending record ends where its outcomes say, every other record is untouched, and successes, failures and skipped records add up to the pending count |
| `UploadSync.AllWritesSucceed` | DB/RegisteredFacesDB.cpp:843-919 | With all status writes succeeding, pending records end at 0 or 1, and the pending count falls by exactly the successes |
| `UploadSync.StuckIff` | DB/RegisteredFacesDB.cpp:855-905 | A record is at 2 after a pass if and only if it was before, or was marked and its last write failed |
| `UploadSync.UploadedIff` | DB/RegisteredFacesDB.cpp:855-905 | A record is at 1 after a pass if and only if it was before, or was pending with its status read as 0, could be marked, its picture read, accepted by the server, and that written |
| `UploadSync.StillPendingIff` | DB/RegisteredFacesDB.cpp:855-905 | A record is at 0 after a pass if and only if it was pending and was skipped, could not be marked, or could be put back after a failure |
| `UploadSync.SuccessesAreUploaded` | DB/RegisteredFacesDB.cpp:843-919 | The success count is the number of records that became uploaded |
| `UploadSync.SkippedAreUnread` | DB/RegisteredFacesDB.cpp:855-858 | The skipped count is the number of pending records whose status is not read as 0 |
| `UploadSync.StatusReadIs` | DB/RegisteredFacesDB.cpp:1007-1034 | How a status is read: list first, then table with NULL as uploaded, else -1 |
| `UploadSync.NeverRetried` | DB/RegisteredFacesDB.cpp:767-858 | No number of passes touches a record that is at 2, or pending while the list says otherwise |
| `UploadSync.PassEmptiesIff` | DB/RegisteredFacesDB.cpp:843-919 | When everything works, nothing is left pending if and only if the list said pending of every pending record |
| `UploadSync.PendingUuidsAre` | DB/RegisteredFacesDB.cpp:767-812 | The selected records are exactly the pending rows, each once |
| `SyncTimer.StepKeepsWatchIff` | DB/RegisteredFacesDB.cpp:409-567 | An operation keeps "pending implies timer active" if and only if it is not a tick that fails to read the pending records |
| `SyncTimer.RunKeepsWatch` | DB/RegisteredFacesDB.cpp:409-567 | Over every run of sends, ticks and manual triggers whose ticks can read the table, a pending record implies a running timer |
| `SyncTimer.TickStopsIff` | DB/RegisteredFacesDB.cpp:447-486 | A tick that can read the table stops the timer exactly when nothing was pending, or a pass uploaded some and left nothing pending |
| `SyncTimer.TickSynchronisesIff` | DB/RegisteredFacesDB.cpp:447-486 | A tick makes a pass over the store exactly when it fires, sees pending records twice and finds the network up twice |
| `SyncTimer.SendOutcome` | DB/RegisteredFacesDB.cpp:488-567 | A send whose write succeeds leaves the first person with this employee id at 1 when the server got it, else at 0, among the pending records and with the timer running; nobody else changes |
| `SyncTimer.SendFromTable` | DB/RegisteredFacesDB.cpp:488-567 | An employee missing in the list is looked for in the table |
| `SyncTimer.SendChangesNothing` | DB/RegisteredFacesDB.cpp:488-567 | For nobody, without a picture or when the write fails a send changes nothing, and reports success only when the server got the person |
| `SyncTimer.OfflineSendThenTick` | DB/RegisteredFacesDB.cpp:447-567 | A person sent offline is uploaded by the next good tick |
| `SyncTimer.ManualStarts` | DB/RegisteredFacesDB.cpp:1883-1899 | A manual trigger starts the timer exactly when it sees pending records, and does nothing else |
| `SyncTimer.GoodTickEmptiesIff` | DB/RegisteredFacesDB.cpp:447-486 | With everything up and accepted, one tick empties the pending set and stops the timer if and only if RAM and table statuses agree |
| `SyncTimer.SkippedForever` | DB/RegisteredFacesDB.cpp:855-858 | A record pending in the table but not in the list survives any number of ticks, the timer running on |
| `PassPermission.WeeklyRoundTrip` | HttpServer/protocol.cpp:1326-1354 | Setting and reading back gives the time range and exactly the named days, ascending, whatever order, duplicates or unknown tokens were sent, if and only if the range has one separator |
| `PassPermission.ReadBackIsStable` | HttpServer/protocol.cpp:1388-1417 | Setting what was read back stores the identical text, if and only if the range has one separator |
| `PassPermission.NamesIff` | HttpServer/protocol.cpp:1388-1417 | A request names a day if and only if the digit of the day, Monday being 1, stands alone between commas |
| `PassPermission.DateRangeRoundTrip` | HttpServer/protocol.cpp:1326-1354 | A date range is read back as it was set if and only if it has exactly one semicolon |
| `PassPermission.WeeklyReading` | HttpServer/protocol.cpp:1326-1354 | The reading in terms of the two times of the range |
| `PassPermission.BuildPermission` | HttpServer/protocol.cpp:1388-1417 | The nested loops append, for each day, a comma and whether the request names it |
| `PassPermission.ReadPermission` | HttpServer/protocol.cpp:1326-1354 | The reader's loop; it indexes a missing section if and only if the text has no semicolon and fewer than eight commas |
| `PassDecision.WeeklyHoursHold` | DB/RegisteredFacesDB.cpp:1247-1284 | After "hh:mm;hh:mm" and days are set through the store, the person passes if and only if the time is from the first to the second, both included, and the day is named, for every device table; reading gives range and days back |
| `PassDecision.WeeklyPermissionHolds` | DB/RegisteredFacesDB.cpp:1247-1284 | The same for any two texts as times: the end must be a time of day that is not over, the start one that has come or none at all |
| `PassDecision.OpenIff` | DB/RegisteredFacesDB.cpp:1256-1262 | The comparison of the code is that window |
| `PassDecision.WindowOfTimes` | DB/RegisteredFacesDB.cpp:1256-1262 | For two times of day the window is the interval between them, ends included |
| `PassDecision.WeeklyDecision` | DB/RegisteredFacesDB.cpp:1247-1284 | What a weekly text decides, for time ranges with any number of separators and any texts as times |
| `PassDecision.SectionsDecide` | DB/RegisteredFacesDB.cpp:1247-1284 | Any text of nine sections decides by its window and the flag of the day |
| `PassDecision.StrangersMeetTheDeviceTable` | DB/RegisteredFacesDB.cpp:1209-1247 | A uuid of at most three characters, or of nobody listed, leaves the decision to the device table |
| `PassDecision.ValidTimes` | DB/RegisteredFacesDB.cpp:1256-1258 | The texts read as times are exactly the "hh:mm" of the times of day |
| `PassDecision.OwnEntryDecides` | DB/RegisteredFacesDB.cpp:1235-1313 | In a valid store exactly the person's own entry decides, and the device table only when the entry does not |
| `PassDecision.DeviceDecides` | DB/RegisteredFacesDB.cpp:1315-1360 | The device table allows by the first window that the moment is in, or without one if it is empty or a time of its last window is none |
| `PassDecision.OneWindowDecides` | DB/RegisteredFacesDB.cpp:1315-1360 | One window of two times of day: its days, from the first time to the second |
| `PassDecision.DateRangeIsNotEnforced` | DB/RegisteredFacesDB.cpp:1247-1253 | A text without a comma, such as a date range, leaves the decision to the device table at all times |
| `PassDecision.DatesMatterIff` | DB/RegisteredFacesDB.cpp:1285-1311 | The dates of a text are consulted if and only if it has a comma but not eight, and one semicolon |
| `PassDecision.DatesDecide` | DB/RegisteredFacesDB.cpp:1285-1311 | Then the range from the text before the semicolon to the text behind it decides |
| `PassDecision.SetPermissionEffect` | HttpServer/protocol.cpp:1388-1420 | Setting a permission changes one person in list and table: the text, and also an emptied feature and access level 0 |
| `RegisteredFaces.RegisteredFacesDB.LoadPersons` | DB/RegisteredFacesDB.cpp:2529-2592 | The loading loop appends the normalised rows in order |
| `RegisteredFaces.RegisteredFacesDB.RegPersonToDBAndRAM` | DB/RegisteredFacesDB.cpp:1560-1747 | List and table after a registration, and its result |
| `RegisteredFaces.RegisteredFacesDB.UpdatePersonToDBAndRAM` | DB/RegisteredFacesDB.cpp:2098-2300 | List, table and result code after an update, empty arguments leaving their columns |
| `RegisteredFaces.RegisteredFacesDB.UpdatePersonDirectly` | DB/RegisteredFacesDB.cpp:2306-2402 | List, table and boolean result of a direct update, which keeps the stored feature when none is given |
| `RegisteredFaces.RegisteredFacesDB.UpdatePersonFaceFeature` | DB/RegisteredFacesDB.cpp:2807-2900 | Changes feature, size and perhaps image exactly when the person has an employee id and the statement succeeds |
| `RegisteredFaces.RegisteredFacesDB.UpdatePersonFingerprint` | DB/RegisteredFacesDB.cpp:2940-3003 | Changes the fingerprint exactly when its five conditions hold |
| `RegisteredFaces.RegisteredFacesDB.DeletePersonFingerprint` | DB/RegisteredFacesDB.cpp:3052-3087 | Empties the fingerprint on both sides |
| `RegisteredFaces.RegisteredFacesDB.UpdatePersonFingerId` | DB/RegisteredFacesDB.cpp:3089-3107 | Sets the finger id of the row and of the first entry |
| `RegisteredFaces.RegisteredFacesDB.GetNextAvailableFingerId` | DB/RegisteredFacesDB.cpp:3109-3119 | One above the highest positive finger id, 1 for an empty table or a failed query |
| `RegisteredFaces.AddUserFrm.CaptureFinger` | SettingFuncFrms/ManagingPeopleFrms/AddUserFrm.cpp:826-942 | Allocates an id, keeps its low 16 bits with the template when the enrollment succeeded, and nothing otherwise |
| `RegisteredFaces.AddUserFrm.RegFinger` | SettingFuncFrms/ManagingPeopleFrms/AddUserFrm.cpp:966-1051 | Stores data and id of the captured finger for a person and forgets it only when both worked |
| `RegisteredFaces.RegisteredFacesDB.GetPersonByFingerId` | DB/RegisteredFacesDB.cpp:3121-3132 | Returns the first entry with the id, or none |
| `RegisteredFaces.RegisteredFacesDB.ClearAllFingerIds` | DB/RegisteredFacesDB.cpp:3164-3184 | Sets every finger id to 0 in table and list, or changes nothing, and says which |
| `RegisteredFaces.RegisteredFacesDB.UpdatePersonNewColumns` | DB/RegisteredFacesDB.cpp:2609-2650 | Sets the four newer columns on both sides, with its result |
| `RegisteredFaces.RegisteredFacesDB.UpdatePersonUploadStatus` | DB/RegisteredFacesDB.cpp:609-712 | Sets the upload status on both sides, or on neither |
| `RegisteredFaces.RegisteredFacesDB.DelPersonByPersonUUID` | DB/RegisteredFacesDB.cpp:2784-2804 | Removes the rows if the statement succeeds, and the first entry in any case |
| `RegisteredFaces.RegisteredFacesDB.GetPersonUploadStatus` | DB/RegisteredFacesDB.cpp:1007-1034 | List first, then table with NULL read as uploaded; -1 for nobody and for a failed query |
| `RegisteredFaces.RegisteredFacesDB.SyncRecord` | DB/RegisteredFacesDB.cpp:853-910 | One record's check, mark, upload and final write, in order |
| `RegisteredFaces.RegisteredFacesDB.SyncPendingRecordsToServer` | DB/RegisteredFacesDB.cpp:817-919 | The pass that SyncPassOutcome is about, and its result |
| `RegisteredFaces.RegisteredFacesDB.OnEventDrivenSyncTimeout` | DB/RegisteredFacesDB.cpp:447-486 | Store and timer after a tick |
| `RegisteredFaces.RegisteredFacesDB.SendCroppedImageToServer` | DB/RegisteredFacesDB.cpp:488-567 | Store, timer and result of sending one person, online or offline |
| `RegisteredFaces.RegisteredFacesDB.TriggerManualSync` | DB/RegisteredFacesDB.cpp:1883-1899 | Starts the timer exactly when pending records are seen, and always reports success |
| `RegisteredFaces.RegisteredFacesDB.CheckPassageOfTime` | DB/RegisteredFacesDB.cpp:1209-1361 | The decision that the PassDecision lemmas are about |
| `SensorFrames.FramingRoundTrip` | BaiduFace/FingerprintManager.cpp:641-687 | Behind any noise the receiver recovers command, data and the 16-bit sum of the packet if and only if the noise has no adjacent EF 01 |
| `SensorFrames.ChecksumIsSum` | BaiduFace/FingerprintManager.cpp:505-510 | Adding in 16 bits gives the unbounded sum modulo 65536 |
| `SensorFrames.PacketBytes` | BaiduFace/FingerprintManager.cpp:484-510 | Every byte of a packet: header, address, type, length, payload and the sum of type, length and payload |
| `SensorFrames.GetImageBytes` | BaiduFace/FingerprintManager.cpp:484-510 | The twelve bytes of GetImage |
| `SensorFrames.ReplyFinds` | BaiduFace/FingerprintManager.cpp:641-687 | A reply is what stands nine bytes behind the first header, if twelve bytes are there |
| `SensorFrames.BuildCommand` | BaiduFace/FingerprintManager.cpp:484-510 | Writes the packet: header, type, length 3 plus the data, command, data, 16-bit sum |
| `SensorFrames.ReceiveResponse` | BaiduFace/FingerprintManager.cpp:641-687 | Moves what follows the first header to the front of the buffer; every success leaves at least 3 bytes |
| `SensorFrames.TemplateRoundTrip` | BaiduFace/FingerprintManager.cpp:1961-2025 | Downloading an uploaded template gives it back if and only if it has 1 to 247 bytes |
| `SensorFrames.DownloadOfUpload` | BaiduFace/FingerprintManager.cpp:2075-2095 | What downloading an upload of any size gives |
| `SensorFrames.OversizedTemplateIsCut` | BaiduFace/FingerprintManager.cpp:2075-2095 | Templates of 65537 to 65783 bytes come back without their last 65536 bytes |
| `SensorFrames.DownloadOfPackets` | BaiduFace/FingerprintManager.cpp:1961-2025 | Data packets and an end packet give the concatenated payloads if and only if there are at most 20 packets and some data |
| `SensorFrames.DownloadIff` | BaiduFace/FingerprintManager.cpp:1961-2025 | Whatever the UART delivers, a download gives a template if and only if one of the first 20 reads is an end packet, all before it are other packets, and the template is their data, not empty |
| `SensorFrames.ParseFinds` | BaiduFace/FingerprintManager.cpp:1961-2025 | What is made of any read: the first header, its type and as many bytes as its length says, if they were read |
| `SensorFrames.DownloadPackets` | BaiduFace/FingerprintManager.cpp:1961-2025 | The loop over reads, with every read within the buffer |
| `SensorFrames.BuildTemplatePacket` | BaiduFace/FingerprintManager.cpp:2075-2095 | Writes the single end packet of a template |
| `Enrollment.EnrollmentOutcome` | BaiduFace/FingerprintManager.cpp:1427-1568 | For every sensor: the enrollment ends within 651 UART operations, signals exactly one of Complete and Failed as its last event, returns true if and only if it signals Complete if and only if all required steps happened in order, announces a prefix of 1 to 6, and never writes Store early |
| `EnrollmentTraces.FailureIsJustified` | BaiduFace/FingerprintManager.cpp:1427-1568 | For every sensor: a failed enrollment ends with its failure, and what the reason claims stands on the wire right before it |
| `EnrollmentTraces.DetectionTrace` | BaiduFace/FingerprintManager.cpp:692-736 | A failed detection has exactly 100 polls without a confirming reply, or ends with a GetImage that could not be written; a successful one has its first confirming reply in its last poll |
| `EnrollmentTraces.FingerIsAwaited` | BaiduFace/FingerprintManager.cpp:692-736 | A sensor that confirms a finger after k other answers, k below 100, is polled k + 1 times, with success |
| `EnrollmentTraces.DetectsIff` | BaiduFace/FingerprintManager.cpp:692-736 | Detection succeeds for these sensors and no others |
| `EnrollmentTraces.StoredIdIs` | BaiduFace/FingerprintManager.cpp:1020-1065 | A complete enrollment ends with RegModel, a confirmed Store of the low 16 bits of its id, and the signal |
| `Enrollment.StoreIsJustified` | BaiduFace/FingerprintManager.cpp:1427-1568 | Before any Store, RegModel was written and for each buffer 1, 2, 3 a template was generated with an OK reply and then its duplicate check passed |
| `Enrollment.StepHappened` | BaiduFace/FingerprintManager.cpp:1427-1568 | Every step that the observer counts is in the trace, after the ones before it |
| `Enrollment.GuardedStore` | BaiduFace/FingerprintManager.cpp:1020-1065 | In a guarded trace every Store comes directly after RegModel and all steps before it |
| `Enrollment.StoreToFlashView` | BaiduFace/FingerprintManager.cpp:1000-1065 | Saving succeeds exactly when RegModel was written and, as the next command, Store was written with an OK reply read |
| `SensorReplies.EnrollmentVerdict` | BaiduFace/FingerprintManager.cpp:1000-1065 | For every sensor whose replies wait until read or flushed, and whatever waited at the start: the enrollment succeeds if and only if the samples are there, both commands were written, and the first reply to either of them says OK |
| `SensorReplies.VerdictIsStoresIff` | BaiduFace/FingerprintManager.cpp:1000-1065 | The verdict is the reply to Store, whatever it is, if and only if the sensor leaves RegModel unanswered |
| `SensorReplies.NothingWaitsAfterSamples` | BaiduFace/FingerprintManager.cpp:692-994 | Whatever replies waited at the start, none waits when the samples are taken |
| `SensorReplies.OwnReply` | BaiduFace/FingerprintManager.cpp:473-687 | With nothing waiting, an exchange reads the reply to its own command and leaves nothing |
| `SensorReplies.ObligingEnrollment` | BaiduFace/FingerprintManager.cpp:1427-1568 | With a sensor that says yes to all else, the enrollment completes if and only if the first of the replies to RegModel and Store says OK |
| `SensorReplies.RefusedStoreCompletes` | BaiduFace/FingerprintManager.cpp:1020-1065 | For every refusal of Store there is a sensor that refuses so and an enrollment that completes |
| `SensorReplies.StoredFingerFails` | BaiduFace/FingerprintManager.cpp:1020-1065 | A sensor that stores and says so, but answered RegModel otherwise, fails the enrollment |
| `Enrollment.RetryView` | BaiduFace/FingerprintManager.cpp:813-895 | The retrying form takes at most three attempts, says nothing but the retry notice, and succeeds exactly when the template was generated |
| `Enrollment.DetectView` | BaiduFace/FingerprintManager.cpp:692-736 | Polling ends within its attempts, says nothing, and succeeds exactly with an OK reply to GetImage |
| `Enrollment.CheckDuplicatesView` | BaiduFace/FingerprintManager.cpp:900-994 | The check passes exactly with an empty sensor or a "not found" reply |
| `Enrollment.FingerprintManager.Enroll` | BaiduFace/FingerprintManager.cpp:1427-1568 | The method whose events EnrollmentOutcome is about |
| `PushBatches.PushVisitsEachOnce` | HttpServer/PostPersonRecordThread.cpp:685-804 | On a fixed range the push visits every record exactly once and in order, and the final processed count is the total |
| `PushBatches.PushKeepsTally` | HttpServer/PostPersonRecordThread.cpp:685-804 | Whatever table and server do, the loop ends, success plus failed equals processed after every record, flags and progress signals match the server's answers |
| `PushBatches.BatchTells` | HttpServer/PostPersonRecordThread.cpp:705-785 | A batch tells progress record by record, with the answer of each |
| `PushBatches.ArrivalsShift` | ManageEngines/PersonRecordToDB.cpp:518-562 | What the push visits when any number of records arrives after some page |
| `PushBatches.RecordVisits` | ManageEngines/PersonRecordToDB.cpp:518-562 | How often each record that was there is visited then: exactly which are repeated and which are missed |
| `PushBatches.ArrivalVisits` | ManageEngines/PersonRecordToDB.cpp:518-562 | Which of the records that arrived are visited |
| `PushBatches.OneArrival` | ManageEngines/PersonRecordToDB.cpp:518-562 | One arrival makes it visit a record twice and the new one never, and miss the oldest one if and only if the count is a multiple of 5 |
| `PushRequests.RunKeeps` | HttpServer/PostPersonRecordThread.cpp:606-858 | In every interleaving, whatever the SELECTs give: calls equal Complete signals plus outstanding pushes, at most one is outstanding and then the flag is set, accepted requests are served once each in order, none is cancelled, and each tells as successes the records it flagged |
| `PushRequests.RunIsHonest` | HttpServer/PostPersonRecordThread.cpp:606-858 | In every interleaving: no accepted range ends before it starts, success is told for pushes that went through or found nothing and for nothing else, and the ends told are those of the pushes served, in order |
| `PushRequests.RequestOutcome` | HttpServer/PostPersonRecordThread.cpp:816-858 | A request is accepted if and only if none is in progress, both times are valid and in order; else it is refused with the first reason that applies |
| `PushRequests.AdvanceTells` | HttpServer/PostPersonRecordThread.cpp:705-785 | A page pushed by the thread adds one progress signal a record |
| `PushRequests.StillRunVisits` | HttpServer/PostPersonRecordThread.cpp:650-812 | In every interleaving over a table that does not change: a push that reports success visited exactly its range, in order, if and only if none of its SELECTs failed or the range is empty |
| `PushRequests.FailedCountIsReportedAsSuccess` | ManageEngines/PersonRecordToDB.cpp:564-595 | A push whose count cannot be read reports success, whatever its range holds |
| `PushRequests.TurnsServe` | HttpServer/PostPersonRecordThread.cpp:606-632 | Whatever the SELECTs give, every turn of the thread ends an outstanding push or brings it nearer its end, and no requests in between delay it |
| `PushRequests.ServedEventually` | HttpServer/PostPersonRecordThread.cpp:606-632 | So every outstanding request is served after finitely many turns, as the next one served |
| `PushRequests.RefusedIff` | HttpServer/PostPersonRecordThread.cpp:816-850 | A valid request is refused if and only if a push is outstanding, or over and not yet reset |
| `PushRequests.PostPersonRecordThread.SlotManualPushRecords` | HttpServer/PostPersonRecordThread.cpp:816-858 | Flag, range and signals after a request |
| `PushRequests.PostPersonRecordThread.RunTurn` | HttpServer/PostPersonRecordThread.cpp:606-632 | A requested push is carried out and reset |
| `PushRequests.PostPersonRecordThread.DoManualPushRecords` | HttpServer/PostPersonRecordThread.cpp:650-812 | All signals and flags of one push, in order |
| `PeoplePaging.PagesAreTheListIff` | HttpServer/protocol.cpp:869-936 | Pages 1 to total_page show the whole list in order, each person once, if and only if the buffers of every response end the texts copied into them |
| `PeoplePaging.PagesAreTheList` | HttpServer/protocol.cpp:869-936 | Zeroed responses show the whole list |
| `PeoplePaging.PutShows` | HttpServer/protocol.cpp:880-887 | A copied person is what a reader sees if and only if the old record ends every text |
| `PeoplePaging.PersonShown` | HttpServer/protocol.cpp:880-887 | Each text of a person is seen in its own field |
| `PeoplePaging.UsedRecordMixesTexts` | HttpServer/protocol.cpp:880-887 | "Bob" copied over "Alexandra" reads "Bobxandra" |
| `PeoplePaging.LongerTextStays` | HttpServer/protocol.cpp:880-887 | A text copied over a longer one is read with the tail of the longer one |
| `PeoplePaging.TotalPages` | HttpServer/protocol.cpp:869-905 | total_page is the count divided by per_page, rounded up |
| `PeoplePaging.PageHeader` | HttpServer/protocol.cpp:869-947 | What an answer says about itself: the page, the number of persons in all and on it |
| `PeoplePaging.PagesBeyond` | HttpServer/protocol.cpp:869-936 | What a page after the last one hands out |
| `PeoplePaging.PeopleResponse.GetAll` | HttpServer/protocol.cpp:857-947 | The branches and the copying loops, into the buffers as they are |
| `Base64.AlphabetIs` | base64.hpp:39-42 | Values and characters correspond by their place in the alphabet string |
| `Base64.Encode` | base64.hpp:48-87 | The text is whole groups of four, padded by "=", whose digits in base 64 are the number of the bytes |
| `Base64.Decode` | base64.hpp:89-128 | The bytes are the first floor(6k/8) bytes of the k leading alphabet characters |
| `Base64.RoundTrip` | base64.hpp:48-128 | Decoding an encoding gives the bytes back |
| `Base64.DecodingDependsOnPrefix` | base64.hpp:97-125 | Texts with the same leading alphabet characters decode alike |
| `Base64.MasksAndShifts` | base64.hpp:58-61 | The masks and shifts on bytes are the divisions and remainders of the model |
| `TrackSlots.RunKeepsIdsDistinct` | BaiduFace/BaiduFaceManager.cpp:1624-1685 | Over every sequence of calls the nonzero ids stay distinct |
| `TrackSlots.CallEffect` | BaiduFace/BaiduFaceManager.cpp:1624-1685 | One call: the slot of the face, or the lowest slot not listed, or slot 0, and no other slot changes |
| `TrackSlots.AskingAgainHits` | BaiduFace/BaiduFaceManager.cpp:1624-1685 | Asking again for a face gives its slot and changes nothing |
| `TrackSlots.ListedTrackingIdDoesNotProtect` | BaiduFace/BaiduFaceManager.cpp:1856-1875 | A face listed by its tracking id can be evicted while slots are empty |
| `TrackSlots.SurvivesMissIff` | BaiduFace/BaiduFaceManager.cpp:1624-1685 | Exactly which slots survive a miss |
| `TrackSlots.BaiduFaceManager.GetCoreFace` | BaiduFace/BaiduFaceManager.cpp:1624-1685 | A hit changes nothing; a miss overwrites the lowest slot that is not listed, or slot 0 |
| `BoxOverlap.IouLaws` | BaiduFace/BaiduFaceManager.cpp:70-78 | For any boxes the overlap is symmetric, between 0 and 1, positive exactly for boxes sharing an inner point, and 1 exactly for equal boxes with positive sides |
| `BoxOverlap.IouIsAreaRatio` | BaiduFace/BaiduFaceManager.cpp:70-78 | The overlap times the area covered by both boxes, the common part counted once, is the area of the box of all common points; 0 without one |
| `BoxOverlap.MatchBboxIou` | BaiduFace/BaiduFaceManager.cpp:80-92 | For any boxes, the smallest index above the threshold, or -1 when there is none |

## Left out

- User interface, the face SDK, camera, audio and GPIO: foreign calls and widgets; a picture's feature is an argument.
- curl, JSON, md5, sockets, files and UART open, close and recovery: each is an outcome that may be yes or no.
- StoreUserWithoutFaceData and DelPersonDBInfo: the first has a malformed column list and appends before executing.
- PassDecision.OwnDecision: the comparison of two parsed dates is a parameter; which texts reach it is proved.
- PassPermission.ReadPermission: the result codes of the two handlers and the C buffers that would cut a text are not modelled.
- SensorFrames.DownloadPackets: reads that return nothing are not modelled; they do not advance the counter, so the code may wait forever.
- RegisteredFaces.RegisteredFacesDB.RegPersonToDBAndRAM: writing the image file and the user interface refresh are not modelled; the column default of uploadStatus is an argument.
- RegisteredFaces.RegisteredFacesDB.CheckPassageOfTime: the several readings of the clock are one.
- BoxOverlap.IouLaws: over the reals; the rounding of floats is not modelled.
- PushRequests.PostPersonRecordThread.DoManualPushRecords: interleavings are the subject of the step functions; within one call of the method the flag does not change. Whether the statement that sets a flag succeeds is not modelled.
- SensorReplies.EnrollmentVerdict: a read gives one whole reply of at most 16 bytes; replies that come late, in pieces or run together are covered by the results of Enrollment, which hold whatever a read gives, and not by this one.
- PeoplePaging.PagesAreTheListIff: texts longer than their buffers, which would run into the next field, and texts whose UTF-8 form is longer than size() says are not modelled; a text is its bytes.
- PushRequests.StillRunVisits: over a table that does not change; what arrivals do to one push is in PushBatches.
- Races inside one operation of the store: each runs under its mutex, but a pass over the pending records is taken as one step.
- SensorFrames.ReceiveResponse: the polling that gathers the bytes of a reply is not modelled; the bytes gathered are given.
- doPostPersonRecord with its picture list, configuration getters and setters, device serial number: little structure.
- Search pages (by name, uuid, time) of the store: the same shape as PeoplePaging, easier.
