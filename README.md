# Wedding invite: a verified model of the guest, entourage and details stores

This project models the logic of a wedding-invite web site and of the Google Apps Script
web apps behind it, and proves properties of that model in Dafny.

The site side (React components) covers:

- the public RSVP lookup, which normalises a typed name, matches it against the guest
  list (an exact pass, then a Levenshtein-based fuzzy pass with a 90% threshold), opens
  the RSVP form, keeps the companion slots in step with the guest's allowance, validates
  the form and builds the request;
- the admin guest list, with its search and filters, statistics, edit form and CSV export;
- the admin pages for the guest table, guest requests, the entourage and principal
  sponsors, and the guest-message wall: their search filters, edit forms and the checks
  made before a request is sent.

The script side covers five spreadsheet stores:

- the Guests sheet: create, update, delete, bulk import, read, CSV export and statistics;
- the migration from the old guest sheet, its preview, verification and repair pass;
- the Entourage sheet and the PrincipalSponsors sheet: read, create, update and delete;
- the WeddingDetails sheet: one row of 26 values, updated, read, cleared and initialised.

Each sheet is a class holding its rows as `seq<Row>`; a cell is text, a number or a boolean.
Its methods change the rows and are proved against pure functions (`NewGuestRow`,
`PatchRow`, `FindName`, `Updated`, ...), about which the lemmas state what the scripts
promise. The pure parts of the components are functions, and the loops (edit distance, the
best-match scan, companion padding, CSV building, the migration and repair passes,
statistics) are methods with loop invariants.

Companions are stored as JSON text, so the model has its own encoder and decoder for the
exact `JSON.stringify` form, with a round-trip proof. The CSV export is proved to be read
back by the model's CSV reader, which ends a record at a line feed. Similarity scores are kept as integer fractions and
compared by cross-multiplication.

Modules:

- `Wrappers`, `Text`, `Seqs`, `Cells`: shared helpers;
- `Names`, `EditDistance`, `Matcher`, `Roster`, `Rsvp`: the public RSVP page;
- `AdminGuestList`: the admin guest list;
- `GuestSheet`, `CompanionJson`, `Csv`: the Guests sheet;
- `Migration`;
- `EntourageSheet`, `SponsorSheet`, `WeddingDetails`: the other stores;
- `GuestListManagement`, `GuestRequests`, `EntourageSponsors`, `GuestMessages`: the admin pages.

## Model

| member | source | states |
|---|---|---|
| Names.KeepWordAndSpace | components/sections/guest-list.tsx:107 | only word characters and whitespace survive |
| Names.CollapseSpaces | components/sections/guest-list.tsx:108 | no two whitespace characters are adjacent afterwards; an initial space stays a space; word characters and lower case are kept |
| Names.NormalizeNameIsNormal | components/sections/guest-list.tsx:104-110 | a normalised name is lower-case word characters separated by single spaces, with none leading or trailing |
| Names.NormalizeNameFixpoint | components/sections/guest-list.tsx:104-110 | every name of that shape is left unchanged by normalisation |
| Names.NormalizeNameIdempotent | components/sections/guest-list.tsx:104-110 | normalising twice is normalising once |
| EditDistance.LevSelf | components/sections/guest-list.tsx:113-139 | the distance from a string to itself is 0 |
| EditDistance.LevSymmetric | components/sections/guest-list.tsx:113-139 | the distance is symmetric |
| EditDistance.LevBounds | components/sections/guest-list.tsx:113-139 | the distance is at most the longer length and at least the difference of the lengths |
| EditDistance.LevZeroIffEqual | components/sections/guest-list.tsx:113-139 | the distance is 0 exactly for equal strings |
| EditDistance.EntryBorders | components/sections/guest-list.tsx:116-138 | the matrix's first row and column hold 0..n, and its last cell is the edit distance |
| EditDistance.LevenshteinDistance | components/sections/guest-list.tsx:113-139 | the nested loops over the matrix return the edit distance |
| EditDistance.Similarity | components/sections/guest-list.tsx:142-153 | the score lies in [0, 100%], and is exactly 100% iff the normalised names are equal (including both empty) |
| EditDistance.SimilaritySymmetric | components/sections/guest-list.tsx:142-153 | the score does not depend on the order of the two names |
| EditDistance.CalculateSimilarity | components/sections/guest-list.tsx:142-153 | the method computes that score |
| Matcher.BetterThanNotBetter | components/sections/guest-list.tsx:169-176 | comparing scores by cross-multiplication is transitive in the form the scan needs |
| Matcher.AtLeast90Beats | components/sections/guest-list.tsx:172 | a score at or above 90% beats any score below it |
| Matcher.FullScore | components/sections/guest-list.tsx:149-172 | nothing beats 100%, and only 100% ties with it |
| Matcher.Scores | components/sections/guest-list.tsx:169-170 | one score per guest, each the similarity of the input with that guest's name |
| Matcher.ExactIndex | components/sections/guest-list.tsx:159-163 | the first guest whose normalised name equals the normalised input, or none when there is none |
| Matcher.BestUpToSpec | components/sections/guest-list.tsx:165-178 | the fuzzy scan returns the earliest guest with the highest score at or above 90%, and none iff no score reaches 90% |
| Matcher.MatchGuestSpec | components/sections/guest-list.tsx:156-179 | the match is the exact hit when there is one, otherwise the fuzzy winner; any result is an index of the list |
| Matcher.FirstFullIsBest | components/sections/guest-list.tsx:156-179 | the first 100% score wins the fuzzy scan |
| Matcher.FullIffSameName | components/sections/guest-list.tsx:156-179 | a guest scores 100% exactly when its normalised name equals the normalised input |
| Matcher.ExactPassAgreesWithFuzzyPass | components/sections/guest-list.tsx:156-179 | the exact pass never changes the answer of the fuzzy pass |
| Matcher.FindMatchingGuest | components/sections/guest-list.tsx:156-179 | the loop over the guests returns that match |
| Roster.Blanks | components/sections/guest-list.tsx:84-86 | k empty companions |
| Roster.Resized | components/sections/guest-list.tsx:78-96 | the list has length max(0, count); retained slots are unchanged and added slots are empty |
| Roster.SyncCompanions | components/sections/guest-list.tsx:78-96 | the push/splice effect leaves allowedGuests - 1 slots (at least 0), as above |
| Roster.ResizedNoop | components/improved-guest-list.tsx:68-83 | resizing to the current length changes nothing |
| Roster.ResizedIdempotent | components/improved-guest-list.tsx:68-83 | running the effect twice equals running it once |
| Roster.ResizedTwice | components/improved-guest-list.tsx:68-83 | two resizes equal the last one when nothing entered was cut in between |
| Roster.ResizedGrowShrink | components/improved-guest-list.tsx:68-83 | raising the allowance and restoring it gives back the companions |
| Roster.ResizedShrinkGrow | components/improved-guest-list.tsx:68-83 | lowering the allowance and raising it back loses an entered companion |
| Rsvp.FormFromGuest | components/sections/guest-list.tsx:234-246 | the form opens with the guest's fields, an allowance of 0 shown as 1, and an empty status as "pending" |
| Rsvp.ConfirmRsvpRefuses | components/sections/guest-list.tsx:199-257 | a blank name, a name shorter than 3 after trimming, or a name with no match gives its error and leaves the selection unchanged |
| Rsvp.ConfirmRsvpSelects | components/sections/guest-list.tsx:223-249 | otherwise the matched guest is selected, the form is filled from it, and hasResponded is true iff its status is confirmed or declined |
| Rsvp.ConfirmThenSync | components/sections/guest-list.tsx:78-96 | after a lookup, the sync effect sizes the companions to the guest's allowance minus one |
| Rsvp.SyncEffectIdempotent | components/sections/guest-list.tsx:78-96 | the sync effect is stable |
| Rsvp.SetEmail | components/sections/guest-list.tsx:259-264 | the email field changes and nothing else does |
| Rsvp.SetMessage | components/sections/guest-list.tsx:259-264 | the message field changes and nothing else does |
| Rsvp.ChooseAttendance | components/sections/guest-list.tsx:638-668 | the two buttons set the status to "confirmed" or "declined" and change nothing else |
| Rsvp.SetCompanion | components/sections/guest-list.tsx:266-270 | exactly one field of one companion changes |
| Rsvp.SubmitRefusedIff | components/sections/guest-list.tsx:272-290 | submission is refused iff the status is empty, or the guest is attending with more than one seat and a companion name is blank after trimming |
| Rsvp.SubmitPayload | components/sections/guest-list.tsx:295-321 | the request carries the guest's id and stored allowance, the form's status, companions only when confirmed, and a non-empty role (the form's when it has one); hasResponded becomes true iff the store accepts it or it already was |
| Rsvp.DeclineIsSent | components/sections/guest-list.tsx:272-321 | after "Sorry, No" the answer always passes the checks and is sent as "declined" with no companions |
| Rsvp.TypedFieldsAreSent | components/sections/guest-list.tsx:259-321 | typing a message or e-mail never changes whether the answer is sent, and the request carries the typed text |
| Rsvp.PendingIsSent | components/sections/guest-list.tsx:275-290 | a "pending" status passes the check and is sent |
| Rsvp.SubmitClosesForm | components/sections/guest-list.tsx:315-321 | after a successful submission the form is no longer editable |
| Rsvp.CloseModalResets | components/sections/guest-list.tsx:343-362 | closing the modal resets every field except the success flag |
| AdminGuestList.FilteredGuestsSpec | components/improved-guest-list.tsx:86-96 | the view keeps list order, never shows a request, and shows a guest iff search, status filter and VIP filter all accept it |
| AdminGuestList.EmptySearchShowsAllButRequests | components/improved-guest-list.tsx:86-96 | with no search and both filters on "all", every non-request guest is shown |
| AdminGuestList.StatsBounded | components/improved-guest-list.tsx:248-255 | confirmed + pending + declined and vip are at most total, and totalPax is the sum of the allowances |
| AdminGuestList.TotalPaxAtLeastTotal | components/improved-guest-list.tsx:248-255 | with every allowance at least 1, totalPax is at least the guest count |
| AdminGuestList.SetAllowedGuestsSpec | components/improved-guest-list.tsx:553 | the input is stored as parseInt(v) or 1 and the companions are resized to match |
| AdminGuestList.RaiseThenRestore | components/improved-guest-list.tsx:68-83 | raising the allowance and restoring it gives back the form |
| AdminGuestList.EditRoundTrip | components/improved-guest-list.tsx:113-157 | editing a guest and saving sends an update with the same id, the form's fields, and the original createdAt when there is one |
| AdminGuestList.CsvLinesPrefix | components/improved-guest-list.tsx:210-217 | each forEach step appends exactly the next guest's line |
| AdminGuestList.ExportCsv | components/improved-guest-list.tsx:207-217 | the export is the header followed by one line per filtered guest, in order |
| AdminGuestList.CsvLineIsOneLine | components/improved-guest-list.tsx:210-217 | a guest whose text has no newline gives exactly one line |
| AdminGuestList.CsvLineCount | components/improved-guest-list.tsx:207-217 | the CSV has 1 + n lines for n such guests |
| Cells.CellText | google-apps-script/guest-management.js:540 | String(cell): text is itself, booleans are "true"/"false" |
| Cells.ParseCellNumber | google-apps-script/guest-management.js:123 | parseInt reads a number cell back |
| Cells.CellCount | google-apps-script/guest-management.js:123 | parseInt(cell) or 1 is never 0, is the number itself for a non-zero number, and 1 for an empty cell |
| Cells.OrEmpty | google-apps-script/guest-management.js:117-130 | `cell or ''` keeps truthiness |
| Cells.TextOrEmpty | google-apps-script/guest-management.js:117-130 | a text cell reads as itself, a falsy cell as "" |
| Cells.RowText | google-apps-script/guest-management.js:540 | one String() per cell |
| CompanionJson.EscapeChar | google-apps-script/guest-management.js:160 | JSON.stringify escapes exactly quotes, backslashes and control characters |
| CompanionJson.DecodeEscapedChar | google-apps-script/guest-management.js:111 | decoding an escaped character gives it back and leaves the rest |
| CompanionJson.DecodeEscapedString | google-apps-script/guest-management.js:111 | decoding an escaped string body gives it back and leaves the rest |
| CompanionJson.EncodeCompanions | google-apps-script/guest-management.js:160 | the encoding is a JSON array |
| CompanionJson.DecodeEncodedCompanion | google-apps-script/guest-management.js:111 | one companion object decodes back |
| CompanionJson.DecodeEncodedCompanions | google-apps-script/guest-management.js:111-160 | JSON.parse(JSON.stringify(companions)) gives back the companions |
| Csv.EscapeCell | google-apps-script/guest-management.js:538-545 | a cell without comma, quote or newline is kept; any other is wrapped in quotes |
| Csv.ParseUnquotedPlain | google-apps-script/guest-management.js:538-545 | the line-feed CSV reader reads a plain cell back |
| Csv.ParseQuotedDoubled | google-apps-script/guest-management.js:542 | the line-feed CSV reader reads a quoted cell with doubled quotes back |
| Csv.ParseEscapedCell | google-apps-script/guest-management.js:538-545 | every escaped cell is read back |
| Csv.ParseEncodedFields | google-apps-script/guest-management.js:538-548 | a comma-joined line of escaped cells is read back as those cells |
| Csv.ParseEncodedRecord | google-apps-script/guest-management.js:538-548 | each record is read back |
| Csv.ParseEncodedTable | google-apps-script/guest-management.js:537-548 | the whole export is read back as its rows |
| Csv.EncodeTableSnoc | google-apps-script/guest-management.js:537-548 | each forEach step appends one record |
| GuestSheet.RowToGuest | google-apps-script/guest-management.js:105-132 | reading a row defaults allowedGuests to parseInt or 1 and status to "pending"; isVip iff the cell is true or "TRUE" |
| GuestSheet.ReadGuestsSpec | google-apps-script/guest-management.js:105-132 | one guest per row with an ID; a row without an ID is dropped |
| GuestSheet.ReadGuestsSnoc | google-apps-script/guest-management.js:105-132 | an appended row adds its guest at the end iff it has an ID |
| GuestSheet.AllowedOf | google-apps-script/guest-management.js:170 | parseInt(x) or 1 is never 0 |
| GuestSheet.StatusOrPending | google-apps-script/guest-management.js:174 | the stored status is never empty |
| GuestSheet.NewGuestRow | google-apps-script/guest-management.js:148-181 | refused iff name or role is missing; otherwise 14 cells with the id and equal CreatedAt and UpdatedAt |
| GuestSheet.NewGuestRowCells | google-apps-script/guest-management.js:163-178 | the row's cells: trimmed text, parseInt or 1, the companions' JSON, isVip only for true, status defaulting to pending |
| GuestSheet.ReadCreatedRow | google-apps-script/guest-management.js:148-203 | reading a created row gives the guest createGuest returns, with its text fields trimmed |
| GuestSheet.ReadAfterCreate | google-apps-script/guest-management.js:105-203 | after a create, doGet lists the old guests and then the new one |
| GuestSheet.GuestTable.CreateGuest | google-apps-script/guest-management.js:148-203 | a refused create changes nothing; an accepted one appends exactly one row |
| GuestSheet.FindRow | google-apps-script/guest-management.js:214-224 | the first row whose ID, as text, equals the id; none when no row has it |
| GuestSheet.GuestTable.FindGuestRow | google-apps-script/guest-management.js:214-224 | the scanning loop finds that row |
| GuestSheet.LookupError | google-apps-script/guest-management.js:210-229 | an update or delete proceeds iff an id is given and found |
| GuestSheet.Write | google-apps-script/guest-management.js:233-264 | a defined field overwrites its one cell; an undefined one leaves it |
| GuestSheet.PatchRow | google-apps-script/guest-management.js:233-270 | the patched row keeps 14 cells |
| GuestSheet.PatchRowSpec | google-apps-script/guest-management.js:233-270 | only columns with a defined field change; ID and CreatedAt never change; UpdatedAt always does |
| GuestSheet.EmptyPatch | google-apps-script/guest-management.js:233-270 | an update with no fields touches only UpdatedAt |
| GuestSheet.PatchRowTwice | google-apps-script/guest-management.js:233-270 | applying the same update twice is applying it once, with the later time |
| GuestSheet.GuestTable.UpdateGuest | google-apps-script/guest-management.js:208-277 | a refused update changes nothing; otherwise only the found row is patched |
| GuestSheet.GuestTable.DeleteGuest | google-apps-script/guest-management.js:282-313 | a refused delete changes nothing; otherwise exactly the first matching row is removed and the rest keep their order |
| GuestSheet.WithoutCount | google-apps-script/guest-management.js:306 | a delete leaves one row fewer with that id |
| GuestSheet.ImportedRows | google-apps-script/guest-management.js:329-346 | the rows appended by the import are well formed, at most one per guest |
| GuestSheet.ImportErrors | google-apps-script/guest-management.js:329-346 | at most one error per guest |
| GuestSheet.ImportErrorsSound | google-apps-script/guest-management.js:329-346 | each error names a refused guest, in increasing index order |
| GuestSheet.ImportErrorsComplete | google-apps-script/guest-management.js:329-346 | every refused guest has an error |
| GuestSheet.ImportCounts | google-apps-script/guest-management.js:318-348 | success + failed is the number of guests |
| GuestSheet.GuestTable.ImportOne | google-apps-script/guest-management.js:329-344 | one forEach step appends the row or records the error |
| GuestSheet.GuestTable.ImportAll | google-apps-script/guest-management.js:329-346 | the loop appends exactly the imported rows and collects exactly the errors |
| GuestSheet.GuestTable.BulkImport | google-apps-script/guest-management.js:318-348 | no guests array is an error with nothing changed; otherwise the import's rows and counts |
| GuestSheet.Bump | google-apps-script/guest-management.js:606-608 | adding one to a byAddedBy entry adds one to the sum |
| GuestSheet.BumpKeys | google-apps-script/guest-management.js:606-608 | the key is added once and keys stay distinct |
| GuestSheet.StatisticsOf | google-apps-script/guest-management.js:558-614 | the four status counts sum to at most total, vip is at most total, and the byAddedBy counts sum to total with distinct keys |
| GuestSheet.StatisticsTotal | google-apps-script/guest-management.js:590-611 | total counts the rows with an ID |
| GuestSheet.GuestTable.GetGuestStatistics | google-apps-script/guest-management.js:558-614 | the forEach loop computes those statistics |
| GuestSheet.GuestTable.ExportGuestsToCsv | google-apps-script/guest-management.js:522-553 | an empty sheet is an error; otherwise the header and rows, each cell escaped |
| GuestSheet.ExportRoundTrip | google-apps-script/guest-management.js:522-553 | the line-feed CSV reader reads the export back as the sheet's text |
| Migration.MigratedStatus | google-apps-script/migration-helper.js:61-66 | the status is one of the valid ones; confirmed only from a yes and declined only from a no |
| Migration.PreviewDisagreement | google-apps-script/migration-helper.js:172 | the preview and the migration disagree exactly on "yes", "YES", "no" and "NO" |
| Migration.PlaceholderCompanions | google-apps-script/migration-helper.js:69-78 | max(0, allowed - 1) companions, each with an empty name and relationship "Companion" |
| Migration.PreviewCompanions | google-apps-script/migration-helper.js:173-179 | the preview's companion count is the number the migration creates |
| Migration.Accepted | google-apps-script/migration-helper.js:54-96 | a row with a non-blank name passes createGuest's check |
| Migration.MigratedRowRead | google-apps-script/migration-helper.js:81-96 | a migrated guest reads back with role "Guest", empty contact and table, isVip false, addedBy "Migration" and trimmed fields |
| Migration.MigratedGuestIsCreated | google-apps-script/migration-helper.js:81-96 | that record is what createGuest returns for the migrated data |
| Migration.MigrationWithSheet | google-apps-script/migration-helper.js:50-110 | with a guest sheet, every non-blank row is migrated and there are no errors |
| Migration.MigratedRowsCount | google-apps-script/migration-helper.js:50-110 | one row is appended per non-blank row |
| Migration.BuildGuestData | google-apps-script/migration-helper.js:59-93 | the request built for one old row |
| Migration.MigrateToSheet | google-apps-script/migration-helper.js:96-99 | one accepted row is appended and counted |
| Migration.MigrateRows | google-apps-script/migration-helper.js:50-110 | the loop's counts, errors and appended rows |
| Migration.MigrateGuestsToNewSystem | google-apps-script/migration-helper.js:14-138 | as written: no old sheet is an error; without a guest sheet, one is created but stays empty |
| Migration.MigrationWithoutSheet | google-apps-script/migration-helper.js:28-96 | as written, with no guest sheet every non-blank row fails and nothing migrates |
| Migration.MissingSheetLosesGuest | google-apps-script/migration-helper.js:28-96 | a one-guest sheet migrates nothing when the guest sheet is missing |
| Migration.MigrateGuestsFixed | google-apps-script/migration-helper.js:14-138 | with the new sheet used after it is created, every non-blank row migrates and there are no errors |
| Migration.MigratedEmptyCompanions | google-apps-script/migration-helper.js:316-333 | a migrated row counts max(0, allowed - 1) unnamed companions |
| Migration.EncodedUnnamedCount | google-apps-script/migration-helper.js:316-333 | the count parses the stored JSON and counts every unnamed entry |
| Migration.VerifyMigration | google-apps-script/migration-helper.js:289-362 | missing sheets and an empty guest sheet are errors; otherwise the row counts and the empty-companion count |
| Migration.AllowedNeedsFixIsParseInt | google-apps-script/migration-helper.js:438 | an allowance needs fixing iff it is falsy or parses below 1 |
| Migration.RoleFixed | google-apps-script/migration-helper.js:425-428 | an empty role is set to "Guest", and any other is kept |
| Migration.StatusFixed | google-apps-script/migration-helper.js:431-435 | a status outside the four valid ones becomes "pending", and any other is kept |
| Migration.AllowedFixed | google-apps-script/migration-helper.js:438-441 | a bad allowance becomes 1, and any other is kept |
| Migration.CompanionsFixed | google-apps-script/migration-helper.js:444-451 | unparsable companions become "[]", and any other is kept |
| Migration.FixRowCells | google-apps-script/migration-helper.js:420-456 | the four repaired columns of a row |
| Migration.FixRowValid | google-apps-script/migration-helper.js:420-456 | a repaired row needs no repair |
| Migration.FixRowNoop | google-apps-script/migration-helper.js:420-456 | a row that needs no repair is left unchanged |
| Migration.FixRowFrame | google-apps-script/migration-helper.js:420-456 | the other columns are never touched |
| Migration.FixRowIdempotent | google-apps-script/migration-helper.js:420-456 | repairing twice is repairing once |
| Migration.FixAll | google-apps-script/migration-helper.js:420-456 | one repaired row per row |
| Migration.FixOne | google-apps-script/migration-helper.js:420-455 | one step writes the repaired row and counts it iff it needed a repair |
| Migration.FixMigrationIssues | google-apps-script/migration-helper.js:398-459 | the sheet becomes the repaired rows, and fixedCount is the number of rows that needed a repair |
| Migration.FixedUpToAll | google-apps-script/migration-helper.js:420-456 | after the last step every row is repaired |
| Migration.FixTwice | google-apps-script/migration-helper.js:398-459 | after the pass no row needs a repair, so a second pass fixes 0 rows |
| Migration.SecondPassFixesNothing | google-apps-script/migration-helper.js:398-459 | a sheet with no row needing repair counts 0 |
| Migration.MigratedRowNeedsFix | google-apps-script/migration-helper.js:420-456 | a row freshly written by the migration (lines 81-96) never needs repair |
| Migration.CreatedRowNeedsFix | google-apps-script/migration-helper.js:420-456 | a created row needs repair iff its allowance is below 1 |
| EntourageSheet.AllMembersSpec | google-apps-script/entourage-management.js:94-111 | one member per row with a name, each with a truthy name |
| EntourageSheet.AllMembersSnoc | google-apps-script/entourage-management.js:94-111 | the list keeps sheet order: an appended row comes last iff it has a name |
| EntourageSheet.FindNameSpec | google-apps-script/entourage-management.js:128-136 | the first row whose trimmed name equals the name; none when no row has it |
| EntourageSheet.FindNameUnique | google-apps-script/entourage-management.js:176-193 | with unique names, a row's own name finds that row |
| EntourageSheet.TakenElsewhereSpec | google-apps-script/entourage-management.js:196-203 | the rename check holds iff another row has the name |
| EntourageSheet.MemberRowKey | google-apps-script/entourage-management.js:139-143 | the written row's name is the trimmed input name |
| EntourageSheet.CreateError | google-apps-script/entourage-management.js:118-136 | a create proceeds iff a name is given and no row has it |
| EntourageSheet.UpdateError | google-apps-script/entourage-management.js:162-203 | an update proceeds only with both names given, the original found, and the new name not held by another row |
| EntourageSheet.DeleteError | google-apps-script/entourage-management.js:228-252 | a delete proceeds iff a name is given and found |
| EntourageSheet.CreateKeepsNamesUnique | google-apps-script/entourage-management.js:128-143 | unique names stay unique after a create |
| EntourageSheet.UpdateKeepsNamesUnique | google-apps-script/entourage-management.js:196-209 | unique names stay unique after an update |
| EntourageSheet.DeleteKeepsNamesUnique | google-apps-script/entourage-management.js:255 | unique names stay unique after a delete |
| EntourageSheet.DeleteRemovesName | google-apps-script/entourage-management.js:228-255 | with unique names, a deleted name can no longer be found |
| EntourageSheet.ReadAfterCreate | google-apps-script/entourage-management.js:94-143 | a created member is listed last |
| EntourageSheet.EntourageTable.FindMember | google-apps-script/entourage-management.js:128-136 | the scanning loop finds that row |
| EntourageSheet.EntourageTable.NameTakenElsewhere | google-apps-script/entourage-management.js:196-203 | the scanning loop decides the rename check |
| EntourageSheet.EntourageTable.Create | google-apps-script/entourage-management.js:116-155 | a refused create changes nothing; otherwise one row of trimmed fields is appended |
| EntourageSheet.EntourageTable.Update | google-apps-script/entourage-management.js:160-221 | a refused update changes nothing; otherwise all four cells of the found row are overwritten |
| EntourageSheet.EntourageTable.Delete | google-apps-script/entourage-management.js:226-261 | a refused delete changes nothing; otherwise the first matching row is removed |
| SponsorSheet.AllSponsorsSpec | google-apps-script/principal-sponsor-management.js:92-107 | one couple per row with at least one name |
| SponsorSheet.AllSponsorsSnoc | google-apps-script/principal-sponsor-management.js:92-107 | the list keeps sheet order |
| SponsorSheet.FindPairSpec | google-apps-script/principal-sponsor-management.js:122-133 | the first row whose trimmed pair equals the pair; none when no row has it |
| SponsorSheet.FindPairUnique | google-apps-script/principal-sponsor-management.js:171-186 | with unique pairs, a row's own pair finds that row |
| SponsorSheet.SponsorRowPair | google-apps-script/principal-sponsor-management.js:136-138 | the written row holds the trimmed pair |
| SponsorSheet.CreateError | google-apps-script/principal-sponsor-management.js:114-133 | a create proceeds iff some name is given and the pair is new |
| SponsorSheet.UpdateError | google-apps-script/principal-sponsor-management.js:155-186 | an update proceeds iff some original name is given and the original pair is found |
| SponsorSheet.DeleteError | google-apps-script/principal-sponsor-management.js:207-236 | a delete proceeds iff some name is given and the pair is found |
| SponsorSheet.CreateKeepsPairsUnique | google-apps-script/principal-sponsor-management.js:122-138 | unique pairs stay unique after a create |
| SponsorSheet.DeleteKeepsPairsUnique | google-apps-script/principal-sponsor-management.js:239 | unique pairs stay unique after a delete |
| SponsorSheet.DeleteRemovesPair | google-apps-script/principal-sponsor-management.js:207-239 | with unique pairs, a deleted pair can no longer be found |
| SponsorSheet.UpdateIgnoresNewPair | google-apps-script/principal-sponsor-management.js:153-190 | an update's checks never look at the new pair |
| SponsorSheet.UpdateMayDuplicate | google-apps-script/principal-sponsor-management.js:189-190 | an update to a pair another row holds leaves duplicate pairs |
| SponsorSheet.ReadAfterCreate | google-apps-script/principal-sponsor-management.js:92-138 | a created couple is listed last |
| SponsorSheet.SponsorTable.FindSponsor | google-apps-script/principal-sponsor-management.js:122-133 | the scanning loop finds that row |
| SponsorSheet.SponsorTable.Create | google-apps-script/principal-sponsor-management.js:112-148 | a refused create changes nothing; otherwise one row is added after the last |
| SponsorSheet.SponsorTable.Update | google-apps-script/principal-sponsor-management.js:153-200 | a refused update changes nothing; otherwise only the found row's two cells change |
| SponsorSheet.SponsorTable.Delete | google-apps-script/principal-sponsor-management.js:205-245 | a refused delete changes nothing; otherwise the first matching row is removed |
| WeddingDetails.Overwrite | google-apps-script/wedding-details-single-row.js:103 | the first cells are replaced and the rest kept |
| WeddingDetails.WriteRow | google-apps-script/wedding-details-single-row.js:103 | only the written row changes; a row just past the end is added |
| WeddingDetails.WithHeadersSpec | google-apps-script/wedding-details-single-row.js:230-261 | after the header check (run by update at lines 30-32 and by get at 151-153), row 1 starts with the 26 headers if it was empty, and no other row changes |
| WeddingDetails.DataRow | google-apps-script/wedding-details-single-row.js:38-101 | 26 values, one per field |
| WeddingDetails.UpdatedSpec | google-apps-script/wedding-details-single-row.js:28-107 | update writes the 26 trimmed fields (or "") across row 2 in fixed order; later cells and rows are untouched |
| WeddingDetails.Details | google-apps-script/wedding-details-single-row.js:159-214 | the object has one field per column |
| WeddingDetails.DetailsWithoutRow2 | google-apps-script/wedding-details-single-row.js:159-165 | with no row 2, every field is "" |
| WeddingDetails.DetailsWithHeaders | google-apps-script/wedding-details-single-row.js:151-153 | writing the headers does not change what is read |
| WeddingDetails.ReadAfterUpdate | google-apps-script/wedding-details-single-row.js:38-214 | a read after an update returns each trimmed field in its place |
| WeddingDetails.ReadAfterDelete | google-apps-script/wedding-details-single-row.js:109-117 | delete clears row 2, so a read returns all "" |
| WeddingDetails.InitializedSpec | google-apps-script/wedding-details-single-row.js:273-322 | initialise keeps an existing row 2 and otherwise adds one that reads as all "" |
| WeddingDetails.DetailsSheet.Post | google-apps-script/wedding-details-single-row.js:8-131 | each action's write; any other action is an error and leaves the sheet untouched |
| WeddingDetails.DetailsSheet.Get | google-apps-script/wedding-details-single-row.js:140-225 | writes the headers if missing and returns row 2 as the object |
| GuestListManagement.FilteredGuestsSpec | components/guest-list-management.tsx:45-52 | the view keeps order; a blank query shows all; otherwise a guest is kept iff its lowercased name or email contains the lowercased query |
| GuestListManagement.StartEdit | components/guest-list-management.tsx:54-63 | an email of "Pending" opens as "" and a missing count as "1"; the other fields are kept |
| GuestListManagement.StartEditIdempotent | components/guest-list-management.tsx:54-63 | reopening a form saved unchanged shows the same form |
| GuestListManagement.AddGuest | components/guest-list-management.tsx:65-70 | refused iff the name is empty; otherwise the form is sent as it is |
| GuestListManagement.UpdateGuest | components/guest-list-management.tsx:103-117 | refused iff no guest is being edited or the name is empty; the request names the edited guest |
| GuestListManagement.UnchangedEditAccepted | components/guest-list-management.tsx:54-117 | an edit of a named guest saved unchanged is sent |
| GuestListManagement.ShownCountSpec | components/guest-list-management.tsx:289-291 | the shown count is parseInt or 1, never 0, and a written count reads back |
| GuestRequests.FilteredRequestsSpec | components/guest-requests.tsx:49-57 | the view keeps order; a blank query shows all; otherwise a request is kept iff name, email or phone contains the query |
| GuestRequests.StartEdit | components/guest-requests.tsx:59-69 | an email of "Pending" opens as "" and a missing count as "1"; the other fields are kept |
| GuestRequests.StartEditIdempotent | components/guest-requests.tsx:59-69 | reopening a form saved unchanged shows the same form |
| GuestRequests.EditAllKeepsName | components/guest-requests.tsx:331 | no run of input changes alters the name |
| GuestRequests.UpdateRequest | components/guest-requests.tsx:71-91 | refused iff no request is being edited or the name is empty |
| GuestRequests.UpdateNamesEditedRequest | components/guest-requests.tsx:59-91 | since the Name input is read-only (line 331), whatever is typed, the update for a named request is sent under that request's name |
| GuestRequests.ShownCountSpec | components/guest-requests.tsx:236 | the shown count is parseInt or 1, never 0, and a written count reads back |
| EntourageSponsors.FilteredEntourageSpec | components/entourage-sponsors.tsx:71-80 | the view keeps order; a blank query shows all; otherwise a member is kept iff name, role title, role category or email contains the query |
| EntourageSponsors.FilteredSponsorsSpec | components/entourage-sponsors.tsx:83-90 | the view keeps order; a blank query shows all; otherwise a couple is kept iff either name contains the query |
| EntourageSponsors.AddMember | components/entourage-sponsors.tsx:93-98 | refused iff the name is empty; the request has a name and no originalName |
| EntourageSponsors.UpdateMember | components/entourage-sponsors.tsx:131-151 | refused iff no member is being edited or the name is empty; the request's originalName is the edited member's name |
| EntourageSponsors.AddSponsor | components/entourage-sponsors.tsx:208-213 | refused iff both names are empty |
| EntourageSponsors.UpdateSponsor | components/entourage-sponsors.tsx:245-263 | sent iff a couple is being edited; the original pair is the edited couple |
| EntourageSponsors.UpdateMemberFindsRow | components/entourage-sponsors.tsx:147-151 | with unique names, the update for a member opened from a row finds that row, whatever the form holds |
| EntourageSponsors.UpdateSponsorFindsRow | components/entourage-sponsors.tsx:259-263 | with unique pairs, the update for a listed couple passes the store's checks and finds its row |
| GuestMessages.HasMessageSpec | components/guest-messages.tsx:29 | a guest is on the wall iff the message is not blank |
| GuestMessages.WithMessagesSpec | components/guest-messages.tsx:29 | the wall keeps list order and holds exactly the guests with a non-blank message |
| GuestMessages.FilteredMessagesSpec | components/guest-messages.tsx:31-40 | the search keeps the wall's order, shows the whole wall for a blank query, and otherwise exactly the guests whose name, message or email contains the query |
| GuestMessages.ShownCountSpec | components/guest-messages.tsx:115-119 | a shown count is never 0, and a written count reads back |
| GuestMessages.ShownEmail | components/guest-messages.tsx:108-114 | the email is shown iff it is non-empty and not "Pending" |
| GuestMessages.TotalsSpec | components/guest-messages.tsx:164-175 | no message is both attending and pending, so those two totals sum to at most the message count |

## Left out

- Floating point: the similarity percentage is an exact fraction, so the 90% threshold and
  the best-score comparison are exact where the source compares rounded doubles.
- Unicode: strings are ASCII. Whitespace is the space and characters 9 to 13; word
  characters are `[A-Za-z0-9_]`; lower-casing maps only `A`-`Z`.
- `CompanionJson.DecodeCompanions`: the decoder accepts the exact text `JSON.stringify`
  writes, with no whitespace and fixed key order. Some texts `JSON.parse` accepts are read
  as unparsable.
- `Text.ParseInt`: `parseInt` is modelled on text (leading whitespace, sign, a `0x` prefix,
  longest digit prefix). Numbers past 2^53, which lose precision in the source, are exact.
- Sheet cells are text, integers or booleans. Dates and fractional numbers are not modelled,
  and neither is the sheet's conversion of written strings to numbers or dates.
- Rows are modelled as exactly the data rows, from row 2 to `getLastRow()`. A cleared row
  reads the same as a row of empty cells.
- `Utilities.getUuid()`, `new Date().toISOString()` and `Date.now()` are parameters.
- Request fields are modelled as their text (`toString()`); an absent field is `None`, and
  an absent record field on the client is the empty string.
- The WeddingDetails request body is a map from dotted field paths to text.
- Not modelled: the React rendering, `fetch`, toast timers, the artificial delays,
  `confirm()` dialogs and the order of effect scheduling. The handlers are pure state
  transitions.
- Not modelled: `Logger`, sheet formatting, `initializeGuestSheet`'s sheet formatting,
  `backupOldSheet`, `prepareForMigration`, `runCompleteMigration`, and the test and sample
  helpers.
- Not modelled: the guards in `doPost`/`doGet` for a call without `postData` or a missing
  sheet, and the JSON envelopes of their answers. Error results carry the message text.
- `Migration.VerifyMigration`: the log lines are not modelled; only the counts are.
- `GuestSheet.StatisticsOf`: for a sheet with no data rows the source returns a record
  without the `request` and `byAddedBy` fields; the model returns 0 and an empty tally there.
- `Rsvp.SetEmail`: the generic `handleFormChange` setter is modelled for the two fields
  that use it, message and e-mail (components/sections/guest-list.tsx:749, 767); the
  status is set by the two attendance buttons, `Rsvp.ChooseAttendance`.
- lib/wedding-api.ts is not part of this model, nor are the site's `/api` routes. The route
  is taken to choose the script action from the HTTP method (POST create, PUT update,
  DELETE delete) and to pass the fields unchanged. Some page requests carry no `action`
  (the sponsor PUT, the member and sponsor DELETE), and the scripts default a missing
  action to create, so this choice is the route's, not the page's.
- The CSV export quotes a cell only for a comma, a double quote or a line feed, so a cell
  holding a carriage return is written unquoted; a reader that ends records at CRLF, as
  RFC 4180 does, would split it. The model's reader ends records at a line feed only and
  keeps a carriage return as data.
- `GuestSheet.Bump`: the `byAddedBy` object is an association list in first-seen order;
  JavaScript's own key order (integer-like keys first, ascending) is not modelled.
- components/navbar.tsx, components/loader/LoadingScreen.tsx and app/gallery/ are not part
  of this model: they are UI animation and file listing.
- Races between clients writing the same sheet are not modelled.

## Findings

| source | as written | input that shows it | evidently intended | confidence | as-written member | corrected member |
|---|---|---|---|---|---|---|
| google-apps-script/migration-helper.js:28-96 | when the Guests sheet is missing, `initializeGuestSheet()` creates it, but `newSheet` stays `null`, so `createGuest(newSheet, …)` throws for every row | an old sheet with one row named "Ana" and no Guests sheet: migrated 0, errors 1 | fetch the sheet again after creating it, so every row with a name is migrated | not executed | Migration.MigrationWithoutSheet | Migration.MigrationWithSheet |
