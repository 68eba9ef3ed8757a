# OG Doc client-side logic: a verified model

This project models the stateful and algorithmic parts of the OG Doc clients and
proves what they promise, for all inputs, all runs and all reachable states:

- the multipart/form-data encoder of the LibreOffice add-in, against a decoder
  written from RFC 2046 section 5.1.1 and RFC 7578 section 4;
- the `{key}` interpolation of the admin interface, against simultaneous
  substitution;
- the layout editor: safety over runs, what its buttons can reach, and the deep
  clone on the heap;
- the text forms: comma lists, numbers, attribute drafts, object types, generated
  layouts;
- the base64 document transfer of the Word add-in (RFC 4648 section 4);
- the two extension-property writers of the process designer, on the object tree;
- the installation list and the session machine of the admin interface, with
  storage, effects, timers and late continuations;
- the hub dialog and the document link of the LibreOffice add-in;
- the token and retry loop of the load-test cleanup.

Where the source changes things step by step the model does too: objects on the
heap, loops and methods with frames, each tied to a function on values; the laws
are lemmas about those functions. Several promises hold only under a condition;
the results below give that condition as an if-and-only-if, or exhibit the runs
that fail.

Results that differ from what one might expect of the code:

- The form encoder escapes nothing: the receiver sees the parts that were sent
  exactly when no name or file name holds a quote or CRLF, no content type holds
  or completes a blank line, and no content type or body holds a delimiter.
- Interpolation gives the same text for every order of the variables exactly for
  templates without a capture: an outer brace that can be closed by replacing what
  follows it. For the caller, every template is safe exactly when no value is part
  of a later name. A value is inserted verbatim exactly when it holds none of `$$`,
  `` $` ``, `$&`, `$'`.
- The layout editor shows an attribute twice exactly when a selector still holds
  an attribute that was used in the meantime; the click handler does not look.
- A layout generated from the object-type form has duplicates exactly when two
  trimmed attribute names are equal; the form rejects only blank names.
- Opening and saving an object type changes it exactly when it holds something
  the form cannot show.
- A setting of an extension-property panel survives later edits exactly when all
  of them are made in the same panel with its box checked, or it is the default.
- A reload loses an active installation whose id is the empty string, unless it
  is the first one.
- Removing an installation can empty the list exactly when stored ids repeat.
- A logout is final exactly when no refresh is under way and no other
  installation's session can be restored; a late answer logs in again.
- A login or refresh that finishes after the installation was switched puts the
  other installation's session in memory. A timer that fires then sends its refresh
  token for the wrong installation: a server that accepts it has the session stored
  there, and a server that refuses it has that installation's own session deleted,
  before it is due exactly when something of another installation comes due first.
- A template's first save links the template's window exactly when the hub was
  not opened in another window in between.

## Model

| member | source | states |
|---|---|---|
| Multipart.BuildMultipart | apps/libreoffice-addin/python/dms_client.py:71-94 | the loop that appends parts and joins them yields the encoding of the non-None fields in dictionary order followed by the file, and the content type names the boundary |
| Multipart.FieldText | apps/libreoffice-addin/python/dms_client.py:77-81 | the bytes of a text part, written out |
| Multipart.FileText | apps/libreoffice-addin/python/dms_client.py:84-92 | the bytes of a file part, written out |
| Multipart.ClosingText | apps/libreoffice-addin/python/dms_client.py:93-94 | the closing line and the content type, written out |
| Multipart.FieldPartsInOrder | apps/libreoffice-addin/python/dms_client.py:74-81 | each field with a value is one part, in order, and a field without one is none |
| Multipart.RoundTrip | apps/libreoffice-addin/python/dms_client.py:71-94 | for every field list and file the reference decoder returns exactly the non-None fields in order and then the file, byte for byte, if and only if every name and file name can be quoted, no content type holds or completes a blank line, and no content type or body holds a delimiter |
| Multipart.RoundTripIff | apps/libreoffice-addin/python/dms_client.py:71-94 | the reference decoder returns exactly the encoded parts if and only if every header can be read back and no delimiter stands in a content type or at or after the CRLF before a body |
| Multipart.FirstDelimiter | apps/libreoffice-addin/python/dms_client.py:77-93 | the delimiter written after a part is found where it was written, unless it occurs inside: it cannot overlap itself or start early |
| Multipart.DelimiterInContent | apps/libreoffice-addin/python/dms_client.py:77-91 | a delimiter in a part with a readable header can only be one in its content type, or in its body taken with the CRLF before it |
| Multipart.ParsePartIff | apps/libreoffice-addin/python/dms_client.py:77-91 | the only text that reads as a part is what the encoder writes for it, and it does so if and only if the header is readable |
| Multipart.PlainHeader | apps/libreoffice-addin/python/dms_client.py:79-87 | header texts without quotes and carriage returns are always readable, so only the body matters for them |
| Multipart.AbsentBoundaryIsClean | apps/libreoffice-addin/python/dms_client.py:72 | a boundary whose `--boundary` occurs nowhere in a body makes that body safe |
| Interpolation.Interpolate | apps/admin-ui/src/i18n/index.tsx:42-49 | the loop over the entries applies one replaceAll per variable, in order |
| Interpolation.LoopIsSimultaneousIff | apps/admin-ui/src/i18n/index.tsx:44-47 | for all plain variables the loop is the simultaneous substitution if and only if the template captures nothing |
| Interpolation.LoopIsSimultaneous | apps/admin-ui/src/i18n/index.tsx:44-47 | the loop is the simultaneous substitution when nothing is captured, or when no value is part of a later name |
| Interpolation.AlwaysSimultaneousIff | apps/admin-ui/src/i18n/index.tsx:44-47 | for plain variables the loop is the simultaneous substitution in every template if and only if no value is part of the name of a later variable |
| Interpolation.CaptureBreaks | apps/admin-ui/src/i18n/index.tsx:45-46 | for every template with a capture there are plain variables for which the loop gives another text |
| Interpolation.BracedValueIsReplaced | apps/admin-ui/src/i18n/index.tsx:45-46 | a value that is the placeholder of a later variable is replaced again, so values free of braces are needed |
| Interpolation.NonNestedCapturesNothing | apps/admin-ui/src/i18n/index.tsx:44-47 | templates without nested braces capture nothing |
| Interpolation.OrderIrrelevantIff | apps/admin-ui/src/i18n/index.tsx:45 | all orders of the same plain variables give the same text if and only if the template captures nothing |
| Interpolation.OrderMatters | apps/admin-ui/src/i18n/index.tsx:45-46 | for every template with a capture there are two orders of the same plain variables that give different texts |
| Interpolation.InterpolateRender | apps/admin-ui/src/i18n/index.tsx:42-49 | text is kept, known placeholders become their values, unknown ones stay |
| Interpolation.ReplaceIsScan | apps/admin-ui/src/i18n/index.tsx:46 | one replaceAll of a value without special patterns replaces every occurrence of the placeholder and copies every other character |
| Interpolation.VerbatimIff | apps/admin-ui/src/i18n/index.tsx:46 | in every text a value is put verbatim in the place of every occurrence of a placeholder if and only if it holds none of the four patterns replaceAll interprets |
| Interpolation.PatternsMean | apps/admin-ui/src/i18n/index.tsx:46 | what each of the four patterns inserts between the rest of the value: a dollar sign, the placeholder, the text before it, the text behind it |
| Layout.ApplyPlaces | apps/admin-ui/src/components/LayoutDesigner.tsx:97-153 | what every operation does at every place: which rows or fields change places, which one is gone, which one is changed, and that all others stand where they stood |
| Layout.ApplySelectors | apps/admin-ui/src/components/LayoutDesigner.tsx:145-153 | choosing sets one selector, adding a field empties it, nothing else touches one |
| Layout.ApplyUses | apps/admin-ui/src/components/LayoutDesigner.tsx:97-153 | how every operation changes how often an attribute is shown: adding adds one, removing a field or row takes away what it showed, everything else changes nothing |
| Layout.AvailableIs | apps/admin-ui/src/components/LayoutDesigner.tsx:83-91 | an attribute is offered if and only if it is in the schema and not shown |
| Layout.StepKeepsDistinct | apps/admin-ui/src/components/LayoutDesigner.tsx:97-153 | one operation on a duplicate-free layout keeps it so if and only if it does not add an attribute in use |
| Layout.RunKeepsDistinct | apps/admin-ui/src/components/LayoutDesigner.tsx:83-153 | over a whole run no attribute is ever shown twice if and only if every added attribute is available at the click |
| Layout.StaleChoiceDuplicates | apps/admin-ui/src/components/LayoutDesigner.tsx:145-153 | from every layout with two rows and two available attributes, choosing one in both rows and adding it in both shows it twice |
| Layout.SchemaPartition | apps/admin-ui/src/components/LayoutDesigner.tsx:83-153 | after any such run the shown and the available attributes make up the schema, each once |
| LayoutReach.MovesConserveFields | apps/admin-ui/src/components/LayoutDesigner.tsx:97-129 | any run of moves keeps the multiset of fields |
| LayoutReach.AnyRowOrder | apps/admin-ui/src/components/LayoutDesigner.tsx:97-104 | every permutation of n rows is reached by at most n(n-1)/2 offered row moves, contents unchanged |
| LayoutReach.AnyFieldOrder | apps/admin-ui/src/components/LayoutDesigner.tsx:121-129 | every order of the n fields of a row is reached by at most n(n-1)/2 offered moves within it, other rows unchanged |
| LayoutReach.SavedIs | apps/admin-ui/src/components/LayoutDesigner.tsx:164 | what is saved has no empty row, and equals the layout if and only if that has none |
| LayoutReach.EditorComplete | apps/admin-ui/src/components/LayoutDesigner.tsx:83-164 | from any layout every target of non-empty rows with distinct non-empty schema attributes is reached by offered operations, each added attribute being available, and saving sends exactly that target |
| LayoutDesigner.CloneRows | apps/admin-ui/src/components/LayoutDesigner.tsx:26-28 | the clone shows the same rows, consists of new objects only and shares none between two places |
| LayoutDesigner.LayoutDesigner.Load | apps/admin-ui/src/components/LayoutDesigner.tsx:61-73 | loading shows the received rows and forgets the selectors |
| LayoutDesigner.LayoutDesigner.MoveRow | apps/admin-ui/src/components/LayoutDesigner.tsx:93-104 | the swap on the clone is the row move; no object of the previous layout is modified |
| LayoutDesigner.LayoutDesigner.RemoveRow | apps/admin-ui/src/components/LayoutDesigner.tsx:106-108 | the row and no other is dropped |
| LayoutDesigner.LayoutDesigner.AddRow | apps/admin-ui/src/components/LayoutDesigner.tsx:110-112 | an empty row comes last |
| LayoutDesigner.LayoutDesigner.RemoveField | apps/admin-ui/src/components/LayoutDesigner.tsx:114-119 | the splice removes one field, and the row too when that was its last |
| LayoutDesigner.LayoutDesigner.MoveFieldWithinRow | apps/admin-ui/src/components/LayoutDesigner.tsx:121-129 | the swap on the clone is the move within the row |
| LayoutDesigner.LayoutDesigner.UpdateFieldLabel | apps/admin-ui/src/components/LayoutDesigner.tsx:131-136 | one field of the clone gets the label, every other field and the previous layout are unchanged |
| LayoutDesigner.LayoutDesigner.UpdateFieldRequired | apps/admin-ui/src/components/LayoutDesigner.tsx:138-143 | one field of the clone gets the flag, every other field and the previous layout are unchanged |
| LayoutDesigner.LayoutDesigner.ChooseAttribute | apps/admin-ui/src/components/LayoutDesigner.tsx:350-354 | the selector of that row holds the attribute |
| LayoutDesigner.LayoutDesigner.AddFieldToRow | apps/admin-ui/src/components/LayoutDesigner.tsx:145-153 | the chosen attribute is pushed with its name as label and not required, and the selector is emptied; without a choice nothing happens |
| LayoutDesigner.LayoutDesigner.RowsToSave | apps/admin-ui/src/components/LayoutDesigner.tsx:164-168 | the rows sent are those with a field, in order |
| CommaList.ParseIs | apps/admin-ui/src/components/OcrSettings.tsx:62-65 | reading is done entry by entry, in order; a text without a comma is one trimmed entry, or none if it is blank |
| CommaList.ParseHas | apps/admin-ui/src/components/OcrSettings.tsx:62-65 | what is read is exactly the trimmed texts between neighbouring commas or ends that are not empty |
| CommaList.PrintIs | apps/admin-ui/src/components/OcrSettings.tsx:38 | entries are printed with a comma and a blank between them |
| CommaList.ParsePrintIff | apps/admin-ui/src/components/OcrSettings.tsx:38-65 | a list survives being shown and saved if and only if its entries are non-empty, trimmed and free of commas |
| CommaList.ParsePrintParse | apps/admin-ui/src/components/OcrSettings.tsx:38-65 | for every raw text, showing what was read and reading it again gives the same list |
| CommaList.ParseNormal | apps/admin-ui/src/components/OcrSettings.tsx:62-65 | what is read is trimmed, non-empty and free of commas |
| CommaList.ParseGroupsIs | apps/admin-ui/src/components/AdGroupMappings.tsx:113-115 | the group names are the entries typed, each once, and survive being printed and parsed |
| CommaList.DedupOrder | apps/admin-ui/src/components/AdGroupMappings.tsx:114 | names keep the order of their first occurrence |
| CommaList.CompositeNeedsTwo | apps/admin-ui/src/components/AdGroupMappings.tsx:120-124 | a composite rule is accepted if and only if two different names were typed |
| Text.TrimTakes | apps/admin-ui/src/components/OcrSettings.tsx:62-65 | exactly the blanks around a text are taken off |
| Numbers.NumberOfStringOf | apps/admin-ui/src/components/ObjectTypeEditor.tsx:95-100 | every number printed and read back is the same, with point, zeros or exponent, and its text is never blank |
| Numbers.BlanksIgnored | apps/admin-ui/src/components/ObjectTypeEditor.tsx:95-100 | blank text is zero and blanks around a number do not matter |
| Numbers.PlusIgnored | apps/admin-ui/src/components/ObjectTypeEditor.tsx:95-100 | a plus sign before digits does not matter |
| Numbers.RadixReads | apps/admin-ui/src/components/ObjectTypeEditor.tsx:95-100 | numbers written in hexadecimal, octal or binary are read so |
| Numbers.ExponentFormIff | apps/admin-ui/src/components/ObjectTypeEditor.tsx:221-222 | a decimal is printed with an exponent if and only if it has more than 21 digits before the point or more than five zeros behind it |
| ObjectTypeForm.ToBackendAttribute | apps/admin-ui/src/components/ObjectTypeEditor.tsx:83-105 | filling the object key by key yields the stored form of the draft |
| ObjectTypeForm.AttributeSent | apps/admin-ui/src/components/ObjectTypeEditor.tsx:83-105 | every key of the stored attribute holds what was put into the field of that name |
| ObjectTypeForm.DraftProjection | apps/admin-ui/src/components/ObjectTypeEditor.tsx:83-105 | saving, loading and saving a draft again stores the same attribute |
| ObjectTypeForm.AttributeUnchangedIff | apps/admin-ui/src/components/ObjectTypeEditor.tsx:215-225 | loading and saving an attribute keeps it if and only if the form can show all of it |
| ObjectTypeForm.SaveTwice | apps/admin-ui/src/components/ObjectTypeEditor.tsx:210-375 | a loaded object type saved twice unchanged sends the same whole payload; naming constraints and conditions pass through |
| ObjectTypeForm.TypeUnchangedIff | apps/admin-ui/src/components/ObjectTypeEditor.tsx:210-375 | opening and saving an object type changes nothing if and only if the form can show all of it |
| ObjectTypeForm.ReopenIff | apps/admin-ui/src/components/ObjectTypeEditor.tsx:210-375 | for every form that is sent, reopening shows what was typed if and only if texts are trimmed, numbers as printed, labels empty and nothing is set for the other sort of type |
| ObjectTypeForm.FormSent | apps/admin-ui/src/components/ObjectTypeEditor.tsx:280-375 | every key of the payload holds what was put into the field of that name, for the sort of type it is for |
| ObjectTypeForm.SubmitReads | apps/admin-ui/src/components/ObjectTypeEditor.tsx:356-375 | the payload depends on the edited type only through its sort, naming constraints and conditions, which pass through |
| ObjectTypeForm.BuildGeneratedLayoutRows | apps/admin-ui/src/components/ObjectTypeEditor.tsx:107-120 | the loop over chunks of two yields the generated rows |
| ObjectTypeForm.GeneratedPlaces | apps/admin-ui/src/components/ObjectTypeEditor.tsx:107-120 | two fields to a row in the order of the drafts, each with trimmed name, label or else name, and its flag |
| ObjectTypeForm.GeneratedIsDuplicateFree | apps/admin-ui/src/components/ObjectTypeEditor.tsx:107-120 | the generated layout has no empty row, and no duplicate attribute if and only if the trimmed names differ |
| DocumentTransfer.BytesToBase64 | apps/office-addin/src/lib/office.ts:82-86 | the loop over the bytes encodes exactly them |
| DocumentTransfer.CurrentDocumentAsBase64 | apps/office-addin/src/lib/office.ts:93-124 | delivered slices give the encoding of their concatenation, a failed opening or the first failed slice rejects, and an opened file is closed on every path |
| DocumentTransfer.Base64ToBlob | apps/office-addin/src/lib/office.ts:126-131 | the byte array filled in the loop is what the text decodes to; malformed text is rejected |
| DocumentTransfer.AtobBtoa | apps/office-addin/src/lib/office.ts:126-139 | decoding undoes encoding for every byte sequence and every padding |
| DocumentTransfer.AlphabetIs | apps/office-addin/src/lib/office.ts:85 | the alphabet is the table of RFC 4648 section 4, in both directions |
| DocumentTransfer.QuadBits | apps/office-addin/src/lib/office.ts:85 | four characters are the 24 bits of three bytes, most significant first |
| DocumentTransfer.AtobAccepts | apps/office-addin/src/lib/office.ts:127 | without blanks and padding, a text is decoded if and only if it is all alphabet and no character is left over |
| DocumentTransfer.AtobSkips | apps/office-addin/src/lib/office.ts:127 | the five blanks may stand anywhere |
| DocumentTransfer.AtobUnpadded | apps/office-addin/src/lib/office.ts:127 | the padding may be missing |
| DocumentTransfer.BlobToBase64 | apps/office-addin/src/lib/office.ts:136-139 | the text of a blob decodes to the blob |
| DocumentTransfer.SaveDocument | apps/office-addin/src/components/TaskPane.tsx:186-190 | whatever slices the host delivers, the blob made from the text read holds exactly the bytes of the document; a failed opening or slice rejects, and the file is closed |
| DocumentTransfer.PiecewiseIff | apps/office-addin/src/lib/office.ts:105-116 | for every list of slices, encoding them one by one would give the text of the whole if and only if every slice that is followed by a non-empty one has a length divisible by three |
| ExtensionProperties.WriteIs | apps/process-designer/src/components/FederatedStepPropertiesProvider.tsx:118-145 | after a write the first property list holds exactly what was written, and a second write replaces it |
| ExtensionProperties.WriteFrame | apps/process-designer/src/components/FederatedStepPropertiesProvider.tsx:108-145 | the other extension elements keep value and order, and a second property list is never made |
| ExtensionProperties.ReadFederated | apps/process-designer/src/components/FederatedStepPropertiesProvider.tsx:57-138 | the getters of both panels read what the federated writer retained, with their defaults for what it dropped |
| ExtensionProperties.ReadSignature | apps/process-designer/src/components/SignatureTaskPropertiesProvider.tsx:52-108 | the getters of both panels read what the signature writer retained, with their defaults |
| ExtensionProperties.EditMeaning | apps/process-designer/src/components/FederatedStepPropertiesProvider.tsx:148-234 | what both panels read after an edit is the edit's meaning applied to what they read before |
| ExtensionProperties.RunMeaning | apps/process-designer/src/components/FederatedStepPropertiesProvider.tsx:95-234 | over any sequence of edits of both panels the reading follows the edits alone, other elements stay, one property list stays one |
| ExtensionProperties.LastEditDecides | apps/process-designer/src/components/SignatureTaskPropertiesProvider.tsx:58-153 | after any run the task is federated, a signature task or neither, decided by the last edit alone |
| ExtensionProperties.ListAfterRun | apps/process-designer/src/components/FederatedStepPropertiesProvider.tsx:95-234 | what the list holds under every name after any run: nothing once a box was unchecked, otherwise the last panel's own entries with the values chosen or read, each once and in order, and none of the other panel's |
| ExtensionProperties.SettingSurvivesIff | apps/process-designer/src/components/FederatedStepPropertiesProvider.tsx:95-234 | over any run of edits that do not set it, a panel's setting is kept if and only if it is the default or all edits were made in that panel with its box checked |
| ExtensionProperties.SwitchingForgets | apps/process-designer/src/components/SignatureTaskPropertiesProvider.tsx:125-130 | after any run, leaving a panel by any edit and checking its box again shows its defaults |
| ModdleWriters.Execute | apps/process-designer/src/components/FederatedStepPropertiesProvider.tsx:145 | the batch leaves in every object what the last command for it says and changes nothing else |
| ModdleWriters.FindProperties | apps/process-designer/src/components/FederatedStepPropertiesProvider.tsx:44-50 | the first property list of the task, or none |
| ModdleWriters.GetPropertyValue | apps/process-designer/src/components/FederatedStepPropertiesProvider.tsx:57-61 | the value of the first entry of that name in the first property list |
| ModdleWriters.PrepareWrite | apps/process-designer/src/components/FederatedStepPropertiesProvider.tsx:105-143 | all commands are computed from the unchanged tree; missing container and list are created with their parents |
| ModdleWriters.WriteProperties | apps/process-designer/src/components/FederatedStepPropertiesProvider.tsx:95-146 | computing all commands first and running them afterwards is one write; only the task, its container and its first list change |
| ModdleWriters.SetFederatedStepProperties | apps/process-designer/src/components/FederatedStepPropertiesProvider.tsx:95-146 | writes the values that are neither undefined nor empty |
| ModdleWriters.SetSignatureProperties | apps/process-designer/src/components/SignatureTaskPropertiesProvider.tsx:69-116 | writes the values that are not undefined |
| ModdleWriters.HandleEdit | apps/process-designer/src/components/FederatedStepPropertiesProvider.tsx:154-234 | each field's setValue, run on the tree, is the edit |
| ModdleWriters.HandleEdits | apps/process-designer/src/components/FederatedStepPropertiesProvider.tsx:154-234 | any sequence of edits of both panels on the tree shows what the run on values shows and touches only the task, its container and its elements |
| Installations.StepSafe | apps/admin-ui/src/lib/installation-context.tsx:38-84 | every change and its render keep the list non-empty with unique ids, equal to what storage holds, and the gateway address that of the active installation |
| Installations.RunSafe | apps/admin-ui/src/lib/installation-context.tsx:38-84 | the same in every reachable state, also between a removal and the repair effect |
| Installations.InitSafe | apps/admin-ui/src/lib/installation-context.tsx:29-51 | initialising from any stored state with unique ids establishes it |
| Installations.StartShows | apps/admin-ui/src/lib/installations.ts:15-30 | a first start shows the default installation, a later one the stored list and the stored active id if it is listed |
| Installations.RunLists | apps/admin-ui/src/lib/installation-context.tsx:66-84 | after any run the list holds exactly the installations of the start and the added ones that no later removal took away, in that order, with name and address as given |
| Installations.SwitchShows | apps/admin-ui/src/lib/installation-context.tsx:53-56 | every listed installation can be made the active one, its address is used, and a reload finds it |
| Installations.ReloadRestores | apps/admin-ui/src/lib/installation-context.tsx:29-84 | after any run a reload gives the same list, and the same active installation if and only if that is not one with an empty id behind the first |
| Installations.AlwaysRestoredIff | apps/admin-ui/src/lib/installation-context.tsx:29-84 | from stored installations with unique ids every run can be reloaded without changing the active installation, if and only if none but the first has an empty id |
| Installations.EmptyIdLost | apps/admin-ui/src/lib/installation-context.tsx:31-37 | one switch to an installation with an empty id behind the first is forgotten by a reload |
| Installations.NeverEmptyIff | apps/admin-ui/src/lib/installation-context.tsx:77-84 | no run ever leaves the list empty if and only if the stored ids are unique |
| Installations.RepairSettles | apps/admin-ui/src/lib/installation-context.tsx:60-64 | after the repair effect the active id names an installation of the list, the one shown before |
| Installations.WithoutUnique | apps/admin-ui/src/lib/installation-context.tsx:77-84 | removal keeps ids unique and takes at most one installation away |
| Installations.InstallationProvider.constructor | apps/admin-ui/src/lib/installation-context.tsx:29-51 | the component starts in the initial state for what storage holds |
| Installations.InstallationProvider.SwitchInstallation | apps/admin-ui/src/lib/installation-context.tsx:53-56 | state, storage and gateway follow the new id |
| Installations.InstallationProvider.Repair | apps/admin-ui/src/lib/installation-context.tsx:60-64 | the effect switches to the first installation if and only if the active id is dangling |
| Installations.InstallationProvider.AddInstallation | apps/admin-ui/src/lib/installation-context.tsx:66-75 | the new installation comes last, in state and storage |
| Installations.InstallationProvider.RemoveInstallation | apps/admin-ui/src/lib/installation-context.tsx:77-84 | the installation leaves state and storage, unless it is the only one; if none is left the render raises |
| AuthSession.NeverExpiredIff | apps/admin-ui/src/lib/auth-context.tsx:61-167 | no reachable state holds an expired access token in memory if and only if issue-to-store delay plus refresh duration stay below 30 seconds, or below the lifetime where that is shorter |
| AuthSession.StepInvariant | apps/admin-ui/src/lib/auth-context.tsx:94-167 | every step keeps each token in memory guarded by a timer or an open refresh that is early enough, and every stored session early enough to restore |
| AuthSession.SlowRunExpires | apps/admin-ui/src/lib/auth-context.tsx:129-143 | without that budget one login and one slow refresh leave an expired token in use |
| AuthSession.AnswerKept | apps/admin-ui/src/lib/auth-context.tsx:61-112 | after a login or refresh the access token and the refresh token of the answer are in memory and stored, each in its place, due 30 seconds before the lifetime is over |
| AuthSession.SessionEnded | apps/admin-ui/src/lib/auth-context.tsx:94-158 | a logout, a failed refresh or a failed profile load leaves no tokens and no timer, and removes exactly the captured installation's stored session |
| AuthSession.StepProfiles | apps/admin-ui/src/lib/auth-context.tsx:102-158 | a restored session and an answered refresh start a profile load whose failure still clears a session, a login starts none |
| AuthSession.PairsFromAnswers | apps/admin-ui/src/lib/auth-context.tsx:102-112 | over any run every session in memory or storage was there before or holds the two tokens of one answer of the run |
| AuthSession.FireSendsMemory | apps/admin-ui/src/lib/auth-context.tsx:129-136 | in every state of a run a timer that fires sends the refresh token of the session in memory, for the active installation |
| AuthSession.KeysInjective | apps/admin-ui/src/lib/auth-context.tsx:37-39 | storage keys of different installations differ, and differ from the keys of the installation list |
| AuthSession.StoredSessionFrame | apps/admin-ui/src/lib/auth-context.tsx:94-167 | over any interleaving a stored session changes only in steps whose captured installation id is its own; switching, restoring and reloading write none |
| AuthSession.ReturnRestores | apps/admin-ui/src/lib/auth-context.tsx:148-158 | coming back to an installation restores its session if it has not come due, whatever happened elsewhere |
| AuthSession.OwnSessionIff | apps/admin-ui/src/lib/auth-context.tsx:102-167 | a step puts a session other than the active installation's in memory if and only if it is a login or refresh finishing for another installation; switch and restore settle it |
| AuthSession.StoreOwnedIff | apps/admin-ui/src/lib/auth-context.tsx:102-112 | over any run every stored session stays that of a login to the installation it is stored for, if and only if no refresh answers that was sent with another installation's token |
| AuthSession.FlightsOwnedIff | apps/admin-ui/src/lib/auth-context.tsx:129-143 | no such refresh is ever sent if and only if every timer fires with the active installation's own session in memory; then the stored sessions stay owned too |
| AuthSession.MemoryOwnedIff | apps/admin-ui/src/lib/auth-context.tsx:102-167 | which steps put another installation's session in memory: a login or refresh that finishes for another one, and a switch until the restore effect |
| AuthSession.ForeignSessionInMemory | apps/admin-ui/src/lib/auth-context.tsx:102-143 | a run from the start that ends with another installation's session in memory |
| AuthSession.ForeignSessionStored | apps/admin-ui/src/lib/auth-context.tsx:102-143 | a run from the start, with one login and one switch during its refresh, that stores that login's session for the other installation, whose server accepts the token |
| AuthSession.LogoutFinalIff | apps/admin-ui/src/lib/auth-context.tsx:94-143 | over all runs without a login no session is stored again for the logged-out installation, if and only if at the logout no refresh is under way and no other installation's session can be restored; a server may accept any refresh token |
| AuthSession.LogoutUndone | apps/admin-ui/src/lib/auth-context.tsx:94-143 | a run from the start in which the answer to a refresh under way logs the user in again after the logout |
| AuthSession.NotLostIff | apps/admin-ui/src/lib/auth-context.tsx:94-143 | where each server accepts only its own refresh tokens, a stored session that is not due survives every run without logins and without its own logout, profile failure or refresh, if and only if nothing of another installation can come due before it |
| AuthSession.SessionLost | apps/admin-ui/src/lib/auth-context.tsx:94-143 | a run from the start, with a login to each of two installations, in which the refused refresh of one deletes the other's stored session before it is due |
| AuthSession.LoginElsewhere | apps/admin-ui/src/lib/auth-context.tsx:94-143 | from every state a login to another installation can end as a stored session of this one, where its server accepts the token |
| AuthSession.AuthProvider.TimerEffect | apps/admin-ui/src/lib/auth-context.tsx:129-143 | the old timer is cleared and a new one is due at the stored time, or at once |
| AuthSession.AuthProvider.ClearSession | apps/admin-ui/src/lib/auth-context.tsx:94-100 | tokens, timer and the session stored under the captured id are gone, other sessions stay |
| AuthSession.AuthProvider.ApplySession | apps/admin-ui/src/lib/auth-context.tsx:102-112 | the response is stored under the captured id and in memory, and the timer follows it |
| AuthSession.AuthProvider.RestoreEffect | apps/admin-ui/src/lib/auth-context.tsx:148-167 | a stored session that has not come due is taken up, any other leaves the memory empty; storage is untouched |
| AuthSession.AuthProvider.InstallationChanged | apps/admin-ui/src/lib/auth-context.tsx:85-143 | another active installation re-arms the timer with the new callbacks and touches neither tokens nor storage |
| LinkStore.GetSet | apps/libreoffice-addin/python/settings_store.py:82-103 | get after set returns the same id, version and content type if and only if the id is not empty; an empty id reads as no link |
| LinkStore.SetNames | apps/libreoffice-addin/python/settings_store.py:99-103 | under which three names the link is stored |
| LinkStore.GetDefault | apps/libreoffice-addin/python/settings_store.py:91-96 | a link without a content type is one to an OpenDocument text |
| LinkStore.BlanksSkipped | apps/libreoffice-addin/python/settings_store.py:96 | blanks around the stored version number do not matter |
| LinkStore.RunIs | apps/libreoffice-addin/python/settings_store.py:70-111 | over any sequence of calls other properties are untouched and the last call alone decides what is read |
| LinkStore.SetProperty | apps/libreoffice-addin/python/settings_store.py:70-79 | sets an existing property or adds a missing one, never the wrong way round |
| LinkStore.GetLinkedDocument | apps/libreoffice-addin/python/settings_store.py:82-96 | reads the link, its default content type, or the exception of a damaged bag; the version number by the rules of int() |
| LinkStore.SetLinkedDocument | apps/libreoffice-addin/python/settings_store.py:99-103 | the three properties are written, nothing else |
| LinkStore.ClearLinkedDocument | apps/libreoffice-addin/python/settings_store.py:106-111 | the loop removes the three properties where they are present, nothing else |
| Hub.StatusMatchesButtons | apps/libreoffice-addin/python/ogdoc_addin.py:46-262 | two states show the same kind of status if and only if they offer the same buttons |
| Hub.OfferedIsServed | apps/libreoffice-addin/python/ogdoc_addin.py:242-653 | every offered action's handler passes its own guards and has a session whenever it reads the user name |
| Hub.CacheStaysAgreed | apps/libreoffice-addin/python/ogdoc_addin.py:109-112 | over any run the cached session agrees with the session file |
| Hub.LoggedOutUntilLogin | apps/libreoffice-addin/python/ogdoc_addin.py:242-311 | without a session only the login button is offered until a login succeeds, over any run |
| Hub.LogoutLogsOut | apps/libreoffice-addin/python/ogdoc_addin.py:309-311 | after a logout that is the case |
| Hub.LoggedInUntilLogout | apps/libreoffice-addin/python/ogdoc_addin.py:285-300 | after a successful login the session is that login's over any run until a logout, and no login is offered |
| Hub.PendingStaysInWindow | apps/libreoffice-addin/python/ogdoc_addin.py:181-186 | within one hub loop the working document stays the template's window while a template is pending |
| Hub.SavesLinkTemplateIff | apps/libreoffice-addin/python/ogdoc_addin.py:175-186 | over several hub loops every state's first save would link the template's own window, and the working document stays that window, if and only if the hub was never opened in another window while a template was pending |
| Hub.WrongWindowLinked | apps/libreoffice-addin/python/ogdoc_addin.py:555-634 | otherwise the saved document is linked to the window the hub was opened in, and the template's window is not |
| Hub.HandlersLink | apps/libreoffice-addin/python/ogdoc_addin.py:377-653 | an opened document carries its link and becomes the working document if the lock request was answered, a check-in changes its version only, unlinking leaves none if the lock request was answered and the link if not |
| Hub.TemplateToDocument | apps/libreoffice-addin/python/ogdoc_addin.py:419-634 | an opened template is pending in its own window with only its first save on offer, and that save makes it a linked document with its actions |
| Hub.UnlinkedOffers | apps/libreoffice-addin/python/ogdoc_addin.py:242-653 | after unlinking the hub offers to open a document |
| Hub.HandlerFrame | apps/libreoffice-addin/python/ogdoc_addin.py:268-653 | what each action leaves alone: session, pending template, working document, other windows and all properties that are not the link's |
| Hub.StaysReadable | apps/libreoffice-addin/python/ogdoc_addin.py:192-197 | the hub's own writes never leave a property bag that reading would raise on |
| Hub.Addin.ReadSession | apps/libreoffice-addin/python/ogdoc_addin.py:109-112 | returns the cached session or the one in the file, and caches it |
| Hub.Addin.ShowHub | apps/libreoffice-addin/python/ogdoc_addin.py:192-217 | status and buttons are those of the current state |
| Hub.Addin.HandleAction | apps/libreoffice-addin/python/ogdoc_addin.py:268-653 | the state effects of all handlers, with and without success, and where an exception of a lock request leaves them half-way |
| Hub.Addin.OpenHubLoop | apps/libreoffice-addin/python/ogdoc_addin.py:175-186 | the hub loop over the user's choices is the run of their events |
| LoadTest.TeardownSession.CurrentToken | loadtest/k6/scenario.js:274-284 | without a login the cached token if it is not empty and at most 250 seconds old, otherwise exactly one login; the token returned is what the login named answered, at most 250 seconds ago, and that login is later than one whose token was rejected |
| LoadTest.TeardownSession.SendOnce | loadtest/k6/scenario.js:288-302 | one round sends exactly one request, or none where the login failed, and keeps every request genuine |
| LoadTest.TeardownSession.Request | loadtest/k6/scenario.js:286-304 | at most maxAttempts requests, each with a token some login really answered at most 250 seconds before, from a later login after a 401, after a pause of 2 seconds after a 429; a response is neither 401 nor 429, null means that many attempts were all one of those, and the exception that the last login failed |
| LoadTest.RejectedTokenIsGone | loadtest/k6/scenario.js:295-300 | after a 401 every later request, in this call or a later one, carries what a later login answered, and so another text unless such a login handed out the same one |
| LoadTest.SentTokenAge | loadtest/k6/scenario.js:274-284 | counted from its issue by the server, a token that is sent is at most 250 seconds older than the longest login took |
| LoadTest.PickAction | loadtest/k6/scenario.js:241-249 | the picked action is the one whose interval of cumulated weight holds the random number |

## Left out

- Interpolation.LoopIsSimultaneousIff: ranges over variables whose names and values are free of braces and whose values hold no replaceAll pattern; `BracedValueIsReplaced` and `VerbatimIff` show why both are needed.
- Text encoding: names and values of the multipart form are their UTF-8 bytes, which concatenate as the texts do; the boundary is a parameter without carriage return.
- Dictionary lookup (`resolve`) and the dictionaries: the template is a parameter of the interpolation.
- Numbers.NumberOfStringOf: decimals are exact; rounding to 64 bits, overflow and negative zero are not modelled, nor is JSON's form of NaN and infinities.
- ObjectTypeForm.ToBackendAttribute: numbers as in `Numbers.NumberOfStringOf`.
- ObjectTypeForm.DraftProjection: numbers as in `Numbers.NumberOfStringOf`.
- LinkStore.GetLinkedDocument: digits of other scripts and the length limit of `int()` are not modelled.
- LoadTest.TeardownSession.CurrentToken: a login answered with status 200 is taken to carry a token.
- Creating an object type, and an edited type that vanished from the list: the payload of the update of a listed type is modelled; blob media types are passed through.
- Server: responses, stored layouts and object types, token lifetimes and lock errors are parameters; the service is taken to store a payload as it was sent.
- React scheduling: a handler or effect is one step on the state it was rendered with; effects may run at any later moment, and double invocation in development mode is not modelled.
- JSON text in browser storage and in the session file: an entry is absent, unreadable or a value.
- Late profile data: user and permissions in memory; only the tokens and stored sessions are modelled.
- Hub.Addin.HandleAction: property bags are values in a map from windows rather than objects; the object form is the class in `LinkStore`.
- Undo of a command batch and the diagram library itself: a command sets the named property of one object.
- Validation messages, translations, dialogs, layout breakpoints, and all endpoint wrappers: no state or algorithm of their own.
- Documents in the Word file itself (`getLinkedDocument` of the Office add-in): the same law as the link store, on another property bag.
