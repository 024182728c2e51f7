# Detection-model lifecycle and menu permissions, in Dafny

This project models two parts of the DBlab01 back end.

**The detection-model version lifecycle** (`DetectionModelService` in
`database/model.py`). This is the four-step wizard that creates, edits and
promotes versions of a trainable detection model.
- `add_model` creates a model, its version 1 (`Processing`, step 0) and a
  product binding.
- Step 1 edits the function selection of a draft version in place. Opening a
  version that is already `Ready` or `Using` instead forks it: a new draft
  gets the next version number and the source version stays unchanged.
- Step 2 stores the camera, product, name and training split.
- Step 3 advances the step counter.
- Step 4 promotes the version to `Using` and demotes its non-draft siblings
  to `Ready`.
- `delete_model` soft-deletes a model.
- `get_versions` lists the existing version numbers with the next free one
  in front.
- The image uploads store a namespaced path and a normalised annotation.

**The action-id parser** of `PermissionDB.get_permission`
(`database/permission.py`). It turns each role-permission row into a menu
permission record. The stored action text (`"1,2,3"`) becomes a list of
integers.

Layout:
- `common.dfy` holds the nullable value `Option`.
- `text.dfy` writes out the Python string primitives the code relies on:
  `split`, `strip`, `isdigit`, `int()` and the f-string rendering of an
  integer. Each comes with its inverse or a characterisation.
- `permission.dfy` models `get_permission`.
- `images.dfy` models the upload path and the annotation normalisation.
- `lifecycle.dfy` holds the table rows and one pure function per SQL
  statement of the wizard, with the lifecycle's lemmas.
- `store.dfy` is the service as a class whose fields are the tables. Each
  method runs its Python counterpart's statements in order, and its
  postcondition gives the new tables through the functions of
  `lifecycle.dfy`. The one exception is `delete_model` on an unknown id,
  where the store answers the intended 404 (see "## Findings").
- `scenario.dfy` walks through the wizard's main path: create, finish, fork
  and finish again.

Representation:
- A table is the sequence of its rows in insertion order.
- The serial id of a `model`, `modelversion` or `image` row is its position
  in its table. `modelfunction` and `cameramodelprodapplied` rows carry the
  version id they belong to.
- The `user` and `product` tables are only read, so they are the store's
  constant sets.
- A failure is a `Result` error with the HTTP status the route answers with.
  A Python exception inside a service method becomes `ServerError`, because
  the route in `main.py` wraps every exception into a 500.

## Model

| member | source | states |
|---|---|---|
| Text.Split | database/permission.py:33 | `str.split(',')`: at least one piece, and no piece contains the separator |
| Text.JoinSplit | database/permission.py:33 | joining the pieces of a split with the same separator gives the input back |
| Text.SplitJoin | database/permission.py:33 | pieces free of the separator, joined and split again, come back unchanged |
| Text.StripSpec | database/permission.py:33 | `str.strip()`: the result neither starts nor ends with whitespace, it is a contiguous slice of the input, and every character cut off is Python whitespace |
| Text.LeadingSpacesSpec | database/permission.py:33 | the leading run `strip()` cuts is all whitespace and stops at the first character that is not |
| Text.TrailingSpacesSpec | database/permission.py:33 | the trailing run `strip()` cuts is all whitespace and stops at the last character that is not |
| Text.NatToDigits | database/permission.py:33 | the decimal rendering of a natural number is all digits, has no leading zero, and `int()` reads it back |
| Text.IsSpace | database/permission.py:33 | the characters Python's `str.isspace()` accepts, which is the set `str.strip()` with no argument removes |
| Text.IsDigits | database/permission.py:33-36 | `str.isdigit()` on ASCII digits: the string is non-empty and every character is '0'-'9' |
| Text.DigitsValue | database/permission.py:33-36 | `int(s)` on a digit string, most significant digit first; a leading zero does not change the value (`int("07") == 7`) |
| Text.Strip | database/permission.py:33 | `str.strip()`: never longer than its input; `Text.StripSpec` characterises it fully |
| Text.IntToString | database/model.py:587 | the f-string rendering of the version id holds only digits and '-', and parses back to the id |
| Permission.ActionText | database/permission.py:30 | `str(row.actionid)`: a NULL column renders as "None", any other value is kept |
| Permission.PieceAction | database/permission.py:33 | one piece of the comma branch gives at most one action: exactly when it is all digits once stripped, and then its value |
| Permission.OrEmpty | database/permission.py:40-43 | `x or ""`: NULL becomes "", any other value is kept |
| Permission.DigitPieces | database/permission.py:33 | only pieces that are digits once stripped make it into the list, so it is no longer than the pieces and every action is non-negative |
| Permission.ParseActions | database/permission.py:29-36 | with a comma, the digit pieces of `split(',')` in order; without one, `[int(s)]` when the text is all digits and [1] otherwise, so exactly one element; an empty list requires a comma |
| Permission.FirstAction | database/permission.py:45 | the reported action id is the first action, or 1 for an empty list |
| Permission.ToPermission | database/permission.py:29-46 | one record per row: the actions are those parsed from `str(actionid)`; the action id is the first of them, or 1 when there are none; NULL parent, path and icon become "", the other fields are copied |
| Permission.Permissions | database/permission.py:27-47 | the permission list holds one record per query row, in row order, each that row's record |
| Permission.GetPermission | database/permission.py:27-47 | the loop that appends one record per row builds exactly that permission list |
| Permission.DigitPiecesAppend | database/permission.py:33 | parsing keeps input order: the actions of two runs of pieces are the actions of each run, concatenated |
| Permission.DigitPiecesDropsNonNumber | database/permission.py:33 | a piece that is not a number once stripped contributes nothing, wherever it sits |
| Permission.ParseActionsRoundTrip | database/permission.py:29-36 | a non-empty list of action ids, stored comma-separated, parses back to the same list |
| Images.IsEmptySentinel | database/model.py:602 | the four values `annotate in ('', "", 'null', None, {})` accepts: the empty string, "null", None and the empty dict |
| Images.ImageFolder | database/model.py:587 | the folder `f"{prodid}/{cameraid}/{modelversionid}"`, with the version id rendered in decimal |
| Images.ImagePath | database/model.py:598 | the stored `imagepath`: the folder, '/', then the file name |
| Images.PublicPath | database/model.py:627 | the returned path: `dataset/` in front of the stored one |
| Images.NormaliseAnnotation | database/model.py:601-605 | `''`, `'null'`, `None` and `{}` become `[]`; every other annotation passes through unchanged; the result is never one of those sentinels |
| Images.ImagePathIsJoin | database/model.py:587-598 | the stored `imagepath` is product, camera, version id and file name joined by '/' |
| Images.ImagePathParts | database/model.py:587-598 | when the product, camera and file name hold no '/', the stored path splits back into exactly those four components |
| Images.ImagePathInjective | database/model.py:587-598 | when product, camera and file name hold no '/', two uploads share a storage path only if product, camera, version and file name all agree |
| Images.ImagePathCollidesWithSlash | database/model.py:587-598 | without that condition two versions can share a key: file "2/f" of version 1 under product "p", camera "c" and file "f" of version 2 under product "p/c", camera "1" are both stored at "p/c/1/2/f" |
| Images.PublicPathParts | database/model.py:627 | the returned path is `dataset` followed by the four components of the stored path |
| Lifecycle.StatusCode | database/model.py:136-142 | validation failures answer 400, an unknown id 404, an exception 500 |
| Lifecycle.VersionNumbersAppend | database/model.py:409-426 | inserting a version row adds its number to its model's numbers and nothing else |
| Lifecycle.MaxVersionNo | database/model.py:399-401 | `MAX(versionno)` over a model: NULL exactly when the model has no numbered version, otherwise a number of the model that no other number exceeds |
| Lifecycle.NextAfterUnique | database/model.py:403 | only one number follows a given set of version numbers |
| Lifecycle.NextVersionNo | database/model.py:403 | `(MAX or 0) + 1` is above every number of the model, one more than the largest, and 1 when there is none |
| Lifecycle.NonNull | database/model.py:65 | the list comprehension keeps exactly the non-null numbers |
| Lifecycle.NonNullKeepsMultiplicity | database/model.py:65 | each number occurs in the list as often as the rows hold it, duplicates included |
| Lifecycle.NonNullAppend | database/model.py:65 | the list keeps query order: the values of two runs of rows are those of each run, concatenated |
| Lifecycle.SeqMax | database/model.py:66 | Python's `max` is an element of the list that no element exceeds |
| Lifecycle.GetVersions | database/model.py:60-68 | the list is the next number followed by the non-null numbers in query order, and that head follows every number in the rows |
| Lifecycle.NumbersInAppend | database/model.py:60-64 | the numbers of two runs of rows are the union of each run's numbers |
| Lifecycle.VersionNoColumn | database/model.py:61-64 | the `versionno` column of a model's rows holds exactly that model's numbers |
| Lifecycle.NonNullSorted | database/model.py:62-65 | rows in `ORDER BY versionno DESC` order give a non-increasing list |
| Lifecycle.GetVersionsOfModel | database/model.py:60-68 | for the model's rows in descending order, the list is non-increasing, its head is strictly above the rest, and the head is the number a fork of that model assigns |
| Lifecycle.LinksFor | database/model.py:369-373 | the rows for a set of function ids are exactly the version's rows with those ids |
| Lifecycle.ToInsert | database/model.py:366 | `to_insert`: requested functions the version does not have yet, which together with the existing ones cover the request |
| Lifecycle.ToDelete | database/model.py:367 | `to_delete`: functions the version has that are no longer requested, which together with the request cover the existing ones |
| Lifecycle.Reconcile | database/model.py:359-379 | after the in-place edit the version's function set equals the requested set; only requested-minus-existing rows are added, only existing-minus-requested rows removed, and rows of other versions do not change |
| Lifecycle.ReconcileIdempotent | database/model.py:366-379 | re-applying the set a version already has inserts and deletes nothing and yields the same rows |
| Lifecycle.AttachToFreshVersion | database/model.py:429-434 | attaching functions to a version without rows gives it exactly the requested set and leaves every other version's set alone |
| Lifecycle.DeleteLink | database/model.py:375-379 | `DELETE ... WHERE modelversionid AND functionid` removes exactly that row, and a table without duplicates stays so |
| Lifecycle.FirstVersion | database/model.py:174-181 | a new model's version is number 1, `Processing`, step 0, created by the creator |
| Lifecycle.NewModelHasOneVersion | database/model.py:144-182 | when every version belongs to an existing model, the new model ends with exactly one version, and its numbers are exactly {1} |
| Lifecycle.ForkedVersion | database/model.py:399-426 | the fork's row belongs to the request's model, is `Processing` at step 2, is created by the editor, and holds the number that follows all of that model's numbers |
| Lifecycle.ForkedBinding | database/model.py:436-447 | the fork's binding holds the source binding's product, is not applied, and has no camera |
| Lifecycle.ForkKeepsVersionNumbersDistinct | database/model.py:399-426 | forking keeps version numbers unique within each model |
| Lifecycle.FinishCanDuplicateVersionNumbers | database/model.py:551-566 | step 4 writes the caller's number unchecked, so two versions of a model can end up with the same number |
| Lifecycle.FirstBinding | database/model.py:395-397 | `.first()` is none exactly when the version has no binding; otherwise it is the version's earliest binding |
| Lifecycle.Configure | database/model.py:457-468 | step 2 gives every binding of the version the request's camera and product and marks it not applied; other bindings do not change |
| Lifecycle.Apply | database/model.py:537-548 | step 4 marks every binding of the version applied by the editor; other bindings do not change |
| Lifecycle.ApplyThenConfigure | database/model.py:457-468 | a version's binding is applied after step 4 and no longer applied after a later step 2 |
| Lifecycle.Rename | database/model.py:471-484 | step 2 writes name, description and editor to the request's model only; an unknown id changes no row |
| Lifecycle.MarkDeleted | database/model.py:248 | only the named model's flag is set |
| Lifecycle.SetStep | database/model.py:516-527 | only the named version's step and editor change; an unknown id changes no row |
| Lifecycle.Train | database/model.py:487-506 | step 2 writes the split, the epochs, step 2 and the editor to the named version only |
| Lifecycle.Promote | database/model.py:551-566 | the first update of step 4 makes the target `Using` at step 4 with the caller's number and editor, and changes no other version |
| Lifecycle.Demote | database/model.py:569-578 | only the status changes; every non-draft version of the model except the target becomes `Ready`, so none but the target stays `Using`; the target, drafts and other models' versions are untouched |
| Lifecycle.Finish | database/model.py:537-578 | the target becomes `Using` at step 4 with the caller's number and editor; every other non-draft version of the request's model becomes `Ready`, so none of them is `Using`; drafts and other models' versions are untouched |
| Lifecycle.FinishLeavesOnlyUsing | database/model.py:551-578 | when the request names the target's model, the target is its only `Using` version afterwards |
| Lifecycle.FinishKeepsAtMostOneUsing | database/model.py:551-578 | step 4 keeps "at most one `Using` version per model" when the request names the target's model |
| Lifecycle.FinishWithForeignModelIdKeepsOldUsing | database/model.py:569-578 | the demotion is keyed on the request's model id, so a request naming another model leaves two `Using` versions |
| Lifecycle.DeleteResultAsWritten | database/model.py:244-246 | as written, an unknown model is answered with 500, a known one with its id |
| Lifecycle.DeleteResult | database/model.py:244-250 | as intended, an unknown model is answered with 404, a known one with its id |
| Lifecycle.DeleteUnknownModelMisreported | database/model.py:245-246 | for an unknown model the code as written gives 500 where 404 is meant |
| Store.NoDuplicatesAppend | database/model.py:366-373 | adding a row not yet in a table without duplicates keeps it without duplicates |
| Store.FunctionIdsOf | database/model.py:361-364 | the fetched `functionid`s are exactly the version's function set |
| Store.InsertLinks | database/model.py:369-373 | the insert loop adds one row per distinct requested id outside the skipped ones, and duplicates no row |
| Store.DeleteLinks | database/model.py:375-379 | the delete loop removes exactly the version's rows whose ids are selected for deletion and keeps the table free of duplicates |
| Store.DetectionModelStore.constructor | database/model.py:127 | the store starts with empty tables and satisfies its invariant |
| Store.DetectionModelStore.AddModel | database/model.py:130-196 | unknown creator: 400, nothing written; given product unknown: 400, nothing written; otherwise the model, version 1 and its binding with the given product (not applied) are appended and their ids returned |
| Store.DetectionModelStore.DeleteModel | database/model.py:244-250 | unknown model: 404 and no change; otherwise the model is marked deleted and nothing else changes |
| Store.DetectionModelStore.UpdateStep1 | database/model.py:347-450 | unknown version: 404, no change. Draft: its functions are reconciled with the request, it moves to step 1, and its id and number are returned. Otherwise a fork: the next number, the requested functions, the source's product; the source's row, functions and binding are left as they were, and the new id is returned. No source binding: 500, no change |
| Store.DetectionModelStore.UpdateStep2 | database/model.py:453-509 | the bindings, the request's model and the version change exactly as `Configure`, `Rename` and `Train` say, and nothing else changes |
| Store.DetectionModelStore.UpdateStep3 | database/model.py:512-530 | only the version's step (3) and editor change |
| Store.DetectionModelStore.UpdateStep4 | database/model.py:533-581 | bindings as `Apply`, versions as `Finish` (the target `Using`, its non-draft siblings `Ready`); "at most one `Using` per model" is kept and the target is the only `Using` version when the request names its own model |
| Store.DetectionModelStore.UploadImage | database/model.py:585-633 | once the file is on disk, one image row is appended with the namespaced path and the normalised annotation, and the new id and `dataset/` path are returned; a failed write answers with nothing and writes nothing |
| Scenario.FinishFirstVersion | database/model.py:130-581 | creating a model and taking version 1 through the four steps makes it the `Using` version numbered 1, at step 4, with functions {10, 11} and an applied binding to product P1 |
| Scenario.CreateFinishForkFinish | database/model.py:130-581 | creating, finishing, reopening and finishing again leaves version 1 `Ready` with its functions {10, 11}, and version 2 the `Using` version numbered 2, with functions {10} and version 1's product, applied |

## Left out

- The summary query at the end of `add_model` (the joined row with the aggregated function names) is left out. The model returns the new model and version ids instead. Its "Model not found" branch cannot be reached right after the inserts and commit.
- Timestamps (`createddate`, `updateddate`, `applieddate`) are left out. They come from the clock and no behaviour depends on them.
- Disk I/O in the uploads is left out: the folder creation, the file write, the base64 decoding and the absolute `file` path. The write's outcome is the parameter `stored`.
- `Store.DetectionModelStore.UploadImage` models `upload_image_file` and `upload_base64_image` together. The two differ only in where the bytes come from.
- `Store.DetectionModelStore.UploadImage` does not model `json.dumps`. The stored annotation is kept as a value.
- Transactions are left out. The service methods run with no concurrency, so each method's statements take effect together. A database failure in the middle of a method, with its rollback, is not modelled.
- `Permission.GetPermission`: the exception handler at database/permission.py:51-53 is not modelled. It catches every exception, not only database failures, and returns `{"permissions": []}`. So one row on which `int()` fails, or any database failure, empties the result for the whole role. The model computes the list for every input and never fails.
- `Permission.ParseActions`: `str.isdigit` is modelled on ASCII digits only, which differs from Python in two cases. (1) A non-ASCII decimal digit such as '٣' or '３': Python's `isdigit()` holds and `int()` reads 3, so the source keeps that action. The model drops the piece in the comma branch and answers [1] in the no-comma branch. (2) A character such as '²', which `isdigit()` accepts but `int()` rejects: the source raises, and the handler returns an empty permission list for the whole role. The model again drops the piece or answers [1].
- Percentages and epochs are modelled as integers. The payload schema that fixes their types is not part of this model, and no logic computes with them.
- `upload_image_file` takes `modelid` and `updatedby` but does not use them, so the model omits them.
- Foreign keys and other database constraints are not modelled, because the schema is not part of this model. A fork naming an unknown model, or an upload naming an unknown version, is written as the code writes it.
- `set` iteration order: the insert and delete loops visit the requested ids in request order and the existing ids in table order. Python visits them in set order. The resulting rows are the same as sets, but not in the same table order.
- `Store.DetectionModelStore.DeleteModel`: for an unknown model id the store answers the intended 404 (`Lifecycle.DeleteResult`). The code as written answers 500 (`Lifecycle.DeleteResultAsWritten`, see "## Findings").
- `Store.DetectionModelStore.UpdateStep4`: "at most one `Using`" is promised only when the request's model id is the version's own model. The source does not check this (see `Lifecycle.FinishWithForeignModelIdKeepsOldUsing`).

## Findings

| source | as written | input that shows it | evidently intended | confidence | as-written member | corrected member |
|---|---|---|---|---|---|---|
| database/model.py:245-246 | `raise error_response(404, "Model not found")` raises a response object, which is not an exception; Python fails with a TypeError and the route answers 500 | `delete_model` with a model id that does not exist | answer 404 "Model not found" | high (not executed) | Lifecycle.DeleteResultAsWritten | Lifecycle.DeleteResult |
