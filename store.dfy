/**
 * `DetectionModelService`: the wizard's service methods as a store whose
 * fields are the tables they read and write. Each method runs the statements
 * of its Python counterpart in order and states the new tables in terms of
 * the functions of module Lifecycle; the `modelfunction` loops are the
 * methods `InsertLinks` and `DeleteLinks`.
 */
module Store {
  import opened Common
  import opened Lifecycle
  import Images

  /** Adding a row that is not in a table without duplicates keeps it without duplicates. */
  lemma NoDuplicatesAppend<T>(table: seq<T>, x: T)
    requires NoDuplicates(table) && x !in table
    ensures NoDuplicates(table + [x])
  {
  }

  /** The function ids of one version's `modelfunction` rows, in table order. */
  function FunctionIdsOf(links: seq<FunctionLink>, versionId: int): (r: seq<int>)
    ensures Rows(r) == FunctionsOf(Rows(links), versionId)
  {
    if |links| == 0 then []
    else
      var rest := FunctionIdsOf(links[1..], versionId);
      var head := if links[0].versionId == versionId then [links[0].functionId] else [];
      assert Rows(links) == {links[0]} + Rows(links[1..]) by {
        assert links == [links[0]] + links[1..];
      }
      assert Rows(head + rest) == Rows(head) + Rows(rest);
      head + rest
  }

  /**
   * The insert loop of step 1 (`for functionid in to_insert`) and of the fork
   * (`for functionid in new_functions`): one row for each distinct requested
   * id outside `skip`. Rows already present are not duplicated when they hold
   * ids in `skip`.
   */
  method InsertLinks(links: seq<FunctionLink>, versionId: int, functionIds: seq<int>, skip: set<int>)
    returns (r: seq<FunctionLink>)
    ensures Rows(r) == Rows(links) + LinksFor(versionId, Rows(functionIds) - skip)
    ensures NoDuplicates(links) && (forall l :: l in links && l.versionId == versionId ==> l.functionId in skip)
            ==> NoDuplicates(r)
  {
    ghost var clean := NoDuplicates(links) && (forall l :: l in links && l.versionId == versionId ==> l.functionId in skip);
    r := links;
    for i := 0 to |functionIds|
      invariant Rows(r) == Rows(links) + LinksFor(versionId, Rows(functionIds[..i]) - skip)
      invariant clean ==> NoDuplicates(r)
    {
      var f := functionIds[i];
      assert functionIds[..i + 1] == functionIds[..i] + [f];
      assert Rows(functionIds[..i + 1]) == Rows(functionIds[..i]) + {f};
      if f !in skip && f !in functionIds[..i] {
        if clean {
          assert FunctionLink(versionId, f) !in Rows(r);
          NoDuplicatesAppend(r, FunctionLink(versionId, f));
        }
        r := r + [FunctionLink(versionId, f)];
        assert Rows(r) == Rows(r[..|r| - 1]) + {FunctionLink(versionId, f)} by {
          assert r == r[..|r| - 1] + [FunctionLink(versionId, f)];
        }
      }
    }
    assert functionIds[..|functionIds|] == functionIds;
  }

  /**
   * The delete loop of step 1 (`for functionid in to_delete`): for each
   * distinct id of `functionIds` in `drop`, the version's rows with it go.
   */
  method DeleteLinks(links: seq<FunctionLink>, versionId: int, functionIds: seq<int>, drop: set<int>)
    returns (r: seq<FunctionLink>)
    ensures Rows(r) == Rows(links) - LinksFor(versionId, Rows(functionIds) * drop)
    ensures NoDuplicates(links) ==> NoDuplicates(r)
  {
    r := links;
    for i := 0 to |functionIds|
      invariant Rows(r) == Rows(links) - LinksFor(versionId, Rows(functionIds[..i]) * drop)
      invariant NoDuplicates(links) ==> NoDuplicates(r)
    {
      var f := functionIds[i];
      assert functionIds[..i + 1] == functionIds[..i] + [f];
      assert Rows(functionIds[..i + 1]) == Rows(functionIds[..i]) + {f};
      if f in drop && f !in functionIds[..i] {
        r := DeleteLink(r, FunctionLink(versionId, f));
      }
    }
    assert functionIds[..|functionIds|] == functionIds;
  }

  /** The fields of `DetectionModelUpdateStep2`. */
  datatype Step2 = Step2(
    modelId: int,
    name: string,
    description: string,
    cameraId: Option<string>,
    prodId: Option<string>,
    training: Training,
    updatedBy: int)

  /** The tables the detection-model service works on, with the users and products it checks against. */
  class DetectionModelStore {
    const users: set<int>
    const products: set<string>
    var models: seq<ModelRow>
    var versions: seq<VersionRow>
    var links: seq<FunctionLink>
    var bindings: seq<Binding>
    var images: seq<ImageRow>

    /** Function rows and bindings belong to existing versions, and no function row is stored twice. */
    predicate Valid()
      reads this
    {
      && (forall l :: l in links ==> 0 <= l.versionId < |versions|)
      && (forall b :: b in bindings ==> 0 <= b.versionId < |versions|)
      && NoDuplicates(links)
    }

    /** An empty database. */
    constructor(users: set<int>, products: set<string>)
      ensures Valid()
      ensures this.users == users && this.products == products
      ensures models == [] && versions == [] && links == [] && bindings == [] && images == []
    {
      this.users := users;
      this.products := products;
      models := [];
      versions := [];
      links := [];
      bindings := [];
      images := [];
    }

    /**
     * `add_model`: an unknown creator or an unknown product is refused with
     * nothing written; otherwise the model, its version 1 and that version's
     * binding are inserted, and their ids returned.
     */
    method AddModel(name: string, description: string, createdBy: int, prodId: Option<string>)
      returns (r: Result<(int, int)>)
      modifies this
      requires Valid()
      ensures Valid()
      ensures links == old(links) && images == old(images)
      ensures createdBy !in users ==> r == Err(InvalidUser)
      ensures createdBy in users && prodId.Some? && prodId.value !in products ==> r == Err(InvalidProduct)
      ensures r.Err? ==> models == old(models) && versions == old(versions) && bindings == old(bindings)
      ensures r.Ok? <==> createdBy in users && (prodId.None? || prodId.value in products)
      ensures r.Ok? ==>
                && r.value == (|old(models)|, |old(versions)|)
                && models == old(models) + [ModelRow(name, description, createdBy, None, false)]
                && versions == old(versions) + [FirstVersion(|old(models)|, createdBy)]
                && bindings == old(bindings) + [Binding(|old(versions)|, None, prodId, false, None)]
      ensures r.Ok? && OwnedBy(old(versions), |old(models)|) ==>
                OwnedBy(versions, |models|) && VersionsOf(versions, r.value.0) == {r.value.1}
    {
      if createdBy !in users {
        return Err(InvalidUser);
      }
      if prodId.Some? && prodId.value !in products {
        return Err(InvalidProduct);
      }
      var modelId := |models|;
      models := models + [ModelRow(name, description, createdBy, None, false)];
      var versionId := |versions|;
      if OwnedBy(versions, modelId) {
        NewModelHasOneVersion(modelId, versions, createdBy);
      }
      versions := versions + [FirstVersion(modelId, createdBy)];
      bindings := bindings + [Binding(versionId, None, prodId, false, None)];
      r := Ok((modelId, versionId));
    }

    /** `delete_model`, answering 404 for an unknown model (see `DeleteResultAsWritten`); a known model is marked deleted. */
    method DeleteModel(modelId: int) returns (r: Result<int>)
      modifies this
      requires Valid()
      ensures Valid()
      ensures r == DeleteResult(0 <= modelId < |old(models)|, modelId)
      ensures models == MarkDeleted(old(models), modelId)
      ensures versions == old(versions) && links == old(links) && bindings == old(bindings) && images == old(images)
    {
      var known := 0 <= modelId < |models|;
      if !known {
        return DeleteResult(false, modelId);
      }
      models := MarkDeleted(models, modelId);
      r := DeleteResult(true, modelId);
    }

    /**
     * `update_model_step1`. An unknown version is refused. A `Processing`
     * version is edited in place: its function rows are reconciled with the
     * request and it moves to step 1. Any other version is forked: a new
     * `Processing` version of the request's model with the next number, the
     * requested functions, and a binding carrying the source binding's
     * product. Without a source binding the fork fails with nothing written.
     */
    method UpdateStep1(versionId: int, modelId: int, functions: Option<seq<int>>, updatedBy: int)
      returns (r: Result<(int, Option<int>)>)
      modifies this
      requires Valid()
      ensures Valid()
      ensures models == old(models) && images == old(images)
      ensures !(0 <= versionId < |old(versions)|) ==>
                r == Err(NotFound) && versions == old(versions) && links == old(links) && bindings == old(bindings)
      ensures 0 <= versionId < |old(versions)| && old(versions)[versionId].status == Processing ==>
                && r == Ok((versionId, old(versions)[versionId].versionNo))
                && versions == SetStep(old(versions), versionId, 1, updatedBy)
                && Rows(links) == Reconcile(Rows(old(links)), versionId, Rows(functions.GetOr([])))
                && bindings == old(bindings)
      ensures 0 <= versionId < |old(versions)| && old(versions)[versionId].status != Processing
              && FirstBinding(old(bindings), versionId).None? ==>
                r == Err(ServerError) && versions == old(versions) && links == old(links) && bindings == old(bindings)
      ensures 0 <= versionId < |old(versions)| && old(versions)[versionId].status != Processing
              && FirstBinding(old(bindings), versionId).Some? ==>
                && r == Ok((|old(versions)|, Some(NextVersionNo(old(versions), modelId))))
                && versions == old(versions) + [ForkedVersion(old(versions), modelId, updatedBy)]
                && Rows(links) == Rows(old(links)) + LinksFor(|old(versions)|, Rows(functions.GetOr([])))
                && FunctionsOf(Rows(links), |old(versions)|) == Rows(functions.GetOr([]))
                && (forall v :: v != |old(versions)| ==> FunctionsOf(Rows(links), v) == FunctionsOf(Rows(old(links)), v))
                && bindings == old(bindings) + [ForkedBinding(FirstBinding(old(bindings), versionId).value, |old(versions)|)]
    {
      if !(0 <= versionId < |versions|) {
        return Err(NotFound);
      }
      var requested := functions.GetOr([]);
      if versions[versionId].status == Processing {
        var versionNo := versions[versionId].versionNo;
        var existing := FunctionIdsOf(links, versionId);
        var desired := Rows(requested);
        var toDelete := Rows(existing) - desired;
        ghost var before := Rows(links);
        var inserted := InsertLinks(links, versionId, requested, Rows(existing));
        links := DeleteLinks(inserted, versionId, existing, toDelete);
        assert Rows(existing) * toDelete == toDelete;
        assert Rows(links) == Reconcile(before, versionId, desired);
        versions := SetStep(versions, versionId, 1, updatedBy);
        r := Ok((versionId, versionNo));
      } else {
        var source := FirstBinding(bindings, versionId);
        if source.None? {
          return Err(ServerError);
        }
        var versionNo := NextVersionNo(versions, modelId);
        var newId := |versions|;
        versions := versions + [ForkedVersion(versions, modelId, updatedBy)];
        ghost var before := Rows(links);
        links := InsertLinks(links, versionId := newId, functionIds := requested, skip := {});
        assert Rows(requested) - {} == Rows(requested);
        AttachToFreshVersion(before, newId, Rows(requested));
        bindings := bindings + [ForkedBinding(source.value, newId)];
        r := Ok((newId, Some(versionNo)));
      }
    }

    /**
     * `update_model_step2`: the version's bindings get the camera and product
     * and are no longer applied, the request's model gets its name,
     * description and editor, and the version its training settings at step
     * 2. Each update touches no row when its id is unknown.
     */
    method UpdateStep2(versionId: int, request: Step2) returns (id: int)
      modifies this
      requires Valid()
      ensures Valid()
      ensures id == versionId
      ensures bindings == Configure(old(bindings), versionId, request.cameraId, request.prodId)
      ensures models == Rename(old(models), request.modelId, request.name, request.description, request.updatedBy)
      ensures versions == Train(old(versions), versionId, request.training, request.updatedBy)
      ensures links == old(links) && images == old(images)
    {
      bindings := Configure(bindings, versionId, request.cameraId, request.prodId);
      models := Rename(models, request.modelId, request.name, request.description, request.updatedBy);
      versions := Train(versions, versionId, request.training, request.updatedBy);
      assert forall k :: 0 <= k < |bindings| ==> bindings[k].versionId == old(bindings)[k].versionId;
      assert forall b :: b in bindings ==> 0 <= b.versionId < |versions| by {
        forall b | b in bindings ensures 0 <= b.versionId < |versions| {
          var k :| 0 <= k < |bindings| && bindings[k] == b;
          assert old(bindings)[k] in old(bindings);
        }
      }
      id := versionId;
    }

    /** `update_model_step3`: the version moves to step 3 (no row for an unknown id). */
    method UpdateStep3(versionId: int, updatedBy: int) returns (id: int)
      modifies this
      requires Valid()
      ensures Valid()
      ensures id == versionId
      ensures versions == SetStep(old(versions), versionId, 3, updatedBy)
      ensures models == old(models) && links == old(links) && bindings == old(bindings) && images == old(images)
    {
      versions := SetStep(versions, versionId, 3, updatedBy);
      id := versionId;
    }

    /**
     * `update_model_step4`: the version's bindings become applied, the
     * version becomes `Using` at step 4 with the caller's number, and the
     * other non-draft versions of the request's model become `Ready`. When the
     * request names the version's own model, "at most one `Using` version per
     * model" is kept and this version is the one.
     */
    method UpdateStep4(versionId: int, modelId: int, versionNo: Option<int>, updatedBy: int) returns (id: int)
      modifies this
      requires Valid()
      ensures Valid()
      ensures id == versionId
      ensures bindings == Apply(old(bindings), versionId, updatedBy)
      ensures versions == Finish(old(versions), versionId, modelId, versionNo, updatedBy)
      ensures models == old(models) && links == old(links) && images == old(images)
      ensures AtMostOneUsing(old(versions)) && (0 <= versionId < |old(versions)| ==> old(versions)[versionId].modelId == modelId)
              ==> AtMostOneUsing(versions)
      ensures 0 <= versionId < |old(versions)| && old(versions)[versionId].modelId == modelId ==> IsOnlyUsing(versions, versionId)
    {
      bindings := Apply(bindings, versionId, updatedBy);
      if AtMostOneUsing(versions) && (0 <= versionId < |versions| ==> versions[versionId].modelId == modelId) {
        FinishKeepsAtMostOneUsing(versions, versionId, modelId, versionNo, updatedBy);
      }
      if 0 <= versionId < |versions| && versions[versionId].modelId == modelId {
        FinishLeavesOnlyUsing(versions, versionId, modelId, versionNo, updatedBy);
      }
      versions := Finish(versions, versionId, modelId, versionNo, updatedBy);
      assert forall b :: b in bindings ==> 0 <= b.versionId < |versions| by {
        forall b | b in bindings ensures 0 <= b.versionId < |versions| {
          var k :| 0 <= k < |bindings| && bindings[k] == b;
          assert old(bindings)[k] in old(bindings);
        }
      }
      id := versionId;
    }

    /**
     * `upload_image_file` / `upload_base64_image`: when the file reached the
     * disk (`stored`), one image row is inserted with the namespaced path and
     * the normalised annotation, and the new id and the public path are
     * returned; otherwise the upload answers with nothing and writes nothing.
     */
    method UploadImage(versionId: int, prodId: string, cameraId: string, fileName: string,
                       annotate: Images.Annotation, stored: bool)
      returns (r: Option<(int, string)>)
      modifies this
      requires Valid()
      ensures Valid()
      ensures models == old(models) && versions == old(versions) && links == old(links) && bindings == old(bindings)
      ensures !stored ==> r.None? && images == old(images)
      ensures stored ==>
                && r == Some((|old(images)|, Images.PublicPath(Images.ImagePath(prodId, cameraId, versionId, fileName))))
                && images == old(images) + [ImageRow(versionId, fileName, Images.ImagePath(prodId, cameraId, versionId, fileName),
                                                     Images.NormaliseAnnotation(annotate))]
    {
      if !stored {
        return None;
      }
      var path := Images.ImagePath(prodId, cameraId, versionId, fileName);
      var imageId := |images|;
      images := images + [ImageRow(versionId, fileName, path, Images.NormaliseAnnotation(annotate))];
      r := Some((imageId, Images.PublicPath(path)));
    }
  }
}
