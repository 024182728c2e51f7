/**
 * The detection-model version lifecycle, on values: the rows of the `model`,
 * `modelversion`, `modelfunction`, `cameramodelprodapplied` and `image`
 * tables, and the pure functions that say what each SQL statement of the
 * wizard does to them. A table is the sequence of its rows in insertion
 * order; the id of a `model`, `modelversion` or `image` row is its position
 * (the tables' serial ids are never reused and those rows are never
 * deleted by the operations modelled here). The store in module Store runs these statements and is
 * proved to end in the states described here; the lemmas below are the
 * promises of the lifecycle (version numbers above all earlier ones, one
 * `Using` version per model after finish, a function set that ends equal to
 * the request).
 */
module Lifecycle {
  import opened Common
  import Images

  /** `modelstatus`. */
  datatype Status = Processing | Ready | Using

  /** A row of `model`. */
  datatype ModelRow = ModelRow(
    name: string,
    description: string,
    createdBy: int,
    updatedBy: Option<int>,
    isDeleted: bool)

  /** A row of `modelversion` (timestamps left out). */
  datatype VersionRow = VersionRow(
    modelId: int,
    versionNo: Option<int>,
    status: Status,
    currentStep: int,
    trainPercent: Option<int>,
    testPercent: Option<int>,
    valPercent: Option<int>,
    epochs: Option<int>,
    createdBy: int,
    updatedBy: Option<int>)

  /** A row of `cameramodelprodapplied`: where a version is deployed (timestamps left out). */
  datatype Binding = Binding(
    versionId: int,
    cameraId: Option<string>,
    prodId: Option<string>,
    applied: bool,
    appliedBy: Option<int>)

  /** A row of `modelfunction`: one detection function selected for one version. */
  datatype FunctionLink = FunctionLink(versionId: int, functionId: int)

  /** A row of `image`. */
  datatype ImageRow = ImageRow(versionId: int, name: string, path: string, annotate: Images.Annotation)

  /** Why an operation answered with an error instead of its result. */
  datatype Failure =
    | InvalidUser     // `createdby` is not a user
    | InvalidProduct  // `prodid` is given and is not a product
    | NotFound        // unknown model version or model
    | ServerError     // an exception, which the HTTP route turns into a 500

  datatype Result<T> = Ok(value: T) | Err(failure: Failure)

  /** The HTTP status each failure is answered with. */
  function StatusCode(f: Failure): (code: nat)
    ensures f.InvalidUser? || f.InvalidProduct? ==> code == 400
    ensures f.NotFound? <==> code == 404
    ensures f.ServerError? <==> code == 500
  {
    match f
    case InvalidUser => 400
    case InvalidProduct => 400
    case NotFound => 404
    case ServerError => 500
  }

  // ---------------------------------------------------------------- numbering

  /** The non-null `versionno`s of a model's versions. */
  function VersionNumbers(versions: seq<VersionRow>, modelId: int): set<int>
  {
    set i | 0 <= i < |versions| && versions[i].modelId == modelId && versions[i].versionNo.Some?
      :: versions[i].versionNo.value
  }

  /** Appending a row adds its number, when it is a numbered version of the model, and nothing else. */
  lemma VersionNumbersAppend(versions: seq<VersionRow>, v: VersionRow, modelId: int)
    ensures VersionNumbers(versions + [v], modelId)
         == VersionNumbers(versions, modelId) + (if v.modelId == modelId && v.versionNo.Some? then {v.versionNo.value} else {})
  {
    var after := versions + [v];
    forall x ensures x in VersionNumbers(after, modelId) ==> x in VersionNumbers(versions, modelId) || (v.modelId == modelId && v.versionNo == Some(x)) {
      if x in VersionNumbers(after, modelId) {
        var i :| 0 <= i < |after| && after[i].modelId == modelId && after[i].versionNo == Some(x);
        if i < |versions| {
          assert versions[i] == after[i];
        }
      }
    }
    forall x | x in VersionNumbers(versions, modelId) ensures x in VersionNumbers(after, modelId) {
      var i :| 0 <= i < |versions| && versions[i].modelId == modelId && versions[i].versionNo == Some(x);
      assert after[i] == versions[i];
    }
    if v.modelId == modelId && v.versionNo.Some? {
      assert after[|versions|] == v;
    }
  }

  /**
   * `SELECT MAX(versionno) FROM modelversion WHERE modelid = ...`: NULL when
   * the model has no numbered version, otherwise the largest of its numbers.
   */
  function MaxVersionNo(versions: seq<VersionRow>, modelId: int): (m: Option<int>)
    ensures m.None? ==> VersionNumbers(versions, modelId) == {}
    ensures m.Some? ==> m.value in VersionNumbers(versions, modelId)
    ensures forall x :: x in VersionNumbers(versions, modelId) ==> m.Some? && x <= m.value
    decreases |versions|
  {
    if |versions| == 0 then
      assert forall x :: x !in VersionNumbers(versions, modelId);
      None
    else
      var prefix := versions[..|versions| - 1];
      var last := versions[|versions| - 1];
      assert prefix + [last] == versions;
      VersionNumbersAppend(prefix, last, modelId);
      var rest := MaxVersionNo(prefix, modelId);
      if last.modelId != modelId || last.versionNo.None? then rest
      else if rest.Some? && rest.value >= last.versionNo.value then rest
      else last.versionNo
  }

  /**
   * `n` is the version number that follows the numbers `s`: above all of
   * them, one more than the largest, and 1 when there are none.
   */
  predicate IsNextAfter(n: int, s: set<int>)
  {
    && (forall x :: x in s ==> x < n)
    && (s == {} ==> n == 1)
    && (s != {} ==> n - 1 in s)
  }

  /** There is only one number that follows a given set of numbers. */
  lemma NextAfterUnique(a: int, b: int, s: set<int>)
    requires IsNextAfter(a, s) && IsNextAfter(b, s)
    ensures a == b
  {
  }

  /** The number a fork assigns, `(MAX(versionno) or 0) + 1`. */
  function NextVersionNo(versions: seq<VersionRow>, modelId: int): (n: int)
    ensures IsNextAfter(n, VersionNumbers(versions, modelId))
  {
    MaxVersionNo(versions, modelId).GetOr(0) + 1
  }

  /** The ids of a model's versions. */
  function VersionsOf(versions: seq<VersionRow>, modelId: int): set<int>
  {
    set i | 0 <= i < |versions| && versions[i].modelId == modelId
  }

  /** The non-null values of a query column, in row order. */
  function NonNull(rows: seq<Option<int>>): (r: seq<int>)
    ensures |r| <= |rows|
    ensures forall x :: x in r <==> Some(x) in rows
  {
    if |rows| == 0 then []
    else
      assert forall x :: Some(x) in rows <==> rows[0] == Some(x) || Some(x) in rows[1..];
      (if rows[0].Some? then [rows[0].value] else []) + NonNull(rows[1..])
  }

  /** Filtering keeps multiplicity: each number occurs as often as the rows hold it, duplicates included. */
  lemma {:induction false} NonNullKeepsMultiplicity(rows: seq<Option<int>>)
    ensures forall x :: multiset(NonNull(rows))[x] == multiset(rows)[Some(x)]
    decreases |rows|
  {
    if |rows| > 0 {
      NonNullKeepsMultiplicity(rows[1..]);
      var head := if rows[0].Some? then [rows[0].value] else [];
      assert NonNull(rows) == head + NonNull(rows[1..]);
      assert rows == [rows[0]] + rows[1..];
      assert multiset(rows) == multiset([rows[0]]) + multiset(rows[1..]);
      assert multiset(NonNull(rows)) == multiset(head) + multiset(NonNull(rows[1..]));
    }
  }

  /** Filtering keeps query order: the non-null values of two runs of rows are those of each run, concatenated. */
  lemma {:induction false} NonNullAppend(a: seq<Option<int>>, b: seq<Option<int>>)
    ensures NonNull(a + b) == NonNull(a) + NonNull(b)
    decreases |a|
  {
    if |a| == 0 {
      assert a + b == b;
    } else {
      var ab := a + b;
      assert ab[0] == a[0] && ab[1..] == a[1..] + b;
      NonNullAppend(a[1..], b);
    }
  }

  /** Python's `max` on a non-empty list. */
  function SeqMax(xs: seq<int>): (m: int)
    requires |xs| > 0
    ensures m in xs && forall k :: 0 <= k < |xs| ==> xs[k] <= m
  {
    if |xs| == 1 then xs[0]
    else
      var rest := SeqMax(xs[1..]);
      assert forall k :: 1 <= k < |xs| ==> xs[k] == xs[1..][k - 1];
      if xs[0] > rest then xs[0] else rest
  }

  /** The set of non-null numbers among the rows of a query. */
  function NumbersIn(rows: seq<Option<int>>): set<int>
  {
    set k | 0 <= k < |rows| && rows[k].Some? :: rows[k].value
  }

  /**
   * `get_versions`: the existing non-null version numbers in query order, with
   * the number that follows them put in front.
   */
  function GetVersions(rows: seq<Option<int>>): (r: seq<int>)
    ensures |r| >= 1
    ensures r[1..] == NonNull(rows)
    ensures IsNextAfter(r[0], NumbersIn(rows))
  {
    var list := NonNull(rows);
    var next := (if |list| > 0 then SeqMax(list) else 0) + 1;
    var numbers := NumbersIn(rows);
    assert forall x :: x in numbers <==> x in list by {
      forall x ensures x in numbers <==> x in list {
        if x in numbers {
          var k :| 0 <= k < |rows| && rows[k].Some? && rows[k].value == x;
          assert Some(x) in rows;
        }
        if x in list {
          assert Some(x) in rows;
          var k :| 0 <= k < |rows| && rows[k] == Some(x);
        }
      }
    }
    [next] + list
  }

  lemma NumbersInAppend(a: seq<Option<int>>, b: seq<Option<int>>)
    ensures NumbersIn(a + b) == NumbersIn(a) + NumbersIn(b)
  {
    var ab := a + b;
    forall x | x in NumbersIn(ab) ensures x in NumbersIn(a) + NumbersIn(b) {
      var k :| 0 <= k < |ab| && ab[k].Some? && ab[k].value == x;
      if k < |a| { assert a[k] == ab[k]; } else { assert b[k - |a|] == ab[k]; }
    }
    forall x | x in NumbersIn(a) ensures x in NumbersIn(ab) {
      var k :| 0 <= k < |a| && a[k].Some? && a[k].value == x;
      assert ab[k] == a[k];
    }
    forall x | x in NumbersIn(b) ensures x in NumbersIn(ab) {
      var k :| 0 <= k < |b| && b[k].Some? && b[k].value == x;
      assert ab[|a| + k] == b[k];
    }
  }

  /** The `versionno` column of a model's versions, in table order. */
  function VersionNoColumn(versions: seq<VersionRow>, modelId: int): (c: seq<Option<int>>)
    ensures NumbersIn(c) == VersionNumbers(versions, modelId)
    decreases |versions|
  {
    if |versions| == 0 then
      assert forall x :: x !in VersionNumbers(versions, modelId);
      []
    else
      var prefix := versions[..|versions| - 1];
      var last := versions[|versions| - 1];
      assert prefix + [last] == versions;
      VersionNumbersAppend(prefix, last, modelId);
      var head := VersionNoColumn(prefix, modelId);
      var tail := if last.modelId == modelId then [last.versionNo] else [];
      NumbersInAppend(head, tail);
      assert NumbersIn(tail) == if last.modelId == modelId && last.versionNo.Some? then {last.versionNo.value} else {} by {
        if |tail| == 1 { assert tail[0] == last.versionNo; }
      }
      head + tail
  }

  /** The non-null values among rows sorted descending (as `ORDER BY versionno DESC` returns them). */
  predicate SortedDescending(rows: seq<Option<int>>)
  {
    forall i, j :: 0 <= i < j < |rows| && rows[i].Some? && rows[j].Some? ==> rows[i].value >= rows[j].value
  }

  predicate NonIncreasing(xs: seq<int>)
  {
    forall i, j :: 0 <= i < j < |xs| ==> xs[i] >= xs[j]
  }

  /** The rows `get_versions` reads for a model: its `versionno` column, in descending order. */
  predicate IsVersionQuery(rows: seq<Option<int>>, versions: seq<VersionRow>, modelId: int)
  {
    multiset(rows) == multiset(VersionNoColumn(versions, modelId)) && SortedDescending(rows)
  }

  lemma {:induction false} NonNullSorted(rows: seq<Option<int>>)
    requires SortedDescending(rows)
    ensures NonIncreasing(NonNull(rows))
    decreases |rows|
  {
    if |rows| > 0 {
      NonNullSorted(rows[1..]);
      var rest := NonNull(rows[1..]);
      if rows[0].Some? {
        var r := NonNull(rows);
        assert r == [rows[0].value] + rest;
        forall x | x in rest ensures rows[0].value >= x {
          assert Some(x) in rows[1..];
          var k :| 0 <= k < |rows[1..]| && rows[1..][k] == Some(x);
          assert rows[k + 1] == Some(x);
        }
        forall i, j | 0 <= i < j < |r| ensures r[i] >= r[j] {
          if i == 0 {
            assert r[j] == rest[j - 1];
            assert r[j] in rest;
          } else {
            assert r[i] == rest[i - 1] && r[j] == rest[j - 1];
          }
        }
      } else {
        assert NonNull(rows) == rest;
      }
    }
  }

  /** Two queries returning the same rows in any order hold the same numbers. */
  lemma SameRowsSameNumbers(rows: seq<Option<int>>, other: seq<Option<int>>)
    requires multiset(rows) == multiset(other)
    ensures NumbersIn(rows) == NumbersIn(other)
  {
    forall x | x in NumbersIn(rows) ensures x in NumbersIn(other) {
      var k :| 0 <= k < |rows| && rows[k] == Some(x);
      assert Some(x) in multiset(other);
      var j :| 0 <= j < |other| && other[j] == Some(x);
    }
    forall x | x in NumbersIn(other) ensures x in NumbersIn(rows) {
      var k :| 0 <= k < |other| && other[k] == Some(x);
      assert Some(x) in multiset(rows);
      var j :| 0 <= j < |rows| && rows[j] == Some(x);
    }
  }

  /**
   * `get_versions` over a model's rows: the list is sorted from highest to
   * lowest, its head is strictly above the rest, and the head is exactly the
   * number the next fork of that model assigns.
   */
  lemma GetVersionsOfModel(rows: seq<Option<int>>, versions: seq<VersionRow>, modelId: int)
    requires IsVersionQuery(rows, versions, modelId)
    ensures NonIncreasing(GetVersions(rows))
    ensures forall k :: 1 <= k < |GetVersions(rows)| ==> GetVersions(rows)[k] < GetVersions(rows)[0]
    ensures GetVersions(rows)[0] == NextVersionNo(versions, modelId)
  {
    var r := GetVersions(rows);
    NonNullSorted(rows);
    forall k | 1 <= k < |r| ensures r[k] < r[0] {
      assert r[k] in NonNull(rows);
      assert Some(r[k]) in rows;
      var i :| 0 <= i < |rows| && rows[i] == Some(r[k]);
      assert r[k] in NumbersIn(rows);
    }
    SameRowsSameNumbers(rows, VersionNoColumn(versions, modelId));
    NextAfterUnique(r[0], NextVersionNo(versions, modelId), VersionNumbers(versions, modelId));
  }

  // ------------------------------------------------------- function selection

  /** The rows of a table, as a set. */
  function Rows<T>(table: seq<T>): set<T>
  {
    set x | x in table
  }

  /** The function ids selected for one version. */
  function FunctionsOf(links: set<FunctionLink>, versionId: int): set<int>
  {
    set l | l in links && l.versionId == versionId :: l.functionId
  }

  /** The `modelfunction` rows tying the given function ids to one version. */
  function LinksFor(versionId: int, functionIds: set<int>): (r: set<FunctionLink>)
    ensures forall l :: l in r <==> l.versionId == versionId && l.functionId in functionIds
  {
    set f | f in functionIds :: FunctionLink(versionId, f)
  }

  /** `to_insert`: requested functions the version does not have yet. */
  function ToInsert(links: set<FunctionLink>, versionId: int, desired: set<int>): (r: set<int>)
    ensures r <= desired && r !! FunctionsOf(links, versionId)
    ensures desired <= FunctionsOf(links, versionId) + r
  {
    desired - FunctionsOf(links, versionId)
  }

  /** `to_delete`: functions the version has that are no longer requested. */
  function ToDelete(links: set<FunctionLink>, versionId: int, desired: set<int>): (r: set<int>)
    ensures r <= FunctionsOf(links, versionId) && r !! desired
    ensures FunctionsOf(links, versionId) <= desired + r
  {
    FunctionsOf(links, versionId) - desired
  }

  /**
   * The function rows after the in-place branch of step 1: the version's
   * function set becomes exactly the requested one, only the missing rows are
   * added, only the unwanted rows are removed, and no other version changes.
   */
  function Reconcile(links: set<FunctionLink>, versionId: int, desired: set<int>): (r: set<FunctionLink>)
    ensures FunctionsOf(r, versionId) == desired
    ensures forall l: FunctionLink :: l.versionId != versionId ==> (l in r <==> l in links)
    ensures r - links == LinksFor(versionId, ToInsert(links, versionId, desired))
    ensures links - r == LinksFor(versionId, ToDelete(links, versionId, desired))
  {
    var r := (links + LinksFor(versionId, ToInsert(links, versionId, desired)))
             - LinksFor(versionId, ToDelete(links, versionId, desired));
    assert FunctionsOf(r, versionId) == desired by {
      forall f ensures f in FunctionsOf(r, versionId) <==> f in desired {
        if f in desired {
          assert FunctionLink(versionId, f) in r;
        }
      }
    }
    r
  }

  /** Re-applying the set a version already has inserts and deletes nothing. */
  lemma ReconcileIdempotent(links: set<FunctionLink>, versionId: int, desired: set<int>)
    ensures ToInsert(Reconcile(links, versionId, desired), versionId, desired) == {}
    ensures ToDelete(Reconcile(links, versionId, desired), versionId, desired) == {}
    ensures Reconcile(Reconcile(links, versionId, desired), versionId, desired) == Reconcile(links, versionId, desired)
  {
  }

  /**
   * Attaching functions to a version that has none (the fork's loop) gives it
   * exactly the requested set and leaves every other version's set alone.
   */
  lemma AttachToFreshVersion(links: set<FunctionLink>, versionId: int, desired: set<int>)
    requires forall l :: l in links ==> l.versionId != versionId
    ensures FunctionsOf(links + LinksFor(versionId, desired), versionId) == desired
    ensures forall v :: v != versionId ==> FunctionsOf(links + LinksFor(versionId, desired), v) == FunctionsOf(links, v)
  {
    var r := links + LinksFor(versionId, desired);
    forall f ensures f in FunctionsOf(r, versionId) <==> f in desired {
      if f in desired {
        assert FunctionLink(versionId, f) in r;
      }
    }
    forall v | v != versionId ensures FunctionsOf(r, v) == FunctionsOf(links, v) {
      forall f ensures f in FunctionsOf(r, v) <==> f in FunctionsOf(links, v) {
        if f in FunctionsOf(r, v) {
          var l :| l in r && l.versionId == v && l.functionId == f;
        }
      }
    }
  }

  /** No row occurs twice in a table. */
  predicate NoDuplicates<T(==)>(table: seq<T>)
  {
    forall i, j :: 0 <= i < j < |table| ==> table[i] != table[j]
  }

  /**
   * `DELETE FROM modelfunction WHERE modelversionid = ... AND functionid = ...`:
   * exactly the matching rows go, the others stay in their order.
   */
  function DeleteLink(links: seq<FunctionLink>, link: FunctionLink): (r: seq<FunctionLink>)
    ensures Rows(r) == Rows(links) - {link}
    ensures NoDuplicates(links) ==> NoDuplicates(r)
    ensures |r| <= |links|
  {
    if |links| == 0 then []
    else
      var rest := DeleteLink(links[1..], link);
      assert Rows(links) == {links[0]} + Rows(links[1..]) by {
        assert links == [links[0]] + links[1..];
      }
      if links[0] == link then rest
      else
        var r := [links[0]] + rest;
        assert Rows(r) == {links[0]} + Rows(rest) by {
          forall x ensures x in r <==> x == links[0] || x in rest {
            if x in r && x != links[0] {
              var k :| 0 <= k < |r| && r[k] == x;
              assert rest[k - 1] == x;
            }
          }
        }
        assert NoDuplicates(links) ==> NoDuplicates(r) by {
          if NoDuplicates(links) {
            assert links[0] !in Rows(links[1..]) by {
              forall k | 0 <= k < |links[1..]| ensures links[1..][k] != links[0] {
                assert links[1..][k] == links[k + 1];
              }
            }
            forall i, j | 0 <= i < j < |r| ensures r[i] != r[j] {
              if i == 0 {
                assert r[j] == rest[j - 1];
                assert r[j] in Rows(rest);
              } else {
                assert r[i] == rest[i - 1] && r[j] == rest[j - 1];
                assert NoDuplicates(links[1..]) by {
                  forall a, b | 0 <= a < b < |links[1..]| ensures links[1..][a] != links[1..][b] {
                    assert links[1..][a] == links[a + 1] && links[1..][b] == links[b + 1];
                  }
                }
              }
            }
          }
        }
        r
  }

  // ------------------------------------------------------------ creation, fork

  /** Version 1 of a new model: `Processing` at step 0. */
  function FirstVersion(modelId: int, createdBy: int): (v: VersionRow)
    ensures v.modelId == modelId && v.versionNo == Some(1) && v.status == Processing && v.currentStep == 0
    ensures v.createdBy == createdBy && v.updatedBy.None?
  {
    VersionRow(modelId, Some(1), Processing, 0, None, None, None, None, createdBy, None)
  }

  /** Every version belongs to one of the first `modelCount` models. */
  predicate OwnedBy(versions: seq<VersionRow>, modelCount: int)
  {
    forall i :: 0 <= i < |versions| ==> 0 <= versions[i].modelId < modelCount
  }

  /**
   * A new model gets exactly one version, numbered 1, provided every existing
   * version belongs to an existing model.
   */
  lemma NewModelHasOneVersion(modelCount: nat, versions: seq<VersionRow>, createdBy: int)
    requires OwnedBy(versions, modelCount)
    ensures VersionsOf(versions + [FirstVersion(modelCount, createdBy)], modelCount) == {|versions|}
    ensures VersionNumbers(versions + [FirstVersion(modelCount, createdBy)], modelCount) == {1}
  {
  }

  /**
   * The row a fork inserts for the model the request names: the next free
   * version number, `Processing` at step 2, created by the editor.
   */
  function ForkedVersion(versions: seq<VersionRow>, modelId: int, updatedBy: int): (v: VersionRow)
    ensures v.modelId == modelId && v.status == Processing && v.currentStep == 2
    ensures v.versionNo.Some? && IsNextAfter(v.versionNo.value, VersionNumbers(versions, modelId))
    ensures v.createdBy == updatedBy
  {
    VersionRow(modelId, Some(NextVersionNo(versions, modelId)), Processing, 2, None, None, None, None, updatedBy, None)
  }

  /** The binding a fork inserts for the new version: the source's product only, not applied, no camera. */
  function ForkedBinding(source: Binding, versionId: int): (b: Binding)
    ensures b.versionId == versionId && b.prodId == source.prodId
    ensures !b.applied && b.cameraId.None? && b.appliedBy.None?
  {
    Binding(versionId, None, source.prodId, false, None)
  }

  /** No two versions of one model share a non-null version number. */
  predicate DistinctVersionNumbers(versions: seq<VersionRow>)
  {
    forall i, j ::
      (0 <= i < |versions| && 0 <= j < |versions| && i != j
       && versions[i].modelId == versions[j].modelId && versions[i].versionNo.Some?)
      ==> versions[i].versionNo != versions[j].versionNo
  }

  /** Forking keeps version numbers unique within each model. */
  lemma {:induction false} ForkKeepsVersionNumbersDistinct(versions: seq<VersionRow>, modelId: int, updatedBy: int)
    requires DistinctVersionNumbers(versions)
    ensures DistinctVersionNumbers(versions + [ForkedVersion(versions, modelId, updatedBy)])
  {
    var forked := ForkedVersion(versions, modelId, updatedBy);
    var after := versions + [forked];
    forall i, j | 0 <= i < |after| && 0 <= j < |after| && i != j
        && after[i].modelId == after[j].modelId && after[i].versionNo.Some?
      ensures after[i].versionNo != after[j].versionNo
    {
      if i == |versions| {
        assert after[j] == versions[j];
        if versions[j].versionNo.Some? {
          assert versions[j].versionNo.value in VersionNumbers(versions, modelId);
        }
      } else if j == |versions| {
        assert after[i] == versions[i];
        assert versions[i].versionNo.value in VersionNumbers(versions, modelId);
      } else {
        assert after[i] == versions[i] && after[j] == versions[j];
      }
    }
  }

  /** Step 4 writes the caller's number: two versions of one model can end up sharing it. */
  lemma FinishCanDuplicateVersionNumbers()
    ensures !DistinctVersionNumbers(Finish(
      [FirstVersion(7, 0), ForkedVersion([FirstVersion(7, 0)], 7, 0)], 1, 7, Some(1), 0))
  {
    var versions := [FirstVersion(7, 0), ForkedVersion([FirstVersion(7, 0)], 7, 0)];
    var after := Finish(versions, 1, 7, Some(1), 0);
    assert after[0].versionNo == Some(1) && after[1].versionNo == Some(1);
  }

  // ------------------------------------------------------------ bindings

  /**
   * `SELECT prodid FROM cameramodelprodapplied WHERE modelversionid = ...`
   * `.first()`: the first binding of the version, or none.
   */
  function FirstBinding(bindings: seq<Binding>, versionId: int): (r: Option<Binding>)
    ensures r.None? <==> forall k :: 0 <= k < |bindings| ==> bindings[k].versionId != versionId
    ensures r.Some? ==> exists k :: 0 <= k < |bindings| && bindings[k] == r.value
                          && r.value.versionId == versionId
                          && forall j :: 0 <= j < k ==> bindings[j].versionId != versionId
  {
    if |bindings| == 0 then None
    else if bindings[0].versionId == versionId then Some(bindings[0])
    else
      var rest := FirstBinding(bindings[1..], versionId);
      assert forall k :: 1 <= k < |bindings| ==> bindings[k] == bindings[1..][k - 1];
      if rest.Some? then
        ghost var k :| 0 <= k < |bindings[1..]| && bindings[1..][k] == rest.value
          && rest.value.versionId == versionId
          && forall j :: 0 <= j < k ==> bindings[1..][j].versionId != versionId;
        assert bindings[k + 1] == rest.value;
        rest
      else rest
  }

  /**
   * The first update of step 2: every binding of the version gets the
   * request's camera and product and goes back to not applied; all other
   * bindings stay as they were.
   */
  function Configure(bindings: seq<Binding>, versionId: int, cameraId: Option<string>, prodId: Option<string>)
    : (r: seq<Binding>)
    ensures |r| == |bindings|
    ensures forall k :: 0 <= k < |r| && bindings[k].versionId == versionId ==>
              r[k] == bindings[k].(cameraId := cameraId, prodId := prodId, applied := false)
    ensures forall k :: 0 <= k < |r| && bindings[k].versionId != versionId ==> r[k] == bindings[k]
  {
    seq(|bindings|, k requires 0 <= k < |bindings| =>
      if bindings[k].versionId == versionId
      then bindings[k].(cameraId := cameraId, prodId := prodId, applied := false)
      else bindings[k])
  }

  /** The first update of step 4: every binding of the version becomes applied by the editor. */
  function Apply(bindings: seq<Binding>, versionId: int, appliedBy: int): (r: seq<Binding>)
    ensures |r| == |bindings|
    ensures forall k :: 0 <= k < |r| && bindings[k].versionId == versionId ==>
              r[k] == bindings[k].(applied := true, appliedBy := Some(appliedBy))
    ensures forall k :: 0 <= k < |r| && bindings[k].versionId != versionId ==> r[k] == bindings[k]
  {
    seq(|bindings|, k requires 0 <= k < |bindings| =>
      if bindings[k].versionId == versionId
      then bindings[k].(applied := true, appliedBy := Some(appliedBy))
      else bindings[k])
  }

  /** After step 4 the version's binding is applied; configuring it again (step 2) clears that. */
  lemma ApplyThenConfigure(bindings: seq<Binding>, versionId: int, editor: int, cameraId: Option<string>, prodId: Option<string>)
    ensures FirstBinding(bindings, versionId).Some? ==> FirstBinding(Apply(bindings, versionId, editor), versionId).value.applied
    ensures FirstBinding(bindings, versionId).Some? ==> !FirstBinding(Configure(Apply(bindings, versionId, editor), versionId, cameraId, prodId), versionId).value.applied
  {
  }

  // ------------------------------------------------------------ model and version updates

  /** `UPDATE model SET modelname, modeldescription, updatedby WHERE modelid = ...`: no row changes for an unknown id. */
  function Rename(models: seq<ModelRow>, modelId: int, name: string, description: string, updatedBy: int)
    : (r: seq<ModelRow>)
    ensures |r| == |models|
    ensures 0 <= modelId < |models| ==>
              r[modelId] == models[modelId].(name := name, description := description, updatedBy := Some(updatedBy))
    ensures forall k :: 0 <= k < |models| && k != modelId ==> r[k] == models[k]
  {
    if 0 <= modelId < |models|
    then models[modelId := models[modelId].(name := name, description := description, updatedBy := Some(updatedBy))]
    else models
  }

  /** `UPDATE model SET isdeleted = true WHERE modelid = ...`. */
  function MarkDeleted(models: seq<ModelRow>, modelId: int): (r: seq<ModelRow>)
    ensures |r| == |models|
    ensures 0 <= modelId < |models| ==> r[modelId] == models[modelId].(isDeleted := true)
    ensures forall k :: 0 <= k < |models| && k != modelId ==> r[k] == models[k]
  {
    if 0 <= modelId < |models| then models[modelId := models[modelId].(isDeleted := true)] else models
  }

  /** `UPDATE modelversion SET currentstep, updatedby WHERE modelversionid = ...` (step 1 in place, step 3). */
  function SetStep(versions: seq<VersionRow>, versionId: int, step: int, updatedBy: int): (r: seq<VersionRow>)
    ensures |r| == |versions|
    ensures 0 <= versionId < |versions| ==>
              r[versionId] == versions[versionId].(currentStep := step, updatedBy := Some(updatedBy))
    ensures forall k :: 0 <= k < |versions| && k != versionId ==> r[k] == versions[k]
  {
    if 0 <= versionId < |versions|
    then versions[versionId := versions[versionId].(currentStep := step, updatedBy := Some(updatedBy))]
    else versions
  }

  /** The training settings step 2 writes. */
  datatype Training = Training(trainPercent: Option<int>, testPercent: Option<int>, valPercent: Option<int>, epochs: Option<int>)

  /** The version update of step 2: the training settings, step 2, the editor. */
  function Train(versions: seq<VersionRow>, versionId: int, t: Training, updatedBy: int): (r: seq<VersionRow>)
    ensures |r| == |versions|
    ensures 0 <= versionId < |versions| ==>
              r[versionId] == versions[versionId].(trainPercent := t.trainPercent, testPercent := t.testPercent,
                valPercent := t.valPercent, epochs := t.epochs, currentStep := 2, updatedBy := Some(updatedBy))
    ensures forall k :: 0 <= k < |versions| && k != versionId ==> r[k] == versions[k]
  {
    if 0 <= versionId < |versions|
    then versions[versionId := versions[versionId].(trainPercent := t.trainPercent, testPercent := t.testPercent,
           valPercent := t.valPercent, epochs := t.epochs, currentStep := 2, updatedBy := Some(updatedBy))]
    else versions
  }

  // ------------------------------------------------------------------- finish

  /** The first version update of step 4: the target becomes `Using` at step 4 with the caller's number. */
  function Promote(versions: seq<VersionRow>, versionId: int, versionNo: Option<int>, updatedBy: int): (r: seq<VersionRow>)
    ensures |r| == |versions|
    ensures 0 <= versionId < |versions| ==>
              r[versionId] == versions[versionId].(versionNo := versionNo, currentStep := 4, status := Using, updatedBy := Some(updatedBy))
    ensures forall k :: 0 <= k < |versions| && k != versionId ==> r[k] == versions[k]
  {
    if 0 <= versionId < |versions| then
      versions[versionId := versions[versionId].(versionNo := versionNo, currentStep := 4, status := Using, updatedBy := Some(updatedBy))]
    else versions
  }

  /**
   * The second version update of step 4: every version of `modelId` except
   * `keep` that is not `Processing` becomes `Ready`. Nothing but the status
   * changes, drafts are never touched, and afterwards no version of `modelId`
   * other than `keep` is `Using`.
   */
  function Demote(versions: seq<VersionRow>, modelId: int, keep: int): (r: seq<VersionRow>)
    ensures |r| == |versions|
    ensures forall k :: 0 <= k < |r| ==> r[k] == versions[k].(status := r[k].status)
    ensures forall k :: 0 <= k < |r| && k != keep && versions[k].modelId == modelId ==> r[k].status != Using
    ensures forall k :: 0 <= k < |r| && k != keep && versions[k].modelId == modelId && versions[k].status != Processing
              ==> r[k] == versions[k].(status := Ready)
    ensures forall k :: 0 <= k < |r| && (k == keep || versions[k].modelId != modelId || versions[k].status == Processing)
              ==> r[k] == versions[k]
  {
    seq(|versions|, k requires 0 <= k < |versions| =>
      if versions[k].modelId == modelId && versions[k].status != Processing && k != keep
      then versions[k].(status := Ready) else versions[k])
  }

  /** The versions after step 4 for target `versionId`, request model `modelId` and number `versionNo`. */
  function Finish(versions: seq<VersionRow>, versionId: int, modelId: int, versionNo: Option<int>, updatedBy: int)
    : (r: seq<VersionRow>)
    ensures |r| == |versions|
    ensures forall k :: 0 <= k < |r| ==> r[k].modelId == versions[k].modelId
    ensures 0 <= versionId < |versions| ==>
              r[versionId] == versions[versionId].(versionNo := versionNo, currentStep := 4, status := Using, updatedBy := Some(updatedBy))
    ensures forall k :: 0 <= k < |r| && k != versionId && r[k].modelId == modelId ==> r[k].status != Using
    ensures forall k :: 0 <= k < |r| && k != versionId && versions[k].modelId == modelId && versions[k].status != Processing
              ==> r[k] == versions[k].(status := Ready)
    ensures forall k :: 0 <= k < |r| && k != versionId && (versions[k].status == Processing || versions[k].modelId != modelId)
              ==> r[k] == versions[k]
  {
    Demote(Promote(versions, versionId, versionNo, updatedBy), modelId, versionId)
  }

  /** `versionId` is `Using` and no other version of its model is. */
  predicate IsOnlyUsing(versions: seq<VersionRow>, versionId: int)
  {
    && 0 <= versionId < |versions|
    && versions[versionId].status == Using
    && forall k :: 0 <= k < |versions| && k != versionId && versions[k].modelId == versions[versionId].modelId
         ==> versions[k].status != Using
  }

  /** At most one version of each model is `Using`. */
  predicate AtMostOneUsing(versions: seq<VersionRow>)
  {
    forall i, j ::
      (0 <= i < |versions| && 0 <= j < |versions| && versions[i].status == Using && versions[j].status == Using
       && versions[i].modelId == versions[j].modelId) ==> i == j
  }

  /** When the request names the target's own model, step 4 leaves the target the only `Using` version of it. */
  lemma FinishLeavesOnlyUsing(versions: seq<VersionRow>, versionId: int, modelId: int, versionNo: Option<int>, updatedBy: int)
    requires 0 <= versionId < |versions| && versions[versionId].modelId == modelId
    ensures IsOnlyUsing(Finish(versions, versionId, modelId, versionNo, updatedBy), versionId)
  {
  }

  /** Step 4 keeps "at most one `Using` version per model" when the request names the target's model. */
  lemma FinishKeepsAtMostOneUsing(versions: seq<VersionRow>, versionId: int, modelId: int, versionNo: Option<int>, updatedBy: int)
    requires AtMostOneUsing(versions)
    requires 0 <= versionId < |versions| ==> versions[versionId].modelId == modelId
    ensures AtMostOneUsing(Finish(versions, versionId, modelId, versionNo, updatedBy))
  {
  }

  /**
   * The demotion goes by the request's model id, not the stored one: a request
   * naming another model leaves two `Using` versions of the target's model.
   */
  lemma FinishWithForeignModelIdKeepsOldUsing()
    ensures !AtMostOneUsing(Finish([FirstVersion(7, 0).(status := Using), FirstVersion(7, 0)], 1, 8, Some(2), 0))
  {
    var r := Finish([FirstVersion(7, 0).(status := Using), FirstVersion(7, 0)], 1, 8, Some(2), 0);
    assert r[0].status == Using && r[1].status == Using;
  }

  // ------------------------------------------------------------------- delete

  /**
   * The answer of `delete_model` as written: for an unknown model it `raise`s
   * the 404 response object, which Python rejects with a TypeError that the
   * route turns into a 500.
   */
  function DeleteResultAsWritten(known: bool, modelId: int): (r: Result<int>)
    ensures known <==> r.Ok?
    ensures known ==> r.value == modelId
    ensures !known ==> StatusCode(r.failure) == 500
  {
    if known then Ok(modelId) else Err(ServerError)
  }

  /** The answer `delete_model` evidently intends: 404 for an unknown model. */
  function DeleteResult(known: bool, modelId: int): (r: Result<int>)
    ensures known <==> r.Ok?
    ensures known ==> r.value == modelId
    ensures !known ==> StatusCode(r.failure) == 404
  {
    if known then Ok(modelId) else Err(NotFound)
  }

  /** For an unknown model the code as written answers 500 where 404 is meant. */
  lemma DeleteUnknownModelMisreported(modelId: int)
    ensures StatusCode(DeleteResultAsWritten(false, modelId).failure) == 500
    ensures StatusCode(DeleteResult(false, modelId).failure) == 404
  {
  }
}
