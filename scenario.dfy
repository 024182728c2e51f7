/**
 * The wizard's main path, on an empty store: create a model, select
 * its functions, configure and finish version 1, then reopen it (which forks
 * version 2) and finish version 2.
 */
module Scenario {
  import opened Common
  import opened Lifecycle
  import opened Store

  /** Creating a model and taking version 1 through the four steps leaves it the model's `Using` version. */
  method FinishFirstVersion() returns (store: DetectionModelStore)
    ensures fresh(store) && store.Valid()
    ensures |store.versions| == 1
    ensures store.versions[0].modelId == 0 && store.versions[0].status == Using
    ensures store.versions[0].versionNo == Some(1) && store.versions[0].currentStep == 4
    ensures FunctionsOf(Rows(store.links), 0) == {10, 11}
    ensures store.bindings == [Binding(0, Some("C1"), Some("P1"), true, Some(1))]
  {
    store := new DetectionModelStore({1}, {"P1"});
    var created := store.AddModel("M", "d", 1, Some("P1"));
    assert created == Ok((0, 0));
    assert Rows([10, 11]) == {10, 11} by {
      assert forall x :: x in [10, 11] <==> x == 10 || x == 11;
    }
    var step1 := store.UpdateStep1(0, 0, Some([10, 11]), 1);
    assert step1 == Ok((0, Some(1)));
    assert FunctionsOf(Rows(store.links), 0) == {10, 11};
    var _ := store.UpdateStep2(0, Step2(0, "M", "d", Some("C1"), Some("P1"), Training(Some(70), Some(20), Some(10), Some(50)), 1));
    var _ := store.UpdateStep3(0, 1);
    var _ := store.UpdateStep4(0, 0, Some(1), 1);
  }

  /**
   * After the whole path, version 1 is `Ready` with its original functions,
   * version 2 is the only `Using` version, numbered 2, with the functions of
   * the reopening request and the product of version 1's binding.
   */
  method CreateFinishForkFinish() returns (first: VersionRow, second: VersionRow, firstFunctions: set<int>,
                                           secondFunctions: set<int>, secondBinding: Binding)
    ensures first.status == Ready && first.versionNo == Some(1) && first.currentStep == 4
    ensures second.status == Using && second.versionNo == Some(2) && second.currentStep == 4
    ensures firstFunctions == {10, 11} && secondFunctions == {10}
    ensures secondBinding.prodId == Some("P1") && secondBinding.applied
  {
    var store := FinishFirstVersion();

    // Reopening version 1 forks version 2.
    assert VersionNumbers(store.versions, 0) == {1} by {
      assert store.versions[0].versionNo == Some(1);
    }
    assert Rows([10]) == {10} by {
      assert forall x :: x in [10] <==> x == 10;
    }
    var reopened := store.UpdateStep1(0, 0, Some([10]), 1);
    assert reopened == Ok((1, Some(2)));
    assert FunctionsOf(Rows(store.links), 0) == {10, 11};
    assert FunctionsOf(Rows(store.links), 1) == {10};

    // Finishing version 2 demotes version 1.
    var _ := store.UpdateStep4(1, 0, Some(2), 1);
    first := store.versions[0];
    second := store.versions[1];
    firstFunctions := FunctionsOf(Rows(store.links), 0);
    secondFunctions := FunctionsOf(Rows(store.links), 1);
    secondBinding := store.bindings[1];
  }
}
