/** Three example double-clicks, computed through the model: a restore-all,
    a solo of a hidden series, and an overflow merge. */
module Scenarios {
  import opened Dom
  import opened Overflow
  import opened DoubleClick
  import Collector

  /** "And 3 more" is an overflow summary; "And more" and "Legend" are not. */
  lemma OverflowExamples()
    ensures HasOverflowText("And 3 more")
    ensures HasOverflowText("And 12 more series")
    ensures !HasOverflowText("And more")
    ensures !HasOverflowText("Legend")
  {
    OverflowTextSpec("And 3 more");
    assert OccursAt("And 3 more", 0, 5);
    OverflowTextSpec("And 12 more series");
    assert OccursAt("And 12 more series", 0, 6);
  }

  /** Labels ["Hide series", "Show series", "Show series"], double-click on the
      first: both hidden series are shown again, the first is not clicked. */
  lemma RestoreAllScenario()
    ensures Reconcile(Gesture(1, false, Some(HideSeries), [1, 2, 3], None, None, {1, 2, 3},
                              map[1 := HideSeries, 2 := ShowSeries, 3 := ShowSeries], false, map[]))
         == [Click(2), Click(3)]
  {
    var labels := map[1 := HideSeries, 2 := ShowSeries, 3 := ShowSeries];
    assert Others([1, 2, 3], 1) == [2, 3] by {
      assert [1, 2, 3][..2] == [1, 2] && [1, 2][..1] == [1] && [1][..0] == [];
    }
    assert ClicksFor([2, 3], labels, ShowSeries, []) == [Click(2), Click(3)] by {
      assert [2, 3][..1] == [2] && [2][..0] == [];
      assert LabelIs(labels, 2, ShowSeries) && LabelIs(labels, 3, ShowSeries);
      assert ClicksFor([2], labels, ShowSeries, []) == [Click(2)];
    }
  }

  /** Labels ["Show series", "Hide series", "Hide series"], double-click on the
      first: it is clicked to become visible, then the other two are hidden. */
  lemma SoloScenario()
    ensures Reconcile(Gesture(1, false, Some(ShowSeries), [1, 2, 3], None, None, {1, 2, 3},
                              map[1 := ShowSeries, 2 := HideSeries, 3 := HideSeries], true,
                              map[1 := HideSeries, 2 := HideSeries, 3 := HideSeries]))
         == [Click(1), Click(2), Click(3)]
  {
    var labels := map[1 := ShowSeries, 2 := HideSeries, 3 := HideSeries];
    var late := map[1 := HideSeries, 2 := HideSeries, 3 := HideSeries];
    assert Others([1, 2, 3], 1) == [2, 3] by {
      assert [1, 2, 3][..2] == [1, 2] && [1, 2][..1] == [1] && [1][..0] == [];
    }
    assert !AllOthersShow([2, 3], labels) by {
      assert !LabelIs(labels, [2, 3][0], ShowSeries);
    }
    assert ClicksFor([2, 3], late, HideSeries, []) == [Click(2), Click(3)] by {
      assert [2, 3][..1] == [2] && [2][..0] == [];
      assert LabelIs(late, 2, HideSeries) && LabelIs(late, 3, HideSeries);
      assert ClicksFor([2], late, HideSeries, []) == [Click(2)];
    }
  }

  /** One visible top-level series and "And 3 more" hiding three hidden ones:
      the popover is opened, its buttons merged, and all four series shown. */
  lemma OverflowMergeScenario()
    ensures Reconcile(Gesture(1, false, Some(HideSeries), [1], Some("And 3 more"), Some([2, 3, 4]), {1, 2, 3, 4},
                              map[1 := HideSeries, 2 := ShowSeries, 3 := ShowSeries, 4 := ShowSeries], false, map[]))
         == [ClickSummary, Click(2), Click(3), Click(4), ClickSummary]
  {
    var g := Gesture(1, false, Some(HideSeries), [1], Some("And 3 more"), Some([2, 3, 4]), {1, 2, 3, 4},
                     map[1 := HideSeries, 2 := ShowSeries, 3 := ShowSeries, 4 := ShowSeries], false, map[]);
    MergeOpensPopover(g);
    MergeShowsAll(g);
  }

  lemma MergeOpensPopover(g: Gesture)
    requires g.summaryText == Some("And 3 more") && !g.fromDropdown
    requires g.cardButtons == [1] && g.popover == Some([2, 3, 4]) && g.connected == {1, 2, 3, 4}
    ensures OpenClick(g) == [ClickSummary] && CloseClick(g) == [ClickSummary]
    ensures WorkingSet(g) == [1, 2, 3, 4]
  {
    OverflowExamples();
    MergedButtons();
  }

  lemma MergeShowsAll(g: Gesture)
    requires g.clicked == 1 && g.labels == map[1 := HideSeries, 2 := ShowSeries, 3 := ShowSeries, 4 := ShowSeries]
    requires WorkingSet(g) == [1, 2, 3, 4] && CloseClick(g) == [ClickSummary]
    ensures Respond(g) == [Click(2), Click(3), Click(4), ClickSummary]
  {
    MergedButtons();
    ShowAllThree(g.labels);
  }

  /** The popover's three buttons land after the one button already listed. */
  lemma MergedButtons()
    ensures Collector.Collected([1], {1, 2, 3, 4}, [2, 3, 4]) == [1, 2, 3, 4]
    ensures Others([1, 2, 3, 4], 1) == [2, 3, 4]
  {
    assert Collector.Pruned([1], {1, 2, 3, 4}) == [1];
    assert Elems([1]) == {1};
    assert [2, 3, 4][1..] == [3, 4] && [3, 4][1..] == [4] && [4][1..] == [];
    assert Collector.Unseen([4], {1, 2, 3}) == [4];
    assert {1, 2} + {3} == {1, 2, 3};
    assert Collector.Unseen([3, 4], {1, 2}) == [3, 4];
    assert {1} + {2} == {1, 2};
    assert Collector.Unseen([2, 3, 4], {1}) == [2, 3, 4];
    assert [1, 2, 3, 4][..3] == [1, 2, 3];
    assert [1, 2, 3][..2] == [1, 2] && [1, 2][..1] == [1] && [1][..0] == [];
  }

  lemma ShowAllThree(labels: map<NodeId, string>)
    requires labels == map[1 := HideSeries, 2 := ShowSeries, 3 := ShowSeries, 4 := ShowSeries]
    ensures AllOthersShow([2, 3, 4], labels)
    ensures ClicksFor([2, 3, 4], labels, ShowSeries, []) == [Click(2), Click(3), Click(4)]
  {
    assert [2, 3, 4][..2] == [2, 3] && [2, 3][..1] == [2] && [2][..0] == [];
    assert LabelIs(labels, 2, ShowSeries) && LabelIs(labels, 3, ShowSeries) && LabelIs(labels, 4, ShowSeries);
    assert ClicksFor([2], labels, ShowSeries, []) == [Click(2)];
    assert ClicksFor([2, 3], labels, ShowSeries, []) == [Click(2), Click(3)];
  }
}
