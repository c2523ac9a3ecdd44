/** Double-click reconciliation: the body of the `dblclick` listener that the
    script puts on every legend toggle button. Double-clicking the only visible
    series shows every series again ("restore all"); double-clicking any other
    series hides all the others ("solo"). The outcome is the ordered list of
    clicks the handler issues. */
module DoubleClick {
  import opened Dom
  import opened Collector
  import opened Overflow

  /** One click the handler issues, in the order it issues them. */
  datatype Action =
    | Click(button: NodeId)   // `b.click()` on a legend toggle button
    | ClickSummary            // `clickElement(dialogDiv)`: mousedown and click on the dropdown summary

  /** What a double-click's outcome depends on. The page's own reaction to the
      clicks (labels flipping) is not the script's to decide: the labels read
      at each moment the handler looks at them are inputs. */
  datatype Gesture = Gesture(
    clicked: NodeId,                // the button double-clicked
    fromDropdown: bool,             // the handler was wired by the dropdown observer
    originalLabel: Option<string>,  // its aria-label when the event fires
    cardButtons: seq<NodeId>,       // the card's labelled buttons, in document order
    summaryText: Option<string>,    // the card's dropdown summary: None when absent, else its text
    popover: Option<seq<NodeId>>,   // the popover's labelled buttons, or None when the wait timed out
    connected: set<NodeId>,         // the elements attached to the document once the wait is over
    labels: map<NodeId, string>,    // aria-labels when the decision is taken
    pollReadsShow: bool,            // a 200 ms poll within the 2 s window read "Show series" on the clicked button
    lateLabels: map<NodeId, string> // aria-labels 100 ms after that poll clicked the button
  )

  /** The summary reads "And <N> more", so the handler opens the popover and merges its buttons. */
  predicate OpensOverflow(g: Gesture)
  {
    g.summaryText.Some? && HasOverflowText(g.summaryText.value)
  }

  /** `allButtons` once the popover, if any, has been merged in. */
  function WorkingSet(g: Gesture): (r: seq<NodeId>)
  {
    if OpensOverflow(g) && g.popover.Some? then Collected(g.cardButtons, g.connected, g.popover.value)
    else g.cardButtons
  }

  /** `allButtons.filter(b => b !== button)` */
  function Others(all: seq<NodeId>, clicked: NodeId): (r: seq<NodeId>)
  {
    if all == [] then []
    else Others(all[..|all| - 1], clicked) + (if all[|all| - 1] != clicked then [all[|all| - 1]] else [])
  }

  /** `allOthersShow`: there is another button and every other button reads "Show series". */
  predicate AllOthersShow(others: seq<NodeId>, labels: map<NodeId, string>)
  {
    |others| > 0 && forall i :: 0 <= i < |others| ==> LabelIs(labels, others[i], ShowSeries)
  }

  /** The buttons of `bs` whose label reads `text`, in order. */
  function Labelled(bs: seq<NodeId>, labels: map<NodeId, string>, text: string): (r: seq<NodeId>)
  {
    if bs == [] then []
    else Labelled(bs[..|bs| - 1], labels, text) + (if LabelIs(labels, bs[|bs| - 1], text) then [bs[|bs| - 1]] else [])
  }

  /** `bs.forEach(b => { if (label(b) === text) { b.click(); after } })` */
  function ClicksFor(bs: seq<NodeId>, labels: map<NodeId, string>, text: string, after: seq<Action>): (r: seq<Action>)
  {
    if bs == [] then []
    else
      var b := bs[|bs| - 1];
      ClicksFor(bs[..|bs| - 1], labels, text, after) + (if LabelIs(labels, b, text) then [Click(b)] + after else [])
  }

  /** The click that opens the popover: only for a matching summary, and not from the dropdown. */
  function OpenClick(g: Gesture): (r: seq<Action>)
  {
    if OpensOverflow(g) && !g.fromDropdown then [ClickSummary] else []
  }

  /** `if (!fromDropdown) clickElement(dialogDiv)`: a no-op when there is no summary,
      whether or not its text matched. */
  function CloseClick(g: Gesture): (r: seq<Action>)
  {
    if g.summaryText.Some? && !g.fromDropdown then [ClickSummary] else []
  }

  /** Every click one double-click issues, in order: the popover is opened
      first, then the decision is taken over the merged buttons. */
  function Reconcile(g: Gesture): (r: seq<Action>)
  {
    OpenClick(g) + Respond(g)
  }

  /** Restore all, or solo the double-clicked series. */
  function Respond(g: Gesture): (r: seq<Action>)
  {
    var others := Others(WorkingSet(g), g.clicked);
    if AllOthersShow(others, g.labels) then
      ClicksFor(others, g.labels, ShowSeries, []) + CloseClick(g)
    else if g.originalLabel == Some(ShowSeries) then
      if g.pollReadsShow then [Click(g.clicked)] + ClicksFor(others, g.lateLabels, HideSeries, []) + CloseClick(g)
      else []
    else
      ClicksFor(others, g.labels, HideSeries, CloseClick(g))
  }

  /** The buttons clicked, in order. */
  function Clicked(actions: seq<Action>): (r: seq<NodeId>)
  {
    if actions == [] then []
    else
      var a := actions[|actions| - 1];
      Clicked(actions[..|actions| - 1]) + (if a.Click? then [a.button] else [])
  }

  /** How many times the dropdown summary is clicked. */
  function SummaryClicks(actions: seq<Action>): (r: nat)
  {
    if actions == [] then 0
    else SummaryClicks(actions[..|actions| - 1]) + (if actions[|actions| - 1] == ClickSummary then 1 else 0)
  }

  /** Every action is a click on a legend button. */
  predicate AllButtonClicks(actions: seq<Action>)
  {
    forall i :: 0 <= i < |actions| ==> actions[i].Click?
  }

  /** Every button click is followed at once by a summary click, and every
      summary click follows a button click. */
  predicate EachClickThenSummary(actions: seq<Action>)
  {
    && (forall i :: 0 <= i < |actions| && actions[i].Click? ==> i + 1 < |actions| && actions[i + 1] == ClickSummary)
    && (forall i :: 0 <= i < |actions| && actions[i] == ClickSummary ==> 0 < i && actions[i - 1].Click?)
  }

  // ---------------------------------------------------------------------------
  // The handler, as it runs

  /** The `dblclick` listener: merge the popover's buttons when the summary
      says some are hidden there, then restore all or solo. */
  method HandleDoubleClick(g: Gesture) returns (actions: seq<Action>)
    ensures actions == Reconcile(g)
  {
    actions := [];
    var allButtons := new ButtonList(g.cardButtons);
    if g.summaryText.Some? && HasOverflowText(g.summaryText.value) {
      if !g.fromDropdown {
        actions := actions + [ClickSummary];
      }
      if g.popover.Some? {
        allButtons.Collect(g.connected, g.popover.value);
      }
    }
    var close := if g.summaryText.Some? && !g.fromDropdown then [ClickSummary] else [];
    var others := Others(allButtons.items, g.clicked);
    var rest;
    if AllOthersShow(others, g.labels) {
      rest := ClickMatching(others, g.labels, ShowSeries, []);
      rest := rest + close;
    } else if g.originalLabel == Some(ShowSeries) {
      if g.pollReadsShow {
        rest := ClickMatching(others, g.lateLabels, HideSeries, []);
        rest := [Click(g.clicked)] + rest + close;
      } else {
        rest := [];
      }
    } else {
      rest := ClickMatching(others, g.labels, HideSeries, close);
    }
    actions := actions + rest;
  }

  /** One `forEach` over the other buttons: click each one whose label reads
      `text`, each click followed by `after`. */
  method ClickMatching(bs: seq<NodeId>, labels: map<NodeId, string>, text: string, after: seq<Action>)
    returns (actions: seq<Action>)
    ensures actions == ClicksFor(bs, labels, text, after)
  {
    actions := [];
    var i := 0;
    while i < |bs|
      invariant i <= |bs|
      invariant actions == ClicksFor(bs[..i], labels, text, after)
    {
      assert bs[..i + 1][..i] == bs[..i];
      if LabelIs(labels, bs[i], text) {
        actions := actions + [Click(bs[i])] + after;
      }
      i := i + 1;
    }
    assert bs[..i] == bs;
  }

  // ---------------------------------------------------------------------------
  // Facts about the pieces

  lemma {:induction false} OthersSpec(all: seq<NodeId>, clicked: NodeId)
    ensures forall x :: x in Others(all, clicked) <==> x in all && x != clicked
  {
    if all != [] {
      OthersSpec(all[..|all| - 1], clicked);
      assert all == all[..|all| - 1] + [all[|all| - 1]];
    }
  }

  lemma {:induction false} LabelledSpec(bs: seq<NodeId>, labels: map<NodeId, string>, text: string)
    ensures forall x :: x in Labelled(bs, labels, text) <==> x in bs && LabelIs(labels, x, text)
  {
    if bs != [] {
      LabelledSpec(bs[..|bs| - 1], labels, text);
      assert bs == bs[..|bs| - 1] + [bs[|bs| - 1]];
    }
  }

  /** When every button reads `text`, all of them qualify. */
  lemma {:induction false} LabelledAll(bs: seq<NodeId>, labels: map<NodeId, string>, text: string)
    requires forall i :: 0 <= i < |bs| ==> LabelIs(labels, bs[i], text)
    ensures Labelled(bs, labels, text) == bs
  {
    if bs != [] {
      LabelledAll(bs[..|bs| - 1], labels, text);
      assert bs == bs[..|bs| - 1] + [bs[|bs| - 1]];
    }
  }

  lemma {:induction false} ClickedAppend(a: seq<Action>, b: seq<Action>)
    ensures Clicked(a + b) == Clicked(a) + Clicked(b)
    ensures SummaryClicks(a + b) == SummaryClicks(a) + SummaryClicks(b)
    decreases |b|
  {
    if b != [] {
      var init := b[..|b| - 1];
      ClickedAppend(a, init);
      assert (a + b)[..|a + b| - 1] == a + init;
    } else {
      assert a + b == a;
    }
  }

  /** One `forEach` clicks exactly the buttons reading `text`, in order, and
      issues `after` once per click. */
  lemma {:induction false} ClicksForSpec(bs: seq<NodeId>, labels: map<NodeId, string>, text: string, after: seq<Action>)
    requires Clicked(after) == []
    ensures Clicked(ClicksFor(bs, labels, text, after)) == Labelled(bs, labels, text)
    ensures SummaryClicks(after) == 0 ==> SummaryClicks(ClicksFor(bs, labels, text, after)) == 0
    ensures SummaryClicks(after) == 1 ==> SummaryClicks(ClicksFor(bs, labels, text, after)) == |Labelled(bs, labels, text)|
    ensures ClicksFor(bs, labels, text, after) == [] || ClicksFor(bs, labels, text, after)[0].Click?
  {
    if bs != [] {
      var init := bs[..|bs| - 1];
      var b := bs[|bs| - 1];
      var head := ClicksFor(init, labels, text, after);
      ClicksForSpec(init, labels, text, after);
      if LabelIs(labels, b, text) {
        var step := [Click(b)] + after;
        assert ClicksFor(bs, labels, text, after) == head + step;
        assert Labelled(bs, labels, text) == Labelled(init, labels, text) + [b];
        ClickedAppend(head, step);
        ClickedAppend([Click(b)], after);
        ClickedSingle(b);
        assert (head + step)[0] == if head == [] then Click(b) else head[0];
      } else {
        assert ClicksFor(bs, labels, text, after) == head + [] == head;
        assert Labelled(bs, labels, text) == Labelled(init, labels, text) + [] == Labelled(init, labels, text);
      }
    }
  }

  /** Without a follow-up, one `forEach` issues button clicks only. */
  lemma {:induction false} ClicksForOnlyButtons(bs: seq<NodeId>, labels: map<NodeId, string>, text: string)
    ensures AllButtonClicks(ClicksFor(bs, labels, text, []))
  {
    if bs != [] {
      var init := bs[..|bs| - 1];
      var b := bs[|bs| - 1];
      ClicksForOnlyButtons(init, labels, text);
      if LabelIs(labels, b, text) {
        assert ClicksFor(bs, labels, text, []) == ClicksFor(init, labels, text, []) + [Click(b)];
      } else {
        assert ClicksFor(bs, labels, text, []) == ClicksFor(init, labels, text, []) + [];
      }
    }
  }

  /** With the summary click as follow-up, each button click is followed at
      once by a summary click, and no summary click stands alone. */
  lemma {:induction false} ClicksForThenSummary(bs: seq<NodeId>, labels: map<NodeId, string>, text: string)
    ensures EachClickThenSummary(ClicksFor(bs, labels, text, [ClickSummary]))
  {
    if bs != [] {
      var init := bs[..|bs| - 1];
      var b := bs[|bs| - 1];
      var head := ClicksFor(init, labels, text, [ClickSummary]);
      ClicksForThenSummary(init, labels, text);
      if LabelIs(labels, b, text) {
        var r := head + [Click(b), ClickSummary];
        assert ClicksFor(bs, labels, text, [ClickSummary]) == r;
        forall i | 0 <= i < |r| && r[i].Click?
          ensures i + 1 < |r| && r[i + 1] == ClickSummary
        {
          if i < |head| {
            assert head[i].Click?;
          }
        }
        forall i | 0 <= i < |r| && r[i] == ClickSummary
          ensures 0 < i && r[i - 1].Click?
        {
          if i < |head| {
            assert head[i] == ClickSummary;
          }
        }
      } else {
        assert ClicksFor(bs, labels, text, [ClickSummary]) == head + [];
      }
    }
  }

  lemma ClickedSingle(b: NodeId)
    ensures Clicked([Click(b)]) == [b] && SummaryClicks([Click(b)]) == 0
  {
    assert [Click(b)][..0] == [];
  }

  // ---------------------------------------------------------------------------
  // What a double-click does

  /** Restore all: when every other button reads "Show series", exactly the
      other buttons are clicked, in order, and never the double-clicked one;
      the summary is clicked to open the popover and once after the loop. */
  lemma RestoreAll(g: Gesture)
    requires AllOthersShow(Others(WorkingSet(g), g.clicked), g.labels)
    ensures Clicked(Reconcile(g)) == Others(WorkingSet(g), g.clicked)
    ensures forall b :: b in Clicked(Reconcile(g)) <==> b in WorkingSet(g) && b != g.clicked
    ensures SummaryClicks(Reconcile(g)) == |OpenClick(g)| + |CloseClick(g)|
    ensures |OpenClick(g)| + |CloseClick(g)| <= |Reconcile(g)|
    ensures AllButtonClicks(Reconcile(g)[|OpenClick(g)|..|Reconcile(g)| - |CloseClick(g)|])
    ensures Reconcile(g)[|Reconcile(g)| - |CloseClick(g)|..] == CloseClick(g)
  {
    var others := Others(WorkingSet(g), g.clicked);
    var body := ClicksFor(others, g.labels, ShowSeries, []);
    assert Reconcile(g) == OpenClick(g) + (body + CloseClick(g));
    RestoreAllOrder(g);
    ClicksForSpec(others, g.labels, ShowSeries, []);
    LabelledAll(others, g.labels, ShowSeries);
    ClickedAppend(body, CloseClick(g));
    ClickedAppend(OpenClick(g), body + CloseClick(g));
    OthersSpec(WorkingSet(g), g.clicked);
    SummaryClickOne(g);
  }

  /** The order of a restore-all: the opening summary click, then button
      clicks only, then the closing summary click. */
  lemma RestoreAllOrder(g: Gesture)
    requires AllOthersShow(Others(WorkingSet(g), g.clicked), g.labels)
    ensures |OpenClick(g)| + |CloseClick(g)| <= |Reconcile(g)|
    ensures AllButtonClicks(Reconcile(g)[|OpenClick(g)|..|Reconcile(g)| - |CloseClick(g)|])
    ensures Reconcile(g)[|Reconcile(g)| - |CloseClick(g)|..] == CloseClick(g)
  {
    var others := Others(WorkingSet(g), g.clicked);
    var body := ClicksFor(others, g.labels, ShowSeries, []);
    var r := OpenClick(g) + body + CloseClick(g);
    assert Reconcile(g) == r;
    ClicksForOnlyButtons(others, g.labels, ShowSeries);
    assert r[|OpenClick(g)|..|r| - |CloseClick(g)|] == body;
    assert r[|r| - |CloseClick(g)|..] == CloseClick(g);
  }

  /** Solo of a visible series: exactly the other buttons reading "Hide series"
      are clicked, in order; the double-clicked button and every button with
      another label are left alone; the summary is clicked once after each of
      those clicks (and first, to open the popover). */
  lemma SoloVisible(g: Gesture)
    requires !AllOthersShow(Others(WorkingSet(g), g.clicked), g.labels)
    requires g.originalLabel != Some(ShowSeries)
    ensures Clicked(Reconcile(g)) == Labelled(Others(WorkingSet(g), g.clicked), g.labels, HideSeries)
    ensures forall b :: b in Clicked(Reconcile(g)) <==>
      b in WorkingSet(g) && b != g.clicked && LabelIs(g.labels, b, HideSeries)
    ensures SummaryClicks(Reconcile(g)) == |OpenClick(g)|
      + (if CloseClick(g) == [] then 0 else |Labelled(Others(WorkingSet(g), g.clicked), g.labels, HideSeries)|)
    ensures |OpenClick(g)| <= |Reconcile(g)|
    ensures CloseClick(g) == [] ==> AllButtonClicks(Reconcile(g)[|OpenClick(g)|..])
    ensures CloseClick(g) != [] ==> EachClickThenSummary(Reconcile(g)[|OpenClick(g)|..])
  {
    var others := Others(WorkingSet(g), g.clicked);
    assert Reconcile(g)[|OpenClick(g)|..] == ClicksFor(others, g.labels, HideSeries, CloseClick(g));
    if CloseClick(g) == [] {
      ClicksForOnlyButtons(others, g.labels, HideSeries);
    } else {
      ClicksForThenSummary(others, g.labels, HideSeries);
    }
    assert Reconcile(g) == OpenClick(g) + ClicksFor(others, g.labels, HideSeries, CloseClick(g));
    ClicksForSpec(others, g.labels, HideSeries, CloseClick(g));
    ClickedAppend(OpenClick(g), ClicksFor(others, g.labels, HideSeries, CloseClick(g)));
    LabelledSpec(others, g.labels, HideSeries);
    OthersSpec(WorkingSet(g), g.clicked);
    SummaryClickOne(g);
  }

  /** Solo of a hidden series: once a poll reads "Show series", the
      double-clicked button is clicked first, then exactly the other buttons
      reading "Hide series" at that later moment, then the summary once; if
      no poll does, no button is clicked and the summary is only opened. */
  lemma SoloHidden(g: Gesture)
    requires !AllOthersShow(Others(WorkingSet(g), g.clicked), g.labels)
    requires g.originalLabel == Some(ShowSeries)
    ensures g.pollReadsShow ==>
      Clicked(Reconcile(g)) == [g.clicked] + Labelled(Others(WorkingSet(g), g.clicked), g.lateLabels, HideSeries)
    ensures g.pollReadsShow ==> forall b :: b in Clicked(Reconcile(g))[1..] <==>
      b in WorkingSet(g) && b != g.clicked && LabelIs(g.lateLabels, b, HideSeries)
    ensures !g.pollReadsShow ==> Clicked(Reconcile(g)) == []
    ensures SummaryClicks(Reconcile(g)) == |OpenClick(g)| + (if g.pollReadsShow then |CloseClick(g)| else 0)
    ensures g.pollReadsShow ==>
      && |OpenClick(g)| + 1 + |CloseClick(g)| <= |Reconcile(g)|
      && Reconcile(g)[|OpenClick(g)|] == Click(g.clicked)
      && AllButtonClicks(Reconcile(g)[|OpenClick(g)|..|Reconcile(g)| - |CloseClick(g)|])
      && Reconcile(g)[|Reconcile(g)| - |CloseClick(g)|..] == CloseClick(g)
    ensures !g.pollReadsShow ==> Reconcile(g) == OpenClick(g)
  {
    var others := Others(WorkingSet(g), g.clicked);
    SummaryClickOne(g);
    if g.pollReadsShow {
      var body := ClicksFor(others, g.lateLabels, HideSeries, []);
      ClicksForOnlyButtons(others, g.lateLabels, HideSeries);
      assert Reconcile(g) == OpenClick(g) + ([Click(g.clicked)] + body) + CloseClick(g);
      assert Reconcile(g)[|OpenClick(g)|..|Reconcile(g)| - |CloseClick(g)|] == [Click(g.clicked)] + body;
      ClicksForSpec(others, g.lateLabels, HideSeries, []);
      ClickedSingle(g.clicked);
      ClickedAppend([Click(g.clicked)], body);
      ClickedAppend([Click(g.clicked)] + body, CloseClick(g));
      ClickedAppend(OpenClick(g), [Click(g.clicked)] + body + CloseClick(g));
      LabelledSpec(others, g.lateLabels, HideSeries);
      OthersSpec(WorkingSet(g), g.clicked);
    } else {
      assert Reconcile(g) == OpenClick(g) + [];
    }
  }

  /** The summary clicks are summary clicks and nothing else. */
  lemma SummaryClickOne(g: Gesture)
    ensures SummaryClicks(OpenClick(g)) == |OpenClick(g)| && Clicked(OpenClick(g)) == []
    ensures SummaryClicks(CloseClick(g)) == |CloseClick(g)| && Clicked(CloseClick(g)) == []
  {
    assert [ClickSummary][..0] == [];
  }

  /** A handler wired from the dropdown never clicks the summary. */
  lemma NoSummaryClickFromDropdown(g: Gesture)
    requires g.fromDropdown
    ensures SummaryClicks(Reconcile(g)) == 0
  {
    var others := Others(WorkingSet(g), g.clicked);
    if AllOthersShow(others, g.labels) {
      RestoreAll(g);
    } else if g.originalLabel == Some(ShowSeries) {
      SoloHidden(g);
    } else {
      SoloVisible(g);
    }
  }

  /** The summary is clicked before anything else exactly when its text reads
      "And <N> more" and the handler was not wired from the dropdown:
      otherwise the first click, if any, is on a button. */
  lemma OpenClickFirst(g: Gesture)
    ensures (|Reconcile(g)| > 0 && Reconcile(g)[0] == ClickSummary) <==> OpensOverflow(g) && !g.fromDropdown
  {
    var others := Others(WorkingSet(g), g.clicked);
    if AllOthersShow(others, g.labels) {
      var body := ClicksFor(others, g.labels, ShowSeries, []);
      ClicksForSpec(others, g.labels, ShowSeries, []);
      LabelledAll(others, g.labels, ShowSeries);
      assert body != [] by {
        assert Clicked(body) == others;
      }
      assert Respond(g)[0] == body[0];
    } else if g.originalLabel != Some(ShowSeries) {
      ClicksForSpec(others, g.labels, HideSeries, CloseClick(g));
    }
    assert Respond(g) == [] || Respond(g)[0].Click?;
    if OpenClick(g) == [] {
      assert Reconcile(g) == Respond(g);
    }
  }
}
