/** Idempotent wiring: the card scanner puts a `dblclick` listener on every
    legend button and a `click` listener on every card's dropdown summary,
    guarding each with a marker on the element (`data-*` flags) so that a
    rescan never wires an element twice; the dropdown observer wires the
    buttons it finds in an opened popover; and mutations of the page trigger
    a debounced rescan. */
module Wiring {
  import opened Dom
  import opened Collector

  /** One chart card as a scan finds it: its labelled buttons in document
      order, and its dropdown summary if it has one. */
  datatype Card = Card(buttons: seq<NodeId>, summary: Option<NodeId>)

  /** One `addEventListener` call of the script. */
  datatype Listener =
    | DblClick(button: NodeId, fromDropdown: bool)  // the reconciliation handler on a legend button
    | DropdownClick(summary: NodeId)                // the dropdown observer on a card's summary

  /** The `dblclick` listeners put on `bs`, in order. */
  function DblClickListeners(bs: seq<NodeId>, fromDropdown: bool): (r: seq<Listener>)
  {
    if bs == [] then [] else [DblClick(bs[0], fromDropdown)] + DblClickListeners(bs[1..], fromDropdown)
  }

  /** The buttons that carry a `dblclick` listener, in the order they got it. */
  function DblClickTargets(ls: seq<Listener>): (r: seq<NodeId>)
  {
    if ls == [] then []
    else
      var l := ls[|ls| - 1];
      DblClickTargets(ls[..|ls| - 1]) + (if l.DblClick? then [l.button] else [])
  }

  /** The summaries that carry a `click` listener, in the order they got it. */
  function DropdownTargets(ls: seq<Listener>): (r: seq<NodeId>)
  {
    if ls == [] then []
    else
      var l := ls[|ls| - 1];
      DropdownTargets(ls[..|ls| - 1]) + (if l.DropdownClick? then [l.summary] else [])
  }

  /** The summary a card contributes to a scan: only a card with buttons is wired. */
  function WiredSummary(c: Card): (r: set<NodeId>)
  {
    if c.buttons != [] && c.summary.Some? then {c.summary.value} else {}
  }

  /** Every button a scan of `cards` meets. */
  function ScannedButtons(cards: seq<Card>): (r: set<NodeId>)
  {
    if cards == [] then {} else Elems(cards[0].buttons) + ScannedButtons(cards[1..])
  }

  /** Every summary a scan of `cards` wires. */
  function ScannedSummaries(cards: seq<Card>): (r: set<NodeId>)
  {
    if cards == [] then {} else WiredSummary(cards[0]) + ScannedSummaries(cards[1..])
  }

  /** The observer `attachDropdownHandlerToCard` adds: none without a summary
      or on a marked one. */
  function SummaryListener(summary: Option<NodeId>, dropdownMarked: set<NodeId>): (r: seq<Listener>)
  {
    if summary.Some? && summary.value !in dropdownMarked then [DropdownClick(summary.value)] else []
  }

  /** The listeners one `scanCardsForButtons` adds, given the markers already
      set: card by card, its unmarked buttons, then its summary if unmarked. */
  function ScanListeners(cards: seq<Card>, dblMarked: set<NodeId>, dropdownMarked: set<NodeId>): (r: seq<Listener>)
  {
    if cards == [] then []
    else
      var c := cards[0];
      if c.buttons == [] then ScanListeners(cards[1..], dblMarked, dropdownMarked)
      else
        DblClickListeners(Unseen(c.buttons, dblMarked), false)
        + SummaryListener(c.summary, dropdownMarked)
        + ScanListeners(cards[1..], dblMarked + Elems(c.buttons), dropdownMarked + WiredSummary(c))
  }

  lemma ScanListenersCons(c: Card, rest: seq<Card>, dblMarked: set<NodeId>, dropdownMarked: set<NodeId>)
    ensures ScanListeners([c] + rest, dblMarked, dropdownMarked)
         == if c.buttons == [] then ScanListeners(rest, dblMarked, dropdownMarked)
            else DblClickListeners(Unseen(c.buttons, dblMarked), false)
                 + SummaryListener(c.summary, dropdownMarked)
                 + ScanListeners(rest, dblMarked + Elems(c.buttons), dropdownMarked + WiredSummary(c))
  {
    assert ([c] + rest)[0] == c && ([c] + rest)[1..] == rest;
  }

  /** The log after one card's callback, continued by the rest of the scan,
      is the log continued by the scan from that card on. */
  lemma WireCardLog(log: seq<Listener>, c: Card, rest: seq<Card>, dblMarked: set<NodeId>, dropdownMarked: set<NodeId>)
    requires c.buttons != []
    ensures log + DblClickListeners(Unseen(c.buttons, dblMarked), false) + SummaryListener(c.summary, dropdownMarked)
              + ScanListeners(rest, dblMarked + Elems(c.buttons), dropdownMarked + WiredSummary(c))
         == log + ScanListeners([c] + rest, dblMarked, dropdownMarked)
  {
    ScanListenersCons(c, rest, dblMarked, dropdownMarked);
  }

  /** A scan whose every element is already marked adds no listener. */
  lemma {:induction false} ScanAllMarked(cards: seq<Card>, dblMarked: set<NodeId>, dropdownMarked: set<NodeId>)
    requires ScannedButtons(cards) <= dblMarked && ScannedSummaries(cards) <= dropdownMarked
    ensures ScanListeners(cards, dblMarked, dropdownMarked) == []
  {
    if cards != [] {
      var c := cards[0];
      ScanAllMarked(cards[1..], dblMarked, dropdownMarked);
      if c.buttons != [] {
        UnseenAllSeen(c.buttons, dblMarked);
        assert dblMarked + Elems(c.buttons) == dblMarked;
        assert dropdownMarked + WiredSummary(c) == dropdownMarked;
      }
    }
  }

  /** Rescanning an unchanged page wires nothing: a scan leaves every element
      it met marked, so the next scan of the same cards adds no listener. */
  lemma RescanAddsNothing(cards: seq<Card>, dblMarked: set<NodeId>, dropdownMarked: set<NodeId>)
    ensures ScanListeners(cards, dblMarked + ScannedButtons(cards), dropdownMarked + ScannedSummaries(cards)) == []
  {
    ScanAllMarked(cards, dblMarked + ScannedButtons(cards), dropdownMarked + ScannedSummaries(cards));
  }

  /** The page as the script sees it: the markers it has set and the
      listeners it has added. */
  class Page {
    var dblclickMarked: set<NodeId>   // buttons whose `dashcardDblclickAttached` is '1'
    var dropdownMarked: set<NodeId>   // summaries whose `dropdownHandlerAttached` is '1'
    var listeners: seq<Listener>      // every listener the script added, in order

    /** A marker is set exactly on the elements that got a listener, and no
        element got two. */
    ghost predicate Valid()
      reads this
    {
      && NoDup(DblClickTargets(listeners)) && Elems(DblClickTargets(listeners)) == dblclickMarked
      && NoDup(DropdownTargets(listeners)) && Elems(DropdownTargets(listeners)) == dropdownMarked
    }

    /** A freshly loaded page: nothing marked, nothing wired. */
    constructor ()
      ensures Valid()
      ensures dblclickMarked == {} && dropdownMarked == {} && listeners == []
    {
      dblclickMarked, dropdownMarked, listeners := {}, {}, [];
    }

    /** The `forEach` callback of `addDoubleClickHandlerToButtons`: a marked
        button is skipped; an unmarked one is marked and gets a listener.
        `rest` stands for the buttons the `forEach` visits after `b`. */
    method WireButton(b: NodeId, fromDropdown: bool, ghost rest: seq<NodeId>)
      requires Valid()
      modifies this
      ensures Valid()
      ensures listeners == old(listeners) + (if b in old(dblclickMarked) then [] else [DblClick(b, fromDropdown)])
      ensures listeners + DblClickListeners(Unseen(rest, dblclickMarked), fromDropdown)
           == old(listeners) + DblClickListeners(Unseen([b] + rest, old(dblclickMarked)), fromDropdown)
      ensures dblclickMarked == old(dblclickMarked) + {b} && dropdownMarked == old(dropdownMarked)
    {
      assert ([b] + rest)[0] == b && ([b] + rest)[1..] == rest;
      if b in dblclickMarked {
        return;
      }
      ghost var taken := Unseen(rest, dblclickMarked + {b});
      assert ([b] + taken)[0] == b && ([b] + taken)[1..] == taken;
      assert (listeners + [DblClick(b, fromDropdown)])[..|listeners|] == listeners;
      NoDupAppend(DblClickTargets(listeners), [b]);
      assert Elems(DblClickTargets(listeners) + [b]) == dblclickMarked + {b};
      dblclickMarked := dblclickMarked + {b};
      listeners := listeners + [DblClick(b, fromDropdown)];
    }

    /** `addDoubleClickHandlerToButtons(card, buttons, fromDropdown)`: every
        button of `buttons` not yet marked gets a listener, once. */
    method AddDoubleClickHandlers(buttons: seq<NodeId>, fromDropdown: bool)
      requires Valid()
      modifies this
      ensures Valid()
      ensures listeners == old(listeners) + DblClickListeners(Unseen(buttons, old(dblclickMarked)), fromDropdown)
      ensures dblclickMarked == old(dblclickMarked) + Elems(buttons)
      ensures dropdownMarked == old(dropdownMarked)
    {
      var i := 0;
      assert buttons[0..] == buttons;
      while i < |buttons|
        invariant i <= |buttons| && Valid()
        invariant listeners + DblClickListeners(Unseen(buttons[i..], dblclickMarked), fromDropdown)
               == old(listeners) + DblClickListeners(Unseen(buttons, old(dblclickMarked)), fromDropdown)
        invariant dblclickMarked + Elems(buttons[i..]) == old(dblclickMarked) + Elems(buttons)
        invariant dropdownMarked == old(dropdownMarked)
      {
        assert buttons[i..] == [buttons[i]] + buttons[i + 1..];
        assert Elems(buttons[i..]) == {buttons[i]} + Elems(buttons[i + 1..]);
        WireButton(buttons[i], fromDropdown, buttons[i + 1..]);
        i := i + 1;
      }
      assert buttons[i..] == [];
      assert listeners + [] == listeners;
    }

    /** `attachDropdownHandlerToCard(card, buttons)`: the card's summary, if it
        has one and it is not marked, gets the dropdown observer, once. */
    method AttachDropdownHandler(summary: Option<NodeId>)
      requires Valid()
      modifies this
      ensures Valid()
      ensures listeners == old(listeners) + SummaryListener(summary, old(dropdownMarked))
      ensures dropdownMarked == old(dropdownMarked) + (if summary.Some? then {summary.value} else {})
      ensures dblclickMarked == old(dblclickMarked)
    {
      if summary.None? {
        return;
      }
      var s := summary.value;
      if s in dropdownMarked {
        return;
      }
      assert (listeners + [DropdownClick(s)])[..|listeners|] == listeners;
      NoDupAppend(DropdownTargets(listeners), [s]);
      assert Elems(DropdownTargets(listeners) + [s]) == dropdownMarked + {s};
      dropdownMarked := dropdownMarked + {s};
      listeners := listeners + [DropdownClick(s)];
    }

    /** The `forEach` callback of `scanCardsForButtons`: a card with buttons
        gets its buttons and its summary wired. `rest` stands for the cards
        visited after `c`. */
    method WireCard(c: Card, ghost rest: seq<Card>)
      requires Valid()
      modifies this
      ensures Valid()
      ensures listeners + ScanListeners(rest, dblclickMarked, dropdownMarked)
           == old(listeners) + ScanListeners([c] + rest, old(dblclickMarked), old(dropdownMarked))
      ensures dblclickMarked == old(dblclickMarked) + Elems(c.buttons)
      ensures dropdownMarked == old(dropdownMarked) + WiredSummary(c)
    {
      if c.buttons == [] {
        ScanListenersCons(c, rest, dblclickMarked, dropdownMarked);
        assert Elems(c.buttons) == {};
        return;
      }
      WireCardLog(listeners, c, rest, dblclickMarked, dropdownMarked);
      AddDoubleClickHandlers(c.buttons, false);
      AttachDropdownHandler(c.summary);
    }

    /** `scanCardsForButtons(root)`: wire every card that has buttons. */
    method ScanCards(cards: seq<Card>)
      requires Valid()
      modifies this
      ensures Valid()
      ensures listeners == old(listeners) + ScanListeners(cards, old(dblclickMarked), old(dropdownMarked))
      ensures dblclickMarked == old(dblclickMarked) + ScannedButtons(cards)
      ensures dropdownMarked == old(dropdownMarked) + ScannedSummaries(cards)
    {
      var i := 0;
      assert cards[0..] == cards;
      while i < |cards|
        invariant i <= |cards| && Valid()
        invariant listeners + ScanListeners(cards[i..], dblclickMarked, dropdownMarked)
               == old(listeners) + ScanListeners(cards, old(dblclickMarked), old(dropdownMarked))
        invariant dblclickMarked + ScannedButtons(cards[i..]) == old(dblclickMarked) + ScannedButtons(cards)
        invariant dropdownMarked + ScannedSummaries(cards[i..]) == old(dropdownMarked) + ScannedSummaries(cards)
      {
        assert cards[i..] == [cards[i]] + cards[i + 1..];
        assert cards[i..][0] == cards[i] && cards[i..][1..] == cards[i + 1..];
        WireCard(cards[i], cards[i + 1..]);
        i := i + 1;
      }
      assert cards[i..] == [];
      assert listeners + [] == listeners;
    }

    /** The dropdown observer's `click` listener, for a card whose scan built
        the list `buttons`: on a trusted click that finds no popover open, wait
        for the popover, merge its buttons into the list, and wire the new
        ones as dropdown buttons. An untrusted click, an open popover or a
        timed-out wait change nothing. */
    method OnDropdownClick(buttons: ButtonList, trusted: bool, alreadyOpen: bool,
                           popover: Option<seq<NodeId>>, connected: set<NodeId>)
      requires Valid()
      modifies this, buttons
      ensures Valid()
      ensures var proceeds := trusted && !alreadyOpen && popover.Some?;
        && buttons.items == (if proceeds then Collected(old(buttons.items), connected, popover.value) else old(buttons.items))
        && listeners == old(listeners)
             + (if proceeds then DblClickListeners(Unseen(buttons.items, old(dblclickMarked)), true) else [])
        && dblclickMarked == old(dblclickMarked) + (if proceeds then Elems(buttons.items) else {})
        && dropdownMarked == old(dropdownMarked)
    {
      if alreadyOpen || !trusted {
        return;
      }
      if popover.None? {
        return;
      }
      buttons.Collect(connected, popover.value);
      AddDoubleClickHandlers(buttons.items, true);
    }
  }

  /** The mutation-driven rescan: `scheduleScan` and the timeout it arms. */
  class Rescanner {
    const page: Page
    var pendingTimeout: Option<nat>   // the handle of the armed timeout, `null` when none
    ghost var armed: nat              // timeouts set and not yet fired

    ghost predicate Valid()
      reads this, page
    {
      page.Valid() && armed <= 1 && (armed == 1 <==> pendingTimeout.Some?)
    }

    /** Once the root is found: scan it, with no timeout pending. */
    constructor (page: Page, cards: seq<Card>)
      requires page.Valid()
      modifies page
      ensures Valid() && this.page == page && pendingTimeout == None
      ensures page.listeners == old(page.listeners) + ScanListeners(cards, old(page.dblclickMarked), old(page.dropdownMarked))
    {
      this.page := page;
      pendingTimeout := None;
      armed := 0;
      new;
      page.ScanCards(cards);
    }

    /** `scheduleScan()`, the mutation observer's callback: a no-op while a
        timeout is pending, otherwise arm one (`timer` is the handle
        `setTimeout` returns). */
    method ScheduleScan(timer: nat)
      requires Valid()
      modifies this
      ensures Valid()
      ensures old(pendingTimeout).Some? ==> pendingTimeout == old(pendingTimeout) && armed == old(armed)
      ensures old(pendingTimeout).None? ==> pendingTimeout == Some(timer) && armed == 1
    {
      if pendingTimeout.Some? {
        return;
      }
      pendingTimeout := Some(timer);
      armed := armed + 1;
    }

    /** The armed timeout fires: clear the handle, then rescan. */
    method TimeoutFires(cards: seq<Card>)
      requires Valid() && pendingTimeout.Some?
      modifies this, page
      ensures Valid() && pendingTimeout == None && armed == 0
      ensures page.listeners == old(page.listeners) + ScanListeners(cards, old(page.dblclickMarked), old(page.dropdownMarked))
      ensures page.dblclickMarked == old(page.dblclickMarked) + ScannedButtons(cards)
      ensures page.dropdownMarked == old(page.dropdownMarked) + ScannedSummaries(cards)
    {
      pendingTimeout := None;
      armed := armed - 1;
      page.ScanCards(cards);
    }
  }
}
