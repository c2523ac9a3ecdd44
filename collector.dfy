/** The Button Collector (`collectButtons`): prune a list of button references
    of the entries no longer attached to the document, then append each button
    found in a popover that the list does not hold yet. */
module Collector {
  import opened Dom

  /** The entries of `s` still attached to the document, in their order. */
  function Pruned(s: seq<NodeId>, connected: set<NodeId>): (r: seq<NodeId>)
  {
    if s == [] then []
    else (if s[0] in connected then [s[0]] else []) + Pruned(s[1..], connected)
  }

  /** The entries of `found` that are not in `seen`, in query order, each kept
      the first time it is met: a `forEach` whose guard skips what is already
      present and which records each entry it takes. */
  function Unseen(found: seq<NodeId>, seen: set<NodeId>): (r: seq<NodeId>)
  {
    if found == [] then []
    else if found[0] in seen then Unseen(found[1..], seen)
    else [found[0]] + Unseen(found[1..], seen + {found[0]})
  }

  /** The list `collectButtons` leaves behind: the survivors, then the new buttons. */
  function Collected(s: seq<NodeId>, connected: set<NodeId>, found: seq<NodeId>): (r: seq<NodeId>)
  {
    var kept := Pruned(s, connected);
    kept + Unseen(found, Elems(kept))
  }

  /** Pruning keeps exactly the connected entries, in order, and adds no duplicate. */
  lemma {:induction false} PrunedSpec(s: seq<NodeId>, connected: set<NodeId>)
    ensures forall x :: x in Pruned(s, connected) <==> x in s && x in connected
    ensures IsSubseq(Pruned(s, connected), s)
    ensures NoDup(s) ==> NoDup(Pruned(s, connected))
  {
    if s != [] {
      var rest := Pruned(s[1..], connected);
      PrunedSpec(s[1..], connected);
      assert s == [s[0]] + s[1..];
      NoDupCons(s[0], s[1..]);
      if s[0] in connected {
        var r := [s[0]] + rest;
        assert r[0] == s[0] && r[1..] == rest;
        NoDupCons(s[0], rest);
      } else if rest != [] {
        assert Pruned(s, connected) == rest;
        assert IsSubseq(rest, s[1..]);
      }
    }
  }

  /** Pruning a list whose entries are all connected changes nothing. */
  lemma {:induction false} PrunedAllConnected(s: seq<NodeId>, connected: set<NodeId>)
    requires forall x :: x in s ==> x in connected
    ensures Pruned(s, connected) == s
  {
    if s != [] {
      PrunedAllConnected(s[1..], connected);
      assert s == [s[0]] + s[1..];
    }
  }

  /** The entries taken are exactly those of `found` not in `seen`, once each, in query order. */
  lemma {:induction false} UnseenSpec(found: seq<NodeId>, seen: set<NodeId>)
    ensures forall x :: x in Unseen(found, seen) <==> x in found && x !in seen
    ensures NoDup(Unseen(found, seen))
    ensures IsSubseq(Unseen(found, seen), found)
  {
    if found != [] {
      assert found == [found[0]] + found[1..];
      if found[0] in seen {
        UnseenSpec(found[1..], seen);
      } else {
        var rest := Unseen(found[1..], seen + {found[0]});
        UnseenSpec(found[1..], seen + {found[0]});
        NoDupCons(found[0], rest);
        var r := [found[0]] + rest;
        assert r[0] == found[0] && r[1..] == rest;
      }
    }
  }

  /** When everything found is already present, nothing is taken. */
  lemma {:induction false} UnseenAllSeen(found: seq<NodeId>, seen: set<NodeId>)
    requires forall x :: x in found ==> x in seen
    ensures Unseen(found, seen) == []
  {
    if found != [] {
      UnseenAllSeen(found[1..], seen);
    }
  }

  /** What `collectButtons` promises: the disconnected entries are gone, the
      survivors keep their relative order at the front, every button found is
      present, the new ones follow in query order, and a list without
      duplicates stays without duplicates. */
  lemma CollectedSpec(s: seq<NodeId>, connected: set<NodeId>, found: seq<NodeId>)
    ensures var r, k := Collected(s, connected, found), |Pruned(s, connected)|;
      && k <= |r|
      && (forall x :: x in r <==> (x in s && x in connected) || x in found)
      && (forall x :: x in r[..k] <==> x in s && x in connected)
      && IsSubseq(r[..k], s)
      && IsSubseq(r[k..], found)
      && (forall x :: x in r[k..] ==> x !in r[..k])
      && (NoDup(s) ==> NoDup(r))
  {
    var kept := Pruned(s, connected);
    var added := Unseen(found, Elems(kept));
    var r := kept + added;
    PrunedSpec(s, connected);
    UnseenSpec(found, Elems(kept));
    assert r[..|kept|] == kept && r[|kept|..] == added;
    if NoDup(s) {
      NoDupAppend(kept, added);
    }
  }

  /** A second `collectButtons` over the same popover, with connectivity
      unchanged, leaves the list as the first one left it. */
  lemma CollectIdempotent(s: seq<NodeId>, connected: set<NodeId>, found: seq<NodeId>)
    requires forall x :: x in found ==> x in connected
    ensures Collected(Collected(s, connected, found), connected, found) == Collected(s, connected, found)
  {
    var r := Collected(s, connected, found);
    CollectedSpec(s, connected, found);
    PrunedAllConnected(r, connected);
    UnseenAllSeen(found, Elems(r));
    assert r + [] == r;
  }

  /** A JavaScript array of button references, updated in place. */
  class ButtonList {
    var items: seq<NodeId>

    /** `Array.from(nodeList)` */
    constructor (initial: seq<NodeId>)
      ensures items == initial
    {
      items := initial;
    }

    /** `collectButtons(buttons, dialog)`: a backwards `splice` loop over the
        list, then a `push` for each button of `found` not yet `includes`d. */
    method Collect(connected: set<NodeId>, found: seq<NodeId>)
      modifies this
      ensures items == Collected(old(items), connected, found)
    {
      ghost var start := items;
      var i := |items|;
      while i > 0
        invariant 0 <= i <= |start|
        invariant items == start[..i] + Pruned(start[i..], connected)
      {
        i := i - 1;
        assert start[i..] == [start[i]] + start[i + 1..];
        assert items[..i] == start[..i] && items[i] == start[i];
        assert items[i + 1..] == Pruned(start[i + 1..], connected);
        if items[i] !in connected {
          items := items[..i] + items[i + 1..];
        }
      }
      assert start[..0] == [] && start[0..] == start;
      ghost var kept := items;
      assert kept == Pruned(start, connected);
      var j := 0;
      while j < |found|
        invariant j <= |found|
        invariant items + Unseen(found[j..], Elems(items)) == kept + Unseen(found, Elems(kept))
      {
        assert found[j..] == [found[j]] + found[j + 1..];
        if found[j] !in items {
          assert Elems(items + [found[j]]) == Elems(items) + {found[j]};
          items := items + [found[j]];
        }
        j := j + 1;
      }
      assert found[j..] == [];
      assert items + [] == items;
    }
  }
}
