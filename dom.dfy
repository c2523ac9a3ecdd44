/** Shared vocabulary: DOM elements as abstract ids, their accessible labels,
    and facts about sequences of element references. */
module Dom {

  /** A DOM element, identified by reference identity. */
  type NodeId = nat

  datatype Option<+T> = None | Some(value: T)

  /** The two accessible labels a legend toggle button can carry. */
  const ShowSeries: string := "Show series"
  const HideSeries: string := "Hide series"

  /** `b.getAttribute('aria-label') === text`; an absent attribute (`null`) equals no string. */
  predicate LabelIs(labels: map<NodeId, string>, b: NodeId, text: string)
  {
    b in labels && labels[b] == text
  }

  /** The set of references held by a list. */
  function Elems(s: seq<NodeId>): (r: set<NodeId>)
  {
    set x | x in s
  }

  /** No reference occurs twice. */
  ghost predicate NoDup(s: seq<NodeId>)
  {
    forall i, j :: 0 <= i < j < |s| ==> s[i] != s[j]
  }

  /** `t` is `s` with some entries removed and the rest in their original order. */
  ghost predicate IsSubseq(t: seq<NodeId>, s: seq<NodeId>)
    decreases |s|
  {
    if t == [] then true
    else if s == [] then false
    else (t[0] == s[0] && IsSubseq(t[1..], s[1..])) || IsSubseq(t, s[1..])
  }

  lemma NoDupCons(x: NodeId, s: seq<NodeId>)
    ensures NoDup([x] + s) <==> x !in s && NoDup(s)
  {
    var t := [x] + s;
    if NoDup(t) {
      forall i, j | 0 <= i < j < |s| ensures s[i] != s[j] {
        assert t[i + 1] == s[i] && t[j + 1] == s[j];
      }
      forall k | 0 <= k < |s| ensures s[k] != x {
        assert t[0] == x && t[k + 1] == s[k];
      }
    }
  }

  lemma NoDupAppend(s: seq<NodeId>, u: seq<NodeId>)
    requires NoDup(s) && NoDup(u)
    requires forall x :: x in u ==> x !in s
    ensures NoDup(s + u)
  {
    var t := s + u;
    forall i, j | 0 <= i < j < |t| ensures t[i] != t[j] {
      if j < |s| {
      } else if i >= |s| {
        assert t[i] == u[i - |s|] && t[j] == u[j - |s|];
      } else {
        assert t[j] == u[j - |s|];
        assert t[j] in u;
      }
    }
  }
}
