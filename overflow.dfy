/** The overflow-indicator protocol: a legend whose series do not all fit shows
    a dropdown summary reading "And <N> more". The script recognises it with
    the regular expression `/And \d+ more/`, tested anywhere in the summary's
    text. */
module Overflow {

  predicate IsDigit(c: char)
  {
    '0' <= c <= '9'
  }

  /** `/And \d+ more/.test(text)`: a left-to-right search for a match. */
  function HasOverflowText(text: string): (r: bool)
  {
    MatchFrom(text, 0)
  }

  /** Some match starts at a position `i` or later. */
  function MatchFrom(text: string, i: nat): (r: bool)
    decreases |text| - i
  {
    i < |text| && (MatchAt(text, i) || MatchFrom(text, i + 1))
  }

  /** A match starts at `i`: "And ", a first digit, then the rest. */
  predicate MatchAt(text: string, i: nat)
  {
    i + 5 <= |text| && text[i..i + 4] == "And " && IsDigit(text[i + 4]) && DigitsThenMore(text, i + 5)
  }

  /** Skip the digits from `k` on, then " more" must follow. */
  predicate DigitsThenMore(text: string, k: nat)
    decreases |text| - k
  {
    if k < |text| && IsDigit(text[k]) then DigitsThenMore(text, k + 1)
    else k + 5 <= |text| && text[k..k + 5] == " more"
  }

  /** The pattern, stated declaratively: "And " at `i`, one or more digits
      from `i + 4` up to `j`, and " more" at `j`. */
  ghost predicate OccursAt(text: string, i: nat, j: nat)
  {
    && i + 4 < j
    && j + 5 <= |text|
    && text[i..i + 4] == "And "
    && (forall k :: i + 4 <= k < j ==> IsDigit(text[k]))
    && text[j..j + 5] == " more"
  }

  /** The search finds a match exactly when the pattern occurs somewhere in the text. */
  lemma OverflowTextSpec(text: string)
    ensures HasOverflowText(text) <==> exists i: nat, j: nat :: OccursAt(text, i, j)
  {
    MatchFromSpec(text, 0);
  }

  lemma {:induction false} MatchFromSpec(text: string, i: nat)
    ensures MatchFrom(text, i) <==> exists a: nat, j: nat :: i <= a && OccursAt(text, a, j)
    decreases |text| - i
  {
    if MatchFrom(text, i) {
      if MatchAt(text, i) {
        var j := DigitsThenMoreSound(text, i + 5);
        assert OccursAt(text, i, j);
      } else {
        MatchFromSpec(text, i + 1);
      }
    }
    if exists a: nat, j: nat :: i <= a && OccursAt(text, a, j) {
      var a: nat, j: nat :| i <= a && OccursAt(text, a, j);
      if a == i {
        DigitsThenMoreComplete(text, i + 5, j);
        assert MatchAt(text, i);
      } else {
        MatchFromSpec(text, i + 1);
        assert i + 1 <= a && OccursAt(text, a, j);
      }
    }
  }

  /** Where the digit run that `DigitsThenMore` skips ends. */
  lemma {:induction false} DigitsThenMoreSound(text: string, k: nat) returns (j: nat)
    requires DigitsThenMore(text, k)
    ensures k <= j && j + 5 <= |text| && text[j..j + 5] == " more"
    ensures forall m :: k <= m < j ==> IsDigit(text[m])
    decreases |text| - k
  {
    if k < |text| && IsDigit(text[k]) {
      j := DigitsThenMoreSound(text, k + 1);
    } else {
      j := k;
    }
  }

  lemma {:induction false} DigitsThenMoreComplete(text: string, k: nat, j: nat)
    requires k <= j && j + 5 <= |text| && text[j..j + 5] == " more"
    requires forall m :: k <= m < j ==> IsDigit(text[m])
    ensures DigitsThenMore(text, k)
    decreases j - k
  {
    if k < j {
      DigitsThenMoreComplete(text, k + 1, j);
    } else {
      assert text[k] == text[j..j + 5][0] == ' ';
    }
  }
}
