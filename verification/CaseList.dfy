/**
 The list of select cases of an event feed: searching, deleting by shifting, and deactivating by
 swapping with the last active case.  Lists hold the subscribed channels; a prefix is active.
 */
module CaseList {

  type Chan = nat

  predicate Distinct(cs: seq<Chan>) {
    forall i, j :: 0 <= i < j < |cs| ==> cs[i] != cs[j]
  }

  /** The index of a channel, or -1. */
  function Find(cs: seq<Chan>, ch: Chan): (r: int)
    ensures -1 <= r < |cs|
    ensures r >= 0 ==> cs[r] == ch
    ensures r == -1 <==> ch !in cs
  {
    if |cs| == 0 then -1
    else if cs[0] == ch then 0
    else var r := Find(cs[1..], ch); if r == -1 then -1 else r + 1
  }

  function Delete(cs: seq<Chan>, i: nat): seq<Chan>
    requires i < |cs|
  {
    cs[..i] + cs[i + 1..]
  }

  /** Swaps case `i` with the last of the first `active` cases. */
  function Deactivate(cs: seq<Chan>, active: nat, i: nat): seq<Chan>
    requires i < active <= |cs|
  {
    cs[i := cs[active - 1]][active - 1 := cs[i]]
  }

  lemma DeleteFacts(cs: seq<Chan>, i: nat)
    requires i < |cs| && Distinct(cs)
    ensures |Delete(cs, i)| == |cs| - 1 && Distinct(Delete(cs, i))
    ensures forall c :: c in Delete(cs, i) <==> c in cs && c != cs[i]
    ensures forall k: nat :: k <= i ==> Delete(cs, i)[..k] == cs[..k]
    ensures forall k: nat :: i < k <= |cs| ==> Delete(cs, i)[k - 1..] == cs[k..]
  {
    var d := Delete(cs, i);
    forall c ensures c in d <==> c in cs && c != cs[i] {
      if c in cs && c != cs[i] {
        var j :| 0 <= j < |cs| && cs[j] == c;
        assert d[if j < i then j else j - 1] == c;
      }
    }
  }

  /** Deleting removes exactly that channel. */
  lemma DeleteMembers(cs: seq<Chan>, i: nat)
    requires i < |cs| && Distinct(cs)
    ensures |Delete(cs, i)| == |cs| - 1 && Distinct(Delete(cs, i))
    ensures forall c :: c in Delete(cs, i) <==> c in cs && c != cs[i]
  {
    DeleteFacts(cs, i);
  }

  /** Deleting an active case shrinks the active part by exactly that case and leaves the rest inactive. */
  lemma DeleteActive(cs: seq<Chan>, i: nat, active: nat)
    requires i < active <= |cs| && Distinct(cs)
    ensures forall c :: c in Delete(cs, i)[..active - 1] <==> c in cs[..active] && c != cs[i]
    ensures Delete(cs, i)[active - 1..] == cs[active..]
  {
    DeleteFacts(cs, i);
    DeleteFacts(cs[..active], i);
    assert Delete(cs, i)[..active - 1] == Delete(cs[..active], i);
  }

  /** Deleting an inactive case leaves the active part alone. */
  lemma DeleteInactive(cs: seq<Chan>, i: nat, active: nat)
    requires active <= i < |cs| && Distinct(cs)
    ensures Delete(cs, i)[..active] == cs[..active]
    ensures forall c :: c in Delete(cs, i)[active..] <==> c in cs[active..] && c != cs[i]
  {
    DeleteFacts(cs, i);
    DeleteFacts(cs[active..], i - active);
    assert Delete(cs, i)[active..] == Delete(cs[active..], i - active);
  }

  /** Deactivating moves exactly one channel from the active to the inactive part. */
  lemma DeactivateFacts(cs: seq<Chan>, active: nat, i: nat)
    requires i < active <= |cs| && Distinct(cs)
    ensures var d := Deactivate(cs, active, i);
      && |d| == |cs| && Distinct(d)
      && (forall c :: c in d <==> c in cs)
      && (forall c :: c in d[..active - 1] <==> c in cs[..active] && c != cs[i])
      && (forall c :: c in d[active - 1..] <==> c in cs[active..] || c == cs[i])
  {
    var d := Deactivate(cs, active, i);
    DeactivateActive(cs, active, i);
    assert d[active - 1..] == [cs[i]] + cs[active..];
    forall c ensures c in d <==> c in cs {
      InParts(d, active - 1, c);
      InParts(cs, active, c);
      assert cs[..active][i] == cs[i];
    }
  }

  lemma DeactivateActive(cs: seq<Chan>, active: nat, i: nat)
    requires i < active <= |cs| && Distinct(cs)
    ensures forall c :: c in Deactivate(cs, active, i)[..active - 1] <==> c in cs[..active] && c != cs[i]
  {
    var d := Deactivate(cs, active, i);
    forall c ensures c in d[..active - 1] <==> c in cs[..active] && c != cs[i] {
      if c in cs[..active] && c != cs[i] {
        var j :| 0 <= j < active && cs[j] == c;
        assert d[..active - 1][if j == active - 1 then i else j] == c;
      }
    }
  }

  lemma InParts(cs: seq<Chan>, k: nat, c: Chan)
    requires k <= |cs|
    ensures c in cs <==> c in cs[..k] || c in cs[k..]
  {
    assert cs == cs[..k] + cs[k..];
  }
}
