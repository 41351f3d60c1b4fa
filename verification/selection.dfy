/**
 * The per-pixel selection rule shared by every renderer: among candidate hits,
 * take the nearest valid one. The renderers never compute that directly; they
 * rank the candidates with jnp.argmax over a masked score (far - z) * valid,
 * or with jnp.argmin over z after overwriting invalid hits by a large
 * sentinel. Both tricks are proved here to agree with the direct definition
 * whenever some valid candidate is nearer than the constant.
 */
module Selection {

  datatype Option<T> = None | Some(value: T)

  /** One candidate hit along a ray: its depth z and whether it passed the face test. */
  datatype Candidate = Candidate(z: real, valid: bool)

  /**
   * jnp.argmax over a 1-D array: an index holding the maximum, and the first
   * such index when several entries tie.
   */
  function FirstArgMax(s: seq<real>): (k: nat)
    requires |s| > 0
    ensures k < |s|
    ensures forall i :: 0 <= i < |s| ==> s[i] <= s[k]
    ensures forall i :: 0 <= i < k ==> s[i] < s[k]
  {
    if |s| == 1 then 0
    else
      var k' := FirstArgMax(s[..|s| - 1]);
      if s[|s| - 1] > s[k'] then |s| - 1 else k'
  }

  /** jnp.argmin over a 1-D array: the first index holding the minimum. */
  function FirstArgMin(s: seq<real>): (k: nat)
    requires |s| > 0
    ensures k < |s|
    ensures forall i :: 0 <= i < |s| ==> s[k] <= s[i]
    ensures forall i :: 0 <= i < k ==> s[k] < s[i]
  {
    if |s| == 1 then 0
    else
      var k' := FirstArgMin(s[..|s| - 1]);
      if s[|s| - 1] < s[k'] then |s| - 1 else k'
  }

  predicate AnyValid(cs: seq<Candidate>) {
    exists i :: 0 <= i < |cs| && cs[i].valid
  }

  /** Some valid candidate lies strictly nearer than `bound`. */
  predicate AnyValidNearer(cs: seq<Candidate>, bound: real) {
    exists i :: 0 <= i < |cs| && cs[i].valid && cs[i].z < bound
  }

  /**
   * k is the intended winner: a valid candidate of least depth, and the first
   * index among valid candidates of that depth.
   */
  predicate IsNearestValid(cs: seq<Candidate>, k: nat) {
    && k < |cs|
    && cs[k].valid
    && (forall i :: 0 <= i < |cs| && cs[i].valid ==> cs[k].z <= cs[i].z)
    && (forall i :: 0 <= i < k && cs[i].valid ==> cs[k].z < cs[i].z)
  }

  /** The selection rule stated directly: None when nothing is valid. */
  function NearestValid(cs: seq<Candidate>): (r: Option<nat>)
    ensures r.None? <==> !AnyValid(cs)
    ensures r.Some? ==> IsNearestValid(cs, r.value)
  {
    if |cs| == 0 then None
    else
      var last := |cs| - 1;
      var r' := NearestValid(cs[..last]);
      assert forall i :: 0 <= i < last ==> cs[..last][i] == cs[i];
      if !cs[last].valid then r'
      else if r'.None? || cs[last].z < cs[r'.value].z then Some(last)
      else r'
  }

  /** At most one index is the nearest valid candidate. */
  lemma NearestValidUnique(cs: seq<Candidate>, k: nat, k': nat)
    requires IsNearestValid(cs, k) && IsNearestValid(cs, k')
    ensures k == k'
  {
  }

  /** The masked score (far - z) * valid, with the boolean read as 0.0 or 1.0. */
  function Scores(cs: seq<Candidate>, far: real): (s: seq<real>)
    ensures |s| == |cs|
  {
    seq(|cs|, i requires 0 <= i < |cs| => (far - cs[i].z) * (if cs[i].valid then 1.0 else 0.0))
  }

  /**
   * argmax of the masked score, as render_planes, render_planes_multiobject_rays
   * and render_cloud_at_pose select. It picks the nearest valid candidate
   * whenever one lies nearer than `far`, and index 0 when nothing is valid.
   * In every case it is the first index of greatest score; when every valid
   * candidate lies at depth >= far that can be an invalid candidate, and it
   * is index 0 whenever candidate 0 itself is invalid.
   */
  function MaskedArgMax(cs: seq<Candidate>, far: real): (k: nat)
    requires |cs| > 0
    ensures k < |cs|
    ensures AnyValidNearer(cs, far) ==> NearestValid(cs) == Some(k)
    ensures !AnyValid(cs) ==> k == 0
    ensures !AnyValidNearer(cs, far) && !cs[0].valid ==> k == 0
    ensures forall i :: 0 <= i < |cs| ==> Scores(cs, far)[i] <= Scores(cs, far)[k]
    ensures forall i :: 0 <= i < k ==> Scores(cs, far)[i] < Scores(cs, far)[k]
  {
    var s := Scores(cs, far);
    var k := FirstArgMax(s);
    if AnyValidNearer(cs, far) then
      MaskedWinner(cs, far, k);
      k
    else
      assert !AnyValid(cs) ==> s[0] == 0.0 && s[k] == 0.0;
      assert !cs[0].valid ==> s[0] == 0.0 && s[k] <= 0.0;
      k
  }

  /** The argmax of the masked score is the nearest valid candidate when one is nearer than far. */
  lemma MaskedWinner(cs: seq<Candidate>, far: real, k: nat)
    requires |cs| > 0
    requires AnyValidNearer(cs, far)
    requires k == FirstArgMax(Scores(cs, far))
    ensures NearestValid(cs) == Some(k)
  {
    var s := Scores(cs, far);
    var w :| 0 <= w < |cs| && cs[w].valid && cs[w].z < far;
    assert s[w] > 0.0;
    assert cs[k].valid by {
      assert s[w] <= s[k];
    }
    assert IsNearestValid(cs, k) by {
      forall i | 0 <= i < |cs| && cs[i].valid
        ensures cs[k].z <= cs[i].z
      {
        assert s[i] <= s[k];
      }
      forall i | 0 <= i < k && cs[i].valid
        ensures cs[k].z < cs[i].z
      {
        assert s[i] < s[k];
      }
    }
    var r := NearestValid(cs);
    NearestValidUnique(cs, r.value, k);
  }

  /** Depths with every invalid candidate overwritten by `sentinel`. */
  function SentinelDepths(cs: seq<Candidate>, sentinel: real): (s: seq<real>)
    ensures |s| == |cs|
  {
    seq(|cs|, i requires 0 <= i < |cs| => if cs[i].valid then cs[i].z else sentinel)
  }

  /**
   * argmin over depths with invalid candidates replaced by `sentinel`, as
   * render_planes_rays selects. It picks the nearest valid candidate whenever
   * one lies nearer than the sentinel; otherwise the chosen depth is at least
   * the sentinel, whether the candidate is valid or not.
   */
  function SentinelArgMin(cs: seq<Candidate>, sentinel: real): (k: nat)
    requires |cs| > 0
    ensures k < |cs|
    ensures AnyValidNearer(cs, sentinel) ==> NearestValid(cs) == Some(k)
    ensures AnyValidNearer(cs, sentinel) <==> SentinelDepths(cs, sentinel)[k] < sentinel
  {
    var k := FirstArgMin(SentinelDepths(cs, sentinel));
    if AnyValidNearer(cs, sentinel) then
      SentinelWinner(cs, sentinel, k);
      k
    else
      k
  }

  lemma SentinelWinner(cs: seq<Candidate>, sentinel: real, k: nat)
    requires |cs| > 0
    requires AnyValidNearer(cs, sentinel)
    requires k == FirstArgMin(SentinelDepths(cs, sentinel))
    ensures NearestValid(cs) == Some(k)
    ensures SentinelDepths(cs, sentinel)[k] < sentinel
  {
    var s := SentinelDepths(cs, sentinel);
    var w :| 0 <= w < |cs| && cs[w].valid && cs[w].z < sentinel;
    assert s[w] < sentinel;
    assert cs[k].valid by {
      assert s[k] <= s[w];
    }
    assert IsNearestValid(cs, k) by {
      forall i | 0 <= i < |cs| && cs[i].valid
        ensures cs[k].z <= cs[i].z
      {
        assert s[k] <= s[i];
      }
      forall i | 0 <= i < k && cs[i].valid
        ensures cs[k].z < cs[i].z
      {
        assert s[k] < s[i];
      }
    }
    var r := NearestValid(cs);
    NearestValidUnique(cs, r.value, k);
  }
}
