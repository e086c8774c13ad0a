/**
 * Python's `d[k] = v` performed for a list of pairs in order, the way both
 * lookup tables of the importer are filled: a later pair overwrites an
 * earlier one with the same key.
 */
module Dict {

  type Entries = seq<(string, string)>

  /** True when no pair after position `i` has the key of pair `i`: pair `i`
      is the one whose value survives. */
  ghost predicate LastFor(ps: Entries, i: int)
    requires 0 <= i < |ps|
  {
    forall j :: i < j < |ps| ==> ps[j].0 != ps[i].0
  }

  ghost function KeysOf(ps: Entries): set<string>
  {
    set i | 0 <= i < |ps| :: ps[i].0
  }

  /** Assigns every pair of `ps`, first to last, into `m`. */
  function Assign(m: map<string, string>, ps: Entries): (r: map<string, string>)
    ensures r.Keys == m.Keys + KeysOf(ps)
    ensures forall i :: 0 <= i < |ps| && LastFor(ps, i) ==> ps[i].0 in r && r[ps[i].0] == ps[i].1
    ensures forall k :: k in m && k !in KeysOf(ps) ==> r[k] == m[k]
    decreases |ps|
  {
    if |ps| == 0 then m
    else
      var r := Assign(m[ps[0].0 := ps[0].1], ps[1..]);
      KeysOfCons(ps);
      LastForTail(ps);
      r
  }

  /** The keys of a non-empty list are its first key and the rest's keys;
      a first key that never recurs is not among the rest's. */
  lemma KeysOfCons(ps: Entries)
    requires |ps| > 0
    ensures KeysOf(ps) == {ps[0].0} + KeysOf(ps[1..])
    ensures LastFor(ps, 0) ==> ps[0].0 !in KeysOf(ps[1..])
  {
    forall k | k in KeysOf(ps) ensures k in {ps[0].0} + KeysOf(ps[1..]) {
      var i :| 0 <= i < |ps| && ps[i].0 == k;
      if i > 0 { assert ps[1..][i - 1] == ps[i]; }
    }
    forall k | k in KeysOf(ps[1..]) ensures k in KeysOf(ps) && (LastFor(ps, 0) ==> k != ps[0].0) {
      var i :| 0 <= i < |ps[1..]| && ps[1..][i].0 == k;
      assert ps[i + 1] == ps[1..][i];
    }
  }

  /** The pair that survives among the later pairs still survives once the
      first pair is dropped. */
  lemma LastForTail(ps: Entries)
    requires |ps| > 0
    ensures forall i :: 0 < i < |ps| && LastFor(ps, i) ==> LastFor(ps[1..], i - 1)
  {
    forall i | 0 < i < |ps| && LastFor(ps, i) ensures LastFor(ps[1..], i - 1) {
      forall j | i - 1 < j < |ps| - 1 ensures ps[1..][j].0 != ps[1..][i - 1].0 {
        assert ps[1..][j] == ps[j + 1];
      }
    }
  }

}
