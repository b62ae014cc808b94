/** Case ids in ascending order, as `sorted` and `order_by` list them. */
module CaseOrder {

  import opened RunTables

  predicate Increasing(s: seq<CaseId>) {
    forall j, k | 0 <= j < k < |s| :: s[j] < s[k]
  }

  predicate IsLeast(x: CaseId, ids: set<CaseId>) {
    x in ids && forall y | y in ids :: x <= y
  }

  lemma LeastExtends(x: CaseId, z: CaseId, ids: set<CaseId>)
    requires z in ids && IsLeast(x, ids - {z})
    ensures IsLeast(if x <= z then x else z, ids)
  {
    forall y | y in ids ensures (if x <= z then x else z) <= y { assert y == z || y in ids - {z}; }
  }

  lemma {:induction false} LeastExists(ids: set<CaseId>)
    requires ids != {}
    ensures exists x :: IsLeast(x, ids)
  {
    var z :| z in ids;
    if ids == {z} {
      assert IsLeast(z, ids);
    } else {
      LeastExists(ids - {z});
      var x :| IsLeast(x, ids - {z});
      LeastExtends(x, z, ids);
    }
  }

  function Least(ids: set<CaseId>): (x: CaseId)
    requires ids != {}
    ensures IsLeast(x, ids)
  {
    LeastExists(ids);
    var x :| IsLeast(x, ids);
    x
  }

  function Ascending(ids: set<CaseId>): (s: seq<CaseId>)
    ensures |s| == |ids| && Increasing(s)
    ensures forall x :: x in s <==> x in ids
  {
    if ids == {} then []
    else
      var x := Least(ids);
      var rest := Ascending(ids - {x});
      assert forall k | 0 <= k < |rest| :: rest[k] in rest;
      [x] + rest
  }

  function Lookup(values: map<CaseId, real>, keys: seq<CaseId>): (r: seq<real>)
    requires forall k | 0 <= k < |keys| :: keys[k] in values
    ensures |r| == |keys| && forall k | 0 <= k < |keys| :: r[k] == values[keys[k]]
  {
    seq(|keys|, k requires 0 <= k < |keys| => values[keys[k]])
  }

  lemma NonEmptyHasMember(s: seq<CaseId>)
    ensures s != [] ==> exists x :: x in s
  {
    if s != [] { assert s[0] in s; }
  }

  /** Only one increasing list has given members. */
  lemma {:induction false} IncreasingUnique(a: seq<CaseId>, b: seq<CaseId>)
    requires Increasing(a) && Increasing(b) && forall x :: x in a <==> x in b
    ensures a == b
  {
    if a == [] {
      NonEmptyHasMember(b);
    } else {
      assert a[0] in a;
      assert a[0] in b && b[0] in a;
      assert a[0] == b[0];
      forall x ensures x in a[1..] <==> x in b[1..] {
        assert x in a[1..] ==> x in a && x > a[0];
        assert x in b[1..] ==> x in b && x > b[0];
      }
      IncreasingUnique(a[1..], b[1..]);
      assert a == [a[0]] + a[1..] && b == [b[0]] + b[1..];
    }
  }
}
