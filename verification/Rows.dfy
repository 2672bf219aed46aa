/** Row ids, and what a query makes of a set of them. */
module Rows {
  import opened Wrappers

  type Id = nat

  predicate Distinct(ids: seq<Id>) {
    forall i, j | 0 <= i < j < |ids| :: ids[i] != ids[j]
  }

  function Greatest(ids: set<Id>): (m: Id)
    requires ids != {}
    ensures m in ids && forall i <- ids :: i <= m
  {
    GreatestExists(ids);
    var m :| m in ids && forall i <- ids :: i <= m;
    m
  }

  lemma {:induction false} GreatestExists(ids: set<Id>)
    requires ids != {}
    ensures exists m :: m in ids && forall i <- ids :: i <= m
  {
    var one :| one in ids;
    var others := ids - {one};
    if others == {} {
      assert forall i <- ids :: i !in others;
    } else {
      GreatestExists(others);
      var rest :| rest in others && forall i <- others :: i <= rest;
      var m := if rest <= one then one else rest;
      forall i <- ids ensures i <= m { assert i == one || i in others; }
      assert m in ids;
    }
  }

  function Newest(ids: set<Id>): Option<Id> { if ids == {} then None else Some(Greatest(ids)) }

  /** The ids of a result ordered by id. */
  function InOrder(ids: set<Id>): (order: seq<Id>)
    ensures forall i :: i in order <==> i in ids
    ensures Distinct(order)
  {
    if ids == {} then [] else InOrder(ids - {Greatest(ids)}) + [Greatest(ids)]
  }

  lemma {:induction false} InOrderAscends(ids: set<Id>)
    ensures forall i, j | 0 <= i < j < |InOrder(ids)| :: InOrder(ids)[i] < InOrder(ids)[j]
  {
    if ids != {} {
      var m := Greatest(ids);
      InOrderAscends(ids - {m});
      var init := InOrder(ids - {m});
      assert InOrder(ids) == init + [m];
      assert forall i | 0 <= i < |init| :: init[i] in ids - {m};
    }
  }

  lemma {:induction false} SmallerSet<T>(a: set<T>, b: set<T>)
    requires a <= b
    ensures |a| <= |b| && (|a| == |b| ==> a == b)
  {
    if x :| x in a {
      SmallerSet(a - {x}, b - {x});
    }
  }
}
