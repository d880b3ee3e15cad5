/** The lexicographic order in which equipment is sent and written. */
module EquipmentOrder {
  import opened StfModel
  import opened StfStreams

  predicate Less(a: Equipment, b: Equipment) {
    || a.desc < b.desc
    || (a.desc == b.desc && a.origin < b.origin)
    || (a.desc == b.desc && a.origin == b.origin && a.subSpec < b.subSpec)
  }

  ghost predicate Ascending(order: seq<Equipment>) {
    forall i, j | 0 <= i < j < |order| :: Less(order[i], order[j])
  }

  /** There is one ascending order, so equal sub-time-frames are sent as equal streams. */
  lemma {:induction false} AscendingUnique(a: seq<Equipment>, b: seq<Equipment>)
    requires Ascending(a) && Ascending(b) && forall e :: e in a <==> e in b
    ensures a == b
    decreases |a|
  {
    assert a != [] ==> a[0] in a && a[0] in b;
    assert b != [] ==> b[0] in b && b[0] in a;
    if a != [] {
      assert a[0] == b[0];
      forall e ensures e in a[1..] <==> e in b[1..] {
        assert e in a <==> e == a[0] || e in a[1..];
        assert e in b <==> e == b[0] || e in b[1..];
      }
      AscendingUnique(a[1..], b[1..]);
      assert a == [a[0]] + a[1..] && b == [b[0]] + b[1..];
    }
  }

  lemma {:induction false} LessOrders(a: Equipment, b: Equipment, c: Equipment)
    ensures a == b || Less(a, b) || Less(b, a)
    ensures Less(a, b) && Less(b, c) ==> Less(a, c)
  {
  }

  function Insert(order: seq<Equipment>, e: Equipment): (r: seq<Equipment>)
    requires Ascending(order) && e !in order
    ensures Ascending(r) && |r| == |order| + 1 && forall f :: f in r <==> f in order || f == e
  {
    if order == [] || Less(e, order[0]) then
      InsertFirst(order, e);
      [e] + order
    else
      InsertLater(order, e, Insert(order[1..], e));
      [order[0]] + Insert(order[1..], e)
  }

  lemma {:induction false} InsertFirst(order: seq<Equipment>, e: Equipment)
    requires Ascending(order) && (order == [] || Less(e, order[0]))
    ensures Ascending([e] + order)
  {
    hide Less;
    forall j | 0 <= j < |order| ensures Less(e, order[j]) {
      if j > 0 { LessOrders(e, order[0], order[j]); }
    }
  }

  lemma {:induction false} InsertLater(order: seq<Equipment>, e: Equipment, rest: seq<Equipment>)
    requires Ascending(order) && order != [] && !Less(e, order[0]) && e !in order
    requires Ascending(rest) && forall f :: f in rest <==> f in order[1..] || f == e
    ensures Ascending([order[0]] + rest)
  {
    LessOrders(order[0], e, e);
    hide Less;
    assert order[0] in order;
    forall f | f in rest ensures Less(order[0], f) {
      if f in order[1..] {
        var j :| 0 <= j < |order[1..]| && order[1..][j] == f;
        assert order[j + 1] == f;
      }
    }
  }

  method SortEquipment(ids: seq<Equipment>) returns (r: seq<Equipment>)
    requires forall i, j | 0 <= i < j < |ids| :: ids[i] != ids[j]
    ensures Ascending(r) && forall e :: e in r <==> e in ids
  {
    r := [];
    for i := 0 to |ids|
      invariant Ascending(r)
      invariant forall e :: e in r <==> e in ids[..i]
    {
      assert ids[..i + 1] == ids[..i] + [ids[i]];
      r := Insert(r, ids[i]);
    }
    assert ids[..|ids|] == ids;
  }

  /** The equipment of a sub-time-frame in the order in which it is sent and written. */
  ghost function InOrder(data: StfData): (order: seq<Equipment>)
    ensures Ascending(order) && |order| == |data| && forall e :: e in order <==> e in data
    decreases |data|
  {
    if data == map[] then []
    else
      var e :| e in data;
      Insert(InOrder(data - {e}), e)
  }

  lemma {:induction false} AscendingEnumerates(order: seq<Equipment>, data: StfData)
    requires Ascending(order) && forall e :: e in order <==> e in data
    ensures Enumerates(order, data)
  {
  }
}
