/** The key order of the tray's icon dictionary. A Python dict keeps its keys
    in insertion order; assigning to a key already present keeps its place,
    and deleting a key keeps the order of the others. This order is the
    left-to-right drawing order. */
module Registry {

  predicate Distinct(s: seq<int>)
  {
    forall i, j :: 0 <= i < j < |s| ==> s[i] != s[j]
  }

  /** The key order after `icons[wid] = icon`. */
  function Docked(order: seq<int>, wid: int): (r: seq<int>)
  {
    if wid in order then order else order + [wid]
  }

  /** The key order after `del icons[wid]`. */
  function Removed(order: seq<int>, wid: int): (r: seq<int>)
    ensures wid !in r && |r| <= |order| && forall x :: x in r ==> x in order
  {
    if order == [] then []
    else if order[0] == wid then Removed(order[1..], wid)
    else [order[0]] + Removed(order[1..], wid)
  }

  /** The position of a key that is present. */
  function IndexOf(order: seq<int>, wid: int): (i: nat)
    requires wid in order
    ensures i < |order| && order[i] == wid
    ensures forall j :: 0 <= j < i ==> order[j] != wid
  {
    if order[0] == wid then 0 else 1 + IndexOf(order[1..], wid)
  }

  /** Docking adds exactly `wid` to the keys and never creates a duplicate. A
      new key goes last; a key already present keeps its position and every
      other key stays where it was. */
  lemma DockedKeys(order: seq<int>, wid: int)
    requires Distinct(order)
    ensures var r := Docked(order, wid);
      && Distinct(r)
      && (forall x :: x in r <==> x in order || x == wid)
      && (wid !in order ==> |r| == |order| + 1 && r[|order|] == wid)
      && (wid in order ==> IndexOf(r, wid) == IndexOf(order, wid))
      && r[..|order|] == order
  {
  }

  lemma {:induction false} RemovedKeys(order: seq<int>, wid: int)
    ensures forall x :: x in Removed(order, wid) <==> x in order && x != wid
  {
    if order != [] {
      RemovedKeys(order[1..], wid);
    }
  }

  lemma {:induction false} RemovedAbsent(order: seq<int>, wid: int)
    requires wid !in order
    ensures Removed(order, wid) == order
  {
    if order != [] {
      RemovedAbsent(order[1..], wid);
    }
  }

  /** Deleting a present key from distinct keys cuts out exactly its position:
      the keys before and after it keep their relative order. */
  lemma {:induction false} RemovedAt(order: seq<int>, wid: int)
    requires Distinct(order) && wid in order
    ensures var i := IndexOf(order, wid);
      Removed(order, wid) == order[..i] + order[i + 1..]
  {
    if order[0] == wid {
      RemovedAbsent(order[1..], wid);
    } else {
      RemovedAt(order[1..], wid);
      assert order[1..][..IndexOf(order[1..], wid)] == order[1..IndexOf(order, wid)];
    }
  }

  lemma {:induction false} RemovedDistinct(order: seq<int>, wid: int)
    requires Distinct(order)
    ensures Distinct(Removed(order, wid))
  {
    if order != [] {
      var rest := Removed(order[1..], wid);
      RemovedDistinct(order[1..], wid);
      RemovedKeys(order[1..], wid);
      if order[0] != wid {
        assert order[0] !in order[1..] by {
          forall i | 0 <= i < |order| - 1 ensures order[1..][i] != order[0] {
            assert order[1..][i] == order[i + 1];
          }
        }
        var r := [order[0]] + rest;
        forall i, j | 0 <= i < j < |r| ensures r[i] != r[j] {
          assert r[j] == rest[j - 1];
          if i > 0 {
            assert r[i] == rest[i - 1];
          }
        }
      }
    }
  }

  /** Docking a new key and then removing it restores the previous order. */
  lemma DockThenRemove(order: seq<int>, wid: int)
    requires Distinct(order) && wid !in order
    ensures Removed(Docked(order, wid), wid) == order
  {
    assert Distinct(order + [wid]);
    RemovedAt(order + [wid], wid);
    assert (order + [wid])[..|order|] == order;
  }

  /** Distinct keys are as many as the set of keys they hold. */
  lemma {:induction false} DistinctCard(s: seq<int>)
    requires Distinct(s)
    ensures |set x | x in s| == |s|
  {
    if s != [] {
      var n := |s| - 1;
      DistinctCard(s[..n]);
      assert s == s[..n] + [s[n]];
      assert s[n] !in s[..n];
      assert (set x | x in s) == (set x | x in s[..n]) + {s[n]};
    }
  }

  /** The order after docking each id of `wids` in turn. */
  function DockedAll(order: seq<int>, wids: seq<int>): (r: seq<int>)
    decreases wids
  {
    if wids == [] then order else DockedAll(Docked(order, wids[0]), wids[1..])
  }

  /** N dock requests for distinct new ids yield exactly those N ids after
      the existing ones, in request order. */
  lemma {:induction false} DockedAllDistinct(order: seq<int>, wids: seq<int>)
    requires Distinct(order + wids)
    ensures DockedAll(order, wids) == order + wids
    decreases wids
  {
    if wids != [] {
      assert wids[0] == (order + wids)[|order|];
      assert wids[0] !in order by {
        forall i | 0 <= i < |order| ensures order[i] != wids[0] {
          assert order[i] == (order + wids)[i];
        }
      }
      assert order + [wids[0]] + wids[1..] == order + wids;
      DockedAllDistinct(order + [wids[0]], wids[1..]);
    }
  }
}
