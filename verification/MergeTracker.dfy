/**
 The merge tracker: a map from each hostile ID to the friendly IDs it is merged with. Every operation
 refines the same operation on a plain set of (hostile, friendly) pairs, and no row is ever empty.
 */
module MergeTracking {

  type Pair = (nat, nat)

  ghost function Pairs(rows: map<nat, set<nat>>): set<Pair> {
    set h, f | h in rows && f in rows[h] :: (h, f)
  }

  ghost predicate Distinct(s: seq<nat>) {
    forall i, j :: 0 <= i < j < |s| ==> s[i] != s[j]
  }

  ghost predicate HasRow(ps: set<Pair>, h: nat) {
    exists p :: p in ps && p.0 == h
  }

  ghost predicate Mentions(ps: set<Pair>, id: nat) {
    exists p :: p in ps && (p.0 == id || p.1 == id)
  }

  /** `remove` on pairs: an ID with a row loses the row; any other ID is struck from all rows. */
  ghost function WithoutID(ps: set<Pair>, id: nat): set<Pair> {
    if HasRow(ps, id) then set p | p in ps && p.0 != id else set p | p in ps && p.1 != id
  }

  /** After `remove`, the ID is gone exactly if it did not have both a row and a column. */
  lemma RemoveForgets(ps: set<Pair>, id: nat)
    ensures !Mentions(WithoutID(ps, id), id) <==> !(HasRow(ps, id) && exists p :: p in ps && p.0 != id && p.1 == id)
  {
    if HasRow(ps, id) && exists p :: p in ps && p.0 != id && p.1 == id {
      var p :| p in ps && p.0 != id && p.1 == id;
      assert p in WithoutID(ps, id);
    }
  }

  lemma RemoveForgetsWhenDisjoint(ps: set<Pair>, hostiles: set<nat>, friendlies: set<nat>, id: nat)
    requires hostiles !! friendlies
    requires forall p :: p in ps ==> p.0 in hostiles && p.1 in friendlies
    ensures !Mentions(WithoutID(ps, id), id)
  {
    RemoveForgets(ps, id);
  }

  class MergeTracker {
    var merged: map<nat, set<nat>>

    ghost predicate Valid()
      reads this
    {
      forall h :: h in merged ==> merged[h] != {}
    }

    constructor ()
      ensures Valid() && Pairs(merged) == {}
    {
      merged := map[];
    }

    method Merge(hostileID: nat, friendID: nat)
      requires Valid()
      modifies this
      ensures Valid()
      ensures Pairs(merged) == old(Pairs(merged)) + {(hostileID, friendID)}
    {
      var friendIDs := if hostileID in merged then merged[hostileID] else {};
      merged := merged[hostileID := friendIDs + {friendID}];
    }

    predicate IsMerged(hostileID: nat, friendID: nat)
      reads this
      ensures IsMerged(hostileID, friendID) <==> (hostileID, friendID) in Pairs(merged)
    {
      hostileID in merged && friendID in merged[hostileID]
    }

    method FriendliesMergedWith(hostileID: nat) returns (friendIDs: seq<nat>)
      requires Valid()
      ensures forall f :: f in friendIDs <==> (hostileID, f) in Pairs(merged)
      ensures Distinct(friendIDs)
      ensures friendIDs == [] <==> !HasRow(Pairs(merged), hostileID)
    {
      friendIDs := [];
      if hostileID !in merged {
        return;
      }
      var rest := merged[hostileID];
      ghost var f0 :| f0 in rest;
      assert (hostileID, f0) in Pairs(merged);
      while rest != {}
        invariant rest <= merged[hostileID]
        invariant forall f :: f in friendIDs <==> f in merged[hostileID] - rest
        invariant forall i, j :: 0 <= i < j < |friendIDs| ==> friendIDs[i] != friendIDs[j]
      {
        var f :| f in rest;
        assert f !in friendIDs;
        assert forall i :: 0 <= i < |friendIDs| ==> friendIDs[i] in friendIDs;
        friendIDs := friendIDs + [f];
        rest := rest - {f};
      }
    }

    method Separate(hostileID: nat, friendID: nat)
      requires Valid()
      modifies this
      ensures Valid()
      ensures Pairs(merged) == old(Pairs(merged)) - {(hostileID, friendID)}
    {
      if hostileID !in merged {
        return;
      }
      var friendIDs := merged[hostileID] - {friendID};
      if |friendIDs| == 0 {
        merged := merged - {hostileID};
      } else {
        merged := merged[hostileID := friendIDs];
      }
    }

    method Remove(id: nat)
      requires Valid()
      modifies this
      ensures Valid()
      ensures Pairs(merged) == WithoutID(old(Pairs(merged)), id)
    {
      RowsAreHeld(merged, id);
      if id in merged {
        merged := merged - {id};
      } else {
        var rest := merged.Keys;
        while rest != {}
          invariant Valid()
          invariant rest <= merged.Keys <= old(merged).Keys
          invariant forall h :: h in rest ==> merged[h] == old(merged)[h]
          invariant forall h :: h in old(merged) && h !in rest ==>
                                  if old(merged)[h] == {id} then h !in merged
                                  else h in merged && merged[h] == old(merged)[h] - {id}
        {
          var h :| h in rest;
          var friendIDs := merged[h] - {id};
          if |friendIDs| == 0 {
            merged := merged - {h};
          } else {
            merged := merged[h := friendIDs];
          }
          rest := rest - {h};
        }
        PointwiseEqual(Pairs(merged), WithoutID(old(Pairs(merged)), id));
      }
    }

    method Keep(idsToKeep: seq<nat>)
      requires Valid()
      modifies this
      ensures Valid()
      ensures Pairs(merged) == set p | p in old(Pairs(merged)) && p.0 in idsToKeep
    {
      var rest := merged.Keys;
      while rest != {}
        invariant Valid()
        invariant rest <= merged.Keys <= old(merged).Keys
        invariant forall h :: h in merged ==> merged[h] == old(merged)[h]
        invariant forall h :: h in old(merged) && h !in rest ==> (h in merged <==> h in idsToKeep)
      {
        var h :| h in rest;
        if h !in idsToKeep {
          merged := merged - {h};
        }
        rest := rest - {h};
      }
    }

    method Reset()
      modifies this
      ensures Valid()
      ensures Pairs(merged) == {}
    {
      merged := map[];
    }
  }

  lemma RowsAreHeld(rows: map<nat, set<nat>>, h: nat)
    requires forall a :: a in rows ==> rows[a] != {}
    ensures h in rows <==> HasRow(Pairs(rows), h)
  {
    if h in rows {
      var f :| f in rows[h];
      assert (h, f) in Pairs(rows);
    }
  }

  lemma PointwiseEqual(a: set<Pair>, b: set<Pair>)
    requires forall h, f :: (h, f) in a <==> (h, f) in b
    ensures a == b
  {
    forall p ensures p in a <==> p in b {
      assert p == (p.0, p.1);
    }
  }
}
