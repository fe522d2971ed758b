/** The list of held snapshots: a circular doubly linked list (db/snapshot.h). */
module SnapshotLists {
  class Snapshot {
    const sequenceNumber: nat
    var prev: Snapshot?
    var next: Snapshot?

    constructor (sequenceNumber: nat)
      ensures this.sequenceNumber == sequenceNumber
    {
      this.sequenceNumber := sequenceNumber;
      prev, next := null, null;
    }
  }

  function NumbersOf(chain: seq<Snapshot>): (ns: seq<nat>)
    ensures |ns| == |chain| && forall i :: 0 <= i < |ns| ==> ns[i] == chain[i].sequenceNumber
  {
    seq(|chain|, i requires 0 <= i < |chain| => chain[i].sequenceNumber)
  }

  class SnapshotList {
    const head: Snapshot
    /** The held snapshots, oldest first. */
    ghost var chain: seq<Snapshot>

    constructor ()
      ensures Valid() && chain == [] && fresh(head)
    {
      head := new Snapshot(0);
      chain := [];
      new;
      head.prev := head;
      head.next := head;
    }

    /** The ring: the head stands before the first and after the last snapshot. */
    ghost function At(i: nat): Snapshot
      requires i <= |chain| + 1
      reads this
    {
      if i == 0 || i == |chain| + 1 then head else chain[i-1]
    }

    ghost predicate Linked(i: nat)
      requires i <= |chain|
      reads this, head, chain
    {
      At(i).next == At(i + 1) && At(i + 1).prev == At(i)
    }

    ghost predicate Valid()
      reads this, head, chain
    {
      && head !in chain
      && (forall i, j :: 0 <= i < j < |chain| ==> chain[i] != chain[j])
      && (forall i, j :: 0 <= i < j < |chain| ==> chain[i].sequenceNumber <= chain[j].sequenceNumber)
      && (forall i :: 0 <= i <= |chain| ==> Linked(i))
    }

    ghost function Numbers(): seq<nat>
      reads this, chain
    {
      NumbersOf(chain)
    }

    method Empty() returns (b: bool)
      requires Valid()
      ensures b <==> chain == []
    {
      assert Linked(0);
      b := head.next == head;
    }

    method Oldest() returns (s: Snapshot)
      requires Valid() && chain != []
      ensures s == chain[0] && forall i :: 0 <= i < |chain| ==> s.sequenceNumber <= chain[i].sequenceNumber
    {
      assert Linked(0);
      s := head.next;
    }

    method Newest() returns (s: Snapshot)
      requires Valid() && chain != []
      ensures s == chain[|chain|-1] && forall i :: 0 <= i < |chain| ==> chain[i].sequenceNumber <= s.sequenceNumber
    {
      assert Linked(|chain|);
      s := head.prev;
    }

    /** Appends a snapshot; sequence numbers never go down. */
    method New(sequenceNumber: nat) returns (s: Snapshot)
      requires Valid() && forall i :: 0 <= i < |chain| ==> chain[i].sequenceNumber <= sequenceNumber
      modifies this, head, chain
      ensures Valid() && fresh(s) && s.sequenceNumber == sequenceNumber
      ensures chain == old(chain) + [s] && Numbers() == old(Numbers()) + [sequenceNumber]
    {
      s := new Snapshot(sequenceNumber);
      ghost var n := |chain|;
      assert Linked(n);
      s.next := head;
      s.prev := head.prev;
      s.prev.next := s;
      s.next.prev := s;
      chain := chain + [s];
      forall i | 0 <= i <= |chain| ensures Linked(i) {
        if i < n {
          assert old(Linked(i));
        }
      }
    }

    lemma NumbersWithout(c: seq<Snapshot>, i: nat)
      requires i < |c|
      ensures NumbersOf(c[..i] + c[i+1..]) == NumbersOf(c)[..i] + NumbersOf(c)[i+1..]
    {
    }

    /** Unlinks a held snapshot from anywhere in the list. */
    method Delete(s: Snapshot, ghost i: nat)
      requires Valid() && i < |chain| && chain[i] == s
      modifies this, head, chain
      ensures Valid() && chain == old(chain)[..i] + old(chain)[i+1..]
      ensures Numbers() == old(Numbers())[..i] + old(Numbers())[i+1..]
    {
      NumbersWithout(chain, i);
      Unlink(s, i);
    }

    /** The neighbours of a snapshot now point past it. */
    method Splice(s: Snapshot, ghost i: nat)
      requires Valid() && i < |chain| && chain[i] == s
      modifies head, chain
      ensures chain == old(chain)
      ensures At(i).next == At(i + 2) && At(i + 2).prev == At(i)
      ensures forall k :: 0 <= k <= |chain| && k != i && k != i + 1 ==> Linked(k)
    {
      assert Linked(i) && Linked(i + 1);
      s.prev.next := s.next;
      s.next.prev := s.prev;
      forall k | 0 <= k <= |chain| && k != i && k != i + 1 ensures Linked(k) {
        assert old(Linked(k));
      }
    }

    method Unlink(s: Snapshot, ghost i: nat)
      requires Valid() && i < |chain| && chain[i] == s
      modifies this, head, chain
      ensures Valid() && chain == old(chain)[..i] + old(chain)[i+1..]
    {
      Splice(s, i);
      label spliced:
      chain := chain[..i] + chain[i+1..];
      forall j | 0 <= j <= |chain| ensures Linked(j) {
        if j != i {
          assert old@spliced(Linked(if j < i then j else j + 1));
        }
      }
    }
  }
}
