/** The receiver's growing array of chunk hashes. */
module ChunkTables {
  import opened Digests

  class ChunkTable {
    var slots: array<Digest>
    var num: nat

    ghost predicate Valid() reads this { num <= slots.Length }

    /** The hashes stored so far. */
    ghost function Stored(): (s: seq<Digest>)
      requires Valid()
      reads this, slots
    {
      slots[..num]
    }

    /** The table as the metadata phase left it, its count reset to zero. */
    constructor (announced: seq<Digest>)
      ensures Valid() && fresh(slots) && slots.Length == |announced| && Stored() == []
    {
      var s := new Digest[|announced|](i requires 0 <= i < |announced| => announced[i]);
      slots, num := s, 0;
    }

    /** Store one more hash; a full array is first moved to one twice as long (sixteen slots if it had none). */
    method Append(hash: Digest)
      requires Valid()
      modifies this, slots
      ensures Valid() && (slots == old(slots) || fresh(slots))
      ensures Stored() == old(Stored()) + [hash] && num == old(num) + 1
      ensures slots.Length == if old(num) < old(slots.Length) then old(slots.Length)
                              else if old(slots.Length) == 0 then 16 else 2 * old(slots.Length)
    {
      if num >= slots.Length {
        var newCap := if slots.Length > 0 then slots.Length * 2 else 16;
        var bigger := new Digest[newCap];
        forall i | 0 <= i < num {
          bigger[i] := slots[i];
        }
        assert bigger[..num] == slots[..num];
        slots := bigger;
      }
      slots[num] := hash;
      num := num + 1;
    }
  }
}
