/** Packet identifiers (libs/codec/src/packet_id_allocator.rs): 1 to 65535, round and round. */
module PacketIds {
  import opened Types

  const IDS: nat := 0xFFFF

  function NextId(id: NonZeroU16): NonZeroU16 {
    if id == IDS then 1 else id + 1
  }

  class PacketIdAllocator {
    var next: NonZeroU16

    constructor ()
      ensures next == 1
    {
      next := 1;
    }

    method Take() returns (id: NonZeroU16)
      modifies this
      ensures id == old(next) && next == NextId(old(next))
    {
      id := next;
      if next == IDS {
        next := 1;
      } else {
        next := next + 1;
      }
    }

    method Reset()
      modifies this
      ensures next == 1
    {
      next := 1;
    }
  }

  /** The identifier that was handed out n takes before `next`. */
  function Back(next: NonZeroU16, n: nat): NonZeroU16 {
    (next - 1 - n) % IDS + 1
  }

  lemma BackOfNext(next: NonZeroU16, n: nat)
    ensures Back(NextId(next), n + 1) == Back(next, n)
    ensures Back(NextId(next), 1) == next
  {
    if next == IDS {
      assert (0 - (n + 1)) % IDS == (IDS - 1 - n) % IDS by {
        assert IDS - 1 - n == (0 - (n + 1)) + IDS;
      }
    }
  }

  lemma BackAgain(next: NonZeroU16, a: nat, b: nat)
    requires a < b
    ensures Back(next, a) == Back(next, b) <==> (b - a) % IDS == 0
  {
    var x, y := next - 1 - a, next - 1 - b;
    var k := (b - a) / IDS;
    if (b - a) % IDS == 0 {
      assert x == y + k * IDS;
      ModPlus(y, k);
    }
    if Back(next, a) == Back(next, b) {
      assert x % IDS == y % IDS;
      assert b - a == x - y == (x / IDS - y / IDS) * IDS;
      ModPlus(0, x / IDS - y / IDS);
    }
  }

  lemma {:induction false} ModPlus(x: int, k: int)
    ensures (x + k * IDS) % IDS == x % IDS
    decreases if k < 0 then -k else k
  {
    if k > 0 {
      ModPlus(x, k - 1);
      assert x + k * IDS == (x + (k - 1) * IDS) + IDS;
    } else if k < 0 {
      ModPlus(x, k + 1);
      assert x + k * IDS == (x + (k + 1) * IDS) - IDS;
    }
  }

  /** A run of identifiers, the newest one step back, that ends just before `next`. */
  ghost predicate Window(ids: seq<Option<NonZeroU16>>, next: NonZeroU16) {
    forall i | 0 <= i < |ids| :: ids[i] == Some(Back(next, |ids| - i))
  }

  lemma WindowTaken(ids: seq<Option<NonZeroU16>>, next: NonZeroU16)
    requires Window(ids, next)
    ensures Window(ids + [Some(next)], NextId(next))
  {
    BackOfNext(next, 0);
    forall i | 0 <= i < |ids| ensures ids[i] == Some(Back(NextId(next), |ids| + 1 - i)) {
      BackOfNext(next, |ids| - i);
    }
  }

  lemma WindowReleased(ids: seq<Option<NonZeroU16>>, next: NonZeroU16)
    requires Window(ids, next) && ids != []
    ensures Window(ids[1..], next)
  {
  }

  /** The identifiers of a window differ from one another exactly when there are no more of them
      than there are identifiers. */
  lemma WindowDistinctIff(ids: seq<Option<NonZeroU16>>, next: NonZeroU16)
    requires Window(ids, next)
    ensures (forall i, j | 0 <= i < j < |ids| :: ids[i] != ids[j]) <==> |ids| <= IDS
  {
    if |ids| <= IDS {
      forall i, j | 0 <= i < j < |ids| ensures ids[i] != ids[j] {
        BackAgain(next, |ids| - j, |ids| - i);
        assert 0 < j - i < IDS;
      }
    } else {
      BackAgain(next, |ids| - IDS, |ids|);
      assert ids[0] == ids[IDS];
    }
  }
}
