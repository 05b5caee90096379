/** The write-back block cache of fs/bcache.c over a disk of 512-byte sectors. ATA transfers
    always succeed here, because the cache never looks at their result. */
module BlockCache {
  import opened Bytes

  const SLOTS := 32
  const BLOCK_SIZE := 512

  type Block = b: seq<Byte> | |b| == BLOCK_SIZE witness Zeros(BLOCK_SIZE)

  datatype Slot = Slot(blk: nat, valid: bool, dirty: bool, data: Block)

  predicate Holds(s: Slot, blk: nat)
  {
    s.valid && s.blk == blk
  }

  /** Slots and disk together stand for the plain block map `logical`: no block sits in two
      valid slots, a valid slot holds the logical bytes, a clean one agrees with the disk, and
      a block in no slot is read from the disk. */
  ghost predicate Coherent(slots: seq<Slot>, disk: seq<Block>, logical: seq<Block>)
  {
    && |logical| == |disk|
    && (forall i :: 0 <= i < |slots| && slots[i].valid ==>
          slots[i].blk < |disk| && logical[slots[i].blk] == slots[i].data)
    && (forall i :: 0 <= i < |slots| && slots[i].valid && !slots[i].dirty ==>
          slots[i].blk < |disk| && disk[slots[i].blk] == slots[i].data)
    && (forall i, j :: 0 <= i < j < |slots| && slots[i].valid && slots[j].valid ==> slots[i].blk != slots[j].blk)
    && (forall b :: 0 <= b < |disk| && disk[b] != logical[b] ==> exists i :: 0 <= i < |slots| && Holds(slots[i], b))
  }

  /** The block map is not a choice: slots and disk determine it. */
  lemma CoherentDetermines(slots: seq<Slot>, disk: seq<Block>, l: seq<Block>, m: seq<Block>)
    requires Coherent(slots, disk, l) && Coherent(slots, disk, m)
    ensures l == m
  {
    forall b | 0 <= b < |disk|
      ensures l[b] == m[b]
    {
      if i :| 0 <= i < |slots| && Holds(slots[i], b) {
        assert l[slots[i].blk] == slots[i].data;
      } else {
        assert disk[b] == l[b] && disk[b] == m[b];
      }
    }
  }

  /** Giving slot `s` to block `blk` changes the map at `blk` alone, provided the slot held `blk` already
      or no slot did and the block the slot gives up is safe on disk. */
  lemma Fill(slots: seq<Slot>, disk: seq<Block>, logical: seq<Block>, s: nat, blk: nat, dirty: bool, data: Block)
    requires Coherent(slots, disk, logical) && s < |slots| && blk < |disk|
    requires slots[s].valid && slots[s].blk != blk ==> disk[slots[s].blk] == logical[slots[s].blk]
    requires forall i :: 0 <= i < |slots| && i != s ==> !Holds(slots[i], blk)
    requires !dirty ==> disk[blk] == data
    ensures Coherent(slots[s := Slot(blk, true, dirty, data)], disk, logical[blk := data])
  {
    var slots' := slots[s := Slot(blk, true, dirty, data)];
    forall b | 0 <= b < |disk| && disk[b] != logical[blk := data][b]
      ensures exists i :: 0 <= i < |slots'| && Holds(slots'[i], b)
    {
      if b == blk {
        assert Holds(slots'[s], b);
      } else {
        var i :| 0 <= i < |slots| && Holds(slots[i], b);
        assert Holds(slots'[i], b);
      }
    }
  }

  /** Writing a slot's bytes to its sector leaves the map alone, whether or not the slot is then
      marked clean. */
  lemma Flush(slots: seq<Slot>, disk: seq<Block>, logical: seq<Block>, s: nat, dirty: bool)
    requires Coherent(slots, disk, logical) && s < |slots| && slots[s].valid
    ensures Coherent(slots[s := slots[s].(dirty := dirty)], disk[slots[s].blk := slots[s].data], logical)
  {
    var slots', disk' := slots[s := slots[s].(dirty := dirty)], disk[slots[s].blk := slots[s].data];
    forall b | 0 <= b < |disk| && disk'[b] != logical[b]
      ensures exists i :: 0 <= i < |slots'| && Holds(slots'[i], b)
    {
      var i :| 0 <= i < |slots| && Holds(slots[i], b);
      assert Holds(slots'[i], b);
    }
  }

  /** What the cache's callers can do to it. */
  datatype Op = Read(blk: nat) | Write(blk: nat, data: Block) | Sync

  predicate InRange(ops: seq<Op>, n: nat)
  {
    forall i :: 0 <= i < |ops| && !ops[i].Sync? ==> ops[i].blk < n
  }

  /** A plain array of blocks running the same operations: the contents it ends with. */
  function PlainState(m: seq<Block>, ops: seq<Op>): (r: seq<Block>)
    requires InRange(ops, |m|)
    ensures |r| == |m|
  {
    if ops == [] then m
    else
      var before := PlainState(m, ops[..|ops| - 1]);
      var op := ops[|ops| - 1];
      if op.Write? then before[op.blk := op.data] else before
  }

  /** ... and what its reads return. */
  function PlainReads(m: seq<Block>, ops: seq<Op>): seq<Block>
    requires InRange(ops, |m|)
  {
    if ops == [] then []
    else
      var init := ops[..|ops| - 1];
      var op := ops[|ops| - 1];
      PlainReads(m, init) + if op.Read? then [PlainState(m, init)[op.blk]] else []
  }

  /** The values block `b` may have on disk after `ops`, if the cache is lost then: the value of the
      last sync (`base` if there was none) or one written since. */
  function Survivors(m: seq<Block>, base: set<Block>, ops: seq<Op>, b: nat): set<Block>
    requires InRange(ops, |m|) && b < |m|
  {
    if ops == [] then base
    else
      var init := ops[..|ops| - 1];
      match ops[|ops| - 1]
      case Sync => {PlainState(m, init)[b]}
      case Write(c, data) => Survivors(m, base, init, b) + if c == b then {data} else {}
      case Read(_) => Survivors(m, base, init, b)
  }

  ghost function Singletons(m: seq<Block>): (r: seq<set<Block>>)
    ensures |r| == |m| && forall b :: 0 <= b < |m| ==> r[b] == {m[b]}
  {
    seq(|m|, b requires 0 <= b < |m| => {m[b]})
  }

  class Cache {
    const slots: array<Slot>
    var hand: nat
    var hits: U32
    var misses: U32
    var disk: seq<Block>
    /** The block map that slots and disk stand for. */
    ghost var logical: seq<Block>
    /** For each block, its value at the last sync and every value written to it since. */
    ghost var since: seq<set<Block>>

    ghost predicate Valid()
      reads this, slots
    {
      && slots.Length == SLOTS
      && hand < SLOTS
      && Coherent(slots[..], disk, logical)
      && |since| == |disk|
      && (forall b :: 0 <= b < |disk| ==> disk[b] in since[b] && logical[b] in since[b])
    }

    /** Power-on: the disk as found, the slots empty. */
    constructor (disk: seq<Block>)
      ensures Valid() && fresh(slots)
      ensures this.disk == disk && logical == disk
      ensures hits == 0 && misses == 0 && hand == 0
    {
      this.disk := disk;
      logical := disk;
      since := Singletons(disk);
      slots := new Slot[SLOTS](_ => Slot(0, false, false, Zeros(BLOCK_SIZE)));
      hand, hits, misses := 0, 0, 0;
    }

    /** bcache_init: forget every slot; the disk alone is the block map from here on. */
    method Init()
      requires slots.Length == SLOTS
      modifies this, slots
      ensures Valid()
      ensures disk == old(disk) && logical == disk
      ensures forall b :: 0 <= b < |disk| ==> since[b] == {disk[b]}
    {
      for i := 0 to SLOTS
        invariant forall j :: 0 <= j < i ==> !slots[j].valid
        invariant disk == old(disk)
      {
        slots[i] := slots[i].(valid := false, dirty := false);
      }
      hand, hits, misses := 0, 0, 0;
      logical := disk;
      since := Singletons(disk);
    }

    /** Some slot holds the block. */
    ghost predicate Cached(blk: nat)
      reads this, slots
    {
      exists i :: 0 <= i < slots.Length && Holds(slots[i], blk)
    }

    method Find(blk: nat) returns (s: int)
      requires Valid()
      ensures -1 <= s < SLOTS && (s >= 0 <==> Cached(blk))
      ensures s >= 0 ==> Holds(slots[s], blk)
      ensures s < 0 ==> forall i :: 0 <= i < SLOTS ==> !Holds(slots[i], blk)
    {
      for i := 0 to SLOTS
        invariant forall j :: 0 <= j < i ==> !Holds(slots[j], blk)
      {
        if slots[i].valid && slots[i].blk == blk { return i; }
      }
      return -1;
    }

    /** Round-robin choice of the slot to reuse. A dirty victim reaches the disk first, so that
        dropping the slot afterwards loses nothing. */
    method Evict() returns (s: nat)
      requires Valid()
      modifies this`hand, this`disk
      ensures Valid() && s == old(hand) && hand == (old(hand) + 1) % SLOTS
      ensures slots[s].valid ==> slots[s].blk < |old(disk)| && disk[slots[s].blk] == logical[slots[s].blk]
      ensures disk == if slots[s].valid && slots[s].dirty then old(disk)[slots[s].blk := slots[s].data] else old(disk)
    {
      s := hand;
      hand := (hand + 1) % SLOTS;
      if slots[s].valid && slots[s].dirty {
        Flush(slots[..], disk, logical, s, true);
        assert slots[..] == slots[..][s := slots[s]];
        disk := disk[slots[s].blk := slots[s].data];
      }
    }

    method Read(blk: nat) returns (buf: Block)
      requires Valid() && blk < |logical|
      modifies this, slots
      ensures Valid()
      ensures logical == old(logical) && since == old(since)
      ensures buf == logical[blk]
      ensures |disk| == |old(disk)|
      ensures hits == if old(Cached(blk)) then (old(hits) + 1) % U32_LIMIT else old(hits)
      ensures misses == if old(Cached(blk)) then old(misses) else (old(misses) + 1) % U32_LIMIT
    {
      var s := Find(blk);
      if s >= 0 {
        hits := (hits + 1) % U32_LIMIT;
      } else {
        misses := (misses + 1) % U32_LIMIT;
        s := Evict();
        assert disk[blk] == logical[blk];
        Fill(slots[..], disk, logical, s, blk, false, disk[blk]);
        ghost var before := slots[..];
        slots[s] := Slot(blk, true, false, disk[blk]);
        assert slots[..] == before[s := slots[s]] && logical == logical[blk := disk[blk]];
      }
      buf := slots[s].data;
    }

    method Write(blk: nat, buf: Block)
      requires Valid() && blk < |logical|
      modifies this, slots
      ensures Valid()
      ensures logical == old(logical)[blk := buf]
      ensures since == old(since)[blk := old(since)[blk] + {buf}]
      ensures |disk| == |old(disk)|
    {
      var s := Find(blk);
      if s < 0 {
        s := Evict();
      }
      Fill(slots[..], disk, logical, s, blk, true, buf);
      ghost var before := slots[..];
      slots[s] := Slot(blk, true, true, buf);
      assert slots[..] == before[s := slots[s]];
      logical := logical[blk := buf];
      since := since[blk := since[blk] + {buf}];
    }

    method Sync()
      requires Valid()
      modifies this`disk, this`since, slots
      ensures Valid()
      ensures logical == old(logical) && disk == logical
      ensures forall b :: 0 <= b < |disk| ==> since[b] == {logical[b]}
    {
      for i := 0 to SLOTS
        invariant Valid() && |disk| == |old(disk)|
        invariant forall j :: 0 <= j < i && slots[j].valid ==> !slots[j].dirty
      {
        if slots[i].valid && slots[i].dirty {
          Flush(slots[..], disk, logical, i, false);
          ghost var before := slots[..];
          disk := disk[slots[i].blk := slots[i].data];
          slots[i] := slots[i].(dirty := false);
          assert slots[..] == before[i := slots[i]];
        }
      }
      assert forall b :: 0 <= b < |disk| ==> disk[b] == logical[b];
      since := Singletons(logical);
    }

    /** Every run of reads, writes and syncs from a synced cache is the run of a plain array of
        blocks, and at every moment the disk alone holds survivors of the last sync. */
    method Replay(ops: seq<Op>) returns (out: seq<Block>)
      requires Valid() && InRange(ops, |logical|)
      modifies this, slots
      ensures Valid()
      ensures out == PlainReads(old(logical), ops)
      ensures logical == PlainState(old(logical), ops)
      ensures forall b :: 0 <= b < |logical| ==> disk[b] in Survivors(old(logical), old(since)[b], ops, b)
    {
      out := [];
      ghost var m := logical;
      for i := 0 to |ops|
        invariant Valid() && InRange(ops[..i], |m|) && |m| == |logical|
        invariant out == PlainReads(m, ops[..i])
        invariant logical == PlainState(m, ops[..i])
        invariant |since| == |m|
        invariant forall b :: 0 <= b < |m| ==> since[b] == Survivors(m, old(since)[b], ops[..i], b)
      {
        assert ops[..i + 1][..i] == ops[..i];
        match ops[i] {
          case Read(b) => var buf := Read(b); out := out + [buf];
          case Write(b, data) => Write(b, data);
          case Sync => Sync();
        }
      }
      assert ops[..|ops|] == ops;
    }
  }
}
