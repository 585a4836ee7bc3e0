/**
 The measuring allocator: requests go to the arena or to the system, blocks go back where they came
 from, and the counters follow the arena's live blocks. What a pool answers a request with is an input
 here, under what pools promise: a block nobody holds, in the pool's own range.
 */
module Routes {
  import opened Wrappers

  const ARENA_CAP: nat := 128 * 1024
  const NULL: nat := 0

  datatype Layout = Layout(size: nat, align: nat)

  datatype Block = Block(address: nat, layout: Layout)

  // ---- counting blocks

  /** The sizes of some blocks, added up. */
  function Total(blocks: seq<Block>): nat {
    if blocks == [] then 0 else blocks[0].layout.size + Total(blocks[1..])
  }

  function Without(blocks: seq<Block>, i: nat): seq<Block>
    requires i < |blocks|
  {
    blocks[..i] + blocks[i + 1..]
  }

  function Max(a: nat, b: nat): nat {
    if a < b then b else a
  }

  /** The largest of some readings. */
  function Highest(readings: seq<nat>): nat {
    if readings == [] then 0 else Max(Highest(readings[..|readings| - 1]), readings[|readings| - 1])
  }

  lemma {:induction false} TotalOfSum(a: seq<Block>, b: seq<Block>)
    ensures Total(a + b) == Total(a) + Total(b)
  {
    if a == [] {
      assert a + b == b;
    } else {
      assert (a + b)[1..] == a[1..] + b;
      TotalOfSum(a[1..], b);
    }
  }

  lemma TotalMore(blocks: seq<Block>, b: Block)
    ensures Total(blocks + [b]) == Total(blocks) + b.layout.size
  {
    TotalOfSum(blocks, [b]);
    assert [b][1..] == [];
  }

  /** Removing a block removes its size, so no counter of sizes is ever taken below zero. */
  lemma TotalWithout(blocks: seq<Block>, i: nat)
    requires i < |blocks|
    ensures Total(blocks) == Total(Without(blocks, i)) + blocks[i].layout.size
  {
    TotalOfSum(blocks[..i], blocks[i..]);
    TotalOfSum(blocks[..i], blocks[i + 1..]);
    assert blocks == blocks[..i] + blocks[i..];
    assert blocks[i..][1..] == blocks[i + 1..];
  }

  /** A word of this 64-bit host. */
  const WORD: nat := 8

  /** What one request takes from the arena: floored at a hole's two links, rounded up to a word. */
  function Consumed(size: nat): nat {
    (Max(size, 2 * WORD) + WORD - 1) / WORD * WORD
  }

  /** It is the least whole number of words that holds both the request and a hole's links. */
  lemma ConsumedIsLeast(size: nat, m: nat)
    ensures Consumed(size) % WORD == 0 && size <= Consumed(size) && 2 * WORD <= Consumed(size)
    ensures m % WORD == 0 && size <= m && 2 * WORD <= m ==> Consumed(size) <= m
  {
    if m % WORD == 0 {
      assert m == m / 8 * 8;
    }
  }

  predicate Held(blocks: seq<Block>, address: nat) {
    exists i :: 0 <= i < |blocks| && blocks[i].address == address
  }

  predicate Distinct(blocks: seq<Block>) {
    forall i, j :: 0 <= i < j < |blocks| ==> blocks[i].address != blocks[j].address
  }

  /** The last of some readings, and their peak. */
  ghost predicate Tracks(seen: seq<nat>, now: nat, peak: nat) {
    seen != [] && seen[|seen| - 1] == now && peak == Highest(seen)
  }

  lemma TracksNext(seen: seq<nat>, now: nat, peak: nat, next: nat)
    requires Tracks(seen, now, peak)
    ensures Tracks(seen + [next], next, Max(peak, next))
    ensures next <= now ==> Max(peak, next) == peak
  {
    OneMoreReading(seen, next);
    HighestIsThePeak(seen);
  }

  predicate InRange(base: nat, p: nat) {
    base <= p < base + ARENA_CAP
  }

  /** Blocks at places of their own, all inside the arena or all outside it. */
  ghost predicate Pool(held: seq<Block>, base: nat, inside: bool) {
    Distinct(held) && forall i :: 0 <= i < |held| ==> InRange(base, held[i].address) == inside
  }

  lemma PoolMore(held: seq<Block>, base: nat, inside: bool, b: Block)
    requires Pool(held, base, inside) && !Held(held, b.address) && InRange(base, b.address) == inside
    ensures Pool(held + [b], base, inside)
  {
  }

  lemma PoolLess(held: seq<Block>, base: nat, inside: bool, i: nat)
    requires Pool(held, base, inside) && i < |held|
    ensures Pool(Without(held, i), base, inside)
  {
  }

  class Route {
    const base: nat
    var inDev: bool
    var live: nat
    var livePeak: nat
    var blocks: nat
    var blocksPeak: nat
    var maxOne: nat
    var allocs: nat
    var nulls: nat
    var high: nat
    var nullReq: nat
    /** The live blocks of either pool. */
    ghost var arena: seq<Block>
    ghost var system: seq<Block>
    /** Every value the two counters of live blocks have had. */
    ghost var liveSeen: seq<nat>
    ghost var blocksSeen: seq<nat>
    /** Where every block the arena ever served ended. */
    ghost var ends: seq<nat>

    predicate InArena(p: nat) {
      InRange(base, p)
    }

    /** The counters are what the arena's live blocks add up to, and their peaks what they ever were. */
    ghost predicate Valid()
      reads this
    {
      && base > NULL
      && live == Total(arena) && blocks == |arena|
      && Tracks(liveSeen, live, livePeak) && Tracks(blocksSeen, blocks, blocksPeak) && high == Highest(ends)
      && Pool(arena, base, true) && Pool(system, base, false)
    }

    /** What the arena may answer: nothing, or a place in it nobody holds. */
    ghost predicate ArenaMay(fit: Option<nat>)
      reads this
    {
      fit.Some? ==> InArena(fit.value) && !Held(arena, fit.value)
    }

    /** What the system may answer: null, or a place outside the arena nobody holds. */
    ghost predicate SystemMay(p: nat)
      reads this
    {
      !InArena(p) && (p != NULL ==> !Held(system, p))
    }

    /** What the system may answer a realloc: null, or a place nobody else holds, the same one or another. */
    ghost predicate SystemMayMove(i: nat, p: nat)
      reads this
      requires i < |system|
    {
      !InArena(p) && (p != NULL ==> !Held(Without(system, i), p))
    }

    constructor (base: nat)
      requires base > NULL
      ensures Valid() && this.base == base && arena == [] && system == [] && !inDev
      ensures liveSeen == [0] && blocksSeen == [0]
    {
      this.base := base;
      inDev, live, livePeak, blocks, blocksPeak := false, 0, 0, 0, 0;
      maxOne, allocs, nulls, nullReq, high := 0, 0, 0, 0, 0;
      arena, system, liveSeen, blocksSeen, ends := [], [], [0], [0], [];
    }

    /** `Dev::on` and its drop: set the flag, hand back what it was. */
    method SetDev(yes: bool) returns (was: bool)
      requires Valid()
      modifies `inDev
      ensures Valid() && was == old(inDev) && inDev == yes
    {
      was := inDev;
      inDev := yes;
    }

    method ArenaAlloc(l: Layout, fit: Option<nat>, fallback: nat) returns (p: nat)
      requires Valid() && ArenaMay(fit) && SystemMay(fallback)
      modifies this
      ensures Valid() && inDev == old(inDev)
      ensures fit.Some? ==>
        && p == fit.value && arena == old(arena) + [Block(p, l)] && system == old(system)
        && liveSeen == old(liveSeen) + [old(live) + l.size] && blocksSeen == old(blocksSeen) + [old(blocks) + 1]
        && ends == old(ends) + [p - base + Consumed(l.size)] && allocs == old(allocs) + 1
          && maxOne == Max(old(maxOne), l.size) && nulls == old(nulls) && nullReq == old(nullReq)
      ensures fit.None? ==>
        && p == fallback && arena == old(arena) && liveSeen == old(liveSeen) && blocksSeen == old(blocksSeen)
        && live == old(live) && blocks == old(blocks) && livePeak == old(livePeak) && blocksPeak == old(blocksPeak)
        && ends == old(ends) && allocs == old(allocs) && maxOne == old(maxOne) && nulls == old(nulls) + 1
        && nullReq == (if old(nulls) == 0 then l.size else old(nullReq))
        && system == if p == NULL then old(system) else old(system) + [Block(p, l)]
    {
      if fit.None? {
        CountRefusal(l.size);
        p := SystemAlloc(l, fallback);
      } else {
        p := fit.value;
        Serve(l, p);
      }
    }

    /** A block the arena served: where it ends, and one more live block. */
    method Serve(l: Layout, p: nat)
      requires Valid() && InArena(p) && !Held(arena, p)
      modifies `live, `livePeak, `blocks, `blocksPeak, `maxOne, `allocs, `arena, `liveSeen, `blocksSeen, `high, `ends
      ensures Valid() && arena == old(arena) + [Block(p, l)]
      ensures liveSeen == old(liveSeen) + [old(live) + l.size] && blocksSeen == old(blocksSeen) + [old(blocks) + 1]
      ensures ends == old(ends) + [p - base + Consumed(l.size)] && allocs == old(allocs) + 1
      ensures maxOne == Max(old(maxOne), l.size)
    {
      Reach(p - base + Consumed(l.size));
      Record(l, p);
    }

    /** The refusals, and the size of the first. */
    method CountRefusal(size: nat)
      requires Valid()
      modifies `nulls, `nullReq
      ensures Valid() && nulls == old(nulls) + 1 && nullReq == (if old(nulls) == 0 then size else old(nullReq))
    {
      if nulls == 0 {
        nullReq := size;
      }
      nulls := nulls + 1;
    }

    /** The high-water mark of the arena's footprint. */
    method Reach(end: nat)
      requires Valid()
      modifies `high, `ends
      ensures Valid() && ends == old(ends) + [end]
    {
      OneMoreReading(ends, end);
      high := Max(high, end);
      ends := ends + [end];
    }

    /** The counters of one more live block in the arena. */
    method Record(l: Layout, p: nat)
      requires Valid() && InArena(p) && !Held(arena, p)
      modifies `live, `livePeak, `blocks, `blocksPeak, `maxOne, `allocs, `arena, `liveSeen, `blocksSeen
      ensures Valid() && arena == old(arena) + [Block(p, l)]
      ensures liveSeen == old(liveSeen) + [old(live) + l.size] && blocksSeen == old(blocksSeen) + [old(blocks) + 1]
      ensures allocs == old(allocs) + 1 && maxOne == Max(old(maxOne), l.size)
    {
      TotalMore(arena, Block(p, l));
      PoolMore(arena, base, true, Block(p, l));
      TracksNext(liveSeen, live, livePeak, live + l.size);
      TracksNext(blocksSeen, blocks, blocksPeak, blocks + 1);
      live := live + l.size;
      livePeak := Max(livePeak, live);
      blocks := blocks + 1;
      blocksPeak := Max(blocksPeak, blocks);
      maxOne := Max(maxOne, l.size);
      allocs := allocs + 1;
      arena := arena + [Block(p, l)];
      liveSeen := liveSeen + [live];
      blocksSeen := blocksSeen + [blocks];
    }

    /** A block of the system's, if it has one. */
    method SystemAlloc(l: Layout, answer: nat) returns (p: nat)
      requires Valid() && SystemMay(answer)
      modifies `system
      ensures Valid() && p == answer
      ensures system == if p == NULL then old(system) else old(system) + [Block(p, l)]
    {
      p := answer;
      if p != NULL {
        PoolMore(system, base, false, Block(p, l));
        system := system + [Block(p, l)];
      }
    }

    /** `i` is where the block being given back stands among the live ones. */
    method ArenaDealloc(p: nat, l: Layout, ghost i: nat)
      requires Valid() && i < |arena| && arena[i] == Block(p, l)
      modifies `live, `blocks, `arena, `liveSeen, `blocksSeen
      ensures Valid() && arena == Without(old(arena), i)
      ensures live == old(live) - l.size && blocks == old(blocks) - 1
      ensures liveSeen == old(liveSeen) + [live] && blocksSeen == old(blocksSeen) + [blocks]
    {
      TotalWithout(arena, i);
      TracksNext(liveSeen, live, livePeak, live - l.size);
      TracksNext(blocksSeen, blocks, blocksPeak, blocks - 1);
      PoolLess(arena, base, true, i);
      live := live - l.size;
      blocks := blocks - 1;
      arena := Without(arena, i);
      liveSeen := liveSeen + [live];
      blocksSeen := blocksSeen + [blocks];
    }

    method Alloc(l: Layout, fit: Option<nat>, fromSystem: nat) returns (p: nat)
      requires Valid() && ArenaMay(fit) && SystemMay(fromSystem)
      modifies this
      ensures Valid() && inDev == old(inDev)
      ensures inDev && fit.Some? ==>
        && p == fit.value && arena == old(arena) + [Block(p, l)] && system == old(system)
        && liveSeen == old(liveSeen) + [old(live) + l.size] && blocksSeen == old(blocksSeen) + [old(blocks) + 1]
      ensures !(inDev && fit.Some?) ==>
        && p == fromSystem && Untouched(old(arena), old(liveSeen), old(blocksSeen))
        && system == if p == NULL then old(system) else old(system) + [Block(p, l)]
      ensures nulls == old(nulls) + if inDev && fit.None? then 1 else 0
    {
      if inDev {
        p := ArenaAlloc(l, fit, fromSystem);
      } else {
        p := SystemAlloc(l, fromSystem);
      }
    }

    /** The arena's counters and its live blocks are as they were. */
    ghost predicate Untouched(arena0: seq<Block>, liveSeen0: seq<nat>, blocksSeen0: seq<nat>)
      reads this
    {
      arena == arena0 && liveSeen == liveSeen0 && blocksSeen == blocksSeen0
    }

    /** A block goes back to the pool its address is in; `i` is where it stands among that pool's live blocks. */
    method Dealloc(p: nat, l: Layout, ghost i: nat)
      requires Valid()
      requires if InArena(p) then i < |arena| && arena[i] == Block(p, l) else i < |system| && system[i] == Block(p, l)
      modifies this
      ensures Valid() && inDev == old(inDev)
      ensures InArena(p) ==>
        && arena == Without(old(arena), i) && system == old(system)
        && liveSeen == old(liveSeen) + [live] && blocksSeen == old(blocksSeen) + [blocks]
      ensures !InArena(p) ==> system == Without(old(system), i) && Untouched(old(arena), old(liveSeen), old(blocksSeen))
    {
      if InArena(p) {
        ArenaDealloc(p, l, i);
      } else {
        PoolLess(system, base, false, i);
        system := Without(system, i);
      }
    }

    /**
     A grown block in the arena is a new one, then the old one given back, whichever pool the flag names:
     for a moment both are live, and the peak sees it. `fromSystem` serves both the system's own realloc
     and the arena's fallback.
     */
    method Realloc(p: nat, l: Layout, newSize: nat, fit: Option<nat>, fromSystem: nat, ghost i: nat) returns (np: nat)
      requires Valid() && ArenaMay(fit)
      requires InArena(p) ==> SystemMay(fromSystem) && i < |arena| && arena[i] == Block(p, l)
      requires !InArena(p) ==> i < |system| && system[i] == Block(p, l) && SystemMayMove(i, fromSystem)
      modifies this
      ensures Valid() && inDev == old(inDev)
      ensures !InArena(p) ==>
        && np == fromSystem && Untouched(old(arena), old(liveSeen), old(blocksSeen))
        && system == if np == NULL then old(system) else Without(old(system), i) + [Block(np, Layout(newSize, l.align))]
      ensures InArena(p) && fit.Some? ==>
        && np == fit.value && system == old(system)
        && arena == Without(old(arena), i) + [Block(np, Layout(newSize, l.align))]
        && liveSeen == old(liveSeen) + [old(live) + newSize, old(live) + newSize - l.size]
        && blocksSeen == old(blocksSeen) + [old(blocks) + 1, old(blocks)]
      ensures InArena(p) && fit.None? && fromSystem != NULL ==>
        && np == fromSystem && arena == Without(old(arena), i)
        && system == old(system) + [Block(np, Layout(newSize, l.align))]
        && liveSeen == old(liveSeen) + [old(live) - l.size] && blocksSeen == old(blocksSeen) + [old(blocks) - 1]
      ensures InArena(p) && fit.None? && fromSystem == NULL ==>
        np == NULL && system == old(system) && Untouched(old(arena), old(liveSeen), old(blocksSeen))
      ensures nulls == old(nulls) + if InArena(p) && fit.None? then 1 else 0
    {
      var grown := Layout(newSize, l.align);
      if !InArena(p) {
        if fromSystem != NULL {
          PoolLess(system, base, false, i);
          PoolMore(Without(system, i), base, false, Block(fromSystem, grown));
        }
        np := fromSystem;
        system := if np == NULL then system else Without(system, i) + [Block(np, grown)];
        return;
      }
      np := ArenaAlloc(grown, fit, fromSystem);
      if np != NULL {
        ArenaDealloc(p, l, i);
      }
    }
  }

  lemma OneMoreReading(readings: seq<nat>, next: nat)
    ensures Highest(readings + [next]) == Max(Highest(readings), next)
  {
    assert (readings + [next])[..|readings|] == readings;
  }

  /** The peak is a reading, and no reading is above it. */
  lemma {:induction false} HighestIsThePeak(readings: seq<nat>)
    requires readings != []
    ensures Highest(readings) in readings && forall i :: 0 <= i < |readings| ==> readings[i] <= Highest(readings)
  {
    var before := readings[..|readings| - 1];
    if before != [] {
      HighestIsThePeak(before);
    }
  }
}
