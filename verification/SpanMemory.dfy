/** The stacks of all contexts in one memory: a stack that outgrows its inline slots lives in a block of the arena,
    and pushing, copying and clearing write through addresses. */
module SpanMemory {
  import opened Wrappers
  import opened Arena
  import opened ActivationStack

  /** The size of one activation: two ids of 32 and 16 bytes, and two times. */
  const SLOT := 64

  /** What the slots hold, by address; a slot never written since it was cleared holds zeros. */
  type Memory = map<nat, OpenSpan>

  /** A stack as the span table holds it; `extra` is the address of its block, once it has one. */
  datatype StackRef = StackRef(count: nat, capacity: nat, activations: seq<OpenSpan>, extra: Option<nat>)

  const EMPTY_STACK := StackRef(0, MAX_ACTIVATIONS, [ZEROED, ZEROED], None)

  function Read(memory: Memory, address: nat): OpenSpan {
    if address in memory then memory[address] else ZEROED
  }

  function Slots(memory: Memory, address: nat, n: nat): (s: seq<OpenSpan>)
    ensures |s| == n
  {
    seq(n, i requires 0 <= i < n => Read(memory, address + SLOT * i))
  }

  /** The open spans of a stack, bottom first. */
  function SpansOf(memory: Memory, s: StackRef): seq<OpenSpan> {
    if s.extra.Some? then Slots(memory, s.extra.value, s.count)
    else if s.count <= |s.activations| then s.activations[..s.count]
    else []
  }

  ghost predicate HasBlock(blocks: seq<Block>, address: nat, size: nat) {
    exists b :: b in blocks && b.address == address && b.size == size
  }

  ghost predicate StackOk(s: StackRef, blocks: seq<Block>) {
    && |s.activations| == MAX_ACTIVATIONS && s.count <= s.capacity
    && (s.extra.None? ==> s.capacity == MAX_ACTIVATIONS)
    && (s.extra.Some? ==> s.capacity >= 4 * MAX_ACTIVATIONS && HasBlock(blocks, s.extra.value, SLOT * s.capacity))
  }

  /** Two stacks share no slot. */
  ghost predicate NoSharing(s: StackRef, t: StackRef) {
    s.extra.Some? && t.extra.Some? ==> Apart(s.extra.value, SLOT * s.capacity, t.extra.value, SLOT * t.capacity)
  }

  ghost predicate StacksOk(stacks: map<int, StackRef>, blocks: seq<Block>) {
    && (forall c :: c in stacks ==> StackOk(stacks[c], blocks))
    && (forall c, d :: c in stacks && d in stacks && c != d ==> NoSharing(stacks[c], stacks[d]))
  }

  /** All open spans. */
  function AllSpans(memory: Memory, stacks: map<int, StackRef>): map<int, seq<OpenSpan>> {
    map c | c in stacks :: SpansOf(memory, stacks[c])
  }

  /** Memory changed between `address` and `address + size` at most. */
  ghost predicate ChangedOnlyIn(before: Memory, after: Memory, address: nat, size: nat) {
    forall x: nat :: !(address <= x < address + size) ==> Read(after, x) == Read(before, x)
  }

  /** A change inside a block is not seen by a stack whose block is apart from it. */
  lemma {:induction false} SameSpans(before: Memory, after: Memory, address: nat, size: nat, s: StackRef)
    requires ChangedOnlyIn(before, after, address, size) && s.count <= s.capacity
    requires s.extra.Some? ==> Apart(address, size, s.extra.value, SLOT * s.capacity)
    ensures SpansOf(after, s) == SpansOf(before, s)
  {
    if s.extra.Some? {
      forall i | 0 <= i < s.count ensures Slots(after, s.extra.value, s.count)[i] ==
          Slots(before, s.extra.value, s.count)[i] {
        assert s.extra.value <= s.extra.value + SLOT * i < s.extra.value + SLOT * s.capacity;
      }
    }
  }

  /** A block handed out by the arena is apart from every block handed out before. */
  lemma {:induction false} NewBlockIsApart(blocks: seq<Block>, b: Block, s: StackRef)
    requires forall i, j :: 0 <= i < j < |blocks + [b]| ==>
               Apart((blocks + [b])[i].address, (blocks + [b])[i].size, (blocks + [b])[j].address,
                   (blocks + [b])[j].size)
    requires StackOk(s, blocks)
    ensures s.extra.Some? ==> Apart(b.address, b.size, s.extra.value, SLOT * s.capacity)
    ensures StackOk(s, blocks + [b])
  {
    if s.extra.Some? {
      var o :| o in blocks && o.address == s.extra.value && o.size == SLOT * s.capacity;
      var i :| 0 <= i < |blocks| && blocks[i] == o;
      assert (blocks + [b])[i] == o && (blocks + [b])[|blocks|] == b;
      assert o in blocks + [b];
    }
  }

  /** Replacing one stack: the others keep their spans when memory changed only in a block apart from theirs. */
  lemma {:induction false} OneStackChanges(before: Memory, after: Memory, stacks: map<int, StackRef>,
      blocks: seq<Block>, c: int, s: StackRef, address: nat, size: nat)
    requires StacksOk(stacks, blocks) && StackOk(s, blocks) && ChangedOnlyIn(before, after, address, size)
    requires forall d :: d in stacks && d != c ==>
               && NoSharing(s, stacks[d])
               && (stacks[d].extra.Some? ==> Apart(address, size, stacks[d].extra.value, SLOT * stacks[d].capacity))
    ensures StacksOk(stacks[c := s], blocks)
    ensures AllSpans(after, stacks[c := s]) == AllSpans(before, stacks)[c := SpansOf(after, s)]
  {
    hide SpansOf;
    forall d | d in stacks && d != c ensures SpansOf(after, stacks[d]) == SpansOf(before, stacks[d]) {
      SameSpans(before, after, address, size, stacks[d]);
    }
  }

  /** Writing the slot above the top of a stack pushes onto it. */
  lemma {:induction false} WriteTop(memory: Memory, s: StackRef, span: OpenSpan)
    requires s.extra.Some? && s.count < s.capacity
    ensures var after := memory[s.extra.value + SLOT * s.count := span];
            && ChangedOnlyIn(memory, after, s.extra.value, SLOT * s.capacity)
            && SpansOf(after, s.(count := s.count + 1)) == SpansOf(memory, s) + [span]
  {
  }

  class SpanStacks {
    const arena: PagedArena
    var memory: Memory
    var stacks: map<int, StackRef>

    ghost predicate Valid()
      reads this, arena
    {
      Arena.Inv(arena.Contents()) && StacksOk(stacks, arena.blocks)
    }

    /** The open spans of every context. */
    ghost function Contents(): map<int, seq<OpenSpan>>
      reads this
    {
      AllSpans(memory, stacks)
    }

    constructor (arena: PagedArena)
      requires Arena.Inv(arena.Contents())
      ensures Valid() && Contents() == map[] && this.arena == arena
    {
      this.arena := arena;
      memory, stacks := map[], map[];
    }

    /** An allocation, with the block cleared: for a stack, or for anything else the profiler keeps in the arena.
        No stack notices it. */
    method AllocCleared(size: nat, calloc: Option<nat>) returns (address: Option<nat>)
      requires Valid() && size > 0 && FreshMemory(arena.Contents(), calloc)
      modifies this`memory, arena
      ensures Valid() && Contents() == old(Contents())
      ensures forall c :: c in stacks ==> SpansOf(memory, stacks[c]) == SpansOf(old(memory), stacks[c])
      ensures address.Some? ==> HasBlock(arena.blocks, address.value, size)
      ensures address.Some? ==> ApartFromAll(address.value, size, stacks)
      ensures (arena.Contents(), address) == Alloc(old(arena.Contents()), size, calloc)
      ensures forall a :: a in memory <==>
                a in old(memory) && !(address.Some? && address.value <= a < address.value + size)
      ensures forall a :: a in memory ==> memory[a] == old(memory)[a]
    {
      hide StacksOk, SpansOf, Alloc, HasBlock, ApartFromAll, Arena.Inv, ChangedOnlyIn;
      ghost var before := arena.Contents();
      AllocKeeps(before, size, calloc);
      SomePage(before);
      SomePage(Alloc(before, size, calloc).0);
      address := arena.PagedArenaAlloc(size, calloc);
      if address.Some? {
        ghost var m, b := memory, Block(arena.nodes[0].memory, address.value, size);
        memory := map a | a in memory && !(address.value <= a < address.value + size) :: memory[a];
        ClearedOnlyIn(m, memory, address.value, size);
        BlockIsNew(before, arena.Contents(), b, stacks);
        NoStackChanges(m, memory, stacks, arena.blocks, address.value, size);
      }
    }

    /** Moves the spans of `s` into the block at `to`. */
    method CopySlots(s: StackRef, to: nat)
      requires StackFits(s) && (s.extra.Some? ==> Apart(to, SLOT * s.count, s.extra.value, SLOT * s.capacity))
      modifies this`memory
      ensures ChangedOnlyIn(old(memory), memory, to, SLOT * s.count)
      ensures Slots(memory, to, s.count) == SpansOf(old(memory), s)
    {
      ghost var m := memory;
      for i := 0 to s.count
        invariant ChangedOnlyIn(m, memory, to, SLOT * s.count)
        invariant Slots(memory, to, i) == SpansOf(m, s)[..i]
      {
        SameSpans(m, memory, to, SLOT * s.count, s);
        var span := if s.extra.None? then s.activations[i] else Read(memory, s.extra.value + SLOT * i);
        ghost var now := memory;
        memory := memory[to + SLOT * i := span];
        assert Slots(memory, to, i) == Slots(now, to, i);
        assert Slots(memory, to, i + 1) == Slots(memory, to, i) + [span];
      }
    }

    /** The capacity of the block a full stack moves to. */
    function Larger(s: StackRef): nat {
      if s.extra.None? then 4 * MAX_ACTIVATIONS else s.capacity * 3 / 2
    }

    /** Gives `s`, the stack of context `c`, a larger block and moves its spans there. */
    method Grow(s: StackRef, calloc: Option<nat>, ghost c: int) returns (g: StackRef, ok: bool)
      requires Valid() && StackOk(s, arena.blocks) && FreshMemory(arena.Contents(), calloc)
      requires s.extra.Some? ==> c in stacks && stacks[c] == s
      modifies this`memory, arena
      ensures Valid() && Contents() == old(Contents())
      ensures ok ==> StackOk(g, arena.blocks) && g.extra.Some? && g.count == s.count && g.capacity > s.capacity
      ensures ok ==> SpansOf(memory, g) == SpansOf(old(memory), s)
      ensures ok ==> ApartFromAll(g.extra.value, SLOT * g.capacity, stacks)
      ensures ok == Alloc(old(arena.Contents()), SLOT * Larger(s), calloc).1.Some?
      ensures ok ==> g.capacity == Larger(s)
    {
      hide StacksOk, SpansOf, Arena.Inv, ChangedOnlyIn, HasBlock, FreshMemory;
      var capacity := if s.extra.None? then 4 * MAX_ACTIVATIONS else s.capacity * 3 / 2;
      var block := AllocCleared(SLOT * capacity, calloc);
      if block.None? {
        return s, false;
      }
      InlineSpans(old(memory), memory, s);
      ghost var m := memory;
      CopySlots(s, block.value);
      ChangedWider(m, memory, block.value, SLOT * s.count, SLOT * capacity);
      NoStackChanges(m, memory, stacks, arena.blocks, block.value, SLOT * capacity);
      g, ok := s.(extra := Some(block.value), capacity := capacity), true;
      BlockSpans(memory, g);
    }

    /** Pushes a span onto the stack of context `c`.  The stacks of all other contexts keep their spans, whatever
        blocks are allocated, cleared, copied and written on the way. */
    method Push(c: int, span: OpenSpan, calloc: Option<nat>) returns (ok: bool)
      requires Valid() && FreshMemory(arena.Contents(), calloc)
      modifies this, arena
      ensures Valid()
      ensures Contents() == if ok then old(Contents())[c := SpansAt(old(Contents()), c) + [span]] else old(Contents())
      ensures var s := if c in old(stacks) then old(stacks)[c] else EMPTY_STACK;
              ok <==> s.count < s.capacity || Alloc(old(arena.Contents()), SLOT * Larger(s), calloc).1.Some?
    {
      hide StacksOk, SpansOf, Arena.Inv, ChangedOnlyIn, HasBlock, FreshMemory, AllSpans;
      var s := if c in stacks then stacks[c] else EMPTY_STACK;
      StackOfContext(memory, stacks, arena.blocks, c);
      if s.extra.None? && s.count < MAX_ACTIVATIONS {
        var pushed := s.(activations := s.activations[s.count := span], count := s.count + 1);
        PushInline(memory, stacks, arena.blocks, c, s, span);
        stacks := stacks[c := pushed];
        return true;
      }
      if s.extra.None? || s.count == s.capacity {
        s, ok := Grow(s, calloc, c);
        if !ok {
          return;
        }
      }
      PushInBlock(memory, stacks, arena.blocks, c, s, span);
      memory := memory[s.extra.value + SLOT * s.count := span];
      stacks := stacks[c := s.(count := s.count + 1)];
      ok := true;
    }

    /** Pops the innermost span of context `c`; a context without spans leaves the table. */
    method Pop(c: int) returns (top: Option<OpenSpan>)
      requires Valid()
      modifies this`stacks
      ensures Valid()
      ensures if SpansAt(old(Contents()), c) == [] then top == None && Contents() == old(Contents())
              else
                var spans := SpansAt(old(Contents()), c);
                var rest := spans[..|spans| - 1];
                && top == Some(spans[|spans| - 1])
                && Contents() == if rest == [] then old(Contents()) - {c} else old(Contents())[c := rest]
    {
      hide StacksOk, Arena.Inv, HasBlock;
      if c !in stacks || stacks[c].count == 0 {
        return None;
      }
      var s := stacks[c];
      StackOfContext(memory, stacks, arena.blocks, c);
      var index := s.count - 1;
      top := Some(if s.extra.None? then s.activations[index] else Read(memory, s.extra.value + SLOT * index));
      PopLast(memory, stacks, arena.blocks, c);
      stacks := if index == 0 then stacks - {c} else stacks[c := s.(count := index)];
    }

    /** `ProfilingReset`: the table is cleared and the arena reused from the start.  No stack refers to an old block,
        so later allocations may hand out the same addresses again. */
    method Reset()
      requires Valid()
      modifies this`stacks, arena
      ensures Valid() && Contents() == map[] && arena.Contents() == Arena.Reset(old(arena.Contents()))
    {
      hide Arena.Inv;
      ResetKeeps(arena.Contents());
      SomePage(arena.Contents());
      arena.PagedArenaReset();
      stacks := map[];
    }
  }

  function SpansAt(spans: map<int, seq<OpenSpan>>, c: int): seq<OpenSpan> {
    if c in spans then spans[c] else []
  }

  lemma {:induction false} SomePage(s: Arena.State)
    requires Arena.Inv(s)
    ensures s.nodes != []
  {
  }

  lemma {:induction false} InlineSpans(before: Memory, after: Memory, s: StackRef)
    ensures s.extra.None? ==> SpansOf(after, s) == SpansOf(before, s)
  {
  }

  lemma {:induction false} BlockSpans(memory: Memory, s: StackRef)
    ensures s.extra.Some? ==> SpansOf(memory, s) == Slots(memory, s.extra.value, s.count)
  {
  }

  lemma {:induction false} ChangedWider(before: Memory, after: Memory, address: nat, size: nat, larger: nat)
    requires ChangedOnlyIn(before, after, address, size) && size <= larger
    ensures ChangedOnlyIn(before, after, address, larger)
  {
  }

  /** The stack of a context: well formed, apart from the others, and holding the context's spans. */
  lemma {:induction false} StackOfContext(memory: Memory, stacks: map<int, StackRef>, blocks: seq<Block>, c: int)
    requires StacksOk(stacks, blocks)
    ensures var s := if c in stacks then stacks[c] else EMPTY_STACK;
            && StackOk(s, blocks) && SpansOf(memory, s) == SpansAt(AllSpans(memory, stacks), c)
            && |SpansOf(memory, s)| == s.count
            && (forall d :: d in stacks && d != c ==> NoSharing(s, stacks[d]))
  {
  }

  lemma {:induction false} PushInline(memory: Memory, stacks: map<int, StackRef>, blocks: seq<Block>, c: int,
      s: StackRef, span: OpenSpan)
    requires StacksOk(stacks, blocks) && StackOk(s, blocks) && s.extra.None? && s.count < MAX_ACTIVATIONS
    ensures var pushed := s.(activations := s.activations[s.count := span], count := s.count + 1);
            && StacksOk(stacks[c := pushed], blocks)
            && AllSpans(memory, stacks[c := pushed]) == AllSpans(memory, stacks)[c := SpansOf(memory, s) + [span]]
  {
    var pushed := s.(activations := s.activations[s.count := span], count := s.count + 1);
    OneStackChanges(memory, memory, stacks, blocks, c, pushed, 0, 0);
    assert SpansOf(memory, pushed) == SpansOf(memory, s) + [span];
  }

  lemma {:induction false} PushInBlock(memory: Memory, stacks: map<int, StackRef>, blocks: seq<Block>, c: int,
      s: StackRef, span: OpenSpan)
    requires StacksOk(stacks, blocks) && StackOk(s, blocks) && s.extra.Some? && s.count < s.capacity
    requires forall d :: d in stacks && d != c ==> NoSharing(s, stacks[d])
    ensures var after, pushed := memory[s.extra.value + SLOT * s.count := span], s.(count := s.count + 1);
            && StacksOk(stacks[c := pushed], blocks)
            && AllSpans(after, stacks[c := pushed]) == AllSpans(memory, stacks)[c := SpansOf(memory, s) + [span]]
  {
    hide SpansOf, StacksOk, AllSpans;
    var after, pushed := memory[s.extra.value + SLOT * s.count := span], s.(count := s.count + 1);
    WriteTop(memory, s, span);
    OneStackChanges(memory, after, stacks, blocks, c, pushed, s.extra.value, SLOT * s.capacity);
  }

  lemma {:induction false} PopLast(memory: Memory, stacks: map<int, StackRef>, blocks: seq<Block>, c: int)
    requires StacksOk(stacks, blocks) && c in stacks && stacks[c].count > 0
    ensures var s := stacks[c];
            var spans, popped := SpansOf(memory, s), s.(count := s.count - 1);
            && |spans| == s.count
            && spans[s.count - 1] ==
                (if s.extra.None? then s.activations[s.count - 1]
                    else Read(memory, s.extra.value + SLOT * (s.count - 1)))
            && StacksOk(stacks[c := popped], blocks) && StacksOk(stacks - {c}, blocks)
            && AllSpans(memory, stacks[c := popped]) == AllSpans(memory, stacks)[c := spans[..s.count - 1]]
            && AllSpans(memory, stacks - {c}) == AllSpans(memory, stacks) - {c}
  {
    var s := stacks[c];
    var popped := s.(count := s.count - 1);
    OneStackChanges(memory, memory, stacks, blocks, c, popped, 0, 0);
    assert SpansOf(memory, popped) == SpansOf(memory, s)[..s.count - 1];
  }

  ghost predicate StackFits(s: StackRef) {
    s.count <= s.capacity && (s.extra.None? ==> s.count <= |s.activations|)
  }

  /** No stack has a slot in this block. */
  ghost predicate ApartFromAll(address: nat, size: nat, stacks: map<int, StackRef>) {
    forall c :: c in stacks && stacks[c].extra.Some? ==>
        Apart(address, size, stacks[c].extra.value, SLOT * stacks[c].capacity)
  }

  lemma {:induction false} ClearedOnlyIn(before: Memory, after: Memory, address: nat, size: nat)
    requires after == map a | a in before && !(address <= a < address + size) :: before[a]
    ensures ChangedOnlyIn(before, after, address, size)
  {
  }

  lemma {:induction false} BlockIsNew(before: Arena.State, after: Arena.State, b: Block, stacks: map<int, StackRef>)
    requires Arena.Inv(after) && after.blocks == before.blocks + [b] && StacksOk(stacks, before.blocks)
    ensures StacksOk(stacks, after.blocks) && ApartFromAll(b.address, b.size, stacks)
    ensures HasBlock(after.blocks, b.address, b.size)
  {
    assert after.blocks[|before.blocks|] == b;
    forall c | c in stacks
      ensures StackOk(stacks[c], after.blocks)
      ensures stacks[c].extra.Some? ==> Apart(b.address, b.size, stacks[c].extra.value, SLOT * stacks[c].capacity)
    {
      NewBlockIsApart(before.blocks, b, stacks[c]);
    }
  }

  lemma {:induction false} NoStackChanges(before: Memory, after: Memory, stacks: map<int, StackRef>, blocks: seq<Block>,
                                          address: nat, size: nat)
    requires StacksOk(stacks, blocks) && ChangedOnlyIn(before, after, address, size)
    requires ApartFromAll(address, size, stacks)
    ensures forall c :: c in stacks ==> SpansOf(after, stacks[c]) == SpansOf(before, stacks[c])
    ensures AllSpans(after, stacks) == AllSpans(before, stacks)
  {
    hide SpansOf;
    forall c | c in stacks ensures SpansOf(after, stacks[c]) == SpansOf(before, stacks[c]) {
      SameSpans(before, after, address, size, stacks[c]);
    }
  }
}
