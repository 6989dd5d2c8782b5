/** The paged arena that backs the profiler's periods, bins and spilled stacks. */
module Arena {
  import opened Wrappers

  const ALIGNMENT := 16

  /** One page: the address of its memory, and how much of it is used. */
  datatype Page = Page(memory: nat, offset: nat)

  /** A successful allocation: the page it came from, its address and its size. */
  datatype Block = Block(page: nat, address: nat, size: nat)

  /** `nodes` is the list of pages in use, active page first, and `freeNodes` the list of pages to reuse;
      `owned` are the addresses of all pages ever obtained, and `blocks` the allocations since the last reset. */
  datatype State = State(pageSize: nat, nodes: seq<Page>, freeNodes: seq<Page>, owned: set<nat>, blocks: seq<Block>)

  /** `align`; for a power of two, masking is the remainder. */
  function Align(ptr: nat, alignment: nat): (r: nat)
    requires alignment > 0
    ensures ptr <= r < ptr + alignment
  {
    var m := ptr % alignment;
    if m == 0 then ptr else ptr + (alignment - m)
  }

  lemma {:induction false} AlignAligns(ptr: nat)
    ensures Align(ptr, ALIGNMENT) % ALIGNMENT == 0
  {
  }

  /** `MemArenaAlloc` on one page: where the block would start, counted from the page. */
  function PageOffset(p: Page): nat {
    Align(p.memory + p.offset, ALIGNMENT) - p.memory
  }

  predicate Fits(p: Page, pageSize: nat, size: nat) {
    PageOffset(p) + size <= pageSize
  }

  /** Takes `size` bytes from the active page. */
  function TakeFromActive(s: State, size: nat): (State, Option<nat>)
    requires s.nodes != []
  {
    var p := s.nodes[0];
    if Fits(p, s.pageSize, size) then
      var address := p.memory + PageOffset(p);
      (s.(nodes := s.nodes[0 := p.(offset := PageOffset(p) + size)],
          blocks := s.blocks + [Block(p.memory, address, size)]), Some(address))
    else (s, None)
  }

  /** Puts a page in front: a free one, or one that `calloc` returned, if any. */
  function AddPage(s: State, calloc: Option<nat>): Option<State> {
    if s.freeNodes != [] then
      Some(s.(nodes := [s.freeNodes[0]] + s.nodes, freeNodes := s.freeNodes[1..]))
    else if calloc.Some? then
      Some(s.(nodes := [Page(calloc.value, 0)] + s.nodes, owned := s.owned + {calloc.value}))
    else None
  }

  function Alloc(s: State, size: nat, calloc: Option<nat>): (State, Option<nat>)
    requires s.nodes != []
  {
    var (s1, r) := TakeFromActive(s, size);
    if r.Some? then (s1, r)
    else
      var s2 := AddPage(s, calloc);
      if s2.None? then (s, None) else TakeFromActive(s2.value, size)
  }

  function Emptied(nodes: seq<Page>): (r: seq<Page>)
    ensures |r| == |nodes|
  {
    seq(|nodes|, i requires 0 <= i < |nodes| => nodes[i].(offset := 0))
  }

  function Reset(s: State): State
    requires s.nodes != []
  {
    var e := Emptied(s.nodes);
    s.(nodes := [e[0]], freeNodes := e[1..], blocks := [])
  }

  // ----- what every allocation keeps

  predicate Apart(a: nat, sizeA: nat, b: nat, sizeB: nat) {
    a + sizeA <= b || b + sizeB <= a
  }

  /** What `calloc` promises: memory that overlaps no page obtained before. */
  ghost predicate FreshMemory(s: State, calloc: Option<nat>) {
    calloc.Some? ==> forall m :: m in s.owned ==> m != calloc.value && Apart(m, s.pageSize, calloc.value, s.pageSize)
  }

  ghost predicate PagesInv(s: State) {
    var all := s.nodes + s.freeNodes;
    && s.nodes != []
    && (forall i :: 0 <= i < |all| ==> all[i].memory in s.owned && all[i].offset <= s.pageSize)
    && (forall i, j :: 0 <= i < j < |all| ==> all[i].memory != all[j].memory)
    && (forall i :: 0 <= i < |s.freeNodes| ==> s.freeNodes[i].offset == 0)
    && (forall m, n :: m in s.owned && n in s.owned && m != n ==> Apart(m, s.pageSize, n, s.pageSize))
  }

  /** A block lies, aligned, in the used part of one page. */
  ghost predicate InPage(b: Block, nodes: seq<Page>) {
    && b.address % ALIGNMENT == 0
    && exists i :: 0 <= i < |nodes| && nodes[i].memory == b.page <= b.address
        && b.address + b.size <= b.page + nodes[i].offset
  }

  ghost predicate BlocksInv(s: State) {
    && (forall b :: b in s.blocks ==> InPage(b, s.nodes))
    && (forall i, j :: 0 <= i < j < |s.blocks| ==>
          Apart(s.blocks[i].address, s.blocks[i].size, s.blocks[j].address, s.blocks[j].size))
  }

  ghost predicate Inv(s: State) {
    PagesInv(s) && BlocksInv(s)
  }

  lemma {:induction false} TakeKeepsPages(s: State, size: nat)
    requires PagesInv(s)
    ensures PagesInv(TakeFromActive(s, size).0)
  {
    var d := TakeFromActive(s, size).0;
    var all, all' := s.nodes + s.freeNodes, d.nodes + d.freeNodes;
    assert forall i :: 0 <= i < |all| ==> all'[i].memory == all[i].memory && (i > 0 ==> all'[i] == all[i]);
  }

  /** The new block is above every block of its page, and every other block is in another page. */
  lemma {:induction false} NewBlockApart(s: State, size: nat, b: Block)
    requires Inv(s) && b in s.blocks && Fits(s.nodes[0], s.pageSize, size)
    ensures Apart(b.address, b.size, s.nodes[0].memory + PageOffset(s.nodes[0]), size)
  {
    var i :| 0 <= i < |s.nodes| && s.nodes[i].memory == b.page <= b.address
        && b.address + b.size <= b.page + s.nodes[i].offset;
    var all := s.nodes + s.freeNodes;
    assert all[0] == s.nodes[0] && all[i] == s.nodes[i];
  }

  lemma {:induction false} StillInPage(b: Block, nodes: seq<Page>, p: Page)
    requires nodes != [] && InPage(b, nodes) && p.memory == nodes[0].memory && p.offset >= nodes[0].offset
    ensures InPage(b, nodes[0 := p])
  {
    var i :| 0 <= i < |nodes| && nodes[i].memory == b.page <= b.address
        && b.address + b.size <= b.page + nodes[i].offset;
    var nodes' := nodes[0 := p];
    assert nodes'[i].memory == b.page && b.address + b.size <= b.page + nodes'[i].offset;
  }

  lemma {:induction false} TakeKeeps(s: State, size: nat)
    requires Inv(s)
    ensures Inv(TakeFromActive(s, size).0)
  {
    TakeKeepsPages(s, size);
    if Fits(s.nodes[0], s.pageSize, size) {
      var p := s.nodes[0];
      var d := TakeFromActive(s, size).0;
      var taken := Block(p.memory, p.memory + PageOffset(p), size);
      AlignAligns(p.memory + p.offset);
      assert d.nodes[0].memory == taken.page && InPage(taken, d.nodes);
      forall b | b in d.blocks ensures InPage(b, d.nodes) {
        if b in s.blocks {
          StillInPage(b, s.nodes, d.nodes[0]);
        }
      }
      forall i, j | 0 <= i < j < |d.blocks|
        ensures Apart(d.blocks[i].address, d.blocks[i].size, d.blocks[j].address, d.blocks[j].size)
      {
        if j == |s.blocks| {
          NewBlockApart(s, size, s.blocks[i]);
        }
      }
    }
  }

  lemma {:induction false} AddPageKeepsPages(s: State, calloc: Option<nat>)
    requires PagesInv(s) && FreshMemory(s, calloc) && AddPage(s, calloc).Some?
    ensures PagesInv(AddPage(s, calloc).value)
  {
    var d := AddPage(s, calloc).value;
    var all, all' := s.nodes + s.freeNodes, d.nodes + d.freeNodes;
    if s.freeNodes != [] {
      var n := |s.nodes|;
      assert all'[0] == all[n];
      assert forall i :: 1 <= i <= n ==> all'[i] == all[i - 1];
      assert forall i :: n < i < |all| ==> all'[i] == all[i];
      assert forall i :: 0 <= i < |d.freeNodes| ==> d.freeNodes[i] == s.freeNodes[i + 1];
    } else {
      assert all' == [Page(calloc.value, 0)] + all;
    }
  }

  lemma {:induction false} AddPageKeeps(s: State, calloc: Option<nat>)
    requires Inv(s) && FreshMemory(s, calloc) && AddPage(s, calloc).Some?
    ensures Inv(AddPage(s, calloc).value)
  {
    AddPageKeepsPages(s, calloc);
    var d := AddPage(s, calloc).value;
    forall b | b in s.blocks ensures InPage(b, d.nodes) {
      var i :| 0 <= i < |s.nodes| && s.nodes[i].memory == b.page <= b.address
          && b.address + b.size <= b.page + s.nodes[i].offset;
      assert d.nodes[i + 1] == s.nodes[i];
    }
  }

  /** An allocation keeps the invariant: in particular a successful one returns an aligned block inside one
      page that overlaps none of those handed out since the last reset. */
  lemma {:induction false} AllocKeeps(s: State, size: nat, calloc: Option<nat>)
    requires Inv(s) && FreshMemory(s, calloc)
    ensures var (d, r) := Alloc(s, size, calloc);
            && Inv(d)
            && d.blocks == (if r.None? then s.blocks else s.blocks + [Block(d.nodes[0].memory, r.value, size)])
  {
    TakeKeeps(s, size);
    if !Fits(s.nodes[0], s.pageSize, size) && AddPage(s, calloc).Some? {
      AddPageKeeps(s, calloc);
      TakeKeeps(AddPage(s, calloc).value, size);
    }
  }

  // ----- when an allocation succeeds

  /** Between what is used of the page and its end there is room for `size` bytes from `address`, a multiple of 16. */
  predicate RoomAt(p: Page, pageSize: nat, size: nat, address: nat) {
    address % 16 == 0 && p.memory + p.offset <= address && address + size <= p.memory + pageSize
  }

  ghost predicate HasRoom(p: Page, pageSize: nat, size: nat) {
    exists address: nat :: RoomAt(p, pageSize, size, address)
  }

  /** The block at `address` is the first that fits, and all the page has used ends with it. */
  predicate Placed(p: Page, after: Page, pageSize: nat, size: nat, address: nat) {
    && RoomAt(p, pageSize, size, address) && address < p.memory + p.offset + 16
    && after.memory == p.memory && after.memory + after.offset == address + size
  }

  /** The page put in front when the active one is full. */
  function NextPage(s: State, calloc: Option<nat>): Option<Page> {
    if s.freeNodes != [] then Some(s.freeNodes[0]) else if calloc.Some? then Some(Page(calloc.value, 0)) else None
  }

  lemma {:induction false} TakePlaces(s: State, size: nat)
    requires s.nodes != []
    ensures var (d, r) := TakeFromActive(s, size);
            && (r.Some? <==> HasRoom(s.nodes[0], s.pageSize, size))
            && (r.None? ==> d == s)
            && (r.Some? ==>
                  && |d.nodes| == |s.nodes| && Placed(s.nodes[0], d.nodes[0], s.pageSize, size, r.value)
                  && d.nodes[1..] == s.nodes[1..] && d.freeNodes == s.freeNodes && d.owned == s.owned)
  {
    var p := s.nodes[0];
    AlignAligns(p.memory + p.offset);
    var first := p.memory + PageOffset(p);
    assert first % 16 == 0 && p.memory + p.offset <= first < p.memory + p.offset + 16;
    forall address: nat | RoomAt(p, s.pageSize, size, address) ensures first <= address {
      FirstMultiple(p.memory + p.offset, first, address);
    }
    assert RoomAt(p, s.pageSize, size, first) <==> Fits(p, s.pageSize, size);
  }

  lemma {:induction false} FirstMultiple(from: nat, first: nat, other: nat)
    requires first % 16 == 0 && other % 16 == 0 && first < from + 16 && from <= other
    ensures first <= other
  {
  }

  /** An allocation succeeds exactly when the active page has room, or the next one, which is a page waiting for reuse
      if there is one.  It takes the first aligned place there is, wastes no other byte, and leaves all other pages
      as they are. */
  lemma {:induction false} AllocSucceedsIff(s: State, size: nat, calloc: Option<nat>)
    requires s.nodes != []
    ensures var (d, r) := Alloc(s, size, calloc);
            var active, next := s.nodes[0], NextPage(s, calloc);
            if HasRoom(active, s.pageSize, size) then
              && r.Some? && |d.nodes| == |s.nodes| && Placed(active, d.nodes[0], s.pageSize, size, r.value)
              && d.nodes[1..] == s.nodes[1..] && d.freeNodes == s.freeNodes && d.owned == s.owned
            else if next.None? then r.None? && d == s
            else
              && |d.nodes| == |s.nodes| + 1 && d.nodes[1..] == s.nodes
              && (if s.freeNodes != [] then d.freeNodes == s.freeNodes[1..] && d.owned == s.owned
                  else d.freeNodes == [] && d.owned == s.owned + {calloc.value})
              && (r.Some? <==> HasRoom(next.value, s.pageSize, size))
              && (if r.Some? then Placed(next.value, d.nodes[0], s.pageSize, size, r.value)
                  else d.nodes[0] == next.value)
  {
    hide TakeFromActive, Placed, HasRoom;
    TakePlaces(s, size);
    var added := AddPage(s, calloc);
    if added.Some? {
      assert added.value.nodes[1..] == s.nodes && added.value.nodes[0] == NextPage(s, calloc).value;
      TakePlaces(added.value, size);
      if !HasRoom(s.nodes[0], s.pageSize, size) {
        assert Alloc(s, size, calloc) == TakeFromActive(added.value, size);
        assert |added.value.nodes| == |s.nodes| + 1;
        var d := TakeFromActive(added.value, size).0;
        assert |d.nodes| == |s.nodes| + 1;
      }
    }
  }

  lemma {:induction false} ResetKeeps(s: State)
    requires Inv(s)
    ensures Inv(Reset(s))
  {
    var d := Reset(s);
    var all, all' := s.nodes + s.freeNodes, d.nodes + d.freeNodes;
    assert forall i :: 0 <= i < |all'| ==> all'[i].memory == all[i].memory && all'[i].offset == 0;
  }

  // ----- runs

  datatype Event = Allocate(size: nat, calloc: Option<nat>) | ResetAll

  function Next(s: State, e: Event): State
    requires s.nodes != []
  {
    match e
    case Allocate(size, calloc) => Alloc(s, size, calloc).0
    case ResetAll => Reset(s)
  }

  function Fresh(pageSize: nat, memory: nat): State {
    State(pageSize, [Page(memory, 0)], [], {memory}, [])
  }

  ghost predicate IsRun(states: seq<State>, events: seq<Event>, pageSize: nat, memory: nat) {
    && |states| == |events| + 1
    && states[0] == Fresh(pageSize, memory)
    && forall i :: 0 <= i < |events| ==>
         && states[i].nodes != []
         && (events[i].Allocate? ==> FreshMemory(states[i], events[i].calloc))
         && states[i + 1] == Next(states[i], events[i])
  }

  lemma {:induction false} EveryState(states: seq<State>, events: seq<Event>, pageSize: nat, memory: nat, i: nat)
    requires IsRun(states, events, pageSize, memory) && i < |states|
    ensures Inv(states[i])
  {
    if i > 0 {
      EveryState(states, events, pageSize, memory, i - 1);
      match events[i - 1]
      case Allocate(size, calloc) => AllocKeeps(states[i - 1], size, calloc);
      case ResetAll => ResetKeeps(states[i - 1]);
    }
  }

  /** In every run, any two blocks handed out since the last reset are aligned, lie each inside one page, and do
      not overlap; and every page waiting for reuse is empty. */
  lemma {:induction false} BlocksNeverOverlap(states: seq<State>, events: seq<Event>, pageSize: nat, memory: nat,
      i: nat)
    requires IsRun(states, events, pageSize, memory) && i < |states|
    ensures var s := states[i];
            && (forall b :: b in s.blocks ==> InsidePage(b, s.nodes, pageSize))
            && (forall j, k :: 0 <= j < k < |s.blocks| ==>
                  Apart(s.blocks[j].address, s.blocks[j].size, s.blocks[k].address, s.blocks[k].size))
            && (forall p :: p in s.freeNodes ==> p.offset == 0)
  {
    EveryState(states, events, pageSize, memory, i);
    SizeIsFixed(states, events, pageSize, memory, i);
    var s := states[i];
    forall b | b in s.blocks ensures InsidePage(b, s.nodes, pageSize) {
      InPageIsInside(s, b);
    }
  }

  /** A block lies, aligned, between the first and the last byte of one page in use. */
  ghost predicate InsidePage(b: Block, nodes: seq<Page>, pageSize: nat) {
    && b.address % ALIGNMENT == 0
    && b.page in Memories(nodes)
    && b.page <= b.address && b.address + b.size <= b.page + pageSize
  }

  lemma {:induction false} InPageIsInside(s: State, b: Block)
    requires PagesInv(s) && InPage(b, s.nodes)
    ensures InsidePage(b, s.nodes, s.pageSize)
  {
    var i :| 0 <= i < |s.nodes| && s.nodes[i].memory == b.page <= b.address
        && b.address + b.size <= b.page + s.nodes[i].offset;
    assert (s.nodes + s.freeNodes)[i] == s.nodes[i];
    assert Memories(s.nodes)[i] == b.page;
  }

  lemma {:induction false} SizeIsFixed(states: seq<State>, events: seq<Event>, pageSize: nat, memory: nat, i: nat)
    requires IsRun(states, events, pageSize, memory) && i < |states|
    ensures states[i].pageSize == pageSize
  {
    if i > 0 {
      SizeIsFixed(states, events, pageSize, memory, i - 1);
    }
  }

  // ----- what a reset keeps

  function Memories(pages: seq<Page>): (m: seq<nat>)
    ensures |m| == |pages|
  {
    seq(|pages|, i requires 0 <= i < |pages| => pages[i].memory)
  }

  /** A reset keeps exactly the pages in use, in order, all empty and one of them active; so it keeps every page
      the arena holds exactly when none was waiting for reuse. */
  lemma {:induction false} ResetKeepsPagesInUse(s: State)
    requires s.nodes != []
    ensures var d := Reset(s);
            && |d.nodes| == 1
            && Memories(d.nodes + d.freeNodes) == Memories(s.nodes)
            && (forall p :: p in d.nodes + d.freeNodes ==> p.offset == 0)
            && (|d.nodes + d.freeNodes| == |s.nodes + s.freeNodes| <==> s.freeNodes == [])
  {
    assert Reset(s).nodes + Reset(s).freeNodes == Emptied(s.nodes);
  }

  /** A run that loses a page: two pages are filled, and of two resets in a row the second forgets the page that
      the first one kept for reuse. */
  lemma {:induction false} SecondResetForgets(pageSize: nat, first: nat, second: nat)
    returns (states: seq<State>, events: seq<Event>)
    requires pageSize > 0 && first % ALIGNMENT == 0 && second % ALIGNMENT == 0
    requires Apart(first, pageSize, second, pageSize)
    ensures IsRun(states, events, pageSize, first) && |states| == 5 && events[3] == ResetAll
    ensures states[3].nodes == [Page(second, 0)] && states[3].freeNodes == [Page(first, 0)]
    ensures states[4].nodes == [Page(second, 0)] && states[4].freeNodes == []
  {
    events := [Allocate(pageSize, None), Allocate(pageSize, Some(second)), ResetAll, ResetAll];
    var s0 := Fresh(pageSize, first);
    assert PageOffset(s0.nodes[0]) == 0;
    var s1 := Next(s0, events[0]);
    assert s1.nodes == [Page(first, pageSize)];
    assert PageOffset(s1.nodes[0]) >= pageSize && PageOffset(Page(second, 0)) == 0;
    var s2 := Next(s1, events[1]);
    assert s2.nodes == [Page(second, pageSize), Page(first, pageSize)];
    var s3 := Next(s2, events[2]);
    states := [s0, s1, s2, s3, Next(s3, events[3])];
  }

  // ----- the arena itself

  class PagedArena {
    const pageSize: nat
    var nodes: seq<Page>
    var freeNodes: seq<Page>
    ghost var owned: set<nat>
    ghost var blocks: seq<Block>

    ghost function Contents(): State
      reads this
    {
      State(pageSize, nodes, freeNodes, owned, blocks)
    }

    /** `PagedArenaInit`, given the memory of the first page. */
    constructor (pageSize: nat, memory: nat)
      ensures Contents() == Fresh(pageSize, memory)
    {
      this.pageSize := pageSize;
      nodes, freeNodes := [Page(memory, 0)], [];
      owned, blocks := {memory}, [];
    }

    /** `MemArenaAlloc` on the active page. */
    method MemArenaAlloc(size: nat) returns (address: Option<nat>)
      requires nodes != []
      modifies this`nodes, this`blocks
      ensures (Contents(), address) == TakeFromActive(old(Contents()), size)
    {
      var p := nodes[0];
      var cursor := p.memory + p.offset;
      var offset := Align(cursor, ALIGNMENT) - p.memory;
      if offset + size <= pageSize {
        nodes := nodes[0 := p.(offset := offset + size)];
        blocks := blocks + [Block(p.memory, p.memory + offset, size)];
        return Some(p.memory + offset);
      }
      address := None;
    }

    method PagedArenaAlloc(size: nat, calloc: Option<nat>) returns (address: Option<nat>)
      requires nodes != [] && size > 0
      modifies this
      ensures (Contents(), address) == Alloc(old(Contents()), size, calloc)
    {
      address := MemArenaAlloc(size);
      if address.Some? {
        return;
      }
      var node;
      if freeNodes != [] {
        node := freeNodes[0];
        freeNodes := freeNodes[1..];
      } else {
        if calloc.None? {
          return None;
        }
        node := Page(calloc.value, 0);
        owned := owned + {calloc.value};
      }
      nodes := [node] + nodes;
      address := MemArenaAlloc(size);
    }

    method PagedArenaReset()
      requires nodes != []
      modifies this
      ensures Contents() == Reset(old(Contents()))
    {
      ghost var before := nodes;
      var i := 0;
      while i < |nodes|
        invariant i <= |nodes| == |before|
        invariant forall k :: 0 <= k < |nodes| ==> nodes[k] == if k < i then before[k].(offset := 0) else before[k]
        invariant freeNodes == old(freeNodes) && owned == old(owned)
      {
        nodes := nodes[i := nodes[i].(offset := 0)];
        i := i + 1;
      }
      assert nodes == Emptied(before);
      freeNodes := nodes[1..];
      nodes := [nodes[0]];
      blocks := [];
    }
  }
}
