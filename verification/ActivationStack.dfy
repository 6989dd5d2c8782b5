/** The stack of open activations of one context: two inline slots that spill into arena memory. */
module ActivationStack {
  import opened Wrappers

  /** An open activation; the end time is only written when it is popped. */
  datatype OpenSpan = OpenSpan(traceId: string, spanId: string, startTime: int)

  const MAX_ACTIVATIONS := 2

  const ZEROED := OpenSpan("", "", 0)

  /** Stored by value in the span table, so a value here as well; `extra` is the arena block once spilled. */
  datatype ActivationStack = ActivationStack(count: nat, capacity: nat, activations: seq<OpenSpan>,
      extra: Option<seq<OpenSpan>>)
  {
    predicate Valid() {
      && |activations| == MAX_ACTIVATIONS
      && count <= capacity
      && (extra.None? ==> capacity == MAX_ACTIVATIONS)
      && (extra.Some? ==> |extra.value| == capacity >= 4 * MAX_ACTIVATIONS)
    }

    /** The open activations, bottom first. */
    function Contents(): (c: seq<OpenSpan>)
      requires Valid()
      ensures |c| == count
    {
      (if extra.None? then activations else extra.value)[..count]
    }
  }

  function Init(): (s: ActivationStack)
    ensures s.Valid() && s.Contents() == []
  {
    ActivationStack(0, MAX_ACTIVATIONS, [ZEROED, ZEROED], None)
  }

  /** Moves the first `count` slots into a zeroed arena block. */
  method CopySlots(from: seq<OpenSpan>, count: nat, capacity: nat) returns (block: seq<OpenSpan>)
    requires count <= |from| && count <= capacity
    ensures |block| == capacity && block[..count] == from[..count]
  {
    block := seq(capacity, i => ZEROED);
    for i := 0 to count
      invariant |block| == capacity && block[..i] == from[..i]
    {
      block := block[i := from[i]];
    }
  }

  /** Pushes `a`; fails, leaving the stack as it was, only when a needed arena block is refused. */
  method Push(stack: ActivationStack, a: OpenSpan, alloc: bool) returns (pushed: ActivationStack, ok: bool)
    requires stack.Valid()
    ensures pushed.Valid()
    ensures ok <==> alloc || stack.count < stack.capacity
    ensures pushed.count == (if ok then stack.count + 1 else stack.count)
    ensures pushed.capacity == if !ok || stack.count < stack.capacity then stack.capacity
                               else if stack.extra.None? then 8 else stack.capacity * 3 / 2
    ensures pushed.Contents() == if ok then stack.Contents() + [a] else stack.Contents()
  {
    pushed := stack;
    if pushed.extra.None? {
      if pushed.count < MAX_ACTIVATIONS {
        pushed := pushed.(activations := pushed.activations[pushed.count := a], count := pushed.count + 1);
        return pushed, true;
      }
      if !alloc {
        return stack, false;
      }
      var block := CopySlots(pushed.activations, pushed.count, 4 * MAX_ACTIVATIONS);
      pushed := pushed.(extra := Some(block), capacity := 4 * MAX_ACTIVATIONS);
    }
    if pushed.count >= pushed.capacity {
      if !alloc {
        return stack, false;
      }
      var newCapacity := pushed.capacity * 3 / 2;
      var block := CopySlots(pushed.extra.value, pushed.count, newCapacity);
      pushed := pushed.(extra := Some(block), capacity := newCapacity);
    }
    pushed := pushed.(extra := Some(pushed.extra.value[pushed.count := a]), count := pushed.count + 1);
    ok := true;
  }

  /** Pops the innermost open activation, if there is one. */
  method Pop(stack: ActivationStack) returns (popped: ActivationStack, top: Option<OpenSpan>)
    requires stack.Valid()
    ensures popped.Valid()
    ensures stack.count == 0 ==> top == None && popped == stack
    ensures stack.count > 0 ==> top.Some? && stack.Contents() == popped.Contents() + [top.value]
  {
    if stack.count == 0 {
      return stack, None;
    }
    var index := stack.count - 1;
    popped := stack.(count := index);
    top := Some(if stack.extra.None? then stack.activations[index] else stack.extra.value[index]);
  }
}
