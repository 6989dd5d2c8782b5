/** The heap profile as pprof: every sample becomes the path from its allocation node up to the root. */
module HeapSerializer {
  import opened Wrappers
  import HeapTree
  import opened PprofSerializer

  /** One live sample: the tree node it was allocated at, and its size in bytes. */
  datatype HeapSample = HeapSample(nodeId: nat, size: int)

  function FrameOf(e: HeapTree.Entry): Frame {
    Frame(e.scriptName, e.name, e.line)
  }

  function FramesOf(path: seq<HeapTree.Entry>): seq<Frame> {
    seq(|path|, i requires 0 <= i < |path| => FrameOf(path[i]))
  }

  /** The true call path of a tree node, innermost first: the names, scripts and lines of the nodes on the way from it
      up to the child of the root.  An id the tree does not have gives no frames. */
  ghost function CallPath(root: HeapTree.Node, m: HeapTree.TreeMap, nodeId: nat): seq<Frame>
    requires HeapTree.IsTreeMap(m, root)
  {
    if nodeId in m then
      var p := HeapTree.PathTo(m, root, nodeId);
      seq(|p|, k requires 0 <= k < |p| =>
        var n := p[|p| - 1 - k]; Frame(n.scriptName, n.name, n.line))
    else []
  }

  /** The entries met on the way up are those of the nodes. */
  lemma {:induction false} UpwardFrames(p: seq<HeapTree.Node>, rootId: nat, i: nat)
    requires i <= |p|
    ensures var path := FramesOf(HeapTree.Upward(p, rootId, i));
            && |path| == i
            && forall k :: 0 <= k < i ==>
                 var n := p[i - 1 - k]; path[k] == Frame(n.scriptName, n.name, n.line)
  {
    if i > 0 {
      UpwardFrames(p, rootId, i - 1);
      var up := HeapTree.Upward(p, rootId, i);
      assert up[1..] == HeapTree.Upward(p, rootId, i - 1);
      forall k | 1 <= k < i ensures FramesOf(up)[k] == FramesOf(up[1..])[k - 1] {
      }
    }
  }

  ghost function CallPaths(root: HeapTree.Node, m: HeapTree.TreeMap,
      samples: seq<HeapSample>): (stacks: seq<seq<Frame>>)
    requires HeapTree.IsTreeMap(m, root)
    ensures |stacks| == |samples|
  {
    seq(|samples|, i requires 0 <= i < |samples| => CallPath(root, m, samples[i].nodeId))
  }

  ghost function Concat(stacks: seq<seq<Frame>>): seq<Frame> {
    if stacks == [] then [] else Concat(stacks[..|stacks| - 1]) + stacks[|stacks| - 1]
  }

  lemma {:induction false} AmongConcat(stacks: seq<seq<Frame>>, i: nat, j: nat)
    requires i < |stacks| && j < |stacks[i]|
    ensures stacks[i][j] in Concat(stacks)
  {
    if i < |stacks| - 1 {
      AmongConcat(stacks[..|stacks| - 1], i, j);
    }
  }

  /** What every sample says besides its locations: its size, and the time of the collection. */
  ghost predicate Stamped(s: Sample, size: int, timestamp: int, strings: seq<string>) {
    && s.values == [size]
    && |s.labels| == 1
    && Read(s.labels[0], strings) == Some(ReadNum("source.event.time", timestamp))
  }

  /** `p` decodes to the call paths, sizes and time it was made from. */
  ghost predicate HeapDecodes(p: Profile, stacks: seq<seq<Frame>>, samples: seq<HeapSample>, timestamp: int) {
    && |p.samples| == |stacks| == |samples|
    && forall i :: 0 <= i < |stacks| ==>
         && |p.samples[i].locationIds| == |stacks[i]|
         && Stamped(p.samples[i], samples[i].size, timestamp, p.strings)
         && forall j :: 0 <= j < |stacks[i]| ==>
              Decodes(p, p.samples[i].locationIds[j], Decoded(Concat(stacks), stacks[i][j]))
  }

  ghost predicate HeapSampleOk(s: Sample, stack: seq<Frame>, size: int, timestamp: int,
      locationIndex: map<string, nat>, strings: seq<string>)
  {
    Located(s.locationIds, stack, locationIndex) && Stamped(s, size, timestamp, strings)
  }

  ghost predicate HeapSamplesOk(out: seq<Sample>, stacks: seq<seq<Frame>>, samples: seq<HeapSample>, timestamp: int,
                                locationIndex: map<string, nat>, strings: seq<string>)
  {
    && |out| == |stacks| <= |samples|
    && forall i :: 0 <= i < |out| ==>
        HeapSampleOk(out[i], stacks[i], samples[i].size, timestamp, locationIndex, strings)
  }

  lemma {:induction false} HeapSamplesAppend(out: seq<Sample>, stacks: seq<seq<Frame>>, samples: seq<HeapSample>,
      timestamp: int, m: map<string, nat>, strings: seq<string>, s: Sample, stack: seq<Frame>, more: map<string, nat>,
      strings': seq<string>)
    requires HeapSamplesOk(out, stacks, samples, timestamp, m, strings) && |out| < |samples|
    requires Extends(m, more) && strings <= strings' && Located(s.locationIds, stack, more)
    requires Stamped(s, samples[|out|].size, timestamp, strings)
    ensures HeapSamplesOk(out + [s], stacks + [stack], samples, timestamp, more, strings')
  {
    hide Located, Extends;
    forall i | 0 <= i < |out| ensures HeapSampleOk(out[i], stacks[i], samples[i].size, timestamp, more, strings') {
      LocatedStays(out[i].locationIds, stacks[i], m, more);
    }
  }

  lemma {:induction false} HeapSamplesDecode(p: Profile, stacks: seq<seq<Frame>>, samples: seq<HeapSample>,
      timestamp: int, functionIndex: map<string, nat>, locationIndex: map<string, nat>)
    requires |stacks| == |samples|
    requires FunctionsOk(p.functions, functionIndex, p.strings, Concat(stacks))
    requires LocationsOk(p.locations, locationIndex, functionIndex, Concat(stacks))
    requires HeapSamplesOk(p.samples, stacks, samples, timestamp, locationIndex, p.strings)
    ensures HeapDecodes(p, stacks, samples, timestamp)
  {
    hide FunctionsOk, LocationsOk, Stamped, Decodes, Decoded, LocationKey, Concat;
    forall i | 0 <= i < |stacks|
      ensures |p.samples[i].locationIds| == |stacks[i]| && Stamped(p.samples[i], samples[i].size, timestamp, p.strings)
    {
      assert HeapSampleOk(p.samples[i], stacks[i], samples[i].size, timestamp, locationIndex, p.strings);
    }
    forall i, j | 0 <= i < |stacks| && 0 <= j < |stacks[i]|
      ensures |p.samples[i].locationIds| == |stacks[i]|
      ensures Decodes(p, p.samples[i].locationIds[j], Decoded(Concat(stacks), stacks[i][j]))
    {
      assert HeapSampleOk(p.samples[i], stacks[i], samples[i].size, timestamp, locationIndex, p.strings);
      AmongConcat(stacks, i, j);
      TablesDecode(p, functionIndex, locationIndex, Concat(stacks), stacks[i][j]);
    }
  }

  /** The frames from one node up to the root, found by following parent ids. */
  method FramesUp(m: HeapTree.TreeMap, nodeId: nat, ghost root: HeapTree.Node) returns (frames: seq<Frame>)
    requires HeapTree.IsTreeMap(m, root) && HeapTree.DistinctIds(root)
    ensures frames == CallPath(root, m, nodeId)
  {
    hide HeapTree.IsTreeMap, HeapTree.DistinctIds, HeapTree.Upward;
    ghost var p := if nodeId in m then HeapTree.PathTo(m, root, nodeId) else [];
    var path := HeapTree.WalkUp(m, nodeId, root, p);
    UpwardFrames(p, root.id, |p|);
    frames := FramesOf(path);
  }

  /** `serializeHeapProfile` with a new serializer, on the tree map of `root`. */
  method SerializeHeapProfile(samples: seq<HeapSample>, m: HeapTree.TreeMap, timestamp: int, ghost root: HeapTree.Node)
    returns (p: Profile)
    requires HeapTree.IsTreeMap(m, root) && HeapTree.DistinctIds(root)
    ensures HeapDecodes(p, CallPaths(root, m, samples), samples, timestamp) && TablesDense(p)
  {
    hide HeapTree.IsTreeMap, HeapTree.DistinctIds, CallPath, FunctionsOk, LocationsOk, StringTable.Valid, HeapSamplesOk,
        Located, Extends, HeapDecodes, TablesDense, StringsDense;
    var s := new Serializer();
    var sourceEventTime := s.GetIndex("source.event.time");
    var labels := [NumLabel(sourceEventTime, timestamp)];
    var out: seq<Sample> := [];
    ghost var stacks: seq<seq<Frame>> := [];
    NoHeapSamples(samples, timestamp, s.locationIndex, s.stringTable.order);
    for i := 0 to |samples|
      invariant s.Valid() && fresh(s) && fresh(s.stringTable) && |out| == |stacks| == i
      invariant sourceEventTime < |s.stringTable.order| && s.stringTable.order[sourceEventTime] == "source.event.time"
      invariant s.seen == Concat(stacks)
      invariant HeapSamplesOk(out, stacks, samples, timestamp, s.locationIndex, s.stringTable.order)
      invariant forall k :: 0 <= k < i ==> stacks[k] == CallPath(root, m, samples[k].nodeId)
    {
      ghost var before, strings := s.locationIndex, s.stringTable.order;
      var frames := FramesUp(m, samples[i].nodeId, root);
      var ids := s.LocateAll(frames);
      var sample := Sample(ids, [samples[i].size], labels);
      HeapSamplesAppend(out, stacks, samples, timestamp, before, strings, sample, frames, s.locationIndex,
          s.stringTable.order);
      assert (stacks + [frames])[..i] == stacks;
      out := out + [sample];
      stacks := stacks + [frames];
    }
    assert stacks == CallPaths(root, m, samples);
    p := Profile(out, s.locations, s.functions, s.stringTable.order);
    HeapSamplesDecode(p, stacks, samples, timestamp, s.functionIndex, s.locationIndex);
    s.stringTable.OrderIsDense();
    SerializerTablesDense(p, s.functionIndex, s.locationIndex, s.seen);
  }

  lemma {:induction false} NoColonsInConcat(stacks: seq<seq<Frame>>)
    requires forall i :: 0 <= i < |stacks| ==> NoColons(stacks[i])
    ensures NoColons(Concat(stacks))
  {
    if stacks != [] {
      NoColonsInConcat(stacks[..|stacks| - 1]);
    }
  }

  /** A heap profile whose function names have no colon reads back as the call paths it was made from, with sizes and
      time. */
  lemma {:induction false} HeapProfileReadsBack(p: Profile, stacks: seq<seq<Frame>>, samples: seq<HeapSample>,
      timestamp: int)
    requires HeapDecodes(p, stacks, samples, timestamp)
    requires forall i :: 0 <= i < |stacks| ==> NoColons(stacks[i])
    ensures |p.samples| == |samples|
    ensures forall i :: 0 <= i < |samples| ==>
              && p.samples[i].values == [samples[i].size] && |p.samples[i].labels| == 1
              && HasNum(p.samples[i].labels[0], p.strings, "source.event.time", timestamp)
              && |p.samples[i].locationIds| == |stacks[i]|
              && forall j :: 0 <= j < |stacks[i]| ==> StandsFor(p, p.samples[i].locationIds[j], stacks[i][j])
  {
    hide Decodes, Decoded, Stamped;
    NoColonsInConcat(stacks);
    NoColonDecodes(Concat(stacks));
    forall i | 0 <= i < |samples|
      ensures p.samples[i].values == [samples[i].size] && |p.samples[i].labels| == 1
      ensures HasNum(p.samples[i].labels[0], p.strings, "source.event.time", timestamp)
    {
      StampRead(p.samples[i], samples[i].size, timestamp, p.strings);
    }
    forall i, j | 0 <= i < |stacks| && 0 <= j < |stacks[i]|
      ensures StandsFor(p, p.samples[i].locationIds[j], stacks[i][j])
    {
      AmongConcat(stacks, i, j);
      assert Decoded(Concat(stacks), stacks[i][j]) == Reported(stacks[i][j]);
    }
  }

  lemma {:induction false} StampRead(s: Sample, size: int, timestamp: int, strings: seq<string>)
    requires Stamped(s, size, timestamp, strings)
    ensures s.values == [size] && |s.labels| == 1 && HasNum(s.labels[0], strings, "source.event.time", timestamp)
  {
  }

  lemma {:induction false} NoHeapSamples(samples: seq<HeapSample>, timestamp: int, locationIndex: map<string, nat>,
      strings: seq<string>)
    ensures HeapSamplesOk([], [], samples, timestamp, locationIndex, strings)
  {
  }
}
