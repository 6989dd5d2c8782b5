/** The pprof serializer: frames are interned as locations, functions and strings, and can be decoded again. */
module PprofSerializer {
  import opened Wrappers
  import opened Arithmetic
  import Decimal

  datatype Frame = Frame(fileName: string, functionName: string, line: int)

  datatype Function = Function(id: nat, name: nat, systemName: nat, filename: nat)

  datatype Location = Location(id: nat, functionId: nat, line: int)

  /** A label has a string value, as an index, or a number. */
  datatype Label = StrLabel(key: nat, str: nat) | NumLabel(key: nat, num: int)

  datatype Sample = Sample(locationIds: seq<nat>, values: seq<int>, labels: seq<Label>)

  datatype Profile = Profile(samples: seq<Sample>, locations: seq<Location>, functions: seq<Function>,
      strings: seq<string>)

  // ----- keys

  function FunctionKey(f: Frame): string {
    f.fileName + (":" + f.functionName)
  }

  function LocationKey(f: Frame): string {
    FunctionKey(f) + (":" + Decimal.Print(f.line))
  }

  lemma {:induction false} NoColonBehind(a: string, b: string)
    requires ':' !in b
    ensures var s := a + (":" + b);
            s[|a|] == ':' && (forall k :: |a| < k < |s| ==> s[k] != ':') && s[..|a|] == a && s[|a| + 1..] == b
  {
  }

  /** The last colon splits a string in one way only. */
  lemma {:induction false} LastColon(a: string, b: string, c: string, d: string)
    requires a + (":" + b) == c + (":" + d) && ':' !in b && ':' !in d
    ensures a == c && b == d
  {
    NoColonBehind(a, b);
    NoColonBehind(c, d);
    assert |a| == |c|;
  }

  /** The line number has no colon, so a location key determines the function key and the line. */
  lemma {:induction false} LocationKeyDetermines(f: Frame, g: Frame)
    requires LocationKey(f) == LocationKey(g)
    ensures FunctionKey(f) == FunctionKey(g) && f.line == g.line
  {
    Decimal.ParseOfPrint(f.line);
    Decimal.ParseOfPrint(g.line);
    LastColon(FunctionKey(f), Decimal.Print(f.line), FunctionKey(g), Decimal.Print(g.line));
    Decimal.PrintInjective(f.line, g.line);
  }

  predicate SameFunction(f: Frame, g: Frame) {
    f.fileName == g.fileName && f.functionName == g.functionName
  }

  /** Function names without colons make function keys unambiguous. */
  lemma {:induction false} NoColonNoCollision(f: Frame, g: Frame)
    requires ':' !in f.functionName && ':' !in g.functionName && FunctionKey(f) == FunctionKey(g)
    ensures SameFunction(f, g)
  {
    LastColon(f.fileName, f.functionName, g.fileName, g.functionName);
  }

  /** With colons they are not: two different functions, one key. */
  lemma {:induction false} ColonCollision()
    ensures var f, g := Frame("a", "b:c", 1), Frame("a:b", "c", 1);
            FunctionKey(f) == FunctionKey(g) && LocationKey(f) == LocationKey(g) && !SameFunction(f, g)
  {
    assert "a" + (":" + "b:c") == "a:b" + (":" + "c");
  }

  // ----- interning tables

  function FunctionKeys(seen: seq<Frame>): set<string> {
    set f | f in seen :: FunctionKey(f)
  }

  function LocationKeys(seen: seq<Frame>): set<string> {
    set f | f in seen :: LocationKey(f)
  }

  lemma {:induction false} KeysAppend(seen: seq<Frame>, f: Frame)
    ensures FunctionKeys(seen + [f]) == FunctionKeys(seen) + {FunctionKey(f)}
    ensures LocationKeys(seen + [f]) == LocationKeys(seen) + {LocationKey(f)}
    ensures FunctionKey(f) in FunctionKeys(seen) ==> FunctionKeys(seen + [f]) == FunctionKeys(seen)
    ensures LocationKey(f) in LocationKeys(seen) ==> LocationKeys(seen + [f]) == LocationKeys(seen)
    ensures forall g :: g in seen ==> FunctionKey(g) in FunctionKeys(seen) && LocationKey(g) in LocationKeys(seen)
    ensures forall g :: g in seen + [f] <==> g in seen || g == f
  {
    assert forall g :: g in seen + [f] <==> g in seen || g == f;
  }

  lemma {:induction false} SeenWithFunctionKey(seen: seq<Frame>, f: Frame) returns (known: Frame)
    requires FunctionKey(f) in FunctionKeys(seen)
    ensures known in seen && FunctionKey(known) == FunctionKey(f)
  {
    known :| known in seen && FunctionKey(known) == FunctionKey(f);
  }

  /** Some frame seen before has this location key. */
  lemma {:induction false} SeenWithKey(seen: seq<Frame>, f: Frame) returns (known: Frame)
    requires LocationKey(f) in LocationKeys(seen)
    ensures known in seen && LocationKey(known) == LocationKey(f) && FunctionKey(known) == FunctionKey(f)
    ensures known.line == f.line
  {
    known :| known in seen && LocationKey(known) == LocationKey(f);
    LocationKeyDetermines(known, f);
  }

  /** The first of `seen` with the function key of `f`. */
  function FirstLike(seen: seq<Frame>, f: Frame): Frame {
    if seen == [] then f
    else if FunctionKey(seen[0]) == FunctionKey(f) then seen[0]
    else FirstLike(seen[1..], f)
  }

  lemma {:induction false} FirstLikeAppend(seen: seq<Frame>, g: Frame, f: Frame)
    ensures (exists h :: h in seen && FunctionKey(h) == FunctionKey(f)) ==>
        FirstLike(seen + [g], f) == FirstLike(seen, f)
    ensures (forall h :: h in seen ==> FunctionKey(h) != FunctionKey(f)) && FunctionKey(g) == FunctionKey(f) ==>
              FirstLike(seen + [g], f) == g
    ensures FunctionKey(FirstLike(seen, f)) == FunctionKey(f)
    ensures FirstLike(seen, f) in seen + [f]
  {
    if seen != [] {
      assert (seen + [g])[1..] == seen[1..] + [g];
      FirstLikeAppend(seen[1..], g, f);
    }
  }

  lemma {:induction false} FirstLikeKey(seen: seq<Frame>, f: Frame, g: Frame)
    requires FunctionKey(f) == FunctionKey(g) && exists h :: h in seen && FunctionKey(h) == FunctionKey(f)
    ensures FirstLike(seen, f) == FirstLike(seen, g)
  {
    if FunctionKey(seen[0]) != FunctionKey(f) {
      var h :| h in seen && FunctionKey(h) == FunctionKey(f);
      assert h in seen[1..];
      FirstLikeKey(seen[1..], f, g);
    }
  }

  class StringTable {
    /** `_stringMap`: a JavaScript map, which keeps its keys in insertion order. */
    var order: seq<string>
    var index: map<string, nat>

    ghost predicate Valid()
      reads this
    {
      && |order| == |index|
      && order != [] && order[0] == ""
      && (forall i :: 0 <= i < |order| ==> order[i] in index && index[order[i]] == i)
      && (forall s :: s in index ==> index[s] < |order| && order[index[s]] == s)
    }

    constructor ()
      ensures Valid() && order == [""]
    {
      order, index := [""], map["" := 0];
    }

    lemma {:induction false} OrderIsDense()
      requires Valid()
      ensures StringsDense(order)
    {
    }

    /** The index of `str`, interning it if it is new.  Indices are dense and never change. */
    method GetIndex(str: string) returns (idx: nat)
      requires Valid()
      modifies this
      ensures Valid() && order == (if str in old(order) then old(order) else old(order) + [str])
      ensures idx < |order| && order[idx] == str
    {
      if str in index {
        return index[str];
      }
      idx := |index|;
      index := index[str := idx];
      order := order + [str];
    }
  }

  /** A string table: the empty string first, and no string twice. */
  ghost predicate StringsDense(strings: seq<string>) {
    && strings != [] && strings[0] == ""
    && forall i, j :: 0 <= i < j < |strings| ==> strings[i] != strings[j]
  }

  /** The three tables of a profile: strings without repetition, and locations and functions numbered from 1. */
  ghost predicate TablesDense(p: Profile) {
    && StringsDense(p.strings)
    && (forall i :: 0 <= i < |p.locations| ==> p.locations[i].id == i + 1)
    && (forall i :: 0 <= i < |p.functions| ==> p.functions[i].id == i + 1)
  }

  lemma {:induction false} SerializerTablesDense(p: Profile, functionIndex: map<string, nat>,
      locationIndex: map<string, nat>, seen: seq<Frame>)
    requires StringsDense(p.strings)
    requires FunctionsOk(p.functions, functionIndex, p.strings, seen)
    requires LocationsOk(p.locations, locationIndex, functionIndex, seen)
    ensures TablesDense(p)
  {
  }

  ghost predicate Extends(m: map<string, nat>, more: map<string, nat>) {
    forall k :: k in m ==> k in more && more[k] == m[k]
  }

  /** What a location id stands for. */
  ghost predicate Decodes(p: Profile, locationId: nat, f: Frame) {
    && 1 <= locationId <= |p.locations|
    && var l := p.locations[locationId - 1];
       && l.id == locationId
       && 1 <= l.functionId <= |p.functions|
       && var fn := p.functions[l.functionId - 1];
          && fn.id == l.functionId
          && fn.name == fn.systemName && fn.name < |p.strings| && fn.filename < |p.strings|
          && f == Frame(p.strings[fn.filename], p.strings[fn.name], l.line)
  }

  /** How the serializer reports a frame: line 0 as -1. */
  function Reported(f: Frame): Frame {
    f.(line := if f.line != 0 then f.line else -1)
  }

  /** The functions interned for `seen`, in terms of the string table. */
  ghost predicate FunctionsOk(functions: seq<Function>, functionIndex: map<string, nat>, strings: seq<string>,
      seen: seq<Frame>)
  {
    && |functions| == |functionIndex|
    && (forall i :: 0 <= i < |functions| ==> functions[i].id == i + 1)
    && functionIndex.Keys == FunctionKeys(seen)
    && (forall f :: f in seen ==>
          var i := functionIndex[FunctionKey(f)];
          i < |functions| && FunctionIs(functions[i], strings, FirstLike(seen, f)))
  }

  ghost predicate FunctionIs(fn: Function, strings: seq<string>, f: Frame) {
    && fn.name == fn.systemName && fn.name < |strings| && fn.filename < |strings|
    && strings[fn.name] == f.functionName && strings[fn.filename] == f.fileName
  }

  /** The locations interned for `seen`, in terms of the function table. */
  ghost predicate LocationsOk(locations: seq<Location>, locationIndex: map<string, nat>,
      functionIndex: map<string, nat>, seen: seq<Frame>)
  {
    && |locations| == |locationIndex|
    && (forall i :: 0 <= i < |locations| ==> locations[i].id == i + 1)
    && locationIndex.Keys == LocationKeys(seen)
    && (forall f :: f in seen ==>
          var i := locationIndex[LocationKey(f)];
          && i < |locations| && FunctionKey(f) in functionIndex
          && locations[i] == Location(i + 1, functionIndex[FunctionKey(f)] + 1, Reported(f).line))
  }

  lemma {:induction false} FunctionStays(fn: Function, strings: seq<string>, more: seq<string>, f: Frame)
    requires FunctionIs(fn, strings, f) && strings <= more
    ensures FunctionIs(fn, more, f)
  {
  }

  /** A frame whose function key is known adds no function. */
  lemma {:induction false} KnownFunction(functions: seq<Function>, functionIndex: map<string, nat>,
      strings: seq<string>, seen: seq<Frame>, f: Frame)
    requires FunctionsOk(functions, functionIndex, strings, seen) && FunctionKey(f) in functionIndex
    ensures FunctionsOk(functions, functionIndex, strings, seen + [f])
  {
    hide FunctionKeys, FunctionIs, FunctionKey, FirstLike;
    KeysAppend(seen, f);
    var known := SeenWithFunctionKey(seen, f);
    forall g | g in seen + [f]
      ensures functionIndex[FunctionKey(g)] < |functions|
           && FunctionIs(functions[functionIndex[FunctionKey(g)]], strings, FirstLike(seen + [f], g))
    {
      var h := if g in seen then g else known;
      FirstLikeAppend(seen, f, g);
      FirstLikeKey(seen, h, g);
    }
  }

  /** A frame with a new function key adds one function. */
  lemma {:induction false} NewFunction(functions: seq<Function>, functionIndex: map<string, nat>, strings: seq<string>,
                                       more: seq<string>, seen: seq<Frame>, f: Frame, fn: Function)
    requires FunctionsOk(functions, functionIndex, strings, seen) && FunctionKey(f) !in functionIndex
    requires strings <= more && fn.id == |functions| + 1 && FunctionIs(fn, more, f)
    ensures FunctionsOk(functions + [fn], functionIndex[FunctionKey(f) := |functions|], more, seen + [f])
  {
    hide FunctionKeys, FunctionIs, FunctionKey, FirstLike;
    KeysAppend(seen, f);
    var functions', index' := functions + [fn], functionIndex[FunctionKey(f) := |functions|];
    forall g | g in seen + [f]
      ensures index'[FunctionKey(g)] < |functions'|
           && FunctionIs(functions'[index'[FunctionKey(g)]], more, FirstLike(seen + [f], g))
    {
      FirstLikeAppend(seen, f, g);
      if g in seen {
        FunctionStays(functions[functionIndex[FunctionKey(g)]], strings, more, FirstLike(seen, g));
      }
    }
  }

  lemma {:induction false} KnownLocation(locations: seq<Location>, locationIndex: map<string, nat>,
      functionIndex: map<string, nat>, seen: seq<Frame>, f: Frame)
    requires LocationsOk(locations, locationIndex, functionIndex, seen) && LocationKey(f) in locationIndex
    ensures LocationsOk(locations, locationIndex, functionIndex, seen + [f]) && FunctionKey(f) in functionIndex
  {
    hide LocationKeys, FunctionKeys, LocationKey, FunctionKey;
    KeysAppend(seen, f);
    var known := SeenWithKey(seen, f);
  }

  lemma {:induction false} NewLocation(locations: seq<Location>, locationIndex: map<string, nat>,
      functionIndex: map<string, nat>, more: map<string, nat>, seen: seq<Frame>, f: Frame)
    requires LocationsOk(locations, locationIndex, functionIndex, seen) && LocationKey(f) !in locationIndex
    requires FunctionKey(f) in more && Extends(functionIndex, more)
    ensures LocationsOk(locations + [Location(|locations| + 1, more[FunctionKey(f)] + 1, Reported(f).line)],
                        locationIndex[LocationKey(f) := |locations|], more, seen + [f])
  {
    hide LocationKeys, FunctionKeys, LocationKey, FunctionKey;
    KeysAppend(seen, f);
  }

  class Serializer {
    const stringTable: StringTable
    var locations: seq<Location>
    var locationIndex: map<string, nat>
    var functions: seq<Function>
    var functionIndex: map<string, nat>
    /** The frames interned so far, in order. */
    ghost var seen: seq<Frame>

    ghost predicate Valid()
      reads this, stringTable
    {
      && stringTable.Valid()
      && FunctionsOk(functions, functionIndex, stringTable.order, seen)
      && LocationsOk(locations, locationIndex, functionIndex, seen)
    }

    constructor ()
      ensures Valid() && seen == [] && fresh(stringTable)
    {
      stringTable := new StringTable();
      locations, locationIndex, functions, functionIndex, seen := [], map[], [], map[], [];
    }

    /** Interning a string that is no part of a frame. */
    method GetIndex(str: string) returns (idx: nat)
      requires Valid()
      modifies stringTable
      ensures Valid() && old(stringTable.order) <= stringTable.order
      ensures idx < |stringTable.order| && stringTable.order[idx] == str
    {
      hide LocationsOk;
      ghost var before := stringTable.order;
      idx := stringTable.GetIndex(str);
      StringsGrow(functions, functionIndex, before, stringTable.order, seen);
    }

    method GetFunction(f: Frame) returns (i: nat)
      requires Valid()
      modifies this`functions, this`functionIndex, stringTable
      ensures stringTable.Valid() && old(stringTable.order) <= stringTable.order
      ensures FunctionsOk(functions, functionIndex, stringTable.order, seen + [f])
      ensures old(functions) <= functions
      ensures Extends(old(functionIndex), functionIndex)
      ensures FunctionKey(f) in functionIndex && functionIndex[FunctionKey(f)] == i
    {
      hide FunctionsOk, LocationsOk, FunctionKey, StringTable.Valid;
      var key := FunctionKey(f);
      if key in functionIndex {
        KnownFunction(functions, functionIndex, stringTable.order, seen, f);
        return functionIndex[key];
      }
      ghost var before := stringTable.order;
      var functionNameId := stringTable.GetIndex(f.functionName);
      var filename := stringTable.GetIndex(f.fileName);
      var fn := Function(|functions| + 1, functionNameId, functionNameId, filename);
      NewFunction(functions, functionIndex, before, stringTable.order, seen, f, fn);
      i := |functions|;
      functionIndex := functionIndex[key := i];
      functions := functions + [fn];
    }

    method GetLocation(f: Frame) returns (id: nat)
      requires Valid()
      modifies this, stringTable
      ensures Valid() && seen == old(seen) + [f]
      ensures old(stringTable.order) <= stringTable.order && old(functions) <= functions && old(locations) <= locations
      ensures LocationKey(f) in locationIndex && id == locationIndex[LocationKey(f)] + 1
      ensures Extends(old(locationIndex), locationIndex)
    {
      hide FunctionsOk, LocationsOk, FunctionKey, LocationKey, StringTable.Valid;
      var key := LocationKey(f);
      if key in locationIndex {
        KnownLocation(locations, locationIndex, functionIndex, seen, f);
        KnownFunction(functions, functionIndex, stringTable.order, seen, f);
        seen := seen + [f];
        return locationIndex[key] + 1;
      }
      ghost var before := functionIndex;
      var fn := GetFunction(f);
      NewLocation(locations, locationIndex, before, functionIndex, seen, f);
      id := |locations| + 1;
      var line := if f.line != 0 then f.line else -1;
      locationIndex := locationIndex[key := |locations|];
      locations := locations + [Location(id, fn + 1, line)];
      seen := seen + [f];
    }

    /** The locations of a list of frames, in order. */
    method LocateAll(frames: seq<Frame>) returns (ids: seq<nat>)
      requires Valid()
      modifies this, stringTable
      ensures Valid() && seen == old(seen) + frames && old(stringTable.order) <= stringTable.order
      ensures Extends(old(locationIndex), locationIndex) && Located(ids, frames, locationIndex)
    {
      hide FunctionsOk, LocationsOk, StringTable.Valid, LocationKey;
      ids := [];
      for i := 0 to |frames|
        invariant Valid() && seen == old(seen) + frames[..i] && old(stringTable.order) <= stringTable.order
        invariant Extends(old(locationIndex), locationIndex) && Located(ids, frames[..i], locationIndex)
      {
        var id := GetLocation(frames[i]);
        ids := ids + [id];
        assert frames[..i + 1] == frames[..i] + [frames[i]];
      }
      assert frames[..|frames|] == frames;
    }

    /** The labels of one CPU sample. */
    method MakeLabels(stack: Stacktrace, str: Keys, period: int) returns (labels: seq<Label>)
      requires Valid() && KeysOk(str, stringTable.order)
      modifies stringTable
      ensures Valid() && old(stringTable.order) <= stringTable.order
      ensures LabelsOk(labels, stack, period, stringTable.order)
    {
      hide FunctionsOk, LocationsOk, StringTable.Valid;
      labels := [NumLabel(str.timestamp, TruncDiv(stack.timestamp, 1_000_000)), NumLabel(str.period, period)];
      if stack.traceId.Some? {
        var idx := GetIndex(stack.traceId.value);
        labels := labels + [StrLabel(str.traceId, idx)];
      }
      if stack.spanId.Some? {
        var idx := GetIndex(stack.spanId.value);
        labels := labels + [StrLabel(str.spanId, idx)];
      }
    }
  }

  /** Location ids that the location map gives these frames. */
  ghost predicate Located(ids: seq<nat>, frames: seq<Frame>, locationIndex: map<string, nat>) {
    && |ids| == |frames|
    && (forall j :: 0 <= j < |frames| ==>
          LocationKey(frames[j]) in locationIndex && ids[j] == locationIndex[LocationKey(frames[j])] + 1)
  }

  // ----- CPU profiles

  /** One CPU sample: its frames innermost first, its time in nanoseconds, and the ids of its span in hex. */
  datatype Stacktrace = Stacktrace(frames: seq<Frame>, timestamp: int, traceId: Option<string>, spanId: Option<string>)

  /** The indices of the label keys. */
  datatype Keys = Keys(timestamp: nat, traceId: nat, spanId: nat, period: nat)

  ghost predicate KeysOk(str: Keys, strings: seq<string>) {
    && str.timestamp < |strings| && strings[str.timestamp] == "source.event.time"
    && str.traceId < |strings| && strings[str.traceId] == "trace_id"
    && str.spanId < |strings| && strings[str.spanId] == "span_id"
    && str.period < |strings| && strings[str.period] == "source.event.period"
  }

  /** A label read back through the string table. */
  datatype ReadLabel = ReadStr(key: string, str: string) | ReadNum(key: string, num: int)

  function Read(l: Label, strings: seq<string>): Option<ReadLabel> {
    match l
    case StrLabel(k, s) => if k < |strings| && s < |strings| then Some(ReadStr(strings[k], strings[s])) else None
    case NumLabel(k, n) => if k < |strings| then Some(ReadNum(strings[k], n)) else None
  }

  function ExpectedLabels(stack: Stacktrace, period: int): seq<ReadLabel> {
    [ReadNum("source.event.time", TruncDiv(stack.timestamp, 1_000_000)), ReadNum("source.event.period", period)]
    + (if stack.traceId.Some? then [ReadStr("trace_id", stack.traceId.value)] else [])
    + (if stack.spanId.Some? then [ReadStr("span_id", stack.spanId.value)] else [])
  }

  /** The labels read back as the time in milliseconds, the period, and the ids. */
  ghost predicate LabelsOk(labels: seq<Label>, stack: Stacktrace, period: int, strings: seq<string>) {
    var expected := ExpectedLabels(stack, period);
    && |labels| == |expected|
    && (forall i :: 0 <= i < |labels| ==> Read(labels[i], strings) == Some(expected[i]))
  }

  function AllFrames(stacks: seq<Stacktrace>): seq<Frame> {
    if stacks == [] then [] else AllFrames(stacks[..|stacks| - 1]) + stacks[|stacks| - 1].frames
  }

  /** What a frame decodes to: the function of the first frame with its key, and its own line. */
  function Decoded(seen: seq<Frame>, f: Frame): Frame {
    var first := FirstLike(seen, f);
    Frame(first.fileName, first.functionName, Reported(f).line)
  }

  lemma {:induction false} TablesDecode(p: Profile, functionIndex: map<string, nat>, locationIndex: map<string, nat>,
                                        seen: seq<Frame>, f: Frame)
    requires FunctionsOk(p.functions, functionIndex, p.strings, seen)
    requires LocationsOk(p.locations, locationIndex, functionIndex, seen)
    requires f in seen
    ensures LocationKey(f) in locationIndex && Decodes(p, locationIndex[LocationKey(f)] + 1, Decoded(seen, f))
  {
    KeysAppend(seen, f);
    hide FirstLike, LocationKey, FunctionKey, LocationKeys, FunctionKeys;
  }

  /** Every frame decodes to itself, with line 0 read as -1, exactly when no two frames of the profile with
      different functions share a function key. */
  lemma {:induction false} DecodesToItselfIff(seen: seq<Frame>)
    ensures (forall f :: f in seen ==> Decoded(seen, f) == Reported(f))
            <==> forall f, g :: f in seen && g in seen && FunctionKey(f) == FunctionKey(g) ==> SameFunction(f, g)
  {
    hide FirstLike, FunctionKey, Reported, Decoded, SameFunction;
    if forall f :: f in seen ==> Decoded(seen, f) == Reported(f) {
      forall f, g | f in seen && g in seen && FunctionKey(f) == FunctionKey(g) ensures SameFunction(f, g) {
        SameKeySameFunction(seen, f, g);
      }
    }
    if forall f, g :: f in seen && g in seen && FunctionKey(f) == FunctionKey(g) ==> SameFunction(f, g) {
      forall f | f in seen ensures Decoded(seen, f) == Reported(f) {
        FirstLikeAppend(seen, f, f);
        FirstLikeAmong(seen, f);
        DecodedSame(seen, f);
      }
    }
  }

  lemma {:induction false} FirstLikeAmong(seen: seq<Frame>, f: Frame)
    requires f in seen
    ensures FirstLike(seen, f) in seen
  {
    FirstLikeAppend(seen, f, f);
  }

  lemma {:induction false} SameKeySameFunction(seen: seq<Frame>, f: Frame, g: Frame)
    requires f in seen && g in seen && FunctionKey(f) == FunctionKey(g)
    requires Decoded(seen, f) == Reported(f) && Decoded(seen, g) == Reported(g)
    ensures SameFunction(f, g)
  {
    hide FirstLike, FunctionKey, Reported, Decoded;
    FirstLikeKey(seen, f, g);
    DecodedSame(seen, f);
    DecodedSame(seen, g);
  }

  lemma {:induction false} DecodedSame(seen: seq<Frame>, f: Frame)
    ensures Decoded(seen, f) == Reported(f) <==> SameFunction(FirstLike(seen, f), f)
  {
  }

  predicate NoColons(frames: seq<Frame>) {
    forall f :: f in frames ==> ':' !in f.functionName
  }

  /** In particular they do when no function name contains a colon. */
  lemma {:induction false} NoColonDecodes(seen: seq<Frame>)
    requires NoColons(seen)
    ensures forall f :: f in seen ==> Decoded(seen, f) == Reported(f)
  {
    forall f, g | f in seen && g in seen && FunctionKey(f) == FunctionKey(g) ensures SameFunction(f, g) {
      NoColonNoCollision(f, g);
    }
    DecodesToItselfIff(seen);
  }

  lemma {:induction false} LabelsStay(labels: seq<Label>, stack: Stacktrace, period: int, strings: seq<string>,
      more: seq<string>)
    requires LabelsOk(labels, stack, period, strings) && strings <= more
    ensures LabelsOk(labels, stack, period, more)
  {
    forall i | 0 <= i < |labels| ensures Read(labels[i], more) == Some(ExpectedLabels(stack, period)[i]) {
      assert Read(labels[i], strings) == Some(ExpectedLabels(stack, period)[i]);
    }
  }

  lemma {:induction false} LocatedStays(ids: seq<nat>, frames: seq<Frame>, m: map<string, nat>, more: map<string, nat>)
    requires Located(ids, frames, m) && Extends(m, more)
    ensures Located(ids, frames, more)
  {
  }

  /** A sample stands for a stack: its location ids are those of the frames, its labels read back, and it has no
      values. */
  ghost predicate SampleOk(s: Sample, stack: Stacktrace, period: int, locationIndex: map<string, nat>,
      strings: seq<string>)
  {
    && Located(s.locationIds, stack.frames, locationIndex) && LabelsOk(s.labels, stack, period, strings)
    && s.values == []
  }

  ghost predicate SamplesOk(samples: seq<Sample>, stacks: seq<Stacktrace>, period: int,
      locationIndex: map<string, nat>, strings: seq<string>)
  {
    |samples| == |stacks| && forall i :: 0 <= i < |samples| ==>
        SampleOk(samples[i], stacks[i], period, locationIndex, strings)
  }

  lemma {:induction false} SamplesAppend(samples: seq<Sample>, stacks: seq<Stacktrace>, period: int,
      m: map<string, nat>, strings: seq<string>, s: Sample, stack: Stacktrace, more: map<string, nat>,
      strings': seq<string>)
    requires SamplesOk(samples, stacks, period, m, strings) && Extends(m, more) && strings <= strings'
    requires SampleOk(s, stack, period, more, strings')
    ensures SamplesOk(samples + [s], stacks + [stack], period, more, strings')
  {
    hide Located, LabelsOk, Extends;
    forall i | 0 <= i < |samples| ensures SampleOk(samples[i], stacks[i], period, more, strings') {
      assert SampleOk(samples[i], stacks[i], period, m, strings);
      LocatedStays(samples[i].locationIds, stacks[i].frames, m, more);
      LabelsStay(samples[i].labels, stacks[i], period, strings, strings');
    }
  }

  /** `p` decodes to the stacks it was made from. */
  ghost predicate ProfileDecodes(p: Profile, stacks: seq<Stacktrace>, period: int) {
    && |p.samples| == |stacks|
    && forall i :: 0 <= i < |stacks| ==>
         && |p.samples[i].locationIds| == |stacks[i].frames| && p.samples[i].values == []
         && LabelsOk(p.samples[i].labels, stacks[i], period, p.strings)
         && forall j :: 0 <= j < |stacks[i].frames| ==>
              Decodes(p, p.samples[i].locationIds[j], Decoded(AllFrames(stacks), stacks[i].frames[j]))
  }

  lemma {:induction false} FramesAmongAll(stacks: seq<Stacktrace>, i: nat, j: nat)
    requires i < |stacks| && j < |stacks[i].frames|
    ensures stacks[i].frames[j] in AllFrames(stacks)
  {
    if i < |stacks| - 1 {
      FramesAmongAll(stacks[..|stacks| - 1], i, j);
    }
  }

  lemma {:induction false} SamplesDecode(p: Profile, stacks: seq<Stacktrace>, period: int,
                                         functionIndex: map<string, nat>, locationIndex: map<string, nat>)
    requires FunctionsOk(p.functions, functionIndex, p.strings, AllFrames(stacks))
    requires LocationsOk(p.locations, locationIndex, functionIndex, AllFrames(stacks))
    requires SamplesOk(p.samples, stacks, period, locationIndex, p.strings)
    ensures ProfileDecodes(p, stacks, period)
  {
    hide FunctionsOk, LocationsOk, LabelsOk, Decodes, Decoded, LocationKey, AllFrames;
    forall i, j | 0 <= i < |stacks| && 0 <= j < |stacks[i].frames|
      ensures |p.samples[i].locationIds| == |stacks[i].frames|
      ensures Decodes(p, p.samples[i].locationIds[j], Decoded(AllFrames(stacks), stacks[i].frames[j]))
    {
      assert SampleOk(p.samples[i], stacks[i], period, locationIndex, p.strings);
      FramesAmongAll(stacks, i, j);
      TablesDecode(p, functionIndex, locationIndex, AllFrames(stacks), stacks[i].frames[j]);
    }
    forall i | 0 <= i < |stacks|
      ensures |p.samples[i].locationIds| == |stacks[i].frames| && p.samples[i].values == []
      ensures LabelsOk(p.samples[i].labels, stacks[i], period, p.strings)
    {
      assert SampleOk(p.samples[i], stacks[i], period, locationIndex, p.strings);
    }
  }

  /** `serializeCpuProfile` with a new serializer. */
  method SerializeCpuProfile(stacks: seq<Stacktrace>, period: int) returns (p: Profile)
    ensures ProfileDecodes(p, stacks, period) && TablesDense(p)
  {
    hide FunctionsOk, LocationsOk, StringTable.Valid, SamplesOk, SampleOk, LabelsOk, Located, Extends, ProfileDecodes,
        TablesDense, StringsDense;
    var s := new Serializer();
    var timestamp := s.GetIndex("source.event.time");
    var traceId := s.GetIndex("trace_id");
    var spanId := s.GetIndex("span_id");
    var eventPeriod := s.GetIndex("source.event.period");
    var str := Keys(timestamp, traceId, spanId, eventPeriod);
    var samples: seq<Sample> := [];
    NoSamples(period, s.locationIndex, s.stringTable.order);
    assert stacks[..0] == [];
    for i := 0 to |stacks|
      invariant s.Valid() && fresh(s) && fresh(s.stringTable) && KeysOk(str, s.stringTable.order)
      invariant s.seen == AllFrames(stacks[..i])
      invariant SamplesOk(samples, stacks[..i], period, s.locationIndex, s.stringTable.order)
    {
      ghost var m, strings := s.locationIndex, s.stringTable.order;
      var stack := stacks[i];
      assert stacks[..i + 1] == stacks[..i] + [stack] && stacks[..i + 1][..i] == stacks[..i];
      var labels := s.MakeLabels(stack, str, period);
      ghost var strings1 := s.stringTable.order;
      var ids := s.LocateAll(stack.frames);
      LabelsStay(labels, stack, period, strings1, s.stringTable.order);
      var sample := Sample(ids, [], labels);
      MakeSampleOk(sample, stack, period, s.locationIndex, s.stringTable.order);
      SamplesAppend(samples, stacks[..i], period, m, strings, sample, stack, s.locationIndex, s.stringTable.order);
      samples := samples + [sample];
    }
    assert stacks[..|stacks|] == stacks;
    p := Profile(samples, s.locations, s.functions, s.stringTable.order);
    SamplesDecode(p, stacks, period, s.functionIndex, s.locationIndex);
    s.stringTable.OrderIsDense();
    SerializerTablesDense(p, s.functionIndex, s.locationIndex, s.seen);
  }

  // ----- reading a profile back

  /** `q` is the milliseconds in `ts` nanoseconds, rounded toward zero. */
  predicate Milliseconds(q: int, ts: int) {
    if ts >= 0 then q * 1_000_000 <= ts < (q + 1) * 1_000_000 else (q - 1) * 1_000_000 < ts <= q * 1_000_000
  }

  ghost predicate HasNum(l: Label, strings: seq<string>, key: string, num: int) {
    l.NumLabel? && l.key < |strings| && strings[l.key] == key && l.num == num
  }

  ghost predicate HasStr(l: Label, strings: seq<string>, key: string, str: string) {
    l.StrLabel? && l.key < |strings| && strings[l.key] == key && l.str < |strings| && strings[l.str] == str
  }

  /** Time, period, and the ids that there are, in this order. */
  ghost predicate HasLabels(labels: seq<Label>, strings: seq<string>, stack: Stacktrace, period: int) {
    var n := if stack.traceId.Some? then 3 else 2;
    && |labels| == (if stack.spanId.Some? then n + 1 else n)
    && labels[0].NumLabel? && Milliseconds(labels[0].num, stack.timestamp)
    && HasNum(labels[0], strings, "source.event.time", labels[0].num)
    && HasNum(labels[1], strings, "source.event.period", period)
    && (stack.traceId.Some? ==> HasStr(labels[2], strings, "trace_id", stack.traceId.value))
    && (stack.spanId.Some? ==> HasStr(labels[n], strings, "span_id", stack.spanId.value))
  }

  lemma {:induction false} ReadLabels(labels: seq<Label>, stack: Stacktrace, period: int, strings: seq<string>)
    requires LabelsOk(labels, stack, period, strings)
    ensures HasLabels(labels, strings, stack, period)
  {
    var expected := ExpectedLabels(stack, period);
    assert forall i :: 0 <= i < |labels| ==> Read(labels[i], strings) == Some(expected[i]);
    assert Read(labels[0], strings) == Some(expected[0]) && Read(labels[1], strings) == Some(expected[1]);
  }

  /** The location stands for this frame itself, line 0 read as -1. */
  ghost predicate StandsFor(p: Profile, locationId: nat, f: Frame) {
    Decodes(p, locationId, Frame(f.fileName, f.functionName, if f.line == 0 then -1 else f.line))
  }

  lemma {:induction false} NoColonsInAll(stacks: seq<Stacktrace>)
    requires forall i :: 0 <= i < |stacks| ==> NoColons(stacks[i].frames)
    ensures NoColons(AllFrames(stacks))
  {
    if stacks != [] {
      NoColonsInAll(stacks[..|stacks| - 1]);
    }
  }

  /** A CPU profile whose function names have no colon reads back as the stacks it was made from: every frame with its
      own file, function and line, in order, and every sample with its time, period and ids. */
  lemma {:induction false} CpuProfileReadsBack(p: Profile, stacks: seq<Stacktrace>, period: int)
    requires ProfileDecodes(p, stacks, period)
    requires forall i :: 0 <= i < |stacks| ==> NoColons(stacks[i].frames)
    ensures |p.samples| == |stacks|
    ensures forall i :: 0 <= i < |stacks| ==>
              && HasLabels(p.samples[i].labels, p.strings, stacks[i], period) && p.samples[i].values == []
              && |p.samples[i].locationIds| == |stacks[i].frames|
              && forall j :: 0 <= j < |stacks[i].frames| ==>
                   StandsFor(p, p.samples[i].locationIds[j], stacks[i].frames[j])
  {
    hide Decodes, Decoded, LabelsOk, HasLabels;
    NoColonsInAll(stacks);
    NoColonDecodes(AllFrames(stacks));
    forall i | 0 <= i < |stacks| ensures HasLabels(p.samples[i].labels, p.strings, stacks[i], period) {
      ReadLabels(p.samples[i].labels, stacks[i], period, p.strings);
    }
    forall i, j | 0 <= i < |stacks| && 0 <= j < |stacks[i].frames|
      ensures StandsFor(p, p.samples[i].locationIds[j], stacks[i].frames[j])
    {
      FramesAmongAll(stacks, i, j);
      assert Decoded(AllFrames(stacks), stacks[i].frames[j]) == Reported(stacks[i].frames[j]);
    }
  }

  lemma {:induction false} NoSamples(period: int, locationIndex: map<string, nat>, strings: seq<string>)
    ensures SamplesOk([], [], period, locationIndex, strings)
  {
  }

  lemma {:induction false} MakeSampleOk(s: Sample, stack: Stacktrace, period: int, locationIndex: map<string, nat>,
      strings: seq<string>)
    requires Located(s.locationIds, stack.frames, locationIndex) && LabelsOk(s.labels, stack, period, strings)
    requires s.values == []
    ensures SampleOk(s, stack, period, locationIndex, strings)
  {
  }

  lemma {:induction false} StringsGrow(functions: seq<Function>, functionIndex: map<string, nat>, strings: seq<string>,
                                       more: seq<string>, seen: seq<Frame>)
    requires FunctionsOk(functions, functionIndex, strings, seen) && strings <= more
    ensures FunctionsOk(functions, functionIndex, more, seen)
  {
    forall f | f in seen ensures FunctionIs(functions[functionIndex[FunctionKey(f)]], more, FirstLike(seen, f)) {
      FunctionStays(functions[functionIndex[FunctionKey(f)]], strings, more, FirstLike(seen, f));
    }
  }
}
