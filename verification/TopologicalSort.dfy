/** The order in which the type generator emits schema definitions. */
module TopologicalSort {

  /** JSON values; an object is its member names with the values beside them, in order. */
  datatype Json =
    | JString(s: string)
    | JObject(names: seq<string>, values: seq<Json>)
    | JArray(items: seq<Json>)
    | JOther

  type Definitions = map<string, Json>

  // ----- references

  predicate Distinct(s: seq<string>) {
    forall i, j :: 0 <= i < j < |s| ==> s[i] != s[j]
  }

  const DEFS_PREFIX := "#/$defs/"

  /** `s.replace('#/$defs/', '')`: drops the first occurrence of the prefix. */
  function StripPrefix(s: string): string {
    if |s| < |DEFS_PREFIX| then s
    else if s[..|DEFS_PREFIX|] == DEFS_PREFIX then s[|DEFS_PREFIX|..]
    else [s[0]] + StripPrefix(s[1..])
  }

  /** The reference an object is itself: the string its member `$ref` holds. */
  function OwnRef(names: seq<string>, values: seq<Json>): (r: seq<string>)
    ensures |r| <= 1
  {
    if names == [] || values == [] then []
    else if names[0] == "$ref" then (if values[0].JString? then [StripPrefix(values[0].s)] else [])
    else OwnRef(names[1..], values[1..])
  }

  function Add(refs: seq<string>, s: string): seq<string> {
    if s in refs then refs else refs + [s]
  }

  /** `collectRefs`: adds to `refs` the references anywhere inside `j`, each once, in the order met. */
  function CollectRefs(j: Json, refs: seq<string>): seq<string>
    decreases j, 0
  {
    match j
    case JObject(names, values) =>
      var own := OwnRef(names, values);
      CollectAll(values, if own == [] then refs else Add(refs, own[0]))
    case JArray(items) => CollectAll(items, refs)
    case _ => refs
  }

  function CollectAll(items: seq<Json>, refs: seq<string>): seq<string>
    decreases items
  {
    if items == [] then refs else CollectAll(items[1..], CollectRefs(items[0], refs))
  }

  // ----- what a reference names

  ghost predicate PrefixAt(s: string, k: nat) {
    k + 8 <= |s| && s[k..k + 8] == "#/$defs/"
  }

  /** The string `s` of a `$ref` names `v`: it is `v` but for the first `#/$defs/` in it, if there is one. */
  ghost predicate Names(s: string, v: string) {
    || (exists k: nat :: FirstPrefix(s, k) && v == s[..k] + s[k + 8..])
    || ((forall k: nat :: !PrefixAt(s, k)) && v == s)
  }

  ghost predicate FirstPrefix(s: string, k: nat) {
    PrefixAt(s, k) && forall l: nat :: l < k ==> !PrefixAt(s, l)
  }

  /** The member `$ref` is the `k`-th, the first of this name. */
  predicate RefAt(names: seq<string>, k: nat) {
    k < |names| && names[k] == "$ref" && forall l :: 0 <= l < k ==> names[l] != "$ref"
  }

  /** An object with these members refers to `v`: its member `$ref` is a string that names it. */
  ghost predicate Refers(names: seq<string>, values: seq<Json>, v: string) {
    exists k: nat :: RefAt(names, k) && k < |values| && values[k].JString? && Names(values[k].s, v)
  }

  /** An object somewhere inside `j` refers to `s`. */
  ghost predicate Occurs(j: Json, s: string) {
    match j
    case JObject(names, values) => Refers(names, values, s) || exists v :: v in values && Occurs(v, s)
    case JArray(items) => exists v :: v in items && Occurs(v, s)
    case _ => false
  }

  lemma {:induction false} PrefixShifts(s: string, k: nat)
    requires s != []
    ensures PrefixAt(s, k + 1) <==> PrefixAt(s[1..], k)
  {
    if k + 9 <= |s| {
      assert s[k + 1..k + 9] == s[1..][k..k + 8];
    }
  }

  /** Where the prefix is met first. */
  lemma {:induction false} StripPrefixAt(s: string, k: nat)
    requires FirstPrefix(s, k)
    ensures StripPrefix(s) == s[..k] + s[k + 8..]
  {
    if k == 0 {
      assert s[..8] == s[0..8];
    } else {
      assert !PrefixAt(s, 0) && s[..8] == s[0..8];
      forall l: nat | l < k - 1 ensures !PrefixAt(s[1..], l) {
        PrefixShifts(s, l);
      }
      PrefixShifts(s, k - 1);
      StripPrefixAt(s[1..], k - 1);
      assert s[1..][..k - 1] == s[1..k] && s[1..][k + 7..] == s[k + 8..];
      assert [s[0]] + s[1..k] == s[..k];
    }
  }

  lemma {:induction false} NothingToStrip(s: string)
    requires forall k: nat :: !PrefixAt(s, k)
    ensures StripPrefix(s) == s
  {
    if |s| >= 8 {
      assert !PrefixAt(s, 0) && s[..8] == s[0..8];
      forall k: nat ensures !PrefixAt(s[1..], k) {
        PrefixShifts(s, k);
      }
      NothingToStrip(s[1..]);
    }
  }

  lemma {:induction false} SomePrefix(s: string, k: nat) returns (first: nat)
    requires PrefixAt(s, k)
    ensures FirstPrefix(s, first)
  {
    if l: nat :| l < k && PrefixAt(s, l) {
      first := SomePrefix(s, l);
    } else {
      first := k;
    }
  }

  /** What is left of the string of a `$ref` is the one name it names. */
  lemma {:induction false} StripPrefixNames(s: string, v: string)
    ensures Names(s, v) <==> v == StripPrefix(s)
  {
    hide StripPrefix;
    if k: nat :| PrefixAt(s, k) {
      var first := SomePrefix(s, k);
      StripPrefixAt(s, first);
      assert forall l: nat :: FirstPrefix(s, l) ==> l == first;
    } else {
      NothingToStrip(s);
    }
  }

  /** A reference written with the prefix names the definition after it, whatever its name. */
  lemma {:induction false} PrefixedNames(v: string, w: string)
    ensures Names("#/$defs/" + v, w) <==> w == v
  {
    var s := "#/$defs/" + v;
    assert s[0..8] == "#/$defs/" && s[8..] == v;
    StripPrefixAt(s, 0);
    StripPrefixNames(s, w);
  }

  lemma {:induction false} OwnRefAt(names: seq<string>, values: seq<Json>, k: nat)
    requires RefAt(names, k) && k < |values|
    ensures OwnRef(names, values) == if values[k].JString? then [StripPrefix(values[k].s)] else []
  {
    if k > 0 {
      OwnRefAt(names[1..], values[1..], k - 1);
    }
  }

  lemma {:induction false} NoOwnRef(names: seq<string>, values: seq<Json>)
    requires forall k: nat :: RefAt(names, k) ==> k >= |values|
    ensures OwnRef(names, values) == []
  {
    if names != [] && values != [] {
      assert !RefAt(names, 0);
      forall k: nat | RefAt(names[1..], k) ensures k >= |values[1..]| {
        assert RefAt(names, k + 1);
      }
      NoOwnRef(names[1..], values[1..]);
    }
  }

  lemma {:induction false} OwnRefIs(names: seq<string>, values: seq<Json>, v: string)
    ensures v in OwnRef(names, values) <==> Refers(names, values, v)
  {
    hide Names, StripPrefix, OwnRef;
    if k: nat :| RefAt(names, k) && k < |values| {
      OwnRefAt(names, values, k);
      if values[k].JString? {
        StripPrefixNames(values[k].s, v);
      }
      assert forall l: nat :: RefAt(names, l) ==> l == k;
    } else {
      NoOwnRef(names, values);
    }
  }

  /** Collecting finds every reference inside `j` and nothing else, and lists each once. */
  lemma {:induction false} CollectsExactly(j: Json, refs: seq<string>, s: string)
    requires Distinct(refs)
    ensures Distinct(CollectRefs(j, refs))
    ensures s in CollectRefs(j, refs) <==> s in refs || Occurs(j, s)
    decreases j, 0
  {
    match j
    case JObject(names, values) =>
      var own := OwnRef(names, values);
      OwnRefIs(names, values, s);
      CollectsAllExactly(values, if own == [] then refs else Add(refs, own[0]), s);
    case JArray(items) => CollectsAllExactly(items, refs, s);
    case _ =>
  }

  lemma {:induction false} CollectsAllExactly(items: seq<Json>, refs: seq<string>, s: string)
    requires Distinct(refs)
    ensures Distinct(CollectAll(items, refs))
    ensures s in CollectAll(items, refs) <==> s in refs || exists v :: v in items && Occurs(v, s)
    decreases items
  {
    if items != [] {
      CollectsExactly(items[0], refs, s);
      CollectsAllExactly(items[1..], CollectRefs(items[0], refs), s);
      assert items == [items[0]] + items[1..];
    }
  }

  /** The references of one definition. */
  function Refs(defs: Definitions, u: string): seq<string> {
    if u in defs then CollectRefs(defs[u], []) else []
  }

  // ----- the reference graph

  ghost predicate Edge(defs: Definitions, u: string, v: string) {
    u in defs && v in defs && Occurs(defs[u], v)
  }

  /** The edges are the references collected. */
  lemma {:induction false} EdgeIsCollected(defs: Definitions, u: string, v: string)
    ensures Edge(defs, u, v) <==> u in defs && v in defs && v in Refs(defs, u)
  {
    if u in defs {
      CollectsExactly(defs[u], [], v);
    }
  }

  ghost predicate Path(defs: Definitions, p: seq<string>) {
    p != [] && forall i :: 0 <= i < |p| - 1 ==> Edge(defs, p[i], p[i + 1])
  }

  /** `u` reaches `v` along references; every definition reaches itself. */
  ghost predicate Reaches(defs: Definitions, u: string, v: string) {
    exists p :: Path(defs, p) && p[0] == u && p[|p| - 1] == v
  }

  lemma {:induction false} ReachesItself(defs: Definitions, u: string)
    ensures Reaches(defs, u, u)
  {
    assert Path(defs, [u]) && [u][0] == u;
  }

  lemma {:induction false} ReachesFurther(defs: Definitions, u: string, v: string, w: string)
    requires Reaches(defs, u, v) && Edge(defs, v, w)
    ensures Reaches(defs, u, w)
  {
    var p :| Path(defs, p) && p[0] == u && p[|p| - 1] == v;
    var q := p + [w];
    assert Path(defs, q) by {
      forall i | 0 <= i < |q| - 1 ensures Edge(defs, q[i], q[i + 1]) {
        if i < |p| - 1 {
          assert Edge(defs, p[i], p[i + 1]);
        }
      }
    }
    assert q[0] == u && q[|q| - 1] == w;
  }

  // ----- the order

  /** Every reference of `u` is emitted among `before`, or reaches `u` itself. */
  ghost predicate Ready(defs: Definitions, before: seq<string>, u: string) {
    forall v :: Edge(defs, u, v) ==> v in before || Reaches(defs, v, u)
  }

  /** Each definition is emitted after the ones it references, except along cycles. */
  ghost predicate Ordered(defs: Definitions, sorted: seq<string>) {
    forall i :: 0 <= i < |sorted| ==> Ready(defs, sorted[..i], sorted[i])
  }

  lemma {:induction false} OrderedAppend(defs: Definitions, sorted: seq<string>, u: string)
    requires Ordered(defs, sorted) && Ready(defs, sorted, u)
    ensures Ordered(defs, sorted + [u])
  {
    forall i | 0 <= i < |sorted + [u]| ensures Ready(defs, (sorted + [u])[..i], (sorted + [u])[i]) {
      assert (sorted + [u])[..i] == sorted[..i];
      if i == |sorted| {
        assert sorted[..i] == sorted;
      }
    }
  }

  /** While `name` is visited, everything on the stack reaches its references. */
  lemma {:induction false} StackReaches(defs: Definitions, outer: set<string>, name: string, ref: string)
    requires forall x :: x in outer ==> Reaches(defs, x, name)
    requires name in defs && ref in defs && ref in Refs(defs, name)
    ensures forall x :: x in outer + {name} ==> Reaches(defs, x, ref)
  {
    ReachesItself(defs, name);
    EdgeIsCollected(defs, name, ref);
    forall x | x in outer + {name} ensures Reaches(defs, x, ref) {
      ReachesFurther(defs, x, name, ref);
    }
  }

  /** The first `i` references are visited, or being visited. */
  ghost predicate Handled(defs: Definitions, refs: seq<string>, i: nat, done: set<string>) {
    forall k :: 0 <= k < i && k < |refs| && refs[k] in defs ==> refs[k] in done
  }

  lemma {:induction false} HandledNext(defs: Definitions, refs: seq<string>, i: nat, done: set<string>,
      more: set<string>)
    requires Handled(defs, refs, i, done) && done <= more && i < |refs| && (refs[i] in defs ==> refs[i] in more)
    ensures Handled(defs, refs, i + 1, more)
  {
  }

  /** The definitions emitted are exactly the visited ones, each once and in order, and none is being visited. */
  ghost predicate Sorting(defs: Definitions, sorted: seq<string>, visited: set<string>, visiting: set<string>) {
    && visited <= defs.Keys && visiting <= defs.Keys
    && visited !! visiting
    && (forall x :: x in sorted <==> x in visited)
    && Distinct(sorted)
    && Ordered(defs, sorted)
  }

  lemma {:induction false} OpenKeeps(defs: Definitions, sorted: seq<string>, visited: set<string>, outer: set<string>,
      name: string)
    requires Sorting(defs, sorted, visited, outer) && name in defs && name !in visited && name !in outer
    ensures Sorting(defs, sorted, visited, outer + {name})
    ensures |defs.Keys - (outer + {name})| < |defs.Keys - outer|
  {
    SmallerWithout(defs.Keys, outer, name);
  }

  lemma {:induction false} EmitKeeps(defs: Definitions, sorted: seq<string>, visited: set<string>, outer: set<string>,
      name: string)
    requires Sorting(defs, sorted, visited, outer + {name}) && name !in outer && Ready(defs, sorted, name)
    ensures Sorting(defs, sorted + [name], visited + {name}, outer)
    ensures outer + {name} - {name} == outer
  {
    hide Ordered, Ready;
    OrderedAppend(defs, sorted, name);
  }

  lemma {:induction false} BecomesReady(defs: Definitions, sorted: seq<string>, visited: set<string>,
      outer: set<string>, name: string)
    requires forall x :: x in outer ==> Reaches(defs, x, name)
    requires Handled(defs, Refs(defs, name), |Refs(defs, name)|, visited + (outer + {name}))
    requires Sorting(defs, sorted, visited, outer + {name})
    ensures Ready(defs, sorted, name)
  {
    ReachesItself(defs, name);
    hide Reaches;
    forall v | Edge(defs, name, v) ensures v in sorted || Reaches(defs, v, name) {
      EdgeIsCollected(defs, name, v);
      var k :| 0 <= k < |Refs(defs, name)| && Refs(defs, name)[k] == v;
    }
  }

  class Sorter {
    const defs: Definitions
    var sorted: seq<string>
    var visited: set<string>
    var visiting: set<string>

    ghost predicate Valid()
      reads this
    {
      Sorting(defs, sorted, visited, visiting)
    }

    constructor (defs: Definitions)
      ensures Valid() && this.defs == defs && sorted == [] && visited == {} && visiting == {}
    {
      this.defs := defs;
      sorted, visited, visiting := [], {}, {};
    }

    /** The recursive `visit`. */
    method Visit(name: string)
      requires Valid() && name in defs
      requires forall x :: x in visiting ==> Reaches(defs, x, name)
      modifies this
      ensures Valid() && visiting == old(visiting)
      ensures old(visited) <= visited
      ensures name in visited || name in visiting
      decreases |defs.Keys - visiting|
    {
      hide Refs, Reaches, Edge, Ready, Handled, Sorting;
      if name in visited {
        return;
      }
      if name in visiting {
        return;
      }
      ghost var outer := visiting;
      OpenKeeps(defs, sorted, visited, outer, name);
      visiting := visiting + {name};
      var refs := Refs(defs, name);
      NoneHandled(defs, refs, visited + visiting);
      for i := 0 to |refs|
        invariant Valid() && visiting == outer + {name} && old(visited) <= visited
        invariant Handled(defs, refs, i, visited + visiting)
      {
        ghost var done := visited + visiting;
        if refs[i] in defs {
          StackReaches(defs, outer, name, refs[i]);
          Visit(refs[i]);
        }
        HandledNext(defs, refs, i, done, visited + visiting);
      }
      BecomesReady(defs, sorted, visited, outer, name);
      EmitKeeps(defs, sorted, visited, outer, name);
      visiting := visiting - {name};
      visited := visited + {name};
      sorted := sorted + [name];
    }
  }

  lemma {:induction false} SmallerWithout<T>(all: set<T>, s: set<T>, x: T)
    requires x in all && x !in s
    ensures |all - (s + {x})| < |all - s|
  {
    assert all - s == (all - (s + {x})) + {x};
  }

  lemma {:induction false} NoneHandled(defs: Definitions, refs: seq<string>, done: set<string>)
    ensures Handled(defs, refs, 0, done)
  {
  }

  /** `topologicalSort`, over the definition names in the order `Object.keys` lists them: every definition is
      emitted exactly once, and after the definitions it references unless they reach it. */
  method Sort(defs: Definitions, names: seq<string>) returns (sorted: seq<string>)
    requires Distinct(names) && forall x :: x in names <==> x in defs
    ensures Distinct(sorted) && (forall x :: x in sorted <==> x in defs)
    ensures Ordered(defs, sorted)
  {
    var sorter := new Sorter(defs);
    for i := 0 to |names|
      invariant sorter.Valid() && sorter.defs == defs && sorter.visiting == {}
      invariant forall k :: 0 <= k < i ==> names[k] in sorter.visited
    {
      sorter.Visit(names[i]);
    }
    sorted := sorter.sorted;
  }

  /** What the order means for two emitted definitions: a reference that is not part of a cycle comes first. */
  lemma {:induction false} ReferenceComesFirst(defs: Definitions, sorted: seq<string>, i: nat, j: nat)
    requires Ordered(defs, sorted) && Distinct(sorted) && i < |sorted| && j < |sorted|
    requires Edge(defs, sorted[i], sorted[j]) && !Reaches(defs, sorted[j], sorted[i])
    ensures j < i
  {
    assert Ready(defs, sorted[..i], sorted[i]);
    var k :| 0 <= k < i && sorted[..i][k] == sorted[j];
    assert sorted[k] == sorted[j];
  }

  ghost predicate Acyclic(defs: Definitions) {
    forall u, v :: Edge(defs, u, v) ==> !Reaches(defs, v, u)
  }

  /** On an acyclic schema every dependency comes first. */
  lemma {:induction false} DependenciesFirst(defs: Definitions, sorted: seq<string>, i: nat, v: string)
    requires Ordered(defs, sorted) && Acyclic(defs) && i < |sorted| && Edge(defs, sorted[i], v)
    ensures v in sorted[..i]
  {
    assert Ready(defs, sorted[..i], sorted[i]);
  }

  /** Conversely, when every dependency comes first in some order of all definitions, there is no cycle. */
  lemma {:induction false} OrderRulesOutCycles(defs: Definitions, sorted: seq<string>)
    requires Distinct(sorted) && forall x :: x in sorted <==> x in defs
    requires forall i, v :: 0 <= i < |sorted| && Edge(defs, sorted[i], v) ==> v in sorted[..i]
    ensures Acyclic(defs)
  {
    forall u, v | Edge(defs, u, v) ensures !Reaches(defs, v, u) {
      if Reaches(defs, v, u) {
        var p :| Path(defs, p) && p[0] == v && p[|p| - 1] == u;
        var i :| 0 <= i < |sorted| && sorted[i] == u;
        var j :| 0 <= j < i && sorted[..i][j] == v;
        PathDescends(defs, sorted, p, j, |p| - 1);
        assert false;
      }
    }
  }

  /** Along a path the positions only go down. */
  lemma {:induction false} PathDescends(defs: Definitions, sorted: seq<string>, p: seq<string>, j: nat, m: nat)
    requires Distinct(sorted) && Path(defs, p) && m < |p| && j < |sorted| && sorted[j] == p[0]
    requires forall i, v :: 0 <= i < |sorted| && Edge(defs, sorted[i], v) ==> v in sorted[..i]
    ensures exists k :: 0 <= k <= j && sorted[k] == p[m]
  {
    if m > 0 {
      PathDescends(defs, sorted, p, j, m - 1);
      var k :| 0 <= k <= j && sorted[k] == p[m - 1];
      assert Edge(defs, p[m - 1], p[m]);
      var l :| 0 <= l < k && sorted[..k][l] == p[m];
      assert sorted[l] == p[m];
    }
  }
}
